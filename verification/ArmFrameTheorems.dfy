/** Prolog and epilog undo each other, and exactly when they can be encoded. */
module ArmFrameTheorems {
  import opened Values
  import opened ArmFrame

  // ---- the slots of the save area ----

  /** Slots in ascending order, each pair 16 bytes at least, between `lo` and `hi`. */
  ghost predicate Spaced(pairs: seq<RegPair>, lo: nat, hi: nat) {
    && (forall k | 0 <= k < |pairs| :: lo <= pairs[k].offset && pairs[k].offset + 16 <= hi && pairs[k].offset % 16 == 0)
    && (forall j, k | 0 <= j < k < |pairs| :: pairs[j].offset + 16 <= pairs[k].offset)
    && (pairs != [] ==> pairs[0].offset == lo)
  }

  lemma PairsSpaced(ids: seq<nat>, size: nat, start: nat)
    requires (size == 16 || size == 32) && start % 16 == 0
    ensures Spaced(Pairs(ids, size, start), start, start + if size == 16 then 16 * |Pairs(ids, size, start)|
              else 32 * |Pairs(ids, size, start)|)
  {
    hide FullPairs;
    var pairs := Pairs(ids, size, start);
    PairOffsets(ids, size, start);
    if size == 16 { EvenlySpaced(pairs, 16, start); } else { EvenlySpaced(pairs, 32, start); }
  }

  lemma PairOffsets(ids: seq<nat>, size: nat, start: nat)
    requires size == 16 || size == 32
    ensures forall k | 0 <= k < |Pairs(ids, size, start)| ::
              Pairs(ids, size, start)[k].offset == start + if size == 16 then 16 * k else 32 * k
  {
    var pairs := Pairs(ids, size, start);
    forall k | 0 <= k < |pairs| ensures pairs[k].offset == start + (if size == 16 then 16 * k else 32 * k) {
      if k == |ids| / 2 { assert pairs[k] == RegPair(ids[|ids| - 1], 0, true, start + size * (|ids| / 2)); }
    }
  }

  lemma EvenlySpaced(pairs: seq<RegPair>, size: nat, start: nat)
    requires (size == 16 || size == 32) && start % 16 == 0
    requires forall k | 0 <= k < |pairs| :: pairs[k].offset == start + if size == 16 then 16 * k else 32 * k
    ensures Spaced(pairs, start, start + if size == 16 then 16 * |pairs| else 32 * |pairs|)
  {
    if size == 16 {
      assert forall k | 0 <= k < |pairs| :: pairs[k].offset == start + 16 * k;
    } else {
      assert forall k | 0 <= k < |pairs| :: pairs[k].offset == start + 32 * k;
    }
  }

  lemma SpacedCons(p: RegPair, pairs: seq<RegPair>, lo: nat)
    requires p.offset == lo && lo % 16 == 0 && Spaced(pairs, lo + 16, lo + 16 + 16 * |pairs|)
    ensures Spaced([p] + pairs, lo, lo + 16 * (|pairs| + 1))
  {
  }

  lemma GroupSpaced(f: FuncFrame, g: Group, offset: nat)
    requires offset % 16 == 0
    ensures var pairs := GroupPairs(f, g, offset); Spaced(pairs, offset, offset + Sized(f, g, |pairs|))
  {
    hide Pairs, Listed, Spaced;
    var size := f.PairSize(g);
    if g.Gp? && f.preservedFP {
      PairsSpaced(Listed(f, g), size, offset + size);
      SpacedCons(RegPair(FP, LR, false, offset), Pairs(Listed(f, g), size, offset + size), offset);
    } else {
      PairsSpaced(Listed(f, g), size, offset);
    }
  }

  /** All slots are disjoint and inside the area that the prolog reserves. */
  lemma SlotsDisjoint(f: FuncFrame)
    ensures Spaced(GpPairs(f), 0, 16 * |GpPairs(f)|)
    ensures Spaced(VecPairs(f), 16 * |GpPairs(f)|, SizeTotal(f))
    ensures SizeTotal(f) % 16 == 0
    ensures forall j, k | 0 <= j < |GpPairs(f)| && 0 <= k < |VecPairs(f)| ::
              GpPairs(f)[j].offset + 16 <= VecPairs(f)[k].offset
  {
    hide GroupPairs, Spaced, Sized;
    GroupSpaced(f, Gp, 0);
    GroupSpaced(f, Vec, 16 * |GpPairs(f)|);
    SizedAligned(f, Gp, |GpPairs(f)|);
    SizedAligned(f, Vec, |VecPairs(f)|);
    GroupsApart(GpPairs(f), VecPairs(f), 16 * |GpPairs(f)|, SizeTotal(f));
  }

  lemma SizedAligned(f: FuncFrame, g: Group, n: nat)
    ensures Sized(f, g, n) % 16 == 0 && (g.Gp? ==> Sized(f, g, n) == 16 * n)
  {
    Sixteens(n);
    Sixteens(2 * n);
  }

  lemma Sixteens(n: nat)
    ensures 16 * n % 16 == 0
  {
  }

  lemma GroupsApart(gps: seq<RegPair>, vecs: seq<RegPair>, mid: nat, hi: nat)
    requires Spaced(gps, 0, mid) && Spaced(vecs, mid, hi)
    ensures forall j, k | 0 <= j < |gps| && 0 <= k < |vecs| :: gps[j].offset + 16 <= vecs[k].offset
  {
  }

  predicate InPairs(pairs: seq<RegPair>, r: nat) {
    exists k :: 0 <= k < |pairs| && (pairs[k].first == r || (!pairs[k].single && pairs[k].second == r))
  }

  lemma PairsCover(ids: seq<nat>, size: nat, start: nat, r: nat)
    requires r in ids
    ensures InPairs(Pairs(ids, size, start), r)
  {
    var pairs := Pairs(ids, size, start);
    var i :| 0 <= i < |ids| && ids[i] == r;
    var k := i / 2;
    if k < |ids| / 2 {
      assert pairs[k] == FullPairs(ids, size, start)[k];
    } else {
      assert pairs[k] == RegPair(ids[|ids| - 1], 0, true, start + size * (|ids| / 2));
    }
  }

  /** Every register that the frame saves has a slot. */
  lemma SavedHaveSlots(f: FuncFrame, g: Group, r: nat, offset: nat)
    requires f.Valid() && (r in f.Saved(g) || (g.Gp? && f.preservedFP && (r == FP || r == LR)))
    ensures InPairs(GroupPairs(f, g, offset), r)
  {
    hide Pairs;
    var size := f.PairSize(g);
    var pairs := GroupPairs(f, g, offset);
    if g.Gp? && f.preservedFP {
      if r == FP || r == LR {
        assert pairs[0] == RegPair(FP, LR, false, offset);
      } else {
        var rest := Pairs(Listed(f, g), size, offset + size);
        PairsCover(Listed(f, g), size, offset + size, r);
        var k :| 0 <= k < |rest| && (rest[k].first == r || (!rest[k].single && rest[k].second == r));
        assert pairs[k + 1] == rest[k];
      }
    } else {
      PairsCover(Listed(f, g), size, offset, r);
    }
  }

  /** Behind the first pair, the frame pointer is not saved again. */
  ghost predicate FpFirst(g: Group, pairs: seq<RegPair>, fp: bool) {
    g.Gp? && fp ==> forall k | 0 < k < |pairs| :: pairs[k].first != FP && (!pairs[k].single ==> pairs[k].second != FP)
  }

  lemma FpIsFirst(f: FuncFrame)
    ensures FpFirst(Gp, GpPairs(f), f.preservedFP) && FpFirst(Vec, VecPairs(f), f.preservedFP)
  {
    if f.preservedFP {
      var ids := Listed(f, Gp);
      var rest := Pairs(ids, 16, 16);
      forall k | 0 < k < |GpPairs(f)|
        ensures GpPairs(f)[k].first != FP && (!GpPairs(f)[k].single ==> GpPairs(f)[k].second != FP)
      {
        assert GpPairs(f)[k] == rest[k - 1];
        if k - 1 < |ids| / 2 {
          assert rest[k - 1] == FullPairs(ids, 16, 16)[k - 1];
          assert ids[2 * (k - 1)] in ids && ids[2 * (k - 1) + 1] in ids;
        } else {
          assert rest[k - 1].first == ids[|ids| - 1] && ids[|ids| - 1] in ids;
        }
      }
    }
  }

  // ---- saving ----

  /** The first `n` pairs are in their slots with the values of `entry`. */
  ghost predicate Held(c: Cpu, base: int, g: Group, pairs: seq<RegPair>, n: nat, entry: Cpu) {
    forall k | 0 <= k < n && k < |pairs| ::
      && c.Load(base + pairs[k].offset) == entry.Get(Loc(g, pairs[k].first))
      && (!pairs[k].single ==> c.Load(base + pairs[k].offset + 8) == entry.Get(Loc(g, pairs[k].second)))
  }

  /** No register has changed since `entry`, the frame pointer excepted when `fp`. */
  ghost predicate RegsKept(c: Cpu, entry: Cpu, fp: bool) {
    forall l: Loc | !(fp && l == Loc(Gp, FP)) :: c.Get(l) == entry.Get(l)
  }

  /** Where the stack pointer is before and after a group is saved. */
  ghost predicate Starts(pairs: seq<RegPair>, sp: int, base: int, total: nat) {
    pairs != [] ==> if pairs[0].offset == 0 then sp == base + total else sp == base
  }

  /** Only memory from `lo` to `total` above `base` has changed; no vector register has, and
      the code has not returned. */
  ghost predicate Apart(c: Cpu, c1: Cpu, base: int, lo: nat, total: nat) {
    && c1.upper == c.upper && c1.returned.None?
    && forall a | a < base + lo || a >= base + total :: c1.Load(a) == c.Load(a)
  }

  lemma ApartSame(c: Cpu, base: int, lo: nat, total: nat)
    requires c.returned.None?
    ensures Apart(c, c, base, lo, total)
  {
  }

  lemma ApartThen(c: Cpu, c1: Cpu, c2: Cpu, base: int, lo: nat, total: nat)
    requires Apart(c, c1, base, lo, total) && Apart(c1, c2, base, lo, total)
    ensures Apart(c, c2, base, lo, total)
  {
  }

  lemma {:induction false} SaveRun(g: Group, pairs: seq<RegPair>, n: nat, fp: bool, total: nat, lo: nat, c: Cpu,
      base: int, entry: Cpu)
    returns (c1: Cpu)
    requires n <= |pairs| && Spaced(pairs, lo, total) && FpFirst(g, pairs, fp) && Starts(pairs, c.sp, base, total)
    requires RegsKept(c, entry, fp && !(g.Gp? && n > 0)) && c.returned.None?
    ensures c1 == ExecAll(SaveCode(g, pairs, n, fp, total), c)
    ensures Held(c1, base, g, pairs, n, entry) && RegsKept(c1, entry, fp)
    ensures Apart(c, c1, base, lo, total) && c1.returned.None?
    ensures n > 0 ==> c1.sp == base && (fp ==> c1.Get(Loc(Gp, FP)) == base)
    ensures n == 0 ==> c1 == c
    decreases n, 0
  {
    hide ExecAll, SaveIns, Exec, Held, RegsKept, Starts, FpFirst, Cpu.Get;
    ApartSame(c, base, lo, total);
    RegsKeptMore(c, c, entry, fp && !(g.Gp? && n > 0), fp);
    if n == 0 {
      c1 := c;
      NothingRuns(c);
      NoneHeld(c, base, g, pairs, entry);
      return;
    }
    RegsKeptMore(c, c, entry, fp && !(g.Gp? && n > 0), fp && !g.Gp?);
    var c2 := SaveBefore(g, pairs, n - 1, fp, total, lo, c, base, entry);
    var ins := SaveIns(g, pairs[n - 1], total);
    SavePair(g, pairs, n - 1, fp, total, lo, c2, base, entry);
    var c3 := Exec(ins, c2);
    ApartThen(c, c2, c3, base, lo, total);
    ExecAppend(SaveCode(g, pairs, n - 1, fp, total), [ins], c);
    OneRuns(ins, c2);
    RegsKeptMore(c2, c3, entry, fp && (n > 1 || !g.Gp?), fp);
    if n == 1 && fp {
      FramePointerSet(c3, base, g, pairs, n, entry);
      c1 := Exec(MovFpSp, c3);
      ExecAppend(SaveCode(g, pairs, n - 1, fp, total) + [ins], [MovFpSp], c);
      OneRuns(MovFpSp, c3);
    } else {
      c1 := c3;
      assert SaveCode(g, pairs, n - 1, fp, total) + [ins] + [] == SaveCode(g, pairs, n - 1, fp, total) + [ins];
    }
  }

  lemma NoneHeld(c: Cpu, base: int, g: Group, pairs: seq<RegPair>, entry: Cpu)
    ensures Held(c, base, g, pairs, 0, entry)
  {
  }

  lemma NothingRuns(c: Cpu)
    ensures ExecAll([], c) == c
  {
  }

  lemma OneRuns(i: Ins, c: Cpu)
    requires c.returned.None?
    ensures ExecAll([i], c) == Exec(i, c)
  {
    assert [i][1..] == [];
  }

  /** The pairs before the last one; the frame pointer still has its value if it is to be
      saved by that one. */
  lemma {:induction false} SaveBefore(g: Group, pairs: seq<RegPair>, n: nat, fp: bool, total: nat, lo: nat, c: Cpu,
      base: int, entry: Cpu)
    returns (c1: Cpu)
    requires n < |pairs| && Spaced(pairs, lo, total) && FpFirst(g, pairs, fp) && Starts(pairs, c.sp, base, total)
    requires RegsKept(c, entry, fp && !g.Gp?) && c.returned.None?
    ensures c1 == ExecAll(SaveCode(g, pairs, n, fp, total), c)
    ensures Held(c1, base, g, pairs, n, entry) && RegsKept(c1, entry, fp && (n > 0 || !g.Gp?))
    ensures Apart(c, c1, base, lo, total)
    ensures n > 0 ==> c1.sp == base && (fp ==> c1.Get(Loc(Gp, FP)) == base)
    ensures n == 0 ==> c1 == c
    decreases n, 1
  {
    hide ExecAll, SaveCode;
    ApartSame(c, base, lo, total);
    if n == 0 {
      c1 := c;
      SaveNone(g, pairs, fp, total);
      NothingRuns(c);
    } else {
      c1 := SaveRun(g, pairs, n, fp, total, lo, c, base, entry);
    }
  }

  lemma SaveNone(g: Group, pairs: seq<RegPair>, fp: bool, total: nat)
    ensures SaveCode(g, pairs, 0, fp, total) == []
  {
  }

  /** One pair goes to its slots and disturbs no other. */
  lemma SavePair(g: Group, pairs: seq<RegPair>, k: nat, fp: bool, total: nat, lo: nat, c: Cpu, base: int, entry: Cpu)
    requires k < |pairs| && Spaced(pairs, lo, total) && FpFirst(g, pairs, fp)
    requires if k == 0 then Starts(pairs, c.sp, base, total) else c.sp == base
    requires RegsKept(c, entry, fp && (k > 0 || !g.Gp?)) && Held(c, base, g, pairs, k, entry) && c.returned.None?
    ensures var c1 := Exec(SaveIns(g, pairs[k], total), c);
            && Held(c1, base, g, pairs, k + 1, entry) && c1.sp == base && c1.regs == c.regs
            && c1.Get(Loc(Gp, FP)) == c.Get(Loc(Gp, FP)) && Apart(c, c1, base, lo, total)
  {
    hide Exec, SaveIns;
    var p := pairs[k];
    var c1 := Exec(SaveIns(g, p, total), c);
    StoreEffect(g, p, total, c);
    assert c.Get(Loc(g, p.first)) == entry.Get(Loc(g, p.first));
    forall j | 0 <= j < k + 1
      ensures c1.Load(base + pairs[j].offset) == entry.Get(Loc(g, pairs[j].first))
      ensures !pairs[j].single ==> c1.Load(base + pairs[j].offset + 8) == entry.Get(Loc(g, pairs[j].second))
    {
      if j < k { assert pairs[j].offset + 16 <= pairs[k].offset; }
    }
  }

  /** What the store of a pair does: its slots get its registers, nothing else changes. */
  lemma StoreEffect(g: Group, p: RegPair, total: nat, c: Cpu)
    ensures var c1 := Exec(SaveIns(g, p, total), c);
            && c1.regs == c.regs && c1.upper == c.upper && c1.returned == c.returned
            && c1.sp == (if p.offset == 0 && total != 0 then c.sp - total else c.sp)
            && forall a ::
                 c1.Load(a) == if !p.single && a == c1.sp + p.offset + 8 then c.Get(Loc(g, p.second))
                               else if a == c1.sp + p.offset then c.Get(Loc(g, p.first)) else c.Load(a)
  {
    hide Cpu.Get;
    if p.offset == 0 && total != 0 {
      assert SaveIns(g, p, total) == StoreRegs(g, p, PreIndex, 0 - total);
    } else {
      assert SaveIns(g, p, total) == StoreRegs(g, p, Offset, p.offset);
    }
  }

  /** Setting the frame pointer changes no slot and no other register. */
  lemma FramePointerSet(c: Cpu, base: int, g: Group, pairs: seq<RegPair>, n: nat, entry: Cpu)
    requires Held(c, base, g, pairs, n, entry) && RegsKept(c, entry, true)
    ensures var c1 := Exec(MovFpSp, c);
            && Held(c1, base, g, pairs, n, entry) && RegsKept(c1, entry, true) && c1.sp == c.sp
            && c1.Get(Loc(Gp, FP)) == c.sp && c1.upper == c.upper && c1.returned == c.returned
            && forall a :: c1.Load(a) == c.Load(a)
  {
    HeldMem(c, Exec(MovFpSp, c), base, g, pairs, n, entry);
  }

  lemma RegsKeptMore(c: Cpu, c1: Cpu, entry: Cpu, fp: bool, fp1: bool)
    requires RegsKept(c, entry, fp) && c1.regs == c.regs && (fp ==> fp1)
    ensures RegsKept(c1, entry, fp1)
  {
  }

  // ---- restoring ----

  ghost predicate Restored(c: Cpu, g: Group, pairs: seq<RegPair>, n: nat, entry: Cpu) {
    forall k | 0 <= k < n && k < |pairs| ::
      && c.Get(Loc(g, pairs[k].first)) == entry.Get(Loc(g, pairs[k].first))
      && (!pairs[k].single ==> c.Get(Loc(g, pairs[k].second)) == entry.Get(Loc(g, pairs[k].second)))
  }

  /** A register that was right stays right: every load brings back a value of `entry`. */
  ghost predicate StaysRight(c: Cpu, c1: Cpu, entry: Cpu) {
    forall l: Loc | c.Get(l) == entry.Get(l) :: c1.Get(l) == entry.Get(l)
  }

  lemma {:induction false} RestoreRun(g: Group, pairs: seq<RegPair>, n: nat, total: nat, lo: nat, c: Cpu, base: int,
      entry: Cpu)
    returns (c1: Cpu)
    requires n <= |pairs| && Spaced(pairs, lo, total) && Held(c, base, g, pairs, n, entry) && c.sp == base
    requires c.returned.None?
    ensures c1 == ExecAll(RestoreCode(g, pairs, n, total), c) && c1.returned.None?
    ensures Restored(c1, g, pairs, n, entry) && StaysRight(c, c1, entry) && c1.mem == c.mem
    ensures c1.sp == if n > 0 && pairs[0].offset == 0 then base + total else base
    decreases n
  {
    hide ExecAll, RestoreIns, Exec, Held, Restored, StaysRight, Spaced;
    if n == 0 {
      c1 := c;
      NothingRuns(c);
      NothingRestored(c, g, pairs, entry);
      return;
    }
    var ins := RestoreIns(g, pairs[n - 1], total);
    var c2 := Exec(ins, c);
    LoadPair(g, pairs, n - 1, total, lo, c, base, entry);
    ExecAppend([ins], RestoreCode(g, pairs, n - 1, total), c);
    OneRuns(ins, c);
    if n == 1 {
      c1 := c2;
      NothingRuns(c2);
      NothingRestored(c2, g, pairs, entry);
    } else {
      c1 := RestoreRun(g, pairs, n - 1, total, lo, c2, base, entry);
    }
    RestoredNext(c, c2, c1, g, pairs, n, entry);
  }

  lemma NothingRestored(c: Cpu, g: Group, pairs: seq<RegPair>, entry: Cpu)
    ensures Restored(c, g, pairs, 0, entry) && StaysRight(c, c, entry)
  {
  }

  /** The last pair is loaded first, and stays right while the others are. */
  lemma RestoredNext(c: Cpu, c2: Cpu, c1: Cpu, g: Group, pairs: seq<RegPair>, n: nat, entry: Cpu)
    requires 0 < n <= |pairs| && StaysRight(c, c2, entry) && StaysRight(c2, c1, entry)
    requires Restored(c1, g, pairs, n - 1, entry)
    requires c2.Get(Loc(g, pairs[n - 1].first)) == entry.Get(Loc(g, pairs[n - 1].first))
    requires !pairs[n - 1].single ==> c2.Get(Loc(g, pairs[n - 1].second)) == entry.Get(Loc(g, pairs[n - 1].second))
    ensures Restored(c1, g, pairs, n, entry) && StaysRight(c, c1, entry)
  {
  }

  lemma LoadPair(g: Group, pairs: seq<RegPair>, k: nat, total: nat, lo: nat, c: Cpu, base: int, entry: Cpu)
    requires k < |pairs| && Spaced(pairs, lo, total) && Held(c, base, g, pairs, k + 1, entry) && c.sp == base
    ensures var c1 := Exec(RestoreIns(g, pairs[k], total), c);
            && c1.mem == c.mem && c1.returned == c.returned
            && Held(c1, base, g, pairs, k, entry) && StaysRight(c, c1, entry)
            && c1.Get(Loc(g, pairs[k].first)) == entry.Get(Loc(g, pairs[k].first))
            && (!pairs[k].single ==> c1.Get(Loc(g, pairs[k].second)) == entry.Get(Loc(g, pairs[k].second)))
            && c1.sp == if k == 0 && pairs[0].offset == 0 then base + total else base
  {
    hide Exec, RestoreIns;
    var p := pairs[k];
    LoadEffect(g, p, total, c);
    assert c.Load(base + p.offset) == entry.Get(Loc(g, p.first));
    HeldMem(c, Exec(RestoreIns(g, p, total), c), base, g, pairs, k, entry);
    if k > 0 { assert pairs[0].offset + 16 <= p.offset; }
  }

  /** What the load of a pair does: its registers come from its slots, no other register
      and no memory changes. */
  lemma LoadEffect(g: Group, p: RegPair, total: nat, c: Cpu)
    ensures var c1 := Exec(RestoreIns(g, p, total), c);
            && c1.mem == c.mem && c1.returned == c.returned
            && c1.sp == (if p.offset == 0 && total != 0 then c.sp + total else c.sp)
            && forall l: Loc ::
                 c1.Get(l) == if !p.single && l == Loc(g, p.second) then c.Load(c.sp + p.offset + 8)
                              else if l == Loc(g, p.first) then c.Load(c.sp + p.offset) else c.Get(l)
  {
  }

  // ---- the theorem ----

  lemma AdjustRuns(adj: nat, down: bool, c: Cpu)
    requires c.returned.None?
    ensures ExecAll(AdjustBy(adj, down), c) == c.(sp := if down then c.sp - adj else c.sp + adj)
  {
    var code := AdjustBy(adj, down);
    if |code| == 2 {
      assert code == [code[0]] + [code[1]];
      ExecAppend([code[0]], [code[1]], c);
      OneRuns(code[0], c);
      OneRuns(code[1], Exec(code[0], c));
    } else if |code| == 1 {
      assert code == [code[0]];
      OneRuns(code[0], c);
    }
  }

  /** After the prolog: the stack pointer is below the save area and the locals, and
      every saved register is in its slot, vector registers with their lower half. With a
      frame pointer, x29 is the address of the save area and of the pair of x29 and x30 on
      entry. Every other register has its entry value, and memory outside the save area is
      untouched. */
  lemma AfterProlog(f: FuncFrame, bti: bool, c0: Cpu)
    requires c0.returned.None?
    ensures var c1, base := ExecAll(Prolog(f, bti), c0), c0.sp - SizeTotal(f);
            && c1.sp == base - f.adjustment
            && Held(c1, base, Gp, GpPairs(f), |GpPairs(f)|, c0) && Held(c1, base, Vec, VecPairs(f), |VecPairs(f)|, c0)
            && RegsKept(c1, c0, f.preservedFP) && Apart(c0, c1, base, 0, SizeTotal(f))
            && (f.preservedFP ==>
                  && c1.Get(Loc(Gp, FP)) == base
                  && c1.Load(base) == c0.Get(Loc(Gp, FP)) && c1.Load(base + 8) == c0.Get(Loc(Gp, LR)))
  {
    hide ExecAll, GpPairs, VecPairs, SizeTotal, SaveCode, Held, RegsKept, Exec, AdjustBy, Cpu.Get, Apart;
    var gps, vecs, total, fp := GpPairs(f), VecPairs(f), SizeTotal(f), f.preservedFP;
    var base := c0.sp - total;
    var head: seq<Ins> := if bti then [Bti] else [];
    HeadRuns(bti, c0);
    AreaStarts(f, c0.sp);
    SlotsDisjoint(f);
    FpIsFirst(f);
    RegsSame(c0, fp);
    GpInArea(f);
    var c1 := SaveRun(Gp, gps, |gps|, fp, total, 0, c0, base, c0);
    var c2 := SaveRun(Vec, vecs, |vecs|, fp, total, 16 * |gps|, c1, base, c0);
    ApartBoth(c0, c1, c2, base, 16 * |gps|, total, c2.sp);
    AdjustRuns(f.adjustment, true, c2);
    ExecAppend(head, SaveCode(Gp, gps, |gps|, fp, total), c0);
    ExecAppend(head + SaveCode(Gp, gps, |gps|, fp, total), SaveCode(Vec, vecs, |vecs|, fp, total), c0);
    ExecAppend(head + SaveCode(Gp, gps, |gps|, fp, total) + SaveCode(Vec, vecs, |vecs|, fp, total),
        AdjustBy(f.adjustment, true), c0);
    HeldBelow(f, c1, c2, base, c0);
    HeldSp(c2, base, Gp, gps, |gps|, c0, c0.sp - total - f.adjustment);
    HeldSp(c2, base, Vec, vecs, |vecs|, c0, c0.sp - total - f.adjustment);
    ApartBoth(c0, c1, c2, base, 16 * |gps|, total, c0.sp - total - f.adjustment);
    SpOnly(c2, c0, fp, c0.sp - total - f.adjustment);
    if fp {
      FirstIsFp(f);
      FpHeld(c2, base, gps, c0);
    }
  }

  lemma ApartBoth(c: Cpu, c1: Cpu, c2: Cpu, base: int, lo: nat, total: nat, sp: int)
    requires Apart(c, c1, base, 0, total) && Apart(c1, c2, base, lo, total)
    ensures Apart(c, c2.(sp := sp), base, 0, total)
    ensures forall a | a < base + lo :: c2.Load(a) == c1.Load(a)
    ensures c1.returned.None? && c2.returned.None?
  {
    forall a ensures c2.(sp := sp).Load(a) == c2.Load(a) {}
  }

  lemma SpOnly(c: Cpu, entry: Cpu, fp: bool, sp: int)
    requires RegsKept(c, entry, fp)
    ensures RegsKept(c.(sp := sp), entry, fp)
    ensures c.(sp := sp).Get(Loc(Gp, FP)) == c.Get(Loc(Gp, FP))
    ensures forall a :: c.(sp := sp).Load(a) == c.Load(a)
  {
    forall l: Loc ensures c.(sp := sp).Get(l) == c.Get(l) {}
  }

  lemma FirstIsFp(f: FuncFrame)
    requires f.preservedFP
    ensures |GpPairs(f)| > 0 && GpPairs(f)[0] == RegPair(FP, LR, false, 0)
  {
    hide Pairs, Listed;
  }

  lemma FpHeld(c: Cpu, base: int, pairs: seq<RegPair>, entry: Cpu)
    requires |pairs| > 0 && pairs[0] == RegPair(FP, LR, false, 0) && Held(c, base, Gp, pairs, |pairs|, entry)
    ensures c.Load(base) == entry.Get(Loc(Gp, FP)) && c.Load(base + 8) == entry.Get(Loc(Gp, LR))
  {
  }

  lemma HeadRuns(bti: bool, c: Cpu)
    requires c.returned.None?
    ensures ExecAll(if bti then [Bti] else [], c) == c
  {
    if bti { OneRuns(Bti, c); }
  }

  /** The stack pointer at the start of each group, and at the end. */
  lemma AreaStarts(f: FuncFrame, sp: int)
    ensures var base := sp - SizeTotal(f);
            && Starts(GpPairs(f), sp, base, SizeTotal(f))
            && (GpPairs(f) == [] ==> Starts(VecPairs(f), sp, base, SizeTotal(f)))
            && (GpPairs(f) != [] ==> Starts(VecPairs(f), base, base, SizeTotal(f)))
            && (GpPairs(f) == [] && VecPairs(f) == [] ==> SizeTotal(f) == 0)
    ensures GpPairs(f) != [] ==> GpPairs(f)[0].offset == 0
    ensures VecPairs(f) != [] ==> (VecPairs(f)[0].offset == 0 <==> GpPairs(f) == [])
  {
    hide GroupPairs;
    SlotsDisjoint(f);
    if GpPairs(f) == [] && VecPairs(f) != [] { assert VecPairs(f)[0].offset == 0; }
    EmptyArea(f);
  }

  lemma EmptyArea(f: FuncFrame)
    ensures GpPairs(f) == [] && VecPairs(f) == [] ==> SizeTotal(f) == 0
  {
    hide GroupPairs;
  }

  lemma RegsSame(c: Cpu, fp: bool)
    ensures RegsKept(c, c, fp) && RegsKept(c, c, false)
  {
  }

  lemma GpInArea(f: FuncFrame)
    ensures Spaced(GpPairs(f), 0, SizeTotal(f))
  {
    hide GroupPairs;
    SlotsDisjoint(f);
    assert SizeTotal(f) >= 16 * |GpPairs(f)|;
  }

  /** Saving the vector registers leaves the slots of the others alone. */
  lemma HeldBelow(f: FuncFrame, c1: Cpu, c2: Cpu, base: int, entry: Cpu)
    requires Held(c1, base, Gp, GpPairs(f), |GpPairs(f)|, entry)
    requires forall a | a < base + 16 * |GpPairs(f)| :: c2.Load(a) == c1.Load(a)
    ensures Held(c2, base, Gp, GpPairs(f), |GpPairs(f)|, entry)
  {
    hide GroupPairs;
    SlotsDisjoint(f);
    forall k | 0 <= k < |GpPairs(f)| ensures base + GpPairs(f)[k].offset + 16 <= base + 16 * |GpPairs(f)| {}
  }

  lemma HeldSp(c: Cpu, base: int, g: Group, pairs: seq<RegPair>, n: nat, entry: Cpu, sp: int)
    requires Held(c, base, g, pairs, n, entry)
    ensures Held(c.(sp := sp), base, g, pairs, n, entry)
  {
    forall a ensures c.(sp := sp).Load(a) == c.Load(a) {}
  }

  /** The save area is what it was. */
  ghost predicate AreaKept(c1: Cpu, c2: Cpu, base: int, total: nat) {
    c2.sp == c1.sp && forall a | base <= a < base + total :: c2.Load(a) == c1.Load(a)
  }

  lemma HeldInArea(c1: Cpu, c2: Cpu, base: int, total: nat, g: Group, pairs: seq<RegPair>, lo: nat, entry: Cpu)
    requires AreaKept(c1, c2, base, total) && Spaced(pairs, lo, total) && Held(c1, base, g, pairs, |pairs|, entry)
    ensures Held(c2, base, g, pairs, |pairs|, entry)
  {
    forall k | 0 <= k < |pairs| ensures base <= base + pairs[k].offset && base + pairs[k].offset + 16 <= base + total {}
  }

  /** From a state in which the save area holds the entry values, the epilog restores, and
      control goes to where x30 then says. */
  lemma AfterEpilog(f: FuncFrame, c2: Cpu, base: int, entry: Cpu)
    requires c2.sp == base - f.adjustment && c2.returned.None?
    requires Held(c2, base, Gp, GpPairs(f), |GpPairs(f)|, entry)
    requires Held(c2, base, Vec, VecPairs(f), |VecPairs(f)|, entry)
    ensures var c3 := ExecAll(Epilog(f), c2);
            && c3.sp == base + SizeTotal(f) && c3.returned == Some(c3.Get(Loc(Gp, LR)))
            && ExecAll(Restoring(f), c2) == c3.(returned := None)
            && Restored(c3, Gp, GpPairs(f), |GpPairs(f)|, entry) && Restored(c3, Vec, VecPairs(f), |VecPairs(f)|, entry)
  {
    hide ExecAll, GpPairs, VecPairs, SizeTotal, RestoreCode, Held, Restored, Exec, AdjustBy, StaysRight;
    var gps, vecs, total := GpPairs(f), VecPairs(f), SizeTotal(f);
    AdjustRuns(f.adjustment, false, c2);
    var c3 := c2.(sp := base);
    HeldSp(c2, base, Gp, gps, |gps|, entry, base);
    HeldSp(c2, base, Vec, vecs, |vecs|, entry, base);
    SlotsDisjoint(f);
    GpInArea(f);
    AreaStarts(f, base + total);
    var c4 := RestoreRun(Vec, vecs, |vecs|, total, 16 * |gps|, c3, base, entry);
    var c5 := c4;
    if gps == [] {
      NoPairs(Gp, gps, c5, entry, total);
      NothingRuns(c5);
    } else {
      HeldMem(c3, c4, base, Gp, gps, |gps|, entry);
      c5 := RestoreRun(Gp, gps, |gps|, total, 0, c4, base, entry);
      StillRestored(c4, c5, Vec, vecs, |vecs|, entry);
    }
    var adjust := AdjustBy(f.adjustment, false);
    var vecCode, gpCode := RestoreCode(Vec, vecs, |vecs|, total), RestoreCode(Gp, gps, |gps|, total);
    ExecAppend(adjust, vecCode, c2);
    ExecAppend(adjust + vecCode, gpCode, c2);
    ExecAppend(adjust + vecCode + gpCode, [RetLr], c2);
    OneRuns(RetLr, c5);
    ReturnKeeps(c5, Gp, gps, entry);
    ReturnKeeps(c5, Vec, vecs, entry);
  }

  lemma ReturnKeeps(c: Cpu, g: Group, pairs: seq<RegPair>, entry: Cpu)
    requires c.returned.None? && Restored(c, g, pairs, |pairs|, entry)
    ensures var c1 := Exec(RetLr, c);
            && c1 == c.(returned := Some(c.Get(Loc(Gp, LR)))) && c1.Get(Loc(Gp, LR)) == c.Get(Loc(Gp, LR))
            && Restored(c1, g, pairs, |pairs|, entry)
  {
    forall l: Loc ensures c.(returned := Some(c.Get(Loc(Gp, LR)))).Get(l) == c.Get(l) {}
  }

  lemma NoPairs(g: Group, pairs: seq<RegPair>, c: Cpu, entry: Cpu, total: nat)
    requires pairs == []
    ensures Restored(c, g, pairs, |pairs|, entry) && RestoreCode(g, pairs, |pairs|, total) == []
  {
  }

  lemma HeldMem(c: Cpu, c1: Cpu, base: int, g: Group, pairs: seq<RegPair>, n: nat, entry: Cpu)
    requires Held(c, base, g, pairs, n, entry) && c1.mem == c.mem
    ensures Held(c1, base, g, pairs, n, entry)
  {
    forall a ensures c1.Load(a) == c.Load(a) {}
  }

  lemma StillRestored(c: Cpu, c1: Cpu, g: Group, pairs: seq<RegPair>, n: nat, entry: Cpu)
    requires Restored(c, g, pairs, n, entry) && StaysRight(c, c1, entry)
    ensures Restored(c1, g, pairs, n, entry)
  {
  }

  lemma SlotRestored(c: Cpu, g: Group, pairs: seq<RegPair>, entry: Cpu, r: nat)
    requires Restored(c, g, pairs, |pairs|, entry) && InPairs(pairs, r)
    ensures c.Get(Loc(g, r)) == entry.Get(Loc(g, r))
  {
  }

  /** The function's body between prolog and epilog: it has not returned, the stack pointer
      and the save area are as the prolog has left them. */
  ghost predicate BodyRan(f: FuncFrame, bti: bool, c0: Cpu, c2: Cpu) {
    && f.Valid() && f.adjustment <= 0xFFFFFF && c0.returned.None? && c2.returned.None?
    && AreaKept(ExecAll(Prolog(f, bti), c0), c2, c0.sp - SizeTotal(f), SizeTotal(f))
  }

  /** Prolog and epilog undo each other: for every mask of registers, with or without a
      frame pointer, and every adjustment that is accepted, after the prolog, any body
      that keeps the stack pointer and the save area, and the epilog, the stack pointer
      and all saved general registers have their entry values, and so have the lower 64
      bits of all saved vector registers. If x30 has been saved, control is back at the
      caller. */
  lemma EpilogUndoesProlog(f: FuncFrame, bti: bool, c0: Cpu, c2: Cpu)
    requires BodyRan(f, bti, c0, c2)
    ensures var c3 := ExecAll(Epilog(f), c2);
            && c3.sp == c0.sp
            && (forall r | r in f.gp || (f.preservedFP && (r == FP || r == LR)) ::
               c3.Get(Loc(Gp, r)) == c0.Get(Loc(Gp, r)))
            && (forall r | r in f.vec :: c3.Get(Loc(Vec, r)) == c0.Get(Loc(Vec, r)))
            && (f.preservedFP || LR in f.gp ==> c3.returned == Some(c0.Get(Loc(Gp, LR))))
  {
    hide ExecAll, SizeTotal, Held, Restored, Prolog, Epilog, Restoring, GroupPairs, Spaced, InPairs;
    var base, total := c0.sp - SizeTotal(f), SizeTotal(f);
    var c1 := ExecAll(Prolog(f, bti), c0);
    AfterProlog(f, bti, c0);
    SlotsDisjoint(f);
    GpInArea(f);
    HeldInArea(c1, c2, base, total, Gp, GpPairs(f), 0, c0);
    HeldInArea(c1, c2, base, total, Vec, VecPairs(f), 16 * |GpPairs(f)|, c0);
    AfterEpilog(f, c2, base, c0);
    var c3 := ExecAll(Epilog(f), c2);
    forall r | r in f.gp || (f.preservedFP && (r == FP || r == LR)) ensures c3.Get(Loc(Gp, r)) == c0.Get(Loc(Gp, r)) {
      SavedHaveSlots(f, Gp, r, 0);
      SlotRestored(c3, Gp, GpPairs(f), c0, r);
    }
    forall r | r in f.vec ensures c3.Get(Loc(Vec, r)) == c0.Get(Loc(Vec, r)) {
      SavedHaveSlots(f, Vec, r, 16 * |GpPairs(f)|);
      SlotRestored(c3, Vec, VecPairs(f), c0, r);
    }
  }

  /** The landing pad for indirect calls is the first instruction when it is asked for, and
      there is no other; the prolog does not return, the epilog does so at its end. */
  lemma LandingPad(f: FuncFrame, bti: bool, c: Cpu)
    requires c.returned.None?
    ensures bti <==> Prolog(f, bti) != [] && Prolog(f, bti)[0] == Bti
    ensures forall k | 0 < k < |Prolog(f, bti)| :: Prolog(f, bti)[k] != Bti
    ensures ExecAll(Prolog(f, bti), c).returned.None?
  {
    hide ExecAll, GpPairs, VecPairs, SizeTotal, SaveCode, AdjustBy;
    NoPad(Gp, GpPairs(f), |GpPairs(f)|, f.preservedFP, SizeTotal(f));
    NoPad(Vec, VecPairs(f), |VecPairs(f)|, f.preservedFP, SizeTotal(f));
    AdjustNoPad(f.adjustment);
    var rest := SaveCode(Gp, GpPairs(f), |GpPairs(f)|, f.preservedFP, SizeTotal(f))
                + SaveCode(Vec, VecPairs(f), |VecPairs(f)|, f.preservedFP, SizeTotal(f)) + AdjustBy(f.adjustment, true);
    assert Bti !in rest;
    assert Prolog(f, bti) == (if bti then [Bti] else []) + rest;
    assert forall k | 0 <= k < |rest| :: rest[k] in rest;
    AfterProlog(f, bti, c);
  }

  lemma {:induction false} NoPad(g: Group, pairs: seq<RegPair>, n: nat, fp: bool, total: nat)
    requires n <= |pairs|
    ensures Bti !in SaveCode(g, pairs, n, fp, total)
  {
    if n > 0 { NoPad(g, pairs, n - 1, fp, total); }
  }

  lemma AdjustNoPad(adj: nat)
    ensures Bti !in AdjustBy(adj, true)
  {
  }

  // ---- every register, with the upper halves of the vector registers ----

  /** The code loads register `l`. */
  predicate LoadsReg(code: seq<Ins>, l: Loc) {
    exists k :: 0 <= k < |code| && LoadsIn(code[k], l)
  }

  predicate LoadsIn(i: Ins, l: Loc) {
    i.LoadRegs? && i.g == l.g && (i.p.first == l.id || (!i.p.single && i.p.second == l.id))
  }

  /** Loads and adjustments of the stack pointer. */
  predicate OnlyLoads(code: seq<Ins>) {
    forall k | 0 <= k < |code| :: code[k].LoadRegs? || code[k].AddSp?
  }

  /** A register as a whole: a vector register with its upper half. */
  function Whole(c: Cpu, l: Loc): (int, int) {
    (c.Get(l), if l.g.Vec? then c.Upper(l.id) else 0)
  }

  /** Loading a vector register clears its upper half; a register that is not loaded is
      not touched at all. */
  lemma {:induction false} LoadedAfter(code: seq<Ins>, c: Cpu, l: Loc)
    requires OnlyLoads(code) && c.returned.None?
    ensures LoadsReg(code, l) && l.g.Vec? ==> ExecAll(code, c).Upper(l.id) == 0
    ensures !LoadsReg(code, l) ==> Whole(ExecAll(code, c), l) == Whole(c, l)
    decreases |code|
  {
    hide LoadsIn, Exec, LoadsReg;
    if code == [] {
      NoCodeLoads(l);
    } else {
      LoadedIn(code[0], c, l);
      LoadedAfter(code[1..], Exec(code[0], c), l);
      LoadsFirst(code, l);
    }
  }

  lemma NoCodeLoads(l: Loc)
    ensures !LoadsReg([], l)
  {
  }

  lemma LoadsFirst(code: seq<Ins>, l: Loc)
    requires code != []
    ensures LoadsReg(code, l) <==> LoadsIn(code[0], l) || LoadsReg(code[1..], l)
  {
    hide LoadsIn;
    if LoadsReg(code[1..], l) {
      var k :| 0 <= k < |code[1..]| && LoadsIn(code[1..][k], l);
      assert LoadsIn(code[k + 1], l);
    } else {
      assert forall k | 0 < k < |code| :: code[k] == code[1..][k - 1];
    }
  }

  lemma LoadedIn(i: Ins, c: Cpu, l: Loc)
    requires i.LoadRegs? || i.AddSp?
    ensures Exec(i, c).returned == c.returned
    ensures LoadsIn(i, l) && l.g.Vec? ==> Exec(i, c).Upper(l.id) == 0
    ensures !LoadsIn(i, l) ==> Whole(Exec(i, c), l) == Whole(c, l)
    ensures l.g.Vec? ==> Whole(Exec(i, c), l).1 == Exec(i, c).Upper(l.id)
  {
    hide Base, Moved;
  }

  lemma LoadsJoin(a: seq<Ins>, b: seq<Ins>, l: Loc)
    ensures LoadsReg(a + b, l) <==> LoadsReg(a, l) || LoadsReg(b, l)
    ensures OnlyLoads(a + b) <==> OnlyLoads(a) && OnlyLoads(b)
  {
    if LoadsReg(a, l) {
      var k :| 0 <= k < |a| && LoadsIn(a[k], l);
      assert LoadsIn((a + b)[k], l);
    }
    if LoadsReg(b, l) {
      var k :| 0 <= k < |b| && LoadsIn(b[k], l);
      assert LoadsIn((a + b)[|a| + k], l);
    }
    assert forall k | 0 <= k < |a| :: (a + b)[k] == a[k];
    assert forall k | 0 <= k < |b| :: (a + b)[|a| + k] == b[k];
  }

  lemma {:induction false} RestoreLoads(g: Group, pairs: seq<RegPair>, n: nat, total: nat, l: Loc)
    requires n <= |pairs|
    ensures LoadsReg(RestoreCode(g, pairs, n, total), l) <==> l.g == g && InPairs(pairs[..n], l.id)
    ensures OnlyLoads(RestoreCode(g, pairs, n, total))
  {
    if n > 0 {
      RestoreLoads(g, pairs, n - 1, total, l);
      LoadsJoin([RestoreIns(g, pairs[n - 1], total)], RestoreCode(g, pairs, n - 1, total), l);
      OneLoads(g, pairs[n - 1], total, l);
      InPairsNext(pairs, n, l.id);
    }
  }

  lemma OneLoads(g: Group, p: RegPair, total: nat, l: Loc)
    ensures LoadsReg([RestoreIns(g, p, total)], l)
            <==> l.g == g && (p.first == l.id || (!p.single && p.second == l.id))
    ensures OnlyLoads([RestoreIns(g, p, total)])
  {
    var i := RestoreIns(g, p, total);
    assert [i][0] == i;
  }

  lemma InPairsNext(pairs: seq<RegPair>, n: nat, r: nat)
    requires 0 < n <= |pairs|
    ensures InPairs(pairs[..n], r) <==>
              InPairs(pairs[..n - 1], r) || pairs[n - 1].first == r
                  || (!pairs[n - 1].single && pairs[n - 1].second == r)
  {
    var last := pairs[..n][n - 1];
    assert last == pairs[n - 1];
    assert forall k | 0 <= k < n - 1 :: pairs[..n][k] == pairs[..n - 1][k];
    if InPairs(pairs[..n - 1], r) {
      var k :| 0 <= k < n - 1
               && (pairs[..n - 1][k].first == r || (!pairs[..n - 1][k].single && pairs[..n - 1][k].second == r));
      assert pairs[..n][k] == pairs[..n - 1][k];
    }
  }

  /** Only registers of the list are in its pairs. */
  lemma PairsOnly(ids: seq<nat>, size: nat, start: nat, r: nat)
    requires InPairs(Pairs(ids, size, start), r)
    ensures r in ids
  {
    var pairs := Pairs(ids, size, start);
    var k :| 0 <= k < |pairs| && (pairs[k].first == r || (!pairs[k].single && pairs[k].second == r));
    if k < |ids| / 2 {
      assert pairs[k] == FullPairs(ids, size, start)[k];
    } else {
      assert pairs[k] == RegPair(ids[|ids| - 1], 0, true, start + size * (|ids| / 2));
    }
  }

  /** The registers a frame saves and restores. */
  predicate IsSaved(f: FuncFrame, l: Loc) {
    l.id in f.Saved(l.g) || (l.g.Gp? && f.preservedFP && (l.id == FP || l.id == LR))
  }

  lemma EpilogLoads(f: FuncFrame, l: Loc)
    requires f.Valid()
    ensures LoadsReg(Restoring(f), l) <==> IsSaved(f, l)
    ensures OnlyLoads(Restoring(f))
  {
    hide GpPairs, VecPairs, SizeTotal, RestoreCode, AdjustBy, LoadsReg, InPairs, OnlyLoads, IsSaved;
    var adjust := AdjustBy(f.adjustment, false);
    var gps, vecs, total := GpPairs(f), VecPairs(f), SizeTotal(f);
    var vec, gp := RestoreCode(Vec, vecs, |vecs|, total), RestoreCode(Gp, gps, |gps|, total);
    LoadsJoin(adjust, vec, l);
    LoadsJoin(adjust + vec, gp, l);
    RestoreLoads(Vec, vecs, |vecs|, total, l);
    RestoreLoads(Gp, gps, |gps|, total, l);
    assert vecs[..|vecs|] == vecs && gps[..|gps|] == gps;
    NoLoads(f.adjustment, l);
    PairsAreSaved(f, l);
  }

  lemma PairsAreSaved(f: FuncFrame, l: Loc)
    requires f.Valid()
    ensures IsSaved(f, l) <==> InPairs(if l.g.Gp? then GpPairs(f) else VecPairs(f), l.id)
  {
    hide Pairs, InPairs;
    var offset := if l.g.Gp? then 0 else 16 * |GpPairs(f)|;
    if IsSaved(f, l) {
      SavedHaveSlots(f, l.g, l.id, offset);
    } else if InPairs(GroupPairs(f, l.g, offset), l.id) {
      OnlySavedHaveSlots(f, l.g, l.id, offset);
    }
  }

  lemma OnlySavedHaveSlots(f: FuncFrame, g: Group, r: nat, offset: nat)
    requires InPairs(GroupPairs(f, g, offset), r)
    ensures IsSaved(f, Loc(g, r))
  {
    hide Pairs;
    var size, pairs := f.PairSize(g), GroupPairs(f, g, offset);
    if g.Gp? && f.preservedFP {
      var rest := Pairs(Listed(f, g), size, offset + size);
      var k :| 0 <= k < |pairs| && (pairs[k].first == r || (!pairs[k].single && pairs[k].second == r));
      if k > 0 {
        assert rest[k - 1] == pairs[k];
        PairsOnly(Listed(f, g), size, offset + size, r);
      }
    } else {
      PairsOnly(Listed(f, g), size, offset, r);
    }
  }

  lemma NoLoads(adj: nat, l: Loc)
    ensures !LoadsReg(AdjustBy(adj, false), l) && OnlyLoads(AdjustBy(adj, false))
  {
  }

  /** A register that the frame does not save is after the epilog what the body left there;
      of a saved vector register the upper half is cleared. */
  lemma OthersAfter(f: FuncFrame, bti: bool, c0: Cpu, c2: Cpu, l: Loc)
    requires BodyRan(f, bti, c0, c2)
    ensures var c3 := ExecAll(Epilog(f), c2);
            if IsSaved(f, l) then l.g.Vec? ==> c3.Upper(l.id) == 0 else Whole(c3, l) == Whole(c2, l)
    ensures !IsSaved(f, Loc(Gp, LR)) ==> ExecAll(Epilog(f), c2).returned == Some(c2.Get(Loc(Gp, LR)))
  {
    hide ExecAll, SizeTotal, Prolog, Epilog, Restoring, LoadsReg, IsSaved, Held, AreaKept, OnlyLoads, Restored,
        GroupPairs;
    EpilogLoads(f, l);
    EpilogLoads(f, Loc(Gp, LR));
    LoadedAfter(Restoring(f), c2, l);
    LoadedAfter(Restoring(f), c2, Loc(Gp, LR));
    EpilogStates(f, bti, c0, c2);
    SameRegs(ExecAll(Restoring(f), c2), ExecAll(Epilog(f), c2), l);
    SameRegs(ExecAll(Restoring(f), c2), ExecAll(Epilog(f), c2), Loc(Gp, LR));
  }

  lemma SameRegs(c: Cpu, c1: Cpu, l: Loc)
    requires c1.regs == c.regs && c1.upper == c.upper
    ensures Whole(c1, l) == Whole(c, l) && c1.Upper(l.id) == c.Upper(l.id) && c1.Get(l) == c.Get(l)
  {
  }

  lemma EpilogStates(f: FuncFrame, bti: bool, c0: Cpu, c2: Cpu)
    requires BodyRan(f, bti, c0, c2)
    ensures var c, c3 := ExecAll(Restoring(f), c2), ExecAll(Epilog(f), c2);
            c3.regs == c.regs && c3.upper == c.upper && c3.returned == Some(c3.Get(Loc(Gp, LR)))
  {
    hide ExecAll, SizeTotal, Held, Restored, Prolog, Epilog, Restoring, GroupPairs, Spaced, InPairs;
    var base, total := c0.sp - SizeTotal(f), SizeTotal(f);
    var c1 := ExecAll(Prolog(f, bti), c0);
    AfterProlog(f, bti, c0);
    SlotsDisjoint(f);
    GpInArea(f);
    HeldInArea(c1, c2, base, total, Gp, GpPairs(f), 0, c0);
    HeldInArea(c1, c2, base, total, Vec, VecPairs(f), 16 * |GpPairs(f)|, c0);
    AfterEpilog(f, c2, base, c0);
  }

  /** What becomes of whole vector registers. A saved one comes back with its upper half
      cleared, so it has its entry value exactly when that half was zero on entry; any
      other is what the body left there. */
  lemma VectorsAfter(f: FuncFrame, bti: bool, c0: Cpu, c2: Cpu, r: nat)
    requires BodyRan(f, bti, c0, c2)
    ensures var c3 := ExecAll(Epilog(f), c2);
            if r in f.vec then c3.Vector(r) == (c0.Get(Loc(Vec, r)), 0) else c3.Vector(r) == c2.Vector(r)
  {
    hide ExecAll, SizeTotal, Prolog, Epilog, Restoring, BodyRan;
    OthersAfter(f, bti, c0, c2, Loc(Vec, r));
    EpilogUndoesProlog(f, bti, c0, c2);
  }

  /** Whole vector registers are restored exactly when their upper halves are zero on
      entry. A standard frame need not do more: of v8 to v15 the procedure call standard
      preserves the lower halves only. A frame with wide slots is meant to, but does not. */
  lemma WholeVectorsIff(f: FuncFrame, bti: bool, c0: Cpu, c2: Cpu)
    requires BodyRan(f, bti, c0, c2)
    ensures (forall r | r in f.vec :: ExecAll(Epilog(f), c2).Vector(r) == c0.Vector(r)) <==>
            forall r | r in f.vec :: c0.Upper(r) == 0
  {
    hide ExecAll, SizeTotal, Prolog, Epilog;
    forall r | r in f.vec ensures ExecAll(Epilog(f), c2).Vector(r) == c0.Vector(r) <==> c0.Upper(r) == 0 {
      VectorsAfter(f, bti, c0, c2, r);
    }
  }

  /** A frame that saves v8 in a wide slot, with both halves of v8 in use on entry. */
  function WideFrame(): FuncFrame { FuncFrame({}, {8}, false, true, 0) }

  function WideEntry(): Cpu { Cpu(map[Loc(Vec, 8) := 1], map[8 := 1], 0, map[], None) }

  /** The upper half is lost, even around a body that does nothing. */
  lemma WideFrameLosesUpperHalf()
    ensures var f, c0 := WideFrame(), WideEntry();
            && f.Valid() && AreaFits(f) && 8 in f.vec
            && ExecAll(Epilog(f), ExecAll(Prolog(f, false), c0)).Vector(8) != c0.Vector(8)
  {
    hide ExecAll, Prolog, Epilog, AreaFits, SizeTotal, GpPairs, VecPairs;
    var f, c0 := WideFrame(), WideEntry();
    WideFrameFits();
    AfterProlog(f, false, c0);
    VectorsAfter(f, false, c0, ExecAll(Prolog(f, false), c0), 8);
  }

  lemma WideFrameFits()
    ensures WideFrame().Valid() && AreaFits(WideFrame()) && 8 in WideFrame().vec
  {
    hide Pairs, Ascending, AreaFits;
    var f := WideFrame();
    AscendingWithin(f.vec, 8, 9, 32);
    AscendingWithin(f.gp, 0, 0, 32);
    SmallAreaFits(f);
  }

  lemma SmallAreaFits(f: FuncFrame)
    requires SizeTotal(f) <= 255
    ensures AreaFits(f)
  {
    hide SizeTotal, GpPairs, VecPairs;
  }

  // ---- when the assembler accepts the code ----

  /** The immediates of the addressing modes: a pair takes a multiple of 8 in 7 signed
      bits; a single register takes 9 signed bits when the stack pointer moves, and 12
      unsigned bits, scaled by 8, when it does not. */
  predicate Encodable(i: Ins) {
    match i
    case StoreRegs(_, p, mode, n) => AddressOk(p, mode, n)
    case LoadRegs(_, p, mode, n) => AddressOk(p, mode, n)
    case SubSp(n) => 0 <= n <= 0xFFF || (n % 0x1000 == 0 && 0 <= n <= 0xFFF000)
    case AddSp(n) => 0 <= n <= 0xFFF || (n % 0x1000 == 0 && 0 <= n <= 0xFFF000)
    case _ => true
  }

  predicate AddressOk(p: RegPair, mode: Mode, n: int) {
    if !p.single then n % 8 == 0 && -512 <= n <= 504
    else if mode.Offset? then n % 8 == 0 && 0 <= n <= 32760
    else -256 <= n <= 255
  }

  ghost predicate AllEncodable(code: seq<Ins>) {
    forall i | i in code :: Encodable(i)
  }

  /** The pair at the bottom of the save area, whose instructions move the stack pointer. */
  function FirstPair(f: FuncFrame): RegPair
    requires GpPairs(f) != [] || VecPairs(f) != []
  {
    if GpPairs(f) != [] then GpPairs(f)[0] else VecPairs(f)[0]
  }

  /** The save area is small enough for the instruction that makes it. */
  predicate AreaFits(f: FuncFrame) {
    (GpPairs(f) == [] && VecPairs(f) == []) || SizeTotal(f) <= if FirstPair(f).single then 255 else 504
  }

  lemma SaveEncodable(g: Group, p: RegPair, total: nat)
    requires p.offset % 16 == 0 && p.offset + 16 <= total <= 504 && total % 16 == 0
    requires p.offset == 0 && p.single ==> total <= 255
    ensures Encodable(SaveIns(g, p, total)) && Encodable(MovFpSp)
  {
  }

  lemma {:induction false} SavesEncodable(g: Group, pairs: seq<RegPair>, n: nat, fp: bool, total: nat, lo: nat)
    requires n <= |pairs| && Spaced(pairs, lo, total) && total % 16 == 0
    requires pairs != [] ==> total <= 504 && (lo == 0 && pairs[0].single ==> total <= 255)
    ensures AllEncodable(SaveCode(g, pairs, n, fp, total))
  {
    hide Encodable, SaveIns;
    if n > 0 {
      SavesEncodable(g, pairs, n - 1, fp, total, lo);
      SaveEncodable(g, pairs[n - 1], total);
    }
  }

  lemma {:induction false} RestoresEncodable(g: Group, pairs: seq<RegPair>, n: nat, total: nat, lo: nat)
    requires n <= |pairs| && Spaced(pairs, lo, total) && total % 16 == 0
    requires pairs != [] ==> total <= 504 && (lo == 0 && pairs[0].single ==> total <= 255)
    ensures AllEncodable(RestoreCode(g, pairs, n, total))
  {
    if n > 0 { RestoresEncodable(g, pairs, n - 1, total, lo); }
  }

  lemma {:induction false} FirstRestored(g: Group, pairs: seq<RegPair>, n: nat, total: nat)
    requires 0 < n <= |pairs| && pairs[0].offset == 0 && total != 0
    ensures LoadRegs(g, pairs[0], PostIndex, total) in RestoreCode(g, pairs, n, total)
  {
    if n > 1 { FirstRestored(g, pairs, n - 1, total); }
  }

  lemma AdjustEncodable(adj: nat, down: bool)
    requires adj <= 0xFFFFFF
    ensures AllEncodable(AdjustBy(adj, down))
  {
  }

  lemma AllJoin(a: seq<Ins>, b: seq<Ins>)
    ensures AllEncodable(a + b) <==> AllEncodable(a) && AllEncodable(b)
  {
    forall i | i in a || i in b ensures i in a + b {}
  }

  /** The emitted code can be encoded exactly when the save area is at most 504 bytes, or
      at most 255 when it begins with a single register. */
  lemma EncodableIff(f: FuncFrame, bti: bool)
    requires f.Valid() && f.adjustment <= 0xFFFFFF
    ensures AllEncodable(Prolog(f, bti)) && AllEncodable(Epilog(f)) <==> AreaFits(f)
  {
    hide GpPairs, VecPairs, SizeTotal, SaveCode, RestoreCode, AdjustBy, AllEncodable, Spaced;
    var gps, vecs, total := GpPairs(f), VecPairs(f), SizeTotal(f);
    SlotsDisjoint(f);
    GpInArea(f);
    AreaStarts(f, 0);
    EpilogParts(f);
    if AreaFits(f) {
      PrologParts(f, bti);
      AreaCases(f);
      SavesEncodable(Gp, gps, |gps|, f.preservedFP, total, 0);
      SavesEncodable(Vec, vecs, |vecs|, f.preservedFP, total, 16 * |gps|);
      RestoresEncodable(Gp, gps, |gps|, total, 0);
      RestoresEncodable(Vec, vecs, |vecs|, total, 16 * |gps|);
    } else {
      TooLarge(f);
    }
  }

  lemma AreaCases(f: FuncFrame)
    requires AreaFits(f)
    ensures SizeTotal(f) % 16 == 0 && (GpPairs(f) != [] || VecPairs(f) != [] ==> SizeTotal(f) <= 504)
    ensures GpPairs(f) != [] && GpPairs(f)[0].single ==> SizeTotal(f) <= 255
    ensures GpPairs(f) == [] && VecPairs(f) != [] && VecPairs(f)[0].single ==> SizeTotal(f) <= 255
    ensures GpPairs(f) != [] ==> 16 * |GpPairs(f)| != 0
  {
    hide GroupPairs;
    SlotsDisjoint(f);
  }

  lemma PrologParts(f: FuncFrame, bti: bool)
    requires f.adjustment <= 0xFFFFFF
    ensures AllEncodable(Prolog(f, bti)) <==>
              && AllEncodable(SaveCode(Gp, GpPairs(f), |GpPairs(f)|, f.preservedFP, SizeTotal(f)))
              && AllEncodable(SaveCode(Vec, VecPairs(f), |VecPairs(f)|, f.preservedFP, SizeTotal(f)))
  {
    hide GpPairs, VecPairs, SizeTotal, SaveCode, AdjustBy, AllEncodable;
    var head: seq<Ins> := if bti then [Bti] else [];
    var gp := SaveCode(Gp, GpPairs(f), |GpPairs(f)|, f.preservedFP, SizeTotal(f));
    var vec := SaveCode(Vec, VecPairs(f), |VecPairs(f)|, f.preservedFP, SizeTotal(f));
    PlainEncodable();
    AdjustEncodable(f.adjustment, true);
    AllJoin(head, gp);
    AllJoin(head + gp, vec);
    AllJoin(head + gp + vec, AdjustBy(f.adjustment, true));
  }

  lemma PlainEncodable()
    ensures AllEncodable([]) && AllEncodable([Bti]) && AllEncodable([RetLr])
  {
  }

  lemma EpilogParts(f: FuncFrame)
    requires f.adjustment <= 0xFFFFFF
    ensures AllEncodable(Epilog(f)) <==>
              && AllEncodable(RestoreCode(Vec, VecPairs(f), |VecPairs(f)|, SizeTotal(f)))
              && AllEncodable(RestoreCode(Gp, GpPairs(f), |GpPairs(f)|, SizeTotal(f)))
  {
    hide GpPairs, VecPairs, SizeTotal, RestoreCode, AdjustBy, AllEncodable;
    var adjust := AdjustBy(f.adjustment, false);
    var gp := RestoreCode(Gp, GpPairs(f), |GpPairs(f)|, SizeTotal(f));
    var vec := RestoreCode(Vec, VecPairs(f), |VecPairs(f)|, SizeTotal(f));
    PlainEncodable();
    AdjustEncodable(f.adjustment, false);
    AllJoin(adjust, vec);
    AllJoin(adjust + vec, gp);
    AllJoin(adjust + vec + gp, [RetLr]);
  }

  /** The load that gives a large area back does not fit. */
  lemma TooLarge(f: FuncFrame)
    requires !AreaFits(f)
    ensures !AllEncodable(RestoreCode(Vec, VecPairs(f), |VecPairs(f)|, SizeTotal(f)))
            || !AllEncodable(RestoreCode(Gp, GpPairs(f), |GpPairs(f)|, SizeTotal(f)))
  {
    hide GpPairs, VecPairs, SizeTotal, RestoreCode;
    AreaStarts(f, 0);
    if GpPairs(f) != [] {
      FirstRestored(Gp, GpPairs(f), |GpPairs(f)|, SizeTotal(f));
      assert !Encodable(LoadRegs(Gp, GpPairs(f)[0], PostIndex, SizeTotal(f)));
    } else {
      FirstRestored(Vec, VecPairs(f), |VecPairs(f)|, SizeTotal(f));
      assert !Encodable(LoadRegs(Vec, VecPairs(f)[0], PostIndex, SizeTotal(f)));
    }
  }

  lemma {:induction false} AscendingWithin(s: set<nat>, lo: nat, hi: nat, n: nat)
    requires lo <= hi && forall x | x in s :: lo <= x < hi
    ensures |Ascending(s, n)| <= if n <= lo then 0 else if n <= hi then n - lo else hi - lo
    decreases n
  {
    if n > 0 {
      AscendingWithin(s, lo, hi, n - 1);
      assert n - 1 in s ==> lo <= n - 1 < hi;
    }
  }

  /** The callee-saved registers of AAPCS64 always fit. */
  lemma StandardFrameFits(f: FuncFrame)
    requires !f.wideVec && (forall r | r in f.gp :: 19 <= r < 31) && (forall r | r in f.vec :: 8 <= r < 16)
    ensures AreaFits(f)
  {
    hide Pairs;
    AscendingWithin(f.vec, 8, 16, 32);
    AscendingWithin(f.gp, 19, 31, 32);
    AscendingWithin(f.gp - {FP, LR}, 19, 31, 32);
  }

  lemma {:induction false} AscendingFills(s: set<nat>, lo: nat, n: nat)
    requires forall x | lo <= x < n :: x in s
    ensures |Ascending(s, n)| >= n - lo
    decreases n
  {
    if n > lo { AscendingFills(s, lo, n - 1); }
  }

  /** A frame that the code refuses: the vector calling convention with one general and
      all its vector registers saved needs a save area of 464 bytes, which a single store
      cannot make. */
  lemma WideFrameDoesNotFit(f: FuncFrame)
    requires f.Valid() && f.gp == {19} && !f.preservedFP && f.wideVec && forall x | 4 <= x < 32 :: x in f.vec
    ensures !AreaFits(f)
  {
    hide Pairs;
    AscendingFills(f.vec, 4, 32);
    AscendingWithin(f.gp, 19, 20, 32);
    AscendingFills19(f.gp);
    SingleFirst(f);
  }

  lemma AscendingFills19(s: set<nat>)
    requires 19 in s
    ensures 19 in Ascending(s, 32)
  {
  }

  lemma SingleFirst(f: FuncFrame)
    requires !f.preservedFP && |Listed(f, Gp)| == 1
    ensures GpPairs(f) == [RegPair(Listed(f, Gp)[0], 0, true, 0)]
  {
  }
}
