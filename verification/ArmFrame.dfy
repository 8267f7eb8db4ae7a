/** Function prologs and epilogs on AArch64
    (libs/asmjit/src/asmjit/arm/a64emithelper.cpp; callee-saved registers are those of
    section 6.1.1 of the procedure call standard AAPCS64). */
module ArmFrame {
  import opened Values

  datatype Group = Gp | Vec

  const FP: nat := 29
  const LR: nat := 30

  /** Two registers saved next to each other, or one with an empty place beside it. */
  datatype RegPair = RegPair(first: nat, second: nat, single: bool, offset: nat)

  /** What a frame asks for: the registers to save in each group, whether the frame
      pointer is kept, the size of a vector save slot, and the room for locals. */
  datatype FuncFrame = FuncFrame(gp: set<nat>, vec: set<nat>, preservedFP: bool, wideVec: bool, adjustment: nat)
  {
    predicate Valid() {
      (forall r | r in gp :: r < 31) && forall r | r in vec :: r < 32
    }

    function Saved(g: Group): set<nat> { if g.Gp? then gp else vec }

    /** The size of a pair of slots. */
    function PairSize(g: Group): nat { if g.Vec? && wideVec then 32 else 16 }
  }

  // ---- the layout of the save area ----

  /** The members of a mask, in ascending order. */
  function Ascending(s: set<nat>, n: nat): (r: seq<nat>)
    ensures forall x :: x in r <==> x in s && x < n
    ensures forall i | 0 <= i < |r| :: r[i] < n
    ensures forall i, j | 0 <= i < j < |r| :: r[i] < r[j]
    ensures |r| <= n
  {
    if n == 0 then [] else Ascending(s, n - 1) + (if n - 1 in s then [n - 1] else [])
  }

  function FullPairs(ids: seq<nat>, size: nat, start: nat): (r: seq<RegPair>)
    ensures |r| == |ids| / 2
    ensures forall k | 0 <= k < |r| :: r[k] == RegPair(ids[2 * k], ids[2 * k + 1], false, start + size * k)
  {
    seq(|ids| / 2, k requires 0 <= k < |ids| / 2 => RegPair(ids[2 * k], ids[2 * k + 1], false, start + size * k))
  }

  /** The pairs for a list of registers, from `start` on. */
  function Pairs(ids: seq<nat>, size: nat, start: nat): (r: seq<RegPair>)
    ensures |r| == (|ids| + 1) / 2
  {
    FullPairs(ids, size, start)
    + if |ids| % 2 == 1 then [RegPair(ids[|ids| - 1], 0, true, start + size * (|ids| / 2))] else []
  }

  /** The registers of a group that are taken from its mask. */
  function Listed(f: FuncFrame, g: Group): seq<nat> {
    Ascending(if g.Gp? && f.preservedFP then f.gp - {FP, LR} else f.Saved(g), 32)
  }

  function GroupPairs(f: FuncFrame, g: Group, offset: nat): seq<RegPair> {
    if g.Gp? && f.preservedFP then
      [RegPair(FP, LR, false, offset)] + Pairs(Listed(f, g), f.PairSize(g), offset + f.PairSize(g))
    else Pairs(Listed(f, g), f.PairSize(g), offset)
  }

  function GpPairs(f: FuncFrame): seq<RegPair> { GroupPairs(f, Gp, 0) }

  function VecPairs(f: FuncFrame): seq<RegPair> { GroupPairs(f, Vec, 16 * |GpPairs(f)|) }

  function SizeTotal(f: FuncFrame): nat { 16 * |GpPairs(f)| + Sized(f, Vec, |VecPairs(f)|) }

  /** The size of `n` pairs. */
  function Sized(f: FuncFrame, g: Group, n: nat): nat {
    if g.Vec? && f.wideVec then 32 * n else 16 * n
  }

  lemma SizedIs(f: FuncFrame, g: Group, n: nat)
    ensures Sized(f, g, n) == f.PairSize(g) * n
  {
  }

  /** Where the pairs of the first `n` registers end. */
  function EndOf(size: nat, start: nat, n: nat): nat { start + size * (n / 2) }

  lemma EndNext(size: nat, start: nat, n: nat)
    ensures EndOf(size, start, n + 1) == EndOf(size, start, n) + if n % 2 == 1 then size else 0
  {
    Halving(n);
    Distribute(size, n / 2);
  }

  lemma FullSnoc(ids: seq<nat>, id: nat, size: nat, start: nat)
    ensures FullPairs(ids + [id], size, start) ==
            if |ids| % 2 == 0 then FullPairs(ids, size, start)
            else FullPairs(ids, size, start) + [RegPair(ids[|ids| - 1], id, false, EndOf(size, start, |ids|))]
  {
    var k := |ids| / 2;
    if |ids| % 2 == 1 {
      assert 2 * k == |ids| - 1;
    }
  }

  /** The state of the pairing after the registers `ids`: every second one has completed a
      pair, and `waiting` is the odd one if `half`. */
  ghost predicate Paired(ids: seq<nat>, size: nat, start: nat, pairs: seq<RegPair>, end: nat, half: bool,
      waiting: nat) {
    && pairs == FullPairs(ids, size, start) && end == EndOf(size, start, |ids|)
    && half == (|ids| % 2 == 1) && (half ==> waiting == ids[|ids| - 1])
  }

  lemma PairedStart(size: nat, start: nat)
    ensures Paired([], size, start, [], start, false, 0)
  {
  }

  lemma PairedNext(ids: seq<nat>, id: nat, size: nat, start: nat, pairs: seq<RegPair>, end: nat, half: bool,
      waiting: nat)
    requires Paired(ids, size, start, pairs, end, half, waiting)
    ensures half ==>
              Paired(ids + [id], size, start, pairs + [RegPair(waiting, id, false, end)], end + size, false, waiting)
    ensures !half ==> Paired(ids + [id], size, start, pairs, end, true, id)
  {
    hide FullPairs, EndOf;
    FullSnoc(ids, id, size, start);
    Halving(|ids|);
    EndNext(size, start, |ids|);
  }

  lemma Halving(n: nat)
    ensures (n + 1) / 2 == if n % 2 == 1 then n / 2 + 1 else n / 2
    ensures ((n + 1) % 2 == 1) == (n % 2 == 0)
  {
  }

  lemma PairedEnd(ids: seq<nat>, size: nat, start: nat, pairs: seq<RegPair>, end: nat, half: bool, waiting: nat)
    requires Paired(ids, size, start, pairs, end, half, waiting)
    ensures Pairs(ids, size, start) == pairs + (if half then [RegPair(waiting, 0, true, end)] else [])
    ensures start + size * |Pairs(ids, size, start)| == if half then end + size else end
  {
    hide FullPairs;
    Halving(|ids|);
    Distribute(size, |ids| / 2);
  }

  /** The arrays that `PrologEpilogInfo::init` fills. */
  class PrologEpilogInfo {
    var gp: seq<RegPair>
    var vec: seq<RegPair>
    var sizeTotal: nat

    constructor (f: FuncFrame)
      ensures gp == GpPairs(f) && vec == VecPairs(f) && sizeTotal == SizeTotal(f)
    {
      var pairs, offset := InitGroup(f, Gp, 0);
      gp := pairs;
      pairs, offset := InitGroup(f, Vec, offset);
      vec := pairs;
      sizeTotal := offset;
    }

    /** One group: the registers of the mask are taken two at a time. */
    static method InitGroup(f: FuncFrame, g: Group, offset: nat) returns (pairs: seq<RegPair>, end: nat)
      ensures pairs == GroupPairs(f, g, offset) && end == offset + Sized(f, g, |pairs|)
    {
      hide Pairs, Ascending;
      var size := f.PairSize(g);
      pairs, end := [], offset;
      var saved := f.Saved(g);
      if g.Gp? && f.preservedFP {
        pairs := [RegPair(FP, LR, false, end)];
        end := end + size;
        saved := saved - {FP, LR};
      }
      var rest;
      rest, end := PairUp(saved, size, end);
      pairs := pairs + rest;
      Distribute(size, |rest|);
      SizedIs(f, g, |pairs|);
    }

    static method PairUp(saved: set<nat>, size: nat, start: nat) returns (pairs: seq<RegPair>, end: nat)
      ensures pairs == Pairs(Ascending(saved, 32), size, start) && end == start + size * |pairs|
    {
      hide Paired, Ascending, Pairs;
      pairs, end := [], start;
      var half, waiting := false, 0;
      ghost var ids: seq<nat> := [];
      PairedStart(size, start);
      NoneAscending(saved);
      for id := 0 to 32
        invariant ids == Ascending(saved, id) && Paired(ids, size, start, pairs, end, half, waiting)
      {
        AscendingNext(saved, id);
        if id in saved {
          PairedNext(ids, id, size, start, pairs, end, half, waiting);
          if half {
            pairs := pairs + [RegPair(waiting, id, false, end)];
            end := end + size;
          } else {
            waiting := id;
          }
          half := !half;
          ids := ids + [id];
        }
      }
      PairedEnd(ids, size, start, pairs, end, half, waiting);
      if half {
        pairs := pairs + [RegPair(waiting, 0, true, end)];
        end := end + size;
      }
    }
  }

  lemma NoneAscending(saved: set<nat>)
    ensures Ascending(saved, 0) == []
  {
  }

  lemma AscendingNext(saved: set<nat>, id: nat)
    ensures Ascending(saved, id + 1) == Ascending(saved, id) + (if id in saved then [id] else [])
  {
  }

  lemma Distribute(size: nat, k: nat)
    ensures size * (k + 1) == size * k + size
  {
  }

  // ---- the machine ----

  /** A general register, or the lower 64 bits of a vector register. */
  datatype Loc = Loc(g: Group, id: nat)

  /** Registers, the upper 64 bits of the vector registers, the stack pointer, memory in
      8-byte words, and where control has gone once the code has returned. */
  datatype Cpu = Cpu(regs: map<Loc, int>, upper: map<nat, int>, sp: int, mem: map<int, int>, returned: Option<int>)
  {
    function Get(l: Loc): int { if l in regs then regs[l] else 0 }
    function Upper(r: nat): int { if r in upper then upper[r] else 0 }
    function Load(a: int): int { if a in mem then mem[a] else 0 }
    function Store(a: int, v: int): Cpu { this.(mem := mem[a := v]) }

    /** Writing the 64-bit view of a vector register clears its upper half. */
    function Set(l: Loc, v: int): Cpu {
      if l.g.Vec? then this.(regs := regs[l := v], upper := upper[l.id := 0]) else this.(regs := regs[l := v])
    }

    /** A whole vector register: its lower and its upper half. */
    function Vector(r: nat): (int, int) { (Get(Loc(Vec, r)), Upper(r)) }
  }

  /** How the stack pointer is addressed: at an offset, or moved before or after. */
  datatype Mode = Offset | PreIndex | PostIndex

  /** Both groups are stored and loaded as 64-bit registers, x or d, whatever the size of
      their slots. */
  datatype Ins =
    | StoreRegs(g: Group, p: RegPair, mode: Mode, n: int)   // str, stp
    | LoadRegs(g: Group, p: RegPair, mode: Mode, n: int)    // ldr, ldp
    | MovFpSp | SubSp(n: int) | AddSp(n: int) | RetLr | Bti

  function Base(mode: Mode, sp: int, n: int): int { if mode.PostIndex? then sp else sp + n }

  function Moved(mode: Mode, sp: int, n: int): int { if mode.Offset? then sp else sp + n }

  function Exec(i: Ins, c: Cpu): Cpu {
    match i
    case StoreRegs(g, p, mode, n) =>
      var a := Base(mode, c.sp, n);
      var c1 := c.Store(a, c.Get(Loc(g, p.first)));
      (if p.single then c1 else c1.Store(a + 8, c.Get(Loc(g, p.second)))).(sp := Moved(mode, c.sp, n))
    case LoadRegs(g, p, mode, n) =>
      var a := Base(mode, c.sp, n);
      var c1 := c.Set(Loc(g, p.first), c.Load(a));
      (if p.single then c1 else c1.Set(Loc(g, p.second), c.Load(a + 8))).(sp := Moved(mode, c.sp, n))
    case MovFpSp => c.Set(Loc(Gp, FP), c.sp)
    case SubSp(n) => c.(sp := c.sp - n)
    case AddSp(n) => c.(sp := c.sp + n)
    case RetLr => c.(returned := Some(c.Get(Loc(Gp, LR))))
    case Bti => c
  }

  /** Nothing runs behind a return. */
  function ExecAll(code: seq<Ins>, c: Cpu): Cpu
    decreases |code|
  {
    if code == [] || c.returned.Some? then c else ExecAll(code[1..], Exec(code[0], c))
  }

  lemma {:induction false} ExecAppend(a: seq<Ins>, b: seq<Ins>, c: Cpu)
    ensures ExecAll(a + b, c) == ExecAll(b, ExecAll(a, c))
    decreases |a|
  {
    hide Exec;
    if a == [] {
      assert a + b == b;
    } else if c.returned.None? {
      assert (a + b)[0] == a[0] && (a + b)[1..] == a[1..] + b;
      ExecAppend(a[1..], b, Exec(a[0], c));
    }
  }

  // ---- the code ----

  /** The store of one pair; the one at offset 0 also makes the room for all of them. */
  function SaveIns(g: Group, p: RegPair, total: nat): Ins {
    if p.offset == 0 && total != 0 then StoreRegs(g, p, PreIndex, 0 - total) else StoreRegs(g, p, Offset, p.offset)
  }

  /** The load of one pair; the one at offset 0 also gives the room back. */
  function RestoreIns(g: Group, p: RegPair, total: nat): Ins {
    if p.offset == 0 && total != 0 then LoadRegs(g, p, PostIndex, total) else LoadRegs(g, p, Offset, p.offset)
  }

  /** The first `n` pairs of a group, and the frame pointer behind the first. */
  function SaveCode(g: Group, pairs: seq<RegPair>, n: nat, fp: bool, total: nat): seq<Ins>
    requires n <= |pairs|
  {
    if n == 0 then []
    else SaveCode(g, pairs, n - 1, fp, total) + [SaveIns(g, pairs[n - 1], total)] + (if n == 1 && fp then [MovFpSp]
        else [])
  }

  /** The first `n` pairs of a group, the last of them first. */
  function RestoreCode(g: Group, pairs: seq<RegPair>, n: nat, total: nat): seq<Ins>
    requires n <= |pairs|
  {
    if n == 0 then [] else [RestoreIns(g, pairs[n - 1], total)] + RestoreCode(g, pairs, n - 1, total)
  }

  lemma RestoreNext(code: seq<Ins>, g: Group, pairs: seq<RegPair>, n: nat, total: nat)
    requires n < |pairs|
    ensures code + [RestoreIns(g, pairs[n], total)] + RestoreCode(g, pairs, n, total)
         == code + RestoreCode(g, pairs, n + 1, total)
  {
  }

  function AdjustBy(adj: nat, down: bool): seq<Ins> {
    if adj == 0 then []
    else if adj <= 0xFFF then [if down then SubSp(adj) else AddSp(adj)]
    else if down then [SubSp(adj % 0x1000), SubSp(adj - adj % 0x1000)]
    else [AddSp(adj % 0x1000), AddSp(adj - adj % 0x1000)]
  }

  function Prolog(f: FuncFrame, bti: bool): seq<Ins> {
    (if bti then [Bti] else [])
    + SaveCode(Gp, GpPairs(f), |GpPairs(f)|, f.preservedFP, SizeTotal(f))
    + SaveCode(Vec, VecPairs(f), |VecPairs(f)|, f.preservedFP, SizeTotal(f))
    + AdjustBy(f.adjustment, true)
  }

  /** The epilog up to its return. */
  function Restoring(f: FuncFrame): seq<Ins> {
    AdjustBy(f.adjustment, false)
    + RestoreCode(Vec, VecPairs(f), |VecPairs(f)|, SizeTotal(f))
    + RestoreCode(Gp, GpPairs(f), |GpPairs(f)|, SizeTotal(f))
  }

  function Epilog(f: FuncFrame): seq<Ins> {
    Restoring(f) + [RetLr]
  }

  // ---- emission ----

  method EmitSaves(g: Group, pairs: seq<RegPair>, fp: bool, total: nat) returns (code: seq<Ins>)
    ensures code == SaveCode(g, pairs, |pairs|, fp, total)
  {
    code := [];
    for i := 0 to |pairs|
      invariant code == SaveCode(g, pairs, i, fp, total)
    {
      var pair := pairs[i];
      var mode, n := Offset, pair.offset as int;
      if pair.offset == 0 && total != 0 {
        mode, n := PreIndex, 0 - total;
      }
      code := code + [StoreRegs(g, pair, mode, n)];
      if i == 0 && fp { code := code + [MovFpSp]; }
    }
  }

  /** `emitProlog`; an adjustment that does not fit 24 bits is refused. */
  method EmitProlog(f: FuncFrame, bti: bool) returns (r: Option<seq<Ins>>)
    ensures r == if f.adjustment <= 0xFFFFFF then Some(Prolog(f, bti)) else None
  {
    hide GpPairs, VecPairs, SizeTotal;
    var pei := new PrologEpilogInfo(f);
    var code := if bti then [Bti] else [];
    var saves := EmitSaves(Gp, pei.gp, f.preservedFP, pei.sizeTotal);
    code := code + saves;
    saves := EmitSaves(Vec, pei.vec, f.preservedFP, pei.sizeTotal);
    code := code + saves;
    var adj := f.adjustment;
    if adj != 0 {
      if adj <= 0xFFF {
        code := code + [SubSp(adj)];
      } else if adj <= 0xFFFFFF {
        code := code + [SubSp(adj % 0x1000), SubSp(adj - adj % 0x1000)];
      } else {
        return None;
      }
    }
    assert code == Prolog(f, bti);
    r := Some(code);
  }

  method EmitRestores(g: Group, pairs: seq<RegPair>, total: nat) returns (code: seq<Ins>)
    ensures code == RestoreCode(g, pairs, |pairs|, total)
  {
    code := [];
    var i := |pairs|;
    while i > 0
      invariant 0 <= i <= |pairs| && code + RestoreCode(g, pairs, i, total) == RestoreCode(g, pairs, |pairs|, total)
    {
      i := i - 1;
      RestoreNext(code, g, pairs, i, total);
      var pair := pairs[i];
      var mode, n := Offset, pair.offset as int;
      if pair.offset == 0 && total != 0 {
        mode, n := PostIndex, total as int;
      }
      code := code + [LoadRegs(g, pair, mode, n)];
    }
  }

  /** `emitEpilog`. */
  method EmitEpilog(f: FuncFrame) returns (r: Option<seq<Ins>>)
    ensures r == if f.adjustment <= 0xFFFFFF then Some(Epilog(f)) else None
  {
    hide GpPairs, VecPairs, SizeTotal;
    var pei := new PrologEpilogInfo(f);
    var code := [];
    var adj := f.adjustment;
    if adj != 0 {
      if adj <= 0xFFF {
        code := code + [AddSp(adj)];
      } else if adj <= 0xFFFFFF {
        code := code + [AddSp(adj % 0x1000), AddSp(adj - adj % 0x1000)];
      } else {
        return None;
      }
    }
    var loads := EmitRestores(Vec, pei.vec, pei.sizeTotal);
    code := code + loads;
    loads := EmitRestores(Gp, pei.gp, pei.sizeTotal);
    code := code + loads + [RetLr];
    assert code == Epilog(f);
    r := Some(code);
  }
}
