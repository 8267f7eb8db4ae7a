/** The garbage collector (src/heap.h): a bump-allocated young arena, an old
    generation filled by promotion, large objects, recursive marking and sweeps.
    The scanned part of the stack is passed in as `roots`. */
module Collector {
  import opened Values
  import opened HeapGraph

  ghost predicate SameButMarks(b: Blocks, b1: Blocks) {
    && b1.Keys == b.Keys
    && forall p | p in b :: b1[p].handle == b[p].handle && b1[p].cells == b[p].cells
  }

  ghost predicate MarksKept(b: Blocks, b1: Blocks) {
    forall p | p in b && b[p].marked :: p in b1 && b1[p].marked
  }

  function MarkedSet(mem: Mem, blocks: Blocks, s: set<nat>): set<nat> {
    set h | h in s && Marked(mem, blocks, h)
  }

  /** A newly marked header: its handle was reached without passing through `wall`,
      and everything it names is marked too. */
  ghost predicate Newly(mem: Mem, b: Blocks, b1: Blocks, s: set<nat>, wall: set<nat>, from: set<nat>, p: Ptr)
    requires p in b
  {
    && b[p].handle in s && b[p].handle in mem && mem[b[p].handle] == p
    && Reachable(mem, b, wall, from, b[p].handle)
    && forall c | c in Handles(b[p].cells) :: Marked(mem, b1, c)
  }

  ghost predicate NewMarks(mem: Mem, b: Blocks, b1: Blocks, s: set<nat>, wall: set<nat>, from: set<nat>) {
    forall p | p in b && p in b1 && b1[p].marked && !b[p].marked :: Newly(mem, b, b1, s, wall, from, p)
  }

  function Unmarked(mem: Mem, blocks: Blocks, s: set<nat>): set<nat> {
    set h | h in s && !Marked(mem, blocks, h)
  }

  /** Recolouring headers changes neither what is live nor what it contains. */
  lemma MarksDontMatter(mem: Mem, b: Blocks, b1: Blocks, s: set<nat>)
    requires SameButMarks(b, b1)
    ensures forall h :: Live(mem, b, h) <==> Live(mem, b1, h)
    ensures forall h :: Cells(mem, b, h) == Cells(mem, b1, h)
    ensures Closed(mem, b, s) <==> Closed(mem, b1, s)
  {
  }

  lemma MarksDontReach(mem: Mem, b: Blocks, b1: Blocks, s: set<nat>, wall: set<nat>, from: set<nat>, h: nat)
    requires SameButMarks(b, b1) && Closed(mem, b, s) && from <= s
    ensures Reachable(mem, b, wall, from, h) <==> Reachable(mem, b1, wall, from, h)
  {
    MarksDontMatter(mem, b, b1, s);
    ReachableSame(s, wall, from, mem, b, mem, b1, h);
  }

  /** Marking in two steps: first up to `b1`, then from the handle `c` on. Only the
      header `p` may be unfinished in between. */
  lemma NewMarksThen(mem: Mem, b: Blocks, b1: Blocks, b2: Blocks, s: set<nat>, wall: set<nat>, from: set<nat>,
                     wall1: set<nat>, c: nat, p: Ptr)
    requires SameButMarks(b, b1) && SameButMarks(b1, b2) && MarksKept(b1, b2)
    requires Closed(mem, b, s) && from <= s && c in s && wall <= wall1 && Reachable(mem, b, wall, from, c)
    requires forall q | q in b && b1[q].marked && !b[q].marked && q != p :: Newly(mem, b, b1, s, wall, from, q)
    requires NewMarks(mem, b1, b2, s, wall1, {c})
    ensures forall q | q in b && b2[q].marked && !b[q].marked && q != p :: Newly(mem, b, b2, s, wall, from, q)
  {
    forall q | q in b && b2[q].marked && !b[q].marked && q != p
      ensures Newly(mem, b, b2, s, wall, from, q)
    {
      if b1[q].marked {
        assert Newly(mem, b, b1, s, wall, from, q);
      } else {
        assert Newly(mem, b1, b2, s, wall1, {c}, q);
        MarksDontReach(mem, b, b1, s, wall1, {c}, b[q].handle);
        ReachMore(mem, b, wall1, {c}, wall, {c}, b[q].handle);
        ReachTrans(mem, b, wall, from, c, b[q].handle);
      }
    }
  }

  /** The measure of marking: unmarked handles become fewer. */
  lemma MarkingShrinks(mem: Mem, b: Blocks, b1: Blocks, s: set<nat>, h: nat)
    requires SameButMarks(b, b1) && MarksKept(b, b1)
    requires h in s && Live(mem, b, h) && !Marked(mem, b, h) && Marked(mem, b1, h)
    ensures Unmarked(mem, b1, s) < Unmarked(mem, b, s)
  {
    MarksDontMatter(mem, b, b1, s);
    assert h in Unmarked(mem, b, s) && h !in Unmarked(mem, b1, s);
  }

  /** A root and what it names are marked. */
  ghost predicate RootMarked(mem: Mem, blocks: Blocks, h: nat) {
    Marked(mem, blocks, h) && forall c | c in Children(mem, blocks, h) :: Marked(mem, blocks, c)
  }

  /** What marking from the root again has found is found from all roots. */
  lemma RemarkedOne(mem: Mem, b: Blocks, b1: Blocks, b2: Blocks, s: set<nat>, wall: set<nat>,
      from: set<nat>, h: nat, q: Ptr)
    requires Closed(mem, b, s) && from <= s && h in from && SameButMarks(b, b1) && SameButMarks(b, b2)
    requires wall <= MarkedSet(mem, b1, s) && Reachable(mem, b, wall, from, h)
    requires q in b && b2[q].marked && !b1[q].marked
    requires NewMarks(mem, b1, b2, s, MarkedSet(mem, b1, s), {h})
    ensures Newly(mem, b, b2, s, wall, from, q)
  {
    hide Reachable, MarkedSet;
    var wall1 := MarkedSet(mem, b1, s);
    assert Newly(mem, b1, b2, s, wall1, {h}, q);
    MarksDontReach(mem, b, b1, s, wall1, {h}, b[q].handle);
    ReachMore(mem, b, wall1, {h}, wall, {h}, b[q].handle);
    ReachTrans(mem, b, wall, from, h, b[q].handle);
  }

  lemma NewlyLater(mem: Mem, b: Blocks, b0: Blocks, b2: Blocks, s: set<nat>, wall: set<nat>, from: set<nat>, q: Ptr)
    requires q in b && Newly(mem, b, b0, s, wall, from, q) && SameButMarks(b0, b2) && MarksKept(b0, b2)
    ensures Newly(mem, b, b2, s, wall, from, q)
  {
    hide Reachable;
    MarksDontMatter(mem, b0, b2, s);
  }

  /** Unmarking one root and marking from it again only adds marks. */
  lemma RemarkRoot(mem: Mem, b: Blocks, b0: Blocks, b2: Blocks, s: set<nat>, wall: set<nat>, from: set<nat>, h: nat)
    requires Closed(mem, b, s) && from <= s && h in from && wall == MarkedSet(mem, b, s) - from
    requires SameButMarks(b, b0) && MarksKept(b, b0) && NewMarks(mem, b, b0, s, wall, from)
    requires var p := mem[h];
             var b1 := b0[p := b0[p].(marked := false)];
             && SameButMarks(b1, b2) && MarksKept(b1, b2) && b2[p].marked
             && NewMarks(mem, b1, b2, s, MarkedSet(mem, b1, s), {h})
    ensures SameButMarks(b, b2) && MarksKept(b0, b2) && MarksKept(b, b2)
    ensures NewMarks(mem, b, b2, s, wall, from) && RootMarked(mem, b2, h)
  {
    hide Reachable;
    var p := mem[h];
    var b1 := b0[p := b0[p].(marked := false)];
    MarksDontMatter(mem, b, b1, s);
    MarksDontMatter(mem, b, b2, s);
    ReachSelf(mem, b, wall, from, h);
    assert wall <= MarkedSet(mem, b1, s);
    assert Newly(mem, b1, b2, s, MarkedSet(mem, b1, s), {h}, p);
    assert MarksKept(b0, b2);
    forall q | q in b && b2[q].marked && !b[q].marked
      ensures Newly(mem, b, b2, s, wall, from, q)
    {
      if b1[q].marked {
        NewlyLater(mem, b, b0, b2, s, wall, from, q);
      } else {
        RemarkedOne(mem, b, b1, b2, s, wall, from, h, q);
      }
    }
  }

  lemma RootStillMarked(mem: Mem, b0: Blocks, b2: Blocks, h: nat)
    requires SameButMarks(b0, b2) && MarksKept(b0, b2) && RootMarked(mem, b0, h)
    ensures RootMarked(mem, b2, h)
  {
    MarksDontMatter(mem, b0, b2, {});
    forall c | c in Children(mem, b2, h) ensures Marked(mem, b2, c) {
      assert c in Children(mem, b0, h);
    }
  }

  /** Marking is exact: a header is marked afterwards if it was marked before, or if
      a root leads to it without passing through a header that was marked before and
      is not itself a root. */
  lemma MarkIsExact(mem: Mem, b: Blocks, b1: Blocks, s: set<nat>, from: set<nat>, h: nat)
    requires Closed(mem, b, s) && from <= s && h in s
    requires SameButMarks(b, b1) && MarksKept(b, b1)
    requires NewMarks(mem, b, b1, s, MarkedSet(mem, b, s) - from, from)
    requires forall r | r in from :: RootMarked(mem, b1, r)
    ensures Marked(mem, b1, h) <==> Marked(mem, b, h) || Reachable(mem, b, MarkedSet(mem, b, s) - from, from, h)
  {
    var wall := MarkedSet(mem, b, s) - from;
    MarksDontMatter(mem, b, b1, s);
    if Marked(mem, b1, h) && !Marked(mem, b, h) {
      assert Newly(mem, b, b1, s, wall, from, mem[h]);
    }
    if Reachable(mem, b, wall, from, h) {
      var all := MarkedSet(mem, b1, s);
      forall x | x in all && x !in wall ensures Children(mem, b, x) <= all {
        if x in from {
          assert RootMarked(mem, b1, x);
        } else {
          assert Newly(mem, b, b1, s, wall, from, mem[x]);
        }
        forall d | d in Children(mem, b, x) ensures d in all {
          assert d in Children(mem, b1, x);
        }
      }
      ReachableInside(mem, b, wall, from, all, h);
    }
  }

  /** With no header marked on entry, exactly what is reachable is marked. */
  lemma CleanMarkIsExact(mem: Mem, b: Blocks, b1: Blocks, s: set<nat>, from: set<nat>, h: nat)
    requires Closed(mem, b, s) && from <= s && h in s && MarkedSet(mem, b, s) == {}
    requires SameButMarks(b, b1) && MarksKept(b, b1)
    requires NewMarks(mem, b, b1, s, MarkedSet(mem, b, s) - from, from)
    requires forall r | r in from :: RootMarked(mem, b1, r)
    ensures Marked(mem, b1, h) <==> Reachable(mem, b, {}, from, h)
  {
    MarkIsExact(mem, b, b1, s, from, h);
    assert MarkedSet(mem, b, s) - from == {};
    assert Marked(mem, b, h) ==> h in MarkedSet(mem, b, s);
  }

  function Unmark(b: Blocks, ps: set<Ptr>): Blocks {
    map p | p in b :: if p in ps then b[p].(marked := false) else b[p]
  }

  predicate NoDup<T(==)>(s: seq<T>) {
    forall i, j | 0 <= i < j < |s| :: s[i] != s[j]
  }

  function PtrsOf(mem: Mem, hs: seq<nat>): set<Ptr> {
    set h | h in hs && h in mem :: mem[h]
  }

  /** The members of `s` that are in `keep`, in their order. */
  function Filter<T(==,!new)>(s: seq<T>, keep: set<T>): (r: seq<T>)
    ensures forall x :: x in r <==> x in s && x in keep
  {
    if s == [] then []
    else
      var n := |s| - 1;
      Filter(s[..n], keep) + (if s[n] in keep then [s[n]] else [])
  }

  lemma {:induction false} FilterNoDup<T(!new)>(s: seq<T>, keep: set<T>)
    requires NoDup(s)
    ensures NoDup(Filter(s, keep))
  {
    if s != [] {
      FilterNoDup(s[..|s| - 1], keep);
    }
  }

  /** The old generation lists each of its objects once, and none of them dangles. */
  ghost predicate OldListed(mem: Mem, blocks: Blocks, oldRoots: seq<nat>) {
    NoDup(oldRoots) && forall h | h in oldRoots :: Live(mem, blocks, h)
  }

  /** Marks that hide what lies behind them from the next marking: those of headers
      that the collection neither unmarks first nor starts from. */
  ghost function Stale(mem: Mem, blocks: Blocks, s: set<nat>, unmarked: set<nat>, roots: seq<Value>): set<nat> {
    MarkedSet(mem, blocks, s) - unmarked - Handles(roots)
  }

  ghost function SeqSet<T>(s: seq<T>): set<T> { set x | x in s }

  /** The listed objects that a marking of `roots` finds. */
  ghost function Found(mem: Mem, blocks: Blocks, listed: set<nat>, wall: set<nat>, roots: seq<Value>): set<nat> {
    set h | h in listed && Reachable(mem, blocks, wall, Handles(roots), h)
  }

  /** The handles in `gone` are erased with their blocks; everything else that was
      live is where it was, with the contents it had. */
  ghost predicate Swept(mem: Mem, b: Blocks, gone: set<nat>, mem1: Mem, b1: Blocks) {
    && mem1 == mem - gone
    && b1.Keys == b.Keys - (set h | h in gone && h in mem :: mem[h])
    && forall p | p in b1 :: b1[p].handle == b[p].handle && b1[p].cells == b[p].cells
  }

  /** A listed object that has not been visited by the sweep is untouched. */
  lemma StillListed(m: Mem, b: Blocks, olds: seq<nat>, i: nat, gone: set<nat>, mem: Mem, blocks: Blocks)
    requires OldListed(m, b, olds) && i < |olds| && gone <= SeqSet(olds[..i]) && Swept(m, b, gone, mem, blocks)
    ensures olds[i] in mem && mem[olds[i]] == m[olds[i]] && mem[olds[i]] in blocks && olds[i] !in gone
    ensures m[olds[i]] !in PtrsOf(m, olds[..i])
  {
    assert olds[i] in olds;
    forall h | h in olds[..i] ensures h != olds[i] && h in olds {}
  }

  lemma Grow(olds: seq<nat>, i: nat, kept: set<nat>)
    requires i < |olds|
    ensures olds[..i + 1] == olds[..i] + [olds[i]]
    ensures Filter(olds[..i + 1], kept) == Filter(olds[..i], kept) + (if olds[i] in kept then [olds[i]] else [])
  {
    assert olds[..i + 1][..i] == olds[..i];
  }

  ghost predicate MarksKeptBut(b: Blocks, b1: Blocks, ps: set<Ptr>) {
    forall p | p in b1 && p !in ps :: p in b && b1[p] == b[p]
  }

  /** The sweep after `i` objects. */
  ghost predicate SweepInv(m: Mem, b: Blocks, olds: seq<nat>, i: nat, kept: set<nat>, survivors: seq<nat>, mem: Mem,
      blocks: Blocks) {
    && i <= |olds| && OldListed(m, b, olds)
    && (forall h | h in olds :: b[m[h]].marked <==> h in kept)
    && survivors == Filter(olds[..i], kept)
    && Swept(m, b, SeqSet(olds[..i]) - kept, mem, blocks)
    && (forall h | h in survivors :: !Marked(mem, blocks, h))
    && forall p | p in blocks && p !in PtrsOf(m, olds[..i]) :: p in b && blocks[p] == b[p]
  }

  lemma SweepStart(m: Mem, b: Blocks, olds: seq<nat>, kept: set<nat>)
    requires OldListed(m, b, olds) && forall h | h in olds :: b[m[h]].marked <==> h in kept
    ensures SweepInv(m, b, olds, 0, kept, [], m, b)
  {
  }

  lemma SweepEnd(m: Mem, b: Blocks, olds: seq<nat>, kept: set<nat>, survivors: seq<nat>, mem: Mem, blocks: Blocks)
    requires SweepInv(m, b, olds, |olds|, kept, survivors, mem, blocks)
    ensures survivors == Filter(olds, kept) && Swept(m, b, SeqSet(olds) - kept, mem, blocks)
    ensures forall h | h in survivors :: !Marked(mem, blocks, h)
    ensures MarksKeptBut(b, blocks, PtrsOf(m, olds))
  {
    assert olds[..|olds|] == olds;
  }

  lemma SweepNext(m: Mem, b: Blocks, olds: seq<nat>, i: nat, kept: set<nat>, survivors: seq<nat>, mem: Mem,
      blocks: Blocks)
    requires i < |olds| && SweepInv(m, b, olds, i, kept, survivors, mem, blocks)
    ensures olds[i] in mem && mem[olds[i]] in blocks
    ensures var h, p := olds[i], mem[olds[i]];
            if blocks[p].marked then
              SweepInv(m, b, olds, i + 1, kept, survivors + [h], mem, blocks[p := blocks[p].(marked := false)])
            else
              SweepInv(m, b, olds, i + 1, kept, survivors, mem - {h}, blocks - {p})
  {
    hide SweepInv;
    SweepAt(m, b, olds, i, kept, survivors, mem, blocks);
    if blocks[mem[olds[i]]].marked {
      SweepKeeps(m, b, olds, i, kept, survivors, mem, blocks);
    } else {
      SweepDrops(m, b, olds, i, kept, survivors, mem, blocks);
    }
  }

  lemma SweepAt(m: Mem, b: Blocks, olds: seq<nat>, i: nat, kept: set<nat>, survivors: seq<nat>, mem: Mem,
      blocks: Blocks)
    requires i < |olds| && SweepInv(m, b, olds, i, kept, survivors, mem, blocks)
    ensures var h := olds[i];
            && h in olds && h in m && h in mem && mem[h] == m[h] && m[h] in b && m[h] in blocks
               && blocks[m[h]] == b[m[h]]
            && m[h] !in PtrsOf(m, olds[..i])
            && (blocks[m[h]].marked <==> h in kept)
    ensures PtrsOf(m, olds[..i + 1]) == PtrsOf(m, olds[..i]) + {m[olds[i]]}
  {
    hide Filter;
    StillListed(m, b, olds, i, SeqSet(olds[..i]) - kept, mem, blocks);
    assert olds[i] in olds;
  }

  lemma SweepKeeps(m: Mem, b: Blocks, olds: seq<nat>, i: nat, kept: set<nat>, survivors: seq<nat>, mem: Mem,
      blocks: Blocks)
    requires i < |olds| && SweepInv(m, b, olds, i, kept, survivors, mem, blocks)
    requires olds[i] in mem && mem[olds[i]] in blocks && blocks[mem[olds[i]]].marked
    ensures var p := mem[olds[i]];
            SweepInv(m, b, olds, i + 1, kept, survivors + [olds[i]], mem, blocks[p := blocks[p].(marked := false)])
  {
    hide Filter, PtrsOf, OldListed;
    SweepAt(m, b, olds, i, kept, survivors, mem, blocks);
    Grow(olds, i, kept);
    assert SeqSet(olds[..i + 1]) - kept == SeqSet(olds[..i]) - kept;
  }

  lemma SweepDrops(m: Mem, b: Blocks, olds: seq<nat>, i: nat, kept: set<nat>, survivors: seq<nat>, mem: Mem,
      blocks: Blocks)
    requires i < |olds| && SweepInv(m, b, olds, i, kept, survivors, mem, blocks)
    requires olds[i] in mem && mem[olds[i]] in blocks && !blocks[mem[olds[i]]].marked
    ensures SweepInv(m, b, olds, i + 1, kept, survivors, mem - {olds[i]}, blocks - {mem[olds[i]]})
  {
    hide Filter, PtrsOf, OldListed, Swept;
    SweepAt(m, b, olds, i, kept, survivors, mem, blocks);
    Grow(olds, i, kept);
    var gone := SeqSet(olds[..i]) - kept;
    StillOut(m, b, olds, i, gone, mem, blocks);
    assert SeqSet(olds[..i + 1]) - kept == gone + {olds[i]};
    SweptMore(m, b, olds, gone, mem, blocks, olds[i]);
  }

  lemma StillOut(m: Mem, b: Blocks, olds: seq<nat>, i: nat, gone: set<nat>, mem: Mem, blocks: Blocks)
    requires OldListed(m, b, olds) && i < |olds| && gone <= SeqSet(olds[..i]) && Swept(m, b, gone, mem, blocks)
    ensures olds[i] !in gone && gone <= SeqSet(olds)
  {
    StillListed(m, b, olds, i, gone, mem, blocks);
  }

  lemma SweptMore(m: Mem, b: Blocks, olds: seq<nat>, gone: set<nat>, mem: Mem, blocks: Blocks, h: nat)
    requires OldListed(m, b, olds) && h in olds && gone <= SeqSet(olds) && Swept(m, b, gone, mem, blocks) && h !in gone
    ensures Swept(m, b, gone + {h}, mem - {h}, blocks - {m[h]})
  {
    var after, before := set x | x in gone + {h} && x in m :: m[x], set x | x in gone && x in m :: m[x];
    assert after == before + {m[h]};
  }

  lemma UnmarkFacts(mem: Mem, b: Blocks, ps: set<Ptr>, s: set<nat>)
    ensures SameButMarks(b, Unmark(b, ps))
    ensures forall h :: Marked(mem, Unmark(b, ps), h) <==> Marked(mem, b, h) && mem[h] !in ps
  {
  }

  /** After the marking of a sweep, the listed objects that are marked are those found. */
  lemma MarkedAreFound(mem: Mem, b: Blocks, b1: Blocks, b2: Blocks, s: set<nat>, listed: set<nat>, roots: seq<Value>,
      h: nat)
    requires Closed(mem, b, s) && Handles(roots) <= s && h in listed && Live(mem, b, h)
    requires forall x | x in listed :: Live(mem, b, x)
    requires b1 == Unmark(b, set x | x in listed && x in mem :: mem[x])
    requires SameButMarks(b1, b2) && MarksKept(b1, b2)
    requires NewMarks(mem, b1, b2, s, MarkedSet(mem, b1, s) - Handles(roots), Handles(roots))
    requires forall r | r in Handles(roots) :: RootMarked(mem, b2, r)
    ensures b2[mem[h]].marked <==> h in Found(mem, b, listed, Stale(mem, b, s, listed, roots), roots)
  {
    var from := Handles(roots);
    var wall := MarkedSet(mem, b1, s) - from;
    UnmarkFacts(mem, b, set x | x in listed && x in mem :: mem[x], s);
    MarksDontMatter(mem, b, b1, s);
    MarksDontMatter(mem, b, b2, s);
    assert wall == Stale(mem, b, s, listed, roots);
    assert !b1[mem[h]].marked;
    if b2[mem[h]].marked {
      assert Newly(mem, b1, b2, s, wall, from, mem[h]);
      MarksDontReach(mem, b, b1, s, wall, from, h);
    }
    if Reachable(mem, b, wall, from, h) {
      MarksDontReach(mem, b, b1, s, wall, from, h);
      ReachableInside(mem, b, wall, from, s, h);
      MarkIsExact(mem, b1, b2, s, from, h);
    }
  }

  lemma SurvivorsStay(m: Mem, b: Blocks, olds: seq<nat>, kept: set<nat>, mem: Mem, blocks: Blocks)
    requires OldListed(m, b, olds) && Swept(m, b, SeqSet(olds) - kept, mem, blocks)
    ensures forall h | h in Filter(olds, kept) :: h in m && h in mem && mem[h] == m[h]
  {
  }

  // ---- large objects are listed by address ----

  function HandleSeq(b: Blocks, ps: seq<Ptr>): (hs: seq<nat>)
    requires forall p | p in ps :: p in b
    ensures |hs| == |ps| && forall i | 0 <= i < |ps| :: hs[i] == b[ps[i]].handle
  {
    seq(|ps|, i requires 0 <= i < |ps| => b[ps[i]].handle)
  }

  function PtrSeq(m: Mem, hs: seq<nat>): (ps: seq<Ptr>)
    requires forall h | h in hs :: h in m
    ensures |ps| == |hs| && forall i | 0 <= i < |hs| :: ps[i] == m[hs[i]]
  {
    seq(|hs|, i requires 0 <= i < |hs| => m[hs[i]])
  }

  /** Each large object is listed once, at the address its handle resolves to. */
  ghost predicate LargeListed(mem: Mem, blocks: Blocks, larges: seq<Ptr>) {
    NoDup(larges) && forall p | p in larges :: p in blocks && blocks[p].handle in mem && mem[blocks[p].handle] == p
  }

  lemma LargeAsHandles(mem: Mem, blocks: Blocks, larges: seq<Ptr>)
    requires LargeListed(mem, blocks, larges)
    ensures forall p | p in larges :: p in blocks
    ensures OldListed(mem, blocks, HandleSeq(blocks, larges))
    ensures forall h | h in HandleSeq(blocks, larges) :: h in mem
    ensures PtrSeq(mem, HandleSeq(blocks, larges)) == larges
    ensures PtrsOf(mem, HandleSeq(blocks, larges)) == SeqSet(larges)
  {
    var hs := HandleSeq(blocks, larges);
    forall i, j | 0 <= i < j < |hs| ensures hs[i] != hs[j] {
      assert larges[i] in larges && larges[j] in larges;
    }
    forall h | h in hs ensures Live(mem, blocks, h) {
      var i :| 0 <= i < |hs| && hs[i] == h;
      assert larges[i] in larges;
    }
    forall i | 0 <= i < |hs| ensures hs[i] in mem && mem[hs[i]] == larges[i] {
      assert larges[i] in larges;
    }
    forall p | p in larges ensures p in PtrsOf(mem, hs) {
      var i :| 0 <= i < |larges| && larges[i] == p;
      assert hs[i] in hs;
    }
  }

  // ---- promotion ----

  /** The part of the collector's state that promotion changes. */
  datatype Promo = Promo(mem: Mem, blocks: Blocks, vis: set<nat>, oldRoots: seq<nat>, nextOld: nat)

  ghost predicate FreshOld(blocks: Blocks, nextOld: nat) {
    forall q | q in blocks && q.Old? :: q.id < nextOld
  }

  /** Handle `h` now resolves to a new old block with the header and cells it had. */
  ghost predicate Moved(a: Promo, z: Promo, h: nat) {
    && Live(a.mem, a.blocks, h)
    && h in z.mem && z.mem[h].Old? && a.nextOld <= z.mem[h].id < z.nextOld
    && z.mem[h] in z.blocks && z.blocks[z.mem[h]] == a.blocks[a.mem[h]]
  }

  /** The old generation lists the newly visited handles, once each, behind what it
      listed before; `open` is still to be listed. */
  ghost predicate Listed(a: Promo, z: Promo, open: set<nat>) {
    && a.oldRoots <= z.oldRoots
    && NoDup(z.oldRoots[|a.oldRoots|..]) && SeqSet(z.oldRoots[|a.oldRoots|..]) == z.vis - a.vis - open
  }

  /** A block that promotion made, for a handle it visited. */
  ghost predicate FreshCopy(a: Promo, z: Promo, q: Ptr)
    requires q in z.blocks
  {
    && q.Old? && a.nextOld <= q.id < z.nextOld
    && z.blocks[q].handle in z.vis && z.blocks[q].handle in z.mem && z.mem[z.blocks[q].handle] == q
  }

  /** Blocks that existed are untouched, and so are handles that were not visited. */
  ghost predicate Untouched(a: Promo, z: Promo) {
    && a.vis <= z.vis && a.nextOld <= z.nextOld
    && (forall q | q in a.blocks :: q in z.blocks && z.blocks[q] == a.blocks[q])
    && (forall q | q in z.blocks :: q in a.blocks || (FreshCopy(a, z, q) && z.blocks[q].handle !in a.vis))
    && (forall h | h !in z.vis - a.vis :: (h in z.mem <==> h in a.mem) && (h in a.mem ==> z.mem[h] == a.mem[h]))
  }

  /** The newly visited handles have been moved, all but `open` completely. */
  ghost predicate Moving(a: Promo, z: Promo, s: set<nat>, from: set<nat>, open: set<nat>) {
    && Untouched(a, z) && Listed(a, z, open) && z.vis - a.vis <= s
    && (forall h | h in z.vis - a.vis :: Reachable(a.mem, a.blocks, {}, from, h))
    && (forall h | h in z.vis - a.vis - open :: Moved(a, z, h) && Children(a.mem, a.blocks, h) <= z.vis)
  }

  /** The block being filled for `h`: its first `i` cells are copied, the rest is nil,
      and what its first `v` cells name has been visited. */
  ghost predicate Filling(a: Promo, z: Promo, h: nat, p: Ptr, i: nat, v: nat) {
    && Live(a.mem, a.blocks, h) && h !in a.vis && h in z.vis
    && h in z.mem && z.mem[h] == p && p.Old? && a.nextOld <= p.id < z.nextOld && p in z.blocks
    && var src := a.blocks[a.mem[h]];
       && i <= |src.cells| == |z.blocks[p].cells|
       && z.blocks[p].handle == src.handle && z.blocks[p].marked == src.marked
       && (forall j | 0 <= j < i :: z.blocks[p].cells[j] == src.cells[j])
       && (forall j | 0 <= j < v && j < |src.cells| && src.cells[j].Arr? :: src.cells[j].handle in z.vis)
       && (forall j | i <= j < |src.cells| :: z.blocks[p].cells[j] == Nil)
  }

  lemma MovingCloses(a: Promo, z: Promo, s: set<nat>, from: set<nat>, h: nat, p: Ptr, i: nat, v: nat)
    requires Moving(a, z, s, from, {h}) && Filling(a, z, h, p, i, v) && Closed(a.mem, a.blocks, s) && h in s
    ensures Closed(z.mem, z.blocks, s)
    ensures forall x | x in s :: Children(z.mem, z.blocks, x) <= Children(a.mem, a.blocks, x)
  {
    forall x | x in s
      ensures Live(z.mem, z.blocks, x) && Children(z.mem, z.blocks, x) <= Children(a.mem, a.blocks, x)
    {
      if x == h {
        forall c | c in Children(z.mem, z.blocks, h) ensures c in Children(a.mem, a.blocks, h) {
          var j :| 0 <= j < |z.blocks[p].cells| && z.blocks[p].cells[j].Arr? && z.blocks[p].cells[j].handle == c;
          assert a.blocks[a.mem[h]].cells[j] in a.blocks[a.mem[h]].cells;
        }
      }
    }
  }

  lemma ListedThen(a: Promo, y: Promo, z: Promo, open: set<nat>)
    requires Listed(a, y, open) && Listed(y, z, {}) && a.vis <= y.vis <= z.vis && open <= y.vis
    ensures Listed(a, z, open)
  {
    var n, k := |a.oldRoots|, |y.oldRoots|;
    var l1, l2 := y.oldRoots[n..], z.oldRoots[k..];
    assert z.oldRoots[n..] == l1 + l2;
    forall i, j | 0 <= i < |l1| && 0 <= j < |l2| ensures l1[i] != l2[j] {
      assert l1[i] in SeqSet(l1) && l2[j] in SeqSet(l2);
    }
    forall x ensures x in SeqSet(l1 + l2) <==> x in SeqSet(l1) || x in SeqSet(l2) {
    }
  }

  lemma NothingMoves(a: Promo, s: set<nat>, from: set<nat>)
    ensures Moving(a, a, s, from, {})
  {
  }

  lemma MovingStarts(a: Promo, z: Promo, s: set<nat>, h: nat, copy: Ptr)
    requires Live(a.mem, a.blocks, h) && h in s && h !in a.vis && FreshOld(a.blocks, a.nextOld)
    requires copy == Old(a.nextOld)
    requires var b := a.blocks[a.mem[h]];
             z == Promo(a.mem[h := copy], a.blocks[copy := b.(cells := Nils(|b.cells|))], a.vis + {h}, a.oldRoots,
                 a.nextOld + 1)
    ensures Moving(a, z, s, {h}, {h}) && Filling(a, z, h, copy, 0, 0) && FreshOld(z.blocks, z.nextOld)
  {
    ReachSelf(a.mem, a.blocks, {}, {h}, h);
  }

  lemma CellCopied(a: Promo, y: Promo, z: Promo, s: set<nat>, h: nat, p: Ptr, i: nat)
    requires Moving(a, y, s, {h}, {h}) && Filling(a, y, h, p, i, i) && FreshOld(a.blocks, a.nextOld)
    requires FreshOld(y.blocks, y.nextOld)
    requires i < |a.blocks[a.mem[h]].cells|
    requires var b := y.blocks[p];
             z == y.(blocks := y.blocks[p := b.(cells := b.cells[i := a.blocks[a.mem[h]].cells[i]])])
    ensures Moving(a, z, s, {h}, {h}) && Filling(a, z, h, p, i + 1, i) && FreshOld(z.blocks, z.nextOld)
    ensures !a.blocks[a.mem[h]].cells[i].Arr? ==> Filling(a, z, h, p, i + 1, i + 1)
  {
    hide Listed, Reachable, Children, Cells;
    forall x | x in z.vis - a.vis - {h} ensures Moved(a, z, x) {
      assert Moved(a, y, x);
    }
    ListedSame(a, y, z, {h});
  }

  lemma ListedSame(a: Promo, y: Promo, z: Promo, open: set<nat>)
    requires Listed(a, y, open) && z.oldRoots == y.oldRoots && z.vis == y.vis
    ensures Listed(a, z, open)
  {
  }

  lemma ListedMore(a: Promo, y: Promo, z: Promo, h: nat)
    requires Listed(a, y, {h}) && h in y.vis - a.vis && z == y.(oldRoots := y.oldRoots + [h])
    ensures Listed(a, z, {})
  {
    var k := |a.oldRoots|;
    assert z.oldRoots[k..] == y.oldRoots[k..] + [h];
    assert forall x | x in y.oldRoots[k..] :: x in SeqSet(y.oldRoots[k..]);
    assert SeqSet(y.oldRoots[k..] + [h]) == SeqSet(y.oldRoots[k..]) + {h};
  }

  lemma MovingEnds(a: Promo, y: Promo, z: Promo, s: set<nat>, h: nat, p: Ptr, n: nat)
    requires Moving(a, y, s, {h}, {h}) && Filling(a, y, h, p, n, n) && n == |a.blocks[a.mem[h]].cells|
    requires z == y.(oldRoots := y.oldRoots + [h])
    ensures Moving(a, z, s, {h}, {}) && h in z.vis
  {
    hide Reachable, Listed;
    ListedMore(a, y, z, h);
    assert z.blocks[p].cells == a.blocks[a.mem[h]].cells;
    forall x | x in z.vis - a.vis ensures Moved(a, z, x) && Children(a.mem, a.blocks, x) <= z.vis {
      if x != h { assert Moved(a, y, x); }
    }
  }

  lemma UntouchedThen(a: Promo, y: Promo, z: Promo)
    requires Untouched(a, y) && Untouched(y, z)
    ensures Untouched(a, z)
  {
  }

  lemma ReachThen(a: Promo, y: Promo, s: set<nat>, h: nat, p: Ptr, i: nat, v: nat, c: nat, x: nat)
    requires Moving(a, y, s, {h}, {h}) && Filling(a, y, h, p, i, v) && Closed(a.mem, a.blocks, s) && h in s && c in s
    requires c in Children(a.mem, a.blocks, h) && Reachable(y.mem, y.blocks, {}, {c}, x)
    ensures Reachable(a.mem, a.blocks, {}, {h}, x)
  {
    MovingCloses(a, y, s, {h}, h, p, i, v);
    hide Moving, Filling, Reachable;
    ReachLess(s, {}, {c}, y.mem, y.blocks, a.mem, a.blocks, x);
    ReachSelf(a.mem, a.blocks, {}, {h}, h);
    ReachStep(a.mem, a.blocks, {}, {h}, h, c);
    ReachTrans(a.mem, a.blocks, {}, {h}, c, x);
  }

  lemma MovedThen(a: Promo, y: Promo, z: Promo, x: nat, open: set<nat>)
    requires Untouched(a, y) && Untouched(y, z)
    requires if x in y.vis then Moved(a, y, x) && Children(a.mem, a.blocks, x) <= y.vis
             else Moved(y, z, x) && Children(y.mem, y.blocks, x) <= z.vis && Live(a.mem, a.blocks, x)
    requires x in z.vis - a.vis
    ensures Moved(a, z, x) && Children(a.mem, a.blocks, x) <= z.vis
  {
  }

  /** After the recursive call on a cell, the enclosing copy is one cell further. */
  lemma MovingThen(a: Promo, y: Promo, z: Promo, s: set<nat>, h: nat, p: Ptr, i: nat, v: nat, c: nat)
    requires Moving(a, y, s, {h}, {h}) && Filling(a, y, h, p, i, v) && Closed(a.mem, a.blocks, s) && h in s
    requires c in Children(a.mem, a.blocks, h) && Moving(y, z, s, {c}, {})
    ensures Moving(a, z, s, {h}, {h})
    ensures Filling(a, z, h, p, i, v)
    ensures c in s
  {
    hide Listed, Reachable, Moved, Children;
    assert Live(a.mem, a.blocks, h) && Children(a.mem, a.blocks, h) <= s;
    ListedThen(a, y, z, {h});
    UntouchedThen(a, y, z);
    forall x | x in z.vis - a.vis ensures Reachable(a.mem, a.blocks, {}, {h}, x) {
      if x !in y.vis {
        ReachThen(a, y, s, h, p, i, v, c, x);
      }
    }
    forall x | x in z.vis - a.vis - {h} ensures Moved(a, z, x) && Children(a.mem, a.blocks, x) <= z.vis {
      MovedThen(a, y, z, x, {h});
    }
  }

  lemma LiveIn(a: Promo, s: set<nat>, h: nat)
    requires Closed(a.mem, a.blocks, s) && h in s
    ensures Live(a.mem, a.blocks, h)
  {
  }

  lemma FillingAt(a: Promo, y: Promo, s: set<nat>, h: nat, p: Ptr, i: nat)
    requires Filling(a, y, h, p, i, i)
    ensures p in y.blocks && Live(a.mem, a.blocks, h) && |y.blocks[p].cells| == |a.blocks[a.mem[h]].cells|
  {
  }

  /** What the recursive call on cell `i` needs. */
  lemma CellLeads(a: Promo, z: Promo, s: set<nat>, h: nat, p: Ptr, i: nat, c: nat)
    requires Moving(a, z, s, {h}, {h}) && Filling(a, z, h, p, i + 1, i) && Closed(a.mem, a.blocks, s) && h in s
    requires i < |a.blocks[a.mem[h]].cells| && a.blocks[a.mem[h]].cells[i] == z.blocks[p].cells[i]
    requires z.blocks[p].cells[i].Arr? && z.blocks[p].cells[i].handle == c
    ensures Closed(z.mem, z.blocks, s) && c in s && Live(z.mem, z.blocks, c) && c in Children(a.mem, a.blocks, h)
    ensures s - z.vis < s - a.vis
  {
    MovingCloses(a, z, s, {h}, h, p, i + 1, i);
    assert c in Children(a.mem, a.blocks, h);
    assert h in s - a.vis && h !in s - z.vis;
  }

  lemma FilledOn(a: Promo, y: Promo, z: Promo, s: set<nat>, h: nat, p: Ptr, i: nat, c: nat)
    requires Moving(a, y, s, {h}, {h}) && Filling(a, y, h, p, i + 1, i) && Closed(a.mem, a.blocks, s) && h in s
    requires c in Children(a.mem, a.blocks, h) && Moving(y, z, s, {c}, {}) && c in z.vis
    requires i < |a.blocks[a.mem[h]].cells| && a.blocks[a.mem[h]].cells[i].Arr?
    requires a.blocks[a.mem[h]].cells[i].handle == c
    ensures Moving(a, z, s, {h}, {h}) && Filling(a, z, h, p, i + 1, i + 1)
  {
    hide Listed, Reachable, Children;
    MovingThen(a, y, z, s, h, p, i + 1, i, c);
    FillingMore(a, z, h, p, i);
  }

  lemma FillingMore(a: Promo, z: Promo, h: nat, p: Ptr, i: nat)
    requires Filling(a, z, h, p, i + 1, i)
    requires var cells := a.blocks[a.mem[h]].cells; i < |cells| && (cells[i].Arr? ==> cells[i].handle in z.vis)
    ensures Filling(a, z, h, p, i + 1, i + 1)
  {
  }

  /** The young generation lists every block of the arena once. */
  ghost predicate YoungListed(mem: Mem, blocks: Blocks, youngs: seq<Ptr>) {
    && LargeListed(mem, blocks, youngs)
    && (forall p | p in youngs :: p.Young?)
    && forall p | p in blocks && p.Young? :: p in youngs
  }

  /** Promotion of the objects that `from` leads to, seen from the heap at its start:
      marks aside, the visited handles have been moved and nothing else has changed. */
  ghost predicate Promoting(a: Promo, z: Promo, s: set<nat>, from: set<nat>) {
    && z.vis <= s && a.nextOld <= z.nextOld
    && (forall h | h in z.vis :: Reachable(a.mem, a.blocks, {}, from, h) && Children(a.mem, a.blocks, h) <= z.vis)
    && (forall h | h in z.vis :: Relocated(a, z, h))
    && (forall h | h !in z.vis :: (h in z.mem <==> h in a.mem) && (h in a.mem ==> z.mem[h] == a.mem[h]))
    && BlocksKept(a, z) && Listed(a.(vis := {}), z, {})
  }

  /** Marks aside, the blocks that were there are as before, and the others are the
      copies that promotion made. */
  ghost predicate BlocksKept(a: Promo, z: Promo) {
    && (forall q | q in a.blocks ::
       q in z.blocks && z.blocks[q].handle == a.blocks[q].handle && z.blocks[q].cells == a.blocks[q].cells)
    && (forall q | q in z.blocks :: q in a.blocks || FreshCopy(a, z, q))
  }

  lemma BlocksKeptThen(a: Promo, y: Promo, y1: Promo, z: Promo, p: Ptr)
    requires BlocksKept(a, y) && p in y.blocks && y1 == y.(blocks := y.blocks[p := y.blocks[p].(marked := false)])
    requires Untouched(y1, z) && a.nextOld <= y.nextOld
    ensures BlocksKept(a, z)
  {
  }

  /** The handle resolves to a new old block with the contents it had. */
  ghost predicate Relocated(a: Promo, z: Promo, h: nat) {
    && Live(a.mem, a.blocks, h) && Live(z.mem, z.blocks, h)
    && z.mem[h].Old? && a.nextOld <= z.mem[h].id && Cells(z.mem, z.blocks, h) == Cells(a.mem, a.blocks, h)
  }

  lemma PromotingSame(a: Promo, z: Promo, s: set<nat>, from: set<nat>)
    requires Promoting(a, z, s, from) && Closed(a.mem, a.blocks, s)
    ensures SameContents(s, a.mem, a.blocks, z.mem, z.blocks) && Closed(z.mem, z.blocks, s)
  {
    hide Listed, Reachable;
    forall h | h in s ensures Live(z.mem, z.blocks, h) && Cells(z.mem, z.blocks, h) == Cells(a.mem, a.blocks, h) {
      if h in z.vis { assert Relocated(a, z, h); }
    }
  }

  lemma RelocatedThen(a: Promo, y: Promo, y1: Promo, z: Promo, s: set<nat>, from: set<nat>, h: nat, p: Ptr, x: nat)
    requires Promoting(a, y, s, from) && Closed(a.mem, a.blocks, s) && h in s
    requires p in y.blocks && y1 == y.(blocks := y.blocks[p := y.blocks[p].(marked := false)])
    requires Moving(y1, z, s, {h}, {}) && x in z.vis
    ensures Reachable(a.mem, a.blocks, {}, from + {h}, x)
    ensures Children(a.mem, a.blocks, x) <= z.vis && Relocated(a, z, x)
  {
    hide Listed, Reachable, BlocksKept, Closed;
    if x in y.vis {
      assert Relocated(a, y, x);
      ReachMore(a.mem, a.blocks, {}, from, {}, from + {h}, x);
    } else {
      NewlyRelocated(a, y, y1, z, s, from, h, p, x);
    }
  }

  lemma NewlyRelocated(a: Promo, y: Promo, y1: Promo, z: Promo, s: set<nat>, from: set<nat>, h: nat, p: Ptr, x: nat)
    requires Promoting(a, y, s, from) && Closed(a.mem, a.blocks, s) && h in s
    requires p in y.blocks && y1 == y.(blocks := y.blocks[p := y.blocks[p].(marked := false)])
    requires Moving(y1, z, s, {h}, {}) && x in z.vis && x !in y.vis
    ensures Reachable(a.mem, a.blocks, {}, from + {h}, x)
    ensures Children(a.mem, a.blocks, x) <= z.vis && Relocated(a, z, x)
  {
    hide Listed, Reachable, BlocksKept;
    PromotingSame(a, y, s, from);
    MarksDontMatter(y.mem, y.blocks, y1.blocks, s);
    assert Moved(y1, z, x);
    ReachableSame(s, {}, {h}, a.mem, a.blocks, y1.mem, y1.blocks, x);
    ReachMore(a.mem, a.blocks, {}, {h}, {}, from + {h}, x);
  }

  /** One more marked young object has been promoted. */
  lemma PromotingNext(a: Promo, y: Promo, y1: Promo, z: Promo, s: set<nat>, from: set<nat>, h: nat, p: Ptr)
    requires Promoting(a, y, s, from) && Closed(a.mem, a.blocks, s) && h in s
    requires p in y.blocks && y1 == y.(blocks := y.blocks[p := y.blocks[p].(marked := false)])
    requires Moving(y1, z, s, {h}, {}) && h in z.vis
    ensures Promoting(a, z, s, from + {h})
  {
    hide Listed, Reachable, Relocated, Children, Closed, Moved, BlocksKept;
    BlocksKeptThen(a, y, y1, z, p);
    ListedSame(a.(vis := {}), y, y1, {});
    ListedThen(a.(vis := {}), y1, z, {});
    forall x | x in z.vis
      ensures Reachable(a.mem, a.blocks, {}, from + {h}, x)
      ensures Children(a.mem, a.blocks, x) <= z.vis && Relocated(a, z, x)
    {
      RelocatedThen(a, y, y1, z, s, from, h, p, x);
    }
  }

  /** The young objects a minor collection marks. */
  ghost function YoungFound(mem: Mem, blocks: Blocks, youngs: seq<Ptr>, s: set<nat>, roots: seq<Value>): set<nat>
    requires LargeListed(mem, blocks, youngs)
  {
    var listed := SeqSet(HandleSeq(blocks, youngs));
    Found(mem, blocks, listed, Stale(mem, blocks, s, listed, roots), roots)
  }

  /** The effect of a promotion on the whole heap: what the marked young objects lead
      to has been moved to the old generation, every block of the arena is gone. */
  ghost predicate PromotedFrom(a: Promo, z: Promo, s: set<nat>, from: set<nat>) {
    && (forall h :: h in z.vis <==> Reachable(a.mem, a.blocks, {}, from, h))
    && (forall h | h in z.vis :: Relocated(a, z, h))
    && (forall h | h !in z.vis :: (h in z.mem <==> h in a.mem) && (h in a.mem ==> z.mem[h] == a.mem[h]))
    && (forall q | q in a.blocks && !q.Young? ::
       q in z.blocks && z.blocks[q].handle == a.blocks[q].handle && z.blocks[q].cells == a.blocks[q].cells)
    && (forall q | q in z.blocks :: !q.Young? && (q in a.blocks || FreshCopy(a, z, q)))
    && Listed(a.(vis := {}), z, {})
  }

  function WithoutYoung(b: Blocks): Blocks {
    map p | p in b && !p.Young? :: b[p]
  }

  /** The state of the promotion loop after `i` young objects. */
  ghost predicate PromotingInv(a: Promo, b2: Blocks, youngs: seq<Ptr>, i: nat, found: set<nat>, z: Promo, s: set<nat>) {
    && i <= |youngs| && LargeListed(a.mem, a.blocks, youngs) && SameButMarks(a.blocks, b2)
    && (forall p | p in youngs :: p.Young? && (b2[p].marked <==> a.blocks[p].handle in found))
    && Promoting(a, z, s, SeqSet(HandleSeq(a.blocks, youngs[..i])) * found)
    && (forall h | h in SeqSet(HandleSeq(a.blocks, youngs[..i])) * found :: h in z.vis)
    && (forall j | i <= j < |youngs| :: z.blocks[youngs[j]].marked == b2[youngs[j]].marked)
    && FreshOld(z.blocks, z.nextOld)
  }

  lemma FoundInside(a: Promo, youngs: seq<Ptr>, s: set<nat>, roots: seq<Value>)
    requires LargeListed(a.mem, a.blocks, youngs) && Closed(a.mem, a.blocks, s) && Handles(roots) <= s
    ensures YoungFound(a.mem, a.blocks, youngs, s, roots) <= s
    ensures YoungFound(a.mem, a.blocks, youngs, s, roots) <= SeqSet(HandleSeq(a.blocks, youngs))
  {
    hide Reachable, Closed;
    var listed := SeqSet(HandleSeq(a.blocks, youngs));
    var wall := Stale(a.mem, a.blocks, s, listed, roots);
    forall h | h in YoungFound(a.mem, a.blocks, youngs, s, roots) ensures h in s {
      ChildrenInside(a, s);
      ReachableInside(a.mem, a.blocks, wall, Handles(roots), s, h);
    }
  }

  lemma ChildrenInside(a: Promo, s: set<nat>)
    requires Closed(a.mem, a.blocks, s)
    ensures forall x | x in s :: Children(a.mem, a.blocks, x) <= s
  {
  }

  lemma PromotionStarts(a: Promo, b2: Blocks, youngs: seq<Ptr>, found: set<nat>, z: Promo, s: set<nat>)
    requires YoungListed(a.mem, a.blocks, youngs) && SameButMarks(a.blocks, b2) && FreshOld(a.blocks, a.nextOld)
    requires forall p | p in youngs :: p in b2 && (b2[p].marked <==> a.blocks[p].handle in found)
    requires z == a.(blocks := b2, vis := {})
    ensures PromotingInv(a, b2, youngs, 0, found, z, s)
  {
    hide Reachable, Children;
    assert Listed(a.(vis := {}), z, {}) by {
      assert z.oldRoots[|a.oldRoots|..] == [];
    }
  }

  lemma YoungAt(a: Promo, youngs: seq<Ptr>, i: nat)
    requires LargeListed(a.mem, a.blocks, youngs) && i < |youngs|
    ensures youngs[i] in a.blocks
    ensures a.blocks[youngs[i]].handle in a.mem && a.mem[a.blocks[youngs[i]].handle] == youngs[i]
    ensures forall p | p in youngs[..i + 1] :: p in a.blocks
    ensures forall p | p in youngs[..i] :: p in a.blocks
    ensures SeqSet(HandleSeq(a.blocks, youngs[..i + 1])) == SeqSet(HandleSeq(a.blocks,
              youngs[..i])) + {a.blocks[youngs[i]].handle}
  {
    assert youngs[i] in youngs;
    assert youngs[..i + 1] == youngs[..i] + [youngs[i]];
    assert HandleSeq(a.blocks, youngs[..i + 1]) == HandleSeq(a.blocks, youngs[..i]) + [a.blocks[youngs[i]].handle];
  }

  lemma PromotionAt(a: Promo, b2: Blocks, youngs: seq<Ptr>, i: nat, found: set<nat>, z: Promo, s: set<nat>)
    requires PromotingInv(a, b2, youngs, i, found, z, s) && i < |youngs|
    ensures var p := youngs[i];
            && p in a.blocks && p in z.blocks && z.blocks[p].handle == a.blocks[p].handle
            && (z.blocks[p].marked <==> a.blocks[p].handle in found)
    ensures a.blocks[youngs[i]].handle in z.vis
              || (a.blocks[youngs[i]].handle in z.mem && z.mem[a.blocks[youngs[i]].handle] == youngs[i])
    ensures Promoting(a, z, s, SeqSet(HandleSeq(a.blocks, youngs[..i])) * found)
    ensures forall p | p in youngs :: p in z.blocks
  {
    hide Reachable, Children, Listed, Relocated;
    YoungAt(a, youngs, i);
    assert youngs[i] in youngs;
  }

  /** What `Rebind` needs of a marked young object. */
  lemma PromotionReady(a: Promo, b2: Blocks, youngs: seq<Ptr>, i: nat, found: set<nat>, y: Promo, y1: Promo,
      s: set<nat>)
    requires PromotingInv(a, b2, youngs, i, found, y, s) && i < |youngs| && Closed(a.mem, a.blocks, s) && found <= s
    requires youngs[i] in y.blocks && y.blocks[youngs[i]].marked
    requires y1 == y.(blocks := y.blocks[youngs[i] := y.blocks[youngs[i]].(marked := false)])
    ensures var p := youngs[i];
            && p in y1.blocks && y1.blocks[p].handle in s
            && (y1.blocks[p].handle in y1.vis || (y1.blocks[p].handle in y1.mem && y1.mem[y1.blocks[p].handle] == p))
    ensures Closed(y1.mem, y1.blocks, s) && FreshOld(y1.blocks, y1.nextOld)
  {
    hide Promoting, Reachable, Children, Closed, LargeListed;
    PromotionAt(a, b2, youngs, i, found, y, s);
    YoungAt(a, youngs, i);
    PromotingSame(a, y, s, SeqSet(HandleSeq(a.blocks, youngs[..i])) * found);
    MarksDontMatter(y.mem, y.blocks, y1.blocks, s);
  }

  lemma PromotionNext(a: Promo, b2: Blocks, youngs: seq<Ptr>, i: nat, found: set<nat>, y: Promo, y1: Promo, z: Promo,
      s: set<nat>)
    requires PromotingInv(a, b2, youngs, i, found, y, s) && i < |youngs| && Closed(a.mem, a.blocks, s) && found <= s
    requires youngs[i] in y.blocks && y.blocks[youngs[i]].marked
    requires y1 == y.(blocks := y.blocks[youngs[i] := y.blocks[youngs[i]].(marked := false)])
    requires Moving(y1, z, s, {y.blocks[youngs[i]].handle}, {}) && y.blocks[youngs[i]].handle in z.vis
    requires FreshOld(z.blocks, z.nextOld)
    ensures PromotingInv(a, b2, youngs, i + 1, found, z, s)
  {
    hide Promoting, Reachable, Children, Closed, Listed, Moved;
    PromotionAt(a, b2, youngs, i, found, y, s);
    YoungAt(a, youngs, i);
    var h := a.blocks[youngs[i]].handle;
    var from := SeqSet(HandleSeq(a.blocks, youngs[..i])) * found;
    assert SeqSet(HandleSeq(a.blocks, youngs[..i + 1])) * found == from + {h};
    PromotingNext(a, y, y1, z, s, from, h, youngs[i]);
    forall j | i + 1 <= j < |youngs| ensures youngs[j] in z.blocks
        && z.blocks[youngs[j]].marked == b2[youngs[j]].marked {
      assert youngs[j] != youngs[i] && youngs[j] in youngs;
    }
  }

  lemma PromotionSkips(a: Promo, b2: Blocks, youngs: seq<Ptr>, i: nat, found: set<nat>, y: Promo, s: set<nat>)
    requires PromotingInv(a, b2, youngs, i, found, y, s) && i < |youngs|
    requires youngs[i] in y.blocks && !y.blocks[youngs[i]].marked
    ensures PromotingInv(a, b2, youngs, i + 1, found, y, s)
  {
    hide Promoting, Reachable, Children, Closed, Listed, Moved;
    PromotionAt(a, b2, youngs, i, found, y, s);
    YoungAt(a, youngs, i);
    assert SeqSet(HandleSeq(a.blocks, youngs[..i + 1])) * found == SeqSet(HandleSeq(a.blocks, youngs[..i])) * found;
  }

  /** What is visited is exactly what the marked young objects lead to. */
  lemma VisIsReached(a: Promo, z: Promo, s: set<nat>, from: set<nat>)
    requires Promoting(a, z, s, from) && from <= z.vis
    ensures forall h :: h in z.vis <==> Reachable(a.mem, a.blocks, {}, from, h)
  {
    hide Reachable, Children, Listed, Relocated, BlocksKept;
    forall h ensures h in z.vis <==> Reachable(a.mem, a.blocks, {}, from, h) {
      if Reachable(a.mem, a.blocks, {}, from, h) {
        ReachableInside(a.mem, a.blocks, {}, from, z.vis, h);
      }
    }
  }

  lemma ArenaReleased(a: Promo, z: Promo, s: set<nat>, from: set<nat>)
    requires Promoting(a, z, s, from) && from <= z.vis
    ensures PromotedFrom(a, z.(blocks := WithoutYoung(z.blocks)), s, from)
  {
    hide Reachable, Children, Listed;
    VisIsReached(a, z, s, from);
    ListedSame(a.(vis := {}), z, z.(blocks := WithoutYoung(z.blocks)), {});
  }

  lemma PromotionEnds(a: Promo, b2: Blocks, youngs: seq<Ptr>, found: set<nat>, z: Promo, s: set<nat>)
    requires PromotingInv(a, b2, youngs, |youngs|, found, z, s) && YoungListed(a.mem, a.blocks, youngs)
    requires found <= SeqSet(HandleSeq(a.blocks, youngs))
    ensures PromotedFrom(a, z.(blocks := WithoutYoung(z.blocks)), s, found)
    ensures FreshOld(WithoutYoung(z.blocks), z.nextOld)
  {
    hide Promoting, PromotedFrom;
    assert youngs[..|youngs|] == youngs;
    assert SeqSet(HandleSeq(a.blocks, youngs)) * found == found;
    ArenaReleased(a, z, s, found);
  }

  // ---- the marks that promotion leaves ----

  /** Whether a header is marked once the stack has been marked from: the young ones lose
      their marks first, the others keep theirs. */
  ghost predicate MarkedThen(mem: Mem, blocks: Blocks, youngs: seq<Ptr>, s: set<nat>, roots: seq<Value>, q: Ptr)
    requires LargeListed(mem, blocks, youngs) && q in blocks
  {
    var h := blocks[q].handle;
    || (q !in youngs && blocks[q].marked)
    || (h in s && h in mem && mem[h] == q
        && Reachable(mem, blocks, Stale(mem, blocks, s, SeqSet(HandleSeq(blocks, youngs)), roots), Handles(roots), h))
  }

  lemma MarkedThenIs(mem: Mem, b: Blocks, b2: Blocks, youngs: seq<Ptr>, s: set<nat>, roots: seq<Value>, q: Ptr)
    requires LargeListed(mem, b, youngs) && Closed(mem, b, s) && Handles(roots) <= s && q in b
    requires var b1 := Unmark(b, SeqSet(youngs));
             && SameButMarks(b1, b2) && MarksKept(b1, b2)
             && NewMarks(mem, b1, b2, s, MarkedSet(mem, b1, s) - Handles(roots), Handles(roots))
             && forall r | r in Handles(roots) :: RootMarked(mem, b2, r)
    ensures q in b2 && (b2[q].marked <==> MarkedThen(mem, b, youngs, s, roots, q))
  {
    hide Reachable, Closed;
    var b1, from, h := Unmark(b, SeqSet(youngs)), Handles(roots), b[q].handle;
    var wall := MarkedSet(mem, b1, s) - from;
    UnmarkFacts(mem, b, SeqSet(youngs), s);
    MarksDontMatter(mem, b, b1, s);
    WallIsStale(mem, b, youngs, s, roots);
    if b2[q].marked && !b1[q].marked {
      assert Newly(mem, b1, b2, s, wall, from, q);
      MarksDontReach(mem, b, b1, s, wall, from, h);
    }
    if h in s && h in mem && mem[h] == q && Reachable(mem, b, wall, from, h) {
      MarksDontReach(mem, b, b1, s, wall, from, h);
      MarkIsExact(mem, b1, b2, s, from, h);
    }
  }

  lemma SameMarksThen(b: Blocks, b1: Blocks, b2: Blocks)
    requires SameButMarks(b, b1) && SameButMarks(b1, b2)
    ensures SameButMarks(b, b2) && b2.Keys == b.Keys
  {
  }

  /** Young objects are marked exactly when they are found. */
  lemma YoungMarkedFound(mem: Mem, b: Blocks, youngs: seq<Ptr>, s: set<nat>, roots: seq<Value>, p: Ptr)
    requires LargeListed(mem, b, youngs) && Closed(mem, b, s) && Handles(roots) <= s && p in youngs
    ensures MarkedThen(mem, b, youngs, s, roots, p) <==> b[p].handle in YoungFound(mem, b, youngs, s, roots)
  {
    hide Reachable;
    var hs, h := HandleSeq(b, youngs), b[p].handle;
    var wall := Stale(mem, b, s, SeqSet(hs), roots);
    var i :| 0 <= i < |youngs| && youngs[i] == p;
    assert hs[i] == h;
    if Reachable(mem, b, wall, Handles(roots), h) {
      ReachableInside(mem, b, wall, Handles(roots), s, h);
    }
  }

  lemma WallIsStale(mem: Mem, b: Blocks, youngs: seq<Ptr>, s: set<nat>, roots: seq<Value>)
    requires LargeListed(mem, b, youngs) && Closed(mem, b, s)
    ensures MarkedSet(mem, Unmark(b, SeqSet(youngs)), s) - Handles(roots)
            == Stale(mem, b, s, SeqSet(HandleSeq(b, youngs)), roots)
  {
    hide Handles;
    LargeAsHandles(mem, b, youngs);
    UnmarkFacts(mem, b, SeqSet(youngs), s);
    var hs := HandleSeq(b, youngs);
    forall h | h in s ensures mem[h] in youngs <==> h in hs {
      if mem[h] in youngs {
        var i :| 0 <= i < |youngs| && youngs[i] == mem[h];
        assert hs[i] == h;
      }
      if h in hs {
        var i :| 0 <= i < |hs| && hs[i] == h;
        assert youngs[i] in youngs;
      }
    }
  }

  /** `h` names a young object that no marked one before it in the list leads to: it loses
      its mark before it is copied. */
  ghost predicate CopiedFirst(a: Promo, youngs: seq<Ptr>, n: nat, found: set<nat>, h: nat)
    requires LargeListed(a.mem, a.blocks, youngs) && n <= |youngs|
  {
    exists i :: 0 <= i < n && FirstAt(a, youngs, i, found, h)
  }

  ghost predicate FirstAt(a: Promo, youngs: seq<Ptr>, i: nat, found: set<nat>, h: nat)
    requires LargeListed(a.mem, a.blocks, youngs) && i < |youngs|
  {
    youngs[i] in a.blocks && a.blocks[youngs[i]].handle == h
    && !Reachable(a.mem, a.blocks, {}, EarlierFound(a, youngs, i, found), h)
  }

  ghost function EarlierFound(a: Promo, youngs: seq<Ptr>, i: nat, found: set<nat>): set<nat>
    requires LargeListed(a.mem, a.blocks, youngs) && i <= |youngs|
  {
    SeqSet(HandleSeq(a.blocks, youngs[..i])) * found
  }

  /** Marks after `i` young objects: blocks that were there have the marks of the marking,
      the objects done excepted; a copy has the mark of what it was copied from, unless
      that was taken away first. */
  ghost predicate MarksCarried(a: Promo, b2: Blocks, youngs: seq<Ptr>, i: nat, found: set<nat>, z: Promo) {
    && i <= |youngs| && LargeListed(a.mem, a.blocks, youngs)
    && (forall q | q in b2 :: q in z.blocks && (z.blocks[q].marked <==> b2[q].marked && q !in youngs[..i]))
    && (forall h | h in z.vis :: CopyMarked(a, b2, youngs, i, found, z, h))
  }

  ghost predicate CopyMarked(a: Promo, b2: Blocks, youngs: seq<Ptr>, i: nat, found: set<nat>, z: Promo, h: nat)
    requires LargeListed(a.mem, a.blocks, youngs) && i <= |youngs|
  {
    && h in a.mem && a.mem[h] in b2 && h in z.mem && z.mem[h] in z.blocks
    && (z.blocks[z.mem[h]].marked <==> b2[a.mem[h]].marked && !CopiedFirst(a, youngs, i, found, h))
  }

  lemma CarriedStarts(a: Promo, b2: Blocks, youngs: seq<Ptr>, found: set<nat>, z: Promo)
    requires LargeListed(a.mem, a.blocks, youngs) && z.blocks == b2 && z.vis == {}
    ensures MarksCarried(a, b2, youngs, 0, found, z)
  {
  }

  /** Being visited, `h` is not copied first at a later place of the list. */
  lemma FirstNext(a: Promo, youngs: seq<Ptr>, i: nat, found: set<nat>, h: nat)
    requires LargeListed(a.mem, a.blocks, youngs) && i < |youngs|
    ensures CopiedFirst(a, youngs, i + 1, found, h) <==>
              CopiedFirst(a, youngs, i, found, h) || FirstAt(a, youngs, i, found, h)
  {
    hide FirstAt;
  }

  lemma CarriedSkips(a: Promo, b2: Blocks, youngs: seq<Ptr>, i: nat, found: set<nat>, y: Promo, s: set<nat>)
    requires PromotingInv(a, b2, youngs, i, found, y, s) && i < |youngs| && MarksCarried(a, b2, youngs, i, found, y)
    requires youngs[i] in y.blocks && !y.blocks[youngs[i]].marked
    ensures MarksCarried(a, b2, youngs, i + 1, found, y)
  {
    hide Reachable, Listed, Relocated, BlocksKept, CopiedFirst;
    assert youngs[..i + 1] == youngs[..i] + [youngs[i]];
    forall h | h in y.vis ensures CopyMarked(a, b2, youngs, i + 1, found, y, h) {
      assert CopyMarked(a, b2, youngs, i, found, y, h);
      FirstNext(a, youngs, i, found, h);
    }
  }

  lemma CarriedNext(a: Promo, b2: Blocks, youngs: seq<Ptr>, i: nat, found: set<nat>, y: Promo, y1: Promo, z: Promo,
      s: set<nat>)
    requires PromotingInv(a, b2, youngs, i, found, y, s) && i < |youngs| && MarksCarried(a, b2, youngs, i, found, y)
    requires youngs[i] in y.blocks && y.blocks[youngs[i]].marked
    requires y1 == y.(blocks := y.blocks[youngs[i] := y.blocks[youngs[i]].(marked := false)])
    requires Moving(y1, z, s, {y.blocks[youngs[i]].handle}, {})
    ensures MarksCarried(a, b2, youngs, i + 1, found, z)
  {
    hide Reachable, Listed, BlocksKept, CopiedFirst, MarksCarried, PromotingInv, Moving;
    BlocksMarked(a, b2, youngs, i, found, y, y1, z, s);
    forall h | h in z.vis ensures CopyMarked(a, b2, youngs, i + 1, found, z, h) {
      if h in y.vis {
        OldCopyMarked(a, b2, youngs, i, found, y, y1, z, s, h);
      } else {
        NewCopyMarked(a, b2, youngs, i, found, y, y1, z, s, h);
      }
    }
    CarriedIs(a, b2, youngs, i + 1, found, z);
  }

  lemma CarriedIs(a: Promo, b2: Blocks, youngs: seq<Ptr>, i: nat, found: set<nat>, z: Promo)
    requires i <= |youngs| && LargeListed(a.mem, a.blocks, youngs)
    requires forall q | q in b2 :: q in z.blocks && (z.blocks[q].marked <==> b2[q].marked && q !in youngs[..i])
    requires forall h | h in z.vis :: CopyMarked(a, b2, youngs, i, found, z, h)
    ensures MarksCarried(a, b2, youngs, i, found, z)
  {
  }

  lemma BlocksMarked(a: Promo, b2: Blocks, youngs: seq<Ptr>, i: nat, found: set<nat>, y: Promo, y1: Promo, z: Promo,
      s: set<nat>)
    requires MarksCarried(a, b2, youngs, i, found, y) && i < |youngs| && youngs[i] in y.blocks
    requires y1 == y.(blocks := y.blocks[youngs[i] := y.blocks[youngs[i]].(marked := false)])
    requires Moving(y1, z, s, {y.blocks[youngs[i]].handle}, {})
    ensures i + 1 <= |youngs| && LargeListed(a.mem, a.blocks, youngs)
    ensures forall q | q in b2 :: q in z.blocks && (z.blocks[q].marked <==> b2[q].marked && q !in youngs[..i + 1])
  {
    hide Reachable, Listed, CopyMarked, Moved;
    assert youngs[..i + 1] == youngs[..i] + [youngs[i]];
  }

  lemma OldCopyMarked(a: Promo, b2: Blocks, youngs: seq<Ptr>, i: nat, found: set<nat>, y: Promo, y1: Promo, z: Promo,
      s: set<nat>, h: nat)
    requires PromotingInv(a, b2, youngs, i, found, y, s) && i < |youngs| && MarksCarried(a, b2, youngs, i, found, y)
    requires youngs[i] in y.blocks && h in y.vis
    requires y1 == y.(blocks := y.blocks[youngs[i] := y.blocks[youngs[i]].(marked := false)])
    requires Moving(y1, z, s, {y.blocks[youngs[i]].handle}, {})
    ensures CopyMarked(a, b2, youngs, i + 1, found, z, h)
  {
    hide Reachable, Listed, BlocksKept, CopiedFirst, Moved, Children;
    assert CopyMarked(a, b2, youngs, i, found, y, h) && Relocated(a, y, h);
    assert youngs[i] in youngs;
    FirstNext(a, youngs, i, found, h);
  }

  lemma NewCopyMarked(a: Promo, b2: Blocks, youngs: seq<Ptr>, i: nat, found: set<nat>, y: Promo, y1: Promo, z: Promo,
      s: set<nat>, h: nat)
    requires PromotingInv(a, b2, youngs, i, found, y, s) && i < |youngs| && MarksCarried(a, b2, youngs, i, found, y)
    requires youngs[i] in y.blocks && y.blocks[youngs[i]].marked && h in z.vis && h !in y.vis
    requires y1 == y.(blocks := y.blocks[youngs[i] := y.blocks[youngs[i]].(marked := false)])
    requires Moving(y1, z, s, {y.blocks[youngs[i]].handle}, {})
    ensures CopyMarked(a, b2, youngs, i + 1, found, z, h)
  {
    NewCopyFrom(a, b2, youngs, i, found, y, y1, z, s, h);
    hide Reachable, PromotingInv, Moving, MarksCarried, Promoting;
    var p := a.mem[h];
    if p == youngs[i] {
      NotYetReached(a, b2, youngs, i, found, y, s, h);
      assert FirstAt(a, youngs, i, found, h);
    } else if b2[p].marked {
      NeverFirst(a, b2, youngs, i, found, y, s, h);
    }
  }

  /** A new copy is that of a block whose mark has not been touched, the current one
      excepted. */
  lemma NewCopyFrom(a: Promo, b2: Blocks, youngs: seq<Ptr>, i: nat, found: set<nat>, y: Promo, y1: Promo, z: Promo,
      s: set<nat>, h: nat)
    requires PromotingInv(a, b2, youngs, i, found, y, s) && i < |youngs| && MarksCarried(a, b2, youngs, i, found, y)
    requires youngs[i] in y.blocks && y.blocks[youngs[i]].marked && h in z.vis && h !in y.vis
    requires y1 == y.(blocks := y.blocks[youngs[i] := y.blocks[youngs[i]].(marked := false)])
    requires Moving(y1, z, s, {y.blocks[youngs[i]].handle}, {})
    ensures LargeListed(a.mem, a.blocks, youngs) && i + 1 <= |youngs|
    ensures h in a.mem && a.mem[h] in b2 && a.mem[h] in a.blocks && a.blocks[a.mem[h]].handle == h
    ensures h in z.mem && z.mem[h] in z.blocks
    ensures z.blocks[z.mem[h]].marked <==> a.mem[h] != youngs[i] && b2[a.mem[h]].marked && a.mem[h] !in youngs[..i]
  {
    hide Reachable, Listed, CopyMarked, Children, Relocated;
    assert Moved(y1, z, h);
    assert y1.mem[h] == a.mem[h];
  }

  lemma NotYetReached(a: Promo, b2: Blocks, youngs: seq<Ptr>, i: nat, found: set<nat>, y: Promo, s: set<nat>, h: nat)
    requires PromotingInv(a, b2, youngs, i, found, y, s) && i < |youngs| && h !in y.vis
    ensures LargeListed(a.mem, a.blocks, youngs)
    ensures !Reachable(a.mem, a.blocks, {}, EarlierFound(a, youngs, i, found), h)
  {
    hide Promoting;
    VisIsReached(a, y, s, EarlierFound(a, youngs, i, found));
  }

  /** A marked young object that is copied on behalf of another one comes later in the
      list. */
  lemma NeverFirst(a: Promo, b2: Blocks, youngs: seq<Ptr>, i: nat, found: set<nat>, y: Promo, s: set<nat>, h: nat)
    requires PromotingInv(a, b2, youngs, i, found, y, s) && i < |youngs| && h !in y.vis
    requires h in a.mem && a.mem[h] in a.blocks && a.mem[h] in b2 && b2[a.mem[h]].marked
    requires a.blocks[a.mem[h]].handle == h && a.mem[h] != youngs[i]
    ensures LargeListed(a.mem, a.blocks, youngs) && !CopiedFirst(a, youngs, i + 1, found, h) && a.mem[h] !in youngs[..i]
  {
    hide Promoting, Reachable;
    forall j | 0 <= j < i ensures youngs[j] in youngs
        && (b2[youngs[j]].marked ==> a.blocks[youngs[j]].handle in y.vis) {
      assert youngs[j] in youngs;
      var k := a.blocks[youngs[j]].handle;
      assert HandleSeq(a.blocks, youngs[..i])[j] == k;
      assert b2[youngs[j]].marked ==> k in EarlierFound(a, youngs, i, found);
    }
    assert youngs[i] in youngs;
    assert forall j | 0 <= j < i + 1 :: youngs[j] != a.mem[h];
  }

  /** The marks a whole promotion leaves: those of the marking on the blocks that stay and
      on the copies, except on a copy of a marked object that no earlier one leads to. */
  ghost predicate PromotedMarks(a: Promo, z: Promo, youngs: seq<Ptr>, s: set<nat>, roots: seq<Value>)
    requires LargeListed(a.mem, a.blocks, youngs)
  {
    var found := YoungFound(a.mem, a.blocks, youngs, s, roots);
    && (forall q | q in a.blocks && !q.Young? ::
          q in z.blocks && (z.blocks[q].marked <==> MarkedThen(a.mem, a.blocks, youngs, s, roots, q)))
    && forall h | h in z.vis ::
         && h in a.mem && a.mem[h] in a.blocks && h in z.mem && z.mem[h] in z.blocks
         && (z.blocks[z.mem[h]].marked <==>
               MarkedThen(a.mem, a.blocks, youngs, s, roots, a.mem[h]) && !CopiedFirst(a, youngs, |youngs|, found, h))
  }

  lemma CopiesAreOld(a: Promo, b2: Blocks, youngs: seq<Ptr>, found: set<nat>, z: Promo, s: set<nat>)
    requires PromotingInv(a, b2, youngs, |youngs|, found, z, s)
    ensures forall h | h in z.vis :: h in z.mem && !z.mem[h].Young?
  {
    hide Reachable, Listed, BlocksKept;
    forall h | h in z.vis ensures h in z.mem && !z.mem[h].Young? { assert Relocated(a, z, h); }
  }

  lemma CarriedEnds(a: Promo, b2: Blocks, youngs: seq<Ptr>, z: Promo, s: set<nat>, roots: seq<Value>)
    requires YoungListed(a.mem, a.blocks, youngs) && b2.Keys == a.blocks.Keys
    requires forall q | q in b2 :: b2[q].marked <==> MarkedThen(a.mem, a.blocks, youngs, s, roots, q)
    requires MarksCarried(a, b2, youngs, |youngs|, YoungFound(a.mem, a.blocks, youngs, s, roots), z)
    requires forall h | h in z.vis :: h in z.mem && !z.mem[h].Young?
    ensures PromotedMarks(a, z.(blocks := WithoutYoung(z.blocks)), youngs, s, roots)
  {
    hide MarkedThen, CopiedFirst, YoungFound;
    assert youngs[..|youngs|] == youngs;
    forall h | h in z.vis
      ensures h in a.mem && a.mem[h] in a.blocks && z.mem[h] in WithoutYoung(z.blocks)
      ensures CopyMarked(a, b2, youngs, |youngs|, YoungFound(a.mem, a.blocks, youngs, s, roots), z, h)
    {
    }
  }

  // ---- heaps with no array inside an array ----

  /** The collector's state, apart from `vis`. */
  datatype Store = Store(mem: Mem, blocks: Blocks, youngs: seq<Ptr>, olds: seq<nat>, larges: seq<Ptr>,
                         used: nat, epoch: nat, nextOld: nat, nextLarge: nat, nextHandle: nat)

  /** A block at `p` for the next handle; its header is born marked. */
  function Allocated(g: Store, p: Ptr, cells: seq<Value>): Store {
    var g1 := g.(mem := g.mem[g.nextHandle := p], blocks := g.blocks[p := Block(g.nextHandle, true, cells)],
                 nextHandle := g.nextHandle + 1);
    if p.Young? then g1.(youngs := g.youngs + [p], used := g.used + |cells| + 1)
    else g1.(larges := g.larges + [p], nextLarge := g.nextLarge + 1)
  }

  lemma AllocCleared(g: Store, p: Ptr, junk: seq<Value>)
    ensures var g1 := Allocated(g, p, junk);
            && p in g1.blocks && g1.blocks[p] == Block(g.nextHandle, true, junk)
            && g1.(blocks := g1.blocks[p := Block(g.nextHandle, true, Nils(|junk|))]) == Allocated(g, p, Nils(|junk|))
            && Allocated(g, p, Nils(|junk|)).nextHandle == g.nextHandle + 1
  {
    var g1 := Allocated(g, p, junk);
    assert g1.blocks[p := Block(g.nextHandle, true, Nils(|junk|))]
        == g.blocks[p := Block(g.nextHandle, true, Nils(|junk|))];
  }

  ghost predicate Flat(blocks: Blocks) {
    forall p | p in blocks :: Handles(blocks[p].cells) == {}
  }

  /** Every block is the one its handle resolves to. */
  ghost predicate Canonical(mem: Mem, blocks: Blocks) {
    forall p | p in blocks :: blocks[p].handle in mem && mem[blocks[p].handle] == p
  }

  /** Blocks of the arena lie side by side below `used`, each with one header cell in
      front; there are never more of them than the list of young objects has room for. */
  ghost predicate Packed(blocks: Blocks, youngs: seq<Ptr>, used: nat, epoch: nat, threshold: nat) {
    && |youngs| <= used && (used == 0 || used < threshold)
    && (forall p | p in youngs :: p in blocks && p.Young? && p.epoch == epoch && p.off + |blocks[p].cells| + 1 <= used)
    && forall i, j | 0 <= i < j < |youngs| :: youngs[i].off + |blocks[youngs[i]].cells| + 1 <= youngs[j].off
  }

  ghost predicate Numbered(g: Store) {
    && FreshOld(g.blocks, g.nextOld)
    && (forall p | p in g.blocks && p.Large? :: p.id < g.nextLarge)
    && forall h | h in g.mem :: h < g.nextHandle
  }

  /** Each generation lists exactly its own blocks, once each. */
  ghost predicate Lists(g: Store) {
    && NoDup(g.youngs) && (forall p :: p in g.youngs <==> p in g.blocks && p.Young?)
    && NoDup(g.larges) && (forall p :: p in g.larges <==> p in g.blocks && p.Large?)
    && NoDup(g.olds) && (forall h | h in g.olds :: Live(g.mem, g.blocks, h) && g.mem[h].Old?)
    && (forall p | p in g.blocks && p.Old? :: g.blocks[p].handle in g.olds)
  }

  ghost predicate Tidy(g: Store, threshold: nat) {
    && Flat(g.blocks) && Canonical(g.mem, g.blocks) && Numbered(g) && Lists(g)
    && Packed(g.blocks, g.youngs, g.used, g.epoch, threshold)
  }

  ghost predicate Alive(g: Store, hs: set<nat>) {
    forall h | h in hs :: Live(g.mem, g.blocks, h)
  }

  /** What the handles `hs` name is still there, with the same contents. */
  ghost predicate Kept(g: Store, g1: Store, hs: set<nat>) {
    g1.nextHandle == g.nextHandle && SameContents(hs, g.mem, g.blocks, g1.mem, g1.blocks)
  }

  lemma FlatReach(mem: Mem, blocks: Blocks, wall: set<nat>, from: set<nat>, h: nat)
    requires Flat(blocks)
    ensures Reachable(mem, blocks, wall, from, h) <==> h in from
  {
    hide Reachable;
    if h in from { ReachSelf(mem, blocks, wall, from, h); }
    if Reachable(mem, blocks, wall, from, h) { ReachableInside(mem, blocks, wall, from, from, h); }
  }

  /** On such heaps marks hide nothing: a marking finds what is on the stack. */
  lemma FlatFound(mem: Mem, blocks: Blocks, listed: set<nat>, wall: set<nat>, roots: seq<Value>)
    requires Flat(blocks)
    ensures Found(mem, blocks, listed, wall, roots) == listed * Handles(roots)
  {
    hide Reachable;
    forall h ensures h in Found(mem, blocks, listed, wall, roots) <==> h in listed && h in Handles(roots) {
      FlatReach(mem, blocks, wall, Handles(roots), h);
    }
  }

  /** What the collections require holds in a tidy heap. */
  lemma TidyLists(g: Store, threshold: nat, hs: set<nat>)
    requires Tidy(g, threshold) && Alive(g, hs)
    ensures Closed(g.mem, g.blocks, hs) && FreshOld(g.blocks, g.nextOld)
    ensures YoungListed(g.mem, g.blocks, g.youngs) && LargeListed(g.mem, g.blocks, g.larges)
    ensures OldListed(g.mem, g.blocks, g.olds)
  {
  }

  /** Erasing the objects of one generation that are not on the stack. */
  ghost predicate Dropped(g: Store, mem1: Mem, b1: Blocks, listed: set<nat>, hs: set<nat>) {
    Swept(g.mem, g.blocks, listed - listed * hs, mem1, b1)
  }

  lemma DroppedKeeps(g: Store, threshold: nat, g1: Store, listed: set<nat>, hs: set<nat>)
    requires Tidy(g, threshold) && Alive(g, hs) && Alive(g, listed) && Dropped(g, g1.mem, g1.blocks, listed, hs)
    requires g1.nextHandle == g.nextHandle && g1.nextOld == g.nextOld && g1.nextLarge == g.nextLarge
    ensures Flat(g1.blocks) && Canonical(g1.mem, g1.blocks) && Numbered(g1) && Kept(g, g1, hs)
    ensures forall p :: p in g1.blocks
              <==> p in g.blocks && !(g.blocks[p].handle in listed && g.blocks[p].handle !in hs)
    ensures forall h :: h in g1.mem <==> h in g.mem && !(h in listed && h !in hs)
    ensures forall h | h in g1.mem :: g1.mem[h] == g.mem[h]
    ensures forall p | p in g1.blocks ::
              g1.blocks[p].handle == g.blocks[p].handle && g1.blocks[p].cells == g.blocks[p].cells
  {
    var gone := listed - listed * hs;
    forall p | p in g.blocks ensures p in g1.blocks <==> g.blocks[p].handle !in gone {
      if p !in g1.blocks {
        var h :| h in gone && h in g.mem && g.mem[h] == p;
      }
    }
  }

  lemma PackedSame(b: Blocks, b1: Blocks, youngs: seq<Ptr>, used: nat, epoch: nat, threshold: nat)
    requires Packed(b, youngs, used, epoch, threshold)
    requires forall p | p in youngs :: p in b1 && b1[p].cells == b[p].cells
    ensures Packed(b1, youngs, used, epoch, threshold)
  {
  }

  /** A major collection of a tidy heap: exactly the old objects that are not on the
      stack are gone. */
  lemma AfterMajor(g: Store, threshold: nat, g1: Store, hs: set<nat>)
    requires Tidy(g, threshold) && Alive(g, hs)
    requires Dropped(g, g1.mem, g1.blocks, SeqSet(g.olds), hs)
    requires g1.olds == Filter(g.olds, SeqSet(g.olds) * hs)
    requires g1 == g.(mem := g1.mem, blocks := g1.blocks, olds := g1.olds)
    ensures Tidy(g1, threshold) && Kept(g, g1, hs)
  {
    hide Flat, Canonical, Numbered, Dropped, Packed, Kept, Filter;
    DroppedKeeps(g, threshold, g1, SeqSet(g.olds), hs);
    FilterNoDup(g.olds, SeqSet(g.olds) * hs);
    CanonicalHandles(g, threshold);
    assert forall p | p in g.youngs :: p in g1.blocks;
    PackedSame(g.blocks, g1.blocks, g.youngs, g.used, g.epoch, threshold);
  }

  lemma CanonicalHandles(g: Store, threshold: nat)
    requires Tidy(g, threshold)
    ensures forall p | p in g.blocks :: g.blocks[p].handle in g.mem && g.mem[g.blocks[p].handle] == p
    ensures forall p | p in g.youngs || p in g.larges :: p in g.blocks && g.blocks[p].handle !in g.olds
  {
  }

  /** A large collection of a tidy heap, in the same way. */
  lemma AfterLarge(g: Store, threshold: nat, g1: Store, hs: set<nat>)
    requires Tidy(g, threshold) && Alive(g, hs)
    requires forall p | p in g.larges :: p in g.blocks
    requires var listed := SeqSet(HandleSeq(g.blocks, g.larges));
             Dropped(g, g1.mem, g1.blocks, listed, hs) &&
             var kept := Filter(HandleSeq(g.blocks, g.larges), listed * hs);
             (forall h | h in kept :: h in g1.mem) && g1.larges == PtrSeq(g1.mem, kept)
    requires g1 == g.(mem := g1.mem, blocks := g1.blocks, larges := g1.larges)
    ensures Tidy(g1, threshold) && Kept(g, g1, hs)
  {
    hide Flat, Canonical, Numbered, Dropped, Packed, Kept, Filter, Handles, Children, HandleSeq, PtrSeq, Lists, NoDup;
    var all := HandleSeq(g.blocks, g.larges);
    var kept := Filter(all, SeqSet(all) * hs);
    TidyLists(g, threshold, hs);
    LargeAsHandles(g.mem, g.blocks, g.larges);
    DroppedKeeps(g, threshold, g1, SeqSet(all), hs);
    FilterNoDup(all, SeqSet(all) * hs);
    CanonicalHandles(g, threshold);
    LargeHandles(g, all);
    LargesKept(g, g1, all, kept, hs);
    LargeLists(g, g1, all, hs);
    PackedSame(g.blocks, g1.blocks, g.youngs, g.used, g.epoch, threshold);
  }

  lemma LargeLists(g: Store, g1: Store, all: seq<nat>, hs: set<nat>)
    requires Lists(g) && g1 == g.(mem := g1.mem, blocks := g1.blocks, larges := g1.larges)
    requires forall h | h in all :: h in g.mem && g.mem[h] in g.larges
    requires forall p | p in g.larges :: p in g.blocks && g.blocks[p].handle in all
    requires forall h | h in g.olds :: h !in all
    requires forall p | p in g.youngs :: p in g.blocks && g.blocks[p].handle !in all
    requires forall p | p in g.blocks :: g.blocks[p].handle in g.mem && g.mem[g.blocks[p].handle] == p
    requires forall p :: p in g1.blocks <==> p in g.blocks && !(g.blocks[p].handle in all && g.blocks[p].handle !in hs)
    requires forall h :: h in g1.mem <==> h in g.mem && !(h in all && h !in hs)
    requires forall h | h in g1.mem :: g1.mem[h] == g.mem[h]
    requires forall p | p in g1.blocks :: g1.blocks[p].handle == g.blocks[p].handle
    requires NoDup(g1.larges) && forall p :: p in g1.larges <==> p in g.larges && g.blocks[p].handle in hs
    ensures Lists(g1)
  {
  }

  lemma LargeHandles(g: Store, all: seq<nat>)
    requires Canonical(g.mem, g.blocks) && Lists(g) && all == HandleSeq(g.blocks, g.larges)
    ensures forall h | h in all :: h in g.mem && g.mem[h] in g.larges && g.blocks[g.mem[h]].handle == h
    ensures forall p | p in g.larges :: g.blocks[p].handle in all
    ensures forall h | h in g.olds :: h !in all
    ensures forall p | p in g.youngs :: p in g.blocks && g.blocks[p].handle !in all
  {
    forall h | h in all ensures h in g.mem && g.mem[h] in g.larges && g.blocks[g.mem[h]].handle == h {
      var i :| 0 <= i < |all| && all[i] == h;
      assert g.larges[i] in g.larges;
    }
    forall p | p in g.larges ensures g.blocks[p].handle in all {
      var i :| 0 <= i < |g.larges| && g.larges[i] == p;
      assert all[i] == g.blocks[p].handle;
    }
  }

  lemma LargesKept(g: Store, g1: Store, all: seq<nat>, kept: seq<nat>, hs: set<nat>)
    requires NoDup(kept) && (forall h | h in kept :: h in g1.mem && h in g.mem && g1.mem[h] == g.mem[h])
    requires g1.larges == PtrSeq(g1.mem, kept)
    requires forall h :: h in kept <==> h in all && h in hs
    requires forall h | h in all ::
              h in g.mem && g.mem[h] in g.larges && g.mem[h] in g.blocks && g.blocks[g.mem[h]].handle == h
    requires forall p | p in g.larges ::
              p in g.blocks && g.blocks[p].handle in all && g.blocks[p].handle in g.mem
                  && g.mem[g.blocks[p].handle] == p
    ensures NoDup(g1.larges)
    ensures forall p :: p in g1.larges <==> p in g.larges && g.blocks[p].handle in hs
  {
    forall i, j | 0 <= i < j < |g1.larges| ensures g1.larges[i] != g1.larges[j] {
      assert kept[i] in kept && kept[j] in kept;
    }
    forall p ensures p in g1.larges <==> p in g.larges && g.blocks[p].handle in hs {
      if p in g1.larges {
        var i :| 0 <= i < |g1.larges| && g1.larges[i] == p;
        assert kept[i] in kept;
      }
      if p in g.larges && g.blocks[p].handle in hs {
        var i :| 0 <= i < |kept| && kept[i] == g.blocks[p].handle;
        assert g1.larges[i] == p;
      }
    }
  }

  ghost function PromoOf(g: Store, vis: set<nat>): Promo {
    Promo(g.mem, g.blocks, vis, g.olds, g.nextOld)
  }

  lemma PromotedKept(g: Store, a: Promo, z: Promo, g1: Store, hs: set<nat>, found: set<nat>)
    requires Canonical(g.mem, g.blocks) && Lists(g) && Alive(g, hs) && a.(vis := {}) == PromoOf(g, {})
    requires PromotedFrom(a, z, hs, found) && z.vis == found
    requires found == (set h | h in hs && g.mem[h].Young?)
    requires g1.mem == z.mem && g1.blocks == z.blocks && g1.nextHandle == g.nextHandle
    ensures Kept(g, g1, hs)
  {
    hide Reachable, Listed, Lists;
    forall h | h in hs ensures Live(z.mem, z.blocks, h) && Cells(z.mem, z.blocks, h) == Cells(g.mem, g.blocks, h) {
      if h in found { assert Relocated(a, z, h); }
    }
  }

  /** What promotion appends to the old generation was not in it. */
  lemma OldsStayDistinct(olds: seq<nat>, olds1: seq<nat>, found: set<nat>)
    requires NoDup(olds) && olds <= olds1 && NoDup(olds1[|olds|..]) && SeqSet(olds1[|olds|..]) == found
    requires forall h | h in olds :: h !in found
    ensures NoDup(olds1) && forall h :: h in olds1 <==> h in olds || h in found
  {
    var more := olds1[|olds|..];
    assert olds1 == olds + more;
    assert forall h :: h in more <==> h in SeqSet(more);
    forall i, j | 0 <= i < j < |olds1| ensures olds1[i] != olds1[j] {
      if i < |olds| <= j { assert olds1[i] in olds && olds1[j] in more; }
    }
  }

  lemma PromotedLists(g: Store, a: Promo, z: Promo, g1: Store, hs: set<nat>, found: set<nat>)
    requires Canonical(g.mem, g.blocks) && Lists(g) && a.(vis := {}) == PromoOf(g, {})
    requires PromotedFrom(a, z, hs, found) && z.vis == found
    requires forall h | h in found :: h in g.mem && g.mem[h].Young?
    requires g1 == g.(mem := z.mem, blocks := z.blocks, olds := z.oldRoots, nextOld := z.nextOld, youngs := [],
              used := 0, epoch := g1.epoch)
    ensures Lists(g1)
  {
    hide Reachable, Canonical;
    OldsStayDistinct(g.olds, z.oldRoots, found);
    forall h | h in z.oldRoots ensures Live(z.mem, z.blocks, h) && z.mem[h].Old? {
      if h in found { assert Relocated(a, z, h); }
    }
  }

  lemma PromotedBlocks(g: Store, a: Promo, z: Promo, hs: set<nat>, found: set<nat>)
    requires Flat(g.blocks) && Canonical(g.mem, g.blocks) && a.(vis := {}) == PromoOf(g, {})
    requires PromotedFrom(a, z, hs, found) && z.vis == found
    requires forall h | h in found :: h in g.mem && g.mem[h].Young?
    ensures Flat(z.blocks) && Canonical(z.mem, z.blocks)
  {
    hide Reachable, Listed;
    forall p | p in z.blocks
      ensures Handles(z.blocks[p].cells) == {} && z.blocks[p].handle in z.mem && z.mem[z.blocks[p].handle] == p
    {
      var h := z.blocks[p].handle;
      if p !in g.blocks {
        assert FreshCopy(a, z, p) && Relocated(a, z, h);
      }
    }
  }

  /** A promotion in a tidy heap: exactly the young objects on the stack are moved. */
  lemma AfterPromotion(g: Store, threshold: nat, a: Promo, z: Promo, g1: Store, hs: set<nat>, found: set<nat>)
    requires Tidy(g, threshold) && Alive(g, hs) && a.(vis := {}) == PromoOf(g, {}) && PromotedFrom(a, z, hs, found)
    requires found == SeqSet(HandleSeq(g.blocks, g.youngs)) * hs
    requires g1 == g.(mem := z.mem, blocks := z.blocks, olds := z.oldRoots, nextOld := z.nextOld, youngs := [],
              used := 0, epoch := g1.epoch)
    requires FreshOld(z.blocks, z.nextOld)
    ensures Tidy(g1, threshold) && Kept(g, g1, hs)
  {
    hide Reachable, Listed, Relocated, Flat, Canonical, Lists;
    VisIsFound(a, z, hs, found);
    YoungHandles(g);
    PromotedKept(g, a, z, g1, hs, found);
    PromotedLists(g, a, z, g1, hs, found);
    PromotedBlocks(g, a, z, hs, found);
    assert forall h | h in z.mem :: h in g.mem || h in found;
  }

  lemma VisIsFound(a: Promo, z: Promo, hs: set<nat>, found: set<nat>)
    requires Flat(a.blocks) && PromotedFrom(a, z, hs, found)
    ensures z.vis == found
  {
    hide Reachable, Listed, Relocated;
    forall h ensures h in z.vis <==> h in found {
      FlatReach(a.mem, a.blocks, {}, found, h);
    }
  }

  lemma YoungHandles(g: Store)
    requires Canonical(g.mem, g.blocks) && Lists(g)
    ensures forall p | p in g.youngs :: p in g.blocks
    ensures forall h :: h in HandleSeq(g.blocks, g.youngs) <==> Live(g.mem, g.blocks, h) && g.mem[h].Young?
  {
    var all := HandleSeq(g.blocks, g.youngs);
    forall h ensures h in all <==> Live(g.mem, g.blocks, h) && g.mem[h].Young? {
      if h in all {
        var i :| 0 <= i < |all| && all[i] == h;
        assert g.youngs[i] in g.youngs;
      }
      if Live(g.mem, g.blocks, h) && g.mem[h].Young? {
        var i :| 0 <= i < |g.youngs| && g.youngs[i] == g.mem[h];
        assert all[i] == h;
      }
    }
  }

  /** A new block, with its cells cleared. */
  lemma AfterAlloc(g: Store, threshold: nat, p: Ptr, len: nat, hs: set<nat>)
    requires Tidy(g, threshold) && Alive(g, hs)
    requires (p == Young(g.epoch, g.used) && g.used + len + 1 < threshold) || p == Large(g.nextLarge)
    ensures var g1 := Allocated(g, p, Nils(len));
            && Tidy(g1, threshold) && Kept(g, g1.(nextHandle := g.nextHandle), hs)
            && g.nextHandle !in g.mem && Live(g1.mem, g1.blocks, g.nextHandle)
            && Cells(g1.mem, g1.blocks, g.nextHandle) == Nils(len)
  {
    hide Flat, Canonical, Lists, Packed, Numbered;
    var g1 := Allocated(g, p, Nils(len));
    FreshPlace(g, threshold, p);
    AllocFlat(g, p, len);
    AllocLists(g, g1, p, len);
    AllocPacked(g, threshold, g1, p, len);
    AllocNumbered(g, g1, p, len);
    AllocCanonical(g, threshold, p, len);
  }

  lemma FreshPlace(g: Store, threshold: nat, p: Ptr)
    requires Tidy(g, threshold) && (p == Young(g.epoch, g.used) || p == Large(g.nextLarge))
    ensures p !in g.blocks && p !in g.youngs && p !in g.larges && g.nextHandle !in g.mem
    ensures g.nextHandle !in g.olds && forall q | q in g.blocks :: g.blocks[q].handle != g.nextHandle
  {
  }

  lemma AllocFlat(g: Store, p: Ptr, len: nat)
    requires Flat(g.blocks)
    ensures Flat(g.blocks[p := Block(g.nextHandle, true, Nils(len))])
  {
  }

  lemma AllocCanonical(g: Store, threshold: nat, p: Ptr, len: nat)
    requires Canonical(g.mem, g.blocks) && g.nextHandle !in g.mem
    ensures Canonical(g.mem[g.nextHandle := p], g.blocks[p := Block(g.nextHandle, true, Nils(len))])
  {
  }

  lemma AllocNumbered(g: Store, g1: Store, p: Ptr, len: nat)
    requires Numbered(g) && !p.Old?
    requires g1.mem == g.mem[g.nextHandle := p] && g1.blocks == g.blocks[p := Block(g.nextHandle, true, Nils(len))]
    requires g1.nextHandle == g.nextHandle + 1 && g1.nextOld == g.nextOld
    requires g1.nextLarge == if p.Large? then g.nextLarge + 1 else g.nextLarge
    requires p.Large? ==> p.id == g.nextLarge
    ensures Numbered(g1)
  {
  }

  lemma AllocLists(g: Store, g1: Store, p: Ptr, len: nat)
    requires Lists(g) && !p.Old? && p !in g.blocks && g.nextHandle !in g.olds
    requires g1 == g.(mem := g.mem[g.nextHandle := p], blocks := g.blocks[p := Block(g.nextHandle, true, Nils(len))],
                      nextHandle := g.nextHandle + 1, youngs := g1.youngs, used := g1.used, larges := g1.larges,
                          nextLarge := g1.nextLarge)
    requires g1.youngs == (if p.Young? then g.youngs + [p] else g.youngs)
    requires g1.larges == (if p.Large? then g.larges + [p] else g.larges)
    ensures Lists(g1)
  {
    forall q ensures q in g1.youngs <==> q in g1.blocks && q.Young? {}
    forall q ensures q in g1.larges <==> q in g1.blocks && q.Large? {}
  }

  lemma AllocPacked(g: Store, threshold: nat, g1: Store, p: Ptr, len: nat)
    requires Packed(g.blocks, g.youngs, g.used, g.epoch, threshold) && p !in g.youngs && g1.epoch == g.epoch
    requires g1.blocks == g.blocks[p := Block(g.nextHandle, true, Nils(len))]
    requires if p.Young? then
               p == Young(g.epoch, g.used) && g.used + len + 1 < threshold && g1.youngs == g.youngs + [p]
                   && g1.used == g.used + len + 1
             else g1.youngs == g.youngs && g1.used == g.used
    ensures Packed(g1.blocks, g1.youngs, g1.used, g1.epoch, threshold)
  {
    forall i, j | 0 <= i < j < |g1.youngs|
      ensures g1.youngs[i] in g1.blocks && g1.youngs[j].Young? && g1.youngs[i].Young?
      ensures g1.youngs[i].off + |g1.blocks[g1.youngs[i]].cells| + 1 <= g1.youngs[j].off
    {
      assert g1.youngs[i] == g.youngs[i] && g.youngs[i] in g.youngs;
    }
  }

  lemma FoundListed(g: Store, threshold: nat, listed: set<nat>, hs: set<nat>, roots: seq<Value>)
    requires Tidy(g, threshold) && hs == Handles(roots)
    ensures Found(g.mem, g.blocks, listed, Stale(g.mem, g.blocks, hs, listed, roots), roots) == listed * hs
    ensures listed - (listed * hs) == listed - hs
  {
    hide Found, Stale;
    FlatFound(g.mem, g.blocks, listed, Stale(g.mem, g.blocks, hs, listed, roots), roots);
  }

  lemma FoundYoung(g: Store, threshold: nat, hs: set<nat>, roots: seq<Value>)
    requires Tidy(g, threshold) && hs == Handles(roots) && LargeListed(g.mem, g.blocks, g.youngs)
    ensures YoungFound(g.mem, g.blocks, g.youngs, hs, roots) == SeqSet(HandleSeq(g.blocks, g.youngs)) * hs
  {
    FoundListed(g, threshold, SeqSet(HandleSeq(g.blocks, g.youngs)), hs, roots);
  }

  lemma KeptSelf(g: Store, hs: set<nat>)
    requires Alive(g, hs)
    ensures Kept(g, g, hs)
  {
  }

  lemma KeptAlive(g: Store, g1: Store, hs: set<nat>)
    requires Kept(g, g1, hs)
    ensures Alive(g1, hs)
  {
  }

  lemma KeptNumbers(g: Store, g1: Store, hs: set<nat>)
    requires Kept(g, g1, hs)
    ensures g1.nextHandle == g.nextHandle
  {
  }

  lemma KeptTwice(g: Store, g1: Store, g2: Store, hs: set<nat>)
    requires Kept(g, g1, hs) && Kept(g1, g2, hs)
    ensures Kept(g, g2, hs) && Alive(g2, hs)
  {
  }

  // ---- what a collection frees ----

  /** The old and the large objects that the stack does not name. */
  ghost function Dying(g: Store, hs: set<nat>, olds: bool, larges: bool): set<nat> {
    set h | h in g.mem && Live(g.mem, g.blocks, h) && h !in hs
            && ((olds && g.mem[h].Old?) || (larges && g.mem[h].Large?))
  }

  /** Exactly the handles `gone` and their blocks have been erased. */
  ghost predicate Freed(g: Store, g1: Store, gone: set<nat>) {
    && g1.mem == g.mem - gone && g1.blocks.Keys == g.blocks.Keys - (set h | h in gone && h in g.mem :: g.mem[h])
    && forall p | p in g1.blocks :: g1.blocks[p].handle == g.blocks[p].handle
  }

  /** The blocks whose handles are on the stack. */
  ghost function OnStack(blocks: Blocks, hs: set<nat>): set<Ptr> {
    set p | p in blocks && blocks[p].handle in hs
  }

  /** The young objects on the stack: those that a minor collection promotes. */
  ghost function YoungOnStack(g: Store, hs: set<nat>): set<nat> {
    set h | h in hs && Live(g.mem, g.blocks, h) && g.mem[h].Young?
  }

  predicate Sparing(p: Ptr, young: bool, old_: bool, large: bool) {
    match p
    case Young(_, _) => young
    case Old(_) => old_
    case Large(_) => large
  }

  /** An object is still there exactly when the stack names it or its generation has been
      spared; nothing that is not on the stack has moved. */
  ghost predicate Spares(g: Store, g1: Store, hs: set<nat>, young: bool, old_: bool, large: bool) {
    && (forall h :: Live(g1.mem, g1.blocks, h) <==>
                      Live(g.mem, g.blocks, h) && (h in hs || Sparing(g.mem[h], young, old_, large)))
    && forall h | Live(g1.mem, g1.blocks, h) && h !in hs :: g1.mem[h] == g.mem[h]
  }

  lemma SparesAll(g: Store, hs: set<nat>)
    ensures Spares(g, g, hs, true, true, true)
  {
  }

  /** Two collections, the second of which has spared what the first has collected. */
  lemma SparesThen(g: Store, g1: Store, g2: Store, hs: set<nat>, y: bool, o: bool, l: bool, y1: bool, o1: bool,
      l1: bool)
    requires Spares(g, g1, hs, y, o, l) && Spares(g1, g2, hs, y1, o1, l1)
    ensures Spares(g, g2, hs, y && y1, o && o1, l && l1)
  {
  }

  lemma FreedSpares(g: Store, g1: Store, threshold: nat, hs: set<nat>, olds: bool, larges: bool)
    requires Tidy(g, threshold) && Freed(g, g1, Dying(g, hs, olds, larges))
    ensures Spares(g, g1, hs, true, !olds, !larges)
  {
    hide Flat, Packed, Numbered, Lists;
    var gone := Dying(g, hs, olds, larges);
    assert forall h, k | Live(g.mem, g.blocks, h) && Live(g.mem, g.blocks, k) && g.mem[k] == g.mem[h] :: k == h;
  }

  /** The listed large objects off the stack are the dying ones. */
  lemma LargeDying(g: Store, threshold: nat, hs: set<nat>)
    requires Tidy(g, threshold) && forall p | p in g.larges :: p in g.blocks
    ensures SeqSet(HandleSeq(g.blocks, g.larges)) - hs == Dying(g, hs, false, true)
  {
    hide Flat, Packed, Numbered, HandleSeq;
    var all := HandleSeq(g.blocks, g.larges);
    LargeHandles(g, all);
    forall h ensures h in SeqSet(all) - hs <==> h in Dying(g, hs, false, true) {}
  }

  lemma OldDying(g: Store, threshold: nat, hs: set<nat>)
    requires Tidy(g, threshold)
    ensures SeqSet(g.olds) - hs == Dying(g, hs, true, false)
  {
    hide Flat, Packed, Numbered;
  }

  /** The kept large objects, as the list of their blocks. */
  lemma {:induction false} LargesFiltered(g: Store, m: Mem, larges: seq<Ptr>, keep: set<nat>, hs: set<nat>)
    requires forall p | p in larges :: p in g.blocks
    requires forall p | p in larges :: g.blocks[p].handle in keep <==> g.blocks[p].handle in hs
    requires forall p | p in larges && g.blocks[p].handle in keep ::
               g.blocks[p].handle in m && m[g.blocks[p].handle] == p
    requires forall h | h in Filter(HandleSeq(g.blocks, larges), keep) :: h in m
    ensures PtrSeq(m, Filter(HandleSeq(g.blocks, larges), keep)) == Filter(larges, OnStack(g.blocks, hs))
    decreases |larges|
  {
    hide Filter, HandleSeq, PtrSeq;
    var all := HandleSeq(g.blocks, larges);
    FilterLast(all, keep);
    FilterLast(larges, OnStack(g.blocks, hs));
    if larges == [] {
      NoPtrs(m);
    } else {
      var n := |larges| - 1;
      var front := larges[..n];
      assert larges[n] in larges;
      assert all[..n] == HandleSeq(g.blocks, front);
      LargesFiltered(g, m, front, keep, hs);
      if all[n] in keep { PtrSnoc(m, Filter(all[..n], keep), all[n]); }
    }
  }

  lemma FilterLast<T(!new)>(s: seq<T>, keep: set<T>)
    ensures s == [] ==> Filter(s, keep) == []
    ensures s != [] ==>
              var n := |s| - 1; Filter(s, keep) == Filter(s[..n], keep) + if s[n] in keep then [s[n]] else []
  {
  }

  lemma NoPtrs(m: Mem)
    ensures PtrSeq(m, []) == []
  {
  }

  lemma PtrSnoc(m: Mem, hs: seq<nat>, h: nat)
    requires h in m && forall k | k in hs :: k in m
    ensures PtrSeq(m, hs + [h]) == PtrSeq(m, hs) + [m[h]]
  {
  }

  /** Old and large objects die apart from each other. */
  lemma DyingTwice(g: Store, g1: Store, threshold: nat, hs: set<nat>)
    requires Tidy(g, threshold) && Freed(g, g1, Dying(g, hs, false, true))
    ensures Dying(g1, hs, true, false) == Dying(g, hs, true, false)
    ensures Dying(g, hs, false, true) + Dying(g, hs, true, false) == Dying(g, hs, true, true)
    ensures Dying(g, hs, true, false) !! Dying(g, hs, false, true)
  {
    hide Tidy, Freed, Spares;
    FreedSpares(g, g1, threshold, hs, false, true);
    DyingAfter(g, g1, hs, true, false);
  }

  lemma DyingAfter(g: Store, g1: Store, hs: set<nat>, y: bool, l: bool)
    requires Spares(g, g1, hs, y, true, l)
    ensures Dying(g1, hs, true, false) == Dying(g, hs, true, false)
  {
  }

  lemma {:induction false} DistinctCount<T(!new)>(s: seq<T>)
    requires NoDup(s)
    ensures |SeqSet(s)| == |s|
  {
    if s == [] {
      assert SeqSet(s) == {};
    } else {
      var n := |s| - 1;
      DistinctCount(s[..n]);
      assert s[..n] + [s[n]] == s;
      assert SeqSet(s) == SeqSet(s[..n]) + {s[n]};
      assert s[n] !in s[..n];
    }
  }

  /** What a promotion in a tidy heap does to every object. */
  lemma PromotionSpares(g: Store, threshold: nat, a: Promo, z: Promo, g1: Store, hs: set<nat>, found: set<nat>)
    requires Tidy(g, threshold) && Alive(g, hs) && a.(vis := {}) == PromoOf(g, {}) && PromotedFrom(a, z, hs, found)
    requires found == SeqSet(HandleSeq(g.blocks, g.youngs)) * hs
    requires g1.mem == z.mem && g1.blocks == z.blocks && g1.olds == z.oldRoots
    ensures found == YoungOnStack(g, hs) && Spares(g, g1, hs, false, true, true)
    ensures g1.mem.Keys == g.mem.Keys && forall h | h in found :: g1.mem[h].Old?
    ensures |g1.olds| == |g.olds| + |found|
  {
    hide Reachable, Tidy, PromotedFrom, HandleSeq, Alive;
    CanonicalHandles(g, threshold);
    TidyYoung(g, threshold, hs, found);
    TidyFlat(g, threshold);
    VisIsFound(a, z, hs, found);
    PromotedKeys(a, z, hs, found);
    forall h
      ensures Live(z.mem, z.blocks, h) <==> Live(g.mem, g.blocks, h) && (h in hs || !g.mem[h].Young?)
      ensures Live(z.mem, z.blocks, h) && h !in hs ==> h in g.mem && z.mem[h] == g.mem[h]
    {
      PromotedLive(g, threshold, a, z, hs, found, h);
    }
    SparesYoung(g, g1, hs);
  }

  lemma SparesYoung(g: Store, g1: Store, hs: set<nat>)
    requires forall h :: Live(g1.mem, g1.blocks, h) <==> Live(g.mem, g.blocks, h) && (h in hs || !g.mem[h].Young?)
    requires forall h | Live(g1.mem, g1.blocks, h) && h !in hs :: h in g.mem && g1.mem[h] == g.mem[h]
    ensures Spares(g, g1, hs, false, true, true)
  {
  }

  lemma TidyFlat(g: Store, threshold: nat)
    requires Tidy(g, threshold)
    ensures Flat(g.blocks)
  {
  }

  lemma TidyYoung(g: Store, threshold: nat, hs: set<nat>, found: set<nat>)
    requires Tidy(g, threshold) && forall p | p in g.youngs :: p in g.blocks
    requires found == SeqSet(HandleSeq(g.blocks, g.youngs)) * hs
    ensures found == YoungOnStack(g, hs)
  {
    hide HandleSeq, Live, Flat, Packed, Numbered;
    YoungHandles(g);
  }

  lemma PromotedKeys(a: Promo, z: Promo, hs: set<nat>, found: set<nat>)
    requires PromotedFrom(a, z, hs, found) && z.vis == found
    ensures z.mem.Keys == a.mem.Keys && forall h | h in found :: z.mem[h].Old?
    ensures |z.oldRoots| == |a.oldRoots| + |found|
  {
    hide Reachable;
    DistinctCount(z.oldRoots[|a.oldRoots|..]);
    forall h ensures h in z.mem <==> h in a.mem {
      if h in found { assert Relocated(a, z, h); }
    }
    forall h | h in found ensures z.mem[h].Old? { assert Relocated(a, z, h); }
  }

  lemma PromotedLive(g: Store, threshold: nat, a: Promo, z: Promo, hs: set<nat>, found: set<nat>, h: nat)
    requires Tidy(g, threshold) && Alive(g, hs) && a.(vis := {}) == PromoOf(g, {}) && PromotedFrom(a, z, hs, found)
    requires z.vis == found == YoungOnStack(g, hs)
    ensures Live(z.mem, z.blocks, h) <==> Live(g.mem, g.blocks, h) && (h in hs || !g.mem[h].Young?)
    ensures Live(z.mem, z.blocks, h) && h !in hs ==> h in g.mem && z.mem[h] == g.mem[h]
  {
    hide Reachable, Flat, Packed, Numbered, Lists, Listed;
    if h in found {
      assert Relocated(a, z, h);
    } else if h in z.mem && z.mem[h] in z.blocks && z.mem[h] !in a.blocks {
      assert FreshCopy(a, z, z.mem[h]);
    }
  }

  lemma PromotedStays(g: Store, g1: Store, hs: set<nat>, found: set<nat>)
    requires found == YoungOnStack(g, hs)
    ensures found !! Dying(g1, hs, true, false)
  {
  }

  /** What an allocation of `len` cells collects first: the large objects when there are
      many of them, the young ones when the arena is too full for the new block, the old
      ones when that fills their list. */
  ghost predicate CollectedAsDue(g: Store, g1: Store, hs: set<nat>, len: nat, youngMax: nat, oldMax: nat,
      largeMax: nat) {
    var minor := len + 1 < youngMax && g.used + len + 1 >= youngMax;
    var major := minor && |g.olds| + |YoungOnStack(g, hs)| >= oldMax;
    Spares(g, g1, hs, !minor, !major, |g.larges| < largeMax)
  }

  lemma YoungStay(g: Store, g1: Store, hs: set<nat>, l: bool)
    requires Spares(g, g1, hs, true, true, l) && Kept(g, g1, hs)
    requires forall h | h in hs && Live(g.mem, g.blocks, h) :: h in g1.mem && g1.mem[h] == g.mem[h]
    ensures YoungOnStack(g1, hs) == YoungOnStack(g, hs)
  {
  }

  lemma FreedStay(g: Store, g1: Store, hs: set<nat>, gone: set<nat>)
    requires Freed(g, g1, gone) && gone !! hs
    ensures forall h | h in hs && Live(g.mem, g.blocks, h) :: h in g1.mem && g1.mem[h] == g.mem[h]
  {
  }

  lemma DyingOff(g: Store, hs: set<nat>, olds: bool, larges: bool)
    ensures Dying(g, hs, olds, larges) !! hs
  {
  }

  /** The new block itself changes nothing for the others. */
  lemma AllocSpares(g: Store, p: Ptr, len: nat, hs: set<nat>)
    requires g.nextHandle !in g.mem && p !in g.blocks
    ensures var g1 := Allocated(g, p, Nils(len));
            Spares(g, g1.(mem := g1.mem - {g.nextHandle}), hs, true, true, true)
  {
    var g1 := Allocated(g, p, Nils(len));
    assert g1.mem - {g.nextHandle} == g.mem;
  }

  lemma LargeGcSpares(g: Store, g1: Store, threshold: nat, hs: set<nat>)
    requires Tidy(g, threshold) && Freed(g, g1, Dying(g, hs, false, true)) && Kept(g, g1, hs)
    ensures Spares(g, g1, hs, true, true, false) && YoungOnStack(g1, hs) == YoungOnStack(g, hs)
  {
    hide Tidy, Freed, Dying, Spares, Kept, YoungOnStack;
    FreedSpares(g, g1, threshold, hs, false, true);
    DyingOff(g, hs, false, true);
    FreedStay(g, g1, hs, Dying(g, hs, false, true));
    YoungStay(g, g1, hs, false);
  }

  lemma AllocatedAt(g: Store, threshold: nat, p: Ptr, len: nat, hs: set<nat>)
    requires Tidy(g, threshold) && (p == Young(g.epoch, g.used) || p == Large(g.nextLarge))
    ensures var g1 := Allocated(g, p, Nils(len));
            && g.nextHandle in g1.mem && g1.mem[g.nextHandle] == p
            && Spares(g, g1.(mem := g1.mem - {g.nextHandle}), hs, true, true, true)
  {
    hide Tidy, Spares;
    FreshPlace(g, threshold, p);
    AllocSpares(g, p, len, hs);
  }

  /** Nothing is collected after the collections. */
  lemma SparesMore(g: Store, g1: Store, g2: Store, hs: set<nat>, l: bool)
    requires Spares(g1, g2, hs, true, true, true)
    ensures forall y, o :: Spares(g, g1, hs, y, o, l) ==> Spares(g, g2, hs, y, o, l)
  {
    hide Spares;
    forall y, o | Spares(g, g1, hs, y, o, l) ensures Spares(g, g2, hs, y, o, l) {
      SparesThen(g, g1, g2, hs, y, o, l, true, true, true);
    }
  }

  lemma LargesLeft(g: Store, m: Mem, hs: set<nat>)
    requires forall p | p in g.larges :: p in g.blocks && g.blocks[p].handle in g.mem && g.mem[g.blocks[p].handle] == p
    requires var keep := SeqSet(HandleSeq(g.blocks, g.larges)) * hs;
             && m == g.mem - (SeqSet(HandleSeq(g.blocks, g.larges)) - keep)
             && forall h | h in Filter(HandleSeq(g.blocks, g.larges), keep) :: h in m
    ensures var all := HandleSeq(g.blocks, g.larges);
            PtrSeq(m, Filter(all, SeqSet(all) * hs)) == Filter(g.larges, OnStack(g.blocks, hs))
  {
    hide Filter, PtrSeq, OnStack;
    var all := HandleSeq(g.blocks, g.larges);
    forall p | p in g.larges ensures g.blocks[p].handle in SeqSet(all) {
      var i :| 0 <= i < |g.larges| && g.larges[i] == p;
      assert all[i] == g.blocks[p].handle;
    }
    LargesFiltered(g, m, g.larges, SeqSet(all) * hs, hs);
  }

  lemma FreedTwice(g: Store, g1: Store, g2: Store, gone: set<nat>, gone1: set<nat>)
    requires Freed(g, g1, gone) && Freed(g1, g2, gone1) && gone1 !! gone
    ensures Freed(g, g2, gone + gone1)
  {
    assert forall h | h in gone1 && h in g.mem :: h in g1.mem && g1.mem[h] == g.mem[h];
  }

  class GarbageCollector {
    const youngThreshold: nat
    const majorThreshold: nat
    const largeThreshold: nat
    var mem: Mem
    var blocks: Blocks
    var epoch: nat
    var used: nat
    var youngRoots: seq<Ptr>
    var oldRoots: seq<nat>
    var largeRoots: seq<Ptr>
    var nextOld: nat
    var nextLarge: nat
    var nextHandle: nat
    var vis: set<nat>

    /** `mark(ptr)`: depth first, stopping at headers that are already marked. */
    method MarkFrom(p: Ptr, ghost s: set<nat>)
      requires p in blocks && blocks[p].handle in s && blocks[p].handle in mem && mem[blocks[p].handle] == p
      requires Closed(mem, blocks, s)
      modifies this`blocks
      ensures SameButMarks(old(blocks), blocks) && MarksKept(old(blocks), blocks)
      ensures blocks[p].marked
      ensures NewMarks(mem, old(blocks), blocks, s, MarkedSet(mem, old(blocks), s), {blocks[p].handle})
      decreases Unmarked(mem, blocks, s)
    {
      hide Reachable, Unmarked, PathFrom;
      if blocks[p].marked { return; }
      ghost var b := blocks;
      ghost var h := b[p].handle;
      var cells := blocks[p].cells;
      blocks := blocks[p := blocks[p].(marked := true)];
      ghost var wall := MarkedSet(mem, b, s);
      ReachSelf(mem, b, wall, {h}, h);
      for i := 0 to |cells|
        invariant SameButMarks(b, blocks) && MarksKept(b, blocks) && blocks[p].marked
        invariant forall q | q in b && blocks[q].marked && !b[q].marked && q != p ::
                    Newly(mem, b, blocks, s, wall, {h}, q)
        invariant forall j | 0 <= j < i && cells[j].Arr? :: Marked(mem, blocks, cells[j].handle)
      {
        if cells[i].Arr? {
          var c := cells[i].handle;
          assert c in Children(mem, b, h);
          MarksDontMatter(mem, b, blocks, s);
          ReachStep(mem, b, wall, {h}, h, c);
          MarkingShrinks(mem, b, blocks, s, h);
          ghost var b1 := blocks;
          MarkFrom(mem[c], s);
          assert wall <= MarkedSet(mem, b1, s);
          NewMarksThen(mem, b, b1, blocks, s, wall, {h}, MarkedSet(mem, b1, s), c, p);
          MarksDontMatter(mem, b, blocks, s);
        }
      }
    }

    /** `mark()`: every array value on the scanned stack is unmarked and marked
        from again, whatever its header said before. */
    method Mark(roots: seq<Value>, ghost s: set<nat>)
      requires Closed(mem, blocks, s) && Handles(roots) <= s
      modifies this`blocks
      ensures SameButMarks(old(blocks), blocks) && MarksKept(old(blocks), blocks)
      ensures NewMarks(mem, old(blocks), blocks, s, MarkedSet(mem, old(blocks), s) - Handles(roots), Handles(roots))
      ensures forall h | h in Handles(roots) :: RootMarked(mem, blocks, h)
    {
      ghost var b := blocks;
      ghost var wall := MarkedSet(mem, b, s) - Handles(roots);
      for i := 0 to |roots|
        invariant SameButMarks(b, blocks) && MarksKept(b, blocks) && NewMarks(mem, b, blocks, s, wall, Handles(roots))
        invariant forall h | h in Handles(roots[..i]) :: RootMarked(mem, blocks, h)
      {
        if roots[i].Arr? {
          var h := roots[i].handle;
          ghost var b0 := blocks;
          MarksDontMatter(mem, b, blocks, s);
          assert h in Handles(roots);
          var p := mem[h];
          blocks := blocks[p := blocks[p].(marked := false)];
          MarksDontMatter(mem, b0, blocks, s);
          MarkFrom(p, s);
          RemarkRoot(mem, b, b0, blocks, s, wall, Handles(roots), h);
          forall k | k in Handles(roots[..i]) ensures RootMarked(mem, blocks, k) {
            RootStillMarked(mem, b0, blocks, k);
          }
        }
        assert roots[..i + 1] == roots[..i] + [roots[i]];
      }
      assert roots[..|roots|] == roots;
    }

    /** The first loop of `major_gc`. */
    method UnmarkOld()
      requires OldListed(mem, blocks, oldRoots)
      modifies this`blocks
      ensures blocks == Unmark(old(blocks), PtrsOf(mem, oldRoots))
    {
      ghost var b := blocks;
      for i := 0 to |oldRoots|
        invariant blocks == Unmark(b, PtrsOf(mem, oldRoots[..i]))
      {
        assert oldRoots[i] in oldRoots;
        var p := mem[oldRoots[i]];
        blocks := blocks[p := blocks[p].(marked := false)];
        assert oldRoots[..i + 1] == oldRoots[..i] + [oldRoots[i]];
      }
      assert oldRoots[..|oldRoots|] == oldRoots;
    }

    /** The second loop of `major_gc`: marked objects stay and lose their mark, the
        others are erased. */
    method SweepOld(ghost kept: set<nat>)
      requires OldListed(mem, blocks, oldRoots)
      requires forall h | h in oldRoots :: blocks[mem[h]].marked <==> h in kept
      modifies this`blocks, this`mem, this`oldRoots
      ensures oldRoots == Filter(old(oldRoots), kept)
      ensures Swept(old(mem), old(blocks), SeqSet(old(oldRoots)) - kept, mem, blocks)
      ensures forall h | h in oldRoots :: !Marked(mem, blocks, h)
      ensures MarksKeptBut(old(blocks), blocks, PtrsOf(old(mem), old(oldRoots)))
    {
      hide SweepInv, OldListed, Swept, Filter, PtrsOf, MarksKeptBut;
      var olds, survivors := oldRoots, [];
      ghost var m, b := mem, blocks;
      SweepStart(m, b, olds, kept);
      for i := 0 to |olds|
        invariant SweepInv(m, b, olds, i, kept, survivors, mem, blocks)
      {
        SweepNext(m, b, olds, i, kept, survivors, mem, blocks);
        var h := olds[i];
        var p := mem[h];
        if blocks[p].marked {
          blocks := blocks[p := blocks[p].(marked := false)];
          survivors := survivors + [h];
        } else {
          mem := mem - {h};
          blocks := blocks - {p};
        }
      }
      SweepEnd(m, b, olds, kept, survivors, mem, blocks);
      oldRoots := survivors;
    }

    /** `major_gc`: keeps, in order, the old objects that marking finds; drops the
        others from the handle table and from memory. Nothing else moves or changes
        contents. */
    method MajorGc(roots: seq<Value>, ghost s: set<nat>)
      requires Closed(mem, blocks, s) && Handles(roots) <= s && OldListed(mem, blocks, oldRoots)
      modifies this`blocks, this`mem, this`oldRoots
      ensures var listed := SeqSet(old(oldRoots));
              var kept := Found(old(mem), old(blocks), listed, Stale(old(mem), old(blocks), s, listed, roots), roots);
              && oldRoots == Filter(old(oldRoots), kept)
              && Swept(old(mem), old(blocks), listed - kept, mem, blocks)
              && forall h | h in oldRoots :: !Marked(mem, blocks, h)
    {
      ghost var b, m, listed := blocks, mem, SeqSet(oldRoots);
      ghost var kept := Found(m, b, listed, Stale(m, b, s, listed, roots), roots);
      UnmarkOld();
      ghost var b1 := blocks;
      UnmarkFacts(m, b, PtrsOf(m, oldRoots), s);
      MarksDontMatter(m, b, b1, s);
      Mark(roots, s);
      ghost var b2 := blocks;
      MarksDontMatter(m, b, b2, s);
      forall h | h in oldRoots ensures b2[m[h]].marked <==> h in kept {
        MarkedAreFound(m, b, b1, b2, s, listed, roots, h);
      }
      SweepOld(kept);
    }

    /** `unmark(begin, end)`. */
    method UnmarkAll(list: seq<Ptr>)
      requires forall p | p in list :: p in blocks
      modifies this`blocks
      ensures blocks == Unmark(old(blocks), SeqSet(list))
    {
      ghost var b := blocks;
      for i := 0 to |list|
        invariant blocks == Unmark(b, SeqSet(list[..i]))
      {
        assert list[i] in list;
        blocks := blocks[list[i] := blocks[list[i]].(marked := false)];
        assert list[..i + 1] == list[..i] + [list[i]];
      }
      assert list[..|list|] == list;
    }

    method SweepLarge(ghost kept: set<nat>)
      requires LargeListed(mem, blocks, largeRoots)
      requires forall h | h in HandleSeq(blocks, largeRoots) :: blocks[mem[h]].marked <==> h in kept
      modifies this`blocks, this`mem, this`largeRoots
      ensures var hs := HandleSeq(old(blocks), old(largeRoots));
              && Swept(old(mem), old(blocks), SeqSet(hs) - kept, mem, blocks)
              && (forall h | h in Filter(hs, kept) :: h in mem && !Marked(mem, blocks, h))
              && largeRoots == PtrSeq(mem, Filter(hs, kept))
              && MarksKeptBut(old(blocks), blocks, PtrsOf(old(mem), hs))
    {
      hide SweepInv, OldListed, Swept, Filter, PtrsOf, MarksKeptBut, LargeListed, NoDup;
      var larges, keepLarge := largeRoots, [];
      ghost var m, b := mem, blocks;
      LargeAsHandles(m, b, larges);
      ghost var hs := HandleSeq(b, larges);
      ghost var survivors: seq<nat> := [];
      SweepStart(m, b, hs, kept);
      for i := 0 to |larges|
        invariant SweepInv(m, b, hs, i, kept, survivors, mem, blocks)
        invariant (forall h | h in survivors :: h in m) && keepLarge == PtrSeq(m, survivors)
      {
        SweepNext(m, b, hs, i, kept, survivors, mem, blocks);
        SweepAt(m, b, hs, i, kept, survivors, mem, blocks);
        var hdr := larges[i];
        assert m[hs[i]] == PtrSeq(m, hs)[i] == hdr;
        if blocks[hdr].marked {
          blocks := blocks[hdr := blocks[hdr].(marked := false)];
          keepLarge := keepLarge + [hdr];
          survivors := survivors + [hs[i]];
        } else {
          mem := mem - {blocks[hdr].handle};
          blocks := blocks - {hdr};
        }
      }
      SweepEnd(m, b, hs, kept, survivors, mem, blocks);
      SurvivorsStay(m, b, hs, kept, mem, blocks);
      largeRoots := keepLarge;
    }

    /** `large_gc`: as `major_gc`, for the large objects. */
    method LargeGc(roots: seq<Value>, ghost s: set<nat>)
      requires Closed(mem, blocks, s) && Handles(roots) <= s && LargeListed(mem, blocks, largeRoots)
      modifies this`blocks, this`mem, this`largeRoots
      ensures var hs := HandleSeq(old(blocks), old(largeRoots));
              var kept := Found(old(mem), old(blocks), SeqSet(hs), Stale(old(mem), old(blocks), s, SeqSet(hs), roots),
                  roots);
              && Swept(old(mem), old(blocks), SeqSet(hs) - kept, mem, blocks)
              && (forall h | h in Filter(hs, kept) :: h in mem && !Marked(mem, blocks, h))
              && largeRoots == PtrSeq(mem, Filter(hs, kept))
    {
      ghost var b, m, hs := blocks, mem, HandleSeq(blocks, largeRoots);
      ghost var listed := SeqSet(hs);
      ghost var kept := Found(m, b, listed, Stale(m, b, s, listed, roots), roots);
      LargeAsHandles(m, b, largeRoots);
      UnmarkAll(largeRoots);
      ghost var b1 := blocks;
      UnmarkFacts(m, b, SeqSet(largeRoots), s);
      MarksDontMatter(m, b, b1, s);
      Mark(roots, s);
      ghost var b2 := blocks;
      MarksDontMatter(m, b, b2, s);
      forall h | h in hs ensures b2[m[h]].marked <==> h in kept {
        MarkedAreFound(m, b, b1, b2, s, listed, roots, h);
      }
      assert HandleSeq(b2, largeRoots) == hs;
      SweepLarge(kept);
    }

    ghost function Promotion(): Promo
      reads this
    {
      Promo(mem, blocks, vis, oldRoots, nextOld)
    }

    /** `rebind_mem`: moves a block into the old generation under its own handle, and
        everything it leads to with it, each handle once. */
    method Rebind(p: Ptr, ghost s: set<nat>)
      requires p in blocks && blocks[p].handle in s
      requires blocks[p].handle in vis || (blocks[p].handle in mem && mem[blocks[p].handle] == p)
      requires Closed(mem, blocks, s) && FreshOld(blocks, nextOld)
      modifies this`mem, this`blocks, this`vis, this`oldRoots, this`nextOld
      ensures Moving(old(Promotion()), Promotion(), s, {old(blocks)[p].handle}, {})
      ensures old(blocks)[p].handle in vis && FreshOld(blocks, nextOld)
      decreases s - vis
    {
      hide Moving, Moved, Untouched, Listed, Reachable, Filling, FreshOld, Closed;
      var h := blocks[p].handle;
      ghost var a := Promotion();
      NothingMoves(a, s, {h});
      if h in vis { return; }
      LiveIn(a, s, h);
      vis := vis + {h};
      var copy := Old(nextOld);
      nextOld := nextOld + 1;
      var cells := blocks[p].cells;
      blocks := blocks[copy := blocks[p].(cells := Nils(|cells|))];
      mem := mem[h := copy];
      MovingStarts(a, Promotion(), s, h, copy);
      for i := 0 to |cells|
        invariant Moving(a, Promotion(), s, {h}, {h}) && Filling(a, Promotion(), h, copy, i, i)
        invariant FreshOld(blocks, nextOld)
      {
        ghost var y := Promotion();
        FillingAt(a, y, s, h, copy, i);
        blocks := blocks[copy := blocks[copy].(cells := blocks[copy].cells[i := cells[i]])];
        ghost var z := Promotion();
        CellCopied(a, y, z, s, h, copy, i);
        if cells[i].Arr? {
          var c := cells[i].handle;
          CellLeads(a, z, s, h, copy, i, c);
          Rebind(mem[c], s);
          FilledOn(a, z, Promotion(), s, h, copy, i, c);
        }
      }
      MovingEnds(a, Promotion(), Promo(mem, blocks, vis, oldRoots + [h], nextOld), s, h, copy, |cells|);
      oldRoots := oldRoots + [h];
    }

    /** The first half of `minor_gc`: young headers lose their marks, then the stack
        is marked from. */
    method MarkYoung(roots: seq<Value>, ghost s: set<nat>)
      requires Closed(mem, blocks, s) && Handles(roots) <= s && LargeListed(mem, blocks, youngRoots)
      modifies this`blocks
      ensures SameButMarks(old(blocks), blocks)
      ensures forall p | p in youngRoots ::
                p in blocks && (blocks[p].marked
                    <==> old(blocks)[p].handle in YoungFound(mem, old(blocks), youngRoots, s, roots))
      ensures forall q | q in blocks :: blocks[q].marked <==> MarkedThen(mem, old(blocks), youngRoots, s, roots, q)
    {
      hide Reachable, Closed, MarkedThen, YoungFound, NewMarks, SameButMarks, MarksKept;
      ghost var b := blocks;
      UnmarkAll(youngRoots);
      UnmarkFacts(mem, b, SeqSet(youngRoots), s);
      MarksDontMatter(mem, b, blocks, s);
      Mark(roots, s);
      ghost var b2 := blocks;
      SameMarksThen(b, Unmark(b, SeqSet(youngRoots)), b2);
      forall q | q in b2 ensures q in b && (b2[q].marked <==> MarkedThen(mem, b, youngRoots, s, roots, q)) {
        MarkedThenIs(mem, b, b2, youngRoots, s, roots, q);
      }
      forall p | p in youngRoots
        ensures p in b2 && (b2[p].marked <==> b[p].handle in YoungFound(mem, b, youngRoots, s, roots))
      {
        YoungMarkedFound(mem, b, youngRoots, s, roots, p);
      }
    }

    /** `minor_gc` up to `reset_young`. */
    method Promote(roots: seq<Value>, ghost s: set<nat>)
      requires Closed(mem, blocks, s) && Handles(roots) <= s
      requires YoungListed(mem, blocks, youngRoots) && FreshOld(blocks, nextOld)
      modifies this`mem, this`blocks, this`vis, this`oldRoots, this`nextOld, this`youngRoots, this`used, this`epoch
      ensures PromotedFrom(old(Promotion()), Promotion(), s,
                           YoungFound(old(mem), old(blocks), old(youngRoots), s, roots))
      ensures PromotedMarks(old(Promotion()), Promotion(), old(youngRoots), s, roots)
      ensures youngRoots == [] && used == 0 && epoch == old(epoch) + 1 && FreshOld(blocks, nextOld)
    {
      hide PromotingInv, PromotedFrom, Moving, Reachable, Closed, MarksCarried, MarkedThen, PromotedMarks;
      var youngs := youngRoots;
      ghost var a := Promotion();
      ghost var found := YoungFound(mem, blocks, youngs, s, roots);
      FoundInside(a, youngs, s, roots);
      MarkYoung(roots, s);
      ghost var b2 := blocks;
      vis := {};
      PromotionStarts(a, b2, youngs, found, Promotion(), s);
      CarriedStarts(a, b2, youngs, found, Promotion());
      for i := 0 to |youngs|
        invariant PromotingInv(a, b2, youngs, i, found, Promotion(), s) && epoch == old(epoch)
        invariant MarksCarried(a, b2, youngs, i, found, Promotion())
      {
        ghost var y := Promotion();
        PromotionAt(a, b2, youngs, i, found, y, s);
        var p := youngs[i];
        if blocks[p].marked {
          blocks := blocks[p := blocks[p].(marked := false)];
          ghost var y1 := Promotion();
          PromotionReady(a, b2, youngs, i, found, y, y1, s);
          Rebind(p, s);
          PromotionNext(a, b2, youngs, i, found, y, y1, Promotion(), s);
          CarriedNext(a, b2, youngs, i, found, y, y1, Promotion(), s);
        } else {
          PromotionSkips(a, b2, youngs, i, found, y, s);
          CarriedSkips(a, b2, youngs, i, found, y, s);
        }
      }
      PromotionEnds(a, b2, youngs, found, Promotion(), s);
      CopiesAreOld(a, b2, youngs, found, Promotion(), s);
      CarriedEnds(a, b2, youngs, Promotion(), s, roots);
      youngRoots := [];
      used := 0;
      blocks := WithoutYoung(blocks);
      epoch := epoch + 1;
    }

    // ---- collecting and allocating in a heap with no array inside an array ----

    ghost function State(): Store
      reads this
    {
      Store(mem, blocks, youngRoots, oldRoots, largeRoots, used, epoch, nextOld, nextLarge, nextHandle)
    }

    constructor (youngThreshold: nat, majorThreshold: nat, largeThreshold: nat)
      ensures this.youngThreshold == youngThreshold && this.majorThreshold == majorThreshold
      ensures this.largeThreshold == largeThreshold
      ensures Tidy(State(), youngThreshold) && State() == Store(map[], map[], [], [], [], 0, 0, 0, 0, 1)
    {
      this.youngThreshold := youngThreshold;
      this.majorThreshold := majorThreshold;
      this.largeThreshold := largeThreshold;
      mem, blocks, epoch, used := map[], map[], 0, 0;
      youngRoots, oldRoots, largeRoots := [], [], [];
      nextOld, nextLarge, nextHandle, vis := 0, 0, 1, {};
    }

    /** `minor_gc`. */
    method MinorGc(roots: seq<Value>)
      requires Tidy(State(), youngThreshold) && Alive(State(), Handles(roots))
      modifies this
      ensures Tidy(State(), youngThreshold) && Kept(old(State()), State(), Handles(roots))
      ensures youngRoots == [] && used == 0 && epoch == old(epoch) + 1 && largeRoots == old(largeRoots)
      ensures var g, hs := old(State()), Handles(roots);
              var major := |g.olds| + |YoungOnStack(g, hs)| >= majorThreshold;
              && Spares(g, State(), hs, false, !major, true)
              && mem.Keys == g.mem.Keys - (if major then Dying(g, hs, true, false) else {})
              && forall h | h in YoungOnStack(g, hs) :: h in mem && mem[h].Old?
    {
      hide Tidy, Kept, Alive, PromotedFrom, Reachable, Filter, Swept, Spares, YoungOnStack, Dying;
      ghost var hs, g, a := Handles(roots), State(), Promotion();
      TidyLists(g, youngThreshold, hs);
      FoundYoung(g, youngThreshold, hs, roots);
      Promote(roots, hs);
      ghost var g1, found := State(), SeqSet(HandleSeq(g.blocks, g.youngs)) * hs;
      AfterPromotion(g, youngThreshold, a, Promotion(), g1, hs, found);
      PromotionSpares(g, youngThreshold, a, Promotion(), g1, hs, found);
      KeptAlive(g, g1, hs);
      if |oldRoots| >= majorThreshold {
        MajorGcTidy(roots);
        KeptTwice(g, g1, State(), hs);
        FreedSpares(g1, State(), youngThreshold, hs, true, false);
        SparesThen(g, g1, State(), hs, false, true, true, true, false, true);
        DyingAfter(g, g1, hs, false, true);
        PromotedStays(g, g1, hs, found);
      }
    }

    /** `major_gc`: the old objects that are not on the stack are gone, and only they. */
    method MajorGcTidy(roots: seq<Value>)
      requires Tidy(State(), youngThreshold) && Alive(State(), Handles(roots))
      modifies this`blocks, this`mem, this`oldRoots
      ensures Tidy(State(), youngThreshold) && Kept(old(State()), State(), Handles(roots))
      ensures oldRoots == Filter(old(oldRoots), SeqSet(old(oldRoots)) * Handles(roots))
      ensures Freed(old(State()), State(), Dying(old(State()), Handles(roots), true, false))
    {
      hide Tidy, Kept, Alive, Reachable, Filter, Dying;
      ghost var hs, g := Handles(roots), State();
      TidyLists(g, youngThreshold, hs);
      FoundListed(g, youngThreshold, SeqSet(oldRoots), hs, roots);
      MajorGc(roots, hs);
      AfterMajor(g, youngThreshold, State(), hs);
      OldDying(g, youngThreshold, hs);
    }

    /** `large_gc`: the large objects that are not on the stack are gone, and only they. */
    method LargeGcTidy(roots: seq<Value>)
      requires Tidy(State(), youngThreshold) && Alive(State(), Handles(roots))
      modifies this`blocks, this`mem, this`largeRoots
      ensures Tidy(State(), youngThreshold) && Kept(old(State()), State(), Handles(roots))
      ensures largeRoots == Filter(old(largeRoots), OnStack(old(blocks), Handles(roots)))
      ensures Freed(old(State()), State(), Dying(old(State()), Handles(roots), false, true))
    {
      hide Tidy, Kept, Alive, Reachable, Filter, Dying, OnStack, HandleSeq, PtrSeq;
      ghost var hs, g := Handles(roots), State();
      TidyLists(g, youngThreshold, hs);
      FoundListed(g, youngThreshold, SeqSet(HandleSeq(blocks, largeRoots)), hs, roots);
      LargeGc(roots, hs);
      AfterLarge(g, youngThreshold, State(), hs);
      LargeDying(g, youngThreshold, hs);
      LargesLeft(g, mem, hs);
    }

    /** `call`: a full collection, as the dispatch loop starts it. The old and the large
        objects that are not on the stack are gone, and only they. */
    method Call(roots: seq<Value>)
      requires Tidy(State(), youngThreshold) && Alive(State(), Handles(roots))
      modifies this
      ensures Tidy(State(), youngThreshold) && Kept(old(State()), State(), Handles(roots))
      ensures oldRoots == Filter(old(oldRoots), SeqSet(old(oldRoots)) * Handles(roots))
      ensures largeRoots == Filter(old(largeRoots), OnStack(old(blocks), Handles(roots)))
      ensures Freed(old(State()), State(), Dying(old(State()), Handles(roots), true, true))
      ensures youngRoots == old(youngRoots) && used == old(used) && epoch == old(epoch)
    {
      hide Tidy, Kept, Alive, Freed, Dying, Filter, OnStack;
      ghost var hs, g := Handles(roots), State();
      LargeGcTidy(roots);
      ghost var g1 := State();
      KeptAlive(g, g1, hs);
      MajorGcTidy(roots);
      KeptTwice(g, g1, State(), hs);
      DyingTwice(g, g1, youngThreshold, hs);
      FreedTwice(g, g1, State(), Dying(g, hs, false, true), Dying(g, hs, true, false));
    }

    /** `alloc_young`: the memory is not cleared. */
    method AllocYoung(len: nat) returns (p: Ptr)
      requires used + (len + 1) < youngThreshold
      modifies this
      ensures p == Young(old(epoch), old(used))
      ensures exists junk: seq<Value> | |junk| == len :: State() == Allocated(old(State()), p, junk)
    {
      assert |Nils(len)| == len;
      var junk: seq<Value> :| |junk| == len;
      p := Young(epoch, used);
      used := used + (len + 1);
      mem := mem[nextHandle := p];
      blocks := blocks[p := Block(nextHandle, true, junk)];
      nextHandle := nextHandle + 1;
      youngRoots := youngRoots + [p];
    }

    /** `alloc_large`. */
    method AllocLarge(len: nat) returns (p: Ptr)
      modifies this
      ensures p == Large(old(nextLarge))
      ensures exists junk: seq<Value> | |junk| == len :: State() == Allocated(old(State()), p, junk)
    {
      assert |Nils(len)| == len;
      var junk: seq<Value> :| |junk| == len;
      p := Large(nextLarge);
      nextLarge := nextLarge + 1;
      mem := mem[nextHandle := p];
      blocks := blocks[p := Block(nextHandle, true, junk)];
      nextHandle := nextHandle + 1;
      largeRoots := largeRoots + [p];
    }

    method ClearCells(p: Ptr)
      requires p in blocks
      modifies this`blocks
      ensures blocks == old(blocks)[p := old(blocks)[p].(cells := Nils(|old(blocks)[p].cells|))]
    {
      ghost var b := blocks;
      var len := |blocks[p].cells|;
      for i := 0 to len
        invariant p in blocks && blocks == b[p := b[p].(cells := blocks[p].cells)]
        invariant |blocks[p].cells| == len && forall j | 0 <= j < i :: blocks[p].cells[j] == Nil
      {
        blocks := blocks[p := blocks[p].(cells := blocks[p].cells[i := Nil])];
      }
      assert blocks[p].cells == Nils(len);
    }

    /** `alloc_array`: a new array of nils, after whatever collections are due. All
        that the stack names keeps its contents; the arena never overflows. */
    method AllocArray(len: nat, roots: seq<Value>) returns (v: Value)
      requires Tidy(State(), youngThreshold) && Alive(State(), Handles(roots))
      modifies this
      ensures Tidy(State(), youngThreshold)
      ensures Kept(old(State()), State().(nextHandle := old(nextHandle)), Handles(roots))
      ensures nextHandle == old(nextHandle) + 1 && v == Arr(old(nextHandle), len)
      ensures Live(mem, blocks, v.handle) && Cells(mem, blocks, v.handle) == Nils(len)
      ensures if len + 1 >= youngThreshold then mem[v.handle].Large? else mem[v.handle].Young?
      ensures CollectedAsDue(old(State()), State().(mem := mem - {v.handle}), Handles(roots), len, youngThreshold,
                             majorThreshold, largeThreshold)
    {
      hide Tidy, Kept, Alive, Live, Cells, Allocated, Spares, Freed, Dying, YoungOnStack;
      ghost var hs, g := Handles(roots), State();
      KeptSelf(g, hs);
      SparesAll(g, hs);
      if |largeRoots| >= largeThreshold {
        LargeGcTidy(roots);
        LargeGcSpares(g, State(), youngThreshold, hs);
      }
      ghost var g1 := State();
      KeptAlive(g, g1, hs);
      var p;
      if len + 1 >= youngThreshold {
        p := AllocLarge(len);
      } else {
        if used + len + 1 >= youngThreshold {
          MinorGc(roots);
          KeptTwice(g, g1, State(), hs);
          KeptAlive(g, State(), hs);
          SparesThen(g, g1, State(), hs, true, true, |g.larges| < largeThreshold, false,
                     |g.olds| + |YoungOnStack(g, hs)| < majorThreshold, true);
          g1 := State();
        }
        p := AllocYoung(len);
      }
      ghost var junk: seq<Value> :| |junk| == len && State() == Allocated(g1, p, junk);
      AllocCleared(g1, p, junk);
      ClearCells(p);
      AfterAlloc(g1, youngThreshold, p, len, hs);
      AllocatedAt(g1, youngThreshold, p, len, hs);
      SparesMore(g, g1, State().(mem := mem - {g1.nextHandle}), hs, |g.larges| < largeThreshold);
      KeptTwice(g, g1, State().(nextHandle := g1.nextHandle), hs);
      KeptNumbers(g, g1, hs);
      v := Arr(blocks[p].handle, len);
    }

    /** The cell part of `op_arrget`: an array in a cell is replaced, there and in the
        result, by the header of the block it names now. */
    method GetCell(h: nat, i: nat) returns (v: Option<Value>)
      requires Live(mem, blocks, h) && i < |Cells(mem, blocks, h)|
      requires var c := Cells(mem, blocks, h)[i]; c.Arr? && c.handle in mem ==> mem[c.handle] in blocks
      modifies this`blocks
      ensures var p, c := mem[h], old(Cells(mem, blocks, h))[i];
              if !c.Arr? then v == Some(c) && blocks == old(blocks)
              else if c.handle !in mem then v == None && blocks == old(blocks)
              else
                var b := old(blocks)[mem[c.handle]];
                && v == Some(Arr(b.handle, |b.cells|))
                && blocks == old(blocks)[p := old(blocks)[p].(cells := old(blocks)[p].cells[i := Arr(b.handle,
                   |b.cells|)])]
    {
      var p := mem[h];
      var c := blocks[p].cells[i];
      if !c.Arr? { return Some(c); }
      if c.handle !in mem { return None; }
      var header := Arr(blocks[mem[c.handle]].handle, |blocks[mem[c.handle]].cells|);
      blocks := blocks[p := blocks[p].(cells := blocks[p].cells[i := header])];
      v := Some(header);
    }

    method SetCell(h: nat, i: nat, v: Value)
      requires Live(mem, blocks, h) && i < |Cells(mem, blocks, h)|
      modifies this`blocks
      ensures blocks == old(blocks)[mem[h] := old(blocks)[mem[h]].(cells := old(blocks)[mem[h]].cells[i := v])]
    {
      var p := mem[h];
      blocks := blocks[p := blocks[p].(cells := blocks[p].cells[i := v])];
    }
  }
}
