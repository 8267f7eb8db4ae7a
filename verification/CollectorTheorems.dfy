/** What one collection does to the graph the stack leads to, for any heap: when it
    is kept, and exactly when the code's uncleaned marks lose part of it. */
module CollectorTheorems {
  import opened Values
  import opened HeapGraph
  import opened Collector

  /** No header that the stack leads to hides what is behind it from the marking. */
  ghost predicate CleanMarks(mem: Mem, blocks: Blocks, s: set<nat>, listed: set<nat>, roots: seq<Value>) {
    forall x :: Reachable(mem, blocks, {}, Handles(roots), x) ==> x !in Stale(mem, blocks, s, listed, roots)
  }

  /** The handles that the stack leads to. */
  ghost function Reached(mem: Mem, blocks: Blocks, s: set<nat>, roots: seq<Value>): set<nat> {
    set h | h in s && Reachable(mem, blocks, {}, Handles(roots), h)
  }

  lemma ReachedCloses(mem: Mem, blocks: Blocks, s: set<nat>, roots: seq<Value>)
    requires Closed(mem, blocks, s) && Handles(roots) <= s
    ensures Closed(mem, blocks, Reached(mem, blocks, s, roots)) && Handles(roots) <= Reached(mem, blocks, s, roots)
    ensures forall h :: Reachable(mem, blocks, {}, Handles(roots), h) ==> h in s
  {
    hide Reachable;
    var from := Handles(roots);
    forall h | h in from ensures Reachable(mem, blocks, {}, from, h) {
      ReachSelf(mem, blocks, {}, from, h);
    }
    forall h, c | h in Reached(mem, blocks, s, roots) && c in Children(mem, blocks, h)
      ensures c in Reached(mem, blocks, s, roots)
    {
      ReachStep(mem, blocks, {}, from, h, c);
    }
    forall h | Reachable(mem, blocks, {}, from, h) ensures h in s {
      ReachableInside(mem, blocks, {}, from, s, h);
    }
  }

  /** Keeping the contents of everything reached keeps the graph: the same handles
      are reached afterwards. */
  lemma SameGraph(mem: Mem, blocks: Blocks, mem1: Mem, blocks1: Blocks, s: set<nat>, roots: seq<Value>, h: nat)
    requires Closed(mem, blocks, s) && Handles(roots) <= s
    requires SameContents(Reached(mem, blocks, s, roots), mem, blocks, mem1, blocks1)
    ensures Reachable(mem1, blocks1, {}, Handles(roots), h) <==> Reachable(mem, blocks, {}, Handles(roots), h)
  {
    hide Reachable;
    ReachedCloses(mem, blocks, s, roots);
    ReachableSame(Reached(mem, blocks, s, roots), {}, Handles(roots), mem, blocks, mem1, blocks1, h);
  }

  /** With clean marks a collection finds exactly the listed objects that the stack
      leads to. */
  lemma CleanFound(mem: Mem, b: Blocks, s: set<nat>, listed: set<nat>, roots: seq<Value>, h: nat)
    requires h in listed && CleanMarks(mem, b, s, listed, roots)
    ensures h in Found(mem, b, listed, Stale(mem, b, s, listed, roots), roots) <==>
            Reachable(mem, b, {}, Handles(roots), h)
  {
    hide Reachable;
    WallAside(mem, b, Stale(mem, b, s, listed, roots), Handles(roots), h);
  }

  // ---- promotion ----

  /** The setting of a promotion: `a` before, `z` after the arena has been released. */
  ghost predicate Promotes(a: Promo, z: Promo, youngs: seq<Ptr>, s: set<nat>, roots: seq<Value>) {
    && Closed(a.mem, a.blocks, s) && Handles(roots) <= s && YoungListed(a.mem, a.blocks, youngs)
    && PromotedFrom(a, z, s, YoungFound(a.mem, a.blocks, youngs, s, roots))
  }

  lemma YoungIsListed(a: Promo, z: Promo, youngs: seq<Ptr>, s: set<nat>, roots: seq<Value>, h: nat)
    requires Promotes(a, z, youngs, s, roots) && h in s
    ensures Live(a.mem, a.blocks, h)
    ensures a.mem[h].Young? <==> h in SeqSet(HandleSeq(a.blocks, youngs))
  {
    hide Reachable, PromotedFrom, Children;
    var hs := HandleSeq(a.blocks, youngs);
    if a.mem[h].Young? {
      var i :| 0 <= i < |youngs| && youngs[i] == a.mem[h];
      assert hs[i] == h;
    }
    if h in SeqSet(hs) {
      var i :| 0 <= i < |hs| && hs[i] == h;
      assert youngs[i] in youngs;
    }
  }

  /** What survives a promotion, exactly: the objects that were not young, and those
      that a young object found by the marking leads to. A survivor has the contents
      it had, and it is not in the released arena. */
  lemma SurvivesPromotion(a: Promo, z: Promo, youngs: seq<Ptr>, s: set<nat>, roots: seq<Value>, h: nat)
    requires Promotes(a, z, youngs, s, roots) && h in s
    ensures Live(z.mem, z.blocks, h) <==>
            !a.mem[h].Young? || Reachable(a.mem, a.blocks, {}, YoungFound(a.mem, a.blocks, youngs, s, roots), h)
    ensures Live(z.mem, z.blocks, h) ==> !z.mem[h].Young? && Cells(z.mem, z.blocks, h) == Cells(a.mem, a.blocks, h)
  {
    hide Reachable, Children, Listed, YoungFound, Handles;
    YoungIsListed(a, z, youngs, s, roots, h);
    if h in z.vis { assert Relocated(a, z, h); }
  }

  /** Values on the stack survive whatever the marks are. */
  lemma RootsSurvivePromotion(a: Promo, z: Promo, youngs: seq<Ptr>, s: set<nat>, roots: seq<Value>, h: nat)
    requires Promotes(a, z, youngs, s, roots) && h in Handles(roots)
    ensures Live(z.mem, z.blocks, h) && Cells(z.mem, z.blocks, h) == Cells(a.mem, a.blocks, h)
  {
    hide Reachable, PromotedFrom;
    YoungIsListed(a, z, youngs, s, roots, h);
    SurvivesPromotion(a, z, youngs, s, roots, h);
    if a.mem[h].Young? {
      var found := YoungFound(a.mem, a.blocks, youngs, s, roots);
      ReachSelf(a.mem, a.blocks, Stale(a.mem, a.blocks, s, SeqSet(HandleSeq(a.blocks, youngs)), roots),
          Handles(roots), h);
      ReachSelf(a.mem, a.blocks, {}, found, h);
    }
  }

  /** Every young object that the stack leads to is led to by one that the marking finds. */
  ghost predicate FoundLeads(a: Promo, youngs: seq<Ptr>, s: set<nat>, roots: seq<Value>)
    requires Closed(a.mem, a.blocks, s) && LargeListed(a.mem, a.blocks, youngs)
  {
    forall h | h in Reached(a.mem, a.blocks, s, roots) && a.mem[h].Young? ::
      Reachable(a.mem, a.blocks, {}, YoungFound(a.mem, a.blocks, youngs, s, roots), h)
  }

  /** Promotion keeps the object graph, sharing and cycles included, exactly when the
      objects that the marking finds lead to every young object the stack leads to. Then
      nothing reachable is in the released arena and the same handles are reachable. */
  lemma PromotionKeepsGraph(a: Promo, z: Promo, youngs: seq<Ptr>, s: set<nat>, roots: seq<Value>)
    requires Promotes(a, z, youngs, s, roots)
    ensures SameContents(Reached(a.mem, a.blocks, s, roots), a.mem, a.blocks, z.mem, z.blocks) <==>
            FoundLeads(a, youngs, s, roots)
    ensures FoundLeads(a, youngs, s, roots) ==>
              forall h | h in Reached(a.mem, a.blocks, s, roots) :: h in z.mem && !z.mem[h].Young?
    ensures FoundLeads(a, youngs, s, roots) ==>
              forall h :: Reachable(z.mem, z.blocks, {}, Handles(roots), h) <==>
                             Reachable(a.mem, a.blocks, {}, Handles(roots), h)
  {
    hide Reachable, PromotedFrom, Cells, Closed, YoungFound;
    forall h | h in Reached(a.mem, a.blocks, s, roots)
      ensures Live(a.mem, a.blocks, h)
      ensures Live(z.mem, z.blocks, h) <==>
              !a.mem[h].Young? || Reachable(a.mem, a.blocks, {}, YoungFound(a.mem, a.blocks, youngs, s, roots), h)
      ensures Live(z.mem, z.blocks, h) ==> !z.mem[h].Young? && Cells(z.mem, z.blocks, h) == Cells(a.mem, a.blocks, h)
    {
      YoungIsListed(a, z, youngs, s, roots, h);
      SurvivesPromotion(a, z, youngs, s, roots, h);
    }
    if FoundLeads(a, youngs, s, roots) {
      forall h ensures Reachable(z.mem, z.blocks, {}, Handles(roots), h)
          <==> Reachable(a.mem, a.blocks, {}, Handles(roots), h) {
        SameGraph(a.mem, a.blocks, z.mem, z.blocks, s, roots, h);
      }
    }
  }

  /** Clean marks are enough: no old or large header that the stack leads to, roots aside,
      is marked on entry. */
  lemma CleanMarksLead(a: Promo, z: Promo, youngs: seq<Ptr>, s: set<nat>, roots: seq<Value>)
    requires Promotes(a, z, youngs, s, roots)
    requires CleanMarks(a.mem, a.blocks, s, SeqSet(HandleSeq(a.blocks, youngs)), roots)
    ensures FoundLeads(a, youngs, s, roots)
  {
    hide Reachable, PromotedFrom;
    var listed := SeqSet(HandleSeq(a.blocks, youngs));
    forall h | h in Reached(a.mem, a.blocks, s, roots) && a.mem[h].Young?
      ensures Reachable(a.mem, a.blocks, {}, YoungFound(a.mem, a.blocks, youngs, s, roots), h)
    {
      YoungIsListed(a, z, youngs, s, roots, h);
      CleanFound(a.mem, a.blocks, s, listed, roots, h);
      ReachSelf(a.mem, a.blocks, {}, YoungFound(a.mem, a.blocks, youngs, s, roots), h);
    }
  }

  /** A promotion that reaches an old object lists it a second time: the old
      generation stays duplicate-free exactly when it reaches none. */
  lemma OldListedAfterPromotion(a: Promo, z: Promo, youngs: seq<Ptr>, s: set<nat>, roots: seq<Value>)
    requires Promotes(a, z, youngs, s, roots)
    requires OldListed(a.mem, a.blocks, a.oldRoots) && forall h | h in a.oldRoots :: a.mem[h].Old?
    ensures OldListed(z.mem, z.blocks, z.oldRoots) <==>
            forall h | h in a.oldRoots ::
                !Reachable(a.mem, a.blocks, {}, YoungFound(a.mem, a.blocks, youngs, s, roots), h)
  {
    hide Reachable, YoungFound, Children, YoungListed, Closed, Handles, NoDup;
    var k := |a.oldRoots|;
    var more := z.oldRoots[k..];
    assert z.oldRoots == a.oldRoots + more;
    assert SeqSet(more) == z.vis;
    forall h | h in z.oldRoots ensures Live(z.mem, z.blocks, h) {
      if h in z.vis { assert Relocated(a, z, h); } else { assert h in a.oldRoots || h in SeqSet(more); }
    }
    NoDupAppend(a.oldRoots, more);
  }

  lemma NoDupAppend(s: seq<nat>, more: seq<nat>)
    requires NoDup(s) && NoDup(more)
    ensures NoDup(s + more) <==> forall h | h in s :: h !in SeqSet(more)
  {
    var k := |s|;
    if NoDup(s + more) {
      forall h | h in s ensures h !in SeqSet(more) {
        var i :| 0 <= i < k && s[i] == h;
        assert (s + more)[i] == h;
        forall j | 0 <= j < |more| ensures more[j] != h { assert (s + more)[k + j] == more[j]; }
      }
    }
    if forall h | h in s :: h !in SeqSet(more) {
      forall i, j | 0 <= i < j < |s + more| ensures (s + more)[i] != (s + more)[j] {
        if i < k <= j {
          assert s[i] in s && more[j - k] in SeqSet(more);
        } else if k <= i {
          assert more[i - k] != more[j - k];
        }
      }
    }
  }

  /** A promotion that reaches a large object leaves a stale address in the list of
      large objects: the list stays sound exactly when it reaches none. */
  lemma LargeListedAfterPromotion(a: Promo, z: Promo, youngs: seq<Ptr>, s: set<nat>, roots: seq<Value>,
      larges: seq<Ptr>)
    requires Promotes(a, z, youngs, s, roots)
    requires LargeListed(a.mem, a.blocks, larges) && forall p | p in larges :: p.Large?
    ensures LargeListed(z.mem, z.blocks, larges) <==>
            forall p | p in larges ::
                !Reachable(a.mem, a.blocks, {}, YoungFound(a.mem, a.blocks, youngs, s, roots), a.blocks[p].handle)
  {
    hide Reachable, YoungFound, Children, YoungListed, Closed, Handles, Listed;
    forall p | p in larges
      ensures p in z.blocks && z.blocks[p].handle == a.blocks[p].handle
      ensures (a.blocks[p].handle in z.mem && z.mem[a.blocks[p].handle] == p) <==> a.blocks[p].handle !in z.vis
    {
      if a.blocks[p].handle in z.vis { assert Relocated(a, z, a.blocks[p].handle); }
    }
  }

  // ---- sweeps ----

  /** With clean marks a sweep keeps, of the objects it lists, exactly those that the
      stack leads to, in their order, and the whole graph is as it was. */
  lemma SweepKeepsGraph(mem: Mem, b: Blocks, mem1: Mem, b1: Blocks, hs: seq<nat>, s: set<nat>, roots: seq<Value>)
    requires Closed(mem, b, s) && Handles(roots) <= s && OldListed(mem, b, hs)
    requires CleanMarks(mem, b, s, SeqSet(hs), roots)
    requires Swept(mem, b, SeqSet(hs) - Found(mem, b, SeqSet(hs), Stale(mem, b, s, SeqSet(hs), roots), roots), mem1, b1)
    ensures forall h | h in hs :: h in mem1 <==> Reachable(mem, b, {}, Handles(roots), h)
    ensures forall h | h in mem && h !in hs :: h in mem1 && mem1[h] == mem[h]
    ensures SameContents(Reached(mem, b, s, roots), mem, b, mem1, b1)
    ensures forall h :: Reachable(mem1, b1, {}, Handles(roots), h) <==> Reachable(mem, b, {}, Handles(roots), h)
  {
    hide Reachable, Found, Stale, Children;
    var kept := Found(mem, b, SeqSet(hs), Stale(mem, b, s, SeqSet(hs), roots), roots);
    forall h | h in hs ensures h in kept <==> Reachable(mem, b, {}, Handles(roots), h) {
      CleanFound(mem, b, s, SeqSet(hs), roots, h);
    }
    forall h | h in Reached(mem, b, s, roots)
      ensures Live(mem1, b1, h) && Cells(mem1, b1, h) == Cells(mem, b, h) && Live(mem, b, h)
    {
      assert h !in SeqSet(hs) - kept;
    }
    forall h ensures Reachable(mem1, b1, {}, Handles(roots), h) <==> Reachable(mem, b, {}, Handles(roots), h) {
      SameGraph(mem, b, mem1, b1, s, roots, h);
    }
  }

  // ---- what a stale mark costs ----

  // ---- a run that loses an object ----

  /** Two young arrays of one cell, the first holding the second. */
  ghost predicate FirstHeap(a: Promo) {
    && a.mem == map[1 := Young(0, 0), 2 := Young(0, 2)]
    && a.blocks == map[Young(0, 0) := Block(1, true, [Arr(2, 1)]), Young(0, 2) := Block(2, true, [Nil])]
  }

  ghost predicate FirstResult(z: Promo) {
    && z.mem.Keys == {1, 2} && Live(z.mem, z.blocks, 1) && Marked(z.mem, z.blocks, 2)
    && Cells(z.mem, z.blocks, 1) == [Arr(2, 1)] && Cells(z.mem, z.blocks, 2) == [Nil]
    && (forall q | q in z.blocks :: !q.Young?) && !z.mem[1].Young? && !z.mem[2].Young?
  }

  lemma FirstChildren(a: Promo)
    requires FirstHeap(a)
    ensures Handles([Arr(1, 1)]) == {1} && Children(a.mem, a.blocks, 1) == {2} && Children(a.mem, a.blocks, 2) == {}
    ensures Closed(a.mem, a.blocks, {1, 2}) && YoungListed(a.mem, a.blocks, [Young(0, 0), Young(0, 2)])
  {
    assert Handles([Arr(1, 1)]) == {1} by { assert Arr(1, 1) in [Arr(1, 1)]; }
    assert Handles([Arr(2, 1)]) == {2} by { assert Arr(2, 1) in [Arr(2, 1)]; }
    assert Handles([Nil]) == {};
    var youngs := [Young(0, 0), Young(0, 2)];
    assert youngs[0] in youngs && youngs[1] in youngs;
  }

  lemma FirstFound(a: Promo)
    requires FirstHeap(a) && YoungListed(a.mem, a.blocks, [Young(0, 0), Young(0, 2)])
    ensures YoungFound(a.mem, a.blocks, [Young(0, 0), Young(0, 2)], {1, 2}, [Arr(1, 1)]) == {1, 2}
    ensures MarkedThen(a.mem, a.blocks, [Young(0, 0), Young(0, 2)], {1, 2}, [Arr(1, 1)], Young(0, 2))
  {
    hide Reachable;
    FirstChildren(a);
    var listed := SeqSet(HandleSeq(a.blocks, [Young(0, 0), Young(0, 2)]));
    assert HandleSeq(a.blocks, [Young(0, 0), Young(0, 2)]) == [1, 2];
    assert 1 in [1, 2] && 2 in [1, 2];
    assert listed == {1, 2};
    var wall := Stale(a.mem, a.blocks, {1, 2}, listed, [Arr(1, 1)]);
    assert wall == {};
    ReachSelf(a.mem, a.blocks, wall, {1}, 1);
    ReachStep(a.mem, a.blocks, wall, {1}, 1, 2);
  }

  /** The second array is promoted on behalf of the first, with its mark still set. */
  lemma FirstPromotion(a: Promo, z: Promo)
    requires FirstHeap(a) && Promotes(a, z, [Young(0, 0), Young(0, 2)], {1, 2}, [Arr(1, 1)])
    requires PromotedMarks(a, z, [Young(0, 0), Young(0, 2)], {1, 2}, [Arr(1, 1)])
    ensures FirstResult(z)
  {
    hide Reachable, Listed, YoungFound, MarkedThen, Closed;
    var youngs, s, roots := [Young(0, 0), Young(0, 2)], {1, 2}, [Arr(1, 1)];
    FirstFound(a);
    FirstChildren(a);
    var found := YoungFound(a.mem, a.blocks, youngs, s, roots);
    ReachSelf(a.mem, a.blocks, {}, found, 1);
    ReachSelf(a.mem, a.blocks, {}, found, 2);
    assert Relocated(a, z, 1) && Relocated(a, z, 2);
    SecondNotFirst(a, youngs, found);
    forall h ensures h in z.mem <==> h in {1, 2} {
      if h in z.vis { assert Relocated(a, z, h); }
    }
  }

  lemma SecondNotFirst(a: Promo, youngs: seq<Ptr>, found: set<nat>)
    requires FirstHeap(a) && youngs == [Young(0, 0), Young(0, 2)] && found == {1, 2}
    requires LargeListed(a.mem, a.blocks, youngs)
    ensures !CopiedFirst(a, youngs, |youngs|, found, 2)
  {
    hide Reachable;
    FirstChildren(a);
    assert youngs[..1] == [Young(0, 0)];
    assert HandleSeq(a.blocks, youngs[..1]) == [1];
    assert 1 in [1];
    assert EarlierFound(a, youngs, 1, found) == {1};
    ReachSelf(a.mem, a.blocks, {}, {1}, 1);
    ReachStep(a.mem, a.blocks, {}, {1}, 1, 2);
    assert !FirstAt(a, youngs, 1, found, 2);
    assert !FirstAt(a, youngs, 0, found, 2);
  }

  /** The same two arrays, now old, the second marked and holding a new young one. */
  ghost predicate SecondHeap(a: Promo) {
    && a.mem.Keys == {1, 2, 3} && Live(a.mem, a.blocks, 1) && Marked(a.mem, a.blocks, 2) && Live(a.mem, a.blocks, 3)
    && Cells(a.mem, a.blocks, 1) == [Arr(2, 1)] && Cells(a.mem, a.blocks, 2) == [Arr(3, 0)]
    && Cells(a.mem, a.blocks, 3) == [] && a.mem[3].Young? && !a.mem[1].Young? && !a.mem[2].Young?
    && forall q | q in a.blocks && q.Young? :: q == a.mem[3]
  }

  lemma SecondChildren(a: Promo)
    requires SecondHeap(a)
    ensures Handles([Arr(1, 1)]) == {1}
    ensures Children(a.mem, a.blocks, 1) == {2} && Children(a.mem, a.blocks, 2) == {3}
    ensures Closed(a.mem, a.blocks, {1, 2, 3}) && YoungListed(a.mem, a.blocks, [a.mem[3]])
  {
    assert Handles([Arr(1, 1)]) == {1} by { assert Arr(1, 1) in [Arr(1, 1)]; }
    assert Handles([Arr(2, 1)]) == {2} by { assert Arr(2, 1) in [Arr(2, 1)]; }
    assert Handles([Arr(3, 0)]) == {3} by { assert Arr(3, 0) in [Arr(3, 0)]; }
    assert [a.mem[3]][0] in [a.mem[3]];
  }

  lemma SecondFound(a: Promo)
    requires SecondHeap(a) && YoungListed(a.mem, a.blocks, [a.mem[3]])
    ensures YoungFound(a.mem, a.blocks, [a.mem[3]], {1, 2, 3}, [Arr(1, 1)]) == {}
  {
    hide Reachable, Closed;
    SecondChildren(a);
    assert HandleSeq(a.blocks, [a.mem[3]]) == [3];
    var listed := SeqSet(HandleSeq(a.blocks, [a.mem[3]]));
    assert listed == {3};
    var wall := Stale(a.mem, a.blocks, {1, 2, 3}, listed, [Arr(1, 1)]);
    assert 2 in wall;
    if Reachable(a.mem, a.blocks, wall, {1}, 3) {
      ReachableInside(a.mem, a.blocks, wall, {1}, {1, 2}, 3);
      assert false;
    }
  }

  /** The stale mark hides the young array, and its handle is left dangling. */
  lemma SecondPromotion(a: Promo, z: Promo)
    requires SecondHeap(a) && Promotes(a, z, [a.mem[3]], {1, 2, 3}, [Arr(1, 1)])
    ensures Reachable(z.mem, z.blocks, {}, {1}, 3) && 3 in z.mem && !Live(z.mem, z.blocks, 3)
  {
    hide Reachable, Listed, YoungFound, Closed;
    SecondFound(a);
    SecondChildren(a);
    forall h ensures h !in z.vis { NoRoots(a.mem, a.blocks, h); }
    assert Children(z.mem, z.blocks, 1) == {2} && Children(z.mem, z.blocks, 2) == {3};
    ReachSelf(z.mem, z.blocks, {}, {1}, 1);
    ReachStep(z.mem, z.blocks, {}, {1}, 1, 2);
    ReachStep(z.mem, z.blocks, {}, {1}, 2, 3);
  }

  lemma NoRoots(mem: Mem, blocks: Blocks, h: nat)
    ensures !Reachable(mem, blocks, {}, {}, h)
  {
    if Reachable(mem, blocks, {}, {}, h) {
      ReachableInside(mem, blocks, {}, {}, {}, h);
      assert false;
    }
  }

  /** A new young array of nils, as `alloc_array` makes it when there is room. */
  method NewYoung(gc: GarbageCollector, len: nat) returns (p: Ptr)
    requires gc.used + (len + 1) < gc.youngThreshold
    modifies gc
    ensures p == Young(gc.epoch, old(gc.used)) && gc.epoch == old(gc.epoch)
    ensures gc.mem == old(gc.mem)[old(gc.nextHandle) := p] && gc.nextHandle == old(gc.nextHandle) + 1
    ensures gc.blocks == old(gc.blocks)[p := Block(old(gc.nextHandle), true, Nils(len))]
    ensures gc.youngRoots == old(gc.youngRoots) + [p] && gc.used == old(gc.used) + len + 1
    ensures gc.oldRoots == old(gc.oldRoots) && gc.nextOld == old(gc.nextOld)
  {
    p := gc.AllocYoung(len);
    gc.ClearCells(p);
  }

  method TwoArrays(gc: GarbageCollector)
    requires gc.State() == Store(map[], map[], [], [], [], 0, 0, 0, 0, 1) && gc.youngThreshold > 4
    modifies gc
    ensures FirstHeap(gc.Promotion()) && gc.youngRoots == [Young(0, 0), Young(0, 2)]
    ensures gc.nextHandle == 3 && gc.nextOld == 0
  {
    assert Nils(1) == [Nil];
    var p := NewYoung(gc, 1);
    p := NewYoung(gc, 1);
    gc.SetCell(1, 0, Arr(2, 1));
    var b := gc.blocks[Young(0, 0)];
    assert b.cells == [Arr(2, 1)];
    assert gc.blocks == map[Young(0, 0) := b, Young(0, 2) := Block(2, true, [Nil])];
  }

  method ThirdArray(gc: GarbageCollector)
    requires FirstResult(gc.Promotion()) && gc.youngRoots == [] && gc.used == 0 && gc.nextHandle == 3
    requires gc.youngThreshold > 4 && FreshOld(gc.blocks, gc.nextOld)
    modifies gc
    ensures SecondHeap(gc.Promotion()) && gc.youngRoots == [gc.mem[3]] && FreshOld(gc.blocks, gc.nextOld)
  {
    assert Nils(0) == [];
    var p := NewYoung(gc, 0);
    gc.SetCell(2, 0, Arr(3, 0));
    assert gc.blocks[gc.mem[2]].cells == [Arr(3, 0)];
  }

  /** A run of the collector, from the empty heap on, that loses an object: two arrays, one
      in the other, are promoted; a third one is stored in the second; at the next promotion
      the mark that the copy of the second has kept hides the third, although the stack leads
      to it. */
  method StaleMarkLosesObject(youngThreshold: nat, majorThreshold: nat,
      largeThreshold: nat) returns (gc: GarbageCollector)
    requires youngThreshold > 4
    ensures Reachable(gc.mem, gc.blocks, {}, {1}, 3) && 3 in gc.mem && !Live(gc.mem, gc.blocks, 3)
  {
    hide Reachable, PromotedFrom, PromotedMarks, YoungFound, Closed, Tidy, FirstHeap, FirstResult, SecondHeap,
         YoungListed, Live;
    gc := new GarbageCollector(youngThreshold, majorThreshold, largeThreshold);
    TwoArrays(gc);
    ghost var a := gc.Promotion();
    FirstChildren(a);
    gc.Promote([Arr(1, 1)], {1, 2});
    FirstPromotion(a, gc.Promotion());
    ThirdArray(gc);
    a := gc.Promotion();
    SecondChildren(a);
    gc.Promote([Arr(1, 1)], {1, 2, 3});
    SecondPromotion(a, gc.Promotion());
  }
}
