/** Collected memory as a graph: handles name blocks through the table `mem`, and
    the cells of a block name further handles (src/heap.h, src/value.h). */
module HeapGraph {
  import opened Values

  /** An address. Young addresses carry the number of the arena buffer they point
      into, so a pointer that outlives its buffer is never mistaken for a new one. */
  datatype Ptr = Young(epoch: nat, off: nat) | Old(id: nat) | Large(id: nat)

  /** A header (handle, mark bit, length) and the cells behind it. */
  datatype Block = Block(handle: nat, marked: bool, cells: seq<Value>)

  type Mem = map<nat, Ptr>
  type Blocks = map<Ptr, Block>

  function Handles(cells: seq<Value>): set<nat> {
    set v | v in cells && v.Arr? :: v.handle
  }

  /** The handle resolves to its own block. */
  predicate Live(mem: Mem, blocks: Blocks, h: nat) {
    h in mem && mem[h] in blocks && blocks[mem[h]].handle == h
  }

  function Cells(mem: Mem, blocks: Blocks, h: nat): seq<Value> {
    if Live(mem, blocks, h) then blocks[mem[h]].cells else []
  }

  function Children(mem: Mem, blocks: Blocks, h: nat): set<nat> {
    Handles(Cells(mem, blocks, h))
  }

  predicate Marked(mem: Mem, blocks: Blocks, h: nat) {
    Live(mem, blocks, h) && blocks[mem[h]].marked
  }

  /** A path may end in `wall` but does not lead on from there. */
  ghost predicate IsPath(mem: Mem, blocks: Blocks, wall: set<nat>, path: seq<nat>) {
    && path != []
    && forall i | 0 <= i < |path| - 1 :: path[i] !in wall && path[i + 1] in Children(mem, blocks, path[i])
  }

  ghost predicate PathFrom(mem: Mem, blocks: Blocks, wall: set<nat>, from: set<nat>, path: seq<nat>, h: nat) {
    IsPath(mem, blocks, wall, path) && path[0] in from && path[|path| - 1] == h
  }

  /** `h` can be reached from `from` without passing through `wall`. */
  ghost predicate Reachable(mem: Mem, blocks: Blocks, wall: set<nat>, from: set<nat>, h: nat) {
    exists path :: PathFrom(mem, blocks, wall, from, path, h)
  }

  /** Nothing in `s` dangles, and nothing in `s` leads out of it. */
  ghost predicate Closed(mem: Mem, blocks: Blocks, s: set<nat>) {
    forall h | h in s :: Live(mem, blocks, h) && Children(mem, blocks, h) <= s
  }

  /** Same contents for every handle of `s`, wherever the blocks are. */
  ghost predicate SameContents(s: set<nat>, mem: Mem, blocks: Blocks, mem1: Mem, blocks1: Blocks) {
    forall h | h in s :: Live(mem, blocks, h) && Live(mem1, blocks1, h)
                         && Cells(mem1, blocks1, h) == Cells(mem, blocks, h)
  }

  lemma ReachSelf(mem: Mem, blocks: Blocks, wall: set<nat>, from: set<nat>, h: nat)
    requires h in from
    ensures Reachable(mem, blocks, wall, from, h)
  {
    assert PathFrom(mem, blocks, wall, from, [h], h);
  }

  lemma ReachStep(mem: Mem, blocks: Blocks, wall: set<nat>, from: set<nat>, h: nat, c: nat)
    requires Reachable(mem, blocks, wall, from, h) && h !in wall && c in Children(mem, blocks, h)
    ensures Reachable(mem, blocks, wall, from, c)
  {
    var path :| PathFrom(mem, blocks, wall, from, path, h);
    assert PathFrom(mem, blocks, wall, from, path + [c], c);
  }

  /** More roots and fewer obstacles reach no less. */
  lemma ReachMore(mem: Mem, blocks: Blocks, wall: set<nat>, from: set<nat>, wall1: set<nat>, from1: set<nat>, h: nat)
    requires from <= from1 && wall1 <= wall && Reachable(mem, blocks, wall, from, h)
    ensures Reachable(mem, blocks, wall1, from1, h)
  {
    var path :| PathFrom(mem, blocks, wall, from, path, h);
    assert PathFrom(mem, blocks, wall1, from1, path, h);
  }

  lemma {:induction false} ReachVia(mem: Mem, blocks: Blocks, wall: set<nat>, from: set<nat>, c: nat, path: seq<nat>,
      h: nat)
    requires Reachable(mem, blocks, wall, from, c) && PathFrom(mem, blocks, wall, {c}, path, h)
    ensures Reachable(mem, blocks, wall, from, h)
    decreases |path|
  {
    if |path| > 1 {
      assert path[0 + 1] in Children(mem, blocks, path[0]);
      ReachStep(mem, blocks, wall, from, c, path[1]);
      var rest := path[1..];
      forall i | 0 <= i < |rest| - 1 ensures rest[i] !in wall && rest[i + 1] in Children(mem, blocks, rest[i]) {
        assert path[i + 1 + 1] in Children(mem, blocks, path[i + 1]);
      }
      assert PathFrom(mem, blocks, wall, {path[1]}, rest, h);
      ReachVia(mem, blocks, wall, from, path[1], rest, h);
    }
  }

  lemma ReachTrans(mem: Mem, blocks: Blocks, wall: set<nat>, from: set<nat>, c: nat, h: nat)
    requires Reachable(mem, blocks, wall, from, c) && Reachable(mem, blocks, wall, {c}, h)
    ensures Reachable(mem, blocks, wall, from, h)
  {
    var path :| PathFrom(mem, blocks, wall, {c}, path, h);
    ReachVia(mem, blocks, wall, from, c, path, h);
  }

  /** A set that contains the roots and everything its members lead to contains
      everything reachable. */
  lemma ReachableInside(mem: Mem, blocks: Blocks, wall: set<nat>, from: set<nat>, s: set<nat>, h: nat)
    requires Reachable(mem, blocks, wall, from, h) && from <= s
    requires forall x | x in s && x !in wall :: Children(mem, blocks, x) <= s
    ensures h in s
  {
    var path :| PathFrom(mem, blocks, wall, from, path, h);
    PathInside(mem, blocks, wall, from, s, path, |path| - 1);
  }

  lemma {:induction false} PathInside(mem: Mem, blocks: Blocks, wall: set<nat>, from: set<nat>, s: set<nat>,
      path: seq<nat>, i: nat)
    requires IsPath(mem, blocks, wall, path) && path[0] in from && from <= s && i < |path|
    requires forall x | x in s && x !in wall :: Children(mem, blocks, x) <= s
    ensures path[i] in s
  {
    if i > 0 {
      PathInside(mem, blocks, wall, from, s, path, i - 1);
      assert path[i - 1 + 1] in Children(mem, blocks, path[i - 1]);
    }
  }

  /** What is reachable depends on the contents only, not on where blocks are or
      what their marks say. */
  lemma ReachableSame(s: set<nat>, wall: set<nat>, from: set<nat>, mem: Mem, blocks: Blocks, mem1: Mem,
      blocks1: Blocks, h: nat)
    requires Closed(mem, blocks, s) && from <= s && SameContents(s, mem, blocks, mem1, blocks1)
    ensures Reachable(mem, blocks, wall, from, h) <==> Reachable(mem1, blocks1, wall, from, h)
  {
    if Reachable(mem, blocks, wall, from, h) {
      var path :| PathFrom(mem, blocks, wall, from, path, h);
      forall i | 0 <= i < |path| - 1 ensures path[i + 1] in Children(mem1, blocks1, path[i]) {
        PathInside(mem, blocks, wall, from, s, path, i);
        assert path[i + 1] in Children(mem, blocks, path[i]);
      }
      assert PathFrom(mem1, blocks1, wall, from, path, h);
    }
    if Reachable(mem1, blocks1, wall, from, h) {
      var path :| PathFrom(mem1, blocks1, wall, from, path, h);
      forall i | 0 <= i < |path| - 1 ensures path[i + 1] in Children(mem, blocks, path[i]) {
        PathInside(mem1, blocks1, wall, from, s, path, i);
        assert path[i + 1] in Children(mem1, blocks1, path[i]);
      }
      assert PathFrom(mem, blocks, wall, from, path, h);
    }
  }

  /** Fewer edges reach no more. */
  lemma ReachLess(s: set<nat>, wall: set<nat>, from: set<nat>, mem: Mem, blocks: Blocks, mem1: Mem, blocks1: Blocks,
      h: nat)
    requires Closed(mem, blocks, s) && from <= s && Reachable(mem, blocks, wall, from, h)
    requires forall x | x in s :: Children(mem, blocks, x) <= Children(mem1, blocks1, x)
    ensures Reachable(mem1, blocks1, wall, from, h)
  {
    var path :| PathFrom(mem, blocks, wall, from, path, h);
    forall i | 0 <= i < |path| - 1 ensures path[i + 1] in Children(mem1, blocks1, path[i]) {
      PathInside(mem, blocks, wall, from, s, path, i);
      assert path[i + 1] in Children(mem, blocks, path[i]);
    }
    assert PathFrom(mem1, blocks1, wall, from, path, h);
  }

  /** A wall that nothing reachable belongs to is no obstacle. */
  lemma WallAside(mem: Mem, blocks: Blocks, wall: set<nat>, from: set<nat>, h: nat)
    requires forall x :: Reachable(mem, blocks, {}, from, x) ==> x !in wall
    ensures Reachable(mem, blocks, wall, from, h) <==> Reachable(mem, blocks, {}, from, h)
  {
    if Reachable(mem, blocks, wall, from, h) { ReachMore(mem, blocks, wall, from, {}, from, h); }
    if Reachable(mem, blocks, {}, from, h) {
      var path :| PathFrom(mem, blocks, {}, from, path, h);
      forall i | 0 <= i < |path| - 1 ensures path[i] !in wall {
        var sub := path[..i + 1];
        forall j | 0 <= j < |sub| - 1 ensures sub[j + 1] in Children(mem, blocks, sub[j]) {
          assert path[j + 1] in Children(mem, blocks, path[j]);
        }
        assert PathFrom(mem, blocks, {}, from, sub, path[i]);
      }
      assert PathFrom(mem, blocks, wall, from, path, h);
    }
  }
}
