/** Scopes and registers during compilation (src/var_manager.h, src/var_manager.cpp). */
module Variables {
  import opened Values
  import opened Codegen
  import opened CodegenFacts

  /** One open scope: its first free register and the names it has added. */
  datatype LevelInfo = LevelInfo(sp: nat, vars: seq<string>)

  type Levels = s: seq<LevelInfo> | |s| > 0 witness [LevelInfo(0, [])]

  /** The register counter of the innermost scope is `sp`, all else is as before. */
  function Raised(levels: Levels, sp: nat): (r: Levels)
    ensures |r| == |levels|
  {
    var n := |levels| - 1;
    levels[n := levels[n].(sp := sp)]
  }

  /** Giving back what was taken restores the counters. */
  lemma RaisedBack(levels: Levels, sp: nat)
    ensures Raised(Raised(levels, sp), levels[|levels| - 1].sp) == levels
  {
  }

  /** A name's register and the number of its scope. */
  type VarNames = map<string, (nat, nat)>

  function NamesOf(vars: VarNames): Names {
    map x | x in vars :: vars[x].0
  }

  ghost predicate Covers(vars: VarNames, added: seq<string>, outer: VarNames) {
    && (forall x | x in added :: x in vars && x !in outer)
    && (forall x | x in outer :: x in vars && vars[x] == outer[x])
    && (forall x | x in vars :: x in added || x in outer)
  }

  function Erase(vars: VarNames, gone: set<string>): VarNames {
    map x | x in vars && x !in gone :: vars[x]
  }

  lemma CoversErased(vars: VarNames, added: seq<string>, outer: VarNames)
    requires Covers(vars, added, outer)
    ensures Erase(vars, First(added, |added|)) == outer
  {
    assert added[..|added|] == added;
  }

  function ScopeOf(levels: Levels, vars: VarNames): Scope {
    Codegen.Scope(NamesOf(vars), levels[|levels| - 1].sp)
  }

  /** Each scope has added its own names to those of the scope around it, and in each of them
      the names are in registers of their own below its counter. */
  ghost predicate Nested(levels: Levels, vars: VarNames, outer: seq<VarNames>) {
    && |levels| == |outer| + 1
    && (forall k | 0 <= k < |outer| :: LevelCovers(levels, vars, outer, k))
    && (forall k | 0 <= k < |outer| :: WfScope(Codegen.Scope(NamesOf(outer[k]), levels[k].sp)))
    && WfScope(ScopeOf(levels, vars))
  }

  ghost predicate LevelCovers(levels: Levels, vars: VarNames, outer: seq<VarNames>, k: nat)
    requires k < |outer| && |levels| == |outer| + 1
  {
    Covers(if k + 1 < |outer| then outer[k + 1] else vars, levels[k + 1].vars, outer[k])
  }

  lemma NestedOuter(levels: Levels, vars: VarNames, outer: seq<VarNames>)
    requires Nested(levels, vars, outer) && outer != []
    ensures |levels| == |outer| + 1
    ensures var n := |outer| - 1;
            && Covers(vars, levels[|levels| - 1].vars, outer[n])
            && Nested(levels[..|levels| - 1], outer[n], outer[..n])
  {
    hide Covers, WfScope;
    var n := |outer| - 1;
    var levels1, vars1, outer1 := levels[..n + 1], outer[n], outer[..n];
    assert LevelCovers(levels, vars, outer, n);
    forall k | 0 <= k < n ensures LevelCovers(levels1, vars1, outer1, k) {
      assert LevelCovers(levels, vars, outer, k);
    }
  }

  function First(vars: seq<string>, i: nat): set<string>
    requires i <= |vars|
  {
    var front := vars[..i];
    set x | x in front
  }

  lemma EraseNext(names: VarNames, vars: seq<string>, i: nat)
    requires i < |vars|
    ensures Erase(names, First(vars, i + 1)) == Erase(names, First(vars, i)) - {vars[i]}
  {
    assert vars[..i + 1] == vars[..i] + [vars[i]];
  }

  /** A new name in the innermost scope. */
  lemma NestedMore(levels: Levels, vars: VarNames, outer: seq<VarNames>, name: string)
    requires Nested(levels, vars, outer) && name !in vars
    ensures var n := |levels| - 1;
            var r := levels[n].sp;
            && Nested(levels[n := LevelInfo(r + 1, levels[n].vars + [name])], vars[name := (r, |levels|)], outer)
            && NamesOf(vars[name := (r, |levels|)]) == NamesOf(vars)[name := r]
  {
    hide Covers, WfScope;
    var n := |levels| - 1;
    var r := levels[n].sp;
    var levels1, vars1 := levels[n := LevelInfo(r + 1, levels[n].vars + [name])], vars[name := (r, |levels|)];
    WiderNames(NamesOf(vars), r, name);
    assert NamesOf(vars1) == NamesOf(vars)[name := r];
    forall k | 0 <= k < |outer| ensures LevelCovers(levels1, vars1, outer, k) {
      assert LevelCovers(levels, vars, outer, k);
      if k + 1 == |outer| { CoversMore(vars, levels[n].vars, outer[k], name, (r, |levels|)); }
    }
  }

  /** A scope that has added nothing yet. */
  lemma NestedNew(levels: Levels, vars: VarNames, outer: seq<VarNames>)
    requires Nested(levels, vars, outer)
    ensures Nested(levels + [LevelInfo(levels[|levels| - 1].sp, [])], vars, outer + [vars])
  {
    hide Covers, WfScope;
    var levels1, outer1 := levels + [LevelInfo(levels[|levels| - 1].sp, [])], outer + [vars];
    forall k | 0 <= k < |outer1| ensures LevelCovers(levels1, vars, outer1, k) {
      if k < |outer| {
        assert LevelCovers(levels, vars, outer, k);
      } else {
        CoversNothing(vars);
      }
    }
  }

  lemma CoversNothing(vars: VarNames)
    ensures Covers(vars, [], vars)
  {
  }

  lemma NestedRaised(levels: Levels, vars: VarNames, outer: seq<VarNames>, sp: nat)
    requires Nested(levels, vars, outer) && WfScope(ScopeOf(levels, vars).(sp := sp))
    ensures Nested(Raised(levels, sp), vars, outer)
  {
    hide Covers;
    forall k | 0 <= k < |outer| ensures LevelCovers(Raised(levels, sp), vars, outer, k) {
      assert LevelCovers(levels, vars, outer, k);
    }
  }

  lemma WiderNames(names: Names, sp: nat, name: string)
    requires WfScope(Codegen.Scope(names, sp)) && name !in names
    ensures WfScope(Codegen.Scope(names[name := sp], sp + 1))
  {
  }

  lemma CoversMore(vars: VarNames, added: seq<string>, outer: VarNames, name: string, place: (nat, nat))
    requires Covers(vars, added, outer) && name !in vars
    ensures Covers(vars[name := place], added + [name], outer)
  {
  }

  class VarManager {
    var levels: Levels
    var varNames: VarNames
    var functions: Names
    /** The names in scope when each scope above the first was opened. */
    ghost var outer: seq<VarNames>

    ghost predicate Valid()
      reads this
    {
      Nested(levels, varNames, outer)
    }

    /** The innermost scope as the code generator sees it. */
    function Scope(): Scope
      reads this
    {
      ScopeOf(levels, varNames)
    }

    lemma ScopeIsOk()
      requires Valid()
      ensures WfScope(Scope())
    {
    }

    constructor ()
      ensures Valid() && levels == [LevelInfo(0, [])] && varNames == map[] && functions == map[] && outer == []
    {
      levels, varNames, functions, outer := [LevelInfo(0, [])], map[], map[], [];
    }

    method NewScope()
      requires Valid()
      modifies this`levels, this`outer
      ensures Valid() && Scope() == old(Scope())
      ensures levels == old(levels) + [LevelInfo(old(Scope()).sp, [])] && outer == old(outer) + [varNames]
    {
      hide Nested;
      NestedNew(levels, varNames, outer);
      levels := levels + [LevelInfo(levels[|levels| - 1].sp, [])];
      outer := outer + [varNames];
    }

    /** Closing a scope restores the names and the register counter from before it was
        opened, whatever happened inside. */
    method CloseScope()
      requires Valid() && outer != []
      modifies this`levels, this`varNames, this`outer
      ensures Valid() && varNames == old(outer[|outer| - 1])
      ensures levels == old(levels)[..|old(levels)| - 1] && outer == old(outer)[..|old(outer)| - 1]
    {
      hide Nested, Covers;
      var vars := levels[|levels| - 1].vars;
      ghost var names := varNames;
      NestedOuter(levels, varNames, outer);
      for i := 0 to |vars|
        invariant varNames == Erase(names, First(vars, i))
        modifies this`varNames
      {
        EraseNext(names, vars, i);
        varNames := varNames - {vars[i]};
      }
      CoversErased(names, vars, outer[|outer| - 1]);
      levels := levels[..|levels| - 1];
      outer := outer[..|outer| - 1];
    }

    /** `last`. */
    function Last(): int
      reads this
    {
      levels[|levels| - 1].sp - 1
    }

    method SetSp(sp: nat)
      requires Valid() && forall x | x in Scope().names :: Scope().names[x] < sp
      modifies this`levels
      ensures Valid() && Scope() == old(Scope()).(sp := sp)
      ensures levels == Raised(old(levels), sp)
    {
      hide Nested;
      assert Scope() == ScopeOf(levels, varNames);
      NestedRaised(levels, varNames, outer, sp) by { ScopeIsOk(); }
      var n := |levels| - 1;
      levels := levels[n := levels[n].(sp := sp)];
    }

    /** `push_var()`: a register for a temporary. */
    method PushVar() returns (r: nat)
      requires Valid()
      modifies this`levels
      ensures Valid() && r == old(Scope()).sp && Scope() == old(Scope()).(sp := r + 1)
      ensures levels == Raised(old(levels), r + 1)
    {
      r := levels[|levels| - 1].sp;
      SetSp(r + 1);
    }

    /** `pop_var()`: the register on top must not be a variable's. */
    method PopVar() returns (r: nat)
      requires Valid() && Scope().sp > 0 && forall x | x in Scope().names :: Scope().names[x] < Scope().sp - 1
      modifies this`levels
      ensures Valid() && r == old(Scope()).sp - 1 && Scope() == old(Scope()).(sp := r)
      ensures levels == Raised(old(levels), r)
    {
      r := levels[|levels| - 1].sp - 1;
      SetSp(r);
    }

    /** `drop(n)`. */
    method Drop(n: nat)
      requires Valid() && Scope().sp >= n && forall x | x in Scope().names :: Scope().names[x] < Scope().sp - n
      modifies this`levels
      ensures Valid() && Scope() == old(Scope()).(sp := old(Scope()).sp - n)
      ensures levels == Raised(old(levels), old(Scope()).sp - n)
    {
      SetSp(levels[|levels| - 1].sp - n);
    }

    /** `push_var(name)`: the first free register becomes the variable's. */
    method PushNamed(name: string) returns (r: nat)
      requires Valid() && name !in varNames
      modifies this`levels, this`varNames
      ensures Valid() && r == old(Scope()).sp
      ensures Scope() == Codegen.Scope(old(Scope()).names[name := r], r + 1)
      ensures |levels| == |old(levels)| && levels[..|levels| - 1] == old(levels)[..|levels| - 1]
    {
      hide Nested;
      NestedMore(levels, varNames, outer, name);
      var n := |levels| - 1;
      r := levels[n].sp;
      varNames := varNames[name := (r, |levels|)];
      levels := levels[n := LevelInfo(r + 1, levels[n].vars + [name])];
    }

    /** `get_var`. */
    method GetVar(name: string) returns (r: Option<nat>)
      requires Valid()
      ensures r == if name in Scope().names then Some(Scope().names[name]) else None
    {
      r := if name in varNames then Some(varNames[name].0) else None;
    }

    /** `add_func`: a name that is taken is refused. */
    method AddFunc(name: string, fid: nat) returns (ok: bool)
      requires Valid()
      modifies this`functions
      ensures Valid() && ok == (name !in old(functions))
      ensures functions == if ok then old(functions)[name := fid] else old(functions)
    {
      ok := name !in functions;
      if ok { functions := functions[name := fid]; }
    }
  }
}
