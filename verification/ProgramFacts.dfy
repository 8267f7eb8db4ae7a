/** What the one-pass compiler keeps true from function to function, and why a program
    that is refused half way is refused by the linker's specification too. */
module ProgramFacts {
  import opened Values
  import opened Ast
  import opened Tokens
  import opened Pratt
  import opened Syntax
  import opened Codegen
  import opened CodegenFacts
  import opened SourceSemantics
  import opened Linker
  import opened Emitter
  import Bytecode

  /** Every function compiles, its jumps resolve, and no name is taken twice. */
  ghost predicate Accepted(src: Source) {
    && CompileUpTo(src, |src|).Some? && DistinctNames(src)
    && forall k | 0 <= k < |src| :: Resolvable(CompileUpTo(src, |src|).value.0[k])
  }

  /** The functions that the last one can call: all before it and itself. */
  function Table(src: Source): Names {
    if src == [] then map[] else FuncTable(src, |src| - 1)
  }

  lemma {:induction false} TablePrefix(src: Source, more: Source, k: nat)
    requires k < |src|
    ensures FuncTable(src + more, k) == FuncTable(src, k)
    decreases k
  {
    if k > 0 { TablePrefix(src, more, k - 1); }
  }

  lemma {:induction false} TableNext(src: Source, f: Function)
    ensures Table(src + [f]) == Table(src)[f.name := |src|]
    ensures FuncTable(src + [f], |src|) == Table(src)[f.name := |src|]
  {
    if src != [] { TablePrefix(src, [f], |src| - 1); }
  }

  lemma {:induction false} TableNames(src: Source)
    ensures forall name :: name in Table(src) <==> exists k :: 0 <= k < |src| && src[k].name == name
  {
    if src != [] {
      var front, last := src[..|src| - 1], src[|src| - 1];
      assert src == front + [last];
      TableNames(front);
      TableNext(front, last);
      forall name ensures name in Table(src) <==> exists k :: 0 <= k < |src| && src[k].name == name {
        if name in Table(front) {
          var k :| 0 <= k < |front| && front[k].name == name;
          assert src[k].name == name;
        }
        if name == last.name { assert src[|src| - 1].name == name; }
        if exists k :: 0 <= k < |src| && src[k].name == name {
          var k :| 0 <= k < |src| && src[k].name == name;
          if k < |front| { assert front[k].name == name; }
        }
      }
    }
  }

  lemma {:induction false} UpToPrefix(src: Source, more: Source, n: nat)
    requires n <= |src|
    ensures CompileUpTo(src + more, n) == CompileUpTo(src, n)
    decreases n
  {
    hide CompileFunction, FuncTable;
    if n > 0 {
      UpToPrefix(src, more, n - 1);
      TablePrefix(src, more, n - 1);
      assert (src + more)[n - 1] == src[n - 1];
    }
  }

  /** Compiling one more function. */
  lemma UpToNext(src: Source, f: Function)
    requires CompileUpTo(src, |src|).Some?
    ensures var (ems, uid) := CompileUpTo(src, |src|).value;
            CompileUpTo(src + [f], |src| + 1) ==
            match CompileFunction(f, Table(src)[f.name := |src|], uid)
            case None => None
            case Some(em) => Some((ems + [em], em.uid))
  {
    hide CompileFunction, FuncTable, Table;
    UpToPrefix(src, [f], |src|);
    TableNext(src, f);
    assert (src + [f])[|src|] == f;
  }

  lemma {:induction false} EarlierEms(src: Source, n: nat, m: nat)
    requires n <= m <= |src| && CompileUpTo(src, m).Some?
    ensures CompileUpTo(src, n).Some? && CompileUpTo(src, m).value.0[..n] == CompileUpTo(src, n).value.0
    decreases m
  {
    hide CompileFunction, FuncTable;
    if n < m { EarlierEms(src, n, m - 1); }
  }

  /** A prefix that is not accepted spoils the whole program. */
  lemma RefusedEarly(src: Source, more: Source)
    requires !Accepted(src)
    ensures !Accepted(src + more)
  {
    hide CompileUpTo, Resolvable;
    if Accepted(src + more) {
      var all := src + more;
      EarlierEms(all, |src|, |all|);
      UpToPrefix(src, more, |src|);
      forall i, j | 0 <= i < j < |src| ensures src[i].name != src[j].name {
        assert all[i] == src[i] && all[j] == src[j];
      }
      forall k | 0 <= k < |src| ensures Resolvable(CompileUpTo(src, |src|).value.0[k]) {
        assert CompileUpTo(all, |all|).value.0[..|src|][k] == CompileUpTo(all, |all|).value.0[k];
      }
    }
  }

  lemma NameTaken(src: Source, f: Function)
    ensures DistinctNames(src + [f]) <==> DistinctNames(src) && f.name !in Table(src)
  {
    hide Table;
    var all := src + [f];
    TableNames(src);
    if DistinctNames(all) {
      forall k | 0 <= k < |src| ensures src[k].name != f.name {
        assert all[k].name != all[|src|].name;
      }
      forall i, j | 0 <= i < j < |src| ensures src[i].name != src[j].name {
        assert all[i] == src[i] && all[j] == src[j];
      }
    }
    if DistinctNames(src) && f.name !in Table(src) {
      forall i, j | 0 <= i < j < |all| ensures all[i].name != all[j].name {
        assert all[i] == src[i];
        if j < |src| { assert all[j] == src[j]; }
      }
    }
  }

  lemma AcceptedNext(src: Source, f: Function)
    requires Accepted(src)
    ensures Accepted(src + [f]) <==>
              && f.name !in Table(src)
              && CompileUpTo(src + [f], |src| + 1).Some?
              && Resolvable(CompileUpTo(src + [f], |src| + 1).value.0[|src|])
  {
    hide CompileUpTo, Resolvable, Table, DistinctNames;
    var all := src + [f];
    if CompileUpTo(all, |all|).Some? {
      EarlierEms(all, |src|, |all|);
      UpToPrefix(src, [f], |src|);
      forall k | 0 <= k < |src| ensures Resolvable(CompileUpTo(all, |all|).value.0[k]) {
        assert CompileUpTo(all, |all|).value.0[..|src|][k] == CompileUpTo(all, |all|).value.0[k];
      }
    }
    NameTaken(src, f);
  }

  /** The functions the emitter has finished are those of `src`. */
  ghost predicate Headed(funcs: seq<EmitFunc>, src: Source) {
    |funcs| == |src| && forall k | 0 <= k < |src| :: funcs[k].name == src[k].name && funcs[k].arity == |src[k].params|
  }

  lemma {:induction false} MainFound(funcs: seq<EmitFunc>, src: Source)
    requires Headed(funcs, src)
    ensures LastNamed(funcs, "main") == MainIndex(src)
    decreases |src|
  {
    if src != [] {
      MainFound(funcs[..|src| - 1], src[..|src| - 1]);
    }
  }

  /** What the linker makes of an accepted program. */
  lemma Linked(src: Source, funcs: seq<EmitFunc>, ems: seq<Emit>, uid: nat, pool: seq<int32>)
    requires Headed(funcs, src) && |ems| == |src| && CompileUpTo(src, |src|) == Some((ems, uid))
    requires Pooled(pool, ems, [])
    ensures Accepted(src) ==>
              Link(src) == match LastNamed(funcs, "main")
                           case None => None
                           case Some(m) =>
                             Some(Image(Concat(ems, pool) + [Bytecode.EncodeABC(Bytecode.CALL, m, 0, 0),
                                 Bytecode.EncodeABx(Bytecode.HALT, 0, 0)],
                                        pool, Infos(ems, funcs), |Concat(ems, pool)|))
    ensures !Accepted(src) ==> Link(src) == None
  {
    hide CompileUpTo, Resolvable, Concat, PoolOf, MainIndex, LastNamed;
    MainFound(funcs, src);
    assert Infos(ems, funcs) == FuncInfos(src, ems);
  }

  lemma NotLinked(src: Source)
    requires !Accepted(src)
    ensures Link(src) == None
  {
    hide CompileUpTo, Resolvable, Concat, PoolOf, MainIndex;
  }

  /** The functions read so far, and those that are still to come. */
  function ProgramFrom(src: Source, ts: Input): Option<Source> {
    var more :- ParseProgram(ts);
    Some(src + more)
  }

  lemma ProgramUnfolds(src: Source, ts: Input)
    ensures ProgramFrom(src, ts) ==
            if ts == [] then Some(src)
            else if !ts[0].FN? then None
            else
              match ParseFunction(ts[1..])
              case None => None
              case Some((f, rest)) => ProgramFrom(src + [f], rest)
  {
    hide ParseFunction;
    if ts == [] {
      assert src + [] == src;
    } else if ts[0].FN? && ParseFunction(ts[1..]).Some? {
      var (f, rest) := ParseFunction(ts[1..]).value;
      if ParseProgram(rest).Some? {
        assert src + ([f] + ParseProgram(rest).value) == (src + [f]) + ParseProgram(rest).value;
      }
    }
  }

  /** The names of a parameter list, in order. */
  lemma ParamsNext(params: seq<string>, i: nat)
    requires i < |params|
    ensures ParamNames(params[..i + 1]) == ParamNames(params[..i])[params[i] := i]
    ensures forall x :: x in ParamNames(params[..i]) <==> x in params[..i]
  {
    assert params[..i + 1][..i] == params[..i];
    ParamDomain(params[..i]);
  }

  lemma {:induction false} ParamDomain(params: seq<string>)
    ensures forall x :: x in ParamNames(params) <==> x in params
  {
    if params != [] {
      ParamDomain(params[..|params| - 1]);
    }
  }
}
