/** The token stream with its one token of lookahead (src/lexer.cpp). Characters are
    not modelled: `input` holds the tokens that `get_tok_core` would make of them. */
module Lexing {
  import opened Values
  import opened Tokens
  import opened Pratt
  import Ast
  import opened Syntax

  /** The same token, up to its text. */
  ghost predicate Alike(t: Token, t1: Token) {
    t == t1 || (t.IDENTIFIER? && t1.IDENTIFIER?) || (t.NUMBER? && t1.NUMBER?) || (t.STRING? && t1.STRING?)
  }

  /** The same token list, up to the text of its first token. */
  ghost predicate AlikeInput(ts: Input, ts1: Input) {
    ts == ts1 || (ts != [] && ts1 != [] && Alike(ts[0], ts1[0]) && ts[1..] == ts1[1..])
  }

  /** Behind an expression the text of the next token does not matter: a name, number
      or string there is an error whatever it says. */
  lemma TextDoesNotMatter(lhs: Ast.Expr, ts: Input, ts1: Input, p: nat)
    requires AlikeInput(ts, ts1) && p <= PREC_PRIMARY
    ensures ParseInfix(lhs, ts, p) == ParseInfix(lhs, ts1, p)
  {
    hide RuleOf, Prec;
    if ts != ts1 {
      PrecedenceInEffect(ts[0]);
      PrecedenceInEffect(ts1[0]);
      InfixInEffect(ts[0]);
      InfixInEffect(ts1[0]);
    }
  }

  class Lexer {
    const input: seq<Token>
    var next: nat
    var cur: Token
    var prv: Token
    var nxt: Option<Token>

    ghost predicate Valid()
      reads this
    {
      && next <= |input| && (forall t | t in input :: !t.EOF?)
      && (cur.EOF? || nxt == Some(EOF) ==> next == |input|)
      && (cur.EOF? ==> nxt.None?)
    }

    /** The tokens from the current one on. */
    function Ahead(): Input
      reads this
    {
      if cur.EOF? then []
      else [cur] + (if nxt.Some? && !nxt.value.EOF? then [nxt.value] else []) + (if next <= |input| then input[next..]
          else [])
    }

    constructor (input: seq<Token>)
      requires forall t | t in input :: !t.EOF?
      ensures Valid() && Ahead() == input && nxt.None? && this.input == input
    {
      this.input := input;
      next, cur, prv, nxt := 0, UNKNOWN, UNKNOWN, None;
      new;
      GetTok();
    }

    /** `get_tok`. When a token had been put back, its text is moved on into `prv`, and
        what is left in `cur` is unspecified. */
    method GetTok()
      requires Valid()
      modifies this`next, this`cur, this`prv, this`nxt
      ensures Valid() && nxt.None?
      ensures old(nxt).None? ==> Ahead() == Tail(old(Ahead())) && prv == old(cur)
      ensures AlikeInput(Ahead(), Tail(old(Ahead())))
    {
      if nxt.Some? {
        var lost: string := *;
        prv := nxt.value;
        cur := match nxt.value
          case IDENTIFIER(_) => IDENTIFIER(lost)
          case NUMBER(_) => NUMBER(lost)
          case STRING(_) => STRING(lost)
          case t => t;
        nxt := None;
      } else {
        prv := cur;
        if next < |input| {
          cur := input[next];
          next := next + 1;
        } else {
          cur := EOF;
        }
      }
    }

    /** `roll_back`: only possible right after a token has been read normally. */
    method RollBack()
      requires Valid() && nxt.None? && !prv.EOF?
      modifies this`cur, this`prv, this`nxt
      ensures Valid() && Ahead() == [old(prv)] + old(Ahead()) && cur == old(prv)
    {
      nxt := Some(cur);
      cur := prv;
      prv := UNKNOWN;
    }

    lemma Front()
      ensures if cur.EOF? then Ahead() == [] else Ahead() != [] && Ahead()[0] == cur
    {
    }

    /** `match`, for tokens that carry no text. */
    method Match(t: Token) returns (ok: bool)
      requires Valid() && nxt.None? && !t.EOF?
      modifies this`next, this`cur, this`prv, this`nxt
      ensures Valid() && nxt.None? && ok == (Head(old(Ahead())) == t)
      ensures Expect(old(Ahead()), t) == if ok then Some(Ahead()) else None
      ensures if ok then old(Ahead()) == [t] + Ahead() && prv == t
                else Ahead() == old(Ahead()) && cur == old(cur) && prv == old(prv)
    {
      hide Lexer.Ahead, Lexer.Valid, AlikeInput;
      Front();
      if cur != t { return false; }
      GetTok();
      ok := true;
    }
  }
}
