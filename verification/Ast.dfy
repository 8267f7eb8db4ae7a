/** Abstract syntax produced by the parser (src/ast.h, src/parser.cpp). */
module Ast {

  /** The binary operators of the expression grammar. `Gr` and `Ge` have no
      machine instruction of their own. */
  datatype Operator = OAdd | OSub | OMul | ODiv | OMod | OEq | ONeq | OLe | OLs | OGr | OGe

  datatype Expr =
    | Var(name: string)
    | IntLit(number: int)
    | Neg(operand: Expr)
    | Bin(op: Operator, l: Expr, r: Expr)
    | Call(callee: Expr, args: seq<Expr>)
    | Index(base: Expr, index: Expr)

  /** `=`, `+=`, `-=`, `*=` and `/=`. */
  datatype AssignOp = Set | PlusEq | MinusEq | MulEq | DivEq

  /** The body of a conditional or a loop: braced, or one statement. */
  datatype Body = Block(stmts: seq<Stmt>) | Single(stmt: Stmt)

  /** The assignments and expressions that may also stand in a `for` header. */
  datatype Simple =
    | Assign(aop: AssignOp, lhs: Expr, rhs: Expr)
    | Eval(e: Expr)

  datatype Else = NoElse | Else(body: Body)
  datatype Init = NoInit | Init(init: Simple)

  datatype Stmt =
    | Do(simple: Simple)
    | If(cond: Expr, thn: Body, els: Else)
    | While(cond: Expr, body: Body)
    | For(init: Init, cond: Expr, inc: Simple, body: Body)
    | Return(e: Expr)
    | Break

  datatype Function = Function(name: string, params: seq<string>, body: seq<Stmt>)

  type Source = seq<Function>

  predicate Distinct(names: seq<string>) {
    forall i, j | 0 <= i < j < |names| :: names[i] != names[j]
  }

  /** The names that occur in an expression. */
  function Mentioned(e: Expr): set<string>
    decreases e, 0
  {
    match e
    case Var(name) => {name}
    case IntLit(_) => {}
    case Neg(e1) => Mentioned(e1)
    case Bin(_, l, r) => Mentioned(l) + Mentioned(r)
    case Index(b, i) => Mentioned(b) + Mentioned(i)
    case Call(f, args) => Mentioned(f) + MentionedAll(args)
  }

  function MentionedAll(es: seq<Expr>): set<string>
    decreases es, 0
  {
    if es == [] then {} else Mentioned(es[0]) + MentionedAll(es[1..])
  }
}
