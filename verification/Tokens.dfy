/** Tokens and the table of parsing rules (src/lexer.h, src/parser.h, src/parser.cpp). */
module Tokens {

  datatype Token =
    | EOF | PLUS | MINUS | STAR | SLASH | PERCENT
    | IDENTIFIER(name: string) | NUMBER(text: string) | STRING(lit: string)
    | LBRACKET | RBRACKET | LPAREN | RPAREN | LCURLY | RCURLY
    | FN | CONTINUE | BREAK | IF | ELSE | FOR | WHILE | RETURN
    | ASSIGN | PLUS_EQ | MINUS_EQ | MUL_EQ | DIV_EQ
    | AND | OR | EQUAL | NOT_EQUAL | LESS | LESS_EQ | GREATER | GREATER_EQ
    | SEMICOLON | COMMA | DOT | UNKNOWN

  /** The number of a token in the enumeration, which is its row in the rule table. */
  function Row(t: Token): (r: nat)
    ensures r < |RULES|
  {
    match t
    case EOF => 0 case PLUS => 1 case MINUS => 2 case STAR => 3 case SLASH => 4 case PERCENT => 5
    case IDENTIFIER(_) => 6 case NUMBER(_) => 7 case STRING(_) => 8
    case LBRACKET => 9 case RBRACKET => 10 case LPAREN => 11 case RPAREN => 12 case LCURLY => 13 case RCURLY => 14
    case FN => 15 case CONTINUE => 16 case BREAK => 17 case IF => 18 case ELSE => 19
    case FOR => 20 case WHILE => 21 case RETURN => 22
    case ASSIGN => 23 case PLUS_EQ => 24 case MINUS_EQ => 25 case MUL_EQ => 26 case DIV_EQ => 27
    case AND => 28 case OR => 29 case EQUAL => 30 case NOT_EQUAL => 31
    case LESS => 32 case LESS_EQ => 33 case GREATER => 34 case GREATER_EQ => 35
    case SEMICOLON => 36 case COMMA => 37 case DOT => 38 case UNKNOWN => 39
  }

  datatype Prefix = NoPrefix | PfnIdentifier | PfnNumber | PfnString | PfnUnary | PfnGrouping
  datatype Infix = NoInfix | IfnBinary | IfnCall | IfnArrayGet | IfnMember

  datatype Rule = Rule(prefix: Prefix, infix: Infix, precedence: nat)

  const PREC_NONE: nat := 0
  const PREC_TEMP: nat := 1
  const PREC_OR: nat := 2
  const PREC_AND: nat := 3
  const PREC_EQ: nat := 4
  const PREC_CMP: nat := 5
  const PREC_ADD: nat := 6
  const PREC_FACTOR: nat := 7
  const PREC_UNARY: nat := 8
  const PREC_CALL: nat := 9
  const PREC_PRIMARY: nat := 10

  const NO_RULE: Rule := Rule(NoPrefix, NoInfix, PREC_NONE)

  /** The table as it is written down. Its rows 28 to 31 are labelled `==`, `!=`, `and`,
      `or`, but the enumeration has `and`, `or`, `==`, `!=` there. */
  const RULES: seq<Rule> := [
    /* EOF */        NO_RULE,
    /* ADD */        Rule(NoPrefix, IfnBinary, PREC_ADD),
    /* SUB */        Rule(PfnUnary, IfnBinary, PREC_ADD),
    /* MUL */        Rule(NoPrefix, IfnBinary, PREC_FACTOR),
    /* DIV */        Rule(NoPrefix, IfnBinary, PREC_FACTOR),
    /* MOD */        Rule(NoPrefix, IfnBinary, PREC_FACTOR),
    /* IDENTIFIER */ Rule(PfnIdentifier, NoInfix, PREC_PRIMARY),
    /* NUMBER */     Rule(PfnNumber, NoInfix, PREC_PRIMARY),
    /* STR_LIT */    Rule(PfnString, NoInfix, PREC_PRIMARY),
    /* LBRACKET */   Rule(NoPrefix, IfnArrayGet, PREC_CALL),
    /* RBRACKET */   NO_RULE,
    /* LPAREN */     Rule(PfnGrouping, IfnCall, PREC_CALL),
    /* RPAREN */     NO_RULE,
    /* LCURLY */     NO_RULE,
    /* RCURLY */     NO_RULE,
    /* FN */         NO_RULE,
    /* CONTINUE */   NO_RULE,
    /* BREAK */      NO_RULE,
    /* IF */         NO_RULE,
    /* ELSE */       NO_RULE,
    /* FOR */        NO_RULE,
    /* WHILE */      NO_RULE,
    /* RETURN */     NO_RULE,
    /* ASSIGN */     NO_RULE,
    /* PLUS_EQ */    NO_RULE,
    /* MINUS_EQ */   NO_RULE,
    /* DIV_EQ */     NO_RULE,
    /* MUL_EQ */     NO_RULE,
    /* EQ */         Rule(NoPrefix, IfnBinary, PREC_EQ),
    /* NEQ */        Rule(NoPrefix, IfnBinary, PREC_EQ),
    /* AND */        Rule(NoPrefix, IfnBinary, PREC_AND),
    /* OR */         Rule(NoPrefix, IfnBinary, PREC_OR),
    /* LS */         Rule(NoPrefix, IfnBinary, PREC_CMP),
    /* LE */         Rule(NoPrefix, IfnBinary, PREC_CMP),
    /* GR */         Rule(NoPrefix, IfnBinary, PREC_CMP),
    /* GE */         Rule(NoPrefix, IfnBinary, PREC_CMP),
    /* SEMICOLON */  NO_RULE,
    /* COMMA */      NO_RULE,
    /* DOT */        Rule(NoPrefix, IfnMember, PREC_CALL),
    /* UNKNOWN */    NO_RULE
  ]

  function RuleOf(t: Token): Rule { RULES[Row(t)] }

  function Prec(t: Token): nat { RuleOf(t).precedence }

  /** What the table amounts to: because of the exchanged rows `==` binds like `and`
      was meant to, and `!=` like `or`. */
  function InEffect(t: Token): Rule {
    match t
    case PLUS => Rule(NoPrefix, IfnBinary, PREC_ADD)
    case MINUS => Rule(PfnUnary, IfnBinary, PREC_ADD)
    case STAR => Rule(NoPrefix, IfnBinary, PREC_FACTOR)
    case SLASH => Rule(NoPrefix, IfnBinary, PREC_FACTOR)
    case PERCENT => Rule(NoPrefix, IfnBinary, PREC_FACTOR)
    case IDENTIFIER(_) => Rule(PfnIdentifier, NoInfix, PREC_PRIMARY)
    case NUMBER(_) => Rule(PfnNumber, NoInfix, PREC_PRIMARY)
    case STRING(_) => Rule(PfnString, NoInfix, PREC_PRIMARY)
    case LBRACKET => Rule(NoPrefix, IfnArrayGet, PREC_CALL)
    case LPAREN => Rule(PfnGrouping, IfnCall, PREC_CALL)
    case DOT => Rule(NoPrefix, IfnMember, PREC_CALL)
    case AND => Rule(NoPrefix, IfnBinary, PREC_EQ)
    case OR => Rule(NoPrefix, IfnBinary, PREC_EQ)
    case EQUAL => Rule(NoPrefix, IfnBinary, PREC_AND)
    case NOT_EQUAL => Rule(NoPrefix, IfnBinary, PREC_OR)
    case LESS => Rule(NoPrefix, IfnBinary, PREC_CMP)
    case LESS_EQ => Rule(NoPrefix, IfnBinary, PREC_CMP)
    case GREATER => Rule(NoPrefix, IfnBinary, PREC_CMP)
    case GREATER_EQ => Rule(NoPrefix, IfnBinary, PREC_CMP)
    case _ => NO_RULE
  }

  lemma OperatorRows(t: Token)
    requires Row(t) < 6
    ensures RuleOf(t) == InEffect(t)
  {
  }

  lemma OperandRows(t: Token)
    requires 6 <= Row(t) < 12
    ensures RuleOf(t) == InEffect(t)
  {
  }

  lemma BracketRows(t: Token)
    requires 12 <= Row(t) < 18
    ensures RuleOf(t) == InEffect(t)
  {
  }

  lemma KeywordRows(t: Token)
    requires 18 <= Row(t) < 23
    ensures RuleOf(t) == InEffect(t)
  {
  }

  lemma AssignmentRows(t: Token)
    requires 23 <= Row(t) < 28
    ensures RuleOf(t) == InEffect(t)
  {
  }

  lemma EqualityRows(t: Token)
    requires 28 <= Row(t) < 31
    ensures RuleOf(t) == InEffect(t)
  {
  }

  lemma ComparisonRows(t: Token)
    requires 31 <= Row(t) < 34
    ensures RuleOf(t) == InEffect(t)
  {
  }

  lemma LastRows(t: Token)
    requires 34 <= Row(t)
    ensures RuleOf(t) == InEffect(t)
  {
  }

  lemma RuleInEffect(t: Token)
    ensures RuleOf(t) == InEffect(t)
  {
    hide RuleOf, InEffect, Row;
    var row := Row(t);
    if row < 6 {
      OperatorRows(t);
    } else if row < 12 {
      OperandRows(t);
    } else if row < 18 {
      BracketRows(t);
    } else if row < 23 {
      KeywordRows(t);
    } else if row < 28 {
      AssignmentRows(t);
    } else if row < 31 {
      EqualityRows(t);
    } else if row < 34 {
      ComparisonRows(t);
    } else {
      LastRows(t);
    }
  }

  lemma PrecedenceInEffect(t: Token)
    ensures Prec(t) == InEffect(t).precedence
  {
    hide RuleOf;
    RuleInEffect(t);
  }

  lemma PrefixInEffect(t: Token)
    ensures RuleOf(t).prefix == InEffect(t).prefix
  {
    hide RuleOf;
    RuleInEffect(t);
  }

  lemma InfixInEffect(t: Token)
    ensures RuleOf(t).infix == InEffect(t).infix
  {
    hide RuleOf;
    RuleInEffect(t);
  }
}
