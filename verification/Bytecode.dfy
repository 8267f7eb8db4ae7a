/** Instruction words: an opcode in the top 6 bits, `a` in the next 8, then
    either `b` and `c` in 9 bits each or one 18-bit field `bx`
    (src/vm.h, src/vm.cpp). */
module Bytecode {

  datatype Op =
    | LOADINT | MOVE | LOADNIL | ADD | SUB | MUL | DIV | MOD | NEG | EQ | NEQ | LT | LE
    | JMP | JMPT | JMPF | CALL | NATIVE_CALL | INVOKEDYNAMIC | RETURN | RETURNNIL | HALT
    | LOADFUNC | LOADFLOAT | ALLOC | ARRGET | ARRSET | TAILCALL

  const OPS: seq<Op> :=
    [LOADINT, MOVE, LOADNIL, ADD, SUB, MUL, DIV, MOD, NEG, EQ, NEQ, LT, LE,
     JMP, JMPT, JMPF, CALL, NATIVE_CALL, INVOKEDYNAMIC, RETURN, RETURNNIL, HALT,
     LOADFUNC, LOADFLOAT, ALLOC, ARRGET, ARRSET, TAILCALL]

  /** The position of an opcode in the enumeration. */
  function OpNum(op: Op): (n: nat)
    ensures n < |OPS| && OPS[n] == op
  {
    match op
    case LOADINT => 0 case MOVE => 1 case LOADNIL => 2 case ADD => 3 case SUB => 4
    case MUL => 5 case DIV => 6 case MOD => 7 case NEG => 8 case EQ => 9
    case NEQ => 10 case LT => 11 case LE => 12 case JMP => 13 case JMPT => 14
    case JMPF => 15 case CALL => 16 case NATIVE_CALL => 17 case INVOKEDYNAMIC => 18 case RETURN => 19
    case RETURNNIL => 20 case HALT => 21 case LOADFUNC => 22 case LOADFLOAT => 23 case ALLOC => 24
    case ARRGET => 25 case ARRSET => 26 case TAILCALL => 27
  }

  const OPCODE_UNIT: nat := 0x400_0000
  const A_UNIT: nat := 0x4_0000
  const B_UNIT: nat := 0x200
  const BYTE: nat := 0x100
  const BX_LIMIT: nat := 0x4_0000
  const J_ZERO: nat := 0x1_FFFF

  type Word = w: nat | w < 0x1_0000_0000

  /** A fetched instruction: every field the dispatch loop extracts. `known` is
      false for opcode numbers outside the enumeration. */
  datatype Instr = Instr(known: bool, op: Op, a: nat, b: nat, c: nat, bx: nat)
  {
    /** Jump offsets are stored with a bias. */
    function Sbx(): int { bx - J_ZERO }
  }

  /** `opcode(op, a, b, c)`: the arguments are bytes, so larger ones are cut. */
  function EncodeABC(op: Op, a: nat, b: nat, c: nat): Word {
    OpNum(op) * OPCODE_UNIT + a % BYTE * A_UNIT + b % BYTE * B_UNIT + c % BYTE
  }

  /** `opcode(op, a, bx)`. */
  function EncodeABx(op: Op, a: nat, bx: nat): Word
    requires bx < BX_LIMIT
  {
    OpNum(op) * OPCODE_UNIT + a % BYTE * A_UNIT + bx
  }

  function OpField(w: Word): nat { w / OPCODE_UNIT }
  function AField(w: Word): nat { w / A_UNIT % BYTE }
  function BField(w: Word): nat { w / B_UNIT % 0x200 % BYTE }
  function CField(w: Word): nat { w % BYTE }
  function BxField(w: Word): nat { w % BX_LIMIT }

  function Decode(w: Word): Instr {
    var n := OpField(w);
    Instr(n < |OPS|, if n < |OPS| then OPS[n] else TAILCALL,
          AField(w), BField(w), CField(w), BxField(w))
  }

  /** The fields on top of a word, and what is below them. */
  lemma HighFields(n: nat, a: nat, low: nat, w: Word)
    requires a < BYTE && low < A_UNIT && w == n * OPCODE_UNIT + a * A_UNIT + low
    ensures OpField(w) == n && AField(w) == a && BxField(w) == low
  {
    var x := n * BYTE + a;
    assert w == x * A_UNIT + low;
    assert w / A_UNIT == x;
    ByteAndRest(x, n, a);
  }

  lemma ByteAndRest(w: nat, x: nat, c: nat)
    requires c < BYTE && w == x * BYTE + c
    ensures w / BYTE == x && w % BYTE == c
  {
  }

  /** The two fields at the bottom. */
  lemma LowFields(w: Word, b: nat, c: nat)
    requires b < BYTE && c < BYTE && BxField(w) == b * B_UNIT + c
    ensures BField(w) == b && CField(w) == c
  {
    var q := w / A_UNIT;
    var x := q * 0x200 + b;
    assert w == x * B_UNIT + c;
    assert w / B_UNIT == x;
    assert x % 0x200 == b;
    ByteAndRest(w, x * 2, c);
  }

  /** Three-register instructions come back field by field. */
  lemma DecodeABC(op: Op, a: nat, b: nat, c: nat)
    ensures var i := Decode(EncodeABC(op, a, b, c));
            i.known && i.op == op && i.a == a % BYTE && i.b == b % BYTE && i.c == c % BYTE
  {
    hide OpField, AField, BField, CField, BxField, OpNum;
    HighFields(OpNum(op), a % BYTE, b % BYTE * B_UNIT + c % BYTE, EncodeABC(op, a, b, c));
    LowFields(EncodeABC(op, a, b, c), b % BYTE, c % BYTE);
  }

  /** So do instructions with a wide operand. */
  lemma DecodeABx(op: Op, a: nat, bx: nat)
    requires bx < BX_LIMIT
    ensures var i := Decode(EncodeABx(op, a, bx));
            i.known && i.op == op && i.a == a % BYTE && i.bx == bx
  {
    hide OpField, AField, BField, CField, BxField, OpNum;
    HighFields(OpNum(op), a % BYTE, bx, EncodeABx(op, a, bx));
  }

  /** Where the fields are: the opcode from bit 26 on, `a` in bits 18 to 25, `b` in bits 9
      to 17 and `c` in bits 0 to 8, or a wide operand in bits 0 to 17, as a jump offset with
      131071 for zero. */
  lemma WordLayout(op: Op, a: nat, b: nat, c: nat, bx: nat)
    requires a < 0x100 && b < 0x100 && c < 0x100 && bx < 0x4_0000
    ensures var w := EncodeABC(op, a, b, c);
            w / 0x400_0000 == OpNum(op) && w / 0x4_0000 % 0x100 == a && w % 0x4_0000 == b * 0x200 + c
    ensures var w := EncodeABx(op, a, bx);
            && w / 0x400_0000 == OpNum(op) && w / 0x4_0000 % 0x100 == a && w % 0x4_0000 == bx
            && Decode(w).Sbx() == bx - 131071
  {
    hide OpNum;
    HighFields(OpNum(op), a, b * 0x200 + c, EncodeABC(op, a, b, c));
    HighFields(OpNum(op), a, bx, EncodeABx(op, a, bx));
  }

  /** Re-encoding the opcode and `a` of a word with a new wide operand, which is
      how a jump is patched, changes nothing but that operand. */
  lemma PatchKeepsOpAndA(w: Word, bx: nat)
    requires Decode(w).known && bx < BX_LIMIT
    ensures var i := Decode(EncodeABx(Decode(w).op, AField(w), bx));
            i.known && i.op == Decode(w).op && i.a == Decode(w).a && i.bx == bx
  {
    hide OpField, BField, CField, BxField, EncodeABx;
    DecodeABx(Decode(w).op, AField(w), bx);
  }
}
