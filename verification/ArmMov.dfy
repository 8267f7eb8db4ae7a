/** Materialising a constant on AArch64
    (libs/asmjit/src/asmjit/arm/a64assembler.cpp: encodeMovSequence32 and
    encodeMovSequence64; the instructions are those of section C6.2 of the Arm
    Architecture Reference Manual, DDI 0487). */
module ArmMov {

  const HALF: nat := 0x1_0000
  const ONES: nat := 0xFFFF

  type Half = h: nat | h < 0x1_0000

  type Word = w: nat | w < 0x1_0000_0000

  datatype Opc = MOVN | MOVZ | MOVK

  function OpcBits(o: Opc): nat {
    match o case MOVN => 0 case MOVZ => 2 case MOVK => 3
  }

  /** A move-wide instruction: `x` selects the 64-bit form, `hw` the halfword. */
  function Encode(o: Opc, x: nat, hw: nat, imm: Half, rd: nat): (w: Word)
    requires x < 2 && hw < 4 && rd < 32
  {
    x * 0x8000_0000 + OpcBits(o) * 0x2000_0000 + 0x25 * 0x80_0000 + hw * 0x20_0000 + imm * 32 + rd
  }

  /** A register as its four halfwords, lowest first. */
  type Reg = r: seq<Half> | |r| == 4 witness [0, 0, 0, 0]

  function Value(r: Reg): nat {
    r[0] + HALF * (r[1] + HALF * (r[2] + HALF * r[3]))
  }

  function Halves(v: nat): Reg {
    [v % HALF, v / HALF % HALF, v / HALF / HALF % HALF, v / HALF / HALF / HALF % HALF]
  }

  lemma HalvesBack(v: nat)
    requires v < 0x1_0000_0000_0000_0000
    ensures Value(Halves(v)) == v
  {
    var a := v / HALF;
    var b := a / HALF;
    var c := b / HALF;
    assert v == v % HALF + HALF * a && a == a % HALF + HALF * b && b == b % HALF + HALF * c;
    assert c < HALF;
  }

  /** What the machine does with a move-wide word. The 32-bit forms clear the upper half
      of the register. */
  function Exec(w: Word, r: Reg): Reg {
    var x, opc, hw := w / 0x8000_0000, w / 0x2000_0000 % 4, w / 0x20_0000 % 4;
    var imm: Half := w / 32 % HALF;
    var base: Reg :=
      if opc == 0 then [ONES, ONES, ONES, ONES] else if opc == 2 then [0, 0, 0, 0] else r;
    var r1: Reg := base[hw := if opc == 0 then ONES - imm else imm];
    if x == 1 then r1 else [r1[0], r1[1], 0, 0]
  }

  /** A word of this class: bits 28 to 23 are 100101, the opcode is one of the three, and
      the 32-bit forms have two halfwords only. Any other word is no move-wide instruction. */
  predicate MoveWide(w: Word) {
    && w / 0x80_0000 % 0x40 == 0x25 && w / 0x2000_0000 % 4 != 1
    && (w / 0x8000_0000 == 0 ==> w / 0x20_0000 % 4 < 2)
  }

  /** The word is a move-wide instruction for register `rd`. */
  predicate Writes(w: Word, rd: nat) { MoveWide(w) && w % 32 == rd }

  function ExecAll(ws: seq<Word>, r: Reg): Reg
    decreases |ws|
  {
    if ws == [] then r else Exec(ws[|ws| - 1], ExecAll(ws[..|ws| - 1], r))
  }

  /** Encoding and decoding agree. */
  lemma ExecEncoded(o: Opc, x: nat, hw: nat, imm: Half, rd: nat, r: Reg)
    requires x < 2 && hw < 4 && rd < 32 && (x == 0 ==> hw < 2)
    ensures var base := match o case MOVN => [ONES, ONES, ONES, ONES] case MOVZ => [0, 0, 0, 0] case MOVK => r;
            var r1 := base[hw := if o.MOVN? then ONES - imm else imm];
            Exec(Encode(o, x, hw, imm, rd), r) == if x == 1 then r1 else [r1[0], r1[1], 0, 0]
    ensures Writes(Encode(o, x, hw, imm, rd), rd)
  {
    var w := Encode(o, x, hw, imm, rd);
    var low := hw * 0x20_0000 + imm * 32 + rd;
    assert low < 0x80_0000;
    assert w / 0x8000_0000 == x;
    assert w / 0x2000_0000 == x * 4 + OpcBits(o);
    assert w / 0x80_0000 == (x * 4 + OpcBits(o)) * 0x40 + 0x25;
    assert w / 0x20_0000 == (x * 4 + OpcBits(o)) * 0x100 + 0x25 * 4 + hw;
    assert w / 32 == (((x * 4 + OpcBits(o)) * 0x100 + 0x25 * 4 + hw) * HALF) + imm;
  }

  lemma ExecSnoc(ws: seq<Word>, w: Word, r: Reg)
    ensures ExecAll(ws + [w], r) == Exec(w, ExecAll(ws, r))
  {
    assert (ws + [w])[..|ws|] == ws;
  }

  /** The words write `rd` and nothing else, and leave the constant in it. */
  ghost predicate Materialises(ws: seq<Word>, imm: Reg, rd: nat) {
    && (forall w | w in ws :: Writes(w, rd))
    && forall r: Reg :: ExecAll(ws, r) == imm
  }

  function IsHalf(h: Half, v: nat): nat { if h == v then 1 else 0 }

  /** `countZeroHalfWords64`, for the constant itself and for its complement. */
  function CountHalves(imm: Reg, v: nat): nat {
    IsHalf(imm[0], v) + IsHalf(imm[1], v) + IsHalf(imm[2], v) + IsHalf(imm[3], v)
  }

  function Max(a: nat, b: nat): nat { if a >= b then a else b }

  /** `encodeMovSequence32`. */
  method EncodeMovSequence32(imm: Reg, rd: nat, x: nat) returns (out: seq<Word>)
    requires rd <= 31 && x < 2 && imm[2] == 0 && imm[3] == 0
    ensures Materialises(out, imm, rd)
    ensures |out| == if imm[0] == 0 || imm[0] == ONES || imm[1] == 0 || imm[1] == ONES then 1 else 2
  {
    hide Exec, Encode, Writes;
    if imm[1] == 0 {
      out := [Encode(MOVZ, x, 0, imm[0], rd)];
      OneWord(MOVZ, x, 0, imm[0], rd, imm);
    } else if imm[1] == ONES {
      out := [Encode(MOVN, 0, 0, ONES - imm[0], rd)];
      OneWord(MOVN, 0, 0, ONES - imm[0], rd, imm);
    } else if imm[0] == 0 {
      out := [Encode(MOVZ, x, 1, imm[1], rd)];
      OneWord(MOVZ, x, 1, imm[1], rd, imm);
    } else if imm[0] == ONES {
      out := [Encode(MOVN, 0, 1, ONES - imm[1], rd)];
      OneWord(MOVN, 0, 1, ONES - imm[1], rd, imm);
    } else {
      out := [Encode(MOVZ, x, 0, imm[0], rd), Encode(MOVK, 0, 1, imm[1], rd)];
      forall r: Reg ensures ExecAll(out, r) == imm {
        ExecEncoded(MOVZ, x, 0, imm[0], rd, r);
        ExecSnoc([], out[0], r);
        ExecEncoded(MOVK, 0, 1, imm[1], rd, ExecAll([out[0]], r));
        ExecSnoc([out[0]], out[1], r);
        assert out == [out[0]] + [out[1]] && [] + [out[0]] == [out[0]];
      }
      ExecEncoded(MOVZ, x, 0, imm[0], rd, imm);
      ExecEncoded(MOVK, 0, 1, imm[1], rd, imm);
    }
  }

  lemma OneWord(o: Opc, x: nat, hw: nat, h: Half, rd: nat, imm: Reg)
    requires rd < 32 && x < 2 && hw < 2 && !o.MOVK?
    requires var base := if o.MOVN? then [ONES, ONES, 0, 0] else [0, 0, 0, 0];
             imm == base[hw := if o.MOVN? then ONES - h else h] && (o.MOVN? ==> x == 0)
    ensures Materialises([Encode(o, x, hw, h, rd)], imm, rd)
  {
    hide Exec, Encode, Writes;
    var w := Encode(o, x, hw, h, rd);
    forall r: Reg ensures ExecAll([w], r) == imm {
      ExecEncoded(o, x, hw, h, rd, r);
      ExecSnoc([], w, r);
      assert [] + [w] == [w];
    }
    ExecEncoded(o, x, hw, h, rd, imm);
  }

  /** The register after the first `i` halfwords have been handled, starting from
      halfwords that are all `fill`. */
  function Done(imm: Reg, i: nat, fill: Half): Reg
    requires i <= 4
  {
    seq(4, k requires 0 <= k < 4 => if k < i then imm[k] else fill)
  }

  /** The loops of `encodeMovSequence64`: the first word sets all other halfwords to
      `fill`, the later ones keep them. */
  method MoveRest(imm: Reg, rd: nat, fill: Half) returns (out: seq<Word>)
    requires rd <= 31 && (fill == 0 || fill == ONES)
    ensures |out| == 4 - CountHalves(imm, fill)
    ensures forall w | w in out :: Writes(w, rd)
    ensures out != [] ==> forall r: Reg :: ExecAll(out, r) == imm
    ensures out == [] ==> imm == [fill, fill, fill, fill]
  {
    hide Exec, Encode, Writes, ExecAll, Done, Others, CountHalves;
    out := [];
    var op := if fill == 0 then MOVZ else MOVN;
    var negMask := fill;
    NothingDone(imm, fill);
    for i := 0 to 4
      invariant |out| == Others(imm, i, fill)
      invariant out == [] ==> op == (if fill == 0 then MOVZ else MOVN) && negMask == fill
      invariant out != [] ==> op == MOVK && negMask == 0 && forall r: Reg :: ExecAll(out, r) == Done(imm, i, fill)
      invariant out == [] ==> Done(imm, i, fill) == [fill, fill, fill, fill]
      invariant forall w | w in out :: Writes(w, rd)
    {
      DoneNext(imm, i, fill);
      if imm[i] != fill {
        var h: Half := if negMask == 0 then imm[i] else ONES - imm[i];
        MoveOne(imm, i, fill, out, op, h, rd);
        out := out + [Encode(op, 1, i, h, rd)];
        op := MOVK;
        negMask := 0;
      }
    }
    AllDone(imm, fill);
  }

  /** The number of halfwords other than `fill` among the first `i`. */
  function Others(imm: Reg, i: nat, fill: Half): nat
    requires i <= 4
  {
    if i == 0 then 0 else Others(imm, i - 1, fill) + if imm[i - 1] != fill then 1 else 0
  }

  lemma NothingDone(imm: Reg, fill: Half)
    ensures Others(imm, 0, fill) == 0 && Done(imm, 0, fill) == [fill, fill, fill, fill]
  {
  }

  lemma AllDone(imm: Reg, fill: Half)
    ensures Others(imm, 4, fill) == 4 - CountHalves(imm, fill) && Done(imm, 4, fill) == imm
  {
    NothingDone(imm, fill);
    DoneNext(imm, 0, fill);
    DoneNext(imm, 1, fill);
    DoneNext(imm, 2, fill);
    DoneNext(imm, 3, fill);
  }

  /** One more word: the first sets the other halfwords to `fill`, a later one keeps them. */
  lemma MoveOne(imm: Reg, i: nat, fill: Half, out: seq<Word>, op: Opc, h: Half, rd: nat)
    requires i < 4 && rd <= 31 && (fill == 0 || fill == ONES)
    requires if out == [] then
               && op == (if fill == 0 then MOVZ else MOVN) && h == (if fill == 0 then imm[i] else ONES - imm[i])
               && Done(imm, i, fill) == [fill, fill, fill, fill]
             else op == MOVK && h == imm[i] && forall r: Reg :: ExecAll(out, r) == Done(imm, i, fill)
    ensures Writes(Encode(op, 1, i, h, rd), rd)
    ensures forall r: Reg :: ExecAll(out + [Encode(op, 1, i, h, rd)], r) == Done(imm, i + 1, fill)
  {
    hide Exec, Encode, Writes, Done;
    var w := Encode(op, 1, i, h, rd);
    ExecEncoded(op, 1, i, h, rd, imm);
    DoneNext(imm, i, fill);
    forall r: Reg ensures ExecAll(out + [w], r) == Done(imm, i + 1, fill) {
      ExecSnoc(out, w, r);
      ExecEncoded(op, 1, i, h, rd, ExecAll(out, r));
    }
  }

  lemma DoneNext(imm: Reg, i: nat, fill: Half)
    requires i < 4
    ensures Done(imm, i + 1, fill) == Done(imm, i, fill)[i := imm[i]]
    ensures imm[i] == fill ==> Done(imm, i + 1, fill) == Done(imm, i, fill)
    ensures Others(imm, i + 1, fill) == Others(imm, i, fill) + if imm[i] != fill then 1 else 0
  {
  }

  /** `encodeMovSequence64`: the words leave exactly the constant in the register, and
      above 32 bits there are as few of them as the number of halfwords that are neither
      all zeros nor, in the complemented form, all ones. */
  method EncodeMovSequence64(imm: Reg, rd: nat, x: nat) returns (out: seq<Word>)
    requires rd <= 31 && x < 2
    ensures Materialises(out, imm, rd)
    ensures imm[2] != 0 || imm[3] != 0 ==> |out| == Max(1, 4 - Max(CountHalves(imm, 0), CountHalves(imm, ONES)))
    ensures imm[2] == 0 && imm[3] == 0 ==>
              |out| == if imm[0] == 0 || imm[0] == ONES || imm[1] == 0 || imm[1] == ONES then 1 else 2
  {
    hide Exec, Encode, Writes;
    if imm[2] == 0 && imm[3] == 0 {
      out := EncodeMovSequence32(imm, rd, x);
      return;
    }
    var zhw, ohw := CountHalves(imm, 0), CountHalves(imm, ONES);
    if zhw >= ohw {
      out := MoveRest(imm, rd, 0);
    } else {
      out := MoveRest(imm, rd, ONES);
      if |out| == 0 {
        out := [Encode(MOVN, 1, 0, 0, rd)];
        forall r: Reg ensures ExecAll(out, r) == imm {
          ExecEncoded(MOVN, 1, 0, 0, rd, r);
          ExecSnoc([], out[0], r);
          assert [] + [out[0]] == out;
        }
        ExecEncoded(MOVN, 1, 0, 0, rd, imm);
      }
    }
  }

  lemma UpperHalves(v: nat)
    requires v < 0x1_0000_0000_0000_0000
    ensures Halves(v)[2] == 0 && Halves(v)[3] == 0 <==> v < 0x1_0000_0000
    ensures v < 0x1_0000_0000 ==> Halves(v)[0] == v % HALF && Halves(v)[1] == v / HALF
  {
  }

  /** A 64-bit constant by its value. */
  method MaterialiseConstant(v: nat, rd: nat) returns (out: seq<Word>)
    requires v < 0x1_0000_0000_0000_0000 && rd <= 31
    ensures forall r: Reg :: Value(ExecAll(out, r)) == v
    ensures forall w | w in out :: Writes(w, rd)
    ensures v >= 0x1_0000_0000 ==> |out| == Max(1, 4 - Max(CountHalves(Halves(v), 0), CountHalves(Halves(v), ONES)))
    ensures v < 0x1_0000_0000 ==>
              |out| == if v % HALF == 0 || v % HALF == ONES || v / HALF == 0 || v / HALF == ONES then 1 else 2
  {
    hide ExecAll, Value, Writes;
    HalvesBack(v);
    UpperHalves(v);
    out := EncodeMovSequence64(Halves(v), rd, 1);
  }
}
