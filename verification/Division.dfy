/** Division that rounds toward zero, on 32-bit numbers. */
module Division {
  import opened Values

  lemma QuotientBounds(m: nat, n: nat)
    requires n > 0
    ensures 0 <= m / n <= m && 0 <= m - n * (m / n) < n && (n > 1 && m > 0 ==> m / n < m)
  {
    var q := m / n;
    assert m == n * q + m % n;
    TimesAtLeast(n, q);
  }

  lemma TimesAtLeast(n: nat, q: nat)
    requires n > 0
    ensures n * q >= q && (n > 1 ==> n * q >= 2 * q)
  {
    assert n * q == q + (n - 1) * q;
    if n > 1 { assert (n - 1) * q == q + (n - 2) * q; }
  }

  /** The quotient of the absolute values with the sign of the operands. */
  lemma SignsDoNotMatter(x: int, y: int, m: nat, n: nat)
    requires y != 0 && m == (if x < 0 then -x else x) && n == (if y < 0 then -y else y)
    ensures TruncDiv(x, y) == if (x < 0) == (y < 0) then m / n else -(m / n)
    ensures x - y * TruncDiv(x, y) == if x < 0 then -(m - n * (m / n)) else m - n * (m / n)
  {
    var q := m / n;
    NegativeDivisor(m, n);
    assert TruncDiv(x, y) == if (x < 0) == (y < 0) then q else -q;
    SignedProduct(n, q);
  }

  lemma SignedProduct(n: int, q: int)
    ensures -n * q == -(n * q) && -n * -q == n * q && n * -q == -(n * q)
  {
  }

  lemma NegativeDivisor(m: int, n: int)
    requires m >= 0 && n > 0
    ensures m / (0 - n) == 0 - m / n
  {
  }

  lemma WrapSmall(x: int)
    requires -TWO_31 <= x < TWO_31
    ensures Wrap32(x) == x
  {
  }

  /** Dividing either way round gives the same exactly for numbers of the same size. */
  lemma QuotientsAgree(a: int32, b: int32)
    ensures Binary(Div, Int(a), Int(b)) == Binary(Div, Int(b), Int(a)) <==> a == b || a == 0 - b
  {
    hide TruncDiv, Wrap32, Divides;
    BinaryOnInts(Div, a, b);
    BinaryOnInts(Div, b, a);
    NoZeroDivisor(a, b);
    NoZeroDivisor(b, a);
    if a != 0 && b != 0 {
      if a == b || a == 0 - b {
        SameSize(a, b);
      } else {
        OtherSize(a, b);
      }
    }
  }

  lemma NoZeroDivisor(a: int32, b: int32)
    ensures Divides(a, b) ==> b != 0
    ensures b != 0 && a == 0 ==> Divides(a, b)
  {
  }

  lemma SameSize(a: int32, b: int32)
    requires b != 0 && (a == b || a == 0 - b)
    ensures TruncDiv(a, b) == TruncDiv(b, a) && Divides(a, b) && Divides(b, a)
  {
    var n: int := if b < 0 then 0 - b as int else b;
    SignsDoNotMatter(a, b, n, n);
    SignsDoNotMatter(b, a, n, n);
  }

  lemma OtherSize(a: int32, b: int32)
    requires a != 0 && b != 0 && a != b && a != 0 - b
    ensures Divides(a, b) && Divides(b, a) ==> Wrap32(TruncDiv(a, b)) != Wrap32(TruncDiv(b, a))
    ensures Divides(a, b) || Divides(b, a)
  {
    var a1: int, b1: int := a, b;
    var m: nat, n: nat := if a1 < 0 then 0 - a1 else a1, if b1 < 0 then 0 - b1 else b1;
    hide TruncDiv, Wrap32;
    if Divides(a, b) && Divides(b, a) {
      DivisionSize(a, b, m, n);
      DivisionSize(b, a, n, m);
      WrapSmall(TruncDiv(a, b));
      WrapSmall(TruncDiv(b, a));
    }
  }

  /** The quotient is zero exactly when the divisor is larger. */
  lemma DivisionSize(a: int32, b: int32, m: nat, n: nat)
    requires b != 0 && m == (if a < 0 then 0 - a as int else a) && n == (if b < 0 then 0 - b as int else b)
    requires Divides(a, b)
    ensures -TWO_31 <= TruncDiv(a, b) < TWO_31 && (TruncDiv(a, b) == 0 <==> m < n)
  {
    SignsDoNotMatter(a, b, m, n);
    QuotientBounds(m, n);
    if m < n { SmallQuotient(m, n); } else { LargeQuotient(m, n); }
  }

  lemma SmallQuotient(m: nat, n: nat)
    requires m < n
    ensures m / n == 0
  {
  }

  lemma LargeQuotient(m: nat, n: nat)
    requires m >= n > 0
    ensures m / n >= 1
  {
  }
}
