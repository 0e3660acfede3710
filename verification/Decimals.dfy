/** Decimal numerals: `str(n)` and `"%04d" % n`. */
module Decimals {
  import opened Strings

  function Digit(n: nat): char
    requires n < 10
  {
    ('0' as int + n) as char
  }

  predicate IsDigit(c: char) {
    '0' <= c <= '9'
  }

  function Decimal(n: nat): (s: string)
    ensures s != [] && forall c | c in s :: IsDigit(c)
  {
    if n < 10 then [Digit(n)] else Decimal(n / 10) + [Digit(n % 10)]
  }

  function Zeros(k: nat): (s: string)
    ensures |s| == k && forall i | 0 <= i < k :: s[i] == '0'
  {
    if k == 0 then [] else ['0'] + Zeros(k - 1)
  }

  /** At least four digits. */
  function Padded(n: nat): (s: string)
    ensures forall c | c in s :: IsDigit(c)
  {
    var d := Decimal(n);
    var zeros := Zeros(if |d| < 4 then 4 - |d| else 0);
    assert forall c | c in zeros :: c == '0';
    zeros + d
  }

  // ----- the value of a numeral -----

  function Value(s: string): nat
    requires forall c | c in s :: IsDigit(c)
  {
    if s == [] then 0
    else
      assert IsDigit(s[|s| - 1]);
      10 * Value(s[..|s| - 1]) + (s[|s| - 1] as int - '0' as int)
  }

  lemma ValueAppend(s: string, c: char)
    requires forall d | d in s + [c] :: IsDigit(d)
    requires forall d | d in s :: IsDigit(d)
    ensures Value(s + [c]) == 10 * Value(s) + (c as int - '0' as int)
  {
    assert (s + [c])[..|s|] == s;
  }

  lemma {:induction false} ValueDecimal(n: nat)
    ensures Value(Decimal(n)) == n
  {
    if n >= 10 {
      ValueDecimal(n / 10);
      ValueAppend(Decimal(n / 10), Digit(n % 10));
    } else {
      assert Decimal(n)[..0] == [];
    }
  }

  lemma {:induction false} DecimalStart(n: nat)
    ensures Decimal(n)[0] == '0' ==> Decimal(n) == "0" && n == 0
  {
    if n >= 10 {
      DecimalStart(n / 10);
    }
  }

  /** A numeral without needless zeros is the one written for its value. */
  lemma {:induction false} DecimalValue(s: string)
    requires s != "" && (forall c | c in s :: IsDigit(c)) && (s[0] == '0' ==> s == "0")
    ensures Decimal(Value(s)) == s
  {
    var i := |s| - 1;
    assert s == s[..i] + [s[i]] && IsDigit(s[i]);
    if i == 0 {
      assert s[..0] == [];
    } else {
      DecimalValue(s[..i]);
      assert Value(s) / 10 == Value(s[..i]) && Value(s) % 10 == s[i] as int - '0' as int;
      assert s[..i] != "0" && Decimal(0) == "0";
    }
  }

  lemma {:induction false} ValueZeros(k: nat, s: string)
    requires forall c | c in s :: IsDigit(c)
    ensures (forall c | c in Zeros(k) + s :: IsDigit(c)) && Value(Zeros(k) + s) == Value(s)
    decreases |s|, k
  {
    var t := Zeros(k) + s;
    if s == [] {
      assert t == Zeros(k);
      if k > 0 {
        ValueZeros(k - 1, []);
        assert Zeros(k - 1) + [] == Zeros(k - 1);
        assert t[..|t| - 1] == Zeros(k - 1);
      }
    } else {
      ValueZeros(k, s[..|s| - 1]);
      assert t[..|t| - 1] == Zeros(k) + s[..|s| - 1];
    }
  }

  lemma ValuePadded(n: nat)
    ensures Value(Padded(n)) == n
  {
    ValueDecimal(n);
    ValueZeros(if |Decimal(n)| < 4 then 4 - |Decimal(n)| else 0, Decimal(n));
  }

  lemma PaddedLength(n: nat)
    ensures |Padded(n)| == 4 <==> n < 10000
    ensures n >= 10000 ==> |Padded(n)| > 4
  {
    DecimalLength(n, 4);
    assert Pow10(4) == 10000;
  }

  function Pow10(k: nat): nat {
    if k == 0 then 1 else 10 * Pow10(k - 1)
  }

  lemma {:induction false} DecimalLength(n: nat, k: nat)
    requires k >= 1
    ensures |Decimal(n)| <= k <==> n < Pow10(k)
  {
    if n >= 10 && k > 1 {
      DecimalLength(n / 10, k - 1);
    } else if k > 1 {
      PowersGrow(k);
    }
  }

  lemma {:induction false} PowersGrow(k: nat)
    requires k >= 1
    ensures Pow10(k) >= 10
  {
    if k > 1 {
      PowersGrow(k - 1);
    }
  }

  /** Numerals of one length are ordered as their values are. */
  lemma {:induction false} OrderOfEqualLength(a: string, b: string, x: string, y: string)
    requires |a| == |b|
    requires forall c | c in a :: IsDigit(c)
    requires forall c | c in b :: IsDigit(c)
    requires Value(a) < Value(b)
    ensures LexLe(a + x, b + y)
    decreases |a|
  {
    var i := |a| - 1;
    assert a == a[..i] + [a[i]] && b == b[..i] + [b[i]];
    if Value(a[..i]) < Value(b[..i]) {
      OrderOfEqualLength(a[..i], b[..i], [a[i]] + x, [b[i]] + y);
      assert a + x == a[..i] + ([a[i]] + x) && b + y == b[..i] + ([b[i]] + y);
    } else {
      assert IsDigit(a[i]) && IsDigit(b[i]);
      SameValueSameDigits(a[..i], b[..i]);
      CommonStart(a[..i], [a[i]] + x, [b[i]] + y);
      assert a + x == a[..i] + ([a[i]] + x) && b + y == b[..i] + ([b[i]] + y);
    }
  }

  lemma {:induction false} SameValueSameDigits(a: string, b: string)
    requires |a| == |b|
    requires forall c | c in a :: IsDigit(c)
    requires forall c | c in b :: IsDigit(c)
    requires Value(a) == Value(b)
    ensures a == b
  {
    if a != [] {
      var i := |a| - 1;
      assert IsDigit(a[i]) && IsDigit(b[i]);
      SameValueSameDigits(a[..i], b[..i]);
      assert a == a[..i] + [a[i]] && b == b[..i] + [b[i]];
    }
  }

  lemma {:induction false} CommonStart(p: string, x: string, y: string)
    ensures LexLe(p + x, p + y) <==> LexLe(x, y)
  {
    if p == [] {
      assert p + x == x && p + y == y;
    } else {
      CommonStart(p[1..], x, y);
      assert (p + x)[1..] == p[1..] + x && (p + y)[1..] == p[1..] + y;
    }
  }
}
