/** Numbers in a radix, most significant digit first. */
module Radix {
  import opened Arithmetic

  /** The value of a digit string. */
  function Value(base: nat, d: seq<nat>): nat {
    if d == [] then 0 else Value(base, d[..|d| - 1]) * base + d[|d| - 1]
  }

  ghost predicate AreDigits(base: nat, d: seq<nat>) { forall i :: 0 <= i < |d| ==> d[i] < base }

  /** The digits of a number, without leading zeros. */
  function Digits(base: nat, n: nat): (d: seq<nat>)
    requires base > 1
    ensures AreDigits(base, d) && (d != [] ==> d[0] != 0) && (d == [] <==> n == 0)
    decreases n
  {
    if n == 0 then []
    else
      QuotientSmaller(base, n);
      Digits(base, n / base) + [n % base]
  }

  lemma QuotientSmaller(base: nat, n: nat)
    requires base > 1 && n > 0
    ensures 0 <= n / base < n && 0 <= n % base < base && n / base * base + n % base == n
    ensures n / base == 0 ==> n % base == n
  {
    var q, r := DivMod(n, base);
    TimesMonotone(2, base, q);
  }

  lemma {:induction false} ValueOfDigits(base: nat, n: nat)
    requires base > 1
    ensures Value(base, Digits(base, n)) == n
    decreases n
  {
    if n > 0 {
      QuotientSmaller(base, n);
      ValueOfDigits(base, n / base);
      var d := Digits(base, n / base);
      assert (d + [n % base])[..|d|] == d;
    }
  }

  function LeadingZeros(d: seq<nat>): (k: nat)
    ensures k <= |d|
  {
    if d == [] || d[0] != 0 then 0 else 1 + LeadingZeros(d[1..])
  }

  function Zeros(k: nat): seq<nat> { seq(k, _ => 0) }

  lemma {:induction false} LeadingZerosOf(k: nat, d: seq<nat>)
    requires d != [] ==> d[0] != 0
    ensures LeadingZeros(Zeros(k) + d) == k
  {
    if k == 0 {
      assert Zeros(0) + d == d;
    } else {
      assert (Zeros(k) + d)[1..] == Zeros(k - 1) + d;
      LeadingZerosOf(k - 1, d);
    }
  }

  lemma {:induction false} ValueSkipsZeros(base: nat, k: nat, d: seq<nat>)
    ensures Value(base, Zeros(k) + d) == Value(base, d)
    decreases |d|, k
  {
    if d == [] {
      assert Zeros(k) + d == Zeros(k);
      if k > 0 {
        ValueSkipsZeros(base, k - 1, d);
        assert Zeros(k)[..k - 1] == Zeros(k - 1) == Zeros(k - 1) + d;
      }
    } else {
      var n := |d| - 1;
      ValueSkipsZeros(base, k, d[..n]);
      assert (Zeros(k) + d)[..k + n] == Zeros(k) + d[..n];
    }
  }

  /** A digit string is its leading zeros and the digits of its value. */
  lemma {:induction false} DigitsOfValue(base: nat, d: seq<nat>)
    requires base > 1 && AreDigits(base, d)
    ensures d == Zeros(LeadingZeros(d)) + Digits(base, Value(base, d))
  {
    var k := LeadingZeros(d);
    SplitZeros(d);
    ValueSkipsZeros(base, k, d[k..]);
    CanonicalDigits(base, d[k..]);
  }

  lemma {:induction false} SplitZeros(d: seq<nat>)
    ensures var k := LeadingZeros(d); d == Zeros(k) + d[k..] && (k < |d| ==> d[k] != 0)
  {
    if d != [] && d[0] == 0 {
      SplitZeros(d[1..]);
      OneMoreZero(d, LeadingZeros(d[1..]));
    }
  }

  lemma OneMoreZero(d: seq<nat>, k: nat)
    requires d != [] && d[0] == 0 && k <= |d| - 1 && d[1..] == Zeros(k) + d[1..][k..]
    ensures d == Zeros(k + 1) + d[k + 1..]
  {
    assert Zeros(k + 1) == [0] + Zeros(k);
    assert d == [0] + d[1..];
    assert d[k + 1..] == d[1..][k..];
  }

  lemma {:induction false} CanonicalDigits(base: nat, d: seq<nat>)
    requires base > 1 && AreDigits(base, d) && (d != [] ==> d[0] != 0)
    ensures Digits(base, Value(base, d)) == d && (d != [] ==> Value(base, d) > 0)
    decreases |d|
  {
    if d != [] {
      var n := |d| - 1;
      var init, v := d[..n], Value(base, d[..n]);
      CanonicalDigits(base, init);
      Divides(base, v, d[n]);
      assert d == init + [d[n]];
      assert n == 0 ==> init == [];
      assert n > 0 ==> v * base > 0;
    }
  }

  lemma Divides(base: nat, v: nat, r: nat)
    requires r < base
    ensures (v * base + r) / base == v && (v * base + r) % base == r
  {
    Remainder(v * base + r, base, v, r);
  }

  lemma Distributes(a: int, b: int, c: int)
    ensures (a + b) * c == a * c + b * c
  {
  }

  function Power(base: nat, k: nat): nat { if k == 0 then 1 else Power(base, k - 1) * base }

  lemma Shift(v: int, p: int, w: int, base: int, x: int)
    ensures (v * p + w) * base + x == v * (p * base) + (w * base + x)
  {
    TimesAssociates(v, p, base);
    Distributes(v * p, w, base);
  }

  lemma {:induction false} ValueConcat(base: nat, a: seq<nat>, b: seq<nat>)
    ensures Value(base, a + b) == Value(base, a) * Power(base, |b|) + Value(base, b)
    decreases |b|
  {
    if b == [] {
      assert a + b == a;
    } else {
      var n := |b| - 1;
      ValueConcat(base, a, b[..n]);
      assert (a + b)[..|a| + n] == a + b[..n];
      var v, p, w := Value(base, a), Power(base, n), Value(base, b[..n]);
      Shift(v, p, w, base, b[n]);
    }
  }

  lemma {:induction false} ValueBelow(base: nat, d: seq<nat>)
    requires AreDigits(base, d)
    ensures Value(base, d) < Power(base, |d|)
    decreases |d|
  {
    if d != [] {
      var n := |d| - 1;
      ValueBelow(base, d[..n]);
      var v := Value(base, d[..n]);
      TimesMonotone(v + 1, Power(base, n), base);
      Distributes(v, 1, base);
    }
  }
}
