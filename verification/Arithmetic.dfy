/** Division and products of variables, in the small steps that the other modules need. */
module Arithmetic {

  lemma Remainder(a: int, r: int, q: int, j: int)
    requires 0 <= j < r && a == q * r + j
    ensures a % r == j && a / r == q
  {
    var e := a / r - q;
    assert a % r == j - e * r;
    assert (e >= 1 ==> e * r >= r) && (e <= -1 ==> e * r <= -r);
  }

  /** Division of multiples. */
  lemma MultipleWords(word: nat, block: nat, per: nat, i: nat)
    requires word == per * block && block > 0 && per > 0
    ensures (block * i) % word == block * (i % per) && (block * i) / word == i / per
    ensures block * i == (i / per) * word + block * (i % per) && block * (i % per) <= word - block
  {
    var d, r := i / per, i % per;
    assert block * i == block * (per * d) + block * r == d * word + block * r;
    assert block * r <= block * (per - 1) == word - block;
    Remainder(block * i, word, d, block * r);
  }

  lemma NextIndex(per: nat, i: nat)
    requires per > 0
    ensures i % per + 1 < per ==> (i + 1) % per == i % per + 1 && (i + 1) / per == i / per
    ensures i % per + 1 == per ==> (i + 1) % per == 0 && (i + 1) / per == i / per + 1
  {
    var d, r := i / per, i % per;
    if r + 1 < per {
      Remainder(i + 1, per, d, r + 1);
    } else {
      assert (d + 1) * per == d * per + per;
      Remainder(i + 1, per, d + 1, 0);
    }
  }

  lemma PaddingZeros(block: nat, i: nat, len: nat, rest: nat, z: nat, c: nat)
    requires z < block && len + rest + z == c * block
    ensures (0 - (block * i + len) - rest) % block == z
  {
    assert 0 - (block * i + len) - rest == (0 - i - c) * block + z;
    Remainder(0 - (block * i + len) - rest, block, 0 - i - c, z);
  }

  lemma DivMod(a: nat, r: nat) returns (q: nat, j: nat)
    requires r > 0
    ensures q == a / r && j == a % r && j < r && q * r + j == a
  {
    q, j := a / r, a % r;
  }

  lemma TimesMonotone(a: int, b: int, c: int)
    requires a <= b && c >= 0
    ensures a * c <= b * c
  {
  }

  lemma TimesAssociates(a: int, b: int, c: int)
    ensures a * b * c == a * (b * c)
  {
  }

  /** Reducing by a divisor of `size` first. */
  lemma ModuloDivisor(v: nat, m: nat, c: nat, size: nat)
    requires m > 0 && c > 0 && size == m * c
    ensures size > 0 && v % m == v % size % m
  {
    var q, r := DivMod(v, size);
    var d, j := DivMod(r, m);
    TimesAssociates(q, c, m);
    assert v == (q * c + d) * m + j;
    Remainder(v, m, q * c + d, j);
  }

  lemma ReducedTwice(v: nat, m: nat, c: nat, size: nat)
    requires m > 0 && c > 0 && size == m * c
    ensures size > 0 && (v % m % size == v % size <==> v % size < m)
  {
    ModuloDivisor(v, m, c, size);
    TimesMonotone(1, c, m);
    var r := v % size;
    Remainder(v % m, size, 0, v % m);
    if r < m {
      Remainder(r, m, 0, r);
    }
  }

  /** The quotient is the greatest number of times that `d` goes into `a`. */
  lemma QuotientIsGreatest(a: nat, d: nat, m: nat)
    requires d > 0
    ensures m * d <= a <==> m <= a / d
  {
    var q, r := DivMod(a, d);
    TimesMonotone(if m <= q then m else q + 1, if m <= q then q else m, d);
    assert (q + 1) * d == q * d + d;
  }

  /** A larger divisor goes in less often. */
  lemma QuotientFalls(a: nat, d: nat, e: nat)
    requires 0 < e <= d
    ensures a / d <= a / e
  {
    var q, r := DivMod(a, d);
    TimesMonotone(e, d, q);
    assert q * e <= q * d;
    QuotientIsGreatest(a, e, q);
  }
}
