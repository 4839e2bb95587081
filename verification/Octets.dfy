/** Byte strings as bit strings, and numbers as bytes. */
module Octets {
  import opened Arithmetic

  /** Eight bits, in the order in which the hash function at hand counts them. */
  type Octet = v: seq<bool> | |v| == 8 witness seq(8, _ => false)

  /** The bit string that a byte string stands for. */
  function Bits(b: seq<Octet>): (r: seq<bool>)
    ensures |r| == 8 * |b|
  {
    seq(8 * |b|, i requires 0 <= i < 8 * |b| => b[i / 8][i % 8])
  }

  lemma BitOf(b: seq<Octet>, i: nat, j: nat)
    requires i < |b| && j < 8
    ensures Bits(b)[8 * i + j] == b[i][j]
  {
    assert (8 * i + j) / 8 == i && (8 * i + j) % 8 == j;
  }

  lemma BitsConcat(a: seq<Octet>, b: seq<Octet>)
    ensures Bits(a + b) == Bits(a) + Bits(b)
  {
    forall i | 0 <= i < 8 * |a + b|
      ensures Bits(a + b)[i] == (Bits(a) + Bits(b))[i]
    {
      if i >= 8 * |a| {
        assert (i - 8 * |a|) / 8 == i / 8 - |a| && (i - 8 * |a|) % 8 == i % 8;
      }
    }
  }

  lemma BitsSplit(b: seq<Octet>, n: nat)
    requires n <= |b|
    ensures Bits(b[..n]) == Bits(b)[..8 * n] && Bits(b[n..]) == Bits(b)[8 * n..]
  {
    BitsConcat(b[..n], b[n..]);
    assert b == b[..n] + b[n..];
  }

  lemma Associate(a: seq<bool>, b: seq<bool>, c: seq<bool>)
    ensures a + (b + c) == (a + b) + c
  {
  }

  // ----- the end of a message -----

  function ZeroOctets(n: nat): seq<Octet> { seq(n, _ => [false, false, false, false, false, false, false, false]) }

  lemma ZeroBits(n: nat)
    ensures Bits(ZeroOctets(n)) == seq(8 * n, _ => false)
  {
  }

  /** The first byte after the message: `n` extra bits, a one, and zeros. */
  function ExtraByte(ub: Octet, n: nat): Octet
    requires n < 8
  {
    ub[..n] + [true] + seq(7 - n, _ => false)
  }

  // ----- numbers, most significant bit first -----

  function Pow2(n: nat): (p: nat)
    ensures p > 0
  {
    if n == 0 then 1 else 2 * Pow2(n - 1)
  }

  lemma {:induction false} Pow2Sum(m: nat, n: nat)
    ensures Pow2(m + n) == Pow2(m) * Pow2(n)
  {
    if n > 0 {
      Pow2Sum(m, n - 1);
      assert 2 * (Pow2(m) * Pow2(n - 1)) == Pow2(m) * (2 * Pow2(n - 1));
    }
  }

  /** The low `n` bits of `v`. */
  function BigEndian(v: nat, n: nat): (r: seq<bool>)
    ensures |r| == n
  {
    if n == 0 then [] else BigEndian(v / 2, n - 1) + [v % 2 == 1]
  }

  lemma {:induction false} BigEndianSplit(hi: nat, lo: nat, j: nat, k: nat)
    requires lo < Pow2(k)
    ensures BigEndian(hi * Pow2(k) + lo, j + k) == BigEndian(hi, j) + BigEndian(lo, k)
  {
    if k > 0 {
      BigEndianSplit(hi, lo / 2, j, k - 1);
      Halve(hi, Pow2(k - 1), lo);
      Associate(BigEndian(hi, j), BigEndian(lo / 2, k - 1), [lo % 2 == 1]);
    } else {
      assert hi * 1 + lo == hi;
    }
  }

  lemma Halve(hi: nat, p: nat, lo: nat)
    ensures (hi * (2 * p) + lo) / 2 == hi * p + lo / 2 && (hi * (2 * p) + lo) % 2 == lo % 2
  {
    assert hi * (2 * p) == 2 * (hi * p);
  }

  /** Only the value modulo 2^n shows. */
  lemma {:induction false} BigEndianLow(q: nat, v: nat, n: nat)
    ensures BigEndian(q * Pow2(n) + v, n) == BigEndian(v, n)
  {
    if n > 0 {
      Halve(q, Pow2(n - 1), v);
      BigEndianLow(q, v / 2, n - 1);
    }
  }

  /** The number that bits stand for, the most significant first. */
  function NumberOf(bits: seq<bool>): nat {
    if bits == [] then 0 else 2 * NumberOf(bits[..|bits| - 1]) + (if bits[|bits| - 1] then 1 else 0)
  }

  /** The bits of a number stand for it, modulo 2^n. */
  lemma {:induction false} BigEndianValue(v: nat, n: nat)
    ensures NumberOf(BigEndian(v, n)) == v % Pow2(n)
  {
    if n > 0 {
      BigEndianValue(v / 2, n - 1);
      HalveModulo(v, Pow2(n - 1));
      assert BigEndian(v, n)[..n - 1] == BigEndian(v / 2, n - 1);
    }
  }

  /** So do the bits of its bytes. */
  lemma EncodeValue(v: nat, n: nat)
    ensures NumberOf(Bits(Encode(v, n))) == v % Pow2(8 * n)
  {
    EncodeBits(v, n);
    BigEndianValue(v, 8 * n);
  }

  lemma HalveModulo(a: nat, p: nat)
    requires p > 0
    ensures a % (2 * p) == 2 * (a / 2 % p) + a % 2
  {
    var q, j := DivMod(a / 2, p);
    assert a == q * (2 * p) + (2 * j + a % 2) by {
      assert q * (2 * p) == 2 * (q * p);
    }
    Remainder(a, 2 * p, q, 2 * j + a % 2);
  }

  /** Two numbers look alike in `n` bits exactly if they agree modulo 2^n. */
  lemma {:induction false} BigEndianEqual(a: nat, b: nat, n: nat)
    ensures BigEndian(a, n) == BigEndian(b, n) <==> a % Pow2(n) == b % Pow2(n)
  {
    if n > 0 {
      BigEndianEqual(a / 2, b / 2, n - 1);
      HalveModulo(a, Pow2(n - 1));
      HalveModulo(b, Pow2(n - 1));
      LastApart(BigEndian(a / 2, n - 1), a % 2 == 1, BigEndian(b / 2, n - 1), b % 2 == 1);
    }
  }

  lemma LastApart(p: seq<bool>, x: bool, q: seq<bool>, y: bool)
    requires |p| == |q|
    ensures p + [x] == q + [y] <==> p == q && x == y
  {
    assert (p + [x])[..|p|] == p && (q + [y])[..|q|] == q;
    assert (p + [x])[|p|] == x && (q + [y])[|q|] == y;
  }

  /** Reducing a number modulo 2^k first shows in `n` bits unless it is below 2^k modulo 2^n. */
  lemma FieldAgrees(v: nat, k: nat, n: nat, small: nat, size: nat)
    requires k <= n && small == Pow2(k) && size == Pow2(n)
    ensures BigEndian(v % small, n) == BigEndian(v, n) <==> v % size < small
  {
    Pow2Sum(k, n - k);
    BigEndianEqual(v % small, v, n);
    ReducedTwice(v, small, Pow2(n - k), size);
  }

  /** A number in `n` bytes, most significant first. */
  function Encode(v: nat, n: nat): (b: seq<Octet>)
    ensures |b| == n
  {
    if n == 0 then [] else Encode(v / 256, n - 1) + [BigEndian(v % 256, 8)]
  }

  lemma {:induction false} EncodeBits(v: nat, n: nat)
    ensures Bits(Encode(v, n)) == BigEndian(v, 8 * n)
  {
    if n > 0 {
      EncodeBits(v / 256, n - 1);
      BitsConcat(Encode(v / 256, n - 1), [BigEndian(v % 256, 8)]);
      OneOctet(BigEndian(v % 256, 8));
      assert Pow2(8) == 256;
      BigEndianSplit(v / 256, v % 256, 8 * (n - 1), 8);
    }
  }

  lemma OneOctet(b: Octet)
    ensures Bits([b]) == b
  {
  }

  // ----- a length in two words -----

  /** The length field is the two words of the bit count. */
  lemma LengthField(w: nat, bytes: nat, word: nat, t: nat)
    requires w == 8 * bytes && word == Pow2(w)
    ensures Bits(Encode(t / word % word, bytes) + Encode(t % word, bytes)) == BigEndian(t, 2 * w)
  {
    var e, lo := DivMod(t, word);
    var top, hi := DivMod(e, word);
    LengthBits(w, bytes, word, t, e, top, hi, lo);
  }

  lemma LengthBits(w: nat, bytes: nat, word: nat, t: nat, e: nat, top: nat, hi: nat, lo: nat)
    requires w == 8 * bytes && word == Pow2(w) && lo < word && e * word + lo == t && top * word + hi == e
    ensures Bits(Encode(hi, bytes) + Encode(lo, bytes)) == BigEndian(t, w + w)
  {
    BitsConcat(Encode(hi, bytes), Encode(lo, bytes));
    EncodeBits(hi, bytes);
    EncodeBits(lo, bytes);
    BigEndianSplit(e, lo, w, w);
    BigEndianLow(top, hi, w);
  }
}
