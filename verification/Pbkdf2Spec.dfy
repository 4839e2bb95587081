/**
 HMAC-SHA-256 and PBKDF2 (`pbkdf2.cpp`) against section 2 of RFC 2104 and section 5.2 of RFC 8018.

 SHA-256 is any function from byte strings to 32 bytes; a context of it is what it has been fed.
 */
module Pbkdf2Spec {
  import opened Octets

  type Digest = d: seq<Octet> | |d| == 32 witness seq(32, _ => seq(8, _ => false))

  type Sha = seq<Octet> -> Digest

  function XorOctet(a: Octet, b: Octet): Octet { seq(8, i requires 0 <= i < 8 => a[i] != b[i]) }

  function Xor(a: Digest, b: Digest): Digest { seq(32, i requires 0 <= i < 32 => XorOctet(a[i], b[i])) }

  /** Adding a byte twice undoes it, adding a byte to itself leaves nothing, and adding nothing changes nothing. */
  lemma XorOctetTwice(a: Octet, b: Octet)
    ensures XorOctet(XorOctet(a, b), b) == a
    ensures XorOctet(a, a) == ZeroOctets(1)[0] && XorOctet(a, ZeroOctets(1)[0]) == a
  {
  }

  lemma XorTwice(a: Digest, b: Digest)
    ensures Xor(Xor(a, b), b) == a && Xor(a, a) == ZeroOctets(32)
  {
    forall i | 0 <= i < 32
      ensures Xor(Xor(a, b), b)[i] == a[i] && Xor(a, a)[i] == ZeroOctets(32)[i]
    {
      XorOctetTwice(a[i], b[i]);
    }
  }

  // ----- RFC 2104 -----

  /** The key as one block: hashed if it is longer, then padded with zeros. */
  function KeyBlock(sha: Sha, key: seq<Octet>): (k: seq<Octet>)
    ensures |k| == 64
  {
    var short := if |key| > 64 then sha(key) else key;
    short + ZeroOctets(64 - |short|)
  }

  /** A block added to a repeated byte. */
  function Padded(k: seq<Octet>, byte: Octet): seq<Octet> { seq(|k|, i requires 0 <= i < |k| => XorOctet(k[i], byte)) }

  const IPAD: Octet := [false, false, true, true, false, true, true, false]  // 0x36

  const OPAD: Octet := [false, true, false, true, true, true, false, false]  // 0x5c

  function Hmac(sha: Sha, key: seq<Octet>, m: seq<Octet>): Digest {
    var k := KeyBlock(sha, key);
    sha(Padded(k, OPAD) + sha(Padded(k, IPAD) + m))
  }

  // ----- RFC 8018 -----

  /** U_j for block `i`, with `j` counted from 1. */
  function U(sha: Sha, password: seq<Octet>, salt: seq<Octet>, i: nat, j: nat): Digest
    requires j >= 1
  {
    if j == 1 then Hmac(sha, password, salt + Encode(i, 4)) else Hmac(sha, password, U(sha, password, salt, i, j - 1))
  }

  /** U_1 to U_c, added. */
  function F(sha: Sha, password: seq<Octet>, salt: seq<Octet>, c: nat, i: nat): Digest
    requires c >= 1
  {
    if c == 1 then U(sha, password, salt, i, 1) else Xor(F(sha, password, salt, c - 1, i), U(sha, password, salt, i, c))
  }

  /** Each iteration adds the next U to the sum; added once more, it gives the sum before. */
  lemma SumUndone(sha: Sha, password: seq<Octet>, salt: seq<Octet>, c: nat, i: nat)
    requires c >= 2
    ensures Xor(F(sha, password, salt, c, i), U(sha, password, salt, i, c)) == F(sha, password, salt, c - 1, i)
  {
    XorTwice(F(sha, password, salt, c - 1, i), U(sha, password, salt, i, c));
  }

  /** The two pads are the bytes 0x36 and 0x5c. */
  lemma PadBytes()
    ensures NumberOf(IPAD) == 0x36 && NumberOf(OPAD) == 0x5c
  {
    InnerPad();
    OuterPad();
    BigEndianValue(0x36, 8);
    BigEndianValue(0x5c, 8);
    assert Pow2(8) == 256;
  }

  lemma InnerPad()
    ensures IPAD == BigEndian(0x36, 8)
  {
  }

  lemma OuterPad()
    ensures OPAD == BigEndian(0x5c, 8)
  {
  }

  /** T_1 to T_n, one after the other. */
  function T(sha: Sha, password: seq<Octet>, salt: seq<Octet>, c: nat, n: nat): (r: seq<Octet>)
    requires c >= 1
    ensures |r| == 32 * n
  {
    if n == 0 then [] else T(sha, password, salt, c, n - 1) + F(sha, password, salt, c, n)
  }

  /** The derived key: the first `length` bytes of as many blocks as are needed. */
  function DerivedKey(sha: Sha, password: seq<Octet>, salt: seq<Octet>, c: nat, length: nat): (r: seq<Octet>)
    requires c >= 1
    ensures |r| == length
  {
    T(sha, password, salt, c, (length + 31) / 32)[..length]
  }
}
