/** Big numbers (`bignum.h`): the MPI byte format, the little-endian signed form, and compact targets. */
module Bignum {
  import opened Arithmetic
  import opened Radix

  ghost predicate AreBytes(d: seq<nat>) { AreDigits(256, d) }

  // ----- the MPI format, without its length prefix -----

  /** Sign and magnitude: the top bit of the first byte is the sign. */
  function FromMpi(d: seq<nat>): int
    requires AreBytes(d)
  {
    if d == [] then 0
    else if d[0] >= 128 then -(Value(256, d[0 := d[0] - 128]) as int)
    else Value(256, d)
  }

  /** The shortest such form; zero is empty, and a set top bit of the magnitude costs one more byte. */
  function ToMpi(v: int): (d: seq<nat>)
    ensures AreBytes(d)
  {
    var m := Digits(256, if v < 0 then -v else v);
    if m == [] then []
    else if m[0] >= 128 then [if v < 0 then 128 else 0] + m
    else if v < 0 then m[0 := m[0] + 128]
    else m
  }

  /** Reading back what was written gives the number, whatever its sign. */
  lemma MpiRoundTrip(v: int)
    ensures FromMpi(ToMpi(v)) == v
  {
    var n: nat := if v < 0 then -v else v;
    var m := Digits(256, n);
    ValueOfDigits(256, n);
    if m != [] && m[0] >= 128 {
      OneZero(m);
      assert ([128] + m)[0 := 0] == [0] + m;
    } else if m != [] && v < 0 {
      assert m[0 := m[0] + 128][0 := m[0]] == m;
    }
  }

  lemma OneZero(m: seq<nat>)
    ensures Value(256, [0] + m) == Value(256, m)
  {
    ValueSkipsZeros(256, 1, m);
    assert Zeros(1) == [0];
  }

  /** The forms that `ToMpi` gives to numbers that are not negative. */
  predicate Canonical(d: seq<nat>) {
    d == [] || (d[0] < 128 && (d[0] > 0 || (|d| > 1 && d[1] >= 128)))
  }

  lemma NonNegativeMpi(v: nat)
    ensures var d := ToMpi(v); Canonical(d) && Value(256, d) == v && (d == [] <==> v == 0)
  {
    MpiRoundTrip(v);
  }

  lemma MpiUnique(d: seq<nat>)
    requires AreBytes(d) && Canonical(d)
    ensures FromMpi(d) == Value(256, d) && ToMpi(Value(256, d)) == d
  {
    if d != [] && d[0] == 0 {
      assert d == [0] + d[1..];
      OneZero(d[1..]);
      CanonicalDigits(256, d[1..]);
    } else {
      CanonicalDigits(256, d);
    }
  }

  // ----- setvch and getvch -----

  function Reverse<T>(s: seq<T>): seq<T> { seq(|s|, i requires 0 <= i < |s| => s[|s| - 1 - i]) }

  lemma ReverseTwice<T>(s: seq<T>)
    ensures Reverse(Reverse(s)) == s
  {
  }

  function SetVch(vch: seq<nat>): int
    requires AreBytes(vch)
  {
    FromMpi(Reverse(vch))
  }

  function GetVch(v: int): (vch: seq<nat>)
    ensures AreBytes(vch)
  {
    Reverse(ToMpi(v))
  }

  lemma VchRoundTrip(v: int)
    ensures SetVch(GetVch(v)) == v
  {
    MpiRoundTrip(v);
    ReverseTwice(ToMpi(v));
  }

  // ----- compact targets -----

  /** Byte `i` of the data that a compact word stands for. */
  function CompactByte(compact: nat, i: nat): nat {
    if i == 0 then compact / 0x1_0000 % 256 else if i == 1 then compact / 0x100 % 256 else if i == 2 then compact % 256 else 0
  }

  function SetCompact(compact: nat): int {
    var size := compact / 0x100_0000;
    FromMpi(seq(size, i requires 0 <= i < size => CompactByte(compact, i)))
  }

  /** The first three bytes of a form, as a number. */
  function Head(d: seq<nat>): nat {
    (if |d| >= 1 then d[0] * 0x1_0000 else 0) + (if |d| >= 2 then d[1] * 0x100 else 0) + (if |d| >= 3 then d[2] else 0)
  }

  /** Size and head; the size has eight bits of the 32-bit word. */
  function GetCompact(v: int): nat {
    var d := ToMpi(v);
    (|d| * 0x100_0000) % 0x1_0000_0000 + Head(d)
  }

  /** The bytes that survive the compact form. */
  function Kept(d: seq<nat>): seq<nat> {
    if |d| <= 3 then d else d[..3] + Zeros(|d| - 3)
  }

  lemma HeadBytes(d: seq<nat>, size: nat, i: nat)
    requires AreBytes(d) && i < |d|
    ensures Head(d) < 0x100_0000 && CompactByte(size * 0x100_0000 + Head(d), i) == Kept(d)[i]
  {
    ThreeBytes(size, d[0], if |d| >= 2 then d[1] else 0, if |d| >= 3 then d[2] else 0);
  }

  lemma ThreeBytes(size: nat, a: nat, b: nat, c: nat)
    requires a < 256 && b < 256 && c < 256
    ensures var n := size * 0x100_0000 + (a * 0x1_0000 + b * 0x100 + c);
      n / 0x1_0000 % 256 == a && n / 0x100 % 256 == b && n % 256 == c
  {
    var n := size * 0x100_0000 + (a * 0x1_0000 + b * 0x100 + c);
    assert n / 0x1_0000 == size * 256 + a;
    assert n / 0x100 == (size * 256 + a) * 256 + b;
  }

  lemma CompactData(v: int)
    requires |ToMpi(v)| <= 255
    ensures SetCompact(GetCompact(v)) == FromMpi(Kept(ToMpi(v)))
  {
    var d := ToMpi(v);
    var c := GetCompact(v);
    if d != [] {
      HeadBytes(d, |d|, 0);
    }
    assert c == |d| * 0x100_0000 + Head(d) && c / 0x100_0000 == |d|;
    var data := seq(|d|, i requires 0 <= i < |d| => CompactByte(c, i));
    forall i | 0 <= i < |d|
      ensures data[i] == Kept(d)[i]
    {
      HeadBytes(d, |d|, i);
    }
    assert data == Kept(d);
  }

  lemma {:induction false} KeptValue(d: seq<nat>)
    requires AreBytes(d) && |d| > 3
    ensures var p := Power(256, |d| - 3);
      Value(256, Kept(d)) == Value(256, d[..3]) * p && 0 <= Value(256, d) - Value(256, Kept(d)) < p
  {
    var n := |d| - 3;
    assert d == d[..3] + d[3..];
    ValueConcat(256, d[..3], d[3..]);
    ValueConcat(256, d[..3], Zeros(n));
    ValueSkipsZeros(256, n, []);
    assert Zeros(n) + [] == Zeros(n);
    ValueBelow(256, d[3..]);
  }

  /** Decoding the compact form of a number rounds it down, by less than one unit of its last kept byte... */
  lemma CompactRoundsDown(v: nat)
    requires |ToMpi(v)| <= 255
    ensures var size, r := |ToMpi(v)|, SetCompact(GetCompact(v));
      0 <= v - r < if size <= 3 then 1 else Power(256, size - 3)
  {
    var d := ToMpi(v);
    CompactData(v);
    NonNegativeMpi(v);
    KeptCanonical(d);
    if |d| > 3 {
      KeptValue(d);
    }
  }

  lemma KeptCanonical(d: seq<nat>)
    requires AreBytes(d) && Canonical(d)
    ensures AreBytes(Kept(d)) && Canonical(Kept(d)) && FromMpi(Kept(d)) == Value(256, Kept(d))
  {
    MpiUnique(Kept(d));
  }

  /** ... and encoding the rounded number again gives the same compact word. */
  lemma CompactStable(v: nat)
    requires |ToMpi(v)| <= 255
    ensures GetCompact(SetCompact(GetCompact(v))) == GetCompact(v)
  {
    var d := ToMpi(v);
    CompactData(v);
    NonNegativeMpi(v);
    KeptCanonical(d);
    MpiUnique(Kept(d));
  }

  // ----- order -----

  lemma {:induction false} PowerGrows(i: nat, j: nat)
    requires i <= j
    ensures 0 < Power(256, i) <= Power(256, j)
    decreases j
  {
    if i < j {
      PowerGrows(i, j - 1);
    } else if i > 0 {
      PowerGrows(i - 1, i - 1);
    }
  }

  /** A canonical form of `n` bytes is at least half a unit of its first place, and below half of the next one. */
  lemma FormBounds(d: seq<nat>)
    requires AreBytes(d) && Canonical(d) && d != []
    ensures 2 * Value(256, d) < Power(256, |d|)
    ensures |d| > 1 ==> 2 * Value(256, d) >= Power(256, |d| - 1)
  {
    var rest := d[1..];
    assert d == [d[0]] + rest;
    ValueConcat(256, [d[0]], rest);
    ValueBelow(256, rest);
    var p := Power(256, |rest|);
    assert Value(256, [d[0]]) == d[0] by { assert [d[0]][..0] == []; }
    TimesMonotone(d[0] + 1, 128, p);
    Distributes(d[0], 1, p);
    if |d| > 1 {
      if d[0] > 0 {
        TimesMonotone(1, d[0], p);
      } else {
        TopBit(rest);
      }
    }
  }

  lemma TopBit(d: seq<nat>)
    requires AreBytes(d) && d != [] && d[0] >= 128
    ensures 2 * Value(256, d) >= Power(256, |d|)
  {
    var rest := d[1..];
    assert d == [d[0]] + rest;
    ValueConcat(256, [d[0]], rest);
    assert Value(256, [d[0]]) == d[0] by { assert [d[0]][..0] == []; }
    TimesMonotone(128, d[0], Power(256, |rest|));
  }

  /** Larger numbers do not have shorter forms. */
  lemma SizeMonotone(v: nat, w: nat)
    requires v <= w
    ensures |ToMpi(v)| <= |ToMpi(w)|
  {
    var d, e := ToMpi(v), ToMpi(w);
    NonNegativeMpi(v);
    NonNegativeMpi(w);
    if |d| > |e| && e != [] {
      FormBounds(d);
      FormBounds(e);
      PowerGrows(|e|, |d| - 1);
      assert false;
    }
  }

  /** Of two forms of the same size, the larger number has the larger head. */
  lemma HeadMonotone(d: seq<nat>, e: seq<nat>)
    requires AreBytes(d) && AreBytes(e) && |d| == |e| && Value(256, d) <= Value(256, e)
    ensures Head(d) <= Head(e)
  {
    if |d| <= 3 {
      HeadValue(d);
      HeadValue(e);
      TimesMonotone(Value(256, d), Value(256, e), Power(256, 3 - |d|));
    } else {
      assert d == d[..3] + d[3..] && e == e[..3] + e[3..];
      ValueConcat(256, d[..3], d[3..]);
      ValueConcat(256, e[..3], e[3..]);
      ValueBelow(256, e[3..]);
      QuotientMonotone(Value(256, d[..3]), Value(256, d[3..]), Value(256, e[..3]), Value(256, e[3..]), Power(256, |d| - 3));
      ThreeHead(d);
      ThreeHead(e);
    }
  }

  lemma ThreeHead(d: seq<nat>)
    requires |d| > 3
    ensures Head(d) == Value(256, d[..3])
  {
    HeadValue(d[..3]);
  }

  lemma QuotientMonotone(a: nat, x: nat, b: nat, y: nat, p: nat)
    requires a * p + x <= b * p + y && y < p
    ensures a <= b
  {
    if a > b {
      TimesMonotone(b + 1, a, p);
      Distributes(b, 1, p);
      assert false;
    }
  }

  lemma HeadValue(d: seq<nat>)
    requires |d| <= 3
    ensures Head(d) == Value(256, d) * Power(256, 3 - |d|)
  {
    if |d| == 1 {
      assert d[..0] == [];
    } else if |d| == 2 {
      assert d[..1][..0] == [];
    } else if |d| == 3 {
      assert d[..2][..1][..0] == [];
    }
  }

  /** The compact form keeps the order of numbers. */
  lemma CompactMonotone(v: nat, w: nat)
    requires v <= w && |ToMpi(w)| <= 255
    ensures GetCompact(v) <= GetCompact(w)
  {
    var d, e := ToMpi(v), ToMpi(w);
    SizeMonotone(v, w);
    NonNegativeMpi(v);
    NonNegativeMpi(w);
    CompactIs(v);
    CompactIs(w);
    if |d| == |e| {
      HeadMonotone(d, e);
    }
  }

  lemma CompactIs(v: int)
    requires |ToMpi(v)| <= 255
    ensures var d := ToMpi(v); GetCompact(v) == |d| * 0x100_0000 + Head(d) && Head(d) < 0x100_0000
  {
  }
}
