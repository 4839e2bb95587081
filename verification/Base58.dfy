/** Base 58 (`base58.h`): byte strings as text, through big numbers. */
module Base58 {
  import opened Bignum
  import opened Options
  import opened Radix

  // ----- the alphabet -----

  /** pszBase58: the digits but 0, the capitals but I and O, the small letters but l. */
  function Letter(d: nat): char
    requires d < 58
  {
    if d < 9 then '1' + d as char
    else if d < 17 then 'A' + (d - 9) as char
    else if d < 22 then 'J' + (d - 17) as char
    else if d < 33 then 'P' + (d - 22) as char
    else if d < 44 then 'a' + (d - 33) as char
    else 'm' + (d - 44) as char
  }

  /** The place of a letter in the alphabet: strchr. */
  function Place(c: char): (p: Option<nat>)
    ensures p.Some? ==> p.value < 58
  {
    if '1' <= c <= '9' then Some((c - '1') as nat)
    else if 'A' <= c <= 'H' then Some(9 + (c - 'A') as nat)
    else if 'J' <= c <= 'N' then Some(17 + (c - 'J') as nat)
    else if 'P' <= c <= 'Z' then Some(22 + (c - 'P') as nat)
    else if 'a' <= c <= 'k' then Some(33 + (c - 'a') as nat)
    else if 'm' <= c <= 'z' then Some(44 + (c - 'm') as nat)
    else None
  }

  /** pszBase58, in the parts in which the letters follow each other. */
  const DIGITS := "123456789"
  const CAPITALS := "ABCDEFGH" + "JKLMN" + "PQRSTUVWXYZ"
  const SMALL := "abcdefghijk" + "mnopqrstuvwxyz"

  /** The letters are those of pszBase58, in its order. */
  lemma LetterIs(d: nat)
    requires d < 58
    ensures |DIGITS| == 9 && |CAPITALS| == 24 && |SMALL| == 25 && Letter(d) == (DIGITS + CAPITALS + SMALL)[d]
  {
    if d < 9 {
      assert Letter(d) == DIGITS[d];
    } else if d < 33 {
      CapitalIs(d);
    } else {
      SmallIs(d);
    }
  }

  lemma CapitalIs(d: nat)
    requires 9 <= d < 33
    ensures Letter(d) == CAPITALS[d - 9]
  {
    if d < 17 {
      assert Letter(d) == "ABCDEFGH"[d - 9];
    } else if d < 22 {
      assert Letter(d) == "JKLMN"[d - 17];
    } else {
      assert Letter(d) == "PQRSTUVWXYZ"[d - 22];
    }
  }

  lemma SmallIs(d: nat)
    requires 33 <= d < 58
    ensures Letter(d) == SMALL[d - 33]
  {
    if d < 44 {
      assert Letter(d) == "abcdefghijk"[d - 33];
    } else {
      assert Letter(d) == "mnopqrstuvwxyz"[d - 44];
    }
  }

  lemma PlaceOfLetter(d: nat)
    requires d < 58
    ensures Place(Letter(d)) == Some(d)
  {
  }

  lemma LetterAtPlace(c: char)
    requires Place(c).Some?
    ensures Letter(Place(c).value) == c
  {
  }

  function Letters(d: seq<nat>): string
    requires AreDigits(58, d)
  {
    seq(|d|, i requires 0 <= i < |d| => Letter(d[i]))
  }

  ghost predicate InAlphabet(s: string) { forall i :: 0 <= i < |s| ==> Place(s[i]).Some? }

  /** The digits that a text over the alphabet stands for. */
  function Places(s: string): (d: seq<nat>)
    requires InAlphabet(s)
    ensures AreDigits(58, d)
  {
    seq(|s|, i requires 0 <= i < |s| => Place(s[i]).value)
  }

  lemma PlacesOfLetters(d: seq<nat>)
    requires AreDigits(58, d)
    ensures InAlphabet(Letters(d)) && Places(Letters(d)) == d
  {
    forall i | 0 <= i < |d|
      ensures Place(Letters(d)[i]) == Some(d[i])
    {
      PlaceOfLetter(d[i]);
    }
  }

  lemma LettersAtPlaces(s: string)
    requires InAlphabet(s)
    ensures Letters(Places(s)) == s
  {
    forall i | 0 <= i < |s|
      ensures Letters(Places(s))[i] == s[i]
    {
      LetterAtPlace(s[i]);
    }
  }

  // ----- the two directions, on digit strings -----

  /** Leading zeros as they are, then the same number in the other radix. */
  function Recode(from: nat, to: nat, d: seq<nat>): (r: seq<nat>)
    requires to > 1
    ensures AreDigits(to, r)
  {
    Zeros(LeadingZeros(d)) + Digits(to, Value(from, d))
  }

  lemma RecodeBack(from: nat, to: nat, d: seq<nat>)
    requires from > 1 && to > 1 && AreDigits(from, d)
    ensures Recode(to, from, Recode(from, to, d)) == d
  {
    var k, v := LeadingZeros(d), Value(from, d);
    LeadingZerosOf(k, Digits(to, v));
    ValueSkipsZeros(to, k, Digits(to, v));
    ValueOfDigits(to, v);
    DigitsOfValue(from, d);
  }

  /** What encoding gives. */
  function Encoded(b: seq<nat>): string { Letters(Recode(256, 58, b)) }

  predicate IsSpace(c: char) { c == ' ' || '\t' <= c <= '\r' }

  /** isspace: tab, line feed, vertical tab, form feed, carriage return and space. */
  lemma SpacesAre(c: char)
    ensures IsSpace(c) <==> c as int in {9, 10, 11, 12, 13, 32}
  {
  }

  ghost predicate SpacesIn(s: string, a: nat, b: nat)
    requires b <= |s|
  {
    forall i :: a <= i < b ==> IsSpace(s[i])
  }

  ghost predicate LettersIn(s: string, a: nat, b: nat)
    requires b <= |s|
  {
    forall i :: a <= i < b ==> Place(s[i]).Some?
  }

  /** What decoding accepts: text over the alphabet, with white space before and after it. */
  ghost predicate IsText(s: string, before: nat, after: nat) {
    before <= after <= |s| && SpacesIn(s, 0, before) && LettersIn(s, before, after) && SpacesIn(s, after, |s|)
  }

  lemma TextInAlphabet(s: string, a: nat, b: nat)
    requires a <= b <= |s|
    ensures InAlphabet(s[a..b]) <==> LettersIn(s, a, b)
  {
    if InAlphabet(s[a..b]) {
      forall i | a <= i < b
        ensures Place(s[i]).Some?
      {
        assert s[a..b][i - a] == s[i];
      }
    }
  }

  ghost function Decoded(t: string): seq<nat>
    requires InAlphabet(t)
  {
    Recode(58, 256, Places(t))
  }

  /** Decoding undoes encoding, for every byte string... */
  lemma DecodeEncoded(b: seq<nat>)
    requires AreBytes(b)
    ensures InAlphabet(Encoded(b)) && Decoded(Encoded(b)) == b
  {
    PlacesOfLetters(Recode(256, 58, b));
    RecodeBack(256, 58, b);
  }

  /** ... and encoding undoes decoding, for every text over the alphabet. */
  lemma EncodeDecoded(t: string)
    requires InAlphabet(t)
    ensures Encoded(Decoded(t)) == t
  {
    RecodeBack(58, 256, Places(t));
    LettersAtPlaces(t);
  }

  // ----- encoding -----

  /** The digits of `v` so far taken off `n`, last first. */
  lemma TakeDigit(v: nat, n: nat, tail: seq<nat>)
    requires v > 0 && Digits(58, n) == Digits(58, v) + tail
    ensures v / 58 < v && Digits(58, n) == Digits(58, v / 58) + ([v % 58] + tail)
  {
    QuotientSmaller(58, v);
  }

  /** The bytes with a zero in front are a number that is not negative. */
  lemma SetPositive(b: seq<nat>)
    requires AreBytes(b)
    ensures AreBytes(Reverse(b) + [0]) && SetVch(Reverse(b) + [0]) == Value(256, b)
  {
    ReverseAppend(b);
    ZeroInFront(b);
  }

  lemma ReverseAppend(b: seq<nat>)
    ensures Reverse(Reverse(b) + [0]) == [0] + b
  {
  }

  lemma ZeroInFront(b: seq<nat>)
    requires AreBytes(b)
    ensures AreBytes([0] + b) && FromMpi([0] + b) == Value(256, b)
  {
    OneZero(b);
  }

  /** EncodeBase58: digits from the last to the first, a letter for every leading zero, and the reversal. */
  method Encode(b: seq<nat>) returns (s: string)
    requires AreBytes(b)
    ensures s == Encoded(b)
  {
    SetPositive(b);
    var bn := SetVch(Reverse(b) + [0]);
    var str := TakeLetters(bn);
    var zeros := CountZeros(b);
    str := str + seq(zeros, _ => Letter(0));
    s := Reverse(str);
    WithZeros(zeros, Digits(58, bn));
  }

  /** The letters of the digits of `v`, last first. */
  method TakeLetters(v: nat) returns (str: string)
    ensures str == Reverse(Letters(Digits(58, v)))
  {
    var bn := v;
    str := [];
    ghost var tail: seq<nat> := [];
    while bn > 0
      invariant Taken(v, bn, tail, str)
    {
      LetterTaken(v, bn, tail, str);
      tail := [bn % 58] + tail;
      str := str + [Letter(bn % 58)];
      bn := bn / 58;
    }
  }

  /** `tail` are the digits taken off `v` so far, `str` their letters. */
  ghost predicate Taken(v: nat, bn: nat, tail: seq<nat>, str: string) {
    AreDigits(58, tail) && Digits(58, v) == Digits(58, bn) + tail && str == Reverse(Letters(tail))
  }

  lemma LetterTaken(v: nat, bn: nat, tail: seq<nat>, str: string)
    requires bn > 0 && Taken(v, bn, tail, str)
    ensures Taken(v, bn / 58, [bn % 58] + tail, str + [Letter(bn % 58)])
  {
    TakeDigit(bn, v, tail);
    ReverseLetters(bn % 58, tail);
  }

  lemma ReverseLetters(x: nat, tail: seq<nat>)
    requires x < 58 && AreDigits(58, tail)
    ensures AreDigits(58, [x] + tail) && Reverse(Letters([x] + tail)) == Reverse(Letters(tail)) + [Letter(x)]
  {
  }

  lemma WithZeros(k: nat, d: seq<nat>)
    requires AreDigits(58, d)
    ensures AreDigits(58, Zeros(k) + d) && Letters(Zeros(k) + d) == Reverse(Reverse(Letters(d)) + seq(k, _ => Letter(0)))
  {
  }

  method CountZeros(b: seq<nat>) returns (k: nat)
    ensures k == LeadingZeros(b)
  {
    k := 0;
    while k < |b| && b[k] == 0
      invariant 0 <= k <= |b| && LeadingZeros(b) == k + LeadingZeros(b[k..])
    {
      k := k + 1;
    }
  }

  // ----- decoding -----

  /** The signed little-endian form without a sign byte. */
  function StripSign(vch: seq<nat>): seq<nat> {
    var n := |vch|;
    if n >= 2 && vch[n - 1] == 0 && vch[n - 2] >= 128 then vch[..n - 1] else vch
  }

  lemma StrippedDigits(v: nat)
    ensures Reverse(StripSign(GetVch(v))) == Digits(256, v)
  {
    var m := Digits(256, v);
    if m != [] && m[0] >= 128 {
      assert ToMpi(v) == [0] + m;
      assert Reverse([0] + m)[..|m|] == Reverse(m);
    }
    ReverseTwice(m);
  }

  lemma AddPlace(s: string, a: nat, p: nat)
    requires a <= p < |s| && InAlphabet(s[a..p]) && Place(s[p]).Some?
    ensures InAlphabet(s[a..p + 1])
    ensures Value(58, Places(s[a..p + 1])) == Value(58, Places(s[a..p])) * 58 + Place(s[p]).value
  {
    var d := Places(s[a..p]);
    assert s[a..p + 1] == s[a..p] + [s[p]];
    assert Places(s[a..p + 1]) == d + [Place(s[p]).value];
    assert (d + [Place(s[p]).value])[..|d|] == d;
  }

  method SkipSpaces(s: string, from: nat) returns (p: nat)
    requires from <= |s|
    ensures from <= p <= |s| && SpacesIn(s, from, p) && (p < |s| ==> !IsSpace(s[p]))
  {
    p := from;
    while p < |s| && IsSpace(s[p])
      invariant from <= p <= |s| && SpacesIn(s, from, p)
    {
      p := p + 1;
    }
  }

  /** The digits from `from` on, to the first character outside the alphabet. */
  method ReadNumber(s: string, from: nat) returns (bn: nat, p: nat)
    requires from <= |s|
    ensures from <= p <= |s| && InAlphabet(s[from..p]) && bn == Value(58, Places(s[from..p]))
    ensures p < |s| ==> Place(s[p]).None?
  {
    bn, p := 0, from;
    while p < |s| && Place(s[p]).Some?
      invariant from <= p <= |s| && InAlphabet(s[from..p]) && bn == Value(58, Places(s[from..p]))
    {
      AddPlace(s, from, p);
      bn := bn * 58 + Place(s[p]).value;
      p := p + 1;
    }
  }

  /** The letters for zero at the front. */
  method CountOnes(s: string, from: nat, ghost p: nat) returns (k: nat)
    requires from <= p <= |s| && InAlphabet(s[from..p]) && (p < |s| ==> Place(s[p]).None?)
    ensures k == LeadingZeros(Places(s[from..p]))
  {
    k := 0;
    ghost var d := Places(s[from..p]);
    while from + k < |s| && s[from + k] == Letter(0)
      invariant from + k <= p && LeadingZeros(d) == k + LeadingZeros(d[k..])
    {
      PlaceOfLetter(0);
      assert from + k < p;
      assert d[k] == 0;
      k := k + 1;
    }
    if from + k < p {
      LetterAtPlace(s[from + k]);
    }
  }

  /** DecodeBase58: the bytes of the text between the white space, or nothing. */
  method Decode(s: string) returns (r: Option<seq<nat>>)
    ensures forall v :: DecodesTo(s, v) <==> r == Some(v)
  {
    var start := SkipSpaces(s, 0);
    var bn, p := ReadNumber(s, start);
    var end := SkipSpaces(s, p);
    TextInAlphabet(s, start, p);
    if end < |s| {
      NoText(s, start, p, end);
      NoDecoding(s);
      return None;
    }
    var v := NumberToBytes(s, start, p, bn);
    OneDecoding(s, start, p, v);
    r := Some(v);
  }

  /** The bytes of the number, behind one zero for every letter for zero in front. */
  method NumberToBytes(s: string, start: nat, ghost p: nat, bn: nat) returns (v: seq<nat>)
    requires start <= p <= |s| && InAlphabet(s[start..p]) && (p < |s| ==> Place(s[p]).None?)
    requires bn == Value(58, Places(s[start..p]))
    ensures v == Decoded(s[start..p])
  {
    var zeros := CountOnes(s, start, p);
    StrippedDigits(bn);
    v := Zeros(zeros) + Reverse(StripSign(GetVch(bn)));
  }

  lemma NoDecoding(s: string)
    requires forall before: nat, after: nat :: !IsText(s, before, after)
    ensures forall v :: !DecodesTo(s, v)
  {
  }

  lemma OneDecoding(s: string, start: nat, p: nat, v: seq<nat>)
    requires IsText(s, start, p) && v == TextBytes(s, start, p)
    ensures forall w :: DecodesTo(s, w) <==> w == v
  {
    OnlyText(s, start, p);
  }

  /** The bytes of the text from `before` to `after`. */
  ghost function TextBytes(s: string, before: nat, after: nat): seq<nat>
    requires IsText(s, before, after)
  {
    TextInAlphabet(s, before, after);
    Decoded(s[before..after])
  }

  /** The text in `s` stands for the bytes `v`. */
  ghost predicate DecodesTo(s: string, v: seq<nat>) {
    exists before: nat, after: nat :: IsText(s, before, after) && v == TextBytes(s, before, after)
  }

  lemma SpacesOutside()
    ensures forall c {:trigger Place(c)} {:trigger IsSpace(c)} :: !(IsSpace(c) && Place(c).Some?)
  {
  }

  /** The text between the white space is the same however it is delimited. */
  lemma OnlyText(s: string, start: nat, end: nat)
    requires IsText(s, start, end)
    ensures forall a: nat, b: nat :: IsText(s, a, b) ==> TextBytes(s, a, b) == TextBytes(s, start, end)
  {
    forall a: nat, b: nat | IsText(s, a, b)
      ensures TextBytes(s, a, b) == TextBytes(s, start, end)
    {
      TextUnique(s, a, b, start, end);
    }
  }

  lemma TextUnique(s: string, a: nat, b: nat, c: nat, d: nat)
    requires IsText(s, a, b) && IsText(s, c, d)
    ensures s[a..b] == s[c..d]
  {
    if a < b {
      TextWithin(s, a, b, c, d);
    }
    if c < d {
      TextWithin(s, c, d, a, b);
    }
  }

  lemma TextWithin(s: string, a: nat, b: nat, c: nat, d: nat)
    requires IsText(s, a, b) && IsText(s, c, d) && a < b
    ensures c <= a && b <= d
  {
    SpacesOutside();
    assert Place(s[a]).Some? && Place(s[b - 1]).Some?;
  }

  /** A character after the text and its white space, or in the middle of it, is fatal. */
  lemma NoText(s: string, start: nat, p: nat, end: nat)
    requires start <= p <= end < |s| && SpacesIn(s, 0, start) && LettersIn(s, start, p) && SpacesIn(s, p, end)
    requires Place(s[p]).None? && !IsSpace(s[end]) && !IsSpace(s[start])
    ensures forall before: nat, after: nat :: !IsText(s, before, after)
  {
    SpacesOutside();
  }

  /** A text over the alphabet stands for exactly the bytes that encode to it. */
  lemma DecodesExactly(t: string, v: seq<nat>)
    requires AreBytes(v)
    ensures t == Encoded(v) ==> DecodesTo(t, v)
    ensures InAlphabet(t) && DecodesTo(t, v) ==> t == Encoded(v)
  {
    if t == Encoded(v) {
      DecodeEncoded(v);
    }
    if InAlphabet(t) {
      assert t[0..|t|] == t;
      TextInAlphabet(t, 0, |t|);
      assert IsText(t, 0, |t|);
      OnlyText(t, 0, |t|);
      EncodeDecoded(t);
    }
  }

  lemma DecodesOnce(s: string, v: seq<nat>, w: seq<nat>)
    requires DecodesTo(s, v) && DecodesTo(s, w)
    ensures v == w && AreBytes(v)
  {
    var a: nat, b: nat :| IsText(s, a, b) && v == TextBytes(s, a, b);
    OnlyText(s, a, b);
  }

  // ----- with a checksum -----

  type Digest = d: seq<nat> | |d| == 32 && AreBytes(d) ghost witness Zeros(32)

  type Hasher = seq<nat> -> Digest

  /** The bytes with the first four bytes of their hash. */
  function Sealed(hash: Hasher, b: seq<nat>): seq<nat> { b + hash(b)[..4] }

  lemma SealedBytes(hash: Hasher, b: seq<nat>)
    requires AreBytes(b)
    ensures AreBytes(Sealed(hash, b))
  {
  }

  lemma SealedOnce(hash: Hasher, v: seq<nat>, b: seq<nat>)
    requires v == Sealed(hash, b)
    ensures |v| >= 4 && b == v[..|v| - 4] && v[|v| - 4..] == hash(v[..|v| - 4])[..4]
  {
  }

  lemma SealedTwice(hash: Hasher, s: string, b: seq<nat>, c: seq<nat>)
    requires DecodesTo(s, Sealed(hash, b)) && DecodesTo(s, Sealed(hash, c))
    ensures b == c
  {
    var v, w := Sealed(hash, b), Sealed(hash, c);
    DecodesOnce(s, v, w);
    SealedOnce(hash, v, b);
    SealedOnce(hash, w, c);
  }

  /** EncodeBase58Check. */
  method EncodeCheck(hash: Hasher, b: seq<nat>) returns (s: string)
    requires AreBytes(b)
    ensures s == Encoded(Sealed(hash, b)) && DecodesTo(s, Sealed(hash, b))
  {
    SealedBytes(hash, b);
    s := Encode(Sealed(hash, b));
    DecodesExactly(s, Sealed(hash, b));
  }

  /** DecodeBase58Check: the bytes under a correct checksum, or none. */
  method DecodeCheck(hash: Hasher, s: string) returns (ok: bool, b: seq<nat>)
    ensures forall c :: DecodesTo(s, Sealed(hash, c)) <==> ok && c == b
    ensures AreBytes(b) && (!ok ==> b == [])
  {
    var r := Decode(s);
    if r.None? || |r.value| < 4 {
      return false, [];
    }
    var v := r.value;
    DecodesOnce(s, v, v);
    var n := |v| - 4;
    ok := hash(v[..n])[..4] == v[n..];
    b := if ok then v[..n] else [];
    forall c
      ensures DecodesTo(s, Sealed(hash, c)) <==> ok && c == b
    {
      if DecodesTo(s, Sealed(hash, c)) {
        SealedOnce(hash, v, c);
      }
    }
  }

  /** CBase58Data: a version byte and data. */
  class Data {
    const hash: Hasher
    var nVersion: nat
    var vchData: seq<nat>

    ghost predicate Valid()
      reads this
    {
      AreBytes([nVersion] + vchData)
    }

    constructor (hash: Hasher)
      ensures Valid() && nVersion == 0 && vchData == [] && this.hash == hash
    {
      this.hash, nVersion, vchData := hash, 0, [];
    }

    method SetString(s: string) returns (ok: bool)
      modifies this
      ensures Valid() && (!ok ==> nVersion == 0 && vchData == [])
      ensures ok <==> exists c :: c != [] && DecodesTo(s, Sealed(hash, c))
      ensures ok ==> DecodesTo(s, Sealed(hash, [nVersion] + vchData))
    {
      var valid, v := DecodeCheck(hash, s);
      ok := v != [];
      nVersion, vchData := if ok then v[0] else 0, if ok then v[1..] else [];
      assert ok ==> [nVersion] + vchData == v && DecodesTo(s, Sealed(hash, v));
    }

    method ToString() returns (s: string)
      requires Valid()
      ensures s == Encoded(Sealed(hash, [nVersion] + vchData))
      ensures DecodesTo(s, Sealed(hash, [nVersion] + vchData))
    {
      s := EncodeCheck(hash, [nVersion] + vchData);
    }
  }

  /** Reading back what `ToString` wrote changes nothing. */
  method WriteThenRead(d: Data) returns (ok: bool)
    requires d.Valid()
    modifies d
    ensures ok && d.nVersion == old(d.nVersion) && d.vchData == old(d.vchData)
  {
    ghost var was := [d.nVersion] + d.vchData;
    var s := d.ToString();
    ok := d.SetString(s);
    ghost var now := [d.nVersion] + d.vchData;
    SealedTwice(d.hash, s, was, now);
    assert was[1..] == old(d.vchData) && now[1..] == d.vchData;
  }

  /** Writing what `SetString` read from a text over the alphabet gives the text again. */
  method ReadThenWrite(d: Data, s: string) returns (ok: bool, t: string)
    modifies d
    ensures ok && InAlphabet(s) ==> t == s
  {
    ok := d.SetString(s);
    t := d.ToString();
    SealedBytes(d.hash, [d.nVersion] + d.vchData);
    DecodesExactly(s, Sealed(d.hash, [d.nVersion] + d.vchData));
  }
}
