/** The code of `pbkdf2.cpp`. */
module Pbkdf2 {
  import opened Buffering
  import opened Octets
  import opened Pbkdf2Spec

  /** HMAC_SHA256_CTX: what the inner and the outer hash have been fed. Contexts are copied by value. */
  datatype HmacContext = HmacContext(inner: seq<Octet>, outer: seq<Octet>)

  /** The context of a key after `m`. */
  function Keyed(sha: Sha, key: seq<Octet>, m: seq<Octet>): HmacContext {
    var k := KeyBlock(sha, key);
    HmacContext(Padded(k, IPAD) + m, Padded(k, OPAD))
  }

  /** memset of a pad, and the loop that adds the key to it. */
  method Pad(key: seq<Octet>, byte: Octet) returns (pad: seq<Octet>)
    requires |key| <= 64
    ensures pad == Padded(key + ZeroOctets(64 - |key|), byte)
  {
    var a := new Octet[64](_ => byte);
    for i := 0 to |key|
      invariant forall k :: 0 <= k < i ==> a[k] == XorOctet(key[k], byte)
      invariant forall k :: i <= k < 64 ==> a[k] == byte
    {
      a[i] := XorOctet(a[i], key[i]);
    }
    pad := a[..];
    assert XorOctet(ZeroOctets(1)[0], byte) == byte;
  }

  /** HMAC_SHA256_Init. */
  method Init(sha: Sha, key: seq<Octet>) returns (ctx: HmacContext)
    ensures ctx == Keyed(sha, key, [])
  {
    var short := if |key| > 64 then sha(key) else key;
    var inner := Pad(short, IPAD);
    var outer := Pad(short, OPAD);
    ctx := HmacContext(inner, outer);
  }

  /** HMAC_SHA256_Update. */
  method Update(ctx: HmacContext, data: seq<Octet>) returns (next: HmacContext)
    ensures next == ctx.(inner := ctx.inner + data)
  {
    next := ctx.(inner := ctx.inner + data);
  }

  /** HMAC_SHA256_Final: on a context of `key` fed with `m`, the code of RFC 2104. */
  method Final(sha: Sha, ctx: HmacContext, ghost key: seq<Octet>, ghost m: seq<Octet>) returns (digest: Digest)
    requires ctx == Keyed(sha, key, m)
    ensures digest == Hmac(sha, key, m)
  {
    var hashed := sha(ctx.inner);
    digest := sha(ctx.outer + hashed);
  }

  /** A count of zero works like one. */
  function Rounds(c: nat): (n: nat)
    ensures n >= 1
  {
    if c < 1 then 1 else c
  }

  /** The iterations of one block: the running sum is updated in place. */
  method Iterate(sha: Sha, password: seq<Octet>, ghost salt: seq<Octet>, c: nat, ghost i: nat, first: Digest, t: array<Octet>)
    requires t.Length == 32 && first == U(sha, password, salt, i, 1) && t[..] == first
    modifies t
    ensures t[..] == F(sha, password, salt, Rounds(c), i)
  {
    var u, j := first, 2;
    while j <= c
      invariant 2 <= j && (c >= 1 ==> j <= c + 1) && (c < 1 ==> j == 2)
      invariant u == U(sha, password, salt, i, j - 1) && t[..] == F(sha, password, salt, j - 1, i)
      decreases c + 1 - j
    {
      u := Next(sha, password, u);
      AddInPlace(t, u);
      j := j + 1;
    }
  }

  /** One application of the keyed hash. */
  method Next(sha: Sha, password: seq<Octet>, u: Digest) returns (v: Digest)
    ensures v == Hmac(sha, password, u)
  {
    var ctx := Init(sha, password);
    ctx := Update(ctx, u);
    assert ctx == Keyed(sha, password, u);
    v := Final(sha, ctx, password, u);
  }

  method AddInPlace(t: array<Octet>, u: Digest)
    requires t.Length == 32
    modifies t
    ensures t[..] == Xor(old(t[..]), u)
  {
    ghost var was: Digest := t[..];
    for k := 0 to 32
      invariant forall i :: 0 <= i < k ==> t[i] == XorOctet(was[i], u[i])
      invariant forall i :: k <= i < 32 ==> t[i] == was[i]
    {
      t[k] := XorOctet(t[k], u[k]);
    }
  }

  /** One block T_i. */
  method Block(sha: Sha, password: seq<Octet>, salted: HmacContext, ghost salt: seq<Octet>, c: nat, i: nat) returns (r: Digest)
    requires salted == Keyed(sha, password, salt)
    ensures r == F(sha, password, salt, Rounds(c), i)
  {
    var ctx := Update(salted, Encode(i, 4));
    assert ctx.inner == Padded(KeyBlock(sha, password), IPAD) + (salt + Encode(i, 4));
    var u := Final(sha, ctx, password, salt + Encode(i, 4));
    var t := new Octet[32](k requires 0 <= k < 32 => u[k]);
    assert t[..] == u;
    Iterate(sha, password, salt, c, i, u, t);
    r := t[..];
  }

  /** How far the first `i` blocks reach. */
  function Done(i: nat, dkLen: nat): (n: nat)
    ensures n <= 32 * i && n <= dkLen
  {
    if i * 32 < dkLen then i * 32 else dkLen
  }

  /** The wanted part of the first `i` blocks is in place. */
  ghost predicate Filled(buf: seq<Octet>, i: nat, dkLen: nat, blocks: seq<Octet>) {
    dkLen <= |buf| && |blocks| == 32 * i && buf[..Done(i, dkLen)] == blocks[..Done(i, dkLen)]
  }

  /** The copy of a block, or of the part of it that is wanted, behind the blocks before it. */
  method Place(buf: array<Octet>, i: nat, t: Digest, dkLen: nat, ghost before: seq<Octet>)
    requires i * 32 < dkLen && Filled(buf[..], i, dkLen, before)
    modifies buf
    ensures Filled(buf[..], i + 1, dkLen, before + t)
    ensures buf[dkLen..] == old(buf[dkLen..])
  {
    var clen := if dkLen - i * 32 > 32 then 32 else dkLen - i * 32;
    Copy(buf, i * 32, t[..clen]);
    assert buf[..][..i * 32 + clen] == buf[..i * 32 + clen];
  }

  lemma AllBlocks(i: nat, dkLen: nat)
    requires dkLen <= i * 32 && i <= (dkLen + 31) / 32
    ensures Done(i, dkLen) == dkLen && i == (dkLen + 31) / 32
  {
  }

  /** PBKDF2_SHA256: the derived key of RFC 8018 in the first `dkLen` places, the others as they were. */
  method Derive(sha: Sha, password: seq<Octet>, salt: seq<Octet>, c: nat, buf: array<Octet>, dkLen: nat)
    requires dkLen <= buf.Length
    modifies buf
    ensures buf[..dkLen] == DerivedKey(sha, password, salt, Rounds(c), dkLen)
    ensures buf[dkLen..] == old(buf[dkLen..])
  {
    var salted := Init(sha, password);
    salted := Update(salted, salt);
    assert salted == Keyed(sha, password, salt);
    var i := 0;
    while i * 32 < dkLen
      invariant 0 <= i <= (dkLen + 31) / 32
      invariant Filled(buf[..], i, dkLen, T(sha, password, salt, Rounds(c), i))
      invariant buf[dkLen..] == old(buf[dkLen..])
    {
      var t := Block(sha, password, salted, salt, c, i + 1);
      Place(buf, i, t, dkLen, T(sha, password, salt, Rounds(c), i));
      i := i + 1;
    }
    AllBlocks(i, dkLen);
  }
}
