/** The context of `keccak.c`. */
module KeccakContext {
  import opened Arithmetic
  import opened KeccakPermutation
  import opened Buffering
  import opened KeccakCode
  import opened KeccakConstants
  import opened Octets
  import opened Streaming
  import opened SpongeSpec

  /** What the code does with one block: INPUT_BUF, then KECCAK_F_1600. */
  function CodeStep(rc: Constants): (Lanes, seq<Octet>) -> Lanes {
    (s: Lanes, b: seq<Octet>) => CodeRounds(AbsorbBits(s, Bits(b)), rc, |rc|)
  }

  lemma StepFlipped(rc: Constants, s: Lanes, b: seq<Octet>)
    ensures CodeStep(rc)(FlipAll(s, AtRound), b) == FlipAll(Step(rc)(s, Bits(b)), AtRound)
  {
    AbsorbFlipped(s, Bits(b));
    CodeRoundsFlipped(AbsorbBits(s, Bits(b)), rc, |rc|);
  }

  /** After whole blocks, the code holds the state of the plain sponge with six lanes complemented. */
  lemma {:induction false} FoldFlipped(rc: Constants, lim: nat, s: Lanes, m: seq<Octet>)
    requires lim > 0
    ensures Fold(CodeStep(rc), lim, FlipAll(s, AtRound), m) == FlipAll(Fold(Step(rc), 8 * lim, s, Bits(m)), AtRound)
    decreases |m|
  {
    if |m| >= lim {
      StepFlipped(rc, s, m[..lim]);
      BitsSplit(m, lim);
      FoldFlipped(rc, lim, Step(rc)(s, Bits(m[..lim])), m[lim..]);
    }
  }

  lemma FlipAllTwice(s: Lanes)
    ensures FlipAll(FlipAll(s, AtRound), AtRound) == s
  {
    forall k | 0 <= k < 25
      ensures FlipAll(FlipAll(s, AtRound), AtRound)[k] == s[k]
    {
      FlipTwice(s[k], Complemented(AtRound, k));
    }
  }

  // ----- padding -----

  /** The byte `eb`: the `n` top bits of `ub`, a one, and zeros. */
  function LowExtraByte(ub: Octet, n: nat): Octet
    requires n < 8
  {
    ub[8 - n..] + [true] + seq(7 - n, _ => false)
  }

  const LAST: Octet := [false, false, false, false, false, false, false, true]

  /** The byte `eb`, then zero bytes, then 0x80. */
  lemma LongPadding(lim: nat, ptr: nat, ub: Octet, n: nat, zeros: nat)
    requires ptr < lim && n < 8 && (ptr + 2 + zeros == lim || (ptr + 2 + zeros == 2 * lim && n == 7 && ptr == lim - 1))
    ensures Bits([LowExtraByte(ub, n)] + ZeroOctets(zeros) + [LAST]) == ub[8 - n..] + Padding(8 * lim, 8 * ptr + n)
  {
    BitsConcat([LowExtraByte(ub, n)] + ZeroOctets(zeros), [LAST]);
    BitsConcat([LowExtraByte(ub, n)], ZeroOctets(zeros));
    ZeroBits(zeros);
    OneOctet(LAST);
    OneOctet(LowExtraByte(ub, n));
    PaddingLength(lim, ptr, n, 7 - n + 8 * zeros + 7);
    JoinZeros(ub[8 - n..], 7 - n, 8 * zeros, 7);
  }

  lemma PaddingLength(lim: nat, ptr: nat, n: nat, j: nat)
    requires ptr < lim && n < 8 && j < 8 * lim
    requires 8 * ptr + n + 2 + j == 8 * lim || 8 * ptr + n + 2 + j == 16 * lim
    ensures (-(8 * ptr + n) - 2) % (8 * lim) == j
  {
    var r := 8 * lim;
    var q := if 8 * ptr + n + 2 + j == r then -1 else -2;
    assert -(8 * ptr + n) - 2 == q * r + j;
    Remainder(-(8 * ptr + n) - 2, r, q, j);
  }

  lemma JoinZeros(u: seq<bool>, i: nat, j: nat, k: nat)
    ensures u + [true] + seq(i, _ => false) + seq(j, _ => false) + (seq(k, _ => false) + [true])
         == u + ([true] + seq(i + j + k, _ => false) + [true])
  {
  }

  /** `eb | 0x80`, where `n < 7` and one byte is left. */
  lemma ShortPadding(lim: nat, ptr: nat, ub: Octet, n: nat)
    requires ptr == lim - 1 && n < 7
    ensures Bits([LowExtraByte(ub, n)[7 := true]]) == ub[8 - n..] + Padding(8 * lim, 8 * ptr + n)
  {
    OneOctet(LowExtraByte(ub, n)[7 := true]);
    PaddingLength(lim, ptr, n, 6 - n);
  }

  /** The final bytes that the close routine makes: the extra bits, and pad10*1. */
  method FinalBytes(lim: nat, ptr: nat, ub: Octet, n: nat) returns (tmp: seq<Octet>)
    requires ptr < lim && n < 8
    ensures Bits(tmp) == ub[8 - n..] + Padding(8 * lim, 8 * ptr + n)
  {
    var eb := LowExtraByte(ub, n);
    if ptr == lim - 1 {
      if n == 7 {
        tmp := [eb] + ZeroOctets(lim - 1) + [LAST];
        LongPadding(lim, ptr, ub, n, lim - 1);
      } else {
        tmp := [eb[7 := true]];
        ShortPadding(lim, ptr, ub, n);
      }
    } else {
      var j := lim - ptr;
      tmp := [eb] + ZeroOctets(j - 2) + [LAST];
      LongPadding(lim, ptr, ub, n, j - 2);
    }
  }

  lemma PaddingPeriodic(lim: nat, q: nat, ptr: nat, n: nat)
    requires ptr < lim && n < 8
    ensures Padding(8 * lim, 8 * (q * lim + ptr) + n) == Padding(8 * lim, 8 * ptr + n)
  {
    var r := 8 * lim;
    var a := -(8 * ptr + n) - 2;
    assert -(8 * (q * lim + ptr) + n) - 2 == a - q * r by {
      assert 8 * (q * lim) == q * (8 * lim);
    }
    var d, j := a / r, a % r;
    assert a - q * r == (d - q) * r + j;
    Remainder(a - q * r, r, d - q, j);
  }

  // ----- the context -----

  /** Where the code starts: lanes 1, 2, 8, 12, 17 and 20 are all ones. */
  function Start(): Lanes { FlipAll(Zero(), AtRound) }

  /** sph_dec64le: the bits of eight bytes, in order. */
  function DecodeLane(b: seq<Octet>): Lane
    requires |b| == 8
  {
    Bits(b)
  }

  lemma DecodedLane(v: Lane, k: nat, block: seq<Octet>)
    requires 8 * k + 8 <= |block|
    ensures Xor(v, DecodeLane(block[8 * k..8 * k + 8])) == AbsorbLane(v, k, Bits(block))
  {
    var b := block[8 * k..8 * k + 8];
    BitsSplit(block, 8 * k);
    BitsSplit(block[8 * k..], 8);
    assert b == block[8 * k..][..8];
  }

  lemma UntouchedLane(v: Lane, k: nat, block: seq<Octet>)
    requires |block| <= 8 * k
    ensures AbsorbLane(v, k, Bits(block)) == v
  {
  }

  /** The macro INPUT_BUF. */
  method InputBuf(wide: array<Lane>, block: seq<Octet>)
    requires wide.Length == 25 && |block| % 8 == 0 && |block| <= 200
    modifies wide
    ensures wide[..] == AbsorbBits(old(wide[..]), Bits(block))
  {
    ghost var s: Lanes := wide[..];
    var k := 0;
    while 8 * k < |block|
      invariant 0 <= 8 * k <= |block|
      invariant forall j :: 0 <= j < k ==> wide[j] == AbsorbLane(s[j], j, Bits(block))
      invariant forall j :: k <= j < 25 ==> wide[j] == s[j]
    {
      DecodedLane(wide[k], k, block);
      wide[k] := Xor(wide[k], DecodeLane(block[8 * k..8 * k + 8]));
      k := k + 1;
    }
    forall j | k <= j < 25
      ensures AbsorbLane(s[j], j, Bits(block)) == s[j]
    {
      UntouchedLane(s[j], j, block);
    }
  }

  /** Names the pairs of state and block for which `IsStep` is used. */
  predicate IsAbsorbed(s: Lanes, b: seq<Octet>) { true }

  /** `step` is what the code does with one block. */
  ghost predicate IsStep(step: (Lanes, seq<Octet>) -> Lanes, rc: Constants) {
    forall s, b {:trigger IsAbsorbed(s, b)} :: step(s, b) == CodeRounds(AbsorbBits(s, Bits(b)), rc, |rc|)
  }

  lemma StepIs(rc: Constants)
    ensures IsStep(CodeStep(rc), rc)
  {
  }

  lemma AbsorbIs(step: (Lanes, seq<Octet>) -> Lanes, rc: Constants, s: Lanes, b: seq<Octet>, x: Lanes, y: Lanes)
    requires IsStep(step, rc) && x == AbsorbBits(s, Bits(b)) && y == CodeRounds(x, rc, |rc|)
    ensures y == step(s, b)
  {
    assert IsAbsorbed(s, b);
  }

  method Absorb(wide: array<Lane>, block: seq<Octet>, rc: Constants, ghost step: (Lanes, seq<Octet>) -> Lanes)
    requires wide.Length == 25 && |block| % 8 == 0 && |block| <= 200 && IsStep(step, rc)
    modifies wide
    ensures wide[..] == step(old(wide[..]), block)
  {
    ghost var s: Lanes := wide[..];
    InputBuf(wide, block);
    ghost var x: Lanes := wide[..];
    KeccakFInPlace(wide, rc);
    AbsorbIs(step, rc, s, block, x, wide[..]);
  }

  // ----- closing -----

  /** The final bytes complete the padded bit string of the sponge. */
  lemma FinalBits(lim: nat, m: seq<Octet>, ub: Octet, n: nat, tmp: seq<Octet>)
    requires lim > 0 && n < 8 && Bits(tmp) == ub[8 - n..] + Padding(8 * lim, 8 * |Rest(lim, m)| + n)
    ensures var all := Bits(m) + ub[8 - n..]; Bits(m + tmp) == all + Padding(8 * lim, |all|)
  {
    BitsConcat(m, tmp);
    BlocksAndRest(lim, m);
    PaddingPeriodic(lim, Blocks(lim, m), |Rest(lim, m)|, n);
    Associate(Bits(m), ub[8 - n..], Padding(8 * lim, 8 * |Rest(lim, m)| + n));
  }

  /** With the lanes complemented back, the code has the state of the plain sponge on the padded message. */
  lemma FinalState(rc: Constants, lim: nat, m: seq<Octet>, ub: Octet, n: nat, tmp: seq<Octet>, wide: Lanes)
    requires lim > 0 && n < 8 && Bits(tmp) == ub[8 - n..] + Padding(8 * lim, 8 * |Rest(lim, m)| + n)
    requires wide == Fold(CodeStep(rc), lim, Start(), m + tmp)
    ensures var all := Bits(m) + ub[8 - n..];
      FlipAll(wide, AtRound) == Fold(Step(rc), 8 * lim, Zero(), all + Padding(8 * lim, |all|))
  {
    FinalBits(lim, m, ub, n, tmp);
    FoldFlipped(rc, lim, Zero(), m + tmp);
    FlipAllTwice(Fold(Step(rc), 8 * lim, Zero(), Bits(m + tmp)));
  }

  lemma FinalDigest(rc: Constants, lim: nat, m: seq<Octet>, ub: Octet, n: nat, tmp: seq<Octet>, wide: Lanes, dst: seq<Octet>)
    requires 0 < lim <= 200 && n < 8 && |dst| <= lim
    requires Bits(tmp) == ub[8 - n..] + Padding(8 * lim, 8 * |Rest(lim, m)| + n)
    requires wide == Fold(CodeStep(rc), lim, Start(), m + tmp)
    requires Bits(dst) == Squeeze(FlipAll(wide, AtRound), 8 * |dst|)
    ensures Bits(dst) == Keccak(rc, 8 * lim, 8 * |dst|, Bits(m) + ub[8 - n..])
  {
    FinalState(rc, lim, m, ub, n, tmp, wide);
  }

  /** sph_enc64le. */
  function EncodeLane(v: Lane): (b: seq<Octet>)
    ensures |b| == 8
  {
    [v[..8], v[8..16], v[16..24], v[24..32], v[32..40], v[40..48], v[48..56], v[56..]]
  }

  lemma EncodedLane(v: Lane)
    ensures Bits(EncodeLane(v)) == v
  {
    var b := EncodeLane(v);
    forall i | 0 <= i < 64
      ensures Bits(b)[i] == v[i]
    {
      var k := i / 8;
      assert b[k] == v[8 * k..8 * k + 8];
    }
  }

  lemma SqueezeLane(s: Lanes, k: nat)
    requires k < 25
    ensures Squeeze(s, 64 * k + 64) == Squeeze(s, 64 * k) + s[k]
  {
    var all, more := Squeeze(s, 64 * k + 64), Squeeze(s, 64 * k) + s[k];
    forall i | 0 <= i < 64 * k + 64
      ensures all[i] == more[i]
    {
      if i >= 64 * k {
        assert i / 64 == k && i % 64 == i - 64 * k;
      }
    }
  }

  /** The first `d` bytes of the state. */
  method Output(wide: array<Lane>, d: nat) returns (dst: seq<Octet>)
    requires wide.Length == 25 && d <= 192
    ensures |dst| == d && Bits(dst) == Squeeze(wide[..], 8 * d)
  {
    var tmp: seq<Octet>, k := [], 0;
    while 8 * k < d
      invariant 8 * k <= d + 7 && |tmp| == 8 * k && Bits(tmp) == Squeeze(wide[..], 64 * k)
    {
      BitsConcat(tmp, EncodeLane(wide[k]));
      EncodedLane(wide[k]);
      SqueezeLane(wide[..], k);
      tmp, k := tmp + EncodeLane(wide[k]), k + 1;
    }
    dst := tmp[..d];
    BitsSplit(tmp, d);
  }

  /** Bytes of output for a block size. */
  function DigestSize(lim: nat): nat
    requires lim <= 200
  {
    (200 - lim) / 2
  }

  class Context {
    const rc: Constants
    var wide: array<Lane>
    var buf: array<Octet>
    var ptr: nat
    var lim: nat
    /** What has been absorbed since the last start. */
    ghost var message: seq<Octet>

    ghost predicate Shaped()
      reads this
    {
      wide.Length == 25 && buf.Length == 144 && (lim == 144 || lim == 136 || lim == 104 || lim == 72)
    }

    /** The context stands at its message, for any step and start. */
    ghost predicate Ready(step: (Lanes, seq<Octet>) -> Lanes, start: Lanes)
      reads this, wide, buf
    {
      Shaped() && ptr < lim && StandsAt<Lanes, Octet>(step, lim, start, message, wide[..], buf[..ptr])
    }

    ghost predicate Valid()
      reads this, wide, buf
    {
      Ready(CodeStep(rc), Start())
    }

    constructor (rc: Constants, outSize: nat)
      requires outSize == 224 || outSize == 256 || outSize == 384 || outSize == 512
      ensures Valid() && message == [] && lim == 200 - outSize / 4 && this.rc == rc && fresh(wide) && fresh(buf)
    {
      this.rc := rc;
      wide := new Lane[25](_ => ZeroLane());
      buf := new Octet[144](_ => LAST);
      ptr, lim, message := 0, 72, [];
      new;
      Init(outSize);
    }

    /** keccak_init. */
    method Init(outSize: nat)
      requires wide.Length == 25 && buf.Length == 144
      requires outSize == 224 || outSize == 256 || outSize == 384 || outSize == 512
      modifies this, wide
      ensures Valid() && message == [] && ptr == 0 && lim == 200 - outSize / 4
      ensures wide == old(wide) && buf == old(buf)
    {
      for i := 0 to 25
        modifies wide
        invariant forall k :: 0 <= k < i ==> wide[k] == ZeroLane()
      {
        wide[i] := ZeroLane();
      }
      ghost var s: Lanes := wide[..];
      assert s == Zero();
      FlipSix(wide);
      ptr, lim, message := 0, 200 - outSize / 4, [];
      assert wide[..] == Start();
    }

    /** keccak_core. */
    method Update(data: seq<Octet>)
      requires Valid()
      modifies this, wide, buf
      ensures Valid() && message == old(message) + data
      ensures wide == old(wide) && buf == old(buf) && lim == old(lim)
    {
      StepIs(rc);
      Take(data, CodeStep(rc), Start());
    }

    method Take(data: seq<Octet>, ghost step: (Lanes, seq<Octet>) -> Lanes, ghost start: Lanes)
      requires Ready(step, start) && IsStep(step, rc)
      modifies this, wide, buf
      ensures Ready(step, start) && message == old(message) + data
      ensures wide == old(wide) && buf == old(buf) && lim == old(lim)
    {
      if |data| < lim - ptr {
        Keep(data, step, start);
        return;
      }
      var rest := data;
      while rest != []
        invariant Ready(step, start) && wide == old(wide) && buf == old(buf) && lim == old(lim)
        invariant message + rest == old(message) + data
        decreases |rest|
      {
        var clen := if lim - ptr > |rest| then |rest| else lim - ptr;
        ghost var was := message;
        Chunk(rest[..clen], step, start);
        SplitOff(was, rest, clen);
        rest := rest[clen..];
      }
    }

    /** keccak_close: the extra bits, the padding, the digest; then the context is as new. */
    method Close(ub: Octet, n: nat) returns (dst: seq<Octet>)
      requires Valid() && n < 8
      modifies this, wide, buf
      ensures Valid() && message == [] && ptr == 0 && lim == old(lim)
      ensures wide == old(wide) && buf == old(buf)
      ensures |dst| == DigestSize(lim)
      ensures Bits(dst) == Keccak(rc, 8 * lim, 8 * |dst|, Bits(old(message)) + ub[8 - n..])
    {
      var tmp := FinalBytes(lim, ptr, ub, n);
      Update(tmp);
      ghost var s: Lanes := wide[..];
      dst := Finish();
      FinalDigest(rc, lim, old(message), ub, n, tmp, s, dst);
    }

    /** Complements the lanes back, reads the digest and starts again. */
    method Finish() returns (dst: seq<Octet>)
      requires Valid()
      modifies this, wide
      ensures Valid() && message == [] && ptr == 0 && lim == old(lim)
      ensures wide == old(wide) && buf == old(buf)
      ensures |dst| == DigestSize(lim) && Bits(dst) == Squeeze(FlipAll(old(wide[..]), AtRound), 8 * |dst|)
    {
      var d := DigestSize(lim);
      FlipSix(wide);
      dst := Output(wide, d);
      Init(8 * d);
    }

    /** Bytes that do not fill the buffer are only kept. */
    method Keep(data: seq<Octet>, ghost step: (Lanes, seq<Octet>) -> Lanes, ghost start: Lanes)
      requires Ready(step, start) && ptr + |data| < lim
      modifies this, buf
      ensures Ready(step, start) && message == old(message) + data
      ensures wide == old(wide) && buf == old(buf) && lim == old(lim) && ptr == old(ptr) + |data|
    {
      StandsAtMore<Lanes, Octet>(step, lim, start, message, wide[..], buf[..ptr], data);
      Copy(buf, ptr, data);
      ptr, message := ptr + |data|, message + data;
    }

    /** One turn of the loop: fill the buffer, and absorb it once it is full. */
    method Chunk(chunk: seq<Octet>, ghost step: (Lanes, seq<Octet>) -> Lanes, ghost start: Lanes)
      requires Ready(step, start) && IsStep(step, rc) && ptr + |chunk| <= lim
      modifies this, wide, buf
      ensures Ready(step, start) && message == old(message) + chunk
      ensures wide == old(wide) && buf == old(buf) && lim == old(lim)
    {
      if ptr + |chunk| < lim {
        Keep(chunk, step, start);
      } else {
        StandsAtMore<Lanes, Octet>(step, lim, start, message, wide[..], buf[..ptr], chunk);
        Copy(buf, ptr, chunk);
        Flush(message + chunk, step, start);
      }
    }

    /** A full buffer is absorbed; `m` is the message with it. */
    method Flush(ghost m: seq<Octet>, ghost step: (Lanes, seq<Octet>) -> Lanes, ghost start: Lanes)
      requires Shaped() && IsStep(step, rc)
      requires StandsAt<Lanes, Octet>(step, lim, start, m, step(wide[..], buf[..lim]), [])
      modifies this`ptr, this`message, wide
      ensures Ready(step, start) && message == m && ptr == 0
    {
      Absorb(wide, buf[..lim], rc, step);
      ptr, message := 0, m;
    }
  }

  /** Complements lanes 1, 2, 8, 12, 17 and 20. */
  method FlipSix(wide: array<Lane>)
    requires wide.Length == 25
    modifies wide
    ensures wide[..] == FlipAll(old(wide[..]), AtRound)
  {
    wide[1], wide[2], wide[8], wide[12], wide[17], wide[20] :=
      Not(wide[1]), Not(wide[2]), Not(wide[8]), Not(wide[12]), Not(wide[17]), Not(wide[20]);
  }

  // ----- the hash functions -----

  /** Initialisation, one update and the close, with the table of constants: Keccak of the standard's constants. */
  method Digest(data: seq<Octet>, outSize: nat) returns (dst: seq<Octet>)
    requires outSize == 224 || outSize == 256 || outSize == 384 || outSize == 512
    ensures 8 * |dst| == outSize && Bits(dst) == Keccak(StandardConstants(), 1600 - 2 * outSize, outSize, Bits(data))
  {
    var rc := TableConstants();
    dst := DigestWith(data, outSize, rc);
  }

  method TableConstants() returns (rc: Constants)
    ensures rc == StandardConstants()
  {
    rc := RoundConstants();
    TableIsStandard();
  }

  method DigestWith(data: seq<Octet>, outSize: nat, rc: Constants) returns (dst: seq<Octet>)
    requires outSize == 224 || outSize == 256 || outSize == 384 || outSize == 512
    ensures 8 * |dst| == outSize && Bits(dst) == Keccak(rc, 1600 - 2 * outSize, outSize, Bits(data))
  {
    var ctx := Absorbed(data, outSize, rc);
    Sizes(outSize, ctx.lim);
    dst := CloseBytes(ctx, data);
  }

  /** The close without extra bits. */
  method CloseBytes(ctx: Context, ghost data: seq<Octet>) returns (dst: seq<Octet>)
    requires ctx.Valid() && ctx.message == [] + data
    modifies ctx, ctx.wide, ctx.buf
    ensures |dst| == DigestSize(old(ctx.lim))
    ensures Bits(dst) == Keccak(ctx.rc, 8 * old(ctx.lim), 8 * |dst|, Bits(data))
  {
    NoExtraBits(data, ctx.message);
    dst := ctx.Close(LAST, 0);
  }

  lemma Sizes(outSize: nat, lim: nat)
    requires outSize == 224 || outSize == 256 || outSize == 384 || outSize == 512
    requires lim == 200 - outSize / 4
    ensures 8 * DigestSize(lim) == outSize && 8 * lim == 1600 - 2 * outSize
  {
  }

  method Absorbed(data: seq<Octet>, outSize: nat, rc: Constants) returns (ctx: Context)
    requires outSize == 224 || outSize == 256 || outSize == 384 || outSize == 512
    ensures fresh(ctx) && fresh(ctx.wide) && fresh(ctx.buf) && ctx.Valid()
    ensures ctx.rc == rc && ctx.lim == 200 - outSize / 4 && ctx.message == [] + data
  {
    ctx := new Context(rc, outSize);
    ctx.Update(data);
  }

  lemma NoExtraBits(data: seq<Octet>, m: seq<Octet>)
    requires m == [] + data
    ensures Bits(m) + LAST[8 - 0..] == Bits(data)
  {
    assert m == data;
  }
}
