/** The context of `jh.c`. */
module JhContext {
  import opened Arithmetic
  import opened Buffering
  import opened JhSpec
  import opened Octets
  import opened Streaming

  /** What the context keeps between blocks. */
  datatype Chained<S> = Chained(h: S, blocks: nat)

  /** Compression of one block; the block counter wraps at `word`. */
  function CodeStep<S>(f: (S, seq<bool>) -> S, word: nat): (Chained<S>, seq<Octet>) -> Chained<S>
    requires word > 0
  {
    (c: Chained<S>, b: seq<Octet>) => Chained(f(c.h, Bits(b)), (c.blocks + 1) % word)
  }

  /** Over whole blocks the chain value is the plain fold, and the counter counts modulo its word. */
  lemma {:induction false} WholeBlocks<S>(f: (S, seq<bool>) -> S, word: nat, h: S, i: nat, m: seq<Octet>)
    requires word > 0
    ensures Fold(CodeStep(f, word), 64, Chained(h, i % word), m)
         == Chained(Fold(f, 512, h, Bits(m)), (i + Blocks(64, m)) % word)
    decreases |m|
  {
    if |m| >= 64 {
      BitsSplit(m, 64);
      NextCount(word, i);
      WholeBlocks(f, word, f(h, Bits(m[..64])), i + 1, m[64..]);
    }
  }

  lemma NextCount(word: nat, i: nat)
    requires word > 0
    ensures (i % word + 1) % word == (i + 1) % word
  {
    NextIndex(word, i);
    if i % word + 1 < word {
      Remainder(i % word + 1, word, 0, i % word + 1);
    } else {
      Remainder(word, word, 1, 0);
    }
  }

  // ----- the length field -----

  /** Shifted apart, the counter and the left-over bits make the two words of 512 * blocks + len. */
  lemma LengthWords(blocks: nat, len: nat, word: nat, per: nat)
    requires word == per * 512 && per > 0 && len < 512
    ensures blocks / per == (512 * blocks + len) / word && (blocks * 512 % word + len) % word == (512 * blocks + len) % word
  {
    MultipleWords(word, 512, per, blocks);
    Remainder(512 * blocks + len, word, blocks / per, 512 * (blocks % per) + len);
    Remainder(512 * (blocks % per) + len, word, 0, 512 * (blocks % per) + len);
  }

  /** `word` is 2^w, and two words make the length field. */
  ghost predicate IsWord(w: nat, word: nat) { 2 * w == 128 && word == Pow2(w) }

  /** The length field of the close routine. */
  method Length(blocks: nat, len: nat, ghost w: nat, word: nat, per: nat) returns (length: seq<Octet>)
    requires IsWord(w, word) && word == per * 512 && per > 0 && len < 512 && blocks < word
    ensures Bits(length) == BigEndian(512 * blocks + len, 128)
  {
    var l0 := (blocks * 512 % word + len) % word;
    var l1 := Divide(blocks, per, word);
    length := Encode(l1, 8) + Encode(l0, 8);
    LengthWords(blocks, len, word, per);
    LengthField(w, 8, word, 512 * blocks + len);
  }

  /** The shift to the right, which fits a word. */
  method Divide(a: nat, r: nat, word: nat) returns (q: nat)
    requires r > 0 && a < word
    ensures q == a / r == a / r % word
  {
    ghost var d, j := DivMod(a, r);
    Grows(d, r);
    Remainder(d, word, 0, d);
    q := a / r;
  }

  lemma Grows(d: nat, r: nat)
    requires r > 0
    ensures d <= d * r
  {
  }

  /** The counter wraps at 2^64 blocks, so the field is the number of bits modulo 2^73. */
  lemma FieldIs(k: nat, len: nat, word: nat)
    requires word > 0 && len < 512
    ensures 512 * (k % word) + len == (512 * k + len) % (word * 512)
  {
    MultipleWords(word * 512, 512, word, k);
    Remainder(512 * k + len, word * 512, k / word, 512 * (k % word) + len);
  }

  /** The padding with the field of the code is that of JH exactly for lengths below 2^73, modulo 2^128. */
  lemma PaddingsAgree(bits: nat, word: nat)
    requires word == Pow2(64)
    ensures Padding(bits, bits % (word * 512)) == Padding(bits, bits) <==> bits % (word * word) < word * 512
  {
    assert Pow2(9) == 512;
    Pow2Sum(64, 9);
    Pow2Sum(64, 64);
    FieldAgrees(bits, 64 + 9, 64 + 64, word * 512, word * word);
    var front := [true] + seq(383 + (0 - bits) % 512, _ => false);
    SameTail(front, BigEndian(bits % (word * 512), 128), BigEndian(bits, 128));
  }

  lemma SameTail(front: seq<bool>, a: seq<bool>, b: seq<bool>)
    ensures front + a == front + b <==> a == b
  {
    assert (front + a)[|front|..] == a && (front + b)[|front|..] == b;
  }

  // ----- padding -----

  lemma FinalBits(bits: nat, k: nat, ptr: nat, ub: Octet, n: nat, numz: nat, field: nat, length: seq<Octet>)
    requires ptr < 64 && n < 8 && bits == 512 * k + 8 * ptr + n && Bits(length) == BigEndian(field, 128)
    requires numz == if ptr == 0 && n == 0 then 47 else 111 - ptr
    ensures Bits([ExtraByte(ub, n)] + ZeroOctets(numz) + length) == ub[..n] + Padding(bits, field)
  {
    BitsConcat([ExtraByte(ub, n)] + ZeroOctets(numz), length);
    BitsConcat([ExtraByte(ub, n)], ZeroOctets(numz));
    OneOctet(ExtraByte(ub, n));
    ZeroBits(numz);
    var z := 7 - n + 8 * numz;
    assert 383 + (0 - bits) % 512 == z;
    JoinZeros(ub[..n], 7 - n, 8 * numz, BigEndian(field, 128));
  }

  lemma JoinZeros(u: seq<bool>, a: nat, b: nat, l: seq<bool>)
    ensures u + [true] + seq(a, _ => false) + seq(b, _ => false) + l == u + ([true] + seq(a + b, _ => false) + l)
  {
  }

  /** The bytes of the close routine complete the padded message; with the buffered ones they are whole blocks. */
  method FinalBytes(ptr: nat, ub: Octet, n: nat, length: seq<Octet>, ghost bits: nat, ghost k: nat, ghost field: nat)
    returns (tail: seq<Octet>)
    requires ptr < 64 && n < 8 && bits == 512 * k + 8 * ptr + n && Bits(length) == BigEndian(field, 128)
    ensures Bits(tail) == ub[..n] + Padding(bits, field) && (ptr + |tail|) % 64 == 0
  {
    var numz := if ptr == 0 && n == 0 then 47 else 111 - ptr;
    tail := [ExtraByte(ub, n)] + ZeroOctets(numz) + length;
    FinalBits(bits, k, ptr, ub, n, numz, field, length);
  }

  // ----- closing -----

  ghost predicate Started<S>(ctx: Absorber<Chained<S>>, f: (S, seq<bool>) -> S, word: nat, iv: S)
    requires word > 0
    reads ctx, ctx.buf
  {
    ctx.Valid() && ctx.step == CodeStep(f, word) && ctx.size == 64 && ctx.base == Chained(iv, 0)
  }

  /** A message of whole blocks leaves nothing behind. */
  lemma {:induction false} NoRest<B>(size: nat, m: seq<B>)
    requires size > 0 && |m| % size == 0
    ensures Rest(size, m) == []
  {
    BlocksAndRest(size, m);
    Remainder(|m|, size, Blocks(size, m), |Rest(size, m)|);
  }

  lemma Finished<S>(f: (S, seq<bool>) -> S, word: nat, iv: S, m: seq<Octet>, tail: seq<Octet>, extra: seq<bool>, field: nat)
    requires word > 0 && Bits(tail) == extra + Padding(8 * |m| + |extra|, field)
    ensures Fold(CodeStep(f, word), 64, Chained(iv, 0), m + tail).h == HashWith(f, iv, Bits(m) + extra, field)
  {
    Remainder(0, word, 0, 0);
    WholeBlocks(f, word, iv, 0, m + tail);
    BitsConcat(m, tail);
    Associate(Bits(m), extra, Padding(8 * |m| + |extra|, field));
  }

  /** The counter and the buffer before the close account for every bit of the message, modulo the field. */
  lemma Counted<S>(f: (S, seq<bool>) -> S, word: nat, iv: S, m: seq<Octet>, n: nat) returns (k: nat, field: nat)
    requires word > 0 && n < 8
    ensures var blocks := Fold(CodeStep(f, word), 64, Chained(iv, 0), m).blocks;
      blocks < word && 512 * blocks + (8 * |Rest(64, m)| + n) == field
    ensures 8 * |m| + n == 512 * k + 8 * |Rest(64, m)| + n && |m| == 64 * k + |Rest(64, m)|
    ensures field == (8 * |m| + n) % (word * 512)
  {
    k := Blocks(64, m);
    Remainder(0, word, 0, 0);
    WholeBlocks(f, word, iv, 0, m);
    BlocksAndRest(64, m);
    var len := 8 * |Rest(64, m)| + n;
    FieldIs(k, len, word);
    field := 512 * (k % word) + len;
  }

  lemma Complete(size: nat, k: nat, ptr: nat, more: nat)
    requires size > 0 && (ptr + more) % size == 0
    ensures (size * k + ptr + more) % size == 0
  {
    var d := (ptr + more) / size;
    assert size * k + ptr + more == (k + d) * size;
    Remainder(size * k + ptr + more, size, k + d, 0);
  }

  lemma Ended<S>(f: (S, seq<bool>) -> S, word: nat, iv: S, m: seq<Octet>, tail: seq<Octet>, k: nat, ptr: nat, extra: seq<bool>, field: nat)
    requires word > 0 && Bits(tail) == extra + Padding(8 * |m| + |extra|, field)
    requires |m| == 64 * k + ptr && (ptr + |tail|) % 64 == 0
    ensures Fold(CodeStep(f, word), 64, Chained(iv, 0), m + tail).h == HashWith(f, iv, Bits(m) + extra, field)
    ensures Rest(64, m + tail) == []
  {
    Complete(64, k, ptr, |tail|);
    Finished(f, word, iv, m, tail, extra, field);
    NoRest(64, m + tail);
  }

  /** jh_close: `words` words of the second half of the state, which `half` encodes; then the context is as new. */
  method Close<S>(ctx: Absorber<Chained<S>>, f: (S, seq<bool>) -> S, iv: S, half: S -> seq<Octet>, ub: Octet, n: nat, words: nat,
                  word: nat, per: nat) returns (dst: seq<Octet>)
    requires word == Pow2(64) == per * 512 && per > 0 && Started(ctx, f, word, iv) && n < 8 && words <= 16
    requires forall s :: |half(s)| == 64
    modifies ctx, ctx.buf
    ensures Started(ctx, f, word, iv) && ctx.message == [] && ctx.buf == old(ctx.buf)
    ensures var m := Bits(old(ctx.message)) + ub[..n];
      && dst == half(HashWith(f, iv, m, |m| % (word * 512)))[64 - 4 * words..]
      && (|m| < word * 512 ==> dst == half(Hash(f, iv, m))[64 - 4 * words..])
  {
    Finish(ctx, f, iv, ub, n, 64, word, per);
    dst := half(ctx.state.h)[64 - 4 * words..];
    ShortMessage(f, iv, Bits(old(ctx.message)) + ub[..n], word * 512);
    ctx.Override(Chained(iv, 0));
  }

  /** A length below the limit of the counter is written as it is. */
  lemma ShortMessage<S>(f: (S, seq<bool>) -> S, iv: S, m: seq<bool>, limit: nat)
    requires limit > 0
    ensures |m| < limit ==> HashWith(f, iv, m, |m| % limit) == Hash(f, iv, m)
  {
    if |m| < limit {
      Remainder(|m|, limit, 0, |m|);
    }
  }

  /** Length field and last blocks. */
  method Finish<S>(ctx: Absorber<Chained<S>>, f: (S, seq<bool>) -> S, ghost iv: S, ub: Octet, n: nat,
                   ghost w: nat, word: nat, per: nat)
    requires IsWord(w, word) && word == per * 512 && per > 0 && Started(ctx, f, word, iv) && n < 8
    modifies ctx, ctx.buf
    ensures ctx.Valid() && ctx.buf == old(ctx.buf) && Rest(64, ctx.message) == []
    ensures var m := Bits(old(ctx.message)) + ub[..n];
      ctx.state.h == HashWith(f, iv, m, |m| % (word * 512))
  {
    var length := LengthOf(ctx, f, iv, n, w, word, per);
    BlocksAndRest(64, ctx.message);
    CloseWith(ctx, f, iv, ub, n, word, length, Blocks(64, ctx.message), (8 * |ctx.message| + n) % (word * 512));
  }

  lemma CountedBits<S>(ctx: Absorber<Chained<S>>, f: (S, seq<bool>) -> S, iv: S, n: nat, word: nat)
    requires word > 0 && Started(ctx, f, word, iv) && n < 8
    ensures ctx.state.blocks < word && 8 * ctx.ptr + n < 512
    ensures 512 * ctx.state.blocks + (8 * ctx.ptr + n) == (8 * |ctx.message| + n) % (word * 512)
  {
    var k, field := Counted(f, word, iv, ctx.message, n);
  }

  /** The length field for the message so far. */
  method LengthOf<S>(ctx: Absorber<Chained<S>>, ghost f: (S, seq<bool>) -> S, ghost iv: S, n: nat,
                     ghost w: nat, word: nat, per: nat) returns (length: seq<Octet>)
    requires IsWord(w, word) && word == per * 512 && per > 0 && Started(ctx, f, word, iv) && n < 8
    ensures Bits(length) == BigEndian((8 * |ctx.message| + n) % (word * 512), 128)
  {
    CountedBits(ctx, f, iv, n, word);
    length := Length(ctx.state.blocks, 8 * ctx.ptr + n, w, word, per);
  }

  /** The last blocks. */
  method CloseWith<S>(ctx: Absorber<Chained<S>>, f: (S, seq<bool>) -> S, ghost iv: S, ub: Octet, n: nat, ghost word: nat, length: seq<Octet>,
                      ghost k: nat, ghost field: nat)
    requires word > 0 && Started(ctx, f, word, iv) && n < 8
    requires Bits(length) == BigEndian(field, 128) && |ctx.message| == 64 * k + ctx.ptr
    modifies ctx, ctx.buf
    ensures ctx.Valid() && ctx.buf == old(ctx.buf) && Rest(64, ctx.message) == []
    ensures ctx.state.h == HashWith(f, iv, Bits(old(ctx.message)) + ub[..n], field)
  {
    ghost var m := ctx.message;
    var tail := FinalBytes(ctx.ptr, ub, n, length, 8 * |m| + n, k, field);
    Ended(f, word, iv, m, tail, k, ctx.ptr, ub[..n], field);
    ctx.Update(tail);
  }
}
