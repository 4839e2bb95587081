/** The contexts of `blake.c`. */
module BlakeContext {
  import opened Arithmetic
  import opened BlakeSpec
  import opened Buffering
  import opened Octets
  import opened Streaming

  /** What a context keeps between blocks: the chain value and the two counter words. */
  datatype Counted = Counted(h: Chain, t0: nat, t1: nat)

  /** The increment before a compression: the high word follows when the low word has wrapped. */
  function Tick(word: nat, block: nat, t0: nat, t1: nat): (nat, nat)
    requires word > 0
  {
    var t := (t0 + block) % word;
    (t, if t < block then (t1 + 1) % word else t1)
  }

  function CodeStep(f: Compression, w: nat): (Counted, seq<Octet>) -> Counted {
    (c: Counted, b: seq<Octet>) =>
      var t := Tick(Pow2(w), 16 * w, c.t0, c.t1);
      Counted(f(c.h, t.0, t.1, Bits(b)), t.0, t.1)
  }

  /** The two words of a count. */
  function Words(word: nat, t: nat): (nat, nat)
    requires word > 0
  {
    (t % word, t / word % word)
  }

  /** How many blocks the low word can count before it wraps. */
  lemma BlocksPerWord(w: nat) returns (per: nat)
    requires w == 32 || w == 64
    ensures per > 1 && Pow2(w) == per * (16 * w)
  {
    assert Pow2(5) == 32 && Pow2(6) == 64 && Pow2(4) == 16;
    Pow2Sum(4, 5);
    Pow2Sum(4, 6);
    Pow2Sum(22, 1);
    if w == 32 {
      per := Pow2(23);
      Pow2Sum(23, 9);
    } else {
      Pow2Sum(53, 1);
      per := Pow2(54);
      Pow2Sum(54, 10);
    }
  }

  /** The increment counts whole blocks exactly, modulo two words. */
  lemma TickCounts(word: nat, block: nat, per: nat, i: nat)
    requires block > 0 && per > 1 && word == per * block
    ensures var x := Words(word, block * i); Tick(word, block, x.0, x.1) == Words(word, block * (i + 1))
  {
    MultipleWords(word, block, per, i);
    MultipleWords(word, block, per, i + 1);
    NextIndex(per, i);
    NextHigh(word, i / per);
    if i % per + 1 < per {
      TickWithin(word, block, per, i % per, i / per % word);
    } else {
      TickWraps(word, block, per, i / per % word);
    }
  }

  lemma TickWithin(word: nat, block: nat, per: nat, r: nat, high: nat)
    requires block > 0 && word == per * block && r + 1 < per
    ensures Tick(word, block, block * r, high) == (block * (r + 1), high)
  {
    assert block * (r + 1) == block * r + block;
    assert block * (r + 1) + block == block * (r + 2) <= block * per;
    Remainder(block * r + block, word, 0, block * (r + 1));
  }

  lemma TickWraps(word: nat, block: nat, per: nat, high: nat)
    requires block > 0 && per > 0 && word == per * block
    ensures Tick(word, block, block * (per - 1), high) == (0, (high + 1) % word)
  {
    assert block * (per - 1) + block == word;
    Remainder(word, word, 1, 0);
  }

  lemma NextHigh(word: nat, d: nat)
    requires word > 0
    ensures (d % word + 1) % word == (d + 1) % word
  {
    var q, r := d / word, d % word;
    if r + 1 < word {
      Remainder(r + 1, word, 0, r + 1);
      Remainder(d + 1, word, q, r + 1);
    } else {
      assert (q + 1) * word == q * word + word;
      Remainder(r + 1, word, 1, 0);
      Remainder(d + 1, word, q + 1, 0);
    }
  }

  // ----- the bias -----

  /** The counter words that the close routine puts in place when `len` bits are left over. */
  function Biased(word: nat, block: nat, t0: nat, t1: nat, len: nat): (nat, nat)
    requires word > block > len
  {
    if len == 0 then (word - block, word - 1)
    else if t0 == 0 then ((word - block + len) % word, if t1 == 0 then word - 1 else t1 - 1)
    else ((t0 + word - (block - len)) % word, t1)
  }

  /** After the bias, the next increment lands on the count of message bits, or on zero if none is left. */
  lemma BiasLands(word: nat, block: nat, per: nat, i: nat, len: nat)
    requires block > len && per > 1 && word == per * block > block
    ensures var x := Words(word, block * i); var y := Biased(word, block, x.0, x.1, len);
      Tick(word, block, y.0, y.1) == Words(word, if len == 0 then 0 else block * i + len)
  {
    MultipleWords(word, block, per, i);
    if len == 0 {
      Remainder(word, word, 1, 0);
      Remainder(0, word, 0, 0);
    } else {
      var r, high := i % per, i / per;
      CountWords(word, block, per, i, len);
      if r == 0 {
        BiasAtZero(word, block, high % word, len);
      } else {
        AtLeastOnce(block, r);
        BiasAbove(word, block, block * r, high % word, len);
      }
    }
  }

  lemma CountWords(word: nat, block: nat, per: nat, i: nat, len: nat)
    requires block > len && per > 1 && word == per * block
    ensures Words(word, block * i + len) == (block * (i % per) + len, i / per % word)
  {
    MultipleWords(word, block, per, i);
    var r := i % per;
    Remainder(block * i + len, word, i / per, block * r + len);
  }

  lemma BiasAtZero(word: nat, block: nat, high: nat, len: nat)
    requires word > block > len > 0 && high < word
    ensures var y := Biased(word, block, 0, high, len); Tick(word, block, y.0, y.1) == (len, high)
  {
    Remainder(word - block + len, word, 0, word - block + len);
    Remainder(word + len, word, 1, len);
    if high == 0 {
      Remainder(word, word, 1, 0);
    } else {
      Remainder(high, word, 0, high);
    }
  }

  lemma BiasAbove(word: nat, block: nat, t: nat, high: nat, len: nat)
    requires block > len > 0 && block <= t && t + block <= word
    ensures word > block
    ensures var y := Biased(word, block, t, high, len); Tick(word, block, y.0, y.1) == (t + len, high)
  {
    Remainder(t + word - (block - len), word, 1, t - block + len);
    Remainder(t + len, word, 0, t + len);
  }

  lemma AtLeastOnce(block: nat, r: nat)
    requires r > 0
    ensures block * r >= block
  {
  }

  // ----- whole blocks -----

  /** A context whose chain value is `h` and whose words count `i` blocks. */
  function At(w: nat, h: Chain, i: nat): Counted {
    var t := Words(Pow2(w), 16 * w * i);
    Counted(h, t.0, t.1)
  }

  lemma StepAgrees(f: Compression, w: nat, per: nat, bits: nat, h: Chain, i: nat, b: seq<Octet>)
    requires w > 0 && per > 1 && Pow2(w) == per * (16 * w) && 16 * w * (i + 1) <= bits
    ensures var p := Step(f, w, bits)(Progress(h, i), Bits(b));
      p.blocks == i + 1 && CodeStep(f, w)(At(w, h, i), b) == At(w, p.h, i + 1)
  {
    TickCounts(Pow2(w), 16 * w, per, i);
    CountWithin(16 * w, bits, i);
  }

  lemma CountWithin(block: nat, bits: nat, i: nat)
    requires block > 0 && block * (i + 1) <= bits
    ensures Count(block, bits, i) == block * (i + 1)
  {
    assert block * i + block == block * (i + 1);
  }

  /** Over whole blocks of the message, the code's words hold the count of bits, and the chain values agree. */
  lemma {:induction false} WholeBlocks(f: Compression, w: nat, per: nat, bits: nat, h: Chain, i: nat, m: seq<Octet>)
    requires w > 0 && per > 1 && Pow2(w) == per * (16 * w) && 16 * w * i + 8 * |m| <= bits
    ensures var p := Fold(Step(f, w, bits), 16 * w, Progress(h, i), Bits(m));
      && p.blocks == i + Blocks(2 * w, m)
      && Fold(CodeStep(f, w), 2 * w, At(w, h, i), m) == At(w, p.h, p.blocks)
    decreases |m|
  {
    if |m| >= 2 * w {
      assert 16 * w * i + 16 * w == 16 * w * (i + 1);
      var b := m[..2 * w];
      StepAgrees(f, w, per, bits, h, i, b);
      BitsSplit(m, 2 * w);
      var p := Step(f, w, bits)(Progress(h, i), Bits(b));
      WholeBlocks(f, w, per, bits, p.h, i + 1, m[2 * w..]);
    }
  }

  // ----- the last blocks -----

  /** The byte with its last bit set if `full`. */
  function Marked(b: Octet, full: bool): Octet { if full then b[7 := true] else b }

  lemma MarkedBits(t: seq<Octet>, full: bool)
    requires |t| > 0 && !t[|t| - 1][7]
    ensures Bits(t[|t| - 1 := Marked(t[|t| - 1], full)]) == Bits(t)[..8 * |t| - 1] + [full]
  {
    var k := |t| - 1;
    var u := t[k := Marked(t[k], full)];
    BitsConcat(t[..k], [t[k]]);
    BitsConcat(t[..k], [u[k]]);
    OneOctet(t[k]);
    OneOctet(u[k]);
    assert t == t[..k] + [t[k]] && u == t[..k] + [u[k]];
  }

  lemma ZerosAfterOne(u: seq<bool>, i: nat, j: nat)
    requires i + j > 0
    ensures (u + [true] + seq(i, _ => false) + seq(j, _ => false))[..|u| + i + j] == u + [true] + seq(i + j - 1, _ => false)
  {
  }

  /** The bytes up to the length when they fit the block that the message ends in. */
  lemma ShortTail(ub: Octet, n: nat, zeros: nat, full: bool)
    requires n < 8 && 7 - n + 8 * zeros > 0
    ensures var t := [ExtraByte(ub, n)] + ZeroOctets(zeros);
      Bits(t[zeros := Marked(t[zeros], full)]) == ub[..n] + [true] + seq(6 - n + 8 * zeros, _ => false) + [full]
  {
    var t := [ExtraByte(ub, n)] + ZeroOctets(zeros);
    BitsConcat([ExtraByte(ub, n)], ZeroOctets(zeros));
    OneOctet(ExtraByte(ub, n));
    ZeroBits(zeros);
    MarkedBits(t, full);
    ZerosAfterOne(ub[..n], 7 - n, 8 * zeros);
  }

  /** The end of the message, the marker and the length, when they fit one block. */
  lemma ShortFits(w: nat, bits: nat, i: nat, ptr: nat, ub: Octet, n: nat, full: bool, t: seq<Octet>, length: seq<Octet>)
    requires w > 0 && n < 8 && 8 * ptr + n + 2 + 2 * w <= 16 * w && bits == 16 * w * i + 8 * ptr + n
    requires Bits(t) == ub[..n] + [true] + seq(16 * w - 2 * w - 2 - (8 * ptr + n), _ => false) + [full]
    requires Bits(length) == BigEndian(bits, 2 * w)
    ensures Bits(t + length) == ub[..n] + Padding(w, bits, full)
  {
    var z := 16 * w - 2 * w - 2 - (8 * ptr + n);
    PaddingZeros(16 * w, i, 8 * ptr + n, 2 + 2 * w, z, 1);
    BitsConcat(t, length);
    Associate(ub[..n], [true] + seq(z, _ => false) + [full], BigEndian(bits, 2 * w));
    assert ub[..n] + [true] + seq(z, _ => false) + [full] == ub[..n] + ([true] + seq(z, _ => false) + [full]);
  }

  /** The same over two blocks: the message ends in the first, the second holds no message bit. */
  lemma LongFits(w: nat, bits: nat, i: nat, ptr: nat, ub: Octet, n: nat, full: bool,
                 first: seq<Octet>, t: seq<Octet>, length: seq<Octet>)
    requires w > 0 && n < 8 && 16 * w < 8 * ptr + n + 2 + 2 * w && ptr < 2 * w && bits == 16 * w * i + 8 * ptr + n
    requires Bits(first) == ub[..n] + [true] + seq(16 * w - 1 - (8 * ptr + n), _ => false)
    requires Bits(t) == seq(16 * w - 2 * w - 1, _ => false) + [full]
    requires Bits(length) == BigEndian(bits, 2 * w)
    ensures Bits(first) + Bits(t + length) == ub[..n] + Padding(w, bits, full)
  {
    var a, b := 16 * w - 1 - (8 * ptr + n), 16 * w - 2 * w - 1;
    PaddingZeros(16 * w, i, 8 * ptr + n, 2 + 2 * w, a + b, 2);
    BitsConcat(t, length);
    JoinZeros(ub[..n], a, b, full, BigEndian(bits, 2 * w));
  }

  lemma JoinZeros(u: seq<bool>, a: nat, b: nat, full: bool, l: seq<bool>)
    ensures u + [true] + seq(a, _ => false) + (seq(b, _ => false) + [full] + l)
         == u + ([true] + seq(a + b, _ => false) + [full] + l)
  {
  }

  // ----- the last compressions -----

  /** The block in which the message ends is compressed with the exact count. */
  lemma LastStep(f: Compression, w: nat, per: nat, h: Chain, i: nat, len: nat, b: seq<Octet>)
    requires w > 0 && len < 16 * w && per > 1 && Pow2(w) == per * (16 * w) > 16 * w
    ensures var c := At(w, h, i); var y := Biased(Pow2(w), 16 * w, c.t0, c.t1, len);
      var p := Step(f, w, 16 * w * i + len)(Progress(h, i), Bits(b));
      CodeStep(f, w)(Counted(h, y.0, y.1), b).h == p.h && p.blocks == i + 1
  {
    BiasLands(Pow2(w), 16 * w, per, i, len);
    CountAtEnd(16 * w, i, len);
  }

  lemma CountAtEnd(block: nat, i: nat, len: nat)
    requires len < block
    ensures Count(block, block * i + len, i) == if len == 0 then 0 else block * i + len
    ensures Count(block, block * i + len, i + 1) == 0
  {
    assert block * (i + 1) == block * i + block;
  }

  /** A block without message bits is compressed with the count zero. */
  lemma EmptyStep(f: Compression, w: nat, h: Chain, i: nat, len: nat, b: seq<Octet>)
    requires w > 0 && len < 16 * w < Pow2(w)
    ensures CodeStep(f, w)(Counted(h, Pow2(w) - 16 * w, Pow2(w) - 1), b).h
      == Step(f, w, 16 * w * i + len)(Progress(h, i + 1), Bits(b)).h
  {
    CountAtEnd(16 * w, i, len);
    BiasToZero(Pow2(w), 16 * w);
  }

  lemma BiasToZero(word: nat, block: nat)
    requires 0 < block < word
    ensures Tick(word, block, word - block, word - 1) == (0, 0) && Words(word, 0) == (0, 0)
  {
    Remainder(word, word, 1, 0);
    Remainder(0, word, 0, 0);
  }

  // ----- closing -----

  lemma BitCount(w: nat, m: seq<Octet>)
    requires w > 0
    ensures 8 * |m| == 16 * w * Blocks(2 * w, m) + 8 * |Rest(2 * w, m)| && 16 * w * 0 == 0
  {
    var k := Blocks(2 * w, m);
    BlocksAndRest(2 * w, m);
    assert 8 * (k * (2 * w)) == 16 * w * k;
  }

  /** Before the last blocks: the standard's iteration has reached the code's chain value. */
  lemma BeforeEnd(f: Compression, w: nat, per: nat, bits: nat, iv: Chain, m: seq<Octet>, tail: seq<bool>)
    requires w > 0 && per > 1 && Pow2(w) == per * (16 * w) && 8 * |m| <= bits
    ensures var k := Blocks(2 * w, m); var c := Fold(CodeStep(f, w), 2 * w, At(w, iv, 0), m);
      && c == At(w, c.h, k)
      && Fold(Step(f, w, bits), 16 * w, Progress(iv, 0), Bits(m) + tail)
        == Fold(Step(f, w, bits), 16 * w, Progress(c.h, k), Bits(Rest(2 * w, m)) + tail)
  {
    BitCount(w, m);
    WholeBlocks(f, w, per, bits, iv, 0, m);
    FoldTail(Step(f, w, bits), 2 * w, Progress(iv, 0), m, tail);
  }

  /** The hash of the whole message, from the chain value before its last blocks. */
  lemma HashFromEnd(f: Compression, w: nat, per: nat, iv: Chain, full: bool, m: seq<Octet>, extra: seq<bool>)
    requires w > 0 && per > 1 && Pow2(w) == per * (16 * w)
    ensures var k := Blocks(2 * w, m); var c := Fold(CodeStep(f, w), 2 * w, At(w, iv, 0), m);
      var bits := 8 * |m| + |extra|;
      && c == At(w, c.h, k)
      && Hash(f, w, iv, full, Bits(m) + extra)
        == Fold(Step(f, w, bits), 16 * w, Progress(c.h, k), Bits(Rest(2 * w, m)) + (extra + Padding(w, bits, full))).h
  {
    var bits := 8 * |m| + |extra|;
    BeforeEnd(f, w, per, bits, iv, m, extra + Padding(w, bits, full));
    Associate(Bits(m), extra, Padding(w, bits, full));
  }

  /** One last block. */
  lemma ShortEnd(f: Compression, w: nat, per: nat, bits: nat, c: Counted, k: nat, r: seq<Octet>, len: nat, tail: seq<Octet>)
    requires w > 0 && len < 16 * w && per > 1 && Pow2(w) == per * (16 * w) > 16 * w
    requires |r| + |tail| == 2 * w && bits == 16 * w * k + len && c == At(w, c.h, k)
    ensures var y := Biased(Pow2(w), 16 * w, c.t0, c.t1, len);
      Fold(CodeStep(f, w), 2 * w, Counted(c.h, y.0, y.1), r + tail).h
        == Fold(Step(f, w, bits), 16 * w, Progress(c.h, k), Bits(r) + Bits(tail)).h
  {
    BitsConcat(r, tail);
    LastStep(f, w, per, c.h, k, len, r + tail);
    var y := Biased(Pow2(w), 16 * w, c.t0, c.t1, len);
    OneBlock(CodeStep(f, w), 2 * w, Counted(c.h, y.0, y.1), r + tail);
    OneBlock(Step(f, w, bits), 16 * w, Progress(c.h, k), Bits(r + tail));
  }

  /** Two last blocks: the message ends in the first. */
  lemma FirstOfTwo(f: Compression, w: nat, per: nat, bits: nat, c: Counted, k: nat, len: nat, b: seq<Octet>)
    requires w > 0 && len < 16 * w && per > 1 && Pow2(w) == per * (16 * w) > 16 * w
    requires |b| == 2 * w && bits == 16 * w * k + len && c == At(w, c.h, k)
    ensures var y := Biased(Pow2(w), 16 * w, c.t0, c.t1, len);
      Step(f, w, bits)(Progress(c.h, k), Bits(b)) == Progress(Fold(CodeStep(f, w), 2 * w, Counted(c.h, y.0, y.1), b).h, k + 1)
  {
    LastStep(f, w, per, c.h, k, len, b);
    var y := Biased(Pow2(w), 16 * w, c.t0, c.t1, len);
    OneBlock(CodeStep(f, w), 2 * w, Counted(c.h, y.0, y.1), b);
  }

  /** The second holds no message bit. */
  lemma SecondOfTwo(f: Compression, w: nat, bits: nat, h: Chain, k: nat, len: nat, b: seq<Octet>)
    requires w > 0 && len < 16 * w < Pow2(w) && |b| == 2 * w && bits == 16 * w * k + len
    ensures Fold(CodeStep(f, w), 2 * w, Counted(h, Pow2(w) - 16 * w, Pow2(w) - 1), b).h
         == Step(f, w, bits)(Progress(h, k + 1), Bits(b)).h
  {
    EmptyStep(f, w, h, k, len, b);
    OneBlock(CodeStep(f, w), 2 * w, Counted(h, Pow2(w) - 16 * w, Pow2(w) - 1), b);
  }

  lemma TwoSteps(g: (Progress, seq<bool>) -> Progress, w: nat, p: Progress, r: seq<Octet>, first: seq<Octet>, last: seq<Octet>)
    requires w > 0 && |r| + |first| == 2 * w == |last|
    ensures Fold(g, 16 * w, p, Bits(r) + (Bits(first) + Bits(last))) == g(g(p, Bits(r + first)), Bits(last))
  {
    BitsConcat(r, first);
    Associate(Bits(r), Bits(first), Bits(last));
    TwoBlocks(g, 16 * w, p, Bits(r + first), Bits(last));
  }

  /** The low word plus the left-over bits, and the high word, are the words of the whole count. */
  lemma EndWords(word: nat, block: nat, per: nat, i: nat, len: nat)
    requires block > len && per > 1 && word == per * block
    ensures var x := Words(word, block * i); Words(word, block * i + len) == ((x.0 + len) % word, x.1)
  {
    MultipleWords(word, block, per, i);
    CountWords(word, block, per, i, len);
    Remainder(block * (i % per) + len, word, 0, block * (i % per) + len);
  }

  /** What `Close` passes on when the end fits one block. */
  method ShortBytes(w: nat, bytes: nat, ptr: nat, ub: Octet, n: nat, full: bool, length: seq<Octet>, ghost bits: nat, ghost i: nat)
    returns (tail: seq<Octet>)
    requires w == 8 * bytes > 0 && n < 8 && 8 * ptr + n <= 14 * w - 2 && bits == 16 * w * i + 8 * ptr + n
    requires Bits(length) == BigEndian(bits, 2 * w)
    ensures ptr + |tail| == 2 * w && Bits(tail) == ub[..n] + Padding(w, bits, full)
  {
    var zeros := 14 * bytes - 1 - ptr;
    var t := [ExtraByte(ub, n)] + ZeroOctets(zeros);
    t := t[zeros := Marked(t[zeros], full)];
    tail := t + length;
    ShortTail(ub, n, zeros, full);
    ShortFits(w, bits, i, ptr, ub, n, full, t, length);
  }

  lemma FirstBits(w: nat, ptr: nat, ub: Octet, n: nat)
    requires ptr < 2 * w && n < 8
    ensures Bits([ExtraByte(ub, n)] + ZeroOctets(2 * w - 1 - ptr)) == ub[..n] + [true] + seq(16 * w - 1 - (8 * ptr + n), _ => false)
  {
    var zeros := 2 * w - 1 - ptr;
    BitsConcat([ExtraByte(ub, n)], ZeroOctets(zeros));
    OneOctet(ExtraByte(ub, n));
    ZeroBits(zeros);
    assert ub[..n] + [true] + seq(7 - n, _ => false) + seq(8 * zeros, _ => false) == ub[..n] + [true] + seq(7 - n + 8 * zeros, _ => false);
  }

  lemma MarkerBits(k: nat, full: bool)
    ensures var t := ZeroOctets(k + 1); Bits(t[k := Marked(t[k], full)]) == seq(8 * k + 7, _ => false) + [full]
  {
    var t := ZeroOctets(k + 1);
    MarkedBits(t, full);
    ZeroBits(k + 1);
  }

  /** What `Close` passes on when the end takes two blocks. */
  method LongBytes(w: nat, bytes: nat, ptr: nat, ub: Octet, n: nat, full: bool, length: seq<Octet>, ghost bits: nat, ghost i: nat)
    returns (first: seq<Octet>, last: seq<Octet>)
    requires w == 8 * bytes > 0 && n < 8 && ptr < 2 * w && 8 * ptr + n > 14 * w - 2 && bits == 16 * w * i + 8 * ptr + n
    requires Bits(length) == BigEndian(bits, 2 * w)
    ensures ptr + |first| == 2 * w == |last| && Bits(first) + Bits(last) == ub[..n] + Padding(w, bits, full)
  {
    first := [ExtraByte(ub, n)] + ZeroOctets(2 * w - 1 - ptr);
    var k := 14 * bytes - 1;
    var t := ZeroOctets(k + 1);
    t := t[k := Marked(t[k], full)];
    last := t + length;
    FirstBits(w, ptr, ub, n);
    MarkerBits(k, full);
    LongFits(w, bits, i, ptr, ub, n, full, first, t, length);
  }

  /** The digest: the first `out` words of the chain value. */
  function Digest(h: Chain, w: nat, out: nat): seq<Octet>
    requires out <= 8
  {
    if out == 0 then [] else Digest(h, w, out - 1) + Encode(h[out - 1], w / 8)
  }

  /** A context set up by the initialisation for words of `w` bits. */
  ghost predicate Started(ctx: Absorber<Counted>, f: Compression, w: nat, iv: Chain)
    reads ctx, ctx.buf
  {
    ctx.Valid() && ctx.step == CodeStep(f, w) && ctx.size == 2 * w && ctx.base == Counted(iv, 0, 0)
  }

  lemma AtStart(w: nat, h: Chain)
    ensures At(w, h, 0) == Counted(h, 0, 0)
  {
    Remainder(0, Pow2(w), 0, 0);
  }

  /** The context before the close: `c` has counted `k` blocks, `r` is buffered, and `length` encodes all the bits. */
  ghost predicate AtEnd(w: nat, n: nat, length: seq<Octet>, c: Counted, k: nat, r: seq<Octet>, bits: nat) {
    c == At(w, c.h, k) && bits == 16 * w * k + 8 * |r| + n && Bits(length) == BigEndian(bits, 2 * w)
  }

  /** The context with its words biased for `len` left-over bits. */
  function Closing(w: nat, c: Counted, len: nat): Counted
    requires Pow2(w) > 16 * w > len
  {
    var y := Biased(Pow2(w), 16 * w, c.t0, c.t1, len);
    Counted(c.h, y.0, y.1)
  }

  /** The chain value that the standard reaches from `h` after `k` blocks. */
  ghost function SpecEnd(f: Compression, w: nat, bits: nat, h: Chain, k: nat, p: seq<bool>): Chain
    requires w > 0
  {
    Fold(Step(f, w, bits), 16 * w, Progress(h, k), p).h
  }

  /** The end of the message in one block. */
  method CloseShort(ctx: Absorber<Counted>, f: Compression, w: nat, bytes: nat, ub: Octet, n: nat, full: bool, length: seq<Octet>,
      ghost per: nat, ghost c: Counted, ghost k: nat, ghost r: seq<Octet>, ghost bits: nat)
    requires ctx.Valid() && ctx.step == CodeStep(f, w) && ctx.size == 2 * w && ctx.message == r && ctx.ptr == |r|
    requires w == 8 * bytes > 0 && n < 8 && Pow2(w) == per * (16 * w) > 16 * w && per > 1 && 8 * |r| + n <= 14 * w - 2
    requires AtEnd(w, n, length, c, k, r, bits) && ctx.base == Closing(w, c, 8 * |r| + n)
    modifies ctx, ctx.buf
    ensures ctx.Valid() && ctx.buf == old(ctx.buf) && Rest(2 * w, ctx.message) == []
    ensures ctx.state.h == SpecEnd(f, w, bits, c.h, k, Bits(r) + (ub[..n] + Padding(w, bits, full)))
  {
    var tail := ShortBytes(w, bytes, ctx.ptr, ub, n, full, length, bits, k);
    ctx.Complete(tail);
    ShortEnd(f, w, per, bits, c, k, r, 8 * |r| + n, tail);
  }

  lemma LongEnd(f: Compression, w: nat, per: nat, bits: nat, c: Counted, k: nat, r: seq<Octet>, len: nat,
                first: seq<Octet>, last: seq<Octet>, h: Chain)
    requires w > 0 && len < 16 * w && per > 1 && Pow2(w) == per * (16 * w) > 16 * w
    requires |r| + |first| == 2 * w == |last| && bits == 16 * w * k + len && c == At(w, c.h, k)
    requires h == Fold(CodeStep(f, w), 2 * w, Closing(w, c, len), r + first).h
    ensures Fold(CodeStep(f, w), 2 * w, Counted(h, Pow2(w) - 16 * w, Pow2(w) - 1), last).h
         == SpecEnd(f, w, bits, c.h, k, Bits(r) + (Bits(first) + Bits(last)))
  {
    FirstOfTwo(f, w, per, bits, c, k, len, r + first);
    SecondOfTwo(f, w, bits, h, k, len, last);
    TwoSteps(Step(f, w, bits), w, Progress(c.h, k), r, first, last);
  }

  /** The end of the message in two blocks. */
  method CloseLong(ctx: Absorber<Counted>, f: Compression, w: nat, bytes: nat, ub: Octet, n: nat, full: bool, length: seq<Octet>,
      ghost per: nat, ghost c: Counted, ghost k: nat, ghost r: seq<Octet>, ghost bits: nat)
    requires ctx.Valid() && ctx.step == CodeStep(f, w) && ctx.size == 2 * w && ctx.message == r && ctx.ptr == |r|
    requires w == 8 * bytes > 0 && n < 8 && Pow2(w) == per * (16 * w) > 16 * w && per > 1 && |r| < 2 * w && 8 * |r| + n > 14 * w - 2
    requires AtEnd(w, n, length, c, k, r, bits) && ctx.base == Closing(w, c, 8 * |r| + n)
    modifies ctx, ctx.buf
    ensures ctx.Valid() && ctx.buf == old(ctx.buf) && Rest(2 * w, ctx.message) == []
    ensures ctx.state.h == SpecEnd(f, w, bits, c.h, k, Bits(r) + (ub[..n] + Padding(w, bits, full)))
  {
    var first, last := LongBytes(w, bytes, ctx.ptr, ub, n, full, length, bits, k);
    ctx.Complete(first);
    ghost var h := ctx.state.h;
    ctx.Override(Counted(ctx.state.h, Pow2(w) - 16 * w, Pow2(w) - 1));
    ctx.Complete(last);
    assert ctx.message == last;
    LongEnd(f, w, per, bits, c, k, r, 8 * |r| + n, first, last, h);
  }

  /** The low word plus the left-over bits, and the high word, make up the length field. */
  lemma LengthOf(w: nat, bytes: nat, word: nat, per: nat, k: nat, len: nat, c: Counted)
    requires w == 8 * bytes > 0 && len < 16 * w && per > 1 && word == Pow2(w) == per * (16 * w) && c == At(w, c.h, k)
    ensures Bits(Encode(c.t1, bytes) + Encode((c.t0 + len) % word, bytes)) == BigEndian(16 * w * k + len, 2 * w)
  {
    EndWords(word, 16 * w, per, k, len);
    LengthField(w, bytes, word, 16 * w * k + len);
  }

  /** blake32_close and blake64_close, and the initialisation that every caller does next. */
  method Close(ctx: Absorber<Counted>, f: Compression, w: nat, iv: Chain, ub: Octet, n: nat, out: nat) returns (dst: seq<Octet>)
    requires (w == 32 || w == 64) && Started(ctx, f, w, iv) && n < 8 && out <= 8
    modifies ctx, ctx.buf
    ensures Started(ctx, f, w, iv) && ctx.message == [] && ctx.buf == old(ctx.buf)
    ensures dst == Digest(Hash(f, w, iv, out == 8, Bits(old(ctx.message)) + ub[..n]), w, out)
  {
    ghost var per := BlocksPerWord(w);
    AtStart(w, iv);
    ghost var m := ctx.message;
    CloseWith(ctx, f, w, w / 8, Pow2(w), iv, ub, n, out == 8, per);
    dst := Output(ctx.state.h, w, out);
    ctx.Override(Counted(iv, 0, 0));
  }

  method Output(h: Chain, w: nat, out: nat) returns (dst: seq<Octet>)
    requires out <= 8
    ensures dst == Digest(h, w, out)
  {
    dst := [];
    for k := 0 to out
      invariant dst == Digest(h, w, k)
    {
      dst := dst + Encode(h[k], w / 8);
    }
  }

  method CloseWith(ctx: Absorber<Counted>, f: Compression, w: nat, bytes: nat, word: nat, ghost iv: Chain, ub: Octet, n: nat, full: bool,
                   ghost per: nat)
    requires ctx.Valid() && ctx.step == CodeStep(f, w) && ctx.size == 2 * w && ctx.base == At(w, iv, 0)
    requires w == 8 * bytes > 0 && n < 8 && word == Pow2(w) == per * (16 * w) > 16 * w && per > 1
    modifies ctx, ctx.buf
    ensures ctx.Valid() && ctx.buf == old(ctx.buf) && Rest(2 * w, ctx.message) == []
    ensures ctx.state.h == Hash(f, w, iv, full, Bits(old(ctx.message)) + ub[..n])
  {
    ghost var m, c := ctx.message, ctx.state;
    ghost var r, k := Rest(2 * w, m), Blocks(2 * w, m);
    ghost var bits := 8 * |m| + n;
    HashFromEnd(f, w, per, iv, full, m, ub[..n]);
    BitCount(w, m);
    var len := 8 * ctx.ptr + n;
    LengthOf(w, bytes, word, per, k, len, c);
    var length := Encode(ctx.state.t1, bytes) + Encode((ctx.state.t0 + len) % word, bytes);
    ctx.Override(Closing(w, ctx.state, len));
    if len <= 14 * w - 2 {
      CloseShort(ctx, f, w, bytes, ub, n, full, length, per, c, k, r, bits);
    } else {
      CloseLong(ctx, f, w, bytes, ub, n, full, length, per, c, k, r, bits);
    }
  }
}
