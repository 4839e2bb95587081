/**
 BLAKE: iterating the compression function over the padded message with a counter of message bits
 (section 2 of the SHA-3 proposal BLAKE).

 One model serves both widths: `w` is the size of a word, 32 for `blake32` and 64 for `blake64`.
 */
module BlakeSpec {
  import opened Octets
  import opened Streaming

  /** The chain value: eight words. */
  type Chain = h: seq<nat> | |h| == 8 witness [0, 0, 0, 0, 0, 0, 0, 0]

  /** Compression of one block under the two counter words, low word first. */
  type Compression = (Chain, nat, nat, seq<bool>) -> Chain

  /** The message bits that block `i` and the blocks before it hold; zero if block `i` holds none. */
  function Count(block: nat, bits: nat, i: nat): nat {
    if block * i >= bits then 0 else if block * (i + 1) <= bits then block * (i + 1) else bits
  }

  datatype Progress = Progress(h: Chain, blocks: nat)

  function Step(f: Compression, w: nat, bits: nat): (Progress, seq<bool>) -> Progress {
    (p: Progress, b: seq<bool>) =>
      var t := Count(16 * w, bits, p.blocks);
      Progress(f(p.h, t % Pow2(w), t / Pow2(w) % Pow2(w), b), p.blocks + 1)
  }

  /** A one, zeros, a marker that is one for the full digest size, and the length in two words. */
  function Padding(w: nat, bits: nat, full: bool): seq<bool>
    requires w > 0
  {
    [true] + seq((0 - bits - 2 - 2 * w) % (16 * w), _ => false) + [full] + BigEndian(bits, 2 * w)
  }

  /** The final chain value. */
  function Hash(f: Compression, w: nat, iv: Chain, full: bool, m: seq<bool>): Chain
    requires w > 0
  {
    Fold(Step(f, w, |m|), 16 * w, Progress(iv, 0), m + Padding(w, |m|, full)).h
  }
}
