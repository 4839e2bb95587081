/** JH: the compression function iterated over the padded message (the SHA-3 proposal JH, section 5). */
module JhSpec {
  import opened Octets
  import opened Streaming

  /** A one, at least 383 zeros, and the length in 128 bits, up to a multiple of 512 bits. */
  function Padding(bits: nat, field: nat): seq<bool> {
    [true] + seq(383 + (0 - bits) % 512, _ => false) + BigEndian(field, 128)
  }

  /** The final chain value when `field` is written as the length. */
  function HashWith<S>(f: (S, seq<bool>) -> S, iv: S, m: seq<bool>, field: nat): S {
    Fold(f, 512, iv, m + Padding(|m|, field))
  }

  /** The final chain value of JH: the length written is that of the message. */
  function Hash<S>(f: (S, seq<bool>) -> S, iv: S, m: seq<bool>): S { HashWith(f, iv, m, |m|) }
}
