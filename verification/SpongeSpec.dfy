/** The Keccak sponge on bit strings (sections 4 and 5.1 of FIPS 202, without the SHA-3 domain bits). */
module SpongeSpec {
  import opened KeccakPermutation
  import opened Octets
  import opened Streaming

  /** Lane `k` with the bits of `p` that belong to it added. */
  function AbsorbLane(v: Lane, k: nat, p: seq<bool>): Lane {
    seq(64, z requires 0 <= z < 64 => if 64 * k + z < |p| then v[z] != p[64 * k + z] else v[z])
  }

  /** Adds the bit string `p` to the first bits of the state. */
  function AbsorbBits(s: Lanes, p: seq<bool>): Lanes {
    seq(25, k requires 0 <= k < 25 => AbsorbLane(s[k], k, p))
  }

  function Step(rc: Constants): (Lanes, seq<bool>) -> Lanes {
    (s: Lanes, p: seq<bool>) => KeccakF(AbsorbBits(s, p), rc)
  }

  function ZeroLane(): Lane { seq(64, _ => false) }

  function Zero(): Lanes { seq(25, _ => ZeroLane()) }

  /** pad10*1 for a message of `m` bits and blocks of `r` bits. */
  function Padding(r: nat, m: int): seq<bool>
    requires r > 0
  {
    [true] + seq((-m - 2) % r, _ => false) + [true]
  }

  /** The first `n` bits of the state. */
  function Squeeze(s: Lanes, n: nat): seq<bool>
    requires n <= 1600
  {
    seq(n, i requires 0 <= i < n => s[i / 64][i % 64])
  }

  /** The sponge with rate `r` and `d <= r` bits of output. */
  function Keccak(rc: Constants, r: nat, d: nat, m: seq<bool>): seq<bool>
    requires d <= r && 0 < r <= 1600
  {
    Squeeze(Fold(Step(rc), r, Zero(), m + Padding(r, |m|)), d)
  }

  // ----- complemented lanes -----

  lemma AbsorbLaneFlipped(v: Lane, k: nat, p: seq<bool>, c: bool)
    ensures AbsorbLane(Flip(v, c), k, p) == Flip(AbsorbLane(v, k, p), c)
  {
  }

  lemma AbsorbFlipped(s: Lanes, p: seq<bool>)
    ensures AbsorbBits(FlipAll(s, AtRound), p) == FlipAll(AbsorbBits(s, p), AtRound)
  {
    forall k | 0 <= k < 25
      ensures AbsorbBits(FlipAll(s, AtRound), p)[k] == FlipAll(AbsorbBits(s, p), AtRound)[k]
    {
      AbsorbLaneFlipped(s[k], k, p, Complemented(AtRound, k));
    }
  }
}
