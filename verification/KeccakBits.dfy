/** The five step mappings bit by bit, as sections 3.2.1 to 3.2.5 of FIPS 202 define them. */
module KeccakBits {
  import opened KeccakPermutation

  /** The bit at (x, y, z). */
  function BitAt(s: Lanes, x: nat, y: nat, z: nat): bool
    requires x < 5 && y < 5 && z < 64
  {
    s[x + 5 * y][z]
  }

  /** The number of ones among five bits is odd. */
  function Odd(a: bool, b: bool, c: bool, d: bool, e: bool): bool {
    ((if a then 1 else 0) + (if b then 1 else 0) + (if c then 1 else 0) + (if d then 1 else 0) + (if e then 1 else 0)) % 2 == 1
  }

  /** The parity of the column at (x, z). */
  function ColumnParity(s: Lanes, x: nat, z: nat): bool
    requires x < 5 && z < 64
  {
    Odd(s[x][z], s[x + 5][z], s[x + 10][z], s[x + 15][z], s[x + 20][z])
  }

  lemma ColumnBit(s: Lanes, x: nat, z: nat)
    requires x < 5 && z < 64
    ensures Column(s, x)[z] == ColumnParity(s, x, z)
  {
  }

  /** A rotation by `n` takes the bit that is `n` places lower. */
  lemma RotlBit(a: Lane, n: nat, z: nat)
    requires n < 64 && z < 64
    ensures Rotl(a, n)[z] == a[(z + 64 - n) % 64]
  {
    if z < n {
      assert (z + 64 - n) % 64 == z + 64 - n;
    } else {
      assert (z + 64 - n) % 64 == z - n;
    }
  }

  lemma XorBit(a: Lane, b: Lane, z: nat)
    requires z < 64
    ensures Xor(a, b)[z] == (a[z] != b[z])
  {
  }

  lemma EffectBit(s: Lanes, x: nat, z: nat)
    requires x < 5 && z < 64
    ensures ThetaEffect(s, x)[z] == (ColumnParity(s, (x + 4) % 5, z) != ColumnParity(s, (x + 1) % 5, (z + 63) % 64))
  {
    var left, right := Column(s, (x + 4) % 5), Column(s, (x + 1) % 5);
    XorBit(left, Rotl(right, 1), z);
    RotlBit(right, 1, z);
    ColumnBit(s, (x + 4) % 5, z);
    ColumnBit(s, (x + 1) % 5, (z + 63) % 64);
  }

  lemma ThetaLane(s: Lanes, k: nat, x: nat)
    requires k < 25 && x == k % 5
    ensures Theta(s)[k] == Xor(s[k], ThetaEffect(s, x))
  {
  }

  /** Section 3.2.1: a bit is added to the columns at (x - 1, z) and (x + 1, z - 1). */
  lemma ThetaBit(s: Lanes, x: nat, y: nat, z: nat)
    requires x < 5 && y < 5 && z < 64
    ensures BitAt(Theta(s), x, y, z)
         == (BitAt(s, x, y, z) != (ColumnParity(s, (x + 4) % 5, z) != ColumnParity(s, (x + 1) % 5, (z + 63) % 64)))
  {
    var k := x + 5 * y;
    ThetaLane(s, k, x);
    XorBit(s[k], ThetaEffect(s, x), z);
    EffectBit(s, x, z);
  }

  /** Section 3.2.2: a bit moves up its lane by the offset of the lane. */
  lemma RhoBit(s: Lanes, k: nat, z: nat)
    requires k < 25 && z < 64
    ensures Rho(s)[k][z] == s[k][(z + 64 - RhoOffset(k)) % 64]
  {
    RotlBit(s[k], RhoOffset(k), z);
  }

  /** Section 3.2.3: the lane at (x, y) comes from (x + 3y, x). */
  lemma PiBit(s: Lanes, x: nat, y: nat, z: nat)
    requires x < 5 && y < 5 && z < 64
    ensures BitAt(Pi(s), x, y, z) == BitAt(s, (x + 3 * y) % 5, x, z)
  {
    PiSourceIs(x, y);
  }

  /** Section 3.2.4: a bit is added to the product of the inverted next one and the one after that in its row. */
  lemma ChiBit(s: Lanes, x: nat, y: nat, z: nat)
    requires x < 5 && y < 5 && z < 64
    ensures BitAt(Chi(s), x, y, z) == (BitAt(s, x, y, z) != (!BitAt(s, (x + 1) % 5, y, z) && BitAt(s, (x + 2) % 5, y, z)))
  {
    InRow(x, y);
    ChiLaneBit(s, x + 5 * y, (x + 1) % 5 + 5 * y, (x + 2) % 5 + 5 * y, z);
  }

  lemma InRow(x: nat, y: nat)
    requires x < 5 && y < 5
    ensures Right(x + 5 * y) == (x + 1) % 5 + 5 * y && Right((x + 1) % 5 + 5 * y) == (x + 2) % 5 + 5 * y
  {
  }

  lemma ChiLaneBit(s: Lanes, k: nat, i: nat, j: nat, z: nat)
    requires k < 25 && i == Right(k) && j == Right(i) && z < 64
    ensures Chi(s)[k][z] == (s[k][z] != (!s[i][z] && s[j][z]))
  {
    ChiLaneOf(s[k], s[i], s[j], z);
  }

  lemma ChiLaneOf(a: Lane, b: Lane, c: Lane, z: nat)
    requires z < 64
    ensures ChiLane(a, b, c)[z] == (a[z] != (!b[z] && c[z]))
  {
    XorBit(a, And(Not(b), c), z);
  }

  /** Section 3.2.5: the round constant is added to the lane at (0, 0). */
  lemma IotaBit(s: Lanes, rc: Lane, k: nat, z: nat)
    requires k < 25 && z < 64
    ensures Iota(s, rc)[k][z] == if k == 0 then s[k][z] != rc[z] else s[k][z]
  {
  }
}
