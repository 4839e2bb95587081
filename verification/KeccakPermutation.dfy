/**
 Keccak-f[1600] as section 3.2 of FIPS 202 defines it, and the permutation of `keccak.c`, which keeps six
 lanes complemented and renames its registers instead of moving lanes.

 A lane is its 64 bits, least significant first. A state is 25 lanes; lane (x, y) has index x + 5 * y.
 */
module KeccakPermutation {
  import opened Iteration

  type Lane = v: seq<bool> | |v| == 64 witness seq(64, _ => false)

  type Lanes = s: seq<Lane> | |s| == 25 witness seq(25, _ => seq(64, _ => false))

  function Xor(a: Lane, b: Lane): Lane { seq(64, z requires 0 <= z < 64 => a[z] != b[z]) }

  function And(a: Lane, b: Lane): Lane { seq(64, z requires 0 <= z < 64 => a[z] && b[z]) }

  function Or(a: Lane, b: Lane): Lane { seq(64, z requires 0 <= z < 64 => a[z] || b[z]) }

  function Not(a: Lane): Lane { seq(64, z requires 0 <= z < 64 => !a[z]) }

  /** Rotation to the left, that is, towards the more significant bits. */
  function Rotl(a: Lane, n: nat): Lane
    requires n < 64
  {
    a[64 - n..] + a[..64 - n]
  }

  // ----- the standard -----

  function Column(s: Lanes, x: nat): Lane
    requires x < 5
  {
    Xor(Xor(Xor(Xor(s[x], s[x + 5]), s[x + 10]), s[x + 15]), s[x + 20])
  }

  function ThetaEffect(s: Lanes, x: nat): Lane
    requires x < 5
  {
    Xor(Column(s, (x + 4) % 5), Rotl(Column(s, (x + 1) % 5), 1))
  }

  function Theta(s: Lanes): Lanes {
    seq(25, k requires 0 <= k < 25 => Xor(s[k], ThetaEffect(s, k % 5)))
  }

  /** The offsets of rho, for x running fastest. */
  function RhoOffset(k: nat): (n: nat)
    requires k < 25
    ensures n < 64
  {
    [ 0,  1, 62, 28, 27,
     36, 44,  6, 55, 20,
      3, 10, 43, 25, 39,
     41, 45, 15, 21,  8,
     18,  2, 61, 56, 14][k]
  }

  function Rho(s: Lanes): Lanes {
    seq(25, k requires 0 <= k < 25 => Rotl(s[k], RhoOffset(k)))
  }

  /** The lane that pi moves to index `k`. */
  function PiSource(k: nat): (j: nat)
    requires k < 25
    ensures j < 25
  {
    [ 0,  6, 12, 18, 24,
      3,  9, 10, 16, 22,
      1,  7, 13, 19, 20,
      4,  5, 11, 17, 23,
      2,  8, 14, 15, 21][k]
  }

  /** The standard moves lane (x + 3 * y, x) to place (x, y). */
  lemma PiSourceIs(x: nat, y: nat)
    requires x < 5 && y < 5
    ensures PiSource(x + 5 * y) == (x + 3 * y) % 5 + 5 * x
  {
  }

  function Pi(s: Lanes): Lanes {
    seq(25, k requires 0 <= k < 25 => s[PiSource(k)])
  }

  function ChiLane(a: Lane, b: Lane, c: Lane): Lane { Xor(a, And(Not(b), c)) }

  /** The index one step further in the same row, cyclically. */
  function Right(k: nat): (j: nat)
    requires k < 25
    ensures j < 25
  {
    if k == 4 || k == 9 || k == 14 || k == 19 || k == 24 then k - 4 else k + 1
  }

  function Chi(s: Lanes): Lanes {
    seq(25, k requires 0 <= k < 25 => ChiLane(s[k], s[Right(k)], s[Right(Right(k))]))
  }

  function Iota(s: Lanes, rc: Lane): Lanes { s[0 := Xor(s[0], rc)] }

  function Round(s: Lanes, rc: Lane): Lanes { Iota(Chi(Pi(Rho(Theta(s)))), rc) }

  // ----- the permutation -----

  /** One constant per round. */
  type Constants = c: seq<Lane> | |c| == 24 witness seq(24, _ => seq(64, _ => false))

  /** The first `n` rounds. */
  function Rounds(s: Lanes, rc: Constants, n: nat): Lanes
    requires n <= 24
  {
    Iterate(Round, s, rc, n)
  }

  /** Keccak-f[1600]: 24 rounds. */
  function KeccakF(s: Lanes, rc: Constants): Lanes { Rounds(s, rc, |rc|) }

  // ----- complemented lanes -----

  function Flip(v: Lane, p: bool): Lane { if p then Not(v) else v }

  datatype Stage = AtRound | AfterTheta | AfterPi

  /** Which lanes are held complemented at which point of a round. */
  predicate Complemented(stage: Stage, k: nat)
    requires k < 25
  {
    match stage
    case AtRound => k == 1 || k == 2 || k == 8 || k == 12 || k == 17 || k == 20
    case AfterTheta => ComplementedByTheta(k)
    case AfterPi => ComplementedByTheta(PiSource(k))
  }

  predicate ComplementedByTheta(k: nat) {
    || k == 0 || k == 5 || k == 10 || k == 15
    || k == 3 || k == 13 || k == 18 || k == 23
    || k == 1 || k == 2 || k == 12 || k == 17
  }

  function FlipAll(s: Lanes, stage: Stage): Lanes {
    seq(25, k requires 0 <= k < 25 => Flip(s[k], Complemented(stage, k)))
  }

  lemma FlipXor(a: Lane, b: Lane, p: bool, q: bool)
    ensures Xor(Flip(a, p), Flip(b, q)) == Flip(Xor(a, b), p != q)
  {
  }

  lemma FlipRotl(v: Lane, n: nat, p: bool)
    requires n < 64
    ensures Rotl(Flip(v, p), n) == Flip(Rotl(v, n), p)
  {
  }

  lemma FlipTwice(v: Lane, p: bool)
    ensures Flip(Flip(v, p), p) == v
  {
    assert Not(Not(v)) == v;
  }

  lemma FlipColumn(a: Lane, b: Lane, c: Lane, d: Lane, e: Lane, p: bool, q: bool, r: bool, s: bool, t: bool)
    ensures Xor(Xor(Xor(Xor(Flip(a, p), Flip(b, q)), Flip(c, r)), Flip(d, s)), Flip(e, t))
         == Flip(Xor(Xor(Xor(Xor(a, b), c), d), e), (((p != q) != r) != s) != t)
  {
    FlipXor(a, b, p, q);
    FlipXor(Xor(a, b), c, p != q, r);
    FlipXor(Xor(Xor(a, b), c), d, (p != q) != r, s);
    FlipXor(Xor(Xor(Xor(a, b), c), d), e, ((p != q) != r) != s, t);
  }

  /** The parity of complemented lanes per column is odd except in column 4. */
  lemma ColumnFlipped(s: Lanes, x: nat)
    requires x < 5
    ensures Column(FlipAll(s, AtRound), x) == Flip(Column(s, x), x != 4)
  {
    var m := k requires 0 <= k < 25 => Complemented(AtRound, k);
    FlipColumn(s[x], s[x + 5], s[x + 10], s[x + 15], s[x + 20], m(x), m(x + 5), m(x + 10), m(x + 15), m(x + 20));
  }

  /** Whether the lanes of column `x` are xored with a complemented word. */
  predicate EffectComplemented(x: nat)
    requires x < 5
  {
    ((x + 4) % 5 != 4) != ((x + 1) % 5 != 4)
  }

  lemma EffectFlipped(s: Lanes, x: nat)
    requires x < 5
    ensures ThetaEffect(FlipAll(s, AtRound), x) == Flip(ThetaEffect(s, x), EffectComplemented(x))
  {
    var left, right := (x + 4) % 5, (x + 1) % 5;
    ColumnFlipped(s, left);
    ColumnFlipped(s, right);
    FlipRotl(Column(s, right), 1, right != 4);
    FlipXor(Column(s, left), Rotl(Column(s, right), 1), left != 4, right != 4);
  }

  lemma ThetaMask(k: nat)
    requires k < 25
    ensures ComplementedByTheta(k) == (Complemented(AtRound, k) != EffectComplemented(k % 5))
  {
  }

  lemma ThetaLaneFlipped(s: Lanes, k: nat)
    requires k < 25
    ensures Theta(FlipAll(s, AtRound))[k] == Flip(Theta(s)[k], Complemented(AfterTheta, k))
  {
    EffectFlipped(s, k % 5);
    ThetaMask(k);
    FlipXor(s[k], ThetaEffect(s, k % 5), Complemented(AtRound, k), EffectComplemented(k % 5));
  }

  lemma ThetaFlipped(s: Lanes)
    ensures Theta(FlipAll(s, AtRound)) == FlipAll(Theta(s), AfterTheta)
  {
    forall k | 0 <= k < 25
      ensures Theta(FlipAll(s, AtRound))[k] == FlipAll(Theta(s), AfterTheta)[k]
    {
      ThetaLaneFlipped(s, k);
    }
  }

  lemma RhoFlipped(s: Lanes, stage: Stage)
    ensures Rho(FlipAll(s, stage)) == FlipAll(Rho(s), stage)
  {
    forall k | 0 <= k < 25
      ensures Rho(FlipAll(s, stage))[k] == FlipAll(Rho(s), stage)[k]
    {
      FlipRotl(s[k], RhoOffset(k), Complemented(stage, k));
    }
  }

  lemma PiFlipped(s: Lanes)
    ensures Pi(FlipAll(s, AfterTheta)) == FlipAll(Pi(s), AfterPi)
  {
  }

  // ----- the chi of the code -----

  function KhiXo(a: Lane, b: Lane, c: Lane): Lane { Xor(a, Or(b, c)) }

  function KhiXa(a: Lane, b: Lane, c: Lane): Lane { Xor(a, And(b, c)) }

  /** One row of the macro KHI; each row has its own mix of OR, AND and NOT. */
  function KhiRow(y: nat, b0: Lane, b1: Lane, b2: Lane, b3: Lane, b4: Lane): (r: seq<Lane>)
    requires y < 5
    ensures |r| == 5
  {
    if y == 0 then
      var bnn := Not(b2);
      [KhiXo(b0, b1, b2), KhiXo(b1, bnn, b3), KhiXa(b2, b3, b4), KhiXo(b3, b4, b0), KhiXa(b4, b0, b1)]
    else if y == 1 then
      var bnn := Not(b4);
      [KhiXo(b0, b1, b2), KhiXa(b1, b2, b3), KhiXo(b2, b3, bnn), KhiXo(b3, b4, b0), KhiXa(b4, b0, b1)]
    else if y == 2 then
      var bnn := Not(b3);
      [KhiXo(b0, b1, b2), KhiXa(b1, b2, b3), KhiXa(b2, bnn, b4), KhiXo(bnn, b4, b0), KhiXa(b4, b0, b1)]
    else if y == 3 then
      var bnn := Not(b3);
      [KhiXa(b0, b1, b2), KhiXo(b1, b2, b3), KhiXo(b2, bnn, b4), KhiXa(bnn, b4, b0), KhiXo(b4, b0, b1)]
    else
      var bnn := Not(b1);
      [KhiXa(b0, bnn, b2), KhiXo(bnn, b2, b3), KhiXa(b2, b3, b4), KhiXo(b3, b4, b0), KhiXa(b4, b0, b1)]
  }

  function Khi(s: Lanes): Lanes {
    KhiRow(0, s[0], s[1], s[2], s[3], s[4]) + KhiRow(1, s[5], s[6], s[7], s[8], s[9])
    + KhiRow(2, s[10], s[11], s[12], s[13], s[14]) + KhiRow(3, s[15], s[16], s[17], s[18], s[19])
    + KhiRow(4, s[20], s[21], s[22], s[23], s[24])
  }

  // Row by row, on inputs complemented as pi leaves them, the code computes chi, complemented as the next
  // round expects it.

  lemma KhiRow0(b0: Lane, b1: Lane, b2: Lane, b3: Lane, b4: Lane)
    ensures var r := KhiRow(0, Not(b0), b1, Not(b2), Not(b3), b4);
      && r[0] == ChiLane(b0, b1, b2)
      && r[1] == Not(ChiLane(b1, b2, b3))
      && r[2] == Not(ChiLane(b2, b3, b4))
      && r[3] == ChiLane(b3, b4, b0)
      && r[4] == ChiLane(b4, b0, b1)
  {
  }

  lemma KhiRow1(b0: Lane, b1: Lane, b2: Lane, b3: Lane, b4: Lane)
    ensures var r := KhiRow(1, Not(b0), b1, Not(b2), b3, b4);
      && r[0] == ChiLane(b0, b1, b2)
      && r[1] == ChiLane(b1, b2, b3)
      && r[2] == ChiLane(b2, b3, b4)
      && r[3] == Not(ChiLane(b3, b4, b0))
      && r[4] == ChiLane(b4, b0, b1)
  {
  }

  lemma KhiRow2(b0: Lane, b1: Lane, b2: Lane, b3: Lane, b4: Lane)
    ensures var r := KhiRow(2, Not(b0), b1, Not(b2), b3, b4);
      && r[0] == ChiLane(b0, b1, b2)
      && r[1] == ChiLane(b1, b2, b3)
      && r[2] == Not(ChiLane(b2, b3, b4))
      && r[3] == ChiLane(b3, b4, b0)
      && r[4] == ChiLane(b4, b0, b1)
  {
  }

  lemma KhiRow3(b0: Lane, b1: Lane, b2: Lane, b3: Lane, b4: Lane)
    ensures var r := KhiRow(3, b0, Not(b1), b2, Not(b3), Not(b4));
      && r[0] == ChiLane(b0, b1, b2)
      && r[1] == ChiLane(b1, b2, b3)
      && r[2] == Not(ChiLane(b2, b3, b4))
      && r[3] == ChiLane(b3, b4, b0)
      && r[4] == ChiLane(b4, b0, b1)
  {
  }

  lemma KhiRow4(b0: Lane, b1: Lane, b2: Lane, b3: Lane, b4: Lane)
    ensures var r := KhiRow(4, Not(b0), b1, b2, Not(b3), b4);
      && r[0] == Not(ChiLane(b0, b1, b2))
      && r[1] == ChiLane(b1, b2, b3)
      && r[2] == ChiLane(b2, b3, b4)
      && r[3] == ChiLane(b3, b4, b0)
      && r[4] == ChiLane(b4, b0, b1)
  {
  }

  ghost predicate In0(s: Lanes, f: Lanes) {
    f[0] == Not(s[0]) && f[1] == s[1] && f[2] == Not(s[2]) && f[3] == Not(s[3]) && f[4] == s[4]
  }

  ghost predicate Out0(s: Lanes, f: Lanes) {
    f[0] == s[0] && f[1] == Not(s[1]) && f[2] == Not(s[2]) && f[3] == s[3] && f[4] == s[4]
  }

  ghost predicate In1(s: Lanes, f: Lanes) {
    f[5] == Not(s[5]) && f[6] == s[6] && f[7] == Not(s[7]) && f[8] == s[8] && f[9] == s[9]
  }

  ghost predicate Out1(s: Lanes, f: Lanes) {
    f[5] == s[5] && f[6] == s[6] && f[7] == s[7] && f[8] == Not(s[8]) && f[9] == s[9]
  }

  ghost predicate In2(s: Lanes, f: Lanes) {
    f[10] == Not(s[10]) && f[11] == s[11] && f[12] == Not(s[12]) && f[13] == s[13] && f[14] == s[14]
  }

  ghost predicate Out2(s: Lanes, f: Lanes) {
    f[10] == s[10] && f[11] == s[11] && f[12] == Not(s[12]) && f[13] == s[13] && f[14] == s[14]
  }

  ghost predicate In3(s: Lanes, f: Lanes) {
    f[15] == s[15] && f[16] == Not(s[16]) && f[17] == s[17] && f[18] == Not(s[18]) && f[19] == Not(s[19])
  }

  ghost predicate Out3(s: Lanes, f: Lanes) {
    f[15] == s[15] && f[16] == s[16] && f[17] == Not(s[17]) && f[18] == s[18] && f[19] == s[19]
  }

  ghost predicate In4(s: Lanes, f: Lanes) {
    f[20] == Not(s[20]) && f[21] == s[21] && f[22] == s[22] && f[23] == Not(s[23]) && f[24] == s[24]
  }

  ghost predicate Out4(s: Lanes, f: Lanes) {
    f[20] == Not(s[20]) && f[21] == s[21] && f[22] == s[22] && f[23] == s[23] && f[24] == s[24]
  }

  lemma KhiRow0Lanes(s: Lanes, f: Lanes)
    requires In0(s, f)
    ensures Out0(Chi(s), Khi(f))
  {
    KhiRow0(s[0], s[1], s[2], s[3], s[4]);
  }

  lemma KhiRow1Lanes(s: Lanes, f: Lanes)
    requires In1(s, f)
    ensures Out1(Chi(s), Khi(f))
  {
    KhiRow1(s[5], s[6], s[7], s[8], s[9]);
  }

  lemma KhiRow2Lanes(s: Lanes, f: Lanes)
    requires In2(s, f)
    ensures Out2(Chi(s), Khi(f))
  {
    KhiRow2(s[10], s[11], s[12], s[13], s[14]);
  }

  lemma KhiRow3Lanes(s: Lanes, f: Lanes)
    requires In3(s, f)
    ensures Out3(Chi(s), Khi(f))
  {
    KhiRow3(s[15], s[16], s[17], s[18], s[19]);
  }

  lemma KhiRow4Lanes(s: Lanes, f: Lanes)
    requires In4(s, f)
    ensures Out4(Chi(s), Khi(f))
  {
    KhiRow4(s[20], s[21], s[22], s[23], s[24]);
  }

  /** The code's chi on complemented lanes is the standard's chi, complemented. */
  lemma KhiFlipped(s: Lanes, f: Lanes)
    requires In0(s, f) && In1(s, f) && In2(s, f) && In3(s, f) && In4(s, f)
    ensures var (r, c) := (Khi(f), Chi(s)); Out0(c, r) && Out1(c, r) && Out2(c, r) && Out3(c, r) && Out4(c, r)
  {
    KhiRow0Lanes(s, f);
    KhiRow1Lanes(s, f);
    KhiRow2Lanes(s, f);
    KhiRow3Lanes(s, f);
    KhiRow4Lanes(s, f);
  }

  lemma FlippedRow0(s: Lanes)
    ensures In0(s, FlipAll(s, AfterPi))
  {
  }

  lemma FlippedRow1(s: Lanes)
    ensures In1(s, FlipAll(s, AfterPi))
  {
  }

  lemma FlippedRow2(s: Lanes)
    ensures In2(s, FlipAll(s, AfterPi))
  {
  }

  lemma FlippedRow3(s: Lanes)
    ensures In3(s, FlipAll(s, AfterPi))
  {
  }

  lemma FlippedRow4(s: Lanes)
    ensures In4(s, FlipAll(s, AfterPi))
  {
  }

  lemma RowsFlipped(s: Lanes, f: Lanes)
    requires Out0(s, f) && Out1(s, f) && Out2(s, f) && Out3(s, f) && Out4(s, f)
    ensures f == FlipAll(s, AtRound)
  {
  }

  /** One round of the code, on lanes in their logical order. */
  function CodeRound(s: Lanes, rc: Lane): Lanes { Iota(Khi(Pi(Rho(Theta(s)))), rc) }

  lemma ChiFlipped(s: Lanes)
    ensures Khi(FlipAll(s, AfterPi)) == FlipAll(Chi(s), AtRound)
  {
    var f := FlipAll(s, AfterPi);
    FlippedRow0(s);
    FlippedRow1(s);
    FlippedRow2(s);
    FlippedRow3(s);
    FlippedRow4(s);
    KhiFlipped(s, f);
    RowsFlipped(Chi(s), Khi(f));
  }

  lemma IotaFlipped(s: Lanes, rc: Lane)
    ensures Iota(FlipAll(s, AtRound), rc) == FlipAll(Iota(s, rc), AtRound)
  {
  }

  /** A round keeps the six lanes complemented and otherwise computes the standard's round. */
  lemma RoundFlipped(s: Lanes, rc: Lane)
    ensures CodeRound(FlipAll(s, AtRound), rc) == FlipAll(Round(s, rc), AtRound)
  {
    ThetaFlipped(s);
    RhoFlipped(Theta(s), AfterTheta);
    PiFlipped(Rho(Theta(s)));
    ChiFlipped(Pi(Rho(Theta(s))));
    IotaFlipped(Chi(Pi(Rho(Theta(s)))), rc);
  }
}
