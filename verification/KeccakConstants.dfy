/**
 The constants of Keccak: the table RC of `keccak.c` and the shift register of section 3.2.5 of FIPS 202 that
 defines it, the offsets of rho and the walk of section 3.2.2 that defines them.
 */
module KeccakConstants {
  import opened KeccakPermutation

  // ----- the standard -----

  /** The register of algorithm 5. */
  datatype Register = Register(r0: bool, r1: bool, r2: bool, r3: bool, r4: bool, r5: bool, r6: bool, r7: bool)

  function Shift(r: Register): Register {
    Register(r.r7, r.r0, r.r1, r.r2, r.r3 != r.r7, r.r4 != r.r7, r.r5 != r.r7, r.r6)
  }

  /** The register after `t` shifts. */
  function After(t: nat): Register {
    if t == 0 then Register(true, false, false, false, false, false, false, false) else Shift(After(t - 1))
  }

  /** The bit rc(t), below its period of 255. */
  predicate Bit(t: nat) { After(t).r0 }

  /** The bits of a constant at the places 2^j - 1; it is zero elsewhere. */
  datatype Row = Row(b0: bool, b1: bool, b3: bool, b7: bool, b15: bool, b31: bool, b63: bool)

  /** Bit 2^j - 1 of the constant of a round is rc(t + j), where `t` is seven times the round. */
  function StandardRow(t: nat): Row {
    Row(Bit(t), Bit(t + 1), Bit(t + 2), Bit(t + 3), Bit(t + 4), Bit(t + 5), Bit(t + 6))
  }

  function Word(r: Row): Lane {
    var zero: Lane := seq(64, _ => false);
    zero[0 := r.b0][1 := r.b1][3 := r.b3][7 := r.b7][15 := r.b15][31 := r.b31][63 := r.b63]
  }

  /** One constant per round, by the bits from seven times the round on. */
  function ConstantsOf(f: nat -> Row): Constants { seq(24, i requires 0 <= i < 24 => ConstantOf(f, i)) }

  function ConstantOf(f: nat -> Row, i: nat): Lane { Word(f(7 * i)) }

  function StandardConstants(): Constants { ConstantsOf(StandardRow) }

  // ----- the table -----

  type Three = q: seq<Row> | |q| == 3 witness seq(3, _ => Row(false, false, false, false, false, false, false))

  /** The set bits of the table RC, three entries at a time. */
  function TableRows(k: nat): Three {
    // 0x0000000000000001, 0x0000000000008082, 0x800000000000808A
    if k == 0 then [Row(true, false, false, false, false, false, false),
      Row(false, true, false, true, true, false, false),
      Row(false, true, true, true, true, false, true)]
    // 0x8000000080008000, 0x000000000000808B, 0x0000000080000001
    else if k == 1 then [Row(false, false, false, false, true, true, true),
      Row(true, true, true, true, true, false, false),
      Row(true, false, false, false, false, true, false)]
    // 0x8000000080008081, 0x8000000000008009, 0x000000000000008A
    else if k == 2 then [Row(true, false, false, true, true, true, true),
      Row(true, false, true, false, true, false, true),
      Row(false, true, true, true, false, false, false)]
    // 0x0000000000000088, 0x0000000080008009, 0x000000008000000A
    else if k == 3 then [Row(false, false, true, true, false, false, false),
      Row(true, false, true, false, true, true, false),
      Row(false, true, true, false, false, true, false)]
    // 0x000000008000808B, 0x800000000000008B, 0x8000000000008089
    else if k == 4 then [Row(true, true, true, true, true, true, false),
      Row(true, true, true, true, false, false, true),
      Row(true, false, true, true, true, false, true)]
    // 0x8000000000008003, 0x8000000000008002, 0x8000000000000080
    else if k == 5 then [Row(true, true, false, false, true, false, true),
      Row(false, true, false, false, true, false, true),
      Row(false, false, false, true, false, false, true)]
    // 0x000000000000800A, 0x800000008000000A, 0x8000000080008081
    else if k == 6 then [Row(false, true, true, false, true, false, false),
      Row(false, true, true, false, false, true, true),
      Row(true, false, false, true, true, true, true)]
    // 0x8000000000008080, 0x0000000080000001, 0x8000000080008008
    else [Row(false, false, false, true, true, false, true),
      Row(true, false, false, false, false, true, false),
      Row(false, false, true, false, true, true, true)]
  }

  /** The table RC. */
  function RoundConstants(): Constants { ConstantsIn(TableRows) }

  function ConstantsIn(table: nat -> Three): Constants { seq(24, i requires 0 <= i < 24 => ConstantIn(table, i)) }

  function ConstantIn(table: nat -> Three, i: nat): Lane { Word(table(i / 3)[i % 3]) }

  // ----- they agree -----

  function Shift7(r: Register): Register { Shift(Shift(Shift(Shift(Shift(Shift(Shift(r))))))) }

  /** The seven bits that a register gives while it is shifted. */
  function RowOf(r: Register): Row {
    var s1 := Shift(r);
    var s2 := Shift(s1);
    var s3 := Shift(s2);
    var s4 := Shift(s3);
    var s5 := Shift(s4);
    Row(r.r0, s1.r0, s2.r0, s3.r0, s4.r0, s5.r0, Shift(s5).r0)
  }

  /** Opens `Rows`, which is closed so that shifts are not followed where they do not matter. */
  predicate Opened(u: int) { true }

  ghost predicate Rows(r: Register, q: seq<Row>, s: Register) {
    |q| == 3 && forall u {:trigger Opened(u)} :: Opened(u) ==> AreRows(r, q, s)
  }

  /** Three rows in turn, from register `r` to register `s`. */
  ghost predicate AreRows(r: Register, q: seq<Row>, s: Register) {
    var r1, r2 := Shift7(r), Shift7(Shift7(r));
    |q| == 3 && q[0] == RowOf(r) && q[1] == RowOf(r1) && q[2] == RowOf(r2) && s == Shift7(r2)
  }

  lemma Rows0To2()
    ensures Rows(Register(true, false, false, false, false, false, false, false), [Row(true, false, false, false, false, false, false),
                    Row(false, true, false, true, true, false, false),
                    Row(false, true, true, true, true, false, true)], Register(false, true, false, true, true, false, false, false))
  {
  }

  lemma Rows3To5()
    ensures Rows(Register(false, true, false, true, true, false, false, false), [Row(false, false, false, false, true, true, true),
                    Row(true, true, true, true, true, false, false),
                    Row(true, false, false, false, false, true, false)], Register(true, false, true, false, true, true, false, false))
  {
  }

  lemma Rows6To8()
    ensures Rows(Register(true, false, true, false, true, true, false, false), [Row(true, false, false, true, true, true, true),
                    Row(true, false, true, false, true, false, true),
                    Row(false, true, true, true, false, false, false)], Register(false, false, false, false, true, true, true, false))
  {
  }

  lemma Rows9To11()
    ensures Rows(Register(false, false, false, false, true, true, true, false), [Row(false, false, true, true, false, false, false),
                    Row(true, false, true, false, true, true, false),
                    Row(false, true, true, false, false, true, false)], Register(true, false, true, false, true, false, true, true))
  {
  }

  lemma Rows12To14()
    ensures Rows(Register(true, false, true, false, true, false, true, true), [Row(true, true, true, true, true, true, false),
                    Row(true, true, true, true, false, false, true),
                    Row(true, false, true, true, true, false, true)], Register(true, true, false, true, false, true, false, true))
  {
  }

  lemma Rows15To17()
    ensures Rows(Register(true, true, false, true, false, true, false, true), [Row(true, true, false, false, true, false, true),
                    Row(false, true, false, false, true, false, true),
                    Row(false, false, false, true, false, false, true)], Register(false, true, false, false, true, true, true, true))
  {
  }

  lemma Rows18To20()
    ensures Rows(Register(false, true, false, false, true, true, true, true), [Row(false, true, true, false, true, false, false),
                    Row(false, true, true, false, false, true, true),
                    Row(true, false, false, true, true, true, true)], Register(false, true, true, true, true, true, false, false))
  {
  }

  lemma Rows21To23()
    ensures Rows(Register(false, true, true, true, true, true, false, false), [Row(false, false, false, true, true, false, true),
                    Row(true, false, false, false, false, true, false),
                    Row(false, false, true, false, true, true, true)], Register(false, true, true, true, false, false, false, true))
  {
  }

  lemma SevenShifts(t: nat)
    ensures After(t + 7) == Shift7(After(t)) && StandardRow(t) == RowOf(After(t))
  {
    assert After(t + 1) == Shift(After(t)) && After(t + 2) == Shift(After(t + 1)) && After(t + 3) == Shift(After(t + 2));
    assert After(t + 4) == Shift(After(t + 3)) && After(t + 5) == Shift(After(t + 4)) && After(t + 6) == Shift(After(t + 5));
  }

  /** `q` holds three values of `f`, seven apart. */
  ghost predicate AreValues(q: seq<Row>, f: nat -> Row, t: nat) {
    |q| == 3 && q[0] == f(t) && q[1] == f(t + 7) && q[2] == f(t + 14)
  }

  /** Rows that follow from the register at `t` are those of the standard. */
  lemma RowsAreStandard(t: nat, q: seq<Row>, s: Register)
    requires Rows(After(t), q, s)
    ensures AreValues(q, StandardRow, t) && s == After(t + 21)
  {
    assert Opened(0);
    SevenShifts(t);
    SevenShifts(t + 7);
    SevenShifts(t + 14);
  }

  /** The register before three rows. */
  function StartRegister(k: nat): Register
    requires k <= 8
  {
    if k == 0 then Register(true, false, false, false, false, false, false, false)
    else if k == 1 then Register(false, true, false, true, true, false, false, false)
    else if k == 2 then Register(true, false, true, false, true, true, false, false)
    else if k == 3 then Register(false, false, false, false, true, true, true, false)
    else if k == 4 then Register(true, false, true, false, true, false, true, true)
    else if k == 5 then Register(true, true, false, true, false, true, false, true)
    else if k == 6 then Register(false, true, false, false, true, true, true, true)
    else if k == 7 then Register(false, true, true, true, true, true, false, false)
    else Register(false, true, true, true, false, false, false, true)
  }

  lemma TableStep(k: nat)
    requires k < 8
    ensures Rows(StartRegister(k), TableRows(k), StartRegister(k + 1))
  {
    if k == 0 { Rows0To2(); } else if k == 1 { Rows3To5(); } else if k == 2 { Rows6To8(); } else if k == 3 { Rows9To11(); }
    else if k == 4 { Rows12To14(); } else if k == 5 { Rows15To17(); } else if k == 6 { Rows18To20(); } else { Rows21To23(); }
  }

  lemma {:induction false} RegisterAt(k: nat)
    requires k <= 8
    ensures After(21 * k) == StartRegister(k)
  {
    if k > 0 {
      RegisterAt(k - 1);
      TableStep(k - 1);
      RowsAreStandard(21 * (k - 1), TableRows(k - 1), StartRegister(k));
    }
  }

  lemma TableValues(k: nat)
    requires k < 8
    ensures AreValues(TableRows(k), StandardRow, 21 * k)
  {
    RegisterAt(k);
    TableStep(k);
    RowsAreStandard(21 * k, TableRows(k), StartRegister(k + 1));
  }

  ghost predicate TableOf(table: nat -> Three, f: nat -> Row) {
    forall k :: 0 <= k < 8 ==> AreValues(table(k), f, 21 * k)
  }

  lemma ValueAt(table: nat -> Three, f: nat -> Row, i: nat, k: nat, j: nat)
    requires TableOf(table, f) && k < 8 && j < 3 && i == 3 * k + j
    ensures table(k)[j] == f(7 * i)
  {
    assert AreValues(table(k), f, 21 * k);
  }

  /** Where the rows of a table are values of `f`, its constants are those of `f`. */
  lemma SameConstants(table: nat -> Three, f: nat -> Row)
    requires TableOf(table, f)
    ensures ConstantsIn(table) == ConstantsOf(f)
  {
    forall i | 0 <= i < 24
      ensures ConstantIn(table, i) == ConstantOf(f, i)
    {
      ValueAt(table, f, i, i / 3, i % 3);
    }
  }

  /** The table of the code is that of the standard. */
  lemma TableIsStandard()
    ensures RoundConstants() == StandardConstants()
  {
    forall k | 0 <= k < 8
      ensures AreValues(TableRows(k), StandardRow, 21 * k)
    {
      TableValues(k);
    }
    SameConstants(TableRows, StandardRow);
  }

  // ----- the bits of a constant -----

  /** 2^j - 1. */
  function BitPlace(j: nat): nat { if j == 0 then 0 else 2 * BitPlace(j - 1) + 1 }

  lemma BitPlaces()
    ensures BitPlace(0) == 0 && BitPlace(1) == 1 && BitPlace(2) == 3 && BitPlace(3) == 7
    ensures BitPlace(4) == 15 && BitPlace(5) == 31 && BitPlace(6) == 63
  {
    assert BitPlace(2) == 3;
    assert BitPlace(4) == 15;
  }

  lemma WordBit(r: Row, z: nat)
    requires z < 64
    ensures Word(r)[z] == if z == 0 then r.b0 else if z == 1 then r.b1 else if z == 3 then r.b3 else if z == 7 then r.b7
      else if z == 15 then r.b15 else if z == 31 then r.b31 else if z == 63 then r.b63 else false
  {
  }

  /** Section 3.2.5: bit 2^j - 1 of the constant of round `i` is rc(j + 7i), and the other bits are zero. */
  lemma ConstantBit(i: nat, z: nat)
    requires i < 24 && z < 64
    ensures StandardConstants()[i][z] <==> IsSet(7 * i, z)
  {
    ConstantWord(i);
    RowBitIs(7 * i, z, StandardConstants()[i]);
  }

  /** `z` is 2^j - 1 for some j below 7 with rc(j + t). */
  ghost predicate IsSet(t: nat, z: nat) { exists j :: 0 <= j < 7 && z == BitPlace(j) && Bit(j + t) }

  lemma RowBitIs(t: nat, z: nat, v: Lane)
    requires z < 64 && v == Word(StandardRow(t))
    ensures v[z] <==> IsSet(t, z)
  {
    RowBit(t, z);
    PlaceBit(z, t);
  }

  lemma ConstantWord(i: nat)
    requires i < 24
    ensures StandardConstants()[i] == Word(StandardRow(7 * i))
  {
  }

  lemma RowBit(t: nat, z: nat)
    requires z < 64
    ensures Word(StandardRow(t))[z] ==
      if z == 0 then Bit(t) else if z == 1 then Bit(t + 1) else if z == 3 then Bit(t + 2) else if z == 7 then Bit(t + 3)
      else if z == 15 then Bit(t + 4) else if z == 31 then Bit(t + 5) else if z == 63 then Bit(t + 6) else false
  {
    WordBit(StandardRow(t), z);
  }

  lemma PlaceBit(z: nat, t: nat)
    ensures IsSet(t, z)
      <==> (if z == 0 then Bit(t) else if z == 1 then Bit(t + 1) else if z == 3 then Bit(t + 2) else if z == 7 then Bit(t + 3)
            else if z == 15 then Bit(t + 4) else if z == 31 then Bit(t + 5) else if z == 63 then Bit(t + 6) else false)
  {
    BitPlaces();
    if IsSet(t, z) {
      var j :| 0 <= j < 7 && z == BitPlace(j) && Bit(j + t);
      assert j == 0 || j == 1 || j == 2 || j == 3 || j == 4 || j == 5 || j == 6;
    }
    var k := if z == 0 then 0 else if z == 1 then 1 else if z == 3 then 2 else if z == 7 then 3
      else if z == 15 then 4 else if z == 31 then 5 else 6;
    if Bit(k + t) && z == BitPlace(k) {
      assert 0 <= k < 7;
    }
  }

  // ----- the rotation offsets -----

  /** A lane by its coordinates. */
  datatype Spot = Spot(x: nat, y: nat)

  /** The lane reached after `t` steps of the walk of section 3.2.2. */
  function Walk(t: nat): Spot {
    if t == 0 then Spot(1, 0) else var s := Walk(t - 1); Spot(s.y, (2 * s.x + 3 * s.y) % 5)
  }

  /** The lane after lane `k`, which is lane (k % 5, k / 5). */
  function Follow(k: nat): nat { k / 5 + 5 * ((2 * (k % 5) + 3 * (k / 5)) % 5) }

  /** The offset of step `t` in the standard. */
  function Triangle(t: nat): nat { (t + 1) * (t + 2) / 2 % 64 }

  lemma TriangleStep(t: nat)
    ensures Triangle(t + 1) == (Triangle(t) + t + 2) % 64
  {
    var p := (t + 1) * (t + 2);
    assert (t + 2) * (t + 3) == p + 2 * (t + 2);
    HalfStep(p, t + 2);
  }

  lemma HalfStep(p: nat, d: nat)
    ensures (p + 2 * d) / 2 % 64 == (p / 2 % 64 + d) % 64
  {
    var h := p / 2;
    assert (p + 2 * d) / 2 == h + d;
    SumModulo(h, d);
  }

  lemma SumModulo(h: nat, d: nat)
    ensures (h + d) % 64 == (h % 64 + d) % 64
  {
    var e, j := h / 64, h % 64;
    var f, k := (j + d) / 64, (j + d) % 64;
    assert h + d == 64 * (e + f) + k;
  }

  /** The lanes of the walk in its order, and the offsets in the order of the walk. */
  ghost predicate IsWalk(lanes: seq<nat>) {
    && |lanes| == 24 && lanes[0] == 1
    && forall t :: 0 <= t < 23 ==> lanes[t + 1] == Follow(lanes[t]) && lanes[t] < 25
  }

  ghost predicate AreOffsets(offsets: seq<nat>) {
    |offsets| == 24 && offsets[0] == 1 && forall t :: 0 <= t < 23 ==> offsets[t + 1] == (offsets[t] + t + 2) % 64
  }

  lemma {:induction false} WalkVisits(lanes: seq<nat>, t: nat)
    requires IsWalk(lanes) && t < 24
    ensures Walk(t) == Spot(lanes[t] % 5, lanes[t] / 5)
  {
    if t > 0 {
      WalkVisits(lanes, t - 1);
      StepOfWalk(lanes[t - 1], lanes[t]);
    }
  }

  lemma StepOfWalk(k: nat, j: nat)
    requires k < 25 && j == Follow(k)
    ensures j % 5 == k / 5 && j / 5 == (2 * (k % 5) + 3 * (k / 5)) % 5
  {
  }

  lemma {:induction false} OffsetsGrow(offsets: seq<nat>, t: nat)
    requires AreOffsets(offsets) && t < 24
    ensures offsets[t] == Triangle(t)
  {
    if t > 0 {
      OffsetsGrow(offsets, t - 1);
      TriangleStep(t - 1);
    }
  }

  const VISITED: seq<nat> := [1, 10, 7, 11, 17, 18, 3, 5, 16, 8, 21, 24, 4, 15, 23, 19, 13, 12, 2, 20, 14, 22, 9, 6]
  const OFFSETS: seq<nat> := [1, 3, 6, 10, 15, 21, 28, 36, 45, 55, 2, 14, 27, 41, 56, 8, 25, 43, 62, 18, 39, 61, 20, 44]
  /** When the walk is at lane `k + 1`. */
  const TIMES: seq<nat> := [0, 18, 6, 12, 7, 23, 2, 9, 22, 1, 3, 17, 16, 20, 13, 8, 4, 5, 15, 19, 10, 21, 14, 11]

  lemma VisitedIsWalk()
    ensures IsWalk(VISITED)
  {
    forall t | 0 <= t < 23
      ensures VISITED[t + 1] == Follow(VISITED[t]) && VISITED[t] < 25
    {
      NextVisited(VISITED[t], VISITED[t + 1], t);
    }
  }

  lemma NextVisited(k: nat, j: nat, t: nat)
    requires t < 23 && k == VISITED[t] && j == VISITED[t + 1]
    ensures j == k / 5 + 5 * ((2 * (k % 5) + 3 * (k / 5)) % 5) && k < 25
  {
  }

  lemma OffsetsAreOffsets()
    ensures AreOffsets(OFFSETS)
  {
    forall t | 0 <= t < 23
      ensures OFFSETS[t + 1] == (OFFSETS[t] + t + 2) % 64
    {
      NextOffset(OFFSETS[t], OFFSETS[t + 1], t);
    }
  }

  lemma NextOffset(m: nat, n: nat, t: nat)
    requires t < 23 && m == OFFSETS[t] && n == OFFSETS[t + 1]
    ensures n == (m + t + 2) % 64
  {
  }

  /** The table of the code, in the order of the walk. */
  lemma OffsetAt(k: nat)
    requires 0 < k < 25
    ensures var t := TIMES[k - 1]; t < 24 && VISITED[t] == k && RhoOffset(k) == OFFSETS[t]
  {
  }

  /** Lane 0 is not rotated, and every other lane by the offset of the step that visits it. */
  lemma OffsetsAreStandard(x: nat, y: nat)
    requires x < 5 && y < 5
    ensures if x == 0 && y == 0 then RhoOffset(0) == 0
      else exists t :: 0 <= t < 24 && Walk(t) == Spot(x, y) && RhoOffset(x + 5 * y) == Triangle(t)
  {
    if x != 0 || y != 0 {
      OffsetAt(x + 5 * y);
      VisitedIsWalk();
      OffsetsAreOffsets();
      StandardAt(VISITED, OFFSETS, TIMES[x + 5 * y - 1], x, y);
    }
  }

  lemma StandardAt(lanes: seq<nat>, offsets: seq<nat>, t: nat, x: nat, y: nat)
    requires IsWalk(lanes) && AreOffsets(offsets) && t < 24 && x < 5 && lanes[t] == x + 5 * y
    ensures Walk(t) == Spot(x, y) && offsets[t] == Triangle(t)
  {
    WalkVisits(lanes, t);
    OffsetsGrow(offsets, t);
    Coordinates(lanes[t], x, y);
  }

  lemma Coordinates(k: nat, x: nat, y: nat)
    requires k == x + 5 * y && x < 5
    ensures k % 5 == x && k / 5 == y
  {
  }
}
