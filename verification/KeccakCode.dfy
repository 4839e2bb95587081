/**
 The permutation as `keccak.c` runs it (64-bit build, unrolled eight times): in place on 25 registers, with
 the macro arguments P0 to P8 naming the registers anew in every round.
 */
module KeccakCode {
  import opened Iteration
  import opened KeccakPermutation

  // The macro arguments P0 to P8: entry x + 5 * y is the register that stands for lane (x, y).

  const P0: seq<nat> := [0, 1, 2, 3, 4, 5, 6, 7, 8, 9, 10, 11, 12, 13, 14, 15, 16, 17, 18, 19, 20, 21, 22, 23, 24]
  const P1: seq<nat> := [0, 6, 12, 18, 24, 3, 9, 10, 16, 22, 1, 7, 13, 19, 20, 4, 5, 11, 17, 23, 2, 8, 14, 15, 21]
  const P2: seq<nat> := [0, 9, 13, 17, 21, 18, 22, 1, 5, 14, 6, 10, 19, 23, 2, 24, 3, 7, 11, 15, 12, 16, 20, 4, 8]
  const P3: seq<nat> := [0, 22, 19, 11, 8, 17, 14, 6, 3, 20, 9, 1, 23, 15, 12, 21, 18, 10, 7, 4, 13, 5, 2, 24, 16]
  const P4: seq<nat> := [0, 14, 23, 7, 16, 11, 20, 9, 18, 2, 22, 6, 15, 4, 13, 8, 17, 1, 10, 24, 19, 3, 12, 21, 5]
  const P5: seq<nat> := [0, 20, 15, 10, 5, 7, 2, 22, 17, 12, 14, 9, 4, 24, 19, 16, 11, 6, 1, 21, 23, 18, 13, 8, 3]
  const P6: seq<nat> := [0, 2, 4, 1, 3, 10, 12, 14, 11, 13, 20, 22, 24, 21, 23, 5, 7, 9, 6, 8, 15, 17, 19, 16, 18]
  const P7: seq<nat> := [0, 12, 24, 6, 18, 1, 13, 20, 7, 19, 2, 14, 21, 8, 15, 3, 10, 22, 9, 16, 4, 11, 23, 5, 17]
  const P8: seq<nat> := [0, 13, 21, 9, 17, 6, 19, 2, 10, 23, 12, 20, 8, 16, 4, 18, 1, 14, 22, 5, 24, 7, 15, 3, 11]

  function Names(r: nat): (p: seq<nat>)
    requires r <= 8
    ensures |p| == 25
  {
    if r == 0 then P0 else if r == 1 then P1 else if r == 2 then P2 else if r == 3 then P3 else if r == 4 then P4
    else if r == 5 then P5 else if r == 6 then P6 else if r == 7 then P7 else P8
  }

  ghost predicate IsNaming(p: seq<nat>) {
    && |p| == 25 && (forall k :: 0 <= k < 25 ==> p[k] < 25)
    && (forall i, j :: 0 <= i < j < 25 ==> p[i] != p[j])
  }

  /** The lanes in their logical order. */
  ghost function View(a: seq<Lane>, p: seq<nat>): Lanes
    requires |a| == 25 && IsNaming(p)
  {
    seq(25, k requires 0 <= k < 25 => a[p[k]])
  }

  ghost predicate FollowsPi(p: seq<nat>, q: seq<nat>) {
    |p| == 25 && |q| == 25 && forall k :: 0 <= k < 25 ==> q[k] == p[PiSource(k)]
  }

  /** `FollowsPi`, written out. */
  ghost predicate ListFollowsPi(p: seq<nat>, q: seq<nat>) {
    && |p| == 25 && |q| == 25
    && q[0] == p[0] && q[1] == p[6] && q[2] == p[12] && q[3] == p[18] && q[4] == p[24]
    && q[5] == p[3] && q[6] == p[9] && q[7] == p[10] && q[8] == p[16] && q[9] == p[22]
    && q[10] == p[1] && q[11] == p[7] && q[12] == p[13] && q[13] == p[19] && q[14] == p[20]
    && q[15] == p[4] && q[16] == p[5] && q[17] == p[11] && q[18] == p[17] && q[19] == p[23]
    && q[20] == p[2] && q[21] == p[8] && q[22] == p[14] && q[23] == p[15] && q[24] == p[21]
  }

  lemma ListFollows(p: seq<nat>, q: seq<nat>)
    requires ListFollowsPi(p, q)
    ensures FollowsPi(p, q)
  {
  }

  lemma FollowsPi0()
    ensures FollowsPi(P0, P1)
  {
    ListFollows(P0, P1);
  }

  lemma FollowsPi1()
    ensures FollowsPi(P1, P2)
  {
    ListFollows(P1, P2);
  }

  lemma FollowsPi2()
    ensures FollowsPi(P2, P3)
  {
    ListFollows(P2, P3);
  }

  lemma FollowsPi3()
    ensures FollowsPi(P3, P4)
  {
    ListFollows(P3, P4);
  }

  lemma FollowsPi4()
    ensures FollowsPi(P4, P5)
  {
    ListFollows(P4, P5);
  }

  lemma FollowsPi5()
    ensures FollowsPi(P5, P6)
  {
    ListFollows(P5, P6);
  }

  lemma FollowsPi6()
    ensures FollowsPi(P6, P7)
  {
    ListFollows(P6, P7);
  }

  lemma FollowsPi7()
    ensures FollowsPi(P7, P8)
  {
    ListFollows(P7, P8);
  }

  /** The names of the next round are those of this one, moved by pi. */
  lemma NamesFollowPi(r: nat)
    requires r < 8
    ensures FollowsPi(Names(r), Names(r + 1))
  {
    if r == 0 { FollowsPi0(); } else if r == 1 { FollowsPi1(); } else if r == 2 { FollowsPi2(); }
    else if r == 3 { FollowsPi3(); } else if r == 4 { FollowsPi4(); } else if r == 5 { FollowsPi5(); }
    else if r == 6 { FollowsPi6(); } else { FollowsPi7(); }
  }

  /** Where pi moves lane `j`. */
  function PiTarget(j: nat): (k: nat)
    requires j < 25
    ensures k < 25
  {
    [0, 10, 20, 5, 15, 16, 1, 11, 21, 6, 7, 17, 2, 12, 22, 23, 8, 18, 3, 13, 14, 24, 9, 19, 4][j]
  }

  lemma PiInvertible(k: nat)
    requires k < 25
    ensures PiTarget(PiSource(k)) == k
  {
  }

  /** Renaming by pi keeps a naming a naming, and lane 0 where it is. */
  lemma PiKeepsNaming(p: seq<nat>, q: seq<nat>)
    requires IsNaming(p) && p[0] == 0 && FollowsPi(p, q)
    ensures IsNaming(q) && q[0] == 0
  {
    forall i, j | 0 <= i < j < 25
      ensures q[i] != q[j]
    {
      PiInvertible(i);
      PiInvertible(j);
      assert p[PiSource(i)] != p[PiSource(j)];
    }
    assert PiSource(0) == 0;
  }

  lemma FirstNaming()
    ensures IsNaming(P0) && P0[0] == 0
  {
    assert forall k :: 0 <= k < 25 ==> P0[k] == k;
  }

  lemma {:induction false} NamesOk(r: nat)
    requires r <= 8
    ensures IsNaming(Names(r)) && Names(r)[0] == 0
  {
    if r == 0 {
      FirstNaming();
    } else {
      NamesOk(r - 1);
      NamesFollowPi(r - 1);
      PiKeepsNaming(Names(r - 1), Names(r));
    }
  }

  function ThetaElement(c0: Lane, c1: Lane, c2: Lane, c3: Lane, c4: Lane,
                        d0: Lane, d1: Lane, d2: Lane, d3: Lane, d4: Lane): Lane
  {
    var tt0 := Xor(Xor(Xor(d0, d1), d4), Xor(d2, d3));
    Xor(Xor(Rotl(tt0, 1), c4), Xor(Xor(c0, c1), Xor(c2, c3)))
  }

  lemma ThetaElementIs(s: Lanes, x: nat)
    requires x < 5
    ensures var c, d := (x + 4) % 5, (x + 1) % 5;
      ThetaElement(s[c], s[c + 5], s[c + 10], s[c + 15], s[c + 20], s[d], s[d + 5], s[d + 10], s[d + 15], s[d + 20])
        == ThetaEffect(s, x)
  {
    var c, d := (x + 4) % 5, (x + 1) % 5;
    ElementSum(s[c], s[c + 5], s[c + 10], s[c + 15], s[c + 20], s[d], s[d + 5], s[d + 10], s[d + 15], s[d + 20]);
  }

  lemma ElementSum(c0: Lane, c1: Lane, c2: Lane, c3: Lane, c4: Lane, d0: Lane, d1: Lane, d2: Lane, d3: Lane, d4: Lane)
    ensures ThetaElement(c0, c1, c2, c3, c4, d0, d1, d2, d3, d4)
         == Xor(Xor(Xor(Xor(Xor(c0, c1), c2), c3), c4), Rotl(Xor(Xor(Xor(Xor(d0, d1), d2), d3), d4), 1))
  {
  }

  // ----- the macros, in place -----

  /** All places named from `k` on still hold what they held. */
  ghost predicate Untouched(a: seq<Lane>, p: seq<nat>, v: Lanes, k: nat)
    requires |a| == 25 && IsNaming(p)
  {
    forall j :: k <= j < 25 ==> a[p[j]] == v[j]
  }

  /** All places named before `k` hold the new lanes. */
  ghost predicate Done(a: seq<Lane>, p: seq<nat>, w: Lanes, k: nat)
    requires |a| == 25 && IsNaming(p) && k <= 25
  {
    forall j :: 0 <= j < k ==> a[p[j]] == w[j]
  }

  lemma DoneIsView(a: seq<Lane>, p: seq<nat>, w: Lanes)
    requires |a| == 25 && IsNaming(p) && Done(a, p, w, 25)
    ensures View(a, p) == w
  {
  }

  method ThetaWord(a: array<Lane>, p: seq<nat>, x: nat) returns (t: Lane)
    requires a.Length == 25 && IsNaming(p) && x < 5
    ensures t == ThetaEffect(View(a[..], p), x)
  {
    var c, d := (x + 4) % 5, (x + 1) % 5;
    ThetaElementIs(View(a[..], p), x);
    t := ThetaElement(a[p[c]], a[p[c + 5]], a[p[c + 10]], a[p[c + 15]], a[p[c + 20]],
                      a[p[d]], a[p[d + 5]], a[p[d + 10]], a[p[d + 15]], a[p[d + 20]]);
  }

  /** The five words that theta adds, one per column. */
  method ThetaWordsOf(a: array<Lane>, p: seq<nat>) returns (t: seq<Lane>)
    requires a.Length == 25 && IsNaming(p)
    ensures var v := View(a[..], p); |t| == 5 && forall k :: 0 <= k < 25 ==> Theta(v)[k] == Xor(v[k], t[k % 5])
  {
    var t0 := ThetaWord(a, p, 0);
    var t1 := ThetaWord(a, p, 1);
    var t2 := ThetaWord(a, p, 2);
    var t3 := ThetaWord(a, p, 3);
    var t4 := ThetaWord(a, p, 4);
    t := [t0, t1, t2, t3, t4];
    ThetaWords(View(a[..], p), t0, t1, t2, t3, t4);
  }

  method ThetaInPlace(a: array<Lane>, p: seq<nat>)
    requires a.Length == 25 && IsNaming(p)
    modifies a
    ensures View(a[..], p) == Theta(View(old(a[..]), p))
  {
    ghost var v := View(a[..], p);
    var t := ThetaWordsOf(a, p);
    AddWords(a, p, t, v, Theta(v));
    DoneIsView(a[..], p, Theta(v));
  }

  lemma ThetaWords(v: Lanes, t0: Lane, t1: Lane, t2: Lane, t3: Lane, t4: Lane)
    requires t0 == ThetaEffect(v, 0) && t1 == ThetaEffect(v, 1) && t2 == ThetaEffect(v, 2)
    requires t3 == ThetaEffect(v, 3) && t4 == ThetaEffect(v, 4)
    ensures forall k :: 0 <= k < 25 ==> Theta(v)[k] == Xor(v[k], [t0, t1, t2, t3, t4][k % 5])
  {
    var t := [t0, t1, t2, t3, t4];
    forall k | 0 <= k < 25
      ensures Theta(v)[k] == Xor(v[k], t[k % 5])
    {
      var x := k % 5;
      assert t[x] == ThetaEffect(v, x);
    }
  }

  method AddWords(a: array<Lane>, p: seq<nat>, t: seq<Lane>, ghost v: Lanes, ghost w: Lanes)
    requires a.Length == 25 && IsNaming(p) && Untouched(a[..], p, v, 0)
    requires |t| == 5 && forall k :: 0 <= k < 25 ==> w[k] == Xor(v[k], t[k % 5])
    modifies a
    ensures Done(a[..], p, w, 25)
  {
    for k := 0 to 25
      invariant Done(a[..], p, w, k) && Untouched(a[..], p, v, k)
    {
      a[p[k]] := Xor(a[p[k]], t[k % 5]);
    }
  }

  method RhoInPlace(a: array<Lane>, p: seq<nat>)
    requires a.Length == 25 && IsNaming(p)
    modifies a
    ensures View(a[..], p) == Rho(View(old(a[..]), p))
  {
    ghost var v := View(a[..], p);
    for k := 0 to 25
      invariant Done(a[..], p, Rho(v), k) && Untouched(a[..], p, v, k)
    {
      a[p[k]] := Rotl(a[p[k]], RhoOffset(k));
    }
    DoneIsView(a[..], p, Rho(v));
  }

  lemma RowOfConcat(r0: seq<Lane>, r1: seq<Lane>, r2: seq<Lane>, r3: seq<Lane>, r4: seq<Lane>, y: nat)
    requires |r0| == 5 && |r1| == 5 && |r2| == 5 && |r3| == 5 && |r4| == 5 && y < 5
    ensures var r := if y == 0 then r0 else if y == 1 then r1 else if y == 2 then r2 else if y == 3 then r3 else r4;
      forall x :: 0 <= x < 5 ==> (r0 + r1 + r2 + r3 + r4)[5 * y + x] == r[x]
  {
  }

  lemma KhiRowOf(s: Lanes, y: nat)
    requires y < 5
    ensures var r := KhiRow(y, s[5 * y], s[5 * y + 1], s[5 * y + 2], s[5 * y + 3], s[5 * y + 4]);
      forall x :: 0 <= x < 5 ==> Khi(s)[5 * y + x] == r[x]
  {
    var r0, r1 := KhiRow(0, s[0], s[1], s[2], s[3], s[4]), KhiRow(1, s[5], s[6], s[7], s[8], s[9]);
    var r2, r3 := KhiRow(2, s[10], s[11], s[12], s[13], s[14]), KhiRow(3, s[15], s[16], s[17], s[18], s[19]);
    var r4 := KhiRow(4, s[20], s[21], s[22], s[23], s[24]);
    RowOfConcat(r0, r1, r2, r3, r4, y);
  }

  method KhiRowInPlace(a: array<Lane>, p: seq<nat>, y: nat, ghost v: Lanes)
    requires a.Length == 25 && IsNaming(p) && y < 5
    requires Done(a[..], p, Khi(v), 5 * y) && Untouched(a[..], p, v, 5 * y)
    modifies a
    ensures Done(a[..], p, Khi(v), 5 * y + 5) && Untouched(a[..], p, v, 5 * y + 5)
  {
    var b0, b1, b2, b3, b4 := a[p[5 * y]], a[p[5 * y + 1]], a[p[5 * y + 2]], a[p[5 * y + 3]], a[p[5 * y + 4]];
    var c := KhiRow(y, b0, b1, b2, b3, b4);
    KhiRowOf(v, y);
    StoreRow(a, p, y, c, v, Khi(v));
  }

  method StoreRow(a: array<Lane>, p: seq<nat>, y: nat, c: seq<Lane>, ghost v: Lanes, ghost w: Lanes)
    requires a.Length == 25 && IsNaming(p) && y < 5
    requires Done(a[..], p, w, 5 * y) && Untouched(a[..], p, v, 5 * y)
    requires |c| == 5 && forall x :: 0 <= x < 5 ==> w[5 * y + x] == c[x]
    modifies a
    ensures Done(a[..], p, w, 5 * y + 5) && Untouched(a[..], p, v, 5 * y + 5)
  {
    for x := 0 to 5
      invariant Done(a[..], p, w, 5 * y + x) && Untouched(a[..], p, v, 5 * y + x)
    {
      a[p[5 * y + x]] := c[x];
    }
  }

  method KhiInPlace(a: array<Lane>, p: seq<nat>)
    requires a.Length == 25 && IsNaming(p)
    modifies a
    ensures View(a[..], p) == Khi(View(old(a[..]), p))
  {
    ghost var v := View(a[..], p);
    for y := 0 to 5
      invariant Done(a[..], p, Khi(v), 5 * y) && Untouched(a[..], p, v, 5 * y)
    {
      KhiRowInPlace(a, p, y, v);
    }
    DoneIsView(a[..], p, Khi(v));
  }

  /** Renaming the registers is pi. */
  lemma RenamingIsPi(a: seq<Lane>, p: seq<nat>, q: seq<nat>)
    requires |a| == 25 && IsNaming(p) && IsNaming(q) && FollowsPi(p, q)
    ensures View(a, q) == Pi(View(a, p))
  {
  }

  /** One round: the macro KF_ELT with register names `p` for theta and rho, `q` for chi. */
  method RoundInPlace(a: array<Lane>, p: seq<nat>, q: seq<nat>, rc: Lane)
    requires a.Length == 25 && IsNaming(p) && IsNaming(q) && FollowsPi(p, q) && q[0] == 0
    modifies a
    ensures View(a[..], q) == CodeRound(View(old(a[..]), p), rc)
  {
    ThetaInPlace(a, p);
    RhoInPlace(a, p);
    RenamingIsPi(a[..], p, q);
    KhiInPlace(a, q);
    IotaInPlace(a, q, rc);
  }

  method IotaInPlace(a: array<Lane>, q: seq<nat>, rc: Lane)
    requires a.Length == 25 && IsNaming(q) && q[0] == 0
    modifies a
    ensures View(a[..], q) == Iota(View(old(a[..]), q), rc)
  {
    ghost var w := View(a[..], q);
    a[0] := Xor(a[0], rc);
    IotaIsView(a[..], q, w, rc);
  }

  lemma IotaIsView(a: seq<Lane>, p: seq<nat>, w: Lanes, rc: Lane)
    requires |a| == 25 && IsNaming(p) && p[0] == 0
    requires a[0] == Xor(w[0], rc) && forall k :: 1 <= k < 25 ==> a[p[k]] == w[k]
    ensures View(a, p) == Iota(w, rc)
  {
  }

  // ----- back to the first names -----

  /** Four MOV64 that rotate three registers. */
  method Rotate(a: array<Lane>, i: nat, j: nat, k: nat)
    requires a.Length == 25 && i < 25 && j < 25 && k < 25 && i != j && j != k && i != k
    modifies a
    ensures a[..] == old(a[..])[i := old(a[j])][j := old(a[k])][k := old(a[i])]
  {
    var t := a[i];
    ghost var s := a[..];
    a[i] := a[j];
    assert a[..] == s[i := s[j]];
    a[j] := a[k];
    a[k] := t;
  }

  /** Each register holds what the register of its lane under the names P8 held. */
  ghost predicate MovedBack(a: seq<Lane>, b: seq<Lane>) {
    && |a| == 25 && |b| == 25
    && b[0] == a[0] && b[1] == a[13] && b[2] == a[21] && b[3] == a[9] && b[4] == a[17]
    && b[5] == a[6] && b[6] == a[19] && b[7] == a[2] && b[8] == a[10] && b[9] == a[23]
    && b[10] == a[12] && b[11] == a[20] && b[12] == a[8] && b[13] == a[16] && b[14] == a[4]
    && b[15] == a[18] && b[16] == a[1] && b[17] == a[14] && b[18] == a[22] && b[19] == a[5]
    && b[20] == a[24] && b[21] == a[7] && b[22] == a[15] && b[23] == a[3] && b[24] == a[11]
  }

  lemma MovedBackIsView(a: seq<Lane>, b: seq<Lane>)
    requires MovedBack(a, b) && IsNaming(P8) && IsNaming(P0)
    ensures View(b, P0) == View(a, P8) && View(b, P0) == b
  {
    forall k | 0 <= k < 25
      ensures P0[k] == k && b[k] == a[P8[k]]
    {
    }
  }

  /** The first four rotations of P8_TO_P0. */
  ghost predicate FirstHalf(a: seq<Lane>, b: seq<Lane>) {
    && |a| == 25 && |b| == 25
    && b[5] == a[6] && b[6] == a[19] && b[19] == a[5]
    && b[10] == a[12] && b[12] == a[8] && b[8] == a[10]
    && b[15] == a[18] && b[18] == a[22] && b[22] == a[15]
    && b[20] == a[24] && b[24] == a[11] && b[11] == a[20]
    && b[0] == a[0] && b[1] == a[1] && b[2] == a[2] && b[3] == a[3] && b[4] == a[4] && b[7] == a[7] && b[9] == a[9]
    && b[13] == a[13] && b[14] == a[14] && b[16] == a[16] && b[17] == a[17] && b[21] == a[21] && b[23] == a[23]
  }

  /** The last four rotations of P8_TO_P0. */
  ghost predicate SecondHalf(a: seq<Lane>, b: seq<Lane>) {
    && |a| == 25 && |b| == 25
    && b[1] == a[13] && b[13] == a[16] && b[16] == a[1]
    && b[21] == a[7] && b[7] == a[2] && b[2] == a[21]
    && b[17] == a[14] && b[14] == a[4] && b[4] == a[17]
    && b[3] == a[9] && b[9] == a[23] && b[23] == a[3]
    && b[0] == a[0] && b[5] == a[5] && b[6] == a[6] && b[8] == a[8] && b[10] == a[10] && b[11] == a[11]
    && b[12] == a[12] && b[15] == a[15] && b[18] == a[18] && b[19] == a[19] && b[20] == a[20]
    && b[22] == a[22] && b[24] == a[24]
  }

  method MoveFirstHalf(a: array<Lane>)
    requires a.Length == 25
    modifies a
    ensures FirstHalf(old(a[..]), a[..])
  {
    Rotate(a, 5, 6, 19);
    Rotate(a, 10, 12, 8);
    Rotate(a, 15, 18, 22);
    Rotate(a, 20, 24, 11);
  }

  method MoveSecondHalf(a: array<Lane>)
    requires a.Length == 25
    modifies a
    ensures SecondHalf(old(a[..]), a[..])
  {
    Rotate(a, 1, 13, 16);
    Rotate(a, 21, 7, 2);
    Rotate(a, 17, 14, 4);
    Rotate(a, 3, 9, 23);
  }

  lemma HalvesMoveBack(a: seq<Lane>, b: seq<Lane>, c: seq<Lane>)
    requires FirstHalf(a, b) && SecondHalf(b, c)
    ensures MovedBack(a, c)
  {
  }

  /** The macro P8_TO_P0. */
  method P8ToP0(a: array<Lane>)
    requires a.Length == 25
    modifies a
    ensures MovedBack(old(a[..]), a[..])
  {
    MoveFirstHalf(a);
    ghost var b := a[..];
    MoveSecondHalf(a);
    HalvesMoveBack(old(a[..]), b, a[..]);
  }

  // ----- the permutation -----

  /** The first `n` rounds of the code. */
  function CodeRounds(s: Lanes, rc: Constants, n: nat): Lanes
    requires n <= 24
  {
    Iterate(CodeRound, s, rc, n)
  }

  ghost predicate IsLane(k: int) { 0 <= k < 25 }

  ghost predicate IsRound(n: nat) { n < 24 }

  /** The names `q` of a round follow the names `p` of the one before; to be opened at a round. */
  ghost predicate Succeeds(p: seq<nat>, q: seq<nat>) {
    forall n {:trigger IsRound(n)} :: IsRound(n) ==> IsNaming(p) && IsNaming(q) && FollowsPi(p, q) && q[0] == 0
  }

  ghost predicate GoodNames(names: seq<seq<nat>>) {
    |names| == 9 && forall r :: 0 <= r < 8 ==> Succeeds(names[r], names[r + 1])
  }

  function AllNames(): seq<seq<nat>> { [P0, P1, P2, P3, P4, P5, P6, P7, P8] }

  lemma AllNamesGood()
    ensures GoodNames(AllNames())
  {
    forall r | 0 <= r < 9
      ensures AllNames()[r] == Names(r)
    {
    }
    forall r | 0 <= r < 8
      ensures Succeeds(AllNames()[r], AllNames()[r + 1])
    {
      NamesOk(r);
      NamesOk(r + 1);
      NamesFollowPi(r);
    }
  }

  /** `f` is the code's round; to be opened at a round. */
  ghost predicate IsCodeRound(f: (Lanes, Lane) -> Lanes) {
    forall n, s, c {:trigger IsRound(n), f(s, c)} :: IsRound(n) ==> f(s, c) == CodeRound(s, c)
  }

  /** The registers `a`, under the names `p`, hold the state `s`. */
  ghost predicate Named(a: seq<Lane>, p: seq<nat>, s: Lanes) {
    forall k {:trigger IsLane(k)} :: IsLane(k) ==> |a| == 25 && |p| == 25 && p[k] < 25 && a[p[k]] == s[k]
  }

  lemma NamedIs(a: seq<Lane>, p: seq<nat>, s: Lanes)
    requires |a| == 25 && IsNaming(p)
    ensures Named(a, p, s) <==> View(a, p) == s
  {
    assert forall k :: 0 <= k < 25 ==> IsLane(k) && View(a, p)[k] == a[p[k]];
  }

  /** Eight rounds, each with its own names for the registers. */
  method EightRounds(a: array<Lane>, names: seq<seq<nat>>, rc: Constants, j: nat, ghost s: Lanes, ghost f: (Lanes, Lane) -> Lanes)
    requires a.Length == 25 && j + 8 <= 24 && GoodNames(names) && IsCodeRound(f)
    requires Named(a[..], names[0], Iterate(f, s, rc, j))
    modifies a
    ensures Named(a[..], names[8], Iterate(f, s, rc, j + 8))
  {
    for r := 0 to 8
      invariant Named(a[..], names[r], Iterate(f, s, rc, j + r))
    {
      OneRound(a, names[r], names[r + 1], rc, j + r, s, f);
    }
  }

  method OneRound(a: array<Lane>, p: seq<nat>, q: seq<nat>, rc: Constants, n: nat, ghost s: Lanes, ghost f: (Lanes, Lane) -> Lanes)
    requires a.Length == 25 && Succeeds(p, q) && IsCodeRound(f)
    requires n < 24 && Named(a[..], p, Iterate(f, s, rc, n))
    modifies a
    ensures Named(a[..], q, Iterate(f, s, rc, n + 1))
  {
    assert IsRound(n);
    NamedIs(a[..], p, Iterate(f, s, rc, n));
    RoundInPlace(a, p, q, rc[n]);
    NamedIs(a[..], q, Iterate(f, s, rc, n + 1));
  }

  /** The names P0 and P8 at the two ends. */
  ghost predicate EndNames(names: seq<seq<nat>>) { |names| == 9 && names[0] == P0 && names[8] == P8 }

  /** The macro arguments of the eight rounds. */
  method RegisterNames() returns (names: seq<seq<nat>>)
    ensures GoodNames(names) && EndNames(names)
  {
    names := AllNames();
    AllNamesGood();
  }

  lemma FirstNames(names: seq<seq<nat>>, a: seq<Lane>)
    requires EndNames(names) && |a| == 25
    ensures Named(a, names[0], a)
  {
    forall k | 0 <= k < 25
      ensures P0[k] == k
    {
    }
  }

  lemma BackInPlace(names: seq<seq<nat>>, a: seq<Lane>, b: seq<Lane>, s: Lanes)
    requires EndNames(names) && MovedBack(a, b) && Named(a, names[8], s)
    ensures b == s
  {
    assert Names(8) == P8 && Names(0) == P0;
    NamesOk(8);
    NamesOk(0);
    NamedIs(a, P8, s);
    MovedBackIsView(a, b);
  }

  /** KECCAK_F_1600 of the code. */
  method KeccakFInPlace(a: array<Lane>, rc: Constants)
    requires a.Length == 25
    modifies a
    ensures a[..] == CodeRounds(old(a[..]), rc, |rc|)
  {
    CodeRoundIs();
    ThreeTimesEight(a, rc, CodeRound);
  }

  lemma CodeRoundIs()
    ensures IsCodeRound(CodeRound)
  {
  }

  method ThreeTimesEight(a: array<Lane>, rc: Constants, ghost f: (Lanes, Lane) -> Lanes)
    requires a.Length == 25 && IsCodeRound(f)
    modifies a
    ensures var s: Lanes := old(a[..]); a[..] == Iterate(f, s, rc, |rc|)
  {
    ghost var s: Lanes := a[..];
    for j := 0 to 3
      invariant a[..] == Iterate(f, s, rc, 8 * j)
    {
      RoundsAndBack(a, rc, 8 * j, s, f);
    }
  }

  /** Eight rounds, and back to the first names. */
  method RoundsAndBack(a: array<Lane>, rc: Constants, j: nat, ghost s: Lanes, ghost f: (Lanes, Lane) -> Lanes)
    requires a.Length == 25 && j + 8 <= 24 && IsCodeRound(f)
    requires a[..] == Iterate(f, s, rc, j)
    modifies a
    ensures a[..] == Iterate(f, s, rc, j + 8)
  {
    var names := RegisterNames();
    FirstNames(names, a[..]);
    EightRounds(a, names, rc, j, s, f);
    ghost var b := a[..];
    P8ToP0(a);
    BackInPlace(names, b, a[..], Iterate(f, s, rc, j + 8));
  }

  /** The code's permutation of complemented lanes is the standard's permutation, complemented. */
  lemma CodeRoundsFlipped(s: Lanes, rc: Constants, n: nat)
    requires n <= 24
    ensures CodeRounds(FlipAll(s, AtRound), rc, n) == FlipAll(Rounds(s, rc, n), AtRound)
  {
    var h := (t: Lanes) => FlipAll(t, AtRound);
    forall t: Lanes, c: Lane
      ensures CodeRound(h(t), c) == h(Round(t, c))
    {
      RoundFlipped(t, c);
    }
    IterateCorresponds(Round, CodeRound, h, s, rc, n);
  }
}
