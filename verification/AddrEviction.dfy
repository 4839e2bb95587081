/**
 Which entry a full bucket gives up.

 A full tried bucket is sampled by swaps to its front (`SelectTried`), and loses the entry that stands
 where the oldest of the sample was taken from. A full new bucket loses its first terrible entry, or else
 the oldest of four random picks (`ShrinkNew`).
 */
module AddrEviction {
  import opened Collections
  import opened AddrTables

  // ----- sampling a tried bucket -----

  function SampleCount(n: nat): nat { if n < TRIED_ENTRIES_INSPECT_ON_EVICT then n else TRIED_ENTRIES_INSPECT_ON_EVICT }

  function Swap(q: seq<int>, i: nat, p: nat): (r: seq<int>)
    requires i < |q| && p < |q|
    ensures |r| == |q|
  {
    q[p := q[i]][i := q[p]]
  }

  /** Random places for the first rounds: each at or behind its round. */
  ghost predicate AreSpots(spots: seq<nat>, n: nat) {
    |spots| <= n && forall i :: 0 <= i < |spots| ==> i <= spots[i] < n
  }

  /** The bucket after swapping the place of every round with its spot. */
  ghost function Swaps(q: seq<int>, spots: seq<nat>): (r: seq<int>)
    requires AreSpots(spots, |q|)
    ensures |r| == |q|
  {
    if spots == [] then q else Swap(Swaps(q, spots[..|spots| - 1]), |spots| - 1, spots[|spots| - 1])
  }

  lemma {:induction false} SwapsKeep(q: seq<int>, spots: seq<nat>)
    requires AreSpots(spots, |q|)
    ensures multiset(Swaps(q, spots)) == multiset(q)
    ensures forall x :: x in Swaps(q, spots) ==> x in q
  {
    if spots != [] {
      var n := |spots| - 1;
      SwapsKeep(q, spots[..n]);
      ExchangeKeepsElements(Swaps(q, spots[..n]), n, spots[n]);
    }
    forall x | x in Swaps(q, spots)
      ensures x in q
    {
      assert x in multiset(Swaps(q, spots));
    }
  }

  lemma SwapsWithin(q: seq<int>, spots: seq<nat>)
    requires AreSpots(spots, |q|)
    ensures forall i :: 0 <= i < |q| ==> Swaps(q, spots)[i] in q
  {
    SwapsKeep(q, spots);
    var r := Swaps(q, spots);
    assert forall i :: 0 <= i < |r| ==> r[i] in r;
  }

  /** Sample `j` of the first `n` places was successful longest ago, and is the first such. */
  ghost predicate IsOldestSample(mapInfo: map<int, Info>, q: seq<int>, n: nat, j: nat) {
    && j < n <= |q| && (forall i :: 0 <= i < n ==> q[i] in mapInfo)
    && (forall i :: 0 <= i < n ==> mapInfo[q[j]].lastSuccess <= mapInfo[q[i]].lastSuccess)
    && (forall i :: 0 <= i < j ==> mapInfo[q[j]].lastSuccess < mapInfo[q[i]].lastSuccess)
  }

  /** `pos` is the place from which the oldest sample was taken. */
  ghost predicate IsOldestSpot(mapInfo: map<int, Info>, q: seq<int>, spots: seq<nat>, pos: int) {
    exists j :: 0 <= j < |spots| && IsOldestSample(mapInfo, q, |spots|, j) && pos == spots[j]
  }

  ghost predicate SampleState(mapInfo: map<int, Info>, q: seq<int>, spots: seq<nat>, oldest: int, pos: int) {
    && (spots == [] ==> oldest == NO_ENTRY && pos == -1)
    && (spots != [] ==> oldest != NO_ENTRY && IsOldestId(mapInfo, q, spots, oldest, pos))
  }

  ghost predicate IsOldestId(mapInfo: map<int, Info>, q: seq<int>, spots: seq<nat>, oldest: int, pos: int) {
    exists j :: 0 <= j < |spots| && IsOldestSample(mapInfo, q, |spots|, j) && pos == spots[j] && oldest == q[j]
  }

  lemma SampleTakes(mapInfo: map<int, Info>, q: seq<int>, spots: seq<nat>, oldest: int, pos: int, p: nat)
    requires SampleState(mapInfo, q, spots, oldest, pos) && |spots| <= p < |q| && q[p] in mapInfo && q[p] != NO_ENTRY
    requires oldest == NO_ENTRY || (oldest in mapInfo && mapInfo[q[p]].lastSuccess < mapInfo[oldest].lastSuccess)
    ensures SampleState(mapInfo, Swap(q, |spots|, p), spots + [p], q[p], p)
  {
    var n, r := |spots|, Swap(q, |spots|, p);
    assert forall i :: 0 <= i < n ==> r[i] == q[i];
    assert IsOldestSample(mapInfo, r, n + 1, n) && (spots + [p])[n] == p;
  }

  lemma SampleKeeps(mapInfo: map<int, Info>, q: seq<int>, spots: seq<nat>, oldest: int, pos: int, p: nat)
    requires SampleState(mapInfo, q, spots, oldest, pos) && |spots| <= p < |q| && q[p] in mapInfo
    requires oldest != NO_ENTRY && oldest in mapInfo && mapInfo[oldest].lastSuccess <= mapInfo[q[p]].lastSuccess
    ensures SampleState(mapInfo, Swap(q, |spots|, p), spots + [p], oldest, pos)
  {
    var n, r := |spots|, Swap(q, |spots|, p);
    var j :| 0 <= j < n && IsOldestSample(mapInfo, q, n, j) && pos == spots[j] && oldest == q[j];
    assert forall i :: 0 <= i < n ==> r[i] == q[i];
    assert IsOldestSample(mapInfo, r, n + 1, j) && (spots + [p])[j] == pos && r[j] == oldest;
  }

  lemma ReplaceCounts(q: seq<int>, pos: nat, x: int)
    requires pos < |q|
    ensures multiset(q[pos := x]) == multiset(q) - multiset{q[pos]} + multiset{x}
  {
  }

  // ----- what a full tried bucket gives up -----

  /** The spots of a full sampling of `before`, which ends with `pos`. */
  ghost predicate IsSampling(mapInfo: map<int, Info>, before: seq<int>, spots: seq<nat>, pos: int) {
    && AreSpots(spots, |before|) && |spots| == SampleCount(|before|)
    && IsOldestSpot(mapInfo, Swaps(before, spots), spots, pos)
  }

  /** A sampling of `before` chose `victim`, whose place `id` takes. */
  ghost predicate Replaced(mapInfo: map<int, Info>, before: seq<int>, id: int, victim: int, after: seq<int>) {
    exists spots, pos :: ReplacedAt(mapInfo, before, spots, pos, id, victim, after)
  }

  ghost predicate ReplacedAt(mapInfo: map<int, Info>, before: seq<int>, spots: seq<nat>, pos: int,
                             id: int, victim: int, after: seq<int>) {
    && IsSampling(mapInfo, before, spots, pos)
    && victim == Swaps(before, spots)[pos] && after == Swaps(before, spots)[pos := id]
  }

  /** Whatever the sampling, exactly the victim leaves and `id` comes. */
  lemma ReplacedCounts(mapInfo: map<int, Info>, before: seq<int>, id: int, victim: int, after: seq<int>)
    requires Replaced(mapInfo, before, id, victim, after)
    ensures victim in before && multiset(after) == multiset(before) - multiset{victim} + multiset{id}
  {
    var spots, pos :| ReplacedAt(mapInfo, before, spots, pos, id, victim, after);
    SwapsKeep(before, spots);
    ReplaceCounts(Swaps(before, spots), pos, id);
  }

  lemma SampleAlike(m: map<int, Info>, n: map<int, Info>, q: seq<int>, count: nat, j: nat)
    requires IsOldestSample(m, q, count, j)
    requires forall i :: 0 <= i < |q| ==> q[i] in m && q[i] in n && m[q[i]].lastSuccess == n[q[i]].lastSuccess
    ensures IsOldestSample(n, q, count, j)
  {
  }

  /** The sampling depends on the success times of the bucket only. */
  lemma ReplacedAlike(m: map<int, Info>, n: map<int, Info>, before: seq<int>, id: int, victim: int, after: seq<int>)
    requires Replaced(m, before, id, victim, after)
    requires forall x :: x in before ==> x in m && x in n && m[x].lastSuccess == n[x].lastSuccess
    ensures Replaced(n, before, id, victim, after)
  {
    var spots: seq<nat>, pos :| ReplacedAt(m, before, spots, pos, id, victim, after);
    var q := Swaps(before, spots);
    var j :| 0 <= j < |spots| && IsOldestSample(m, q, |spots|, j) && pos == spots[j];
    SwapsWithin(before, spots);
    forall i | 0 <= i < |q|
      ensures q[i] in m && q[i] in n && m[q[i]].lastSuccess == n[q[i]].lastSuccess
    {
      var x := q[i];
      assert x in before;
    }
    SampleAlike(m, n, q, |spots|, j);
    assert ReplacedAt(n, before, spots, pos, id, victim, after);
  }

  /** The victim is the oldest of the sample exactly if the pick of that round was its own place. */
  lemma VictimIsOldest(mapInfo: map<int, Info>, before: seq<int>, spots: seq<nat>, pos: int, j: nat,
                       id: int, victim: int, after: seq<int>)
    requires Distinct(before) && ReplacedAt(mapInfo, before, spots, pos, id, victim, after)
    requires IsOldestSample(mapInfo, Swaps(before, spots), |spots|, j)
    ensures victim == Swaps(before, spots)[j] <==> spots[j] == j
  {
    var q := Swaps(before, spots);
    SwapsKeep(before, spots);
    DistinctOnce(before);
    assert forall x :: x in q ==> multiset(q)[x] == 1;
    DistinctOnce(q);
    OldestOnce(mapInfo, q, spots, pos, j);
  }

  lemma OldestOnce(mapInfo: map<int, Info>, q: seq<int>, spots: seq<nat>, pos: int, j: nat)
    requires IsOldestSpot(mapInfo, q, spots, pos) && IsOldestSample(mapInfo, q, |spots|, j)
    ensures pos == spots[j]
  {
    var i :| 0 <= i < |spots| && IsOldestSample(mapInfo, q, |spots|, i) && pos == spots[i];
    assert mapInfo[q[i]].lastSuccess == mapInfo[q[j]].lastSuccess;
  }

  /** The victim succeeded after entry `j` of the sample, which is its oldest. */
  ghost predicate SparesOldest(mapInfo: map<int, Info>, before: seq<int>, spots: seq<nat>, j: nat,
                               id: int, victim: int, after: seq<int>) {
    && j < |spots| && ReplacedAt(mapInfo, before, spots, spots[j], id, victim, after)
    && IsOldestSample(mapInfo, Swaps(before, spots), |spots|, j)
    && victim in mapInfo && mapInfo[Swaps(before, spots)[j]].lastSuccess < mapInfo[victim].lastSuccess
  }

  /** The entry at place `b` succeeded after the one at place `a`. */
  ghost predicate Later(mapInfo: map<int, Info>, q: seq<int>, a: int, b: int) {
    && 0 <= a < |q| && 0 <= b < |q| && q[a] in mapInfo && q[b] in mapInfo
    && mapInfo[q[a]].lastSuccess < mapInfo[q[b]].lastSuccess
  }

  ghost predicate IsEarliest(mapInfo: map<int, Info>, q: seq<int>, m: nat) {
    m < |q| && q[m] in mapInfo && forall i :: 0 <= i < |q| ==> !Later(mapInfo, q, i, m)
  }

  /** The spots of `n` rounds of which only the first two swap. */
  ghost function Spots(a: nat, b: nat, n: nat): (spots: seq<nat>)
    ensures |spots| == n && forall i :: 0 <= i < n ==> spots[i] == if i == 0 then a else if i == 1 then b else i
  {
    seq(n, i requires 0 <= i < n => if i == 0 then a else if i == 1 then b else i)
  }

  lemma {:induction false} SwapsOfTwo(q: seq<int>, a: nat, b: nat, n: nat)
    requires a < |q| && 1 <= b < |q| && 2 <= n <= |q|
    ensures AreSpots(Spots(a, b, n), |q|) && Swaps(q, Spots(a, b, n)) == Swap(Swap(q, 0, a), 1, b)
    decreases n
  {
    assert Spots(a, b, n) == Spots(a, b, n - 1) + [Spots(a, b, n)[n - 1]];
    if n == 2 {
      assert Spots(a, b, 1) == [] + [a];
      SwapsMore(q, [], a);
      SwapsMore(q, Spots(a, b, 1), b);
    } else {
      SwapsOfTwo(q, a, b, n - 1);
      SwapsMore(q, Spots(a, b, n - 1), n - 1);
      SwapNothing(Swap(Swap(q, 0, a), 1, b), n - 1);
    }
  }

  lemma SwapNothing(q: seq<int>, i: nat)
    requires i < |q|
    ensures Swap(q, i, i) == q
  {
  }

  lemma SwapsMore(q: seq<int>, spots: seq<nat>, p: nat)
    requires AreSpots(spots, |q|) && |spots| <= p < |q|
    ensures AreSpots(spots + [p], |q|) && Swaps(q, spots + [p]) == Swap(Swaps(q, spots), |spots|, p)
  {
    assert (spots + [p])[..|spots|] == spots;
  }

  lemma {:induction false} EarliestExists(mapInfo: map<int, Info>, q: seq<int>) returns (m: nat)
    requires q != [] && forall i :: 0 <= i < |q| ==> q[i] in mapInfo
    ensures IsEarliest(mapInfo, q, m)
  {
    if |q| == 1 {
      m := 0;
    } else {
      var n := |q| - 1;
      m := EarliestExists(mapInfo, q[..n]);
      assert forall i :: 0 <= i < n ==> !Later(mapInfo, q[..n], i, m) && q[..n][i] == q[i];
      if Later(mapInfo, q, n, m) {
        m := n;
      }
    }
  }

  /** Entry `j` of the sample is as old as `m`, and a newer one stands where it was taken from. */
  ghost predicate SparesEarliest(mapInfo: map<int, Info>, q: seq<int>, m: nat, spots: seq<nat>, j: nat) {
    && m < |q| && AreSpots(spots, |q|) && j < |spots| == SampleCount(|q|)
    && var r := Swaps(q, spots);
       && r[j] in mapInfo && q[m] in mapInfo && mapInfo[r[j]].lastSuccess == mapInfo[q[m]].lastSuccess
       && Later(mapInfo, r, j, spots[j]) && forall i :: 0 <= i < j ==> Later(mapInfo, r, j, i)
  }

  /** Spots after which a newer entry goes, whenever two success times of the bucket differ. */
  lemma SparingSpots(mapInfo: map<int, Info>, q: seq<int>, m: nat, b: nat) returns (spots: seq<nat>, j: nat)
    requires |q| >= 4 && IsEarliest(mapInfo, q, m) && Later(mapInfo, q, m, b)
    requires forall i :: 0 <= i < |q| ==> q[i] in mapInfo
    ensures SparesEarliest(mapInfo, q, m, spots, j)
  {
    var n := SampleCount(|q|);
    forall i | 0 <= i < |q| && !Later(mapInfo, q, m, i)
      ensures mapInfo[q[i]].lastSuccess == mapInfo[q[m]].lastSuccess
    {
      assert !Later(mapInfo, q, i, m);
    }
    if Later(mapInfo, q, m, 0) {
      // the oldest entry is brought to the front, and the first one to its place
      SwapsOfTwo(q, m, 1, n);
      spots, j := Spots(m, 1, n), 0;
    } else if Later(mapInfo, q, m, 1) {
      // the first entry goes to place 1, the second one to place 2
      SwapsOfTwo(q, 2, 2, n);
      spots, j := Spots(2, 2, n), if Later(mapInfo, q, m, 2) then 1 else 0;
    } else {
      // the first two change places, and the newer entry comes to place 1
      SwapsOfTwo(q, 1, b, n);
      spots, j := Spots(1, b, n), 0;
    }
  }

  lemma EarliestSpared(mapInfo: map<int, Info>, q: seq<int>, m: nat, spots: seq<nat>, j: nat, id: int)
    requires IsEarliest(mapInfo, q, m) && SparesEarliest(mapInfo, q, m, spots, j)
    requires forall i :: 0 <= i < |q| ==> q[i] in mapInfo
    ensures SparesOldest(mapInfo, q, spots, j, id, Swaps(q, spots)[spots[j]], Swaps(q, spots)[spots[j] := id])
  {
    var r := Swaps(q, spots);
    SwapsWithin(q, spots);
    forall i | 0 <= i < |r|
      ensures r[i] in mapInfo && mapInfo[q[m]].lastSuccess <= mapInfo[r[i]].lastSuccess
    {
      var k :| 0 <= k < |q| && q[k] == r[i];
      assert !Later(mapInfo, q, k, m);
    }
    forall i | 0 <= i < j
      ensures mapInfo[r[j]].lastSuccess < mapInfo[r[i]].lastSuccess
    {
      assert Later(mapInfo, r, j, i);
    }
    assert IsOldestSample(mapInfo, r, |spots|, j);
  }

  /** A full bucket can spare the oldest of its sample exactly if not all its success times are equal. */
  lemma OldestMayStay(mapInfo: map<int, Info>, q: seq<int>, id: int)
    requires |q| >= TRIED_ENTRIES_INSPECT_ON_EVICT && forall i :: 0 <= i < |q| ==> q[i] in mapInfo
    ensures (exists spots: seq<nat>, j: nat, victim, after :: SparesOldest(mapInfo, q, spots, j, id, victim, after))
       <==> (exists a, b :: Later(mapInfo, q, a, b))
  {
    if exists a, b :: Later(mapInfo, q, a, b) {
      var a, b :| Later(mapInfo, q, a, b);
      var m := EarliestExists(mapInfo, q);
      assert !Later(mapInfo, q, a, m);
      var spots, j := SparingSpots(mapInfo, q, m, b as nat);
      EarliestSpared(mapInfo, q, m, spots, j, id);
    }
    if exists spots: seq<nat>, j: nat, victim, after :: SparesOldest(mapInfo, q, spots, j, id, victim, after) {
      var spots: seq<nat>, j: nat, victim, after :| SparesOldest(mapInfo, q, spots, j, id, victim, after);
      var r := Swaps(q, spots);
      SwapsWithin(q, spots);
      var a :| 0 <= a < |q| && q[a] == r[j];
      var b :| 0 <= b < |q| && q[b] == r[spots[j]];
      assert Later(mapInfo, q, a, b);
    }
  }

  // ----- what a full new bucket gives up -----

  /** The four candidates a full bucket may lose are compared by age. */
  ghost predicate IsOldestPick(mapInfo: map<int, Info>, bucket: set<int>, picks: seq<nat>, v: int)
    requires bucket <= mapInfo.Keys
  {
    var ids := Ascending(bucket);
    && (forall i :: 0 <= i < |picks| ==> picks[i] < |ids|)
    && (exists i :: 0 <= i < |picks| && ids[picks[i]] == v) && v in mapInfo
    && forall i :: 0 <= i < |picks| ==> ids[picks[i]] in mapInfo && NotOlder(mapInfo, v, ids[picks[i]])
  }

  ghost predicate NonePicked(picks: seq<nat>, n: nat) { forall i :: 0 <= i < |picks| ==> picks[i] >= n }

  /** `v` is the oldest pick among the first `n` ids. */
  ghost predicate OldestSoFar(mapInfo: map<int, Info>, ids: seq<int>, picks: seq<nat>, n: nat, v: int) {
    && n <= |ids| && v in mapInfo && (exists i :: 0 <= i < |picks| && picks[i] < n && ids[picks[i]] == v)
    && (forall i :: 0 <= i < n ==> ids[i] in mapInfo)
    && forall i :: 0 <= i < |picks| && picks[i] < n ==> NotOlder(mapInfo, v, ids[picks[i]])
  }

  /** The oldest pick after `n` ids, if any has been met. */
  ghost predicate PickState(mapInfo: map<int, Info>, ids: seq<int>, picks: seq<nat>, n: nat, v: int) {
    if v == NO_ENTRY then NonePicked(picks, n) else OldestSoFar(mapInfo, ids, picks, n, v)
  }

  ghost predicate AllKnown(mapInfo: map<int, Info>, ids: seq<int>) {
    forall i :: 0 <= i < |ids| ==> ids[i] in mapInfo && ids[i] != NO_ENTRY
  }

  lemma PickSkips(mapInfo: map<int, Info>, ids: seq<int>, picks: seq<nat>, n: nat, v: int)
    requires n < |ids| && AllKnown(mapInfo, ids) && PickState(mapInfo, ids, picks, n, v)
    requires forall i :: 0 <= i < |picks| ==> picks[i] != n
    ensures PickState(mapInfo, ids, picks, n + 1, v)
  {
    if v != NO_ENTRY {
      var i :| 0 <= i < |picks| && picks[i] < n && ids[picks[i]] == v;
      assert picks[i] < n + 1;
    }
  }

  lemma PickKeeps(mapInfo: map<int, Info>, ids: seq<int>, picks: seq<nat>, n: nat, v: int)
    requires n < |ids| && AllKnown(mapInfo, ids) && StrictlyAscending(ids) && PickState(mapInfo, ids, picks, n, v)
    requires v != NO_ENTRY && mapInfo[v].time <= mapInfo[ids[n]].time
    ensures PickState(mapInfo, ids, picks, n + 1, v)
  {
    var i :| 0 <= i < |picks| && picks[i] < n && ids[picks[i]] == v;
    assert ids[picks[i]] < ids[n];
    assert picks[i] < n + 1;
  }

  lemma PickTakes(mapInfo: map<int, Info>, ids: seq<int>, picks: seq<nat>, n: nat, v: int, k: nat)
    requires n < |ids| && AllKnown(mapInfo, ids) && PickState(mapInfo, ids, picks, n, v)
    requires v == NO_ENTRY || mapInfo[ids[n]].time < mapInfo[v].time
    requires k < |picks| && picks[k] == n
    ensures PickState(mapInfo, ids, picks, n + 1, ids[n])
  {
    assert picks[k] < n + 1 && ids[picks[k]] == ids[n];
  }

  lemma PickDone(mapInfo: map<int, Info>, bucket: set<int>, picks: seq<nat>, v: int)
    requires bucket <= mapInfo.Keys && picks != [] && forall i :: 0 <= i < |picks| ==> picks[i] < |bucket|
    requires PickState(mapInfo, Ascending(bucket), picks, |bucket|, v)
    ensures IsOldestPick(mapInfo, bucket, picks, v)
  {
    assert picks[0] < |bucket|;
  }

  lemma OldestInBucket(mapInfo: map<int, Info>, bucket: set<int>, picks: seq<nat>, v: int)
    requires bucket <= mapInfo.Keys && IsOldestPick(mapInfo, bucket, picks, v)
    ensures v in bucket
  {
  }

  /** `v` was announced before `x`, or at the same time with the smaller id. */
  ghost predicate NotOlder(mapInfo: map<int, Info>, v: int, x: int)
    requires v in mapInfo && x in mapInfo
  {
    mapInfo[v].time < mapInfo[x].time || (mapInfo[v].time == mapInfo[x].time && v <= x)
  }

  ghost predicate NoneTerrible(mapInfo: map<int, Info>, bucket: set<int>, now: int) {
    forall x :: x in bucket ==> x in mapInfo && !IsTerrible(mapInfo[x], now)
  }

  ghost predicate FirstTerrible(mapInfo: map<int, Info>, bucket: set<int>, v: int, now: int) {
    && v in bucket && v in mapInfo && IsTerrible(mapInfo[v], now)
    && forall x :: x in bucket && x < v ==> x in mapInfo && !IsTerrible(mapInfo[x], now)
  }

  ghost predicate FineUpTo(mapInfo: map<int, Info>, ids: seq<int>, n: nat, now: int) {
    n <= |ids| && forall i :: 0 <= i < n ==> ids[i] in mapInfo && !IsTerrible(mapInfo[ids[i]], now)
  }

  lemma BucketKnown(mapInfo: map<int, Info>, bucket: set<int>, ids: seq<int>)
    requires bucket <= mapInfo.Keys && Lists(ids, bucket)
    ensures forall i :: 0 <= i < |ids| ==> ids[i] in bucket && ids[i] in mapInfo
  {
    forall i | 0 <= i < |ids|
      ensures ids[i] in bucket && ids[i] in mapInfo
    {
      var x := ids[i];
      assert x in ids && x in mapInfo.Keys;
    }
  }

  lemma TerribleFound(mapInfo: map<int, Info>, bucket: set<int>, ids: seq<int>, i: nat, now: int)
    requires Lists(ids, bucket) && i < |ids| && FineUpTo(mapInfo, ids, i, now)
    requires ids[i] in mapInfo && IsTerrible(mapInfo[ids[i]], now)
    ensures FirstTerrible(mapInfo, bucket, ids[i], now)
  {
    var v := ids[i];
    assert v in ids;
    forall x | x in bucket && x < v
      ensures x in mapInfo && !IsTerrible(mapInfo[x], now)
    {
      assert x in ids;
      var j :| 0 <= j < |ids| && ids[j] == x;
      assert j < i;
    }
  }

  lemma NoneFound(mapInfo: map<int, Info>, bucket: set<int>, ids: seq<int>, now: int)
    requires Lists(ids, bucket) && FineUpTo(mapInfo, ids, |ids|, now)
    ensures NoneTerrible(mapInfo, bucket, now)
  {
    forall x | x in bucket
      ensures x in mapInfo && !IsTerrible(mapInfo[x], now)
    {
      assert x in ids;
    }
  }

  /** An entry that was tried within the last minute is not terrible, ... */
  lemma JustTriedIsFine(info: Info, now: int)
    requires info.lastTry != 0 && now - info.lastTry <= 60
    ensures !IsTerrible(info, now)
  {
  }

  /** ... so a bucket with a terrible entry never gives it up. */
  lemma JustTriedStays(mapInfo: map<int, Info>, bucket: set<int>, v: int, x: int, now: int)
    requires GivenUp(mapInfo, bucket, v, now) && x in bucket && x in mapInfo && IsTerrible(mapInfo[x], now)
    ensures v in mapInfo && (mapInfo[v].lastTry == 0 || now - mapInfo[v].lastTry > 60)
  {
    var info := mapInfo[v];
    if info.lastTry != 0 && now - info.lastTry <= 60 {
      JustTriedIsFine(info, now);
    }
  }

  /** Further attempts at the same time do not make an entry less terrible. */
  lemma MoreAttempts(info: Info, attempts: int, now: int)
    requires IsTerrible(info, now) && attempts >= info.attempts
    ensures IsTerrible(info.(attempts := attempts), now)
  {
  }

  /** The age of an entry alone is reason enough exactly outside the last 30 days and the next ten minutes. */
  lemma TerribleByAge(info: Info, now: int)
    ensures (forall a, l :: (info.lastTry != 0 && now - info.lastTry <= 60) || IsTerrible(info.(attempts := a, lastSuccess := l), now))
      <==> (info.lastTry != 0 && now - info.lastTry <= 60)
           || info.time == 0 || info.time > now + 600 || info.time < now - 30 * 86400
  {
    var fine := info.(attempts := 0, lastSuccess := now);
    assert IsTerrible(info.(attempts := 0, lastSuccess := now), now) == IsTerrible(fine, now);
  }

  /** Otherwise it takes three failures before any success, or ten since a success more than a week ago. */
  lemma TerribleByFailures(info: Info, now: int)
    requires info.lastTry == 0 || now - info.lastTry > 60
    requires 0 < info.time <= now + 600 && info.time >= now - 30 * 86400
    ensures info.lastSuccess == 0 ==> (IsTerrible(info, now) <==> info.attempts >= 3)
    ensures info.lastSuccess != 0 && now - info.lastSuccess > 7 * 86400 ==> (IsTerrible(info, now) <==> info.attempts >= 10)
    ensures info.lastSuccess != 0 && now - info.lastSuccess <= 7 * 86400 ==> !IsTerrible(info, now)
  {
  }

  /** The rule of `ShrinkNew`. */
  ghost predicate GivenUp(mapInfo: map<int, Info>, bucket: set<int>, v: int, now: int) {
    && bucket <= mapInfo.Keys
    && (FirstTerrible(mapInfo, bucket, v, now)
        || (NoneTerrible(mapInfo, bucket, now)
            && exists picks: seq<nat> :: |picks| == 4 && IsOldestPick(mapInfo, bucket, picks, v)))
  }

  /** A bucket can lose exactly its first terrible entry, or any entry if none is terrible. */
  lemma MayBeGivenUp(mapInfo: map<int, Info>, bucket: set<int>, v: int, now: int)
    requires bucket <= mapInfo.Keys
    ensures GivenUp(mapInfo, bucket, v, now)
       <==> FirstTerrible(mapInfo, bucket, v, now) || (NoneTerrible(mapInfo, bucket, now) && v in bucket)
  {
    if NoneTerrible(mapInfo, bucket, now) && v in bucket {
      var i: nat :| i < |Ascending(bucket)| && Ascending(bucket)[i] == v;
      OnlyPick(mapInfo, bucket, v, i);
      assert |Fourfold(i)| == 4;
    } else if picks: seq<nat> :| |picks| == 4 && IsOldestPick(mapInfo, bucket, picks, v) {
      OldestInBucket(mapInfo, bucket, picks, v);
    }
  }

  lemma OnlyPick(mapInfo: map<int, Info>, bucket: set<int>, v: int, i: nat)
    requires bucket <= mapInfo.Keys && v in bucket && i < |Ascending(bucket)| && Ascending(bucket)[i] == v
    ensures IsOldestPick(mapInfo, bucket, Fourfold(i), v)
  {
    var picks := Fourfold(i);
    assert Ascending(bucket)[picks[0]] == v && v in mapInfo.Keys;
  }

  ghost function Fourfold(i: nat): (picks: seq<nat>)
    ensures |picks| == 4 && forall k :: 0 <= k < 4 ==> picks[k] == i
  {
    [i, i, i, i]
  }
}
