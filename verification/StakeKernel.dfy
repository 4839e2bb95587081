/**
 The proof-of-stake kernel (`kernel.cpp`): the search for a time whose hash meets the target, and the check
 that every other node makes with the time that was found.
 */
module StakeKernel {

  const COIN := 100_000_000
  const DAY := 86_400
  const STAKE_MIN_AGE := 900
  const STAKE_MAX_AGE := 2_160_000
  const UINT32 := 0x1_0000_0000

  /** What the search and the check share: the output, its transaction and block, and the target per coin day. */
  datatype Stake = Stake(value: int, prevTime: nat, blockTime: nat, perCoinDay: int)

  /** Division of big numbers: towards zero. */
  function TruncDiv(a: int, b: int): int
    requires b > 0
  {
    if a >= 0 then a / b else -((-a) / b)
  }

  function Weight(begin: int, end: int): int {
    var age := end - begin - STAKE_MIN_AGE;
    if age < STAKE_MAX_AGE then age else STAKE_MAX_AGE
  }

  function CoinDays(value: int, weight: int): int { TruncDiv(TruncDiv(value * weight, COIN), DAY) }

  /** The target at a time. */
  function Target(st: Stake, time: nat): int { CoinDays(st.value, Weight(st.prevTime, time)) * st.perCoinDay }

  /** stakeTargetHit. */
  predicate TargetHit(proof: nat, weight: int, value: int, perCoinDay: int) { proof < CoinDays(value, weight) * perCoinDay }

  /** The two conditions on the time; the sum is in 32 bits. */
  predicate TimeOk(st: Stake, time: nat) { st.prevTime <= time && (st.blockTime + STAKE_MIN_AGE) % UINT32 <= time }

  /** What the check decides for the modifier's hash of a time. */
  predicate Checks(st: Stake, hash: nat -> nat, time: nat) { TimeOk(st, time) && hash(time) < Target(st, time) }

  /** The times the search tries, the latest first. */
  function TryTime(now: nat, drift: nat, i: nat): nat
    requires i < drift
  {
    (now + drift - i) % UINT32
  }

  /** Try `i` is the first that meets the target, which the search takes at the time it starts from. */
  ghost predicate FirstHit(st: Stake, hash: nat -> nat, now: nat, drift: nat, i: nat) {
    && i < drift && hash(TryTime(now, drift, i)) < Target(st, now)
    && forall j :: 0 <= j < i ==> hash(TryTime(now, drift, j)) >= Target(st, now)
  }

  /** CheckStakeKernelHash; `found` tells whether the kernel's modifier was found, `hash` is its hash of a time. */
  method CheckKernel(st: Stake, found: bool, hash: nat -> nat, now: nat, drift: nat, check: bool)
    returns (ok: bool, time: nat, proof: nat)
    ensures check ==> (ok <==> found && Checks(st, hash, now)) && time == now
    ensures !check ==> (ok <==> found && TimeOk(st, now) && exists i :: FirstHit(st, hash, now, drift, i))
    ensures !check && !ok ==> time == now
    ensures !check && ok ==> exists i :: FirstHit(st, hash, now, drift, i) && time == TryTime(now, drift, i)
    ensures ok ==> proof == hash(time)
  {
    ok, time, proof := false, now, 0;
    if now < st.prevTime || (st.blockTime + STAKE_MIN_AGE) % UINT32 > now || !found {
      return;
    }
    if check {
      proof := hash(now);
      ok := TargetHit(proof, Weight(st.prevTime, now), st.value, st.perCoinDay);
      return;
    }
    var i := 0;
    while i < drift
      invariant 0 <= i <= drift && forall j :: 0 <= j < i ==> hash(TryTime(now, drift, j)) >= Target(st, now)
    {
      var tryTime := TryTime(now, drift, i);
      proof := hash(tryTime);
      if TargetHit(proof, Weight(st.prevTime, now), st.value, st.perCoinDay) {
        ok, time := true, tryTime;
        assert FirstHit(st, hash, now, drift, i);
        return;
      }
      i := i + 1;
    }
  }

  // ----- coin days and times, in numbers -----

  /** Two divisions by fixed numbers round once: the coin days of a product that is not negative are the whole ones in it... */
  lemma CoinDaysRoundDown(value: int, weight: int)
    requires value * weight >= 0
    ensures CoinDays(value, weight) * (COIN * DAY) <= value * weight < (CoinDays(value, weight) + 1) * (COIN * DAY)
  {
    QuotientsRoundDown(value * weight);
  }

  /** ... and for a negative product the same with the signs turned round. */
  lemma CoinDaysMirrored(value: int, weight: int)
    requires value * weight <= 0
    ensures (CoinDays(value, weight) - 1) * (COIN * DAY) < value * weight <= CoinDays(value, weight) * (COIN * DAY)
  {
    QuotientsRoundUp(value * weight);
  }

  lemma QuotientsRoundDown(p: int)
    requires p >= 0
    ensures var d := TruncDiv(TruncDiv(p, COIN), DAY); d * (COIN * DAY) <= p < (d + 1) * (COIN * DAY)
  {
    var c := TruncDiv(p, COIN);
    assert c * COIN <= p < (c + 1) * COIN;
    var d := TruncDiv(c, DAY);
    assert d * DAY <= c < (d + 1) * DAY;
  }

  lemma QuotientsRoundUp(p: int)
    requires p <= 0
    ensures var d := TruncDiv(TruncDiv(p, COIN), DAY); (d - 1) * (COIN * DAY) < p <= d * (COIN * DAY)
  {
    var c := TruncDiv(p, COIN);
    assert (c - 1) * COIN < p <= c * COIN;
    var d := TruncDiv(c, DAY);
    assert (d - 1) * DAY < c <= d * DAY;
  }

  /** The weight counts the seconds from the minimum age of a quarter of an hour on, for at most 25 days. */
  lemma WeightCounts(begin: int, end: int)
    ensures end - begin <= 900 + 25 * DAY ==> begin + 900 + Weight(begin, end) == end
    ensures end - begin >= 900 + 25 * DAY ==> Weight(begin, end) == 25 * DAY
  {
  }

  /** What the check accepts, in whole coin days: the greatest number of them that the value has earned. */
  lemma CheckedTarget(st: Stake, hash: nat -> nat, time: nat, days: int)
    requires st.value >= 0 && TimeOk(st, time) && time >= st.prevTime + 900
    requires var seconds := if time - st.prevTime - 900 < 25 * DAY then time - st.prevTime - 900 else 25 * DAY;
      days * (COIN * DAY) <= st.value * seconds < (days + 1) * (COIN * DAY)
    ensures Checks(st, hash, time) <==> hash(time) < days * st.perCoinDay
  {
    WeightCounts(st.prevTime, time);
    var w := Weight(st.prevTime, time);
    assert st.value * w >= 0;
    CoinDaysRoundDown(st.value, w);
    SameDays(CoinDays(st.value, w), days, st.value * w, COIN * DAY);
  }

  lemma SameDays(d: int, e: int, p: int, unit: int)
    requires unit > 0 && d * unit <= p < (d + 1) * unit && e * unit <= p < (e + 1) * unit
    ensures d == e
  {
    assert d < e ==> (d + 1) * unit <= e * unit;
    assert e < d ==> (e + 1) * unit <= d * unit;
  }

  /** Without a wrap the search goes through the times up to `drift` seconds ahead, the latest first. */
  lemma LatestFirst(now: nat, drift: nat, time: nat)
    requires now + drift < UINT32
    ensures now < time <= now + drift <==> exists i :: 0 <= i < drift && TryTime(now, drift, i) == time
    ensures forall i, j :: 0 <= i < j < drift ==> TryTime(now, drift, i) > TryTime(now, drift, j)
  {
    if now < time <= now + drift {
      assert TryTime(now, drift, now + drift - time) == time;
    }
  }

  // ----- the search agrees with the check -----

  /** A tried time at which the check can only be more generous than the search. */
  predicate Generous(st: Stake, now: nat, time: nat) {
    Target(st, now) <= 0 || (TimeOk(st, time) && Target(st, time) >= Target(st, now))
  }

  /** What the search finds passes the check, with the same hash, where the tried time is generous... */
  lemma SearchThenCheck(st: Stake, hash: nat -> nat, now: nat, drift: nat, i: nat)
    requires FirstHit(st, hash, now, drift, i) && Generous(st, now, TryTime(now, drift, i))
    ensures Checks(st, hash, TryTime(now, drift, i))
  {
  }

  /** ... and where it is not, some hash function makes the search find what the check refuses. */
  lemma SearchFoolsCheck(st: Stake, now: nat, drift: nat, i: nat) returns (hash: nat -> nat)
    requires i < drift < UINT32 && !Generous(st, now, TryTime(now, drift, i))
    ensures FirstHit(st, hash, now, drift, i) && !Checks(st, hash, TryTime(now, drift, i))
  {
    var time := TryTime(now, drift, i);
    var at, other := if Target(st, time) < 0 then 0 else Target(st, time), Target(st, now);
    var low := if TimeOk(st, time) then at else 0;
    hash := (t: nat) => if t == time then low else other;
    forall j | 0 <= j < i
      ensures hash(TryTime(now, drift, j)) >= Target(st, now)
    {
      TriesDiffer(now, drift, j, i);
    }
  }

  /** Whatever the hash function, what the search finds passes the check. */
  ghost predicate Agrees(st: Stake, now: nat, drift: nat) {
    forall hash: nat -> nat, i: nat :: FirstHit(st, hash, now, drift, i) ==> Checks(st, hash, TryTime(now, drift, i))
  }

  ghost predicate AllGenerous(st: Stake, now: nat, drift: nat) {
    forall i: nat :: i < drift ==> Generous(st, now, TryTime(now, drift, i))
  }

  /** The search agrees with the check for every hash function if and only if every tried time is generous. */
  lemma AgreesExactly(st: Stake, now: nat, drift: nat)
    requires drift < UINT32
    ensures Agrees(st, now, drift) <==> AllGenerous(st, now, drift)
  {
    if AllGenerous(st, now, drift) {
      forall hash: nat -> nat, i: nat | FirstHit(st, hash, now, drift, i)
        ensures Checks(st, hash, TryTime(now, drift, i))
      {
        SearchThenCheck(st, hash, now, drift, i);
      }
    }
    if Agrees(st, now, drift) && !AllGenerous(st, now, drift) {
      var i: nat :| i < drift && !Generous(st, now, TryTime(now, drift, i));
      var hash := SearchFoolsCheck(st, now, drift, i);
      assert false;
    }
  }

  lemma TriesDiffer(now: nat, drift: nat, j: nat, i: nat)
    requires j < i < drift < UINT32
    ensures TryTime(now, drift, j) != TryTime(now, drift, i)
  {
  }

  /** Both divisions are by fixed numbers, and monotone. */
  lemma TruncDivMonotone(a: int, b: int)
    requires a <= b
    ensures TruncDiv(a, COIN) <= TruncDiv(b, COIN) && TruncDiv(a, DAY) <= TruncDiv(b, DAY)
  {
  }

  lemma CoinDaysMonotone(value: int, w: int, x: int)
    requires value >= 0 && w <= x
    ensures CoinDays(value, w) <= CoinDays(value, x)
    ensures w >= 0 ==> CoinDays(value, w) >= 0
  {
    assert value * w <= value * x;
    TruncDivMonotone(value * w, value * x);
    TruncDivMonotone(TruncDiv(value * w, COIN), TruncDiv(value * x, COIN));
    if w >= 0 {
      assert value * w >= 0;
      TruncDivMonotone(0, value * w);
      TruncDivMonotone(0, TruncDiv(value * w, COIN));
    }
  }

  lemma ScaleMonotone(a: int, b: int, t: int)
    requires a <= b && t >= 0
    ensures a * t <= b * t
  {
  }

  /** Without a wrap of the time, with a value and either a target or a weight that are not negative, all tries are generous. */
  lemma SafeSearch(st: Stake, now: nat, drift: nat, i: nat)
    requires st.value >= 0 && now + drift < UINT32 && i < drift && TimeOk(st, now)
    requires st.perCoinDay >= 0 || Weight(st.prevTime, now) >= 0
    ensures Generous(st, now, TryTime(now, drift, i))
  {
    var time := TryTime(now, drift, i);
    assert now < time;
    var w, x := Weight(st.prevTime, now), Weight(st.prevTime, time);
    CoinDaysMonotone(st.value, w, x);
    if st.perCoinDay >= 0 {
      ScaleMonotone(CoinDays(st.value, w), CoinDays(st.value, x), st.perCoinDay);
    } else {
      ScaleMonotone(0, CoinDays(st.value, w), -st.perCoinDay);
      assert Target(st, now) == -(CoinDays(st.value, w) * -st.perCoinDay);
    }
  }

  /** A time that the search finds passes the check of every other node, with the same hash. */
  method SearchAndCheck(st: Stake, found: bool, hash: nat -> nat, now: nat, drift: nat)
    returns (ok: bool, time: nat, proof: nat, again: bool, proofAgain: nat)
    requires st.value >= 0 && now + drift < UINT32
    requires st.perCoinDay >= 0 || Weight(st.prevTime, now) >= 0
    ensures ok <==> found && TimeOk(st, now) && exists i :: FirstHit(st, hash, now, drift, i)
    ensures ok ==> now < time <= now + drift && again && proofAgain == proof == hash(time)
    ensures !ok ==> time == now
  {
    ok, time, proof := CheckKernel(st, found, hash, now, drift, false);
    var t;
    again, t, proofAgain := CheckKernel(st, found, hash, time, drift, true);
    if ok {
      FoundIsChecked(st, hash, now, drift, time);
    }
  }

  lemma FoundIsChecked(st: Stake, hash: nat -> nat, now: nat, drift: nat, time: nat)
    requires st.value >= 0 && now + drift < UINT32 && TimeOk(st, now)
    requires st.perCoinDay >= 0 || Weight(st.prevTime, now) >= 0
    requires exists i :: FirstHit(st, hash, now, drift, i) && time == TryTime(now, drift, i)
    ensures now < time <= now + drift && Checks(st, hash, time)
  {
    var i :| FirstHit(st, hash, now, drift, i) && time == TryTime(now, drift, i);
    SafeSearch(st, now, drift, i);
    SearchThenCheck(st, hash, now, drift, i);
  }

  /** With a negative target and a weight below zero, the target falls as time passes. */
  lemma NegativeTargetDisagrees()
    ensures var st := Stake(DAY * COIN, 1000, 0, -1); var hash := (t: nat) => 899;
      TimeOk(st, 1000) && FirstHit(st, hash, 1000, 1, 0) && !Checks(st, hash, TryTime(1000, 1, 0))
  {
    var st := Stake(DAY * COIN, 1000, 0, -1);
    assert Target(st, 1000) == 900 && Target(st, 1001) == 899;
  }

  /** When the time wraps, the check refuses it outright. */
  lemma WrappedTimeDisagrees()
    ensures var st := Stake(DAY * COIN, 1000, 0, 1); var hash := (t: nat) => 0; var now := UINT32 - 1;
      TimeOk(st, now) && FirstHit(st, hash, now, 1, 0) && !Checks(st, hash, TryTime(now, 1, 0))
  {
    var st := Stake(DAY * COIN, 1000, 0, 1);
    assert Target(st, UINT32 - 1) == STAKE_MAX_AGE;
  }
}
