/**
 What each operation of the address manager does to the tables, as relations between snapshots, and
 why each of them keeps the invariant.
 */
module AddrSteps {
  import opened Collections
  import opened AddrTables
  import opened AddrEviction
  import opened AddrPromotion
  import opened AddrCheck

  function Max(a: int, b: int): int { if a < b then b else a }

  function EmptyTables(nKey: seq<int>): Tables {
    Tables(nKey, 0, map[], map[], [], 0, seq(TRIED_BUCKET_COUNT, _ => []), 0, seq(NEW_BUCKET_COUNT, _ => {}))
  }

  /** The entry after a repeated announcement of its address. */
  ghost function Refreshed(info: Info, addr: Address, penalty: int, now: int): Info {
    var interval := if now - addr.time < 24 * 60 * 60 then 60 * 60 else 24 * 60 * 60;
    var time := if addr.time != 0 && (info.time == 0 || info.time < addr.time - interval - penalty)
                then ToUint32(Max(0, addr.time - penalty)) else info.time;
    info.(time := time, services := info.services + addr.services)
  }

  /** One in how many announcements gives an entry with `n` references another one. */
  function Odds(n: nat): (f: nat)
    ensures f >= 1
  {
    if n == 0 then 1 else Odds(n - 1) * 2
  }

  /** An announcement that cannot give a known entry another bucket. */
  ghost predicate Declined(info: Info, addr: Address) {
    || addr.time == 0 || (info.time != 0 && addr.time <= info.time)
    || info.inTried
    || info.refCount == NEW_BUCKETS_PER_ADDRESS
  }

  ghost predicate PlacedEvicting(t: Tables, b: int, id: int, now: int, v: int, s: Tables)
    requires 0 <= b < |t.vvNew|
  {
    && v in t.vvNew[b] && CanDrop(t, b, v) && GivenUp(t.mapInfo, t.vvNew[b], v, now)
    && s == Inserted(Dropped(t, b, v), b, id)
  }

  /** `id` went into bucket `b`; a full bucket lost one entry first. */
  ghost predicate Placed(t: Tables, b: int, id: int, now: int, s: Tables)
    requires 0 <= b < |t.vvNew|
  {
    if |t.vvNew[b]| == NEW_BUCKET_SIZE then
      exists v :: PlacedEvicting(t, b, id, now, v, s)
    else
      s == Inserted(t, b, id)
  }

  /** The entry after a successful connection. */
  ghost function Succeeded(info: Info, time: int): Info {
    info.(lastSuccess := time, lastTry := time, time := ToUint32(time), attempts := 0)
  }

  // ----- attempts and connections -----

  ghost function Attempted(info: Info, time: int): Info {
    info.(lastTry := time, attempts := info.attempts + 1)
  }

  /** The tables after an entry matching `addr`, if there is one, has been changed by `change`. */
  ghost function ChangedWhereMatching(t: Tables, addr: Service, change: Info -> Info): Tables {
    if Matches(t, addr) then
      var id := t.mapAddr[addr.net]; SetInfo(t, id, change(t.mapInfo[id]))
    else t
  }

  ghost function AttemptedTables(t: Tables, addr: Service, time: int): Tables {
    ChangedWhereMatching(t, addr, info => Attempted(info, time))
  }

  lemma AttemptKeeps(net: Network, t: Tables, addr: Service, time: int)
    requires Inv(net, t, NO_ENTRY)
    ensures Inv(net, AttemptedTables(t, addr, time), NO_ENTRY)
    ensures TimesOk(t.mapInfo) ==>
      (TimesOk(AttemptedTables(t, addr, time).mapInfo) <==> time >= 0 || !Matches(t, addr))
  {
    if Matches(t, addr) {
      var id := t.mapAddr[addr.net];
      EntryUpdateKeeps(net, t, id, Attempted(t.mapInfo[id], time));
      SetTimes(t.mapInfo, id, Attempted(t.mapInfo[id], time));
    }
  }

  ghost function Seen(info: Info, time: int): Info {
    if time - info.time > 20 * 60 then info.(time := ToUint32(time)) else info
  }

  ghost function ConnectedTables(t: Tables, addr: Service, time: int): Tables {
    ChangedWhereMatching(t, addr, info => Seen(info, time))
  }

  lemma ConnectedKeeps(net: Network, t: Tables, addr: Service, time: int)
    requires Inv(net, t, NO_ENTRY)
    ensures Inv(net, ConnectedTables(t, addr, time), NO_ENTRY)
    ensures TimesOk(t.mapInfo) ==> TimesOk(ConnectedTables(t, addr, time).mapInfo)
  {
    if Matches(t, addr) {
      var id := t.mapAddr[addr.net];
      EntryUpdateKeeps(net, t, id, Seen(t.mapInfo[id], time));
      SetTimes(t.mapInfo, id, Seen(t.mapInfo[id], time));
    }
  }

  /** The entry made for a first announcement, before it has a bucket. */
  ghost function Announced(addr: Address, source: NetAddr, penalty: int): Info {
    NewInfo(addr, source, NO_ENTRY).(time := ToUint32(Max(0, addr.time - penalty)))
  }

  /** What `Add` does for an address without an entry. */
  ghost predicate UnknownOutcome(net: Network, t0: Tables, addr: Address, source: NetAddr,
                                 penalty: int, now: int, s: Tables) {
    var t := Entered(t0, Announced(addr, source, penalty));
    var b := NewBucket(net, t0.nKey, addr.service, source);
    b < |t.vvNew| && Placed(t, b, t0.nIdCount, now, s)
  }

  /** What `Add` does for an address that is known as entry `id`. */
  ghost predicate KnownOutcome(net: Network, t0: Tables, id: int, addr: Address, source: NetAddr,
                               penalty: int, now: int, s: Tables)
    requires id in t0.mapInfo
  {
    var t := SetInfo(t0, id, Refreshed(t0.mapInfo[id], addr, penalty, now));
    var b := NewBucket(net, t0.nKey, t0.mapInfo[id].service, source);
    || s == t
    || (&& !Declined(t.mapInfo[id], addr)
        && b < |t.vvNew| && id !in t.vvNew[b]
        && Placed(Raised(t, id), b, id, now, s))
  }

  /** What `Add` does to the tables. */
  ghost predicate AddOutcome(net: Network, t0: Tables, addr: Address, source: NetAddr, penalty: int, now: int, s: Tables) {
    if !net.routable(addr.service.net) then s == t0
    else if !Known(t0, addr.service.net) then UnknownOutcome(net, t0, addr, source, penalty, now, s)
    else KnownOutcome(net, t0, t0.mapAddr[addr.service.net], addr, source, penalty, now, s)
  }

  /** Placing the pending entry keeps the invariant, with or without an eviction. */
  lemma PlacedKeeps(net: Network, t: Tables, b: int, id: int, now: int, s: Tables)
    requires Inv(net, t, id) && id in t.mapInfo && !t.mapInfo[id].inTried
    requires 0 <= b < |t.vvNew| && id !in t.vvNew[b]
    requires Placed(t, b, id, now, s)
    ensures Inv(net, s, NO_ENTRY)
  {
    if |t.vvNew[b]| == NEW_BUCKET_SIZE {
      var v :| PlacedEvicting(t, b, id, now, v, s);
      EvictedAndInsertedKeeps(net, t, b, id, now, v, s);
    } else {
      assert |t.vvNew[b]| < NEW_BUCKET_SIZE;
      InsertedKeeps(net, t, b, id);
    }
  }

  lemma EvictedAndInsertedKeeps(net: Network, t: Tables, b: int, id: int, now: int, v: int, s: Tables)
    requires Inv(net, t, id) && id in t.mapInfo && !t.mapInfo[id].inTried
    requires 0 <= b < |t.vvNew| && id !in t.vvNew[b] && PlacedEvicting(t, b, id, now, v, s)
    ensures Inv(net, s, NO_ENTRY)
  {
    DropLeavesPending(t, b, v, id);
    DropKeeps(net, t, b, v, id);
    assert |t.vvNew[b] - {v}| < |t.vvNew[b]| <= NEW_BUCKET_SIZE;
    InsertedKeeps(net, Dropped(t, b, v), b, id);
  }

  /** Eviction of another entry leaves the pending one alone. */
  lemma DropLeavesPending(t: Tables, b: int, v: int, id: int)
    requires RandomOk(t) && id in t.mapInfo && v in t.mapInfo && v != id && 0 <= b < |t.vvNew|
    ensures var d := Dropped(t, b, v);
      && id in d.mapInfo && d.mapInfo[id].inTried == t.mapInfo[id].inTried
      && d.vvNew == t.vvNew[b := t.vvNew[b] - {v}]
  {
    DroppedShape(t, b, v);
    assert Moved(t.mapInfo[id], Dropped(t, b, v).mapInfo[id]);
  }

  lemma PlacedTimes(t: Tables, b: int, id: int, now: int, s: Tables)
    requires RandomOk(t) && 0 <= b < |t.vvNew| && Placed(t, b, id, now, s) && TimesOk(t.mapInfo)
    ensures TimesOk(s.mapInfo)
  {
    if |t.vvNew[b]| == NEW_BUCKET_SIZE {
      var v :| PlacedEvicting(t, b, id, now, v, s);
      DropKeepsTimes(t, b, v);
    }
  }

  lemma UnknownKeeps(net: Network, t0: Tables, addr: Address, source: NetAddr, penalty: int, now: int, s: Tables)
    requires Inv(net, t0, NO_ENTRY) && addr.service.net !in t0.mapAddr
    requires UnknownOutcome(net, t0, addr, source, penalty, now, s)
    ensures Inv(net, s, NO_ENTRY)
    ensures TimesOk(t0.mapInfo) ==> TimesOk(s.mapInfo)
  {
    var t := Entered(t0, Announced(addr, source, penalty));
    EnteredKeeps(net, t0, Announced(addr, source, penalty));
    UnusedIdNowhere(t0);
    var b := NewBucket(net, t0.nKey, addr.service, source);
    PlacedKeeps(net, t, b, t0.nIdCount, now, s);
    if TimesOk(t0.mapInfo) {
      PlacedTimes(t, b, t0.nIdCount, now, s);
    }
  }

  lemma KnownKeeps(net: Network, t0: Tables, id: int, addr: Address, source: NetAddr, penalty: int, now: int, s: Tables)
    requires Inv(net, t0, NO_ENTRY) && id in t0.mapInfo
    requires KnownOutcome(net, t0, id, addr, source, penalty, now, s)
    ensures Inv(net, s, NO_ENTRY)
    ensures TimesOk(t0.mapInfo) ==> TimesOk(s.mapInfo)
  {
    var t := SetInfo(t0, id, Refreshed(t0.mapInfo[id], addr, penalty, now));
    RefreshedKeeps(net, t0, id, addr, penalty, now);
    SetTimes(t0.mapInfo, id, t.mapInfo[id]);
    if s != t {
      assert RefCountOk(t, id, NO_ENTRY);
      RaisedKeeps(net, t, id);
      SetTimes(t.mapInfo, id, Raised(t, id).mapInfo[id]);
      var b := NewBucket(net, t0.nKey, t0.mapInfo[id].service, source);
      PlacedKeeps(net, Raised(t, id), b, id, now, s);
      if TimesOk(t0.mapInfo) {
        PlacedTimes(Raised(t, id), b, id, now, s);
      }
    }
  }

  lemma UnusedIdNowhere(t: Tables)
    requires NewBucketsOk(t) && CountsOk(t)
    ensures forall b :: 0 <= b < |t.vvNew| ==> t.nIdCount !in t.vvNew[b]
  {
    assert t.nIdCount !in t.mapInfo;
  }

  lemma RefreshedKeeps(net: Network, t: Tables, id: int, addr: Address, penalty: int, now: int)
    requires Inv(net, t, NO_ENTRY) && id in t.mapInfo
    ensures Inv(net, SetInfo(t, id, Refreshed(t.mapInfo[id], addr, penalty, now)), NO_ENTRY)
  {
    EntryUpdateKeeps(net, t, id, Refreshed(t.mapInfo[id], addr, penalty, now));
  }

  /** A promotion from `origin`, one of the buckets that hold `id`. */
  ghost predicate PromotedFrom(net: Network, t: Tables, id: int, origin: int, victim: int, u: int, s: Tables)
    requires id in t.mapInfo
  {
    0 <= origin < |t.vvNew| && id in t.vvNew[origin] && Promoted(net, t, id, origin, victim, u, s)
  }

  /** What `Good` does to the tables. */
  ghost predicate GoodOutcome(net: Network, t0: Tables, addr: Service, time: int, s: Tables) {
    if !Matches(t0, addr) then s == t0
    else
      var id := t0.mapAddr[addr.net];
      var t := SetInfo(t0, id, Succeeded(t0.mapInfo[id], time));
      if t0.mapInfo[id].inTried then s == t
      else exists origin, victim, u :: PromotedFrom(net, t, id, origin, victim, u, s)
  }

  /** Whatever time is passed, a success keeps the tables consistent. */
  lemma GoodKeeps(net: Network, t0: Tables, addr: Service, time: int, s: Tables)
    requires Inv(net, t0, NO_ENTRY) && GoodOutcome(net, t0, addr, time, s)
    ensures Inv(net, s, NO_ENTRY)
  {
    if Matches(t0, addr) {
      var id := t0.mapAddr[addr.net];
      SucceededKeeps(net, t0, id, time);
      if !t0.mapInfo[id].inTried {
        var t := SetInfo(t0, id, Succeeded(t0.mapInfo[id], time));
        var origin, victim, u :| PromotedFrom(net, t, id, origin, victim, u, s);
        PromotedKeeps(net, t, id, origin, victim, u, s);
      }
    }
  }

  /** The time stamps stay in order exactly if the time is positive or the address is not known. */
  lemma GoodTimes(net: Network, t0: Tables, addr: Service, time: int, s: Tables)
    requires Inv(net, t0, NO_ENTRY) && GoodOutcome(net, t0, addr, time, s)
    ensures TimesOk(t0.mapInfo) ==> (TimesOk(s.mapInfo) <==> time > 0 || !Matches(t0, addr))
  {
    if Matches(t0, addr) && TimesOk(t0.mapInfo) {
      var id := t0.mapAddr[addr.net];
      var t := SetInfo(t0, id, Succeeded(t0.mapInfo[id], time));
      if t0.mapInfo[id].inTried {
        SetTimes(t0.mapInfo, id, t.mapInfo[id]);
      } else {
        var origin, victim, u :| PromotedFrom(net, t, id, origin, victim, u, s);
        SucceededTimes(net, t0, id, time, origin, victim, u, s);
      }
    }
  }

  lemma SucceededTimes(net: Network, t0: Tables, id: int, time: int, origin: int, victim: int, u: int, s: Tables)
    requires Inv(net, t0, NO_ENTRY) && TimesOk(t0.mapInfo) && id in t0.mapInfo && !t0.mapInfo[id].inTried
    requires PromotedFrom(net, SetInfo(t0, id, Succeeded(t0.mapInfo[id], time)), id, origin, victim, u, s)
    ensures TimesOk(s.mapInfo) <==> time > 0
  {
    SucceededKeeps(net, t0, id, time);
    PromotedTimes(net, SetInfo(t0, id, Succeeded(t0.mapInfo[id], time)), id, origin, victim, u, s);
  }

  /** After a success the original's check still passes exactly if the time is positive or the address is not known. */
  lemma GoodChecks(net: Network, t0: Tables, addr: Service, time: int, s: Tables)
    requires Inv(net, t0, NO_ENTRY) && GoodOutcome(net, t0, addr, time, s)
    ensures CheckOk(t0) ==> (CheckOk(s) <==> time > 0 || !Matches(t0, addr))
  {
    GoodKeeps(net, t0, addr, time, s);
    GoodTimes(net, t0, addr, time, s);
    InvPassesCheck(net, t0);
    InvPassesCheck(net, s);
  }

  /** After an attempt it passes exactly if the time is not negative or the address is not known. */
  lemma AttemptChecks(net: Network, t: Tables, addr: Service, time: int)
    requires Inv(net, t, NO_ENTRY)
    ensures CheckOk(t) ==> (CheckOk(AttemptedTables(t, addr, time)) <==> time >= 0 || !Matches(t, addr))
  {
    AttemptKeeps(net, t, addr, time);
    InvPassesCheck(net, t);
    InvPassesCheck(net, AttemptedTables(t, addr, time));
  }

  function Rotated(m: nat, start: nat, n: nat): (b: nat)
    requires n > 0
    ensures b < n
  {
    (m + start) % n
  }

  lemma RotatedIndex(b: nat, start: nat, n: nat) returns (m: nat)
    requires b < n && start < n
    ensures m < n && Rotated(m, start, n) == b
  {
    m := if b >= start then b - start else b - start + n;
    if b < start {
      assert (b + n) % n == b;
    }
  }

  /** Changing an entry in place, without touching what the other tables refer to. */
  lemma EntryUpdateKeeps(net: Network, t: Tables, id: int, info: Info)
    requires Inv(net, t, NO_ENTRY) && id in t.mapInfo
    requires SameEntry(t.mapInfo[id], info) && info.randomPos == t.mapInfo[id].randomPos
    ensures Inv(net, SetInfo(t, id, info), NO_ENTRY)
  {
    SetKeepsRandom(t, id, info);
    SetShape(t, id, info);
    ShapeKeeps(net, t, SetInfo(t, id, info), NO_ENTRY);
  }

  lemma SetShape(t: Tables, id: int, info: Info)
    requires id in t.mapInfo && SameEntry(t.mapInfo[id], info)
    ensures SameShape(t, SetInfo(t, id, info))
  {
    SetKeys(t.mapInfo, id, info);
  }

  lemma SucceededKeeps(net: Network, t: Tables, id: int, time: int)
    requires Inv(net, t, NO_ENTRY) && id in t.mapInfo
    ensures Inv(net, SetInfo(t, id, Succeeded(t.mapInfo[id], time)), NO_ENTRY)
  {
    EntryUpdateKeeps(net, t, id, Succeeded(t.mapInfo[id], time));
  }

  lemma SetTimes(m: map<int, Info>, id: int, info: Info)
    requires id in m
    ensures TimesOk(m) ==> (TimesOk(m[id := info]) <==> TimeOk(info))
  {
    var n := m[id := info];
    if TimesOk(n) {
      assert id in n && TimeOk(n[id]);
    }
  }

  lemma NewEntryHasBucket(net: Network, t: Tables, id: int)
    requires Inv(net, t, NO_ENTRY) && id in t.mapInfo && !t.mapInfo[id].inTried
    ensures exists b :: 0 <= b < |t.vvNew| && id in t.vvNew[b]
  {
    assert RefCountOk(t, id, NO_ENTRY);
    var holders := Holders(t.vvNew, id, |t.vvNew|);
    assert holders != {};
    var b := Least(holders);
    assert id in t.vvNew[b];
  }

  /** After a promotion the time stamps are in order exactly if the promoted one has succeeded. */
  lemma PromotedTimes(net: Network, t: Tables, id: int, origin: int, victim: int, u: int, s: Tables)
    requires CanPromote(net, t, id, origin) && Promoted(net, t, id, origin, victim, u, s)
    requires forall x :: x in t.mapInfo && x != id ==> TimeOk(t.mapInfo[x])
    ensures TimesOk(s.mapInfo) <==> TimeOk(TriedInfo(t.mapInfo[id]))
  {
    VictimFacts(net, t, id, origin, victim, u, s);
    if TimesOk(s.mapInfo) {
      assert id in s.mapInfo && TimeOk(s.mapInfo[id]);
    }
    if TimeOk(TriedInfo(t.mapInfo[id])) {
      forall x | x in s.mapInfo
        ensures TimeOk(s.mapInfo[x])
      {
        assert x in t.mapInfo.Keys;
      }
    }
  }

  ghost function ExchangedTables(t: Tables, k: int, id: int, victim: int, u: int, bucket: seq<int>): Tables
    requires 0 <= k < |t.vvTried| && 0 <= u < |t.vvNew| && id in t.mapInfo && victim in t.mapInfo
  {
    t.(mapInfo := t.mapInfo[victim := DemotedInfo(t.mapInfo[victim])][id := t.mapInfo[id].(inTried := true)],
       vvNew := t.vvNew[u := t.vvNew[u] + {victim}],
       nNew := t.nNew + 1,
       vvTried := t.vvTried[k := bucket])
  }

  /** The tables once `id` has left the new table but not yet joined the tried one. */
  ghost predicate Erased(t: Tables, id: int, e: Tables)
    requires id in t.mapInfo
  {
    && |e.vvNew| == |t.vvNew| && (forall b :: 0 <= b < |t.vvNew| ==> e.vvNew[b] == t.vvNew[b] - {id})
    && e == t.(mapInfo := t.mapInfo[id := t.mapInfo[id].(refCount := 0)], vvNew := e.vvNew, nNew := t.nNew - 1)
  }

  lemma RoomPromoted(net: Network, t: Tables, id: int, origin: int, e: Tables, s: Tables)
    requires CanPromote(net, t, id, origin) && Erased(t, id, e)
    requires var k := HomeBucket(net, t, id);
      && |t.vvTried[k]| < TRIED_BUCKET_SIZE
      && s == e.(vvTried := e.vvTried[k := e.vvTried[k] + [id]], nTried := e.nTried + 1,
                 mapInfo := e.mapInfo[id := e.mapInfo[id].(inTried := true)])
    ensures Promoted(net, t, id, origin, NO_ENTRY, origin, s)
  {
    assert s.mapInfo == t.mapInfo[id := TriedInfo(t.mapInfo[id])];
  }

  lemma ExchangePromoted(net: Network, t: Tables, id: int, origin: int, e: Tables,
                         k: int, victim: int, u: int, s: Tables)
    requires CanPromote(net, t, id, origin) && Erased(t, id, e)
    requires k == HomeBucket(net, t, id) && k < |s.vvTried| && |t.vvTried[k]| >= TRIED_BUCKET_SIZE
    requires victim in t.mapInfo && victim != id && victim != NO_ENTRY
    requires u == var wanted := NewBucket(net, t.nKey, t.mapInfo[victim].service, t.mapInfo[victim].source);
                  if |e.vvNew[wanted]| < NEW_BUCKET_SIZE then wanted else origin
    requires Replaced(e.mapInfo, t.vvTried[k], id, victim, s.vvTried[k])
    requires s == ExchangedTables(e, k, id, victim, u, s.vvTried[k])
    ensures Promoted(net, t, id, origin, victim, u, s)
  {
    TriedBucketFacts(net, t, k, id);
    ReplacedAlike(e.mapInfo, t.mapInfo, t.vvTried[k], id, victim, s.vvTried[k]);
    ExchangeEntries(t.mapInfo, id, victim);
    ExchangeBuckets(t, id, e, victim, u, s);
  }

  lemma ExchangeEntries(m: map<int, Info>, id: int, victim: int)
    requires id in m && victim in m && id != victim
    ensures var e := m[id := m[id].(refCount := 0)];
      e[victim := DemotedInfo(e[victim])][id := e[id].(inTried := true)]
        == m[id := TriedInfo(m[id])][victim := DemotedInfo(m[victim])]
  {
  }

  lemma ExchangeBuckets(t: Tables, id: int, e: Tables, victim: int, u: int, s: Tables)
    requires |e.vvNew| == |t.vvNew| && (forall b :: 0 <= b < |t.vvNew| ==> e.vvNew[b] == t.vvNew[b] - {id})
    requires 0 <= u < |t.vvNew| && victim != NO_ENTRY && s.vvNew == e.vvNew[u := e.vvNew[u] + {victim}]
    ensures NewBucketsPromoted(t, id, victim, u, s)
  {
  }

  lemma HoldersStep(vvNew: seq<set<int>>, id: int, n: nat)
    requires n < |vvNew|
    ensures |Holders(vvNew, id, n + 1)| == |Holders(vvNew, id, n)| + (if id in vvNew[n] then 1 else 0)
  {
    assert Holders(vvNew, id, n + 1) ==
      if id in vvNew[n] then Holders(vvNew, id, n) + {n} else Holders(vvNew, id, n);
  }

  lemma TriedBucketFacts(net: Network, t: Tables, k: int, id: int)
    requires Inv(net, t, NO_ENTRY) && 0 <= k < |t.vvTried| && id in t.mapInfo && !t.mapInfo[id].inTried
    ensures forall x :: x in t.vvTried[k] ==> x in t.mapInfo && x != NO_ENTRY && x != id
  {
    forall x | x in t.vvTried[k]
      ensures x in t.mapInfo && x != NO_ENTRY && x != id
    {
      assert x in t.mapInfo && t.mapInfo[x].inTried;
    }
  }

  lemma BucketFacts(net: Network, t: Tables, pending: int, b: int)
    requires Inv(net, t, pending) && 0 <= b < |t.vvNew|
    ensures t.vvNew[b] <= t.mapInfo.Keys && NO_ENTRY !in t.vvNew[b]
  {
    forall id | id in t.vvNew[b]
      ensures id in t.mapInfo.Keys
    {
      assert id in t.mapInfo;
    }
  }

  // ----- sampling -----

  function SampleSize(n: nat): nat {
    if GETADDR_MAX_PCT * n / 100 > GETADDR_MAX then GETADDR_MAX else GETADDR_MAX_PCT * n / 100
  }

  /** One swap of the sampling, as its assertions allow it. */
  ghost predicate SwappedOnce(t: Tables, n: nat, p: int, s: Tables) {
    && n <= p < |t.vRandom| && t.vRandom[n] in t.mapInfo && t.vRandom[p] in t.mapInfo
    && s == Swapped(t, n, p)
  }

  /** Place after place of `vRandom` was swapped with a spot at or behind it. */
  ghost predicate Shuffled(t: Tables, spots: seq<nat>, s: Tables) {
    if spots == [] then s == t
    else
      var n := |spots| - 1;
      exists m :: Shuffled(t, spots[..n], m) && SwappedOnce(m, n, spots[n], s)
  }

  /** What `GetAddr` does to the tables. */
  ghost predicate GetAddrOutcome(t: Tables, s: Tables) {
    exists spots: seq<nat> :: |spots| == SampleSize(|t.vRandom|) && Shuffled(t, spots, s)
  }

  lemma ShuffledMore(t: Tables, spots: seq<nat>, m: Tables, p: nat, s: Tables)
    requires Shuffled(t, spots, m) && SwappedOnce(m, |spots|, p, s)
    ensures Shuffled(t, spots + [p], s)
  {
    assert (spots + [p])[..|spots|] == spots;
  }

  lemma {:induction false} ShuffledReorders(t: Tables, spots: seq<nat>, s: Tables)
    requires RandomOk(t) && Shuffled(t, spots, s)
    ensures Reordered(t, s) && |s.vRandom| == |t.vRandom|
  {
    if spots != [] {
      var n := |spots| - 1;
      var m :| Shuffled(t, spots[..n], m) && SwappedOnce(m, n, spots[n], s);
      ShuffledReorders(t, spots[..n], m);
      ReorderedStep(t, m, n, spots[n]);
    }
  }

  lemma GetAddrKeeps(net: Network, t: Tables, s: Tables)
    requires Inv(net, t, NO_ENTRY) && GetAddrOutcome(t, s)
    ensures Inv(net, s, NO_ENTRY)
    ensures TimesOk(t.mapInfo) ==> TimesOk(s.mapInfo)
  {
    var spots: seq<nat> :| |spots| == SampleSize(|t.vRandom|) && Shuffled(t, spots, s);
    ShuffledReorders(t, spots, s);
    ReorderedKeeps(net, t, s);
  }

  /** The same entries in the same buckets, at other places of `vRandom`. */
  ghost predicate Reordered(t: Tables, s: Tables) {
    && SameShape(t, s) && RandomOk(s)
    && forall id :: id in t.mapInfo ==> Moved(t.mapInfo[id], s.mapInfo[id])
  }

  ghost predicate SampledAt(t: Tables, vAddr: seq<Address>, i: int) {
    && 0 <= i < |vAddr| && i < |t.vRandom| && t.vRandom[i] in t.mapInfo
    && var info := t.mapInfo[t.vRandom[i]];
       vAddr[i].service == info.service && vAddr[i].services == info.services && vAddr[i].time == info.time
  }

  lemma ReorderedStep(t0: Tables, t: Tables, i: int, j: int)
    requires Reordered(t0, t) && 0 <= i < |t.vRandom| && 0 <= j < |t.vRandom|
    ensures Reordered(t0, Swapped(t, i, j))
  {
    SwapShape(t, i, j);
    var s := Swapped(t, i, j);
    forall id | id in t0.mapInfo
      ensures Moved(t0.mapInfo[id], s.mapInfo[id]) && SameEntry(t0.mapInfo[id], s.mapInfo[id])
    {
      assert id in t.mapInfo.Keys;
      assert Moved(t0.mapInfo[id], t.mapInfo[id]) && Moved(t.mapInfo[id], s.mapInfo[id]);
    }
  }

  lemma ReorderedKeeps(net: Network, t: Tables, s: Tables)
    requires Inv(net, t, NO_ENTRY) && Reordered(t, s)
    ensures Inv(net, s, NO_ENTRY)
    ensures TimesOk(t.mapInfo) ==> TimesOk(s.mapInfo)
  {
    ShapeKeeps(net, t, s, NO_ENTRY);
    if TimesOk(t.mapInfo) {
      forall id | id in s.mapInfo
        ensures TimeOk(s.mapInfo[id])
      {
        assert id in t.mapInfo.Keys;
        assert Moved(t.mapInfo[id], s.mapInfo[id]) && TimeOk(t.mapInfo[id]);
      }
    }
  }

  /** Swapping later places does not disturb the sample taken so far. */
  lemma SampleGrows(t: Tables, n: int, p: int, vAddr: seq<Address>, a: Address)
    requires RandomOk(t) && 0 <= n <= p < |t.vRandom| && |vAddr| == n
    requires forall i :: 0 <= i < n ==> SampledAt(t, vAddr, i)
    requires var s := Swapped(t, n, p); s.vRandom[n] in s.mapInfo && a == s.mapInfo[s.vRandom[n]].ToAddress()
    ensures forall i :: 0 <= i < n + 1 ==> SampledAt(Swapped(t, n, p), vAddr + [a], i)
  {
    SwapShape(t, n, p);
    var s := Swapped(t, n, p);
    forall i | 0 <= i < n
      ensures SampledAt(s, vAddr + [a], i)
    {
      assert SampledAt(t, vAddr, i);
      assert Moved(t.mapInfo[t.vRandom[i]], s.mapInfo[t.vRandom[i]]);
      SampleStays(t, vAddr, i, s, a);
    }
  }

  lemma SampleStays(t: Tables, vAddr: seq<Address>, i: int, s: Tables, a: Address)
    requires SampledAt(t, vAddr, i) && i < |s.vRandom| && s.vRandom[i] == t.vRandom[i] && t.vRandom[i] in s.mapInfo
    requires Moved(t.mapInfo[t.vRandom[i]], s.mapInfo[t.vRandom[i]])
    ensures SampledAt(s, vAddr + [a], i)
  {
  }

  /** No address is sampled twice. */
  lemma SampleDistinct(net: Network, t: Tables, vAddr: seq<Address>, i: int, j: int)
    requires Inv(net, t, NO_ENTRY) && 0 <= i < j && SampledAt(t, vAddr, i) && SampledAt(t, vAddr, j)
    ensures vAddr[i].service.net != vAddr[j].service.net
  {
    var id, id' := t.vRandom[i], t.vRandom[j];
    assert t.mapInfo[id].randomPos == i && t.mapInfo[id'].randomPos == j;
    assert t.mapAddr[t.mapInfo[id].service.net] == id && t.mapAddr[t.mapInfo[id'].service.net] == id';
  }

  lemma AddKeeps(net: Network, t: Tables, addr: Address, source: NetAddr, penalty: int, now: int, s: Tables)
    requires Inv(net, t, NO_ENTRY) && AddOutcome(net, t, addr, source, penalty, now, s)
    ensures Inv(net, s, NO_ENTRY)
    ensures TimesOk(t.mapInfo) ==> TimesOk(s.mapInfo)
  {
    var a := addr.service.net;
    if net.routable(a) {
      if Known(t, a) {
        KnownKeeps(net, t, t.mapAddr[a], addr, source, penalty, now, s);
      } else {
        UnknownKeeps(net, t, addr, source, penalty, now, s);
      }
    }
  }
}
