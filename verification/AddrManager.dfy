/**
 The peer address manager `CAddrMan`.

 The class keeps the fields of the original and updates them in place. `View` is their snapshot; the
 contracts relate snapshots through the step functions of `AddrTables`, `AddrEviction`,
 `AddrPromotion` and `AddrSteps`. Random choices are nondeterministic; the clock is the parameter `now`.
 */
module AddrManager {
  import opened Collections
  import opened AddrTables
  import opened AddrEviction
  import opened AddrPromotion
  import opened AddrSteps
  import opened AddrCheck

  class AddrMan {
    const net: Network
    var nKey: seq<int>
    var nIdCount: int
    var mapInfo: map<int, Info>
    var mapAddr: map<NetAddr, int>
    var vRandom: seq<int>
    var nTried: int
    var vvTried: seq<seq<int>>
    var nNew: int
    var vvNew: seq<set<int>>

    ghost function View(): Tables
      reads this
    {
      Tables(nKey, nIdCount, mapInfo, mapAddr, vRandom, nTried, vvTried, nNew, vvNew)
    }

    ghost predicate Valid()
      reads this
    {
      Inv(net, View(), NO_ENTRY) && TimesOk(mapInfo)
    }

    constructor (net: Network, key: seq<int>)
      ensures this.net == net && View() == EmptyTables(key)
      ensures Valid()
    {
      this.net := net;
      nKey := key;
      nIdCount, mapInfo, mapAddr, vRandom, nTried, nNew := 0, map[], map[], [], 0, 0;
      vvTried := seq(TRIED_BUCKET_COUNT, _ => []);
      vvNew := seq(NEW_BUCKET_COUNT, _ => {});
      new;
      assert TriedIds(mapInfo) == {} && NewIds(mapInfo) == {};
    }

    method Find(a: NetAddr) returns (found: bool, id: int)
      ensures found <==> Known(View(), a)
      ensures found ==> id == mapAddr[a] && id in mapInfo
    {
      id := NO_ENTRY;
      if a !in mapAddr {
        return false, id;
      }
      id := mapAddr[a];
      found := id in mapInfo;
    }

    method Create(addr: Address, source: NetAddr) returns (id: int)
      modifies this
      ensures id == old(nIdCount)
      ensures View() == old(View()).(
        nIdCount := old(nIdCount) + 1,
        mapInfo := old(mapInfo)[id := NewInfo(addr, source, |old(vRandom)|)],
        mapAddr := old(mapAddr)[addr.service.net := id],
        vRandom := old(vRandom) + [id])
    {
      id := nIdCount;
      nIdCount := nIdCount + 1;
      mapInfo := mapInfo[id := NewInfo(addr, source, NO_ENTRY)];
      mapAddr := mapAddr[addr.service.net := id];
      mapInfo := mapInfo[id := mapInfo[id].(randomPos := |vRandom|)];
      vRandom := vRandom + [id];
    }

    method SwapRandom(i: int, j: int)
      requires i != j ==> 0 <= i < |vRandom| && 0 <= j < |vRandom| && vRandom[i] in mapInfo && vRandom[j] in mapInfo
      modifies this
      ensures View() == if i == j then old(View()) else Swapped(old(View()), i, j)
    {
      if i == j {
        return;
      }
      var id1, id2 := vRandom[i], vRandom[j];
      mapInfo := mapInfo[id1 := mapInfo[id1].(randomPos := j)];
      mapInfo := mapInfo[id2 := mapInfo[id2].(randomPos := i)];
      vRandom := vRandom[i := id2];
      vRandom := vRandom[j := id1];
    }

    /**
     Samples at most four entries of a tried bucket by swapping them to its front. The position returned is
     where the oldest of the sample came from.
     */
    method SelectTried(k: int) returns (pos: int, ghost spots: seq<nat>)
      requires 0 <= k < |vvTried|
      requires forall id :: id in vvTried[k] ==> id in mapInfo && id != NO_ENTRY
      modifies this`vvTried
      ensures AreSpots(spots, |old(vvTried[k])|) && |spots| == SampleCount(|old(vvTried[k])|)
      ensures vvTried == old(vvTried)[k := Swaps(old(vvTried[k]), spots)]
      ensures if old(vvTried[k]) == [] then pos == -1 else IsOldestSpot(mapInfo, vvTried[k], spots, pos)
    {
      ghost var q := vvTried[k];
      var oldest, i := NO_ENTRY, 0;
      pos, spots := -1, [];
      while i < TRIED_ENTRIES_INSPECT_ON_EVICT && i < |vvTried[k]|
        invariant 0 <= i == |spots| <= SampleCount(|q|) && AreSpots(spots, |q|)
        invariant vvTried == old(vvTried)[k := Swaps(q, spots)]
        invariant SampleState(mapInfo, vvTried[k], spots, oldest, pos)
        decreases |q| - i
      {
        SwapsKeep(q, spots);
        ghost var p;
        oldest, pos, p := SampleTried(k, i, oldest, pos, spots);
        SwapsMore(q, spots, p);
        spots := spots + [p];
        i := i + 1;
      }
    }

    /** One round of the sampling: a random entry at or behind place `i` comes to that place. */
    method SampleTried(k: int, i: nat, oldest0: int, pos0: int, ghost spots: seq<nat>)
      returns (oldest: int, pos: int, ghost p: nat)
      requires 0 <= k < |vvTried| && i == |spots| < |vvTried[k]|
      requires forall id :: id in vvTried[k] ==> id in mapInfo && id != NO_ENTRY
      requires SampleState(mapInfo, vvTried[k], spots, oldest0, pos0)
      modifies this`vvTried
      ensures i <= p < |old(vvTried[k])| && vvTried == old(vvTried)[k := Swap(old(vvTried[k]), i, p)]
      ensures SampleState(mapInfo, vvTried[k], spots + [p], oldest, pos)
    {
      var r: nat :| i <= r < |vvTried[k]|;
      p, oldest, pos := r, oldest0, pos0;
      ghost var before := vvTried[k];
      var temp := SwapTried(k, i, r);
      if oldest == NO_ENTRY || mapInfo[temp].lastSuccess < mapInfo[oldest].lastSuccess {
        SampleTakes(mapInfo, before, spots, oldest, pos, r);
        oldest, pos := temp, r;
      } else {
        SampleKeeps(mapInfo, before, spots, oldest, pos, r);
      }
    }

    /** The sampling of a bucket that is not empty chooses an entry of it. */
    method PickTried(k: int) returns (pos: int, ghost spots: seq<nat>)
      requires 0 <= k < |vvTried| && vvTried[k] != []
      requires forall id :: id in vvTried[k] ==> id in mapInfo && id != NO_ENTRY
      modifies this`vvTried
      ensures IsSampling(mapInfo, old(vvTried[k]), spots, pos)
      ensures vvTried == old(vvTried)[k := Swaps(old(vvTried[k]), spots)]
      ensures 0 <= pos < |vvTried[k]| && vvTried[k][pos] in old(vvTried[k])
    {
      pos, spots := SelectTried(k);
      SwapsWithin(old(vvTried[k]), spots);
    }

    /** One swap inside a tried bucket; returns the id that comes to place `i`. */
    method SwapTried(k: int, i: nat, p: nat) returns (temp: int)
      requires 0 <= k < |vvTried| && i <= p < |vvTried[k]|
      modifies this`vvTried
      ensures temp == old(vvTried[k])[p] && vvTried == old(vvTried)[k := Swap(old(vvTried[k]), i, p)]
    {
      var bucket := vvTried[k];
      temp := bucket[p];
      bucket := bucket[p := bucket[i]];
      bucket := bucket[i := temp];
      vvTried := vvTried[k := bucket];
    }

    /** Deletes an entry that no bucket refers to. */
    method RemoveEntry(id: int)
      requires id in mapInfo && Swappable(View(), mapInfo[id].randomPos)
      modifies this
      ensures View() == Removed(old(View()), id)
    {
      var info := mapInfo[id];
      SwapRandom(info.randomPos, |vRandom| - 1);
      vRandom := vRandom[..|vRandom| - 1];
      mapAddr := mapAddr - {info.service.net};
      mapInfo := mapInfo - {id};
      nNew := nNew - 1;
    }

    /** Drops `id` from new bucket `b`: the tail shared by both eviction rules. */
    method DropFrom(b: int, id: int)
      requires CanDrop(View(), b, id)
      modifies this
      ensures View() == Dropped(old(View()), b, id)
    {
      var info := mapInfo[id];
      mapInfo := mapInfo[id := info.(refCount := info.refCount - 1)];
      if info.refCount - 1 == 0 {
        RemoveEntry(id);
      }
      vvNew := vvNew[b := vvNew[b] - {id}];
    }

    method FindTerrible(b: int, now: int) returns (v: int)
      requires 0 <= b < |vvNew| && vvNew[b] <= mapInfo.Keys && NO_ENTRY !in vvNew[b]
      ensures v == NO_ENTRY ==> NoneTerrible(mapInfo, vvNew[b], now)
      ensures v != NO_ENTRY ==> FirstTerrible(mapInfo, vvNew[b], v, now)
    {
      var ids := Ascending(vvNew[b]);
      BucketKnown(mapInfo, vvNew[b], ids);
      for i := 0 to |ids|
        invariant FineUpTo(mapInfo, ids, i, now)
      {
        if IsTerrible(mapInfo[ids[i]], now) {
          TerribleFound(mapInfo, vvNew[b], ids, i, now);
          return ids[i];
        }
      }
      NoneFound(mapInfo, vvNew[b], ids, now);
      v := NO_ENTRY;
    }

    /** The oldest of the four random places of a bucket. */
    method PickOldest(b: int, picks: seq<nat>) returns (v: int)
      requires 0 <= b < |vvNew| && vvNew[b] <= mapInfo.Keys && NO_ENTRY !in vvNew[b]
      requires |picks| == 4 && forall i :: 0 <= i < 4 ==> picks[i] < |vvNew[b]|
      ensures IsOldestPick(mapInfo, vvNew[b], picks, v)
    {
      var ids := Ascending(vvNew[b]);
      BucketKnown(mapInfo, vvNew[b], ids);
      v := NO_ENTRY;
      for i := 0 to |ids|
        invariant PickState(mapInfo, ids, picks, i, v)
      {
        v := PickNext(ids, picks, i, v);
      }
      PickDone(mapInfo, vvNew[b], picks, v);
    }

    method PickNext(ids: seq<int>, picks: seq<nat>, i: nat, oldest: int) returns (v: int)
      requires AllKnown(mapInfo, ids) && StrictlyAscending(ids) && |picks| == 4 && i < |ids|
      requires PickState(mapInfo, ids, picks, i, oldest)
      ensures PickState(mapInfo, ids, picks, i + 1, v)
    {
      v := oldest;
      if i == picks[0] || i == picks[1] || i == picks[2] || i == picks[3] {
        if v == NO_ENTRY || mapInfo[ids[i]].time < mapInfo[v].time {
          ghost var k := if i == picks[0] then 0 else if i == picks[1] then 1 else if i == picks[2] then 2 else 3;
          PickTakes(mapInfo, ids, picks, i, v, k);
          v := ids[i];
        } else {
          PickKeeps(mapInfo, ids, picks, i, v);
        }
      } else {
        PickSkips(mapInfo, ids, picks, i, v);
      }
    }

    /** Makes room in a new bucket: the first terrible entry goes, else the oldest of four picks. */
    method ShrinkNew(b: int, now: int, ghost pending: int) returns (r: int, ghost victim: int, ghost picks: seq<nat>)
      requires Inv(net, View(), pending)
      requires 0 <= b < |vvNew| && vvNew[b] != {} && pending !in vvNew[b]
      modifies this
      ensures victim in old(vvNew[b]) && CanDrop(old(View()), b, victim) && View() == Dropped(old(View()), b, victim)
      ensures |vvNew| == |old(vvNew)|
      ensures GivenUp(old(mapInfo), old(vvNew[b]), victim, now)
      ensures r == 0 || r == 1
      ensures r == 0 ==> FirstTerrible(old(mapInfo), old(vvNew[b]), victim, now)
      ensures r == 1 ==> NoneTerrible(old(mapInfo), old(vvNew[b]), now)
      ensures r == 1 ==> old(vvNew[b]) <= old(mapInfo).Keys && |picks| == 4
      ensures r == 1 ==> IsOldestPick(old(mapInfo), old(vvNew[b]), picks, victim)
    {
      BucketFacts(net, View(), pending, b);
      var v;
      r, v, picks := ChooseVictim(b, now);
      victim := v;
      DropFrom(b, v);
    }

    /** The entry that a new bucket gives up, with the rule that chose it. */
    method ChooseVictim(b: int, now: int) returns (r: int, v: int, ghost picks: seq<nat>)
      requires 0 <= b < |vvNew| && vvNew[b] != {} && vvNew[b] <= mapInfo.Keys && NO_ENTRY !in vvNew[b]
      ensures v in vvNew[b] && GivenUp(mapInfo, vvNew[b], v, now)
      ensures r == 0 || r == 1
      ensures r == 0 ==> FirstTerrible(mapInfo, vvNew[b], v, now)
      ensures r == 1 ==> NoneTerrible(mapInfo, vvNew[b], now)
      ensures r == 1 ==> |picks| == 4 && IsOldestPick(mapInfo, vvNew[b], picks, v)
    {
      r, picks := 0, [];
      v := FindTerrible(b, now);
      if v == NO_ENTRY {
        assert |vvNew[b]| > 0;
        var n := RollPicks(|vvNew[b]|);
        v := PickOldest(b, n);
        OldestInBucket(mapInfo, vvNew[b], n, v);
        r, picks := 1, n;
      }
    }

    /** Four random numbers. */
    method RollPicks(size: nat) returns (n: seq<nat>)
      requires size > 0
      ensures |n| == 4 && forall i :: 0 <= i < 4 ==> n[i] < size
    {
      var n0: nat :| n0 < size;
      var n1: nat :| n1 < size;
      var n2: nat :| n2 < size;
      var n3: nat :| n3 < size;
      n := [n0, n1, n2, n3];
    }

    /** Takes `id` out of every new bucket, counting the reference count down. */
    method EraseFromNew(id: int)
      requires id in mapInfo
      modifies this
      ensures |vvNew| == |old(vvNew)| && forall b :: 0 <= b < |vvNew| ==> vvNew[b] == old(vvNew)[b] - {id}
      ensures mapInfo == old(mapInfo)[id := old(mapInfo)[id].(
        refCount := old(mapInfo)[id].refCount - HolderCount(old(vvNew), id))]
      ensures View() == old(View()).(mapInfo := mapInfo, vvNew := vvNew)
    {
      ghost var buckets, info := vvNew, mapInfo[id];
      assert Holders(buckets, id, 0) == {};
      for n := 0 to |vvNew|
        invariant |vvNew| == |buckets|
        invariant forall b :: 0 <= b < n ==> vvNew[b] == buckets[b] - {id}
        invariant forall b :: n <= b < |vvNew| ==> vvNew[b] == buckets[b]
        invariant id in mapInfo && mapInfo[id] == info.(refCount := info.refCount - |Holders(buckets, id, n)|)
        invariant mapInfo == old(mapInfo)[id := mapInfo[id]]
        invariant View() == old(View()).(mapInfo := mapInfo, vvNew := vvNew)
      {
        HoldersStep(buckets, id, n);
        if id in vvNew[n] {
          vvNew := vvNew[n := vvNew[n] - {id}];
          mapInfo := mapInfo[id := mapInfo[id].(refCount := mapInfo[id].refCount - 1)];
        } else {
          assert vvNew[n] == buckets[n] - {id};
        }
      }
    }

    /** A full tried bucket `k` gives one entry back to the new table in exchange for `id`. */
    method Exchange(k: int, id: int, origin: int) returns (ghost victim: int, ghost u: int)
      requires 0 <= k < |vvTried| && vvTried[k] != [] && id in mapInfo
      requires |vvNew| == NEW_BUCKET_COUNT && 0 <= origin < |vvNew|
      requires forall x :: x in vvTried[k] ==> x in mapInfo && x != NO_ENTRY && x != id
      modifies this
      ensures victim in old(vvTried[k]) && victim in old(mapInfo)
      ensures u == var wanted := NewBucket(net, nKey, old(mapInfo)[victim].service, old(mapInfo)[victim].source);
                   if |old(vvNew)[wanted]| < NEW_BUCKET_SIZE then wanted else origin
      ensures |vvTried| == |old(vvTried)| && Replaced(old(mapInfo), old(vvTried[k]), id, victim, vvTried[k])
      ensures View() == ExchangedTables(old(View()), k, id, victim, u, vvTried[k])
    {
      ghost var t := View();
      var pos, spots := PickTried(k);
      var v := vvTried[k][pos];
      assert ReplacedAt(t.mapInfo, t.vvTried[k], spots, pos, id, v, vvTried[k][pos := id]);
      u := Demote(v, origin);
      vvTried := vvTried[k := vvTried[k][pos := id]];
      mapInfo := mapInfo[id := mapInfo[id].(inTried := true)];
      victim := v;
    }

    /** Makes a tried entry a new one, in its own bucket or, if that is full, in `origin`. */
    method Demote(v: int, origin: int) returns (u: int)
      requires v in mapInfo && |vvNew| == NEW_BUCKET_COUNT && 0 <= origin < |vvNew|
      modifies this
      ensures u == var wanted := NewBucket(net, nKey, old(mapInfo)[v].service, old(mapInfo)[v].source);
                   if |old(vvNew)[wanted]| < NEW_BUCKET_SIZE then wanted else origin
      ensures View() == old(View()).(mapInfo := old(mapInfo)[v := DemotedInfo(old(mapInfo)[v])],
                                     vvNew := old(vvNew)[u := old(vvNew)[u] + {v}],
                                     nNew := old(nNew) + 1)
    {
      var wanted := NewBucket(net, nKey, mapInfo[v].service, mapInfo[v].source);
      mapInfo := mapInfo[v := mapInfo[v].(inTried := false, refCount := 1)];
      u := if |vvNew[wanted]| < NEW_BUCKET_SIZE then wanted else origin;
      vvNew := vvNew[u := vvNew[u] + {v}];
      nNew := nNew + 1;
    }

    /** Moves a new entry to the tried table; a full tried bucket gives one entry back. */
    method MakeTried(id: int, origin: int) returns (ghost victim: int, ghost u: int)
      requires CanPromote(net, View(), id, origin)
      modifies this
      ensures Promoted(net, old(View()), id, origin, victim, u, View())
      ensures Inv(net, View(), NO_ENTRY)
    {
      ghost var t := View();
      assert RefCountOk(t, id, NO_ENTRY);
      EraseFromNew(id);
      nNew := nNew - 1;
      assert mapInfo[id].refCount == 0;
      ghost var e := View();
      var k := TriedBucket(net, nKey, mapInfo[id].service);
      if |vvTried[k]| < TRIED_BUCKET_SIZE {
        vvTried := vvTried[k := vvTried[k] + [id]];
        nTried := nTried + 1;
        mapInfo := mapInfo[id := mapInfo[id].(inTried := true)];
        victim, u := NO_ENTRY, origin;
        RoomPromoted(net, t, id, origin, e, View());
      } else {
        TriedBucketFacts(net, t, k, id);
        victim, u := Exchange(k, id, origin);
        ExchangePromoted(net, t, id, origin, e, k, victim, u, View());
      }
      PromotedKeeps(net, t, id, origin, victim, u, View());
    }

    /** Finds a new bucket that holds `id`, starting from a random one. */
    method FindNewBucket(id: int) returns (u: int)
      requires |vvNew| > 0
      ensures u == -1 <==> forall b :: 0 <= b < |vvNew| ==> id !in vvNew[b]
      ensures u != -1 ==> 0 <= u < |vvNew| && id in vvNew[u]
    {
      var start :| 0 <= start < |vvNew|;
      u := -1;
      for n := 0 to |vvNew|
        invariant forall m :: 0 <= m < n ==> id !in vvNew[Rotated(m, start, |vvNew|)]
      {
        var b := Rotated(n, start, |vvNew|);
        if id in vvNew[b] {
          return b;
        }
      }
      forall b | 0 <= b < |vvNew|
        ensures id !in vvNew[b]
      {
        var m := RotatedIndex(b, start, |vvNew|);
        assert id !in vvNew[Rotated(m, start, |vvNew|)];
      }
    }

    /** Records the success time of a known address and port; NO_ENTRY for any other. */
    method Touch(addr: Service, time: int) returns (id: int)
      requires Inv(net, View(), NO_ENTRY)
      modifies this
      ensures id == NO_ENTRY <==> !Matches(old(View()), addr)
      ensures id == NO_ENTRY ==> View() == old(View())
      ensures id != NO_ENTRY ==> id == old(mapAddr)[addr.net]
      ensures id != NO_ENTRY ==> View() == SetInfo(old(View()), id, Succeeded(old(mapInfo)[id], time))
    {
      var found;
      found, id := Find(addr.net);
      if !found {
        return NO_ENTRY;
      }
      var info := mapInfo[id];
      if info.service != addr {
        return NO_ENTRY;
      }
      mapInfo := mapInfo[id := info.(lastSuccess := time, lastTry := time, time := ToUint32(time), attempts := 0)];
    }

    /** A connection to `addr` succeeded. */
    method Good(addr: Service, time: int)
      requires Inv(net, View(), NO_ENTRY)
      modifies this
      ensures GoodOutcome(net, old(View()), addr, time, View())
      ensures Inv(net, View(), NO_ENTRY)
      ensures old(TimesOk(mapInfo)) ==> (TimesOk(mapInfo) <==> time > 0 || !Matches(old(View()), addr))
      ensures old(CheckOk(View())) ==> (CheckOk(View()) <==> time > 0 || !Matches(old(View()), addr))
    {
      ghost var t0 := View();
      var id := Touch(addr, time);
      if id != NO_ENTRY && !mapInfo[id].inTried {
        ghost var t := View();
        SucceededKeeps(net, t0, id, time);
        NewEntryHasBucket(net, t, id);
        var origin := FindNewBucket(id);
        ghost var victim, u := MakeTried(id, origin);
        assert PromotedFrom(net, t, id, origin, victim, u, View());
      }
      GoodKeeps(net, t0, addr, time, View());
      GoodTimes(net, t0, addr, time, View());
      GoodChecks(net, t0, addr, time, View());
    }

    /** Puts `id` into one more new bucket, counting the reference first. */
    method Place(id: int, b: int, now: int)
      requires id in mapInfo && !mapInfo[id].inTried && Inv(net, Raised(View(), id), id)
      requires 0 <= b < |vvNew| && id !in vvNew[b]
      modifies this
      ensures Placed(Raised(old(View()), id), b, id, now, View())
    {
      mapInfo := mapInfo[id := mapInfo[id].(refCount := mapInfo[id].refCount + 1)];
      InsertInto(id, b, now);
    }

    /** Inserts `id`, making room first if the bucket is full. */
    method InsertInto(id: int, b: int, now: int)
      requires Inv(net, View(), id) && 0 <= b < |vvNew| && id !in vvNew[b]
      modifies this
      ensures Placed(old(View()), b, id, now, View())
    {
      if |vvNew[b]| == NEW_BUCKET_SIZE {
        ghost var t := View();
        ghost var r, victim, picks := ShrinkNew(b, now, id);
        vvNew := vvNew[b := vvNew[b] + {id}];
        assert PlacedEvicting(t, b, id, now, victim, View());
      } else {
        vvNew := vvNew[b := vvNew[b] + {id}];
      }
    }

    /** Updates a known entry from an announcement. */
    method Refresh(id: int, addr: Address, penalty: int, now: int)
      requires id in mapInfo
      modifies this
      ensures View() == SetInfo(old(View()), id, Refreshed(old(mapInfo)[id], addr, penalty, now))
    {
      var online := now - addr.time < 24 * 60 * 60;
      var interval := if online then 60 * 60 else 24 * 60 * 60;
      var info := mapInfo[id];
      if addr.time != 0 && (info.time == 0 || info.time < addr.time - interval - penalty) {
        info := info.(time := ToUint32(Max(0, addr.time - penalty)));
      }
      info := info.(services := info.services + addr.services);
      mapInfo := mapInfo[id := info];
    }

    /** Whether an announcement gives a known entry another bucket: each reference it has halves the chance. */
    method MayPlace(info: Info, addr: Address, roll: nat) returns (place: bool)
      requires info.refCount >= 0
      ensures place <==> !Declined(info, addr) && roll % Odds(info.refCount) == 0
    {
      if addr.time == 0 || (info.time != 0 && addr.time <= info.time) {
        return false;
      }
      if info.inTried {
        return false;
      }
      if info.refCount == NEW_BUCKETS_PER_ADDRESS {
        return false;
      }
      var factor := 1;
      for n := 0 to info.refCount
        invariant factor == Odds(n)
      {
        factor := factor * 2;
      }
      if factor > 1 && roll % factor != 0 {
        return false;
      }
      place := true;
    }

    method AddKnown(id: int, addr: Address, source: NetAddr, penalty: int, now: int)
      requires Inv(net, View(), NO_ENTRY) && id in mapInfo
      modifies this
      ensures KnownOutcome(net, old(View()), id, addr, source, penalty, now, View())
    {
      ghost var t0 := View();
      assert RefCountOk(t0, id, NO_ENTRY);
      Refresh(id, addr, penalty, now);
      var roll: nat :| true;
      var place := MayPlace(mapInfo[id], addr, roll);
      if place {
        RefreshedKeeps(net, t0, id, addr, penalty, now);
        var b := NewBucket(net, nKey, mapInfo[id].service, source);
        if id !in vvNew[b] {
          RaisedKeeps(net, View(), id);
          Place(id, b, now);
        }
      }
    }

    method AddUnknown(addr: Address, source: NetAddr, penalty: int, now: int)
      requires Inv(net, View(), NO_ENTRY) && addr.service.net !in mapAddr
      modifies this
      ensures UnknownOutcome(net, old(View()), addr, source, penalty, now, View())
    {
      ghost var t0 := View();
      ghost var info := Announced(addr, source, penalty);
      var id := Create(addr, source);
      mapInfo := mapInfo[id := mapInfo[id].(time := ToUint32(Max(0, mapInfo[id].time - penalty)))];
      nNew := nNew + 1;
      assert mapInfo[id] == info.(randomPos := |t0.vRandom|);
      assert Raised(View(), id).mapInfo == Entered(t0, info).mapInfo;
      assert Raised(View(), id) == Entered(t0, info);
      EnteredKeeps(net, t0, info);
      UnusedIdNowhere(t0);
      var b := NewBucket(net, nKey, mapInfo[id].service, source);
      Place(id, b, now);
    }

    /** An address was announced by `source`. */
    method Add(addr: Address, source: NetAddr, penalty: int, now: int) returns (isNew: bool)
      requires Inv(net, View(), NO_ENTRY)
      modifies this
      ensures AddOutcome(net, old(View()), addr, source, penalty, now, View())
      ensures isNew <==> net.routable(addr.service.net) && !Known(old(View()), addr.service.net)
      ensures Inv(net, View(), NO_ENTRY)
      ensures old(TimesOk(mapInfo)) ==> TimesOk(mapInfo)
    {
      isNew := false;
      if !net.routable(addr.service.net) {
        return;
      }
      ghost var t0 := View();
      var found, id := Find(addr.service.net);
      if found {
        AddKnown(id, addr, source, penalty, now);
        KnownKeeps(net, t0, id, addr, source, penalty, now, View());
      } else {
        AddUnknown(addr, source, penalty, now);
        UnknownKeeps(net, t0, addr, source, penalty, now, View());
        isNew := true;
      }
    }

    /** A connection to `addr` was attempted. */
    method Attempt(addr: Service, time: int)
      requires Inv(net, View(), NO_ENTRY)
      modifies this
      ensures View() == AttemptedTables(old(View()), addr, time)
      ensures Inv(net, View(), NO_ENTRY)
      ensures old(TimesOk(mapInfo)) ==> (TimesOk(mapInfo) <==> time >= 0 || !Matches(old(View()), addr))
      ensures old(CheckOk(View())) ==> (CheckOk(View()) <==> time >= 0 || !Matches(old(View()), addr))
    {
      AttemptKeeps(net, View(), addr, time);
      AttemptChecks(net, View(), addr, time);
      MarkAttempt(addr, time);
    }

    method MarkAttempt(addr: Service, time: int)
      modifies this
      ensures View() == AttemptedTables(old(View()), addr, time)
    {
      var found, id := Find(addr.net);
      if !found {
        return;
      }
      var info := mapInfo[id];
      if info.service != addr {
        return;
      }
      mapInfo := mapInfo[id := info.(lastTry := time, attempts := info.attempts + 1)];
    }

    /** A peer at `addr` is connected. */
    method Connected(addr: Service, time: int)
      requires Inv(net, View(), NO_ENTRY)
      modifies this
      ensures View() == ConnectedTables(old(View()), addr, time)
      ensures Inv(net, View(), NO_ENTRY)
      ensures old(TimesOk(mapInfo)) ==> TimesOk(mapInfo)
    {
      ConnectedKeeps(net, View(), addr, time);
      var found, id := Find(addr.net);
      if !found {
        return;
      }
      var info := mapInfo[id];
      if info.service != addr {
        return;
      }
      if time - info.time > 20 * 60 {
        mapInfo := mapInfo[id := info.(time := ToUint32(time))];
      } else {
        assert mapInfo == mapInfo[id := info];
      }
    }

    /** Swaps a random later entry to place `n` of `vRandom` and returns its address. */
    method SampleOne(n: nat) returns (a: Address, ghost p: nat)
      requires RandomOk(View()) && n < |vRandom|
      modifies this
      ensures n <= p < |old(vRandom)| && View() == Swapped(old(View()), n, p)
      ensures SwappedOnce(old(View()), n, p, View())
      ensures n < |vRandom| && vRandom[n] in mapInfo && a == mapInfo[vRandom[n]].ToAddress()
    {
      var r :| n <= r < |vRandom|;
      p := r;
      SwapShape(View(), n, r);
      SwapRandom(n, r);
      a := mapInfo[vRandom[n]].ToAddress();
    }

    /** Brings a random sample of the entries to the front of `vRandom` and returns their addresses. */
    method GetAddr() returns (vAddr: seq<Address>)
      requires Inv(net, View(), NO_ENTRY)
      modifies this
      ensures |vAddr| == SampleSize(|old(vRandom)|)
      ensures GetAddrOutcome(old(View()), View())
      ensures Reordered(old(View()), View()) && |vAddr| <= |vRandom|
      ensures forall i :: 0 <= i < |vAddr| ==> SampledAt(View(), vAddr, i)
      ensures Inv(net, View(), NO_ENTRY)
      ensures old(TimesOk(mapInfo)) ==> TimesOk(mapInfo)
    {
      ghost var t0 := View();
      var nodes := GETADDR_MAX_PCT * |vRandom| / 100;
      if nodes > GETADDR_MAX {
        nodes := GETADDR_MAX;
      }
      vAddr := [];
      ghost var spots := [];
      for n := 0 to nodes
        invariant |spots| == n == |vAddr| && Shuffled(t0, spots, View())
        invariant forall i :: 0 <= i < n ==> SampledAt(View(), vAddr, i)
      {
        ghost var t := View();
        ShuffledReorders(t0, spots, t);
        var a, p := SampleOne(n);
        ShuffledMore(t0, spots, t, p, View());
        spots := spots + [p];
        SampleGrows(t, n, p, vAddr, a);
        vAddr := vAddr + [a];
      }
      ShuffledReorders(t0, spots, View());
      ReorderedKeeps(net, t0, View());
    }

    // ----- the consistency check -----

    method CheckEntry(id: int) returns (err: int)
      requires id in mapInfo
      modifies this`mapAddr
      ensures err == EntryCode(old(View()), id)
      ensures SameAnswers(mapAddr, old(mapAddr))
      ensures mapInfo[id].service.net in old(mapAddr) ==> mapAddr == old(mapAddr)
    {
      var info := mapInfo[id];
      err := 0;
      if info.inTried {
        if info.lastSuccess == 0 { return -1; }
        if info.refCount != 0 { return -2; }
      } else {
        if info.refCount < 0 || info.refCount > NEW_BUCKETS_PER_ADDRESS { return -3; }
        if info.refCount == 0 { return -4; }
      }
      if info.service.net !in mapAddr {
        mapAddr := mapAddr[info.service.net := 0];
      }
      if mapAddr[info.service.net] != id { return -5; }
      if info.randomPos < 0 || info.randomPos >= |vRandom| || vRandom[info.randomPos] != id { return -14; }
      if info.lastTry < 0 { return -6; }
      if info.lastSuccess < 0 { return -8; }
    }

    method CheckEntries() returns (err: int, setTried: set<int>, mapNew: map<int, int>)
      modifies this`mapAddr
      ensures err == 0 <==> AllEntriesOk(old(View()))
      ensures err != 0 ==> exists id :: FirstBad(old(View()), id) && err == EntryCode(old(View()), id)
      ensures err == 0 ==> setTried == TriedIds(mapInfo) && mapNew == RefCounts(mapInfo)
      ensures Complete(old(View())) ==> mapAddr == old(mapAddr)
    {
      setTried, mapNew, err := {}, map[], 0;
      var ids := Ascending(mapInfo.Keys);
      ghost var t := View();
      AmongNone(mapInfo, ids);
      for i := 0 to |ids|
        invariant mapAddr == t.mapAddr || !Complete(t)
        invariant EntriesSeen(t, mapAddr, ids, i, setTried, mapNew)
      {
        err, setTried, mapNew := CheckNext(t, ids, i, setTried, mapNew);
        if err != 0 {
          return;
        }
      }
      AmongAll(mapInfo, ids);
      EntriesAll(t, ids);
    }

    /** Checks the next entry and enters it in the set or in the map. */
    method CheckNext(ghost t: Tables, ids: seq<int>, i: nat, tried: set<int>, counts: map<int, int>)
      returns (err: int, setTried: set<int>, mapNew: map<int, int>)
      requires i < |ids| && Lists(ids, mapInfo.Keys) && View() == t.(mapAddr := mapAddr)
      requires mapAddr == t.mapAddr || !Complete(t)
      requires EntriesSeen(t, mapAddr, ids, i, tried, counts)
      modifies this`mapAddr
      ensures mapAddr == t.mapAddr || !Complete(t)
      ensures err == 0 ==> EntriesSeen(t, mapAddr, ids, i + 1, setTried, mapNew)
      ensures err != 0 ==> !AllEntriesOk(t) && exists id :: FirstBad(t, id) && err == EntryCode(t, id)
    {
      setTried, mapNew := tried, counts;
      var id := ids[i];
      assert id in ids;
      SameLookups(t, mapAddr, id);
      err := CheckEntry(id);
      if err != 0 {
        EntriesFail(t, ids, i);
        return;
      }
      AmongStep(mapInfo, ids, i);
      EntriesStep(t, ids, i);
      if mapInfo[id].inTried {
        setTried := setTried + {id};
      } else {
        mapNew := mapNew[id := mapInfo[id].refCount];
      }
    }

    method CheckTried(setTried: set<int>) returns (err: int, left: set<int>)
      ensures err == if TriedWithin(vvTried, setTried) then 0 else -11
      ensures err == 0 && left == {} <==> TriedListed(vvTried, setTried)
    {
      left, err := setTried, 0;
      for b := 0 to |vvTried|
        invariant multiset(Flatten(vvTried[..b])) + multiset(left) == multiset(setTried)
      {
        for i := 0 to |vvTried[b]|
          invariant multiset(Flatten(vvTried[..b]) + vvTried[b][..i]) + multiset(left) == multiset(setTried)
        {
          var id := vvTried[b][i];
          SeenNext(vvTried, b, i, setTried, left);
          if id !in left {
            return -11, left;
          }
          left := left - {id};
        }
        SeenBucket(vvTried, b);
      }
      assert vvTried[..|vvTried|] == vvTried;
      assert left != {} ==> multiset(left) != multiset{};
    }

    method CheckNewBucket(b: nat, counts: map<int, int>, left0: map<int, int>) returns (err: int, left: map<int, int>)
      requires b < |vvNew| && CountedSoFar(vvNew, counts, left0, b, {})
      ensures err == 0 || err == -12
      ensures err != 0 ==> !NewWithin(vvNew, counts)
      ensures err == 0 ==> CountedSoFar(vvNew, counts, left, b + 1, {})
    {
      left, err := left0, 0;
      var ids := Ascending(vvNew[b]);
      ghost var done := {};
      for i := 0 to |ids|
        invariant done == Elements(ids[..i])
        invariant CountedSoFar(vvNew, counts, left, b, done)
      {
        assert ids[i] in ids;
        PrefixStep(ids, i);
        err, left := CountDown(b, counts, left, done, ids[i]);
        if err != 0 {
          return;
        }
        done := done + {ids[i]};
      }
      assert ids[..|ids|] == ids;
      assert done == vvNew[b];
      CountBucket(vvNew, counts, left, b);
    }

    /** Counts one member of bucket `b` down. */
    method CountDown(b: nat, counts: map<int, int>, left0: map<int, int>, ghost done: set<int>, id: int)
      returns (err: int, left: map<int, int>)
      requires b < |vvNew| && CountedSoFar(vvNew, counts, left0, b, done) && id in vvNew[b] && id !in done
      ensures err == 0 || err == -12
      ensures err != 0 ==> !NewWithin(vvNew, counts)
      ensures err == 0 ==> CountedSoFar(vvNew, counts, left, b, done + {id})
    {
      left, err := left0, 0;
      if id !in left {
        MissingCount(vvNew, counts, left, b, done, id);
        return -12, left;
      }
      CountOne(vvNew, counts, left, b, done, id);
      left := if left[id] - 1 == 0 then left - {id} else left[id := left[id] - 1];
    }

    method CheckNew(counts: map<int, int>) returns (err: int, left: map<int, int>)
      requires forall id :: id in counts ==> counts[id] >= 1
      ensures err == if NewWithin(vvNew, counts) then 0 else -12
      ensures err == 0 && left == map[] <==> NewListed(vvNew, counts)
    {
      left, err := counts, 0;
      CountNone(vvNew, counts);
      for b := 0 to |vvNew|
        invariant CountedSoFar(vvNew, counts, left, b, {})
      {
        err, left := CheckNewBucket(b, counts, left);
        if err != 0 {
          return;
        }
      }
      CountAll(vvNew, counts, left);
    }

    /** The original's own consistency check; 0 means that nothing is wrong. */
    method Check() returns (err: int)
      modifies this`mapAddr
      ensures IsCheckCode(old(View()), err)
      ensures err == 0 <==> CheckOk(old(View()))
      ensures Complete(old(View())) ==> mapAddr == old(mapAddr)
    {
      if |vRandom| != nTried + nNew { return -7; }
      var setTried, mapNew;
      err, setTried, mapNew := CheckEntries();
      if err != 0 { return; }
      RefCountsFacts(old(View()));
      if |setTried| != nTried { return -9; }
      if |mapNew| != nNew { return -10; }
      var leftTried, leftNew;
      err, leftTried := CheckTried(setTried);
      if err != 0 { return; }
      err, leftNew := CheckNew(mapNew);
      if err != 0 { return; }
      if |leftTried| != 0 { return -13; }
      if |leftNew| != 0 { return -15; }
    }
  }
}
