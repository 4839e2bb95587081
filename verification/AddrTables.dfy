/**
 The tables of the peer address manager and the invariant that ties them together.

 `Tables` is a snapshot of the fields of `AddrMan`. The invariant is split so that each table is
 related to `mapInfo` by one predicate; the `pending` argument of the bucket part names the entry
 whose reference count has been raised ahead of its insertion into a bucket (-1 for none).
 */
module AddrTables {
  import opened Collections

  const TRIED_BUCKET_COUNT := 64
  const TRIED_BUCKET_SIZE := 64
  const NEW_BUCKET_COUNT := 256
  const NEW_BUCKET_SIZE := 64
  const TRIED_BUCKETS_PER_GROUP := 4
  const NEW_BUCKETS_PER_SOURCE_GROUP := 32
  const NEW_BUCKETS_PER_ADDRESS := 4
  const TRIED_ENTRIES_INSPECT_ON_EVICT := 4
  const HORIZON_DAYS := 30
  const RETRIES := 3
  const MAX_FAILURES := 10
  const MIN_FAIL_DAYS := 7
  const GETADDR_MAX_PCT := 23
  const GETADDR_MAX := 2500

  const NO_ENTRY := -1

  type uint32 = x: int | 0 <= x < 0x1_0000_0000

  /** Conversion of a 64-bit signed value to `unsigned int`. */
  function ToUint32(x: int): uint32 { x % 0x1_0000_0000 }

  /** An IP address: its 16 bytes read as one number. */
  datatype NetAddr = NetAddr(ip: nat)

  datatype Service = Service(net: NetAddr, port: nat)

  /** `CAddress` without its transient `nLastTry`; `services` holds the bits set in `nServices`. */
  datatype Address = Address(service: Service, services: set<int>, time: uint32)

  /** `CAddrInfo`. */
  datatype Info = Info(
    service: Service,
    services: set<int>,
    time: uint32,
    lastTry: int,
    source: NetAddr,
    lastSuccess: int,
    attempts: int,
    refCount: int,
    inTried: bool,
    randomPos: int)
  {
    function ToAddress(): Address { Address(service, services, time) }
  }

  /** One item written to a hashing stream. */
  datatype Item = Bytes(bytes: seq<int>) | Number(number: nat)

  /** What the manager needs from the network layer and from the hash function. */
  datatype Network = Network(
    hash: seq<Item> -> nat,
    group: NetAddr -> seq<int>,
    key: Service -> seq<int>,
    routable: NetAddr -> bool)

  function TriedBucket(net: Network, nKey: seq<int>, s: Service): (b: nat)
    ensures b < TRIED_BUCKET_COUNT
  {
    var hash1 := net.hash([Bytes(nKey), Bytes(net.key(s))]);
    var hash2 := net.hash([Bytes(nKey), Bytes(net.group(s.net)), Number(hash1 % TRIED_BUCKETS_PER_GROUP)]);
    hash2 % TRIED_BUCKET_COUNT
  }

  function NewBucket(net: Network, nKey: seq<int>, s: Service, source: NetAddr): (b: nat)
    ensures b < NEW_BUCKET_COUNT
  {
    var hash1 := net.hash([Bytes(nKey), Bytes(net.group(s.net)), Bytes(net.group(source))]);
    var hash2 := net.hash([Bytes(nKey), Bytes(net.group(source)), Number(hash1 % NEW_BUCKETS_PER_SOURCE_GROUP)]);
    hash2 % NEW_BUCKET_COUNT
  }

  predicate IsTerrible(info: Info, now: int) {
    if info.lastTry != 0 && info.lastTry >= now - 60 then false
    else if info.time > now + 10 * 60 then true
    else if info.time == 0 || now - info.time > HORIZON_DAYS * 86400 then true
    else if info.lastSuccess == 0 && info.attempts >= RETRIES then true
    else if now - info.lastSuccess > MIN_FAIL_DAYS * 86400 && info.attempts >= MAX_FAILURES then true
    else false
  }

  function NewInfo(addr: Address, source: NetAddr, pos: int): Info {
    Info(addr.service, addr.services, addr.time, 0, source, 0, 0, 0, false, pos)
  }

  datatype Tables = Tables(
    nKey: seq<int>,
    nIdCount: int,
    mapInfo: map<int, Info>,
    mapAddr: map<NetAddr, int>,
    vRandom: seq<int>,
    nTried: int,
    vvTried: seq<seq<int>>,
    nNew: int,
    vvNew: seq<set<int>>)

  // ----- the invariant -----

  /** `mapAddr` and `mapInfo` are inverse to each other on IP addresses. */
  ghost predicate AddrOk(t: Tables) {
    && (forall id :: id in t.mapInfo ==>
          t.mapInfo[id].service.net in t.mapAddr && t.mapAddr[t.mapInfo[id].service.net] == id)
    && (forall a :: a in t.mapAddr ==>
          t.mapAddr[a] in t.mapInfo && t.mapInfo[t.mapAddr[a]].service.net == a)
  }

  /** `vRandom` and the `randomPos` back-pointers are inverse to each other. */
  ghost predicate RandomOk(t: Tables) {
    && |t.vRandom| == |t.mapInfo|
    && (forall id :: id in t.mapInfo ==>
          0 <= t.mapInfo[id].randomPos < |t.vRandom| && t.vRandom[t.mapInfo[id].randomPos] == id)
    && (forall i :: 0 <= i < |t.vRandom| ==>
          t.vRandom[i] in t.mapInfo && t.mapInfo[t.vRandom[i]].randomPos == i)
  }

  /** The buckets among the first `n` that hold `id`. */
  ghost function Holders(vvNew: seq<set<int>>, id: int, n: nat): (bs: set<int>)
    requires n <= |vvNew|
  {
    set b | 0 <= b < n && id in vvNew[b]
  }

  /** In how many new buckets `id` sits. */
  ghost function HolderCount(vvNew: seq<set<int>>, id: int): nat {
    |Holders(vvNew, id, |vvNew|)|
  }

  ghost predicate RefCountOk(t: Tables, id: int, pending: int)
    requires id in t.mapInfo
  {
    var info := t.mapInfo[id];
    && info.refCount == HolderCount(t.vvNew, id) + (if id == pending then 1 else 0)
    && (if info.inTried then info.refCount == 0 else 1 <= info.refCount <= NEW_BUCKETS_PER_ADDRESS)
  }

  ghost predicate NewBucketsOk(t: Tables) {
    && |t.vvNew| == NEW_BUCKET_COUNT
    && (forall b :: 0 <= b < |t.vvNew| ==> |t.vvNew[b]| <= NEW_BUCKET_SIZE)
    && (forall b, id :: 0 <= b < |t.vvNew| && id in t.vvNew[b] ==> id in t.mapInfo && !t.mapInfo[id].inTried)
  }

  ghost predicate RefCountsOk(t: Tables, pending: int) {
    forall id :: id in t.mapInfo ==> RefCountOk(t, id, pending)
  }

  ghost predicate TriedEntryOk(net: Network, t: Tables, id: int)
    requires id in t.mapInfo
  {
    t.mapInfo[id].inTried ==>
      var b := TriedBucket(net, t.nKey, t.mapInfo[id].service);
      b < |t.vvTried| && id in t.vvTried[b]
  }

  /** Every tried entry sits exactly once in the tried buckets, in the bucket computed for it. */
  ghost predicate TriedBucketsOk(net: Network, t: Tables) {
    && |t.vvTried| == TRIED_BUCKET_COUNT
    && (forall b :: 0 <= b < |t.vvTried| ==> |t.vvTried[b]| <= TRIED_BUCKET_SIZE && Distinct(t.vvTried[b]))
    && (forall b, id :: 0 <= b < |t.vvTried| && id in t.vvTried[b] ==>
          id in t.mapInfo && t.mapInfo[id].inTried && TriedBucket(net, t.nKey, t.mapInfo[id].service) == b)
    && (forall id :: id in t.mapInfo ==> TriedEntryOk(net, t, id))
  }

  ghost function TriedIds(mapInfo: map<int, Info>): set<int> {
    set id | id in mapInfo && mapInfo[id].inTried
  }

  ghost function NewIds(mapInfo: map<int, Info>): set<int> {
    set id | id in mapInfo && !mapInfo[id].inTried
  }

  ghost predicate CountsOk(t: Tables) {
    && t.nTried == |TriedIds(t.mapInfo)|
    && t.nNew == |NewIds(t.mapInfo)|
    && (forall id :: id in t.mapInfo ==> 0 <= id < t.nIdCount)
  }

  /** The structural invariant of the manager. */
  ghost predicate Inv(net: Network, t: Tables, pending: int) {
    && AddrOk(t)
    && RandomOk(t)
    && NewBucketsOk(t)
    && RefCountsOk(t, pending)
    && TriedBucketsOk(net, t)
    && CountsOk(t)
    && 0 <= t.nIdCount
  }

  /** The facts about time stamps: they depend on what callers pass in. */
  ghost predicate TimeOk(info: Info) {
    info.lastTry >= 0 && info.lastSuccess >= 0 && (info.inTried ==> info.lastSuccess != 0)
  }

  ghost predicate TimesOk(mapInfo: map<int, Info>) {
    forall id :: id in mapInfo ==> TimeOk(mapInfo[id])
  }

  /** The entry an address is known under. */
  ghost predicate Known(t: Tables, a: NetAddr) {
    a in t.mapAddr && t.mapAddr[a] in t.mapInfo
  }

  /** The entry for exactly this address and port. */
  ghost predicate Matches(t: Tables, s: Service) {
    Known(t, s.net) && t.mapInfo[t.mapAddr[s.net]].service == s
  }

  // ----- the steps, as functions on tables -----

  ghost function SetInfo(t: Tables, id: int, info: Info): Tables {
    t.(mapInfo := t.mapInfo[id := info])
  }

  /** Exchange two places of `vRandom`, with the back-pointers. */
  ghost function Swapped(t: Tables, i: int, j: int): Tables
    requires 0 <= i < |t.vRandom| && 0 <= j < |t.vRandom|
    requires t.vRandom[i] in t.mapInfo && t.vRandom[j] in t.mapInfo
  {
    if i == j then t
    else
      var id1, id2 := t.vRandom[i], t.vRandom[j];
      t.(mapInfo := t.mapInfo[id1 := t.mapInfo[id1].(randomPos := j)][id2 := t.mapInfo[id2].(randomPos := i)],
         vRandom := t.vRandom[i := id2][j := id1])
  }

  /** What the assertions of the swap ask for when place `pos` is exchanged with the last one. */
  ghost predicate Swappable(t: Tables, pos: int) {
    0 <= pos < |t.vRandom| && t.vRandom[pos] in t.mapInfo && t.vRandom[|t.vRandom| - 1] in t.mapInfo
  }

  /** Delete an entry that no bucket refers to any more. */
  ghost function Removed(t: Tables, id: int): Tables
    requires id in t.mapInfo && Swappable(t, t.mapInfo[id].randomPos)
  {
    var s := Swapped(t, t.mapInfo[id].randomPos, |t.vRandom| - 1);
    s.(vRandom := s.vRandom[..|s.vRandom| - 1],
       mapAddr := s.mapAddr - {t.mapInfo[id].service.net},
       mapInfo := s.mapInfo - {id},
       nNew := s.nNew - 1)
  }

  ghost predicate CanDrop(t: Tables, b: int, id: int) {
    && id in t.mapInfo && 0 <= b < |t.vvNew|
    && (t.mapInfo[id].refCount == 1 ==> Swappable(t, t.mapInfo[id].randomPos))
  }

  /** Take `id` out of new bucket `b`, and delete it if that was its last bucket. */
  ghost function Dropped(t: Tables, b: int, id: int): Tables
    requires CanDrop(t, b, id)
  {
    var s := if t.mapInfo[id].refCount == 1 then Removed(Lowered(t, id), id) else Lowered(t, id);
    s.(vvNew := s.vvNew[b := s.vvNew[b] - {id}])
  }

  ghost function Lowered(t: Tables, id: int): Tables
    requires id in t.mapInfo
  {
    SetInfo(t, id, t.mapInfo[id].(refCount := t.mapInfo[id].refCount - 1))
  }

  // ----- the id sets -----

  lemma IdsAfterSet(m: map<int, Info>, id: int, info: Info)
    ensures TriedIds(m[id := info]) == if info.inTried then TriedIds(m) + {id} else TriedIds(m) - {id}
    ensures NewIds(m[id := info]) == if info.inTried then NewIds(m) - {id} else NewIds(m) + {id}
  {
  }

  lemma IdsSame(m: map<int, Info>, n: map<int, Info>)
    requires m.Keys == n.Keys
    requires forall id :: id in m ==> m[id].inTried == n[id].inTried
    ensures TriedIds(n) == TriedIds(m)
    ensures NewIds(n) == NewIds(m)
  {
    forall x
      ensures x in TriedIds(n) <==> x in TriedIds(m)
      ensures x in NewIds(n) <==> x in NewIds(m)
    {
      assert x in m <==> x in m.Keys;
      assert x in n <==> x in n.Keys;
    }
  }

  lemma SetKeys(m: map<int, Info>, id: int, info: Info)
    ensures m[id := info].Keys == m.Keys + {id}
    ensures |m[id := info]| == if id in m then |m| else |m| + 1
  {
    var n := m[id := info];
    assert n.Keys == m.Keys + {id};
    assert |n| == |n.Keys| && |m| == |m.Keys|;
    assert id in m ==> m.Keys + {id} == m.Keys;
  }

  lemma SetKeepsRandom(t: Tables, id: int, info: Info)
    requires RandomOk(t) && id in t.mapInfo && info.randomPos == t.mapInfo[id].randomPos
    ensures RandomOk(SetInfo(t, id, info))
  {
    SetKeys(t.mapInfo, id, info);
  }

  lemma SetKeepsAddr(t: Tables, id: int, info: Info)
    requires AddrOk(t) && id in t.mapInfo && info.service.net == t.mapInfo[id].service.net
    ensures AddrOk(SetInfo(t, id, info))
  {
  }

  lemma SetKeepsCounts(t: Tables, id: int, info: Info)
    requires CountsOk(t) && id in t.mapInfo && info.inTried == t.mapInfo[id].inTried
    ensures CountsOk(SetInfo(t, id, info))
  {
    SetKeys(t.mapInfo, id, info);
    IdsSame(t.mapInfo, t.mapInfo[id := info]);
  }

  // ----- what the steps keep -----

  /** Same entries except for their places in `vRandom` and their time stamps, same tables. */
  ghost predicate SameShape(t: Tables, s: Tables) {
    && s.mapInfo.Keys == t.mapInfo.Keys
    && (forall id :: id in t.mapInfo ==> SameEntry(t.mapInfo[id], s.mapInfo[id]))
    && s.mapAddr == t.mapAddr
    && s.vvNew == t.vvNew
    && s.vvTried == t.vvTried
    && s.nKey == t.nKey && s.nIdCount == t.nIdCount && s.nNew == t.nNew && s.nTried == t.nTried
  }

  ghost predicate SameEntry(i: Info, j: Info) {
    i.service == j.service && i.source == j.source && i.refCount == j.refCount && i.inTried == j.inTried
  }

  /** The same entry at another place of `vRandom`. */
  ghost predicate Moved(i: Info, j: Info) {
    j == i.(randomPos := j.randomPos)
  }

  lemma ShapeKeepsNew(t: Tables, s: Tables, pending: int)
    requires SameShape(t, s) && NewBucketsOk(t) && RefCountsOk(t, pending)
    ensures NewBucketsOk(s) && RefCountsOk(s, pending)
  {
    forall id | id in s.mapInfo
      ensures RefCountOk(s, id, pending)
    {
      assert id in t.mapInfo.Keys && RefCountOk(t, id, pending);
    }
  }

  lemma ShapeKeepsTried(net: Network, t: Tables, s: Tables)
    requires SameShape(t, s) && TriedBucketsOk(net, t)
    ensures TriedBucketsOk(net, s)
  {
    forall id | id in s.mapInfo
      ensures TriedEntryOk(net, s, id)
    {
      assert id in t.mapInfo.Keys && TriedEntryOk(net, t, id);
    }
  }

  lemma ShapeKeepsCounts(t: Tables, s: Tables)
    requires SameShape(t, s) && AddrOk(t) && CountsOk(t)
    ensures AddrOk(s) && CountsOk(s)
  {
    assert forall id :: id in t.mapInfo ==> SameEntry(t.mapInfo[id], s.mapInfo[id]);
    IdsSame(t.mapInfo, s.mapInfo);
  }

  lemma ShapeKeeps(net: Network, t: Tables, s: Tables, pending: int)
    requires Inv(net, t, pending) && SameShape(t, s) && RandomOk(s)
    ensures Inv(net, s, pending)
  {
    ShapeKeepsNew(t, s, pending);
    ShapeKeepsTried(net, t, s);
    ShapeKeepsCounts(t, s);
  }

  lemma SwapPlace(t: Tables, i: int, j: int, k: int)
    requires RandomOk(t)
    requires 0 <= i < |t.vRandom| && 0 <= j < |t.vRandom| && i != j && 0 <= k < |t.vRandom|
    ensures var s := Swapped(t, i, j); s.vRandom[k] in s.mapInfo && s.mapInfo[s.vRandom[k]].randomPos == k
  {
    assert t.mapInfo[t.vRandom[i]].randomPos == i;
    assert t.mapInfo[t.vRandom[j]].randomPos == j;
    assert t.mapInfo[t.vRandom[k]].randomPos == k;
  }

  lemma SwapEntry(t: Tables, i: int, j: int, id: int)
    requires RandomOk(t)
    requires 0 <= i < |t.vRandom| && 0 <= j < |t.vRandom| && i != j && id in t.mapInfo
    ensures var s := Swapped(t, i, j);
      0 <= s.mapInfo[id].randomPos < |s.vRandom| && s.vRandom[s.mapInfo[id].randomPos] == id
  {
    assert t.vRandom[t.mapInfo[id].randomPos] == id;
  }

  lemma SwapRandomOk(t: Tables, i: int, j: int)
    requires RandomOk(t)
    requires 0 <= i < |t.vRandom| && 0 <= j < |t.vRandom| && i != j
    ensures RandomOk(Swapped(t, i, j))
  {
    var s := Swapped(t, i, j);
    assert s.mapInfo.Keys == t.mapInfo.Keys;
    assert |s.mapInfo| == |s.mapInfo.Keys| == |t.mapInfo.Keys| == |t.mapInfo|;
    forall k | 0 <= k < |s.vRandom|
      ensures s.vRandom[k] in s.mapInfo && s.mapInfo[s.vRandom[k]].randomPos == k
    {
      SwapPlace(t, i, j, k);
    }
    forall id | id in s.mapInfo
      ensures 0 <= s.mapInfo[id].randomPos < |s.vRandom| && s.vRandom[s.mapInfo[id].randomPos] == id
    {
      SwapEntry(t, i, j, id);
    }
  }

  lemma SwapShape(t: Tables, i: int, j: int)
    requires RandomOk(t)
    requires 0 <= i < |t.vRandom| && 0 <= j < |t.vRandom|
    ensures RandomOk(Swapped(t, i, j))
    ensures SameShape(t, Swapped(t, i, j))
    ensures forall id :: id in t.mapInfo ==> Moved(t.mapInfo[id], Swapped(t, i, j).mapInfo[id])
  {
    if i != j {
      SwapRandomOk(t, i, j);
      assert Swapped(t, i, j).mapInfo.Keys == t.mapInfo.Keys;
    }
  }

  lemma SwapKeeps(net: Network, t: Tables, i: int, j: int, pending: int)
    requires Inv(net, t, pending)
    requires 0 <= i < |t.vRandom| && 0 <= j < |t.vRandom|
    ensures Inv(net, Swapped(t, i, j), pending)
  {
    SwapShape(t, i, j);
    ShapeKeeps(net, t, Swapped(t, i, j), pending);
  }

  // ----- counting buckets -----

  lemma HoldersUpdate(vvNew: seq<set<int>>, b: int, bucket: set<int>, x: int)
    requires 0 <= b < |vvNew|
    ensures HolderCount(vvNew[b := bucket], x)
         == HolderCount(vvNew, x) + (if x in bucket then 1 else 0) - (if x in vvNew[b] then 1 else 0)
  {
    var before, after := Holders(vvNew, x, |vvNew|), Holders(vvNew[b := bucket], x, |vvNew|);
    var others := before - {b};
    assert before == if x in vvNew[b] then others + {b} else others;
    assert after == if x in bucket then others + {b} else others;
  }

  // ----- taking an entry out of a new bucket -----

  /** Cutting the last place off, with the entry that sits there. */
  lemma PoppedRandomOk(t: Tables, s: Tables, id: int)
    requires RandomOk(t) && id in t.mapInfo && t.mapInfo[id].randomPos == |t.vRandom| - 1
    requires s.mapInfo == t.mapInfo - {id} && s.vRandom == t.vRandom[..|t.vRandom| - 1]
    ensures RandomOk(s) && s.mapInfo.Keys == t.mapInfo.Keys - {id}
  {
    assert s.mapInfo.Keys == t.mapInfo.Keys - {id};
    assert |s.mapInfo| == |s.mapInfo.Keys| == |t.mapInfo.Keys| - 1 == |t.mapInfo| - 1;
    forall i | 0 <= i < |s.vRandom|
      ensures s.vRandom[i] in s.mapInfo && s.mapInfo[s.vRandom[i]].randomPos == i
    {
      assert t.mapInfo[t.vRandom[i]].randomPos == i;
    }
  }

  lemma SwappedToLast(t: Tables, id: int)
    requires RandomOk(t) && id in t.mapInfo
    ensures var s := Swapped(t, t.mapInfo[id].randomPos, |t.vRandom| - 1);
      id in s.mapInfo && s.mapInfo[id].randomPos == |t.vRandom| - 1 == |s.vRandom| - 1
  {
    assert t.vRandom[t.mapInfo[id].randomPos] == id;
  }

  lemma RemovedRandomOk(t: Tables, id: int)
    requires RandomOk(t) && id in t.mapInfo
    ensures RandomOk(Removed(t, id))
    ensures Removed(t, id).mapInfo.Keys == t.mapInfo.Keys - {id}
    ensures forall x :: x in t.mapInfo && x != id ==> Moved(t.mapInfo[x], Removed(t, id).mapInfo[x])
  {
    SwappedLast(t, id);
    Popped(t, Swapped(t, t.mapInfo[id].randomPos, |t.vRandom| - 1), Removed(t, id), id);
  }

  ghost predicate IsPlace(i: int) { true }

  /** `s` is `t` with `id` in the last place; to be opened at any place. */
  ghost predicate LastPlace(t: Tables, id: int, s: Tables) {
    forall i {:trigger IsPlace(i)} :: IsPlace(i) ==>
      && RandomOk(s) && s.mapInfo.Keys == t.mapInfo.Keys && id in s.mapInfo
      && s.mapInfo[id].randomPos == |s.vRandom| - 1
      && forall x :: x in t.mapInfo ==> Moved(t.mapInfo[x], s.mapInfo[x])
  }

  lemma SwappedLast(t: Tables, id: int)
    requires RandomOk(t) && id in t.mapInfo
    ensures LastPlace(t, id, Swapped(t, t.mapInfo[id].randomPos, |t.vRandom| - 1))
  {
    SwapShape(t, t.mapInfo[id].randomPos, |t.vRandom| - 1);
    SwappedToLast(t, id);
  }

  lemma Popped(t: Tables, s: Tables, r: Tables, id: int)
    requires id in t.mapInfo && LastPlace(t, id, s) && |s.vRandom| > 0
    requires r.mapInfo == s.mapInfo - {id} && r.vRandom == s.vRandom[..|s.vRandom| - 1]
    ensures RandomOk(r) && r.mapInfo.Keys == t.mapInfo.Keys - {id}
    ensures forall x :: x in t.mapInfo && x != id ==> Moved(t.mapInfo[x], r.mapInfo[x])
  {
    assert IsPlace(0);
    PoppedRandomOk(s, r, id);
    forall x | x in t.mapInfo && x != id
      ensures Moved(t.mapInfo[x], r.mapInfo[x])
    {
      assert x in s.mapInfo.Keys;
    }
  }

  /** What `Dropped` leaves of the tables other than `vRandom`. */
  ghost predicate DropShape(t: Tables, b: int, id: int, d: Tables)
    requires id in t.mapInfo && 0 <= b < |t.vvNew|
  {
    && d.vvNew == t.vvNew[b := t.vvNew[b] - {id}]
    && d.vvTried == t.vvTried && d.nKey == t.nKey && d.nIdCount == t.nIdCount && d.nTried == t.nTried
    && (forall x :: x in t.mapInfo && x != id ==> x in d.mapInfo && Moved(t.mapInfo[x], d.mapInfo[x]))
    && var info := t.mapInfo[id];
       if info.refCount == 1 then
         && d.mapInfo.Keys == t.mapInfo.Keys - {id}
         && d.mapAddr == t.mapAddr - {info.service.net}
         && d.nNew == t.nNew - 1
       else
         && d.mapInfo.Keys == t.mapInfo.Keys
         && d.mapInfo[id] == info.(refCount := info.refCount - 1)
         && d.mapAddr == t.mapAddr && d.nNew == t.nNew
  }

  lemma RemovedFields(t: Tables, id: int)
    requires RandomOk(t) && id in t.mapInfo
    ensures var r := Removed(t, id);
      && r.vvNew == t.vvNew && r.vvTried == t.vvTried
      && r.nKey == t.nKey && r.nIdCount == t.nIdCount && r.nTried == t.nTried
      && r.mapAddr == t.mapAddr - {t.mapInfo[id].service.net} && r.nNew == t.nNew - 1
  {
  }

  lemma DroppedRemoves(t: Tables, b: int, id: int)
    requires RandomOk(t) && id in t.mapInfo && 0 <= b < |t.vvNew| && t.mapInfo[id].refCount == 1
    ensures RandomOk(Dropped(t, b, id))
    ensures DropShape(t, b, id, Dropped(t, b, id))
  {
    var low := Lowered(t, id);
    SetKeepsRandom(t, id, Lowered(t, id).mapInfo[id]);
    RemovedRandomOk(low, id);
    RemovedFields(low, id);
    var r := Removed(low, id);
    var d := Dropped(t, b, id);
    assert d == r.(vvNew := t.vvNew[b := t.vvNew[b] - {id}]);
    assert low.mapInfo.Keys == t.mapInfo.Keys;
    forall x | x in t.mapInfo && x != id
      ensures x in d.mapInfo && Moved(t.mapInfo[x], d.mapInfo[x])
    {
      assert Moved(low.mapInfo[x], r.mapInfo[x]);
    }
  }

  lemma DroppedShape(t: Tables, b: int, id: int)
    requires RandomOk(t) && id in t.mapInfo && 0 <= b < |t.vvNew|
    ensures RandomOk(Dropped(t, b, id))
    ensures DropShape(t, b, id, Dropped(t, b, id))
  {
    if t.mapInfo[id].refCount == 1 {
      DroppedRemoves(t, b, id);
    } else {
      SetKeepsRandom(t, id, Lowered(t, id).mapInfo[id]);
      assert Lowered(t, id).mapInfo.Keys == t.mapInfo.Keys;
    }
  }

  lemma DropKeepsRefCounts(t: Tables, b: int, id: int, d: Tables, pending: int)
    requires RefCountsOk(t, pending)
    requires id in t.mapInfo && 0 <= b < |t.vvNew| && id in t.vvNew[b] && id != pending && !t.mapInfo[id].inTried
    requires DropShape(t, b, id, d)
    ensures RefCountsOk(d, pending)
  {
    forall x | x in d.mapInfo
      ensures RefCountOk(d, x, pending)
    {
      HoldersUpdate(t.vvNew, b, t.vvNew[b] - {id}, x);
      assert RefCountOk(t, x, pending);
    }
  }

  lemma OnlyHolder(t: Tables, b: int, c: int, id: int, pending: int)
    requires id in t.mapInfo && RefCountOk(t, id, pending) && t.mapInfo[id].refCount == 1
    requires 0 <= b < |t.vvNew| && 0 <= c < |t.vvNew| && id in t.vvNew[b] && id in t.vvNew[c]
    ensures b == c
  {
    var holders := Holders(t.vvNew, id, |t.vvNew|);
    assert b in holders && c in holders;
    assert |holders - {b}| == |holders| - 1 == 0 || id == pending;
    assert |holders| >= 1;
    assert holders - {b} == {};
  }

  lemma DropKeepsNewBuckets(t: Tables, b: int, id: int, d: Tables, pending: int)
    requires NewBucketsOk(t) && RefCountsOk(t, pending)
    requires 0 <= b < |t.vvNew| && id in t.vvNew[b] && id != pending
    requires DropShape(t, b, id, d)
    ensures NewBucketsOk(d)
  {
    forall c, x | 0 <= c < |d.vvNew| && x in d.vvNew[c]
      ensures x in d.mapInfo && !d.mapInfo[x].inTried
    {
      assert x in t.vvNew[c] && x in t.mapInfo;
      if x == id && t.mapInfo[id].refCount == 1 {
        assert RefCountOk(t, id, pending);
        OnlyHolder(t, b, c, id, pending);
      }
    }
  }

  lemma DropKeepsAddr(t: Tables, b: int, id: int, d: Tables)
    requires AddrOk(t) && id in t.mapInfo && 0 <= b < |t.vvNew| && DropShape(t, b, id, d)
    ensures AddrOk(d)
  {
    forall x | x in d.mapInfo
      ensures d.mapInfo[x].service.net in d.mapAddr && d.mapAddr[d.mapInfo[x].service.net] == x
    {
      assert x in d.mapInfo.Keys && x in t.mapInfo;
    }
  }

  lemma DropKeepsIds(t: Tables, b: int, id: int, d: Tables, x: int)
    requires id in t.mapInfo && !t.mapInfo[id].inTried && 0 <= b < |t.vvNew| && DropShape(t, b, id, d)
    ensures x in TriedIds(d.mapInfo) <==> x in TriedIds(t.mapInfo)
    ensures x in NewIds(d.mapInfo) <==> x in NewIds(t.mapInfo) && (x != id || t.mapInfo[id].refCount != 1)
  {
    assert x in d.mapInfo <==> x in d.mapInfo.Keys;
  }

  lemma DropKeepsCounts(t: Tables, b: int, id: int, d: Tables)
    requires CountsOk(t) && id in t.mapInfo && !t.mapInfo[id].inTried
    requires 0 <= b < |t.vvNew| && DropShape(t, b, id, d)
    ensures CountsOk(d)
  {
    forall x
      ensures x in TriedIds(d.mapInfo) <==> x in TriedIds(t.mapInfo)
      ensures x in NewIds(d.mapInfo) <==> x in NewIds(t.mapInfo) && (x != id || t.mapInfo[id].refCount != 1)
    {
      DropKeepsIds(t, b, id, d, x);
    }
    assert TriedIds(d.mapInfo) == TriedIds(t.mapInfo);
    assert NewIds(d.mapInfo) == if t.mapInfo[id].refCount == 1 then NewIds(t.mapInfo) - {id} else NewIds(t.mapInfo);
    assert forall x :: x in d.mapInfo ==> x in d.mapInfo.Keys;
  }

  lemma DropKeepsTried(net: Network, t: Tables, b: int, id: int, d: Tables)
    requires TriedBucketsOk(net, t) && id in t.mapInfo && !t.mapInfo[id].inTried
    requires 0 <= b < |t.vvNew| && DropShape(t, b, id, d)
    ensures TriedBucketsOk(net, d)
  {
    forall x | x in d.mapInfo
      ensures TriedEntryOk(net, d, x)
    {
      assert TriedEntryOk(net, t, x);
    }
  }

  /** Eviction from a new bucket keeps the invariant, also while another entry is pending. */
  lemma DropKeeps(net: Network, t: Tables, b: int, id: int, pending: int)
    requires Inv(net, t, pending)
    requires 0 <= b < |t.vvNew| && id in t.vvNew[b] && id != pending
    ensures Inv(net, Dropped(t, b, id), pending)
  {
    var d := Dropped(t, b, id);
    DroppedShape(t, b, id);
    DropKeepsRefCounts(t, b, id, d, pending);
    DropKeepsNewBuckets(t, b, id, d, pending);
    DropKeepsAddr(t, b, id, d);
    DropKeepsCounts(t, b, id, d);
    DropKeepsTried(net, t, b, id, d);
  }

  // ----- a new entry, and one more bucket for a known entry -----

  /** The tables after an unknown address has been entered and its reference count raised to 1. */
  ghost function Entered(t: Tables, info: Info): Tables {
    t.(mapInfo := t.mapInfo[t.nIdCount := info.(refCount := 1, inTried := false, randomPos := |t.vRandom|)],
       mapAddr := t.mapAddr[info.service.net := t.nIdCount],
       vRandom := t.vRandom + [t.nIdCount],
       nIdCount := t.nIdCount + 1,
       nNew := t.nNew + 1)
  }

  lemma UnusedIdHasNoHolder(t: Tables)
    requires NewBucketsOk(t) && CountsOk(t)
    ensures HolderCount(t.vvNew, t.nIdCount) == 0
  {
    assert t.nIdCount !in t.mapInfo;
    assert forall b :: 0 <= b < |t.vvNew| ==> t.nIdCount !in t.vvNew[b];
    assert Holders(t.vvNew, t.nIdCount, |t.vvNew|) == {};
  }

  lemma EnteredRandomOk(t: Tables, info: Info)
    requires RandomOk(t) && CountsOk(t)
    ensures RandomOk(Entered(t, info))
  {
    var s := Entered(t, info);
    assert t.nIdCount !in t.mapInfo;
    SetKeys(t.mapInfo, t.nIdCount, s.mapInfo[t.nIdCount]);
    forall i | 0 <= i < |s.vRandom|
      ensures s.vRandom[i] in s.mapInfo && s.mapInfo[s.vRandom[i]].randomPos == i
    {
      if i < |t.vRandom| {
        assert t.vRandom[i] in t.mapInfo && s.vRandom[i] == t.vRandom[i];
      }
    }
    forall id | id in s.mapInfo
      ensures 0 <= s.mapInfo[id].randomPos < |s.vRandom| && s.vRandom[s.mapInfo[id].randomPos] == id
    {
      if id != t.nIdCount {
        assert t.vRandom[t.mapInfo[id].randomPos] == id;
      }
    }
  }

  lemma EnteredCountsOk(t: Tables, info: Info)
    requires CountsOk(t) && 0 <= t.nIdCount
    ensures CountsOk(Entered(t, info))
  {
    assert t.nIdCount !in t.mapInfo;
    IdsAfterSet(t.mapInfo, t.nIdCount, Entered(t, info).mapInfo[t.nIdCount]);
  }

  lemma EnteredBucketsOk(net: Network, t: Tables, info: Info)
    requires NewBucketsOk(t) && RefCountsOk(t, NO_ENTRY) && CountsOk(t) && TriedBucketsOk(net, t) && 0 <= t.nIdCount
    ensures NewBucketsOk(Entered(t, info)) && RefCountsOk(Entered(t, info), t.nIdCount)
    ensures TriedBucketsOk(net, Entered(t, info))
  {
    var s := Entered(t, info);
    UnusedIdHasNoHolder(t);
    assert t.nIdCount !in t.mapInfo;
    forall id | id in s.mapInfo
      ensures RefCountOk(s, id, t.nIdCount) && TriedEntryOk(net, s, id)
    {
      if id != t.nIdCount {
        assert RefCountOk(t, id, NO_ENTRY) && TriedEntryOk(net, t, id);
      }
    }
  }

  lemma EnteredKeeps(net: Network, t: Tables, info: Info)
    requires Inv(net, t, NO_ENTRY) && info.service.net !in t.mapAddr
    ensures Inv(net, Entered(t, info), t.nIdCount)
  {
    EnteredRandomOk(t, info);
    EnteredCountsOk(t, info);
    EnteredBucketsOk(net, t, info);
    assert AddrOk(Entered(t, info)) by {
      assert t.nIdCount !in t.mapInfo;
    }
  }

  ghost function Raised(t: Tables, id: int): Tables
    requires id in t.mapInfo
  {
    SetInfo(t, id, t.mapInfo[id].(refCount := t.mapInfo[id].refCount + 1))
  }

  lemma RaisedKeeps(net: Network, t: Tables, id: int)
    requires Inv(net, t, NO_ENTRY) && id in t.mapInfo
    requires !t.mapInfo[id].inTried && t.mapInfo[id].refCount < NEW_BUCKETS_PER_ADDRESS
    ensures Inv(net, Raised(t, id), id)
  {
    var s := Raised(t, id);
    SetKeepsRandom(t, id, s.mapInfo[id]);
    SetKeepsAddr(t, id, s.mapInfo[id]);
    SetKeepsCounts(t, id, s.mapInfo[id]);
    RaisedBuckets(net, t, id);
  }

  lemma RaisedBuckets(net: Network, t: Tables, id: int)
    requires NewBucketsOk(t) && RefCountsOk(t, NO_ENTRY) && TriedBucketsOk(net, t) && NO_ENTRY !in t.mapInfo
    requires id in t.mapInfo && !t.mapInfo[id].inTried && t.mapInfo[id].refCount < NEW_BUCKETS_PER_ADDRESS
    ensures var s := Raised(t, id); NewBucketsOk(s) && RefCountsOk(s, id) && TriedBucketsOk(net, s)
  {
    var s := Raised(t, id);
    forall x | x in s.mapInfo
      ensures RefCountOk(s, x, id) && TriedEntryOk(net, s, x)
    {
      assert RefCountOk(t, x, NO_ENTRY) && TriedEntryOk(net, t, x);
    }
  }

  ghost function Inserted(t: Tables, b: int, id: int): Tables
    requires 0 <= b < |t.vvNew|
  {
    t.(vvNew := t.vvNew[b := t.vvNew[b] + {id}])
  }

  lemma InsertedRefCounts(t: Tables, b: int, id: int)
    requires RefCountsOk(t, id) && CountsOk(t) && 0 <= b < |t.vvNew| && id !in t.vvNew[b]
    ensures RefCountsOk(Inserted(t, b, id), NO_ENTRY)
  {
    var s := Inserted(t, b, id);
    forall x | x in s.mapInfo
      ensures RefCountOk(s, x, NO_ENTRY)
    {
      HoldersUpdate(t.vvNew, b, t.vvNew[b] + {id}, x);
      assert RefCountOk(t, x, id);
    }
  }

  lemma InsertedNewBuckets(t: Tables, b: int, id: int)
    requires NewBucketsOk(t) && id in t.mapInfo && !t.mapInfo[id].inTried
    requires 0 <= b < |t.vvNew| && |t.vvNew[b]| < NEW_BUCKET_SIZE
    ensures NewBucketsOk(Inserted(t, b, id))
  {
  }

  /** Putting the pending entry into a bucket restores the full invariant. */
  lemma InsertedKeeps(net: Network, t: Tables, b: int, id: int)
    requires Inv(net, t, id) && id in t.mapInfo && !t.mapInfo[id].inTried
    requires 0 <= b < |t.vvNew| && id !in t.vvNew[b] && |t.vvNew[b]| < NEW_BUCKET_SIZE
    ensures Inv(net, Inserted(t, b, id), NO_ENTRY)
  {
    var s := Inserted(t, b, id);
    InsertedRefCounts(t, b, id);
    InsertedNewBuckets(t, b, id);
    forall x | x in s.mapInfo
      ensures TriedEntryOk(net, s, x)
    {
      assert TriedEntryOk(net, t, x);
    }
  }

  /** Eviction leaves the time stamps of the remaining entries alone. */
  lemma DropKeepsTimes(t: Tables, b: int, id: int)
    requires RandomOk(t) && id in t.mapInfo && 0 <= b < |t.vvNew| && TimesOk(t.mapInfo)
    ensures TimesOk(Dropped(t, b, id).mapInfo)
  {
    var d := Dropped(t, b, id);
    DroppedShape(t, b, id);
    forall x | x in d.mapInfo
      ensures TimeOk(d.mapInfo[x])
    {
      assert x in d.mapInfo.Keys;
      assert x in t.mapInfo && TimeOk(t.mapInfo[x]);
    }
  }
}
