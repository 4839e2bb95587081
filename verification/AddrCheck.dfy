/**
 What the consistency check `CAddrMan::Check_` answers, stated without its loops, and why a
 manager with the invariant passes it exactly if its time stamps are in order.
 */
module AddrCheck {
  import opened Collections
  import opened AddrTables

  /** `mapAddr[a]` in C++: a missing key reads as 0. */
  function Lookup(mapAddr: map<NetAddr, int>, a: NetAddr): int {
    if a in mapAddr then mapAddr[a] else 0
  }

  ghost predicate SameAnswers(m: map<NetAddr, int>, n: map<NetAddr, int>) {
    forall a :: Lookup(m, a) == Lookup(n, a)
  }

  /** Every entry has a key in `mapAddr`, so that looking it up adds nothing. */
  ghost predicate Complete(t: Tables) {
    forall id :: id in t.mapInfo ==> t.mapInfo[id].service.net in t.mapAddr
  }

  ghost predicate AllEntriesOk(t: Tables) {
    forall id :: id in t.mapInfo ==> EntryOk(t, id)
  }

  ghost predicate EntriesOk(t: Tables, ids: seq<int>) {
    forall i :: 0 <= i < |ids| ==> ids[i] in t.mapInfo && EntryOk(t, ids[i])
  }

  ghost predicate EntryOk(t: Tables, id: int)
    requires id in t.mapInfo
  {
    var info := t.mapInfo[id];
    && (if info.inTried then info.lastSuccess != 0 && info.refCount == 0
        else 1 <= info.refCount <= NEW_BUCKETS_PER_ADDRESS)
    && Lookup(t.mapAddr, info.service.net) == id
    && 0 <= info.randomPos < |t.vRandom| && t.vRandom[info.randomPos] == id
    && info.lastTry >= 0 && info.lastSuccess >= 0
  }

  /** The code of the first test that an entry fails; 0 for none. */
  ghost function EntryCode(t: Tables, id: int): int
    requires id in t.mapInfo
  {
    var info := t.mapInfo[id];
    if info.inTried && info.lastSuccess == 0 then -1
    else if info.inTried && info.refCount != 0 then -2
    else if !info.inTried && !(0 <= info.refCount <= NEW_BUCKETS_PER_ADDRESS) then -3
    else if !info.inTried && info.refCount == 0 then -4
    else if Lookup(t.mapAddr, info.service.net) != id then -5
    else if !(0 <= info.randomPos < |t.vRandom|) || t.vRandom[info.randomPos] != id then -14
    else if info.lastTry < 0 then -6
    else if info.lastSuccess < 0 then -8
    else 0
  }

  /** The entry with the least id that fails a test. */
  ghost predicate FirstBad(t: Tables, id: int) {
    && id in t.mapInfo && !EntryOk(t, id)
    && forall x :: x in t.mapInfo && x < id ==> EntryOk(t, x)
  }

  /** The tried buckets list no other ids, and none twice. */
  ghost predicate TriedWithin(vvTried: seq<seq<int>>, ids: set<int>) {
    multiset(Flatten(vvTried)) <= multiset(ids)
  }

  /** The new buckets hold no other ids, and none more often than its count says. */
  ghost predicate NewWithin(vvNew: seq<set<int>>, counts: map<int, int>) {
    && (forall b, id :: 0 <= b < |vvNew| && id in vvNew[b] ==> id in counts)
    && (forall id :: id in counts ==> HolderCount(vvNew, id) <= counts[id])
  }

  /** The code that the check returns: that of the first thing wrong, 0 if there is none. */
  ghost predicate IsCheckCode(t: Tables, err: int) {
    if |t.vRandom| != t.nTried + t.nNew then err == -7
    else if !AllEntriesOk(t) then exists id :: FirstBad(t, id) && err == EntryCode(t, id)
    else if |TriedIds(t.mapInfo)| != t.nTried then err == -9
    else if |NewIds(t.mapInfo)| != t.nNew then err == -10
    else if !TriedWithin(t.vvTried, TriedIds(t.mapInfo)) then err == -11
    else if !NewWithin(t.vvNew, RefCounts(t.mapInfo)) then err == -12
    else if !TriedListed(t.vvTried, TriedIds(t.mapInfo)) then err == -13
    else if !NewListed(t.vvNew, RefCounts(t.mapInfo)) then err == -15
    else err == 0
  }

  /** The tried buckets list the given ids, each exactly once. */
  ghost predicate TriedListed(vvTried: seq<seq<int>>, ids: set<int>) {
    multiset(Flatten(vvTried)) == multiset(ids)
  }

  /** The new buckets hold only the given ids, each as often as its count says. */
  ghost predicate NewListed(vvNew: seq<set<int>>, counts: map<int, int>) {
    && (forall b, id :: 0 <= b < |vvNew| && id in vvNew[b] ==> id in counts)
    && (forall id :: id in counts ==> HolderCount(vvNew, id) == counts[id])
  }

  ghost function RefCounts(mapInfo: map<int, Info>): map<int, int> {
    map id | id in NewIds(mapInfo) :: mapInfo[id].refCount
  }

  ghost predicate CheckOk(t: Tables) {
    && |t.vRandom| == t.nTried + t.nNew
    && AllEntriesOk(t)
    && |TriedIds(t.mapInfo)| == t.nTried
    && |NewIds(t.mapInfo)| == t.nNew
    && TriedListed(t.vvTried, TriedIds(t.mapInfo))
    && NewListed(t.vvNew, RefCounts(t.mapInfo))
  }

  // ----- the invariant implies the check -----

  lemma {:induction false} BucketsDistinct(net: Network, t: Tables, n: nat)
    requires TriedBucketsOk(net, t) && n <= |t.vvTried|
    ensures Distinct(Flatten(t.vvTried[..n]))
    ensures forall id :: id in Flatten(t.vvTried[..n]) ==>
      id in t.mapInfo && t.mapInfo[id].inTried && TriedBucket(net, t.nKey, t.mapInfo[id].service) < n
  {
    if n > 0 {
      BucketsDistinct(net, t, n - 1);
      assert t.vvTried[..n][..n - 1] == t.vvTried[..n - 1];
      var front, last := Flatten(t.vvTried[..n - 1]), t.vvTried[n - 1];
      assert Flatten(t.vvTried[..n]) == front + last;
      assert forall id :: id in last ==> id !in front;
      DistinctConcat(front, last);
    }
  }

  lemma InvTriedListed(net: Network, t: Tables)
    requires TriedBucketsOk(net, t)
    ensures TriedListed(t.vvTried, TriedIds(t.mapInfo))
  {
    var all := Flatten(t.vvTried);
    assert t.vvTried[..|t.vvTried|] == t.vvTried;
    BucketsDistinct(net, t, |t.vvTried|);
    forall id
      ensures id in all <==> id in TriedIds(t.mapInfo)
    {
      FlattenMember(t.vvTried, id);
      if id in TriedIds(t.mapInfo) {
        assert TriedEntryOk(net, t, id);
      }
    }
    DistinctCount(all, TriedIds(t.mapInfo));
  }

  lemma InvNewListed(t: Tables)
    requires NewBucketsOk(t) && RefCountsOk(t, NO_ENTRY) && CountsOk(t)
    ensures NewListed(t.vvNew, RefCounts(t.mapInfo))
  {
    forall id | id in RefCounts(t.mapInfo)
      ensures HolderCount(t.vvNew, id) == RefCounts(t.mapInfo)[id]
    {
      assert RefCountOk(t, id, NO_ENTRY);
    }
  }

  lemma EntryCount(m: map<int, Info>)
    ensures |m| == |TriedIds(m)| + |NewIds(m)|
  {
    assert TriedIds(m) * NewIds(m) == {};
    assert m.Keys == TriedIds(m) + NewIds(m);
    assert |m| == |m.Keys|;
  }

  lemma InvEntryOk(net: Network, t: Tables, id: int)
    requires Inv(net, t, NO_ENTRY) && TimesOk(t.mapInfo) && id in t.mapInfo
    ensures EntryOk(t, id)
  {
    assert RefCountOk(t, id, NO_ENTRY);
    assert TimeOk(t.mapInfo[id]);
  }

  /** Under the invariant the original's own check finds nothing exactly if the time stamps are in order. */
  lemma InvPassesCheck(net: Network, t: Tables)
    requires Inv(net, t, NO_ENTRY)
    ensures CheckOk(t) <==> TimesOk(t.mapInfo)
  {
    if TimesOk(t.mapInfo) {
      EntryCount(t.mapInfo);
      InvTriedListed(net, t);
      InvNewListed(t);
      forall id | id in t.mapInfo
        ensures EntryOk(t, id)
      {
        InvEntryOk(net, t, id);
      }
    }
  }

  // ----- counting along the loops of the check -----

  lemma FlattenStep<T>(qq: seq<seq<T>>, b: nat)
    requires b < |qq|
    ensures Flatten(qq[..b + 1]) == Flatten(qq[..b]) + qq[b]
  {
    assert qq[..b + 1][..b] == qq[..b];
  }

  /** An occurrence seen so far is an occurrence in the whole. */
  lemma SeenOccurs<T>(qq: seq<seq<T>>, b: nat, i: nat, x: T)
    requires b < |qq| && i <= |qq[b]|
    ensures multiset(Flatten(qq[..b]) + qq[b][..i])[x] <= multiset(Flatten(qq))[x]
  {
    FlattenStep(qq, b);
    FlattenPrefix(qq, b + 1, x);
    assert qq[b] == qq[b][..i] + qq[b][i..];
  }

  /** The next element is either crossed off or shows that the list is wrong. */
  lemma SeenNext(qq: seq<seq<int>>, b: nat, i: nat, ids: set<int>, left: set<int>)
    requires b < |qq| && i < |qq[b]|
    requires multiset(Flatten(qq[..b]) + qq[b][..i]) + multiset(left) == multiset(ids)
    ensures qq[b][i] in left ==>
      multiset(Flatten(qq[..b]) + qq[b][..i + 1]) + multiset(left - {qq[b][i]}) == multiset(ids)
    ensures qq[b][i] !in left ==> !TriedWithin(qq, ids)
  {
    var id := qq[b][i];
    assert qq[b][..i + 1] == qq[b][..i] + [id];
    assert multiset(Flatten(qq[..b]) + qq[b][..i + 1]) == multiset(Flatten(qq[..b]) + qq[b][..i]) + multiset{id};
    if id in left {
      assert multiset(left) == multiset(left - {id}) + multiset{id};
    } else {
      SeenOccurs(qq, b, i + 1, id);
      assert multiset(left)[id] == 0;
    }
  }

  lemma SeenBucket(qq: seq<seq<int>>, b: nat)
    requires b < |qq|
    ensures Flatten(qq[..b]) + qq[b][..|qq[b]|] == Flatten(qq[..b + 1])
  {
    FlattenStep(qq, b);
    assert qq[b][..|qq[b]|] == qq[b];
  }

  /** The buckets counted so far are among all holders. */
  lemma SeenHolders(vvNew: seq<set<int>>, id: int, b: nat)
    requires b < |vvNew| && id in vvNew[b]
    ensures |Holders(vvNew, id, b)| + 1 <= HolderCount(vvNew, id)
  {
    var some, all := Holders(vvNew, id, b), Holders(vvNew, id, |vvNew|);
    assert some + {b} <= all;
    assert all == (some + {b}) + (all - (some + {b}));
  }

  /** Entries read the same through tables that answer lookups alike. */
  lemma SameLookups(t: Tables, mapAddr: map<NetAddr, int>, id: int)
    requires id in t.mapInfo
    requires SameAnswers(mapAddr, t.mapAddr)
    ensures EntryCode(t.(mapAddr := mapAddr), id) == EntryCode(t, id)
  {
  }

  ghost function TriedAmong(mapInfo: map<int, Info>, ids: seq<int>): set<int> {
    set id | id in ids && id in mapInfo && mapInfo[id].inTried
  }

  ghost function NewAmong(mapInfo: map<int, Info>, ids: seq<int>): map<int, int> {
    map id | id in ids && id in mapInfo && !mapInfo[id].inTried :: mapInfo[id].refCount
  }

  /** The first `i` entries are fine and have been entered in the set or in the map; lookups answer as before. */
  ghost predicate EntriesSeen(t: Tables, mapAddr: map<NetAddr, int>, ids: seq<int>, i: nat,
                              setTried: set<int>, mapNew: map<int, int>) {
    && i <= |ids| && SameAnswers(mapAddr, t.mapAddr) && EntriesOk(t, ids[..i])
    && setTried == TriedAmong(t.mapInfo, ids[..i]) && mapNew == NewAmong(t.mapInfo, ids[..i])
  }

  lemma AmongNone(mapInfo: map<int, Info>, ids: seq<int>)
    ensures TriedAmong(mapInfo, ids[..0]) == {} && NewAmong(mapInfo, ids[..0]) == map[]
  {
  }

  lemma AmongStep(mapInfo: map<int, Info>, ids: seq<int>, i: nat)
    requires i < |ids| && ids[i] in mapInfo
    ensures var id := ids[i];
      && TriedAmong(mapInfo, ids[..i + 1])
           == (if mapInfo[id].inTried then TriedAmong(mapInfo, ids[..i]) + {id} else TriedAmong(mapInfo, ids[..i]))
      && NewAmong(mapInfo, ids[..i + 1])
           == (if mapInfo[id].inTried then NewAmong(mapInfo, ids[..i])
               else NewAmong(mapInfo, ids[..i])[id := mapInfo[id].refCount])
  {
    assert ids[..i + 1] == ids[..i] + [ids[i]];
  }

  lemma AmongAll(mapInfo: map<int, Info>, ids: seq<int>)
    requires forall id :: id in ids <==> id in mapInfo.Keys
    ensures TriedAmong(mapInfo, ids[..|ids|]) == TriedIds(mapInfo)
    ensures NewAmong(mapInfo, ids[..|ids|]) == RefCounts(mapInfo)
  {
    assert ids[..|ids|] == ids;
    forall id
      ensures id in TriedAmong(mapInfo, ids) <==> id in TriedIds(mapInfo)
      ensures id in NewAmong(mapInfo, ids) <==> id in RefCounts(mapInfo)
    {
      assert id in mapInfo <==> id in mapInfo.Keys;
    }
    assert NewAmong(mapInfo, ids).Keys == RefCounts(mapInfo).Keys;
  }

  /** `left` is what remains of `counts` after `b` buckets and the members `done` of the next one. */
  ghost predicate CountedSoFar(vvNew: seq<set<int>>, counts: map<int, int>, left: map<int, int>, b: nat, done: set<int>)
    requires b <= |vvNew|
  {
    && (forall id :: id in left ==> id in counts && left[id] >= 1)
    && (forall id :: id in counts ==>
          Remaining(left, id) + |Holders(vvNew, id, b)| + (if id in done then 1 else 0) == counts[id])
    && (forall c, id :: 0 <= c < b && id in vvNew[c] ==> id in counts)
    && (forall id :: id in done ==> id in counts)
  }

  ghost function Remaining(left: map<int, int>, id: int): int {
    if id in left then left[id] else 0
  }

  ghost function Elements(ids: seq<int>): set<int> { set id | id in ids }

  lemma PrefixStep(ids: seq<int>, i: nat)
    requires StrictlyAscending(ids) && i < |ids|
    ensures Elements(ids[..i + 1]) == Elements(ids[..i]) + {ids[i]} && ids[i] !in Elements(ids[..i])
  {
    assert ids[..i + 1] == ids[..i] + [ids[i]];
  }

  lemma CountNone(vvNew: seq<set<int>>, counts: map<int, int>)
    requires forall id :: id in counts ==> counts[id] >= 1
    ensures CountedSoFar(vvNew, counts, counts, 0, {})
  {
    forall id | id in counts
      ensures |Holders(vvNew, id, 0)| == 0
    {
      assert Holders(vvNew, id, 0) == {};
    }
  }

  lemma CountOne(vvNew: seq<set<int>>, counts: map<int, int>, left: map<int, int>, b: nat, done: set<int>, id: int)
    requires b < |vvNew| && CountedSoFar(vvNew, counts, left, b, done) && id in left && id !in done
    ensures CountedSoFar(vvNew, counts, if left[id] - 1 == 0 then left - {id} else left[id := left[id] - 1], b, done + {id})
  {
  }

  lemma CountBucket(vvNew: seq<set<int>>, counts: map<int, int>, left: map<int, int>, b: nat)
    requires b < |vvNew| && CountedSoFar(vvNew, counts, left, b, vvNew[b])
    ensures CountedSoFar(vvNew, counts, left, b + 1, {})
  {
    forall id | id in counts
      ensures |Holders(vvNew, id, b + 1)| == |Holders(vvNew, id, b)| + (if id in vvNew[b] then 1 else 0)
    {
      assert Holders(vvNew, id, b + 1) ==
        if id in vvNew[b] then Holders(vvNew, id, b) + {b} else Holders(vvNew, id, b);
    }
  }

  lemma MissingCount(vvNew: seq<set<int>>, counts: map<int, int>, left: map<int, int>, b: nat, done: set<int>, id: int)
    requires b < |vvNew| && CountedSoFar(vvNew, counts, left, b, done)
    requires id in vvNew[b] && id !in left && id !in done
    ensures !NewWithin(vvNew, counts)
  {
    if NewWithin(vvNew, counts) {
      assert id in counts;
      SeenHolders(vvNew, id, b);
      assert false;
    }
  }

  lemma CountAll(vvNew: seq<set<int>>, counts: map<int, int>, left: map<int, int>)
    requires CountedSoFar(vvNew, counts, left, |vvNew|, {})
    ensures NewWithin(vvNew, counts) && (left == map[] <==> NewListed(vvNew, counts))
  {
    assert forall id :: id in left ==> HolderCount(vvNew, id) < counts[id];
    assert (forall id :: id !in left) ==> left == map[];
  }

  lemma RefCountsFacts(t: Tables)
    ensures |RefCounts(t.mapInfo)| == |NewIds(t.mapInfo)|
    ensures AllEntriesOk(t) ==>
      forall id :: id in RefCounts(t.mapInfo) ==> RefCounts(t.mapInfo)[id] >= 1
  {
    assert RefCounts(t.mapInfo).Keys == NewIds(t.mapInfo);
    assert |RefCounts(t.mapInfo)| == |RefCounts(t.mapInfo).Keys|;
  }

  lemma EntriesStep(t: Tables, ids: seq<int>, i: nat)
    requires i < |ids| && EntriesOk(t, ids[..i]) && ids[i] in t.mapInfo && EntryOk(t, ids[i])
    ensures EntriesOk(t, ids[..i + 1])
  {
    assert ids[..i + 1] == ids[..i] + [ids[i]];
  }

  lemma EntriesFail(t: Tables, ids: seq<int>, i: nat)
    requires StrictlyAscending(ids) && (forall id :: id in ids <==> id in t.mapInfo.Keys)
    requires i < |ids| && EntriesOk(t, ids[..i]) && ids[i] in t.mapInfo && !EntryOk(t, ids[i])
    ensures FirstBad(t, ids[i]) && !AllEntriesOk(t)
  {
    forall x | x in t.mapInfo && x < ids[i]
      ensures EntryOk(t, x)
    {
      assert x in t.mapInfo.Keys;
      var j :| 0 <= j < |ids| && ids[j] == x;
      assert j < i && ids[..i][j] == x;
    }
  }

  lemma EntriesAll(t: Tables, ids: seq<int>)
    requires EntriesOk(t, ids[..|ids|]) && forall id :: id in ids <==> id in t.mapInfo.Keys
    ensures AllEntriesOk(t)
  {
    assert ids[..|ids|] == ids;
    assert forall id :: id in t.mapInfo ==> id in t.mapInfo.Keys && id in ids;
  }
}
