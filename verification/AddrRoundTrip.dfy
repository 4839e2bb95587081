/**
 Writing an address manager and reading it back: the result satisfies the invariant, nothing is lost,
 and it is the same manager up to the numbering of its entries and the orders that are not saved.
 */
module AddrRoundTrip {
  import opened Collections
  import opened AddrTables
  import opened AddrFile
  import opened AddrReload

  // ----- the file as a list of the manager's entries and buckets -----

  /** `all` lists the entries of `t` in the order of the file, the new ones first. */
  ghost predicate Listed(t: Tables, f: File, all: seq<int>) {
    && |all| == Count(f) && Distinct(all)
    && (forall id :: id in t.mapInfo <==> id in all)
    && (forall i :: 0 <= i < |all| ==> all[i] in t.mapInfo && Entries(f)[i] == Save(t.mapInfo[all[i]]))
    && (forall i :: 0 <= i < |all| ==> (t.mapInfo[all[i]].inTried <==> i >= |f.newInfos|))
  }

  /** The saved buckets hold the numbers of the bucket members. */
  ghost predicate BucketsListed(t: Tables, f: File, all: seq<int>) {
    && |f.buckets| == |t.vvNew|
    && (forall b, i :: 0 <= b < |f.buckets| && 0 <= i < |all| ==> (i in f.buckets[b] <==> all[i] in t.vvNew[b]))
    && (forall b :: 0 <= b < |f.buckets| ==> Distinct(f.buckets[b]) && |f.buckets[b]| == |t.vvNew[b]|)
    && (forall b, i :: 0 <= b < |f.buckets| && i in f.buckets[b] ==> 0 <= i < |f.newInfos|)
  }

  lemma OrderedListed(mapInfo: map<int, Info>, tried: bool, i: nat)
    requires i < |Ordered(mapInfo, tried)|
    ensures Ordered(mapInfo, tried)[i] in mapInfo && mapInfo[Ordered(mapInfo, tried)[i]].inTried == tried
  {
    OrderedFacts(mapInfo, tried);
    assert Ordered(mapInfo, tried)[i] in Ordered(mapInfo, tried);
  }

  lemma ListedAt(mapInfo: map<int, Info>, f: File, newIds: seq<int>, triedIds: seq<int>, i: nat)
    requires EntriesWritten(mapInfo, newIds, triedIds, f) && i < Count(f)
    ensures |newIds| == |f.newInfos| && |newIds + triedIds| == Count(f)
    ensures Entries(f)[i] == Save(At(mapInfo, (newIds + triedIds)[i]))
  {
  }

  lemma ListedDistinct(t: Tables)
    ensures Distinct(Ordered(t.mapInfo, false) + Ordered(t.mapInfo, true))
    ensures forall id :: id in t.mapInfo <==> id in Ordered(t.mapInfo, false) + Ordered(t.mapInfo, true)
  {
    OrderedFacts(t.mapInfo, false);
    OrderedFacts(t.mapInfo, true);
    DistinctConcat(Ordered(t.mapInfo, false), Ordered(t.mapInfo, true));
  }

  lemma KindAt(mapInfo: map<int, Info>, newIds: seq<int>, triedIds: seq<int>, i: nat)
    requires newIds == Ordered(mapInfo, false) && triedIds == Ordered(mapInfo, true) && i < |newIds| + |triedIds|
    ensures var id := (newIds + triedIds)[i]; id in mapInfo && (mapInfo[id].inTried <==> i >= |newIds|)
  {
    if i < |newIds| {
      OrderedListed(mapInfo, false, i);
    } else {
      OrderedListed(mapInfo, true, i - |newIds|);
    }
  }

  lemma FileListed(t: Tables, f: File)
    requires EntriesOf(t, f)
    ensures Listed(t, f, Ordered(t.mapInfo, false) + Ordered(t.mapInfo, true))
  {
    var newIds, triedIds := Ordered(t.mapInfo, false), Ordered(t.mapInfo, true);
    var all := newIds + triedIds;
    ListedDistinct(t);
    forall i | 0 <= i < |all|
      ensures all[i] in t.mapInfo && Entries(f)[i] == Save(t.mapInfo[all[i]])
      ensures t.mapInfo[all[i]].inTried <==> i >= |f.newInfos|
    {
      ListedAt(t.mapInfo, f, newIds, triedIds, i);
      KindAt(t.mapInfo, newIds, triedIds, i);
    }
  }

  /** Membership in a saved bucket is membership in the bucket. */
  lemma BucketMember(newIds: seq<int>, bucket: set<int>, i: int)
    requires Distinct(newIds) && Covered(newIds, bucket)
    ensures i in BucketRanks(newIds, bucket) <==> 0 <= i < |newIds| && newIds[i] in bucket
  {
    var ids, q := Ascending(bucket), BucketRanks(newIds, bucket);
    AscendingCovered(newIds, bucket);
    if 0 <= i < |newIds| && newIds[i] in bucket {
      var j :| 0 <= j < |ids| && ids[j] == newIds[i];
      RankUnique(newIds, i);
      assert q[j] == i;
    }
    if i in q {
      var j :| 0 <= j < |q| && q[j] == i;
      assert newIds[i] == ids[j] && ids[j] in ids;
    }
  }

  lemma RanksDistinct(newIds: seq<int>, bucket: set<int>)
    requires Covered(newIds, bucket)
    ensures Distinct(BucketRanks(newIds, bucket)) && |BucketRanks(newIds, bucket)| == |bucket|
  {
    var ids, q := Ascending(bucket), BucketRanks(newIds, bucket);
    AscendingCovered(newIds, bucket);
    forall i, j | 0 <= i < j < |q|
      ensures q[i] != q[j]
    {
      assert newIds[q[i]] == ids[i] && newIds[q[j]] == ids[j];
    }
  }

  lemma BucketsListedAt(t: Tables, f: File, newIds: seq<int>, all: seq<int>, b: nat)
    requires BucketsCovered(newIds, t.vvNew) && BucketsWritten(newIds, t.vvNew, f.buckets) && b < |f.buckets|
    requires Distinct(all) && newIds <= all && |newIds| == |f.newInfos|
    ensures Distinct(f.buckets[b]) && |f.buckets[b]| == |t.vvNew[b]|
    ensures forall i :: i in f.buckets[b] ==> 0 <= i < |f.newInfos|
    ensures forall i :: 0 <= i < |all| ==> (i in f.buckets[b] <==> all[i] in t.vvNew[b])
  {
    assert Covered(newIds, t.vvNew[b]) && f.buckets[b] == BucketRanks(newIds, t.vvNew[b]);
    RanksDistinct(newIds, t.vvNew[b]);
    forall i
      ensures i in f.buckets[b] <==> 0 <= i < |newIds| && newIds[i] in t.vvNew[b]
    {
      BucketMember(newIds, t.vvNew[b], i);
    }
    forall i | |newIds| <= i < |all|
      ensures all[i] !in t.vvNew[b]
    {
      assert forall j :: 0 <= j < |newIds| ==> newIds[j] == all[j];
      assert all[i] !in newIds;
    }
  }

  lemma FileBucketsListed(t: Tables, f: File)
    requires BucketsOf(t, f) && EntriesOf(t, f)
    ensures BucketsListed(t, f, Ordered(t.mapInfo, false) + Ordered(t.mapInfo, true))
  {
    var newIds := Ordered(t.mapInfo, false);
    var all := newIds + Ordered(t.mapInfo, true);
    ListedDistinct(t);
    forall b | 0 <= b < |f.buckets|
      ensures Distinct(f.buckets[b]) && |f.buckets[b]| == |t.vvNew[b]|
      ensures forall i :: i in f.buckets[b] ==> 0 <= i < |f.newInfos|
      ensures forall i :: 0 <= i < |all| ==> (i in f.buckets[b] <==> all[i] in t.vvNew[b])
    {
      BucketsListedAt(t, f, newIds, all, b);
    }
  }

  // ----- the file of a consistent manager is well formed -----

  lemma FileNets(t: Tables, f: File, all: seq<int>)
    requires AddrOk(t) && Listed(t, f, all)
    ensures NetsDistinct(f)
  {
    forall i, j | 0 <= i < j < Count(f)
      ensures NetOf(f, i) != NetOf(f, j)
    {
      var id, id' := all[i], all[j];
      assert id != id';
      assert t.mapAddr[t.mapInfo[id].service.net] == id && t.mapAddr[t.mapInfo[id'].service.net] == id';
    }
  }

  lemma TriedIn(net: Network, t: Tables, id: int, k: nat)
    requires TriedBucketsOk(net, t) && id in t.mapInfo && k < TRIED_BUCKET_COUNT
    ensures id in t.vvTried[k] <==> t.mapInfo[id].inTried && TriedBucket(net, t.nKey, t.mapInfo[id].service) == k
  {
    assert TriedEntryOk(net, t, id);
  }

  /** The file puts an entry into the tried bucket that it comes from. */
  lemma TriedSame(net: Network, t: Tables, f: File, all: seq<int>, k: nat, i: nat)
    requires TriedBucketsOk(net, t) && Listed(t, f, all) && f.nKey == t.nKey && k < TRIED_BUCKET_COUNT && i < Count(f)
    ensures all[i] in t.vvTried[k] <==> i in TriedList(net, f, k, |f.triedInfos|)
  {
    TriedListMembers(net, f, k, |f.triedInfos|);
    TriedIn(net, t, all[i], k);
    assert Entries(f)[i] == Save(t.mapInfo[all[i]]);
    if i >= |f.newInfos| {
      assert Entries(f)[i] == f.triedInfos[i - |f.newInfos|];
    }
  }

  lemma FileTriedFits(net: Network, t: Tables, f: File, all: seq<int>, k: nat)
    requires TriedBucketsOk(net, t) && Listed(t, f, all) && f.nKey == t.nKey && k < TRIED_BUCKET_COUNT
    ensures |TriedList(net, f, k, |f.triedInfos|)| <= TRIED_BUCKET_SIZE
  {
    var q := TriedList(net, f, k, |f.triedInfos|);
    TriedListMembers(net, f, k, |f.triedInfos|);
    forall i | 0 <= i < |q|
      ensures 0 <= q[i] < |all| && all[q[i]] in t.vvTried[k]
    {
      assert q[i] in q;
      TriedSame(net, t, f, all, k, q[i]);
    }
    Picked(all, q, t.vvTried[k]);
  }

  /** Distinct places of a duplicate-free list pick distinct elements. */
  lemma Picked(all: seq<int>, places: seq<int>, target: seq<int>)
    requires Distinct(all) && Distinct(places) && Distinct(target)
    requires forall i :: 0 <= i < |places| ==> 0 <= places[i] < |all| && all[places[i]] in target
    ensures |places| <= |target|
  {
    DistinctWithin(seq(|places|, i requires 0 <= i < |places| => all[places[i]]), target);
  }

  lemma ListingHolders(t: Tables, f: File, all: seq<int>, i: nat)
    requires BucketsListed(t, f, all) && i < |all|
    ensures Listing(f, i, |f.buckets|) == Holders(t.vvNew, all[i], |t.vvNew|)
  {
  }

  lemma FileBucketsFine(t: Tables, f: File, all: seq<int>)
    requires NewBucketsOk(t) && RefCountsOk(t, NO_ENTRY) && CountsOk(t) && Listed(t, f, all) && BucketsListed(t, f, all)
    ensures BucketsFine(f)
  {
    forall i | 0 <= i < |f.newInfos|
      ensures 1 <= |Listing(f, i, |f.buckets|)| <= NEW_BUCKETS_PER_ADDRESS
    {
      ListingHolders(t, f, all, i);
      assert RefCountOk(t, all[i], NO_ENTRY);
    }
  }

  lemma FileWellFormed(net: Network, t: Tables, f: File, all: seq<int>)
    requires Inv(net, t, NO_ENTRY) && Listed(t, f, all) && BucketsListed(t, f, all) && f.nKey == t.nKey
    ensures WellFormed(net, f)
  {
    FileNets(t, f, all);
    forall k | 0 <= k < TRIED_BUCKET_COUNT
      ensures |TriedList(net, f, k, |f.triedInfos|)| <= TRIED_BUCKET_SIZE
    {
      FileTriedFits(net, t, f, all, k);
    }
    FileBucketsFine(t, f, all);
  }

  // ----- the same manager, renumbered -----

  /** `rho` maps the entries of `t` one to one onto those of `s`. */
  ghost predicate OneToOne(t: Tables, s: Tables, rho: map<int, int>) {
    && rho.Keys == t.mapInfo.Keys
    && (forall id, id' :: id in rho && id' in rho && rho[id] == rho[id'] ==> id == id')
    && (forall id :: id in rho ==> rho[id] in s.mapInfo)
    && (forall i :: i in s.mapInfo ==> exists id :: id in rho && rho[id] == i)
  }

  ghost predicate SameFields(i: Info, j: Info) {
    && i.service == j.service && i.services == j.services && i.time == j.time
    && i.source == j.source && i.lastSuccess == j.lastSuccess && i.attempts == j.attempts
  }

  /** Corresponding entries have the same saved fields, kind and reference count. */
  ghost predicate SameEntries(t: Tables, s: Tables, rho: map<int, int>) {
    forall id :: id in t.mapInfo && id in rho ==>
      && rho[id] in s.mapInfo
      && SameFields(t.mapInfo[id], s.mapInfo[rho[id]])
      && s.mapInfo[rho[id]].inTried == t.mapInfo[id].inTried
      && s.mapInfo[rho[id]].refCount == t.mapInfo[id].refCount
  }

  /** Corresponding entries sit in the same buckets. */
  ghost predicate SameBuckets(t: Tables, s: Tables, rho: map<int, int>) {
    && |s.vvNew| == |t.vvNew| && |s.vvTried| == |t.vvTried|
    && (forall b, id :: 0 <= b < |t.vvNew| && id in rho ==> (id in t.vvNew[b] <==> rho[id] in s.vvNew[b]))
    && (forall k, id :: 0 <= k < |t.vvTried| && id in rho ==> (id in t.vvTried[k] <==> rho[id] in s.vvTried[k]))
  }

  /** Corresponding entries are found under the same addresses. */
  ghost predicate SameAddresses(t: Tables, s: Tables, rho: map<int, int>) {
    forall a ::
      && (a in s.mapAddr <==> a in t.mapAddr)
      && (a in t.mapAddr ==> t.mapAddr[a] in rho && s.mapAddr[a] == rho[t.mapAddr[a]])
  }

  ghost predicate Isomorphic(t: Tables, s: Tables, rho: map<int, int>) {
    && OneToOne(t, s, rho) && SameEntries(t, s, rho) && SameBuckets(t, s, rho) && SameAddresses(t, s, rho)
    && s.nKey == t.nKey && s.nNew == t.nNew && s.nTried == t.nTried
  }

  /** `rho` gives each listed entry its place in the list. */
  ghost predicate Places(all: seq<int>, rho: map<int, int>) {
    && (forall id :: id in rho <==> id in all)
    && (forall id :: id in rho ==> 0 <= rho[id] < |all| && all[rho[id]] == id)
    && (forall i :: 0 <= i < |all| ==> all[i] in rho && rho[all[i]] == i)
  }

  lemma {:induction false} PlacesExist(all: seq<int>) returns (rho: map<int, int>)
    requires Distinct(all)
    ensures Places(all, rho)
  {
    if all == [] {
      rho := map[];
    } else {
      var n := |all| - 1;
      var front := PlacesExist(all[..n]);
      rho := front[all[n] := n];
      assert all[n] !in all[..n];
      assert forall id :: id in all <==> id in all[..n] || id == all[n];
    }
  }

  lemma IsoOneToOne(t: Tables, f: File, all: seq<int>, s: Tables, rho: map<int, int>)
    requires Listed(t, f, all) && Places(all, rho) && (forall i :: i in s.mapInfo <==> 0 <= i < Count(f))
    ensures OneToOne(t, s, rho)
  {
    forall id
      ensures id in rho.Keys <==> id in t.mapInfo.Keys
    {
      assert id in rho <==> id in all;
      assert id in t.mapInfo <==> id in all;
    }
    forall i | i in s.mapInfo
      ensures exists id :: id in rho && rho[id] == i
    {
      var id := all[i];
      assert id in rho && rho[id] == i;
    }
  }

  /** The entry read for number `i` is the one that was written under that number. */
  lemma IsoEntry(t: Tables, f: File, all: seq<int>, s: Tables, i: nat)
    requires Listed(t, f, all) && BucketsListed(t, f, all) && RefCountsOk(t, NO_ENTRY) && CountsOk(t)
    requires |f.buckets| == NEW_BUCKET_COUNT && ReferencesLoaded(f, NEW_BUCKET_COUNT, [], s) && i < Count(f)
    ensures i in s.mapInfo && Save(s.mapInfo[i]) == Save(t.mapInfo[all[i]])
    ensures s.mapInfo[i].inTried == t.mapInfo[all[i]].inTried
    ensures s.mapInfo[i].refCount == t.mapInfo[all[i]].refCount
    ensures s.mapInfo[i].lastTry == 0
  {
    assert RefCountOk(t, all[i], NO_ENTRY);
    ListingHolders(t, f, all, i);
    if i < |f.newInfos| {
      assert s.mapInfo[i] == EntryAt(f, i).(refCount := Counted(f, i, NEW_BUCKET_COUNT, []));
    } else {
      assert s.mapInfo[i] == EntryAt(f, i);
    }
  }

  lemma IsoEntries(t: Tables, f: File, all: seq<int>, s: Tables, rho: map<int, int>)
    requires Listed(t, f, all) && BucketsListed(t, f, all) && RefCountsOk(t, NO_ENTRY) && CountsOk(t)
    requires |f.buckets| == NEW_BUCKET_COUNT && ReferencesLoaded(f, NEW_BUCKET_COUNT, [], s) && Places(all, rho)
    ensures SameEntries(t, s, rho)
  {
    forall id | id in t.mapInfo && id in rho
      ensures rho[id] in s.mapInfo
      ensures Save(s.mapInfo[rho[id]]) == Save(t.mapInfo[id])
      ensures s.mapInfo[rho[id]].inTried == t.mapInfo[id].inTried
      ensures s.mapInfo[rho[id]].refCount == t.mapInfo[id].refCount
    {
      IsoEntry(t, f, all, s, rho[id]);
    }
  }

  lemma IsoTimes(t: Tables, f: File, all: seq<int>, s: Tables)
    requires Listed(t, f, all) && BucketsListed(t, f, all) && RefCountsOk(t, NO_ENTRY) && CountsOk(t)
    requires |f.buckets| == NEW_BUCKET_COUNT && ReferencesLoaded(f, NEW_BUCKET_COUNT, [], s)
    requires TimesOk(t.mapInfo)
    ensures TimesOk(s.mapInfo)
  {
    forall i | i in s.mapInfo
      ensures TimeOk(s.mapInfo[i])
    {
      IsoEntry(t, f, all, s, i);
      var id := all[i];
      assert id in t.mapInfo && TimeOk(t.mapInfo[id]);
    }
  }

  lemma IsoBuckets(net: Network, t: Tables, f: File, all: seq<int>, s: Tables, rho: map<int, int>)
    requires Listed(t, f, all) && BucketsListed(t, f, all) && Places(all, rho) && f.nKey == t.nKey
    requires |f.buckets| == NEW_BUCKET_COUNT && NewLoadedUpTo(f, NEW_BUCKET_COUNT, [], s)
    requires TriedLoaded(net, f, |f.triedInfos|, s) && TriedBucketsOk(net, t)
    ensures SameBuckets(t, s, rho)
  {
    forall b, id | 0 <= b < |t.vvNew| && id in rho
      ensures id in t.vvNew[b] <==> rho[id] in s.vvNew[b]
    {
      assert rho[id] in s.vvNew[b] <==> rho[id] in f.buckets[b];
    }
    forall k, id | 0 <= k < |t.vvTried| && id in rho
      ensures id in t.vvTried[k] <==> rho[id] in s.vvTried[k]
    {
      TriedSame(net, t, f, all, k, rho[id]);
    }
  }

  lemma IsoAddresses(t: Tables, f: File, all: seq<int>, s: Tables, rho: map<int, int>)
    requires AddrOk(t) && Listed(t, f, all) && AddressesLoaded(f, Count(f), s) && Places(all, rho)
    ensures SameAddresses(t, s, rho)
  {
    forall a
      ensures a in s.mapAddr <==> a in t.mapAddr
      ensures a in t.mapAddr ==> t.mapAddr[a] in rho && s.mapAddr[a] == rho[t.mapAddr[a]]
    {
      if a in t.mapAddr {
        var id := t.mapAddr[a];
        assert id in t.mapInfo && id in all;
        var i := rho[id];
        assert NetOf(f, i) == a;
      }
      if a in s.mapAddr {
        var i := s.mapAddr[a];
        var id := all[i];
        assert NetOf(f, i) == t.mapInfo[id].service.net;
      }
    }
  }

  lemma IsoAll(net: Network, t: Tables, f: File, all: seq<int>, s: Tables) returns (rho: map<int, int>)
    requires Inv(net, t, NO_ENTRY) && Listed(t, f, all) && BucketsListed(t, f, all) && f.nKey == t.nKey
    requires |f.buckets| == NEW_BUCKET_COUNT && Final(net, f, s) && t.nNew == |f.newInfos| && t.nTried == |f.triedInfos|
    ensures Isomorphic(t, s, rho)
  {
    rho := PlacesExist(all);
    IsoOneToOne(t, f, all, s, rho);
    IsoEntries(t, f, all, s, rho);
    IsoBuckets(net, t, f, all, s, rho);
    IsoAddresses(t, f, all, s, rho);
  }

  lemma FileCounts(t: Tables, f: File)
    requires EntriesOf(t, f) && CountsOk(t)
    ensures t.nNew == |f.newInfos| && t.nTried == |f.triedInfos|
  {
    OrderedFacts(t.mapInfo, false);
    OrderedFacts(t.mapInfo, true);
  }

  /** Writing any consistent manager and reading the file gives the same manager, renumbered. */
  lemma RoundTrip(net: Network, t: Tables, f: File) returns (rho: map<int, int>)
    requires Inv(net, t, NO_ENTRY) && IsFileOf(t, f)
    ensures |f.buckets| == NEW_BUCKET_COUNT
    ensures Inv(net, TablesOf(net, f), NO_ENTRY)
    ensures Isomorphic(t, TablesOf(net, f), rho)
    ensures ReadTried(net, f, |f.triedInfos|).1 == 0
    ensures TimesOk(t.mapInfo) ==> TimesOk(TablesOf(net, f).mapInfo)
  {
    var all := Ordered(t.mapInfo, false) + Ordered(t.mapInfo, true);
    FileListed(t, f);
    FileBucketsListed(t, f);
    FileCounts(t, f);
    FileWellFormed(net, t, f, all);
    ReadFinal(net, f);
    var s := TablesOf(net, f);
    FinalInv(net, f, s);
    rho := IsoAll(net, t, f, all, s);
    if TimesOk(t.mapInfo) {
      IsoTimes(t, f, all, s);
    }
  }
}
