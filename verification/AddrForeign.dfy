/**
 Reading a file of the address manager whose number of new buckets is not the reader's own.

 The bucket lists of such a file are not used: each new entry goes straight into the bucket computed for
 it, and no size is checked on the way. So the reader may build a bucket that is too full.
 */
module AddrForeign {
  import opened Collections
  import opened AddrTables
  import opened AddrSteps
  import opened AddrFile
  import opened AddrReload

  /** The new entries among the first `n` of the file that belong to bucket `b`. */
  ghost function Own(net: Network, f: File, b: int, n: nat): set<int>
    requires n <= |f.newInfos|
  {
    set i | 0 <= i < n && OwnBucket(net, f, i) == b
  }

  function OwnBucket(net: Network, f: File, i: nat): (b: nat)
    requires i < |f.newInfos|
    ensures b < NEW_BUCKET_COUNT
  {
    NewBucket(net, f.nKey, f.newInfos[i].service, f.newInfos[i].source)
  }

  ghost function OwnBuckets(net: Network, f: File, n: nat): (vvNew: seq<set<int>>)
    requires n <= |f.newInfos|
    ensures |vvNew| == NEW_BUCKET_COUNT && forall b :: 0 <= b < |vvNew| ==> vvNew[b] == Own(net, f, b, n)
  {
    seq(NEW_BUCKET_COUNT, b requires 0 <= b < NEW_BUCKET_COUNT => Own(net, f, b, n))
  }

  /** The same entries without any bucket. */
  function Plain(f: File): (g: File)
    ensures |g.buckets| == NEW_BUCKET_COUNT
  {
    f.(buckets := seq(NEW_BUCKET_COUNT, _ => []))
  }

  /** One reference for every new entry. */
  ghost function Referenced(m: map<int, Info>, n: nat): map<int, Info> {
    map i | i in m :: if i < n then m[i].(refCount := 1) else m[i]
  }

  /** The tables with the first `n` new entries in their own buckets. */
  ghost function Owned(net: Network, f: File, n: nat, t: Tables): Tables
    requires n <= |f.newInfos|
  {
    t.(mapInfo := Referenced(t.mapInfo, |f.newInfos|), vvNew := OwnBuckets(net, f, n))
  }

  lemma OwnStep(net: Network, f: File, n: nat)
    requires n < |f.newInfos|
    ensures var b := OwnBucket(net, f, n);
      OwnBuckets(net, f, n + 1) == OwnBuckets(net, f, n)[b := OwnBuckets(net, f, n)[b] + {n}]
  {
    var b := OwnBucket(net, f, n);
    forall c | 0 <= c < NEW_BUCKET_COUNT
      ensures Own(net, f, c, n + 1) == if c == b then Own(net, f, c, n) + {n} else Own(net, f, c, n)
    {
    }
  }

  lemma ReferencedStep(m: map<int, Info>, count: nat, n: int, info: Info)
    ensures Referenced(m[n := info], count)
         == Referenced(m, count)[n := if n < count then info.(refCount := 1) else info]
  {
  }

  lemma NewStepOwned(net: Network, f: File, n: nat, t: Tables)
    requires n < |f.newInfos| && t.nKey == f.nKey
    ensures NewStep(net, true, Owned(net, f, n, t), n, f.newInfos[n])
         == Owned(net, f, n + 1, NewStep(net, false, t, n, f.newInfos[n]))
  {
    OwnStep(net, f, n);
    var s := NewStep(net, false, t, n, f.newInfos[n]);
    ReferencedStep(t.mapInfo, |f.newInfos|, n, s.mapInfo[n]);
  }

  lemma NoneOwned(net: Network, f: File)
    ensures OwnBuckets(net, f, 0) == EmptyTables(f.nKey).vvNew && Referenced(map[], |f.newInfos|) == map[]
  {
    assert forall b :: 0 <= b < NEW_BUCKET_COUNT ==> Own(net, f, b, 0) == {};
  }

  lemma {:induction false} NewOwned(net: Network, f: File, n: nat)
    requires n <= |f.newInfos| && |f.buckets| != NEW_BUCKET_COUNT
    ensures ReadNew(net, f, n) == Owned(net, f, n, ReadNew(net, Plain(f), n))
  {
    if n == 0 {
      NoneOwned(net, f);
    } else {
      NewOwned(net, f, n - 1);
      ReadNewSizes(net, Plain(f), n - 1);
      NewStepOwned(net, f, n - 1, ReadNew(net, Plain(f), n - 1));
    }
  }

  lemma TriedStepOwned(net: Network, f: File, t: Tables, v: Saved)
    requires t.nIdCount >= |f.newInfos|
    ensures var n := |f.newInfos|;
      && HasRoom(net, Owned(net, f, n, t), v) == HasRoom(net, t, v)
      && TriedStep(net, Owned(net, f, n, t), v) == Owned(net, f, n, TriedStep(net, t, v))
      && TriedStep(net, t, v).nIdCount >= t.nIdCount
  {
    if HasRoom(net, t, v) {
      ReferencedStep(t.mapInfo, |f.newInfos|, t.nIdCount, TriedStep(net, t, v).mapInfo[t.nIdCount]);
    }
  }

  lemma {:induction false} TriedOwned(net: Network, f: File, n: nat)
    requires n <= |f.triedInfos| && |f.buckets| != NEW_BUCKET_COUNT
    ensures ReadTried(net, Plain(f), n).0.nIdCount >= |f.newInfos|
    ensures ReadTried(net, f, n).0 == Owned(net, f, |f.newInfos|, ReadTried(net, Plain(f), n).0)
    ensures ReadTried(net, f, n).1 == ReadTried(net, Plain(f), n).1
  {
    if n == 0 {
      NewOwned(net, f, |f.newInfos|);
    } else {
      TriedOwned(net, f, n - 1);
      TriedStepOwned(net, f, ReadTried(net, Plain(f), n - 1).0, f.triedInfos[n - 1]);
    }
  }

  // ----- the bucket lists change nothing -----

  ghost predicate IndicesKnown(f: File) {
    forall b, i :: 0 <= b < |f.buckets| && i in f.buckets[b] ==> 0 <= i < Count(f)
  }

  lemma {:induction false} IdleBucket(f: File, t: Tables, b: nat, q: seq<int>)
    requires |f.buckets| != NEW_BUCKET_COUNT && b < |t.vvNew| && forall i :: i in q ==> i in t.mapInfo
    ensures ReadBucket(f, t, b, q) == t
    decreases |q|
  {
    if q != [] {
      var n := |q| - 1;
      var last := q[n];
      assert last in q;
      IdleBucket(f, t, b, q[..n]);
      assert t.mapInfo[last := t.mapInfo[last]] == t.mapInfo;
    }
  }

  lemma {:induction false} IdleBuckets(net: Network, f: File, n: nat)
    requires n <= |f.buckets| < NEW_BUCKET_COUNT && IndicesKnown(f)
    requires forall i :: 0 <= i < Count(f) ==> i in ReadEntries(net, f).mapInfo
    ensures ReadBuckets(net, f, n) == ReadEntries(net, f)
  {
    if n > 0 {
      IdleBuckets(net, f, n - 1);
      IdleBucket(f, ReadEntries(net, f), n - 1, f.buckets[n - 1]);
    }
  }

  // ----- what such a file amounts to -----

  /** The file with the reader's own number of buckets that is read alike. */
  ghost function Rebucketed(net: Network, f: File): (g: File)
    ensures |g.buckets| == NEW_BUCKET_COUNT
    ensures forall b :: 0 <= b < |g.buckets| ==> g.buckets[b] == Ascending(Own(net, f, b, |f.newInfos|))
  {
    f.(buckets := seq(NEW_BUCKET_COUNT, b requires 0 <= b < NEW_BUCKET_COUNT => Ascending(Own(net, f, b, |f.newInfos|))))
  }

  /** Each new entry is listed by its own bucket only. */
  lemma ListedOnce(net: Network, f: File, i: nat)
    requires i < |f.newInfos|
    ensures Listing(Rebucketed(net, f), i, NEW_BUCKET_COUNT) == {OwnBucket(net, f, i)}
  {
    var g := Rebucketed(net, f);
    forall b | 0 <= b < NEW_BUCKET_COUNT
      ensures i in g.buckets[b] <==> b == OwnBucket(net, f, i)
    {
      assert i in g.buckets[b] <==> i in Own(net, f, b, |f.newInfos|);
    }
  }

  lemma {:induction false} SameTriedList(net: Network, f: File, g: File, k: nat, n: nat)
    requires g == f.(buckets := g.buckets) && n <= |f.triedInfos|
    ensures TriedList(net, g, k, n) == TriedList(net, f, k, n)
  {
    if n > 0 { SameTriedList(net, f, g, k, n - 1); }
  }

  /** The entries of the file are sound, whatever its buckets. */
  ghost predicate EntriesFine(net: Network, f: File) { NetsDistinct(f) && TriedFits(net, f) }

  lemma SameEntries(net: Network, f: File, g: File)
    requires g == f.(buckets := g.buckets) && EntriesFine(net, f)
    ensures EntriesFine(net, g) && Entries(g) == Entries(f)
  {
    forall k | 0 <= k < TRIED_BUCKET_COUNT
      ensures |TriedList(net, g, k, |g.triedInfos|)| <= TRIED_BUCKET_SIZE
    {
      SameTriedList(net, f, g, k, |f.triedInfos|);
    }
    forall i, j | 0 <= i < j < Count(g)
      ensures NetOf(g, i) != NetOf(g, j)
    {
      assert NetOf(f, i) != NetOf(f, j);
    }
  }

  /** All entries are kept, each new one with its own bucket. */
  lemma EntriesOwned(net: Network, f: File)
    requires EntriesFine(net, f) && |f.buckets| != NEW_BUCKET_COUNT
    ensures var t := ReadTried(net, Plain(f), |f.triedInfos|).0;
      && ReadEntries(net, f) == Owned(net, f, |f.newInfos|, t)
      && Loaded(Plain(f), Count(f), t) && TriedLoaded(net, Plain(f), |f.triedInfos|, t)
      && t.nIdCount == Count(f) && t.nKey == f.nKey && t.nNew == |f.newInfos| && t.nTried == |f.triedInfos|
    ensures ReadTried(net, f, |f.triedInfos|).1 == 0
  {
    SameEntries(net, f, Plain(f));
    AllLoaded(net, Plain(f), |f.triedInfos|);
    ReadTriedSizes(net, Plain(f), |f.triedInfos|);
    TriedOwned(net, f, |f.triedInfos|);
  }

  lemma ReferencesOwned(net: Network, f: File, t: Tables)
    requires Loaded(Plain(f), Count(f), t)
    ensures ReferencesLoaded(Rebucketed(net, f), NEW_BUCKET_COUNT, [], Owned(net, f, |f.newInfos|, t))
  {
    var g, s := Rebucketed(net, f), Owned(net, f, |f.newInfos|, t);
    forall i | 0 <= i < Count(f)
      ensures EntryAt(Plain(f), i) == EntryAt(g, i)
      ensures i < |f.newInfos| ==> Counted(g, i, NEW_BUCKET_COUNT, []) == 1
    {
      if i < |f.newInfos| {
        ListedOnce(net, f, i);
      }
    }
    forall i | 0 <= i < |f.newInfos|
      ensures s.mapInfo[i] == EntryAt(g, i).(refCount := Counted(g, i, NEW_BUCKET_COUNT, []))
    {
      assert t.mapInfo[i] == EntryAt(Plain(f), i);
    }
  }

  lemma BucketsOwned(net: Network, f: File, s: Tables)
    requires s.vvNew == OwnBuckets(net, f, |f.newInfos|)
    ensures NewLoadedUpTo(Rebucketed(net, f), NEW_BUCKET_COUNT, [], s)
  {
    var g := Rebucketed(net, f);
    forall b | 0 <= b < NEW_BUCKET_COUNT
      ensures s.vvNew[b] == Members(g.buckets[b])
    {
      assert forall i :: i in g.buckets[b] <==> i in Own(net, f, b, |f.newInfos|);
    }
  }

  /** The file is read as if each new entry were listed once, by its own bucket. */
  lemma ForeignFinal(net: Network, f: File)
    requires EntriesFine(net, f) && |f.buckets| < NEW_BUCKET_COUNT && IndicesKnown(f)
    ensures Final(net, Rebucketed(net, f), TablesOf(net, f))
    ensures TablesOf(net, f).vvNew == OwnBuckets(net, f, |f.newInfos|)
  {
    var t := ReadTried(net, Plain(f), |f.triedInfos|).0;
    EntriesOwned(net, f);
    IdleBuckets(net, f, |f.buckets|);
    ReferencesOwned(net, f, t);
    BucketsOwned(net, f, TablesOf(net, f));
    TriedSame(net, f, t);
    AddressesSame(net, f, t);
  }

  lemma TriedSame(net: Network, f: File, t: Tables)
    requires TriedLoaded(net, Plain(f), |f.triedInfos|, t)
    ensures TriedLoaded(net, Rebucketed(net, f), |f.triedInfos|, t)
  {
    forall k | 0 <= k < TRIED_BUCKET_COUNT
      ensures t.vvTried[k] == TriedList(net, Rebucketed(net, f), k, |f.triedInfos|)
    {
      SameTriedList(net, Plain(f), Rebucketed(net, f), k, |f.triedInfos|);
    }
  }

  lemma AddressesSame(net: Network, f: File, t: Tables)
    requires AddressesLoaded(Plain(f), Count(f), t)
    ensures AddressesLoaded(Rebucketed(net, f), Count(f), t)
  {
    forall i | 0 <= i < Count(f)
      ensures NetOf(Plain(f), i) == NetOf(Rebucketed(net, f), i)
    {
    }
  }

  ghost predicate NoneOverfull(net: Network, f: File) {
    forall b :: 0 <= b < NEW_BUCKET_COUNT ==> |Own(net, f, b, |f.newInfos|)| <= NEW_BUCKET_SIZE
  }

  lemma RebucketedWellFormed(net: Network, f: File)
    requires EntriesFine(net, f) && NoneOverfull(net, f)
    ensures WellFormed(net, Rebucketed(net, f))
  {
    var g := Rebucketed(net, f);
    SameEntries(net, f, g);
    forall b | 0 <= b < NEW_BUCKET_COUNT
      ensures BucketFine(g, g.buckets[b])
    {
      assert forall i :: i in g.buckets[b] <==> i in Own(net, f, b, |f.newInfos|);
    }
    forall i | 0 <= i < |g.newInfos|
      ensures |Listing(g, i, |g.buckets|)| == 1
    {
      ListedOnce(net, f, i);
    }
  }

  /** What is read from a file with another bucket count is consistent exactly if no bucket gets too full. */
  lemma ForeignInv(net: Network, f: File)
    requires EntriesFine(net, f) && |f.buckets| < NEW_BUCKET_COUNT && IndicesKnown(f)
    ensures Inv(net, TablesOf(net, f), NO_ENTRY) <==> NoneOverfull(net, f)
  {
    var s := TablesOf(net, f);
    ForeignFinal(net, f);
    if NoneOverfull(net, f) {
      RebucketedWellFormed(net, f);
      FinalInv(net, Rebucketed(net, f), s);
    }
    if Inv(net, s, NO_ENTRY) {
      assert forall b :: 0 <= b < NEW_BUCKET_COUNT ==> |s.vvNew[b]| <= NEW_BUCKET_SIZE;
    }
  }

  // ----- a file that overfills a bucket -----

  /** A network whose hash function sends every address to bucket 0. */
  ghost function OneBucket(): Network {
    Network((items: seq<Item>) => 0, (a: NetAddr) => [], (s: Service) => [], (a: NetAddr) => true)
  }

  /** One new entry more than a bucket holds, and no bucket lists. */
  ghost function LongFile(count: nat): (f: File)
    ensures |f.newInfos| == count && f.triedInfos == [] && f.buckets == []
    ensures forall i :: 0 <= i < count ==> f.newInfos[i].service.net == NetAddr(i)
  {
    File([], seq(count, i requires 0 <= i < count => Saved(Service(NetAddr(i), 0), {}, 0, NetAddr(0), 0, 0)), [], [])
  }

  lemma LongFileOverfills(count: nat)
    requires count > NEW_BUCKET_SIZE
    ensures var f := LongFile(count);
      && EntriesFine(OneBucket(), f) && IndicesKnown(f) && !Inv(OneBucket(), TablesOf(OneBucket(), f), NO_ENTRY)
  {
    var net, f := OneBucket(), LongFile(count);
    assert Entries(f) == f.newInfos;
    RangeCount(0, count, Own(net, f, 0, count));
    ForeignInv(net, f);
  }
}
