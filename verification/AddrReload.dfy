/**
 Reading a well-formed file of the address manager: what the reader builds, and that it satisfies the
 invariant with nothing lost.
 */
module AddrReload {
  import opened Collections
  import opened AddrTables
  import opened AddrSteps
  import opened AddrFile

  function Entries(f: File): seq<Saved> { f.newInfos + f.triedInfos }

  function Count(f: File): nat { |f.newInfos| + |f.triedInfos| }

  function NetOf(f: File, i: nat): NetAddr
    requires i < Count(f)
  {
    Entries(f)[i].service.net
  }

  /** The ids that the first `n` tried entries of the file get in tried bucket `k`. */
  ghost function TriedList(net: Network, f: File, k: nat, n: nat): (q: seq<int>)
    requires n <= |f.triedInfos|
  {
    if n == 0 then []
    else
      var q := TriedList(net, f, k, n - 1);
      if TriedBucket(net, f.nKey, f.triedInfos[n - 1].service) == k then q + [|f.newInfos| + n - 1] else q
  }

  /** The buckets among the first `n` of the file that list index `i`. */
  ghost function Listing(f: File, i: int, n: nat): set<int>
    requires n <= |f.buckets|
  {
    set b | 0 <= b < n && i in f.buckets[b]
  }

  ghost predicate NetsDistinct(f: File) {
    forall i, j :: 0 <= i < j < Count(f) ==> NetOf(f, i) != NetOf(f, j)
  }

  ghost predicate TriedFits(net: Network, f: File) {
    forall k :: 0 <= k < TRIED_BUCKET_COUNT ==> |TriedList(net, f, k, |f.triedInfos|)| <= TRIED_BUCKET_SIZE
  }

  ghost predicate BucketFine(f: File, q: seq<int>) {
    && Distinct(q) && |q| <= NEW_BUCKET_SIZE
    && forall i :: i in q ==> 0 <= i < |f.newInfos|
  }

  ghost predicate BucketsFine(f: File) {
    && |f.buckets| == NEW_BUCKET_COUNT
    && (forall b :: 0 <= b < |f.buckets| ==> BucketFine(f, f.buckets[b]))
    && (forall i :: 0 <= i < |f.newInfos| ==> 1 <= |Listing(f, i, |f.buckets|)| <= NEW_BUCKETS_PER_ADDRESS)
  }

  ghost predicate WellFormed(net: Network, f: File) {
    NetsDistinct(f) && TriedFits(net, f) && BucketsFine(f)
  }

  // ----- the entries -----

  /** The entry that number `i` of the file becomes, before its buckets are read. */
  ghost function EntryAt(f: File, i: nat): Info
    requires i < Count(f)
  {
    Load(Entries(f)[i]).(randomPos := i, inTried := i >= |f.newInfos|)
  }

  ghost predicate EntriesLoaded(f: File, n: nat, t: Tables)
    requires n <= Count(f)
  {
    && (forall i :: i in t.mapInfo <==> 0 <= i < n)
    && (forall i :: 0 <= i < n ==> t.mapInfo[i] == EntryAt(f, i))
  }

  ghost predicate AddressesLoaded(f: File, n: nat, t: Tables)
    requires n <= Count(f)
  {
    && (forall i :: 0 <= i < n ==> NetOf(f, i) in t.mapAddr && t.mapAddr[NetOf(f, i)] == i)
    && (forall a :: a in t.mapAddr ==> 0 <= t.mapAddr[a] < n && NetOf(f, t.mapAddr[a]) == a)
  }

  ghost predicate RandomLoaded(n: nat, t: Tables) {
    |t.vRandom| == n && forall i :: 0 <= i < n ==> t.vRandom[i] == i
  }

  ghost predicate Loaded(f: File, n: nat, t: Tables)
    requires n <= Count(f)
  {
    EntriesLoaded(f, n, t) && AddressesLoaded(f, n, t) && RandomLoaded(n, t)
  }

  /** Entering the next entry of the file, whichever kind it is. */
  lemma LoadStep(f: File, n: nat, t: Tables, s: Tables)
    requires n < Count(f) && NetsDistinct(f) && Loaded(f, n, t)
    requires s.mapInfo == t.mapInfo[n := EntryAt(f, n)]
    requires s.mapAddr == t.mapAddr[NetOf(f, n) := n]
    requires s.vRandom == t.vRandom + [n]
    ensures Loaded(f, n + 1, s)
  {
    assert forall i :: 0 <= i < n ==> NetOf(f, i) != NetOf(f, n);
  }

  lemma {:induction false} NewLoaded(net: Network, f: File, n: nat)
    requires n <= |f.newInfos| && NetsDistinct(f) && |f.buckets| == NEW_BUCKET_COUNT
    ensures var t := ReadNew(net, f, n);
      && Loaded(f, n, t)
      && t.vvNew == EmptyTables(f.nKey).vvNew && t.vvTried == EmptyTables(f.nKey).vvTried
  {
    if n > 0 {
      NewLoaded(net, f, n - 1);
      assert Entries(f)[n - 1] == f.newInfos[n - 1];
      LoadStep(f, n - 1, ReadNew(net, f, n - 1), ReadNew(net, f, n));
    }
  }

  // ----- the tried buckets -----

  lemma {:induction false} TriedListGrows(net: Network, f: File, k: nat, n: nat, m: nat)
    requires n <= m <= |f.triedInfos|
    ensures |TriedList(net, f, k, n)| <= |TriedList(net, f, k, m)|
  {
    if n < m { TriedListGrows(net, f, k, n, m - 1); }
  }

  ghost predicate TriedLoaded(net: Network, f: File, n: nat, t: Tables)
    requires n <= |f.triedInfos|
  {
    && |t.vvTried| == TRIED_BUCKET_COUNT
    && forall k :: 0 <= k < TRIED_BUCKET_COUNT ==> t.vvTried[k] == TriedList(net, f, k, n)
  }

  lemma RoomForNext(net: Network, f: File, n: nat, t: Tables)
    requires n < |f.triedInfos| && TriedFits(net, f) && TriedLoaded(net, f, n, t) && t.nKey == f.nKey
    ensures HasRoom(net, t, f.triedInfos[n])
  {
    var k := TriedBucket(net, f.nKey, f.triedInfos[n].service);
    TriedListGrows(net, f, k, n + 1, |f.triedInfos|);
  }

  lemma TriedLoadedStep(net: Network, f: File, n: nat, t: Tables, s: Tables)
    requires n < |f.triedInfos| && TriedLoaded(net, f, n, t)
    requires var k := TriedBucket(net, f.nKey, f.triedInfos[n].service);
      s.vvTried == t.vvTried[k := t.vvTried[k] + [|f.newInfos| + n]]
    ensures TriedLoaded(net, f, n + 1, s)
  {
  }

  lemma NextLoaded(net: Network, f: File, n: nat, t: Tables)
    requires n < |f.triedInfos| && NetsDistinct(f) && TriedFits(net, f)
    requires Loaded(f, |f.newInfos| + n, t) && TriedLoaded(net, f, n, t)
    requires t.nIdCount == |f.newInfos| + n && t.nKey == f.nKey
    ensures var s := TriedStep(net, t, f.triedInfos[n]);
      && HasRoom(net, t, f.triedInfos[n])
      && Loaded(f, |f.newInfos| + n + 1, s) && TriedLoaded(net, f, n + 1, s)
      && s.vvNew == t.vvNew && s.nIdCount == t.nIdCount + 1
  {
    var s := TriedStep(net, t, f.triedInfos[n]);
    RoomForNext(net, f, n, t);
    assert Entries(f)[|f.newInfos| + n] == f.triedInfos[n];
    LoadStep(f, |f.newInfos| + n, t, s);
    TriedLoadedStep(net, f, n, t, s);
  }

  lemma FirstLoaded(net: Network, f: File)
    requires NetsDistinct(f) && |f.buckets| == NEW_BUCKET_COUNT
    ensures var t := ReadTried(net, f, 0).0;
      && Loaded(f, |f.newInfos|, t) && TriedLoaded(net, f, 0, t)
      && t.vvNew == EmptyTables(f.nKey).vvNew && t.nIdCount == |f.newInfos|
  {
    NewLoaded(net, f, |f.newInfos|);
  }

  /** All entries of a well-formed file are kept. */
  lemma {:induction false} AllLoaded(net: Network, f: File, n: nat)
    requires n <= |f.triedInfos| && NetsDistinct(f) && TriedFits(net, f) && |f.buckets| == NEW_BUCKET_COUNT
    ensures ReadTried(net, f, n).1 == 0
    ensures Loaded(f, |f.newInfos| + n, ReadTried(net, f, n).0)
    ensures TriedLoaded(net, f, n, ReadTried(net, f, n).0)
    ensures ReadTried(net, f, n).0.vvNew == EmptyTables(f.nKey).vvNew
    ensures ReadTried(net, f, n).0.nIdCount == |f.newInfos| + n
  {
    if n == 0 {
      FirstLoaded(net, f);
    } else {
      AllLoaded(net, f, n - 1);
      ReadTriedSizes(net, f, n - 1);
      NextLoaded(net, f, n - 1, ReadTried(net, f, n - 1).0);
    }
  }

  // ----- the new buckets -----

  ghost function Members(q: seq<int>): set<int> { set i | i in q }

  /** How often index `i` has been counted after `n` buckets and the members `q` of the next one. */
  ghost function Counted(f: File, i: int, n: nat, q: seq<int>): nat
    requires n <= |f.buckets|
  {
    |Listing(f, i, n)| + (if i in q then 1 else 0)
  }

  /** The entries once `n` buckets and the members `q` of the next have been read. */
  ghost predicate ReferencesLoaded(f: File, n: nat, q: seq<int>, t: Tables)
    requires n <= |f.buckets|
  {
    && (forall i :: i in t.mapInfo <==> 0 <= i < Count(f))
    && (forall i :: 0 <= i < |f.newInfos| ==> t.mapInfo[i] == EntryAt(f, i).(refCount := Counted(f, i, n, q)))
    && (forall i :: |f.newInfos| <= i < Count(f) ==> t.mapInfo[i] == EntryAt(f, i))
  }

  ghost predicate NewLoadedUpTo(f: File, n: nat, q: seq<int>, t: Tables)
    requires n <= |f.buckets|
  {
    && |t.vvNew| == NEW_BUCKET_COUNT
    && (forall b :: 0 <= b < n && b < NEW_BUCKET_COUNT ==> t.vvNew[b] == Members(f.buckets[b]))
    && (n < NEW_BUCKET_COUNT ==> t.vvNew[n] == Members(q))
    && (forall b :: n < b < NEW_BUCKET_COUNT ==> t.vvNew[b] == {})
  }

  lemma ListingGrows(f: File, i: int, b: nat)
    requires b < |f.buckets| && i in f.buckets[b]
    ensures |Listing(f, i, b)| < |Listing(f, i, |f.buckets|)|
  {
    var some, all := Listing(f, i, b), Listing(f, i, |f.buckets|);
    assert some + {b} <= all;
    assert all == (some + {b}) + (all - (some + {b}));
  }

  /** One more member of bucket `n`: it is not refused. */
  lemma MemberLoaded(f: File, n: nat, q: seq<int>, i: int, t: Tables)
    requires BucketsFine(f) && n < |f.buckets| && q + [i] <= f.buckets[n]
    requires ReferencesLoaded(f, n, q, t) && NewLoadedUpTo(f, n, q, t)
    ensures ReferencesLoaded(f, n, q + [i], ReadMember(f, t, n, i))
    ensures NewLoadedUpTo(f, n, q + [i], ReadMember(f, t, n, i))
  {
    var s := ReadMember(f, t, n, i);
    assert f.buckets[n][|q|] == i && BucketFine(f, f.buckets[n]);
    assert forall j :: 0 <= j < |q| ==> f.buckets[n][j] == q[j];
    assert i !in q;
    ListingGrows(f, i, n);
    assert s.vvNew == t.vvNew[n := t.vvNew[n] + {i}];
    assert Members(q + [i]) == Members(q) + {i};
  }

  lemma {:induction false} BucketLoaded(f: File, n: nat, q: seq<int>, t: Tables)
    requires BucketsFine(f) && n < |f.buckets| && q <= f.buckets[n] && |t.vvNew| == NEW_BUCKET_COUNT
    requires ReferencesLoaded(f, n, [], t) && NewLoadedUpTo(f, n, [], t)
    ensures ReferencesLoaded(f, n, q, ReadBucket(f, t, n, q))
    ensures NewLoadedUpTo(f, n, q, ReadBucket(f, t, n, q))
    decreases |q|
  {
    if q != [] {
      var front, last := q[..|q| - 1], q[|q| - 1];
      BucketLoaded(f, n, front, t);
      assert q == front + [last];
      MemberLoaded(f, n, front, last, ReadBucket(f, t, n, front));
    }
  }

  /** A bucket read to its end is the start of the next one. */
  lemma BucketFinished(f: File, n: nat, t: Tables)
    requires BucketsFine(f) && n < |f.buckets|
    requires ReferencesLoaded(f, n, f.buckets[n], t) && NewLoadedUpTo(f, n, f.buckets[n], t)
    ensures ReferencesLoaded(f, n + 1, [], t) && NewLoadedUpTo(f, n + 1, [], t)
  {
    forall i
      ensures Counted(f, i, n + 1, []) == Counted(f, i, n, f.buckets[n])
    {
      assert Listing(f, i, n + 1) == if i in f.buckets[n] then Listing(f, i, n) + {n} else Listing(f, i, n);
    }
  }

  /** What reading buckets leaves alone. */
  ghost predicate SameBut(t: Tables, s: Tables) {
    s == t.(mapInfo := s.mapInfo, vvNew := s.vvNew)
  }

  lemma {:induction false} BucketFrame(f: File, t: Tables, b: nat, q: seq<int>)
    requires b < |t.vvNew|
    ensures SameBut(t, ReadBucket(f, t, b, q))
    decreases |q|
  {
    if q != [] { BucketFrame(f, t, b, q[..|q| - 1]); }
  }

  lemma EntriesReady(net: Network, f: File)
    requires WellFormed(net, f)
    ensures ReferencesLoaded(f, 0, [], ReadEntries(net, f)) && NewLoadedUpTo(f, 0, [], ReadEntries(net, f))
  {
    AllLoaded(net, f, |f.triedInfos|);
    forall i
      ensures Counted(f, i, 0, []) == 0
    {
      assert Listing(f, i, 0) == {};
    }
    assert Members([]) == {};
  }

  /** The first `n` buckets are read, and nothing but entries and new buckets has changed since `start`. */
  ghost predicate Ready(f: File, n: nat, start: Tables, t: Tables) {
    n <= |f.buckets| && ReferencesLoaded(f, n, [], t) && NewLoadedUpTo(f, n, [], t) && SameBut(start, t)
  }

  lemma NextBucketLoaded(f: File, n: nat, start: Tables, t: Tables)
    requires BucketsFine(f) && n < |f.buckets| && |t.vvNew| == NEW_BUCKET_COUNT && Ready(f, n, start, t)
    ensures Ready(f, n + 1, start, ReadBucket(f, t, n, f.buckets[n]))
  {
    BucketLoaded(f, n, f.buckets[n], t);
    BucketFrame(f, t, n, f.buckets[n]);
    BucketFinished(f, n, ReadBucket(f, t, n, f.buckets[n]));
  }

  lemma {:induction false} BucketsLoaded(net: Network, f: File, n: nat, start: Tables)
    requires BucketsFine(f) && n <= |f.buckets| && Ready(f, 0, start, ReadBuckets(net, f, 0))
    ensures Ready(f, n, start, ReadBuckets(net, f, n))
  {
    if n > 0 {
      BucketsLoaded(net, f, n - 1, start);
      NextBucketLoaded(f, n - 1, start, ReadBuckets(net, f, n - 1));
    }
  }

  // ----- the invariant of what was read -----

  ghost predicate Final(net: Network, f: File, s: Tables)
    requires |f.buckets| == NEW_BUCKET_COUNT
  {
    && ReferencesLoaded(f, NEW_BUCKET_COUNT, [], s) && NewLoadedUpTo(f, NEW_BUCKET_COUNT, [], s)
    && AddressesLoaded(f, Count(f), s) && RandomLoaded(Count(f), s)
    && TriedLoaded(net, f, |f.triedInfos|, s)
    && s.nKey == f.nKey && s.nIdCount == Count(f) && s.nNew == |f.newInfos| && s.nTried == |f.triedInfos|
  }

  lemma ReadFinal(net: Network, f: File)
    requires WellFormed(net, f)
    ensures Final(net, f, TablesOf(net, f))
    ensures ReadTried(net, f, |f.triedInfos|).1 == 0
  {
    AllLoaded(net, f, |f.triedInfos|);
    ReadTriedSizes(net, f, |f.triedInfos|);
    EntriesReady(net, f);
    BucketsLoaded(net, f, |f.buckets|, ReadEntries(net, f));
  }

  lemma {:induction false} TriedListMembers(net: Network, f: File, k: nat, n: nat)
    requires n <= |f.triedInfos|
    ensures Distinct(TriedList(net, f, k, n))
    ensures forall x :: x in TriedList(net, f, k, n) <==>
      |f.newInfos| <= x < |f.newInfos| + n && TriedBucket(net, f.nKey, f.triedInfos[x - |f.newInfos|].service) == k
  {
    if n > 0 {
      TriedListMembers(net, f, k, n - 1);
      DistinctConcat(TriedList(net, f, k, n - 1), [|f.newInfos| + n - 1]);
    }
  }

  lemma FinalHolders(f: File, s: Tables, i: int)
    requires |f.buckets| == NEW_BUCKET_COUNT && NewLoadedUpTo(f, NEW_BUCKET_COUNT, [], s)
    ensures HolderCount(s.vvNew, i) == |Listing(f, i, |f.buckets|)|
  {
    assert Holders(s.vvNew, i, |s.vvNew|) == Listing(f, i, |f.buckets|);
  }

  lemma FinalRefCounts(net: Network, f: File, s: Tables)
    requires BucketsFine(f) && Final(net, f, s)
    ensures RefCountsOk(s, NO_ENTRY)
  {
    forall i | i in s.mapInfo
      ensures RefCountOk(s, i, NO_ENTRY)
    {
      FinalHolders(f, s, i);
      if i >= |f.newInfos| {
        assert forall b :: 0 <= b < |f.buckets| ==> BucketFine(f, f.buckets[b]);
        assert Listing(f, i, |f.buckets|) == {};
      }
    }
  }

  lemma FinalNewBuckets(net: Network, f: File, s: Tables)
    requires BucketsFine(f) && Final(net, f, s)
    ensures NewBucketsOk(s)
  {
    forall b | 0 <= b < |s.vvNew|
      ensures |s.vvNew[b]| <= NEW_BUCKET_SIZE
      ensures forall i :: i in s.vvNew[b] ==> i in s.mapInfo && !s.mapInfo[i].inTried
    {
      assert BucketFine(f, f.buckets[b]);
      DistinctCount(f.buckets[b], Members(f.buckets[b]));
    }
  }

  lemma FinalTried(net: Network, f: File, s: Tables)
    requires TriedFits(net, f) && |f.buckets| == NEW_BUCKET_COUNT && Final(net, f, s)
    ensures TriedBucketsOk(net, s)
  {
    forall k | 0 <= k < TRIED_BUCKET_COUNT
      ensures |s.vvTried[k]| <= TRIED_BUCKET_SIZE && Distinct(s.vvTried[k])
      ensures forall x :: x in s.vvTried[k] ==>
        x in s.mapInfo && s.mapInfo[x].inTried && TriedBucket(net, s.nKey, s.mapInfo[x].service) == k
    {
      TriedListMembers(net, f, k, |f.triedInfos|);
      assert forall x :: |f.newInfos| <= x < Count(f) ==> Entries(f)[x] == f.triedInfos[x - |f.newInfos|];
    }
    forall x | x in s.mapInfo
      ensures TriedEntryOk(net, s, x)
    {
      if s.mapInfo[x].inTried {
        var k := TriedBucket(net, s.nKey, s.mapInfo[x].service);
        TriedListMembers(net, f, k, |f.triedInfos|);
        assert Entries(f)[x] == f.triedInfos[x - |f.newInfos|];
      }
    }
  }

  lemma {:induction false} RangeCount(lo: int, hi: int, s: set<int>)
    requires lo <= hi && forall i :: i in s <==> lo <= i < hi
    ensures |s| == hi - lo
    decreases hi - lo
  {
    if lo == hi {
      assert forall i :: i !in s;
      assert s == {};
    } else {
      RangeCount(lo, hi - 1, s - {hi - 1});
    }
  }

  lemma FinalCounts(net: Network, f: File, s: Tables)
    requires |f.buckets| == NEW_BUCKET_COUNT && Final(net, f, s)
    ensures CountsOk(s) && |s.mapInfo| == Count(f)
  {
    RangeCount(0, |f.newInfos|, NewIds(s.mapInfo));
    RangeCount(|f.newInfos|, Count(f), TriedIds(s.mapInfo));
    assert forall i :: i in s.mapInfo.Keys <==> i in s.mapInfo;
    RangeCount(0, Count(f), s.mapInfo.Keys);
    assert |s.mapInfo| == |s.mapInfo.Keys|;
  }

  /** The manager read from a well-formed file satisfies the invariant. */
  lemma FinalInv(net: Network, f: File, s: Tables)
    requires WellFormed(net, f) && Final(net, f, s)
    ensures Inv(net, s, NO_ENTRY)
  {
    FinalRefCounts(net, f, s);
    FinalNewBuckets(net, f, s);
    FinalTried(net, f, s);
    FinalCounts(net, f, s);
    FinalAddr(net, f, s);
    FinalRandom(net, f, s);
  }

  lemma FinalRandom(net: Network, f: File, s: Tables)
    requires |f.buckets| == NEW_BUCKET_COUNT && Final(net, f, s)
    ensures RandomOk(s)
  {
    FinalCounts(net, f, s);
    forall i | i in s.mapInfo
      ensures s.mapInfo[i].randomPos == i
    {
    }
  }

  lemma FinalAddr(net: Network, f: File, s: Tables)
    requires |f.buckets| == NEW_BUCKET_COUNT && Final(net, f, s)
    ensures AddrOk(s)
  {
    forall i | i in s.mapInfo
      ensures s.mapInfo[i].service.net == NetOf(f, i)
    {
      assert s.mapInfo[i].service == EntryAt(f, i).service;
    }
  }
}
