/** Writing and reading an address manager: the two halves of its serializer. */
module AddrStore {
  import opened Collections
  import opened AddrTables
  import opened AddrSteps
  import opened AddrManager
  import opened AddrFile
  import opened AddrFields
  import opened AddrRoundTrip

  ghost predicate Numbered(newIds: seq<int>, unkIds: map<int, int>) {
    forall id :: id in newIds ==> id in unkIds && unkIds[id] == Rank(newIds, id)
  }

  ghost predicate NumberedSoFar(mapInfo: map<int, Info>, newIds: seq<int>, ids: seq<int>, unkIds: map<int, int>) {
    forall id :: id in ids && id in mapInfo && !mapInfo[id].inTried ==>
      id in newIds && id in unkIds && unkIds[id] == Rank(newIds, id)
  }

  lemma NumberOne(mapInfo: map<int, Info>, newIds: seq<int>, ids: seq<int>, i: nat, unkIds: map<int, int>, n: int)
    requires i < |ids| && NumberedSoFar(mapInfo, newIds, ids[..i], unkIds)
    requires ids[i] in mapInfo && !mapInfo[ids[i]].inTried ==> ids[i] in newIds && n == Rank(newIds, ids[i])
    ensures NumberedSoFar(mapInfo, newIds, ids[..i + 1], unkIds[ids[i] := n])
  {
    assert ids[..i + 1] == ids[..i] + [ids[i]];
  }

  lemma NumberedAll(mapInfo: map<int, Info>, newIds: seq<int>, ids: seq<int>, unkIds: map<int, int>)
    requires NumberedSoFar(mapInfo, newIds, ids, unkIds) && newIds == Select(mapInfo, ids, false)
    ensures Numbered(newIds, unkIds)
  {
    SelectMembers(mapInfo, ids, false);
  }

  /** Writes the new entries among `ids` and numbers them, stopping once `nNew` have been written. */
  method WriteNew(mapInfo: map<int, Info>, ids: seq<int>, nNew: int, ghost newIds: seq<int>)
    returns (saved: seq<Saved>, unkIds: map<int, int>)
    requires newIds == Select(mapInfo, ids, false) && Distinct(newIds) && nNew == |newIds|
    requires (forall i :: 0 <= i < |ids| ==> ids[i] in mapInfo) && ReferencesTell(mapInfo)
    ensures saved == SavedList(mapInfo, newIds) && Numbered(newIds, unkIds)
  {
    saved, unkIds := [], map[];
    var n := 0;
    for i := 0 to |ids|
      invariant SavedSoFar(mapInfo, ids, i, false, saved) && n == |saved|
      invariant NumberedSoFar(mapInfo, newIds, ids[..i], unkIds)
    {
      if n == nNew {
        SaveDone(mapInfo, ids, i, false, saved);
        NumberedAll(mapInfo, newIds, ids[..i], unkIds);
        return;
      }
      var info := mapInfo[ids[i]];
      SaveOne(mapInfo, ids, i, false, saved);
      if !info.inTried {
        SaveRank(mapInfo, ids, i, false, saved);
      }
      NumberOne(mapInfo, newIds, ids, i, unkIds, n);
      unkIds := unkIds[ids[i] := n];
      if info.refCount != 0 {
        saved := saved + [Save(info)];
        n := n + 1;
      }
    }
    SaveDone(mapInfo, ids, |ids|, false, saved);
    NumberedAll(mapInfo, newIds, ids[..|ids|], unkIds);
  }

  /** Writes the tried entries among `ids`, stopping once `nTried` have been written. */
  method WriteTried(mapInfo: map<int, Info>, ids: seq<int>, nTried: int) returns (saved: seq<Saved>)
    requires nTried == |Select(mapInfo, ids, true)| && forall i :: 0 <= i < |ids| ==> ids[i] in mapInfo
    ensures saved == SavedList(mapInfo, Select(mapInfo, ids, true))
  {
    saved := [];
    var n := 0;
    for i := 0 to |ids|
      invariant SavedSoFar(mapInfo, ids, i, true, saved) && n == |saved|
    {
      if n == nTried {
        SaveDone(mapInfo, ids, i, true, saved);
        return;
      }
      SaveOne(mapInfo, ids, i, true, saved);
      var info := mapInfo[ids[i]];
      if info.inTried {
        saved := saved + [Save(info)];
        n := n + 1;
      }
    }
    SaveDone(mapInfo, ids, |ids|, true, saved);
  }

  method WriteBucket(bucket: set<int>, unkIds: map<int, int>, ghost newIds: seq<int>) returns (q: seq<int>)
    requires Covered(newIds, bucket) && Numbered(newIds, unkIds)
    ensures q == BucketRanks(newIds, bucket)
  {
    var ids := Ascending(bucket);
    AscendingCovered(newIds, bucket);
    q := [];
    for i := 0 to |ids|
      invariant |q| == i && forall j :: 0 <= j < i ==> q[j] == Rank(newIds, ids[j])
    {
      q := q + [unkIds[ids[i]]];
    }
  }

  /** The first `b` buckets are written. */
  ghost predicate WrittenUpTo(newIds: seq<int>, vvNew: seq<set<int>>, buckets: seq<seq<int>>, b: nat)
    requires BucketsCovered(newIds, vvNew)
  {
    |buckets| == b <= |vvNew| && forall c :: 0 <= c < b ==> buckets[c] == BucketRanks(newIds, vvNew[c])
  }

  method WriteBuckets(vvNew: seq<set<int>>, unkIds: map<int, int>, ghost newIds: seq<int>) returns (buckets: seq<seq<int>>)
    requires BucketsCovered(newIds, vvNew) && Numbered(newIds, unkIds)
    ensures BucketsWritten(newIds, vvNew, buckets)
  {
    buckets := [];
    for b := 0 to |vvNew|
      invariant WrittenUpTo(newIds, vvNew, buckets, b)
    {
      OneCovered(newIds, vvNew, b);
      var q := WriteBucket(vvNew[b], unkIds, newIds);
      WrittenMore(newIds, vvNew, buckets, b, q);
      buckets := buckets + [q];
    }
    AllWritten(newIds, vvNew, buckets);
  }

  lemma OneCovered(newIds: seq<int>, vvNew: seq<set<int>>, b: nat)
    requires BucketsCovered(newIds, vvNew) && b < |vvNew|
    ensures Covered(newIds, vvNew[b])
  {
  }

  lemma WrittenMore(newIds: seq<int>, vvNew: seq<set<int>>, buckets: seq<seq<int>>, b: nat, q: seq<int>)
    requires BucketsCovered(newIds, vvNew) && b < |vvNew| && WrittenUpTo(newIds, vvNew, buckets, b)
    requires Covered(newIds, vvNew[b]) && q == BucketRanks(newIds, vvNew[b])
    ensures WrittenUpTo(newIds, vvNew, buckets + [q], b + 1)
  {
  }

  lemma AllWritten(newIds: seq<int>, vvNew: seq<set<int>>, buckets: seq<seq<int>>)
    requires BucketsCovered(newIds, vvNew) && WrittenUpTo(newIds, vvNew, buckets, |vvNew|)
    ensures BucketsWritten(newIds, vvNew, buckets)
  {
  }

  /** Writes the manager: key, new entries, tried entries, new buckets. */
  method Serialize(m: AddrMan) returns (f: File)
    requires Inv(m.net, m.View(), NO_ENTRY)
    ensures IsFileOf(m.View(), f)
    ensures exists q :: InIdOrder(m.mapInfo, q, false) && ListsFields(m.mapInfo, q, f.newInfos)
    ensures exists q :: InIdOrder(m.mapInfo, q, true) && ListsFields(m.mapInfo, q, f.triedInfos)
  {
    InvWritable(m.net, m.View());
    f := WriteAll(m);
    WrittenFields(m.View(), f);
  }

  method WriteAll(m: AddrMan) returns (f: File)
    requires BucketsCovered(Ordered(m.mapInfo, false), m.vvNew) && ReferencesTell(m.mapInfo)
    requires m.nNew == |Ordered(m.mapInfo, false)| && m.nTried == |Ordered(m.mapInfo, true)|
    ensures IsFileOf(m.View(), f)
  {
    var ids := Ascending(m.mapInfo.Keys);
    KeysKnown(m.mapInfo);
    OrderedFacts(m.mapInfo, false);
    var newInfos, unkIds := WriteNew(m.mapInfo, ids, m.nNew, Ordered(m.mapInfo, false));
    var triedInfos := WriteTried(m.mapInfo, ids, m.nTried);
    var buckets := WriteBuckets(m.vvNew, unkIds, Ordered(m.mapInfo, false));
    f := File(m.nKey, newInfos, triedInfos, buckets);
  }

  lemma KeysKnown(mapInfo: map<int, Info>)
    ensures forall i :: 0 <= i < |Ascending(mapInfo.Keys)| ==> Ascending(mapInfo.Keys)[i] in mapInfo
  {
    var ids := Ascending(mapInfo.Keys);
    forall i | 0 <= i < |ids|
      ensures ids[i] in mapInfo
    {
      assert ids[i] in ids;
    }
  }

  // ----- reading -----

  method LoadNewEntry(m: AddrMan, direct: bool, n: nat, v: Saved)
    requires |m.vvNew| == NEW_BUCKET_COUNT
    modifies m
    ensures m.View() == NewStep(m.net, direct, old(m.View()), n, v)
  {
    var info := Load(v);
    m.mapAddr := m.mapAddr[v.service.net := n];
    info := info.(randomPos := |m.vRandom|);
    m.vRandom := m.vRandom + [n];
    if direct {
      var b := NewBucket(m.net, m.nKey, v.service, v.source);
      m.vvNew := m.vvNew[b := m.vvNew[b] + {n}];
      info := info.(refCount := info.refCount + 1);
    }
    m.mapInfo := m.mapInfo[n := info];
  }

  method LoadNew(m: AddrMan, f: File)
    requires m.View() == ReadNew(m.net, f, 0)
    modifies m
    ensures m.View() == ReadNew(m.net, f, |f.newInfos|)
  {
    for n := 0 to |f.newInfos|
      invariant m.View() == ReadNew(m.net, f, n)
    {
      ReadNewSizes(m.net, f, n);
      LoadNewEntry(m, |f.buckets| != NEW_BUCKET_COUNT, n, f.newInfos[n]);
    }
  }

  method LoadTriedEntry(m: AddrMan, v: Saved) returns (kept: bool)
    requires |m.vvTried| == TRIED_BUCKET_COUNT
    modifies m
    ensures kept == HasRoom(m.net, old(m.View()), v)
    ensures m.View() == TriedStep(m.net, old(m.View()), v)
  {
    var info := Load(v);
    var k := TriedBucket(m.net, m.nKey, v.service);
    kept := |m.vvTried[k]| < TRIED_BUCKET_SIZE;
    if kept {
      info := info.(randomPos := |m.vRandom|);
      info := info.(inTried := true);
      m.vRandom := m.vRandom + [m.nIdCount];
      m.mapInfo := m.mapInfo[m.nIdCount := info];
      m.mapAddr := m.mapAddr[v.service.net := m.nIdCount];
      m.vvTried := m.vvTried[k := m.vvTried[k] + [m.nIdCount]];
      m.nIdCount := m.nIdCount + 1;
    }
  }

  method LoadTried(m: AddrMan, f: File) returns (lost: nat)
    requires m.View() == ReadTried(m.net, f, 0).0
    modifies m
    ensures lost == ReadTried(m.net, f, |f.triedInfos|).1
    ensures m.View() == ReadEntries(m.net, f)
  {
    lost := 0;
    for n := 0 to |f.triedInfos|
      invariant m.View() == ReadTried(m.net, f, n).0 && lost == ReadTried(m.net, f, n).1
    {
      ReadTriedSizes(m.net, f, n);
      var kept := LoadTriedEntry(m, f.triedInfos[n]);
      if !kept {
        lost := lost + 1;
      }
    }
    m.nTried := m.nTried - lost;
  }

  method LoadBucket(m: AddrMan, f: File, b: nat)
    requires b < |m.vvNew| && b < |f.buckets|
    modifies m
    ensures m.View() == ReadBucket(f, old(m.View()), b, f.buckets[b])
  {
    ghost var t := m.View();
    var q := f.buckets[b];
    for i := 0 to |q|
      invariant m.View() == ReadBucket(f, t, b, q[..i])
    {
      assert q[..i + 1][..i] == q[..i];
      var index := q[i];
      var info := At(m.mapInfo, index);
      if |f.buckets| == NEW_BUCKET_COUNT && info.refCount < NEW_BUCKETS_PER_ADDRESS {
        m.mapInfo := m.mapInfo[index := info.(refCount := info.refCount + 1)];
        m.vvNew := m.vvNew[b := m.vvNew[b] + {index}];
      } else {
        m.mapInfo := m.mapInfo[index := info];
      }
    }
    assert q[..|q|] == q;
  }

  method LoadBuckets(m: AddrMan, f: File)
    requires |f.buckets| <= NEW_BUCKET_COUNT && m.View() == ReadEntries(m.net, f)
    modifies m
    ensures m.View() == TablesOf(m.net, f)
  {
    for b := 0 to |f.buckets|
      invariant m.View() == ReadBuckets(m.net, f, b)
    {
      LoadBucket(m, f, b);
    }
  }

  /** Reads the head of the file and empties the tables. */
  method Reset(m: AddrMan, f: File)
    modifies m
    ensures m.View() == ReadNew(m.net, f, 0)
  {
    m.nKey := f.nKey;
    m.nNew := |f.newInfos|;
    m.nTried := |f.triedInfos|;
    m.nIdCount := 0;
    m.mapInfo := map[];
    m.mapAddr := map[];
    m.vRandom := [];
    m.vvTried := seq(TRIED_BUCKET_COUNT, _ => []);
    m.vvNew := seq(NEW_BUCKET_COUNT, _ => {});
  }

  /** Reads a file into the manager, replacing what was there. */
  method Unserialize(m: AddrMan, f: File) returns (lost: nat)
    requires |f.buckets| <= NEW_BUCKET_COUNT
    modifies m
    ensures m.View() == TablesOf(m.net, f)
    ensures lost == ReadTried(m.net, f, |f.triedInfos|).1
    ensures AllRead(m.net, f, m.mapInfo)
  {
    ReadFields(m.net, f);
    Reset(m, f);
    LoadNew(m, f);
    ReadNewSizes(m.net, f, |f.newInfos|);
    m.nIdCount := m.nNew;
    lost := LoadTried(m, f);
    LoadBuckets(m, f);
  }

  /** Saving a manager and loading the file into another one with the same network layer. */
  method SaveAndLoad(m: AddrMan, m': AddrMan) returns (lost: nat, ghost rho: map<int, int>)
    requires m.Valid() && m'.net == m.net && m' != m
    modifies m'
    ensures m'.Valid() && lost == 0
    ensures Isomorphic(m.View(), m'.View(), rho)
  {
    var f := Serialize(m);
    rho := RoundTrip(m.net, m.View(), f);
    lost := Unserialize(m', f);
  }
}
