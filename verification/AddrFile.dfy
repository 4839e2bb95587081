/**
 The saved form of the address manager (`CAddrMan` serialization): which file belongs to given tables, and
 which tables a file is read into.

 Writing renumbers the entries: the new entries become 0, 1, 2, ... in the order of their ids, the
 tried entries follow. Neither ids nor reference counts nor the order of `vRandom` are saved.
 */
module AddrFile {
  import opened Collections
  import opened AddrTables
  import opened AddrSteps

  /** The fields of an entry that are written. */
  datatype Saved = Saved(
    service: Service,
    services: set<int>,
    time: uint32,
    source: NetAddr,
    lastSuccess: int,
    attempts: int)

  /** The stream; the counts that precede each list in it are the lengths of the lists. */
  datatype File = File(
    nKey: seq<int>,
    newInfos: seq<Saved>,
    triedInfos: seq<Saved>,
    buckets: seq<seq<int>>)

  function Save(info: Info): Saved {
    Saved(info.service, info.services, info.time, info.source, info.lastSuccess, info.attempts)
  }

  /** A freshly constructed entry with the saved fields read into it. */
  function Load(v: Saved): Info {
    Info(v.service, v.services, v.time, 0, v.source, v.lastSuccess, v.attempts, 0, false, -1)
  }

  // ----- selecting entries in id order -----

  /** The new (or tried) ones among `ids`, in order. */
  function Select(mapInfo: map<int, Info>, ids: seq<int>, tried: bool): (q: seq<int>) {
    if ids == [] then []
    else
      var n := |ids| - 1;
      var q := Select(mapInfo, ids[..n], tried);
      if ids[n] in mapInfo && mapInfo[ids[n]].inTried == tried then q + [ids[n]] else q
  }

  lemma {:induction false} SelectMembers(mapInfo: map<int, Info>, ids: seq<int>, tried: bool)
    ensures forall id :: id in Select(mapInfo, ids, tried) <==> id in ids && id in mapInfo && mapInfo[id].inTried == tried
  {
    if ids != [] {
      var n := |ids| - 1;
      SelectMembers(mapInfo, ids[..n], tried);
      assert forall id :: id in ids <==> id in ids[..n] || id == ids[n];
    }
  }

  lemma {:induction false} SelectDistinct(mapInfo: map<int, Info>, ids: seq<int>, tried: bool)
    requires Distinct(ids)
    ensures Distinct(Select(mapInfo, ids, tried))
  {
    if ids != [] {
      var n := |ids| - 1;
      SelectDistinct(mapInfo, ids[..n], tried);
      SelectMembers(mapInfo, ids[..n], tried);
      assert ids[n] !in ids[..n];
    }
  }

  /** Selecting from a prefix gives a prefix of the selection. */
  lemma {:induction false} SelectPrefix(mapInfo: map<int, Info>, ids: seq<int>, tried: bool, n: nat)
    requires n <= |ids|
    ensures Select(mapInfo, ids[..n], tried) <= Select(mapInfo, ids, tried)
    decreases |ids|
  {
    if n == |ids| {
      assert ids[..n] == ids;
    } else {
      var m := |ids| - 1;
      assert ids[..m][..n] == ids[..n];
      SelectPrefix(mapInfo, ids[..m], tried, n);
    }
  }

  /** The new (or tried) ids in ascending order. */
  function Ordered(mapInfo: map<int, Info>, tried: bool): (q: seq<int>) {
    Select(mapInfo, Ascending(mapInfo.Keys), tried)
  }

  lemma OrderedFacts(mapInfo: map<int, Info>, tried: bool)
    ensures Distinct(Ordered(mapInfo, tried))
    ensures forall id :: id in Ordered(mapInfo, tried) <==> id in mapInfo && mapInfo[id].inTried == tried
    ensures |Ordered(mapInfo, tried)| == |if tried then TriedIds(mapInfo) else NewIds(mapInfo)|
  {
    var ids := Ascending(mapInfo.Keys);
    SelectDistinct(mapInfo, ids, tried);
    SelectMembers(mapInfo, ids, tried);
    var q := Ordered(mapInfo, tried);
    assert forall id :: id in mapInfo ==> id in mapInfo.Keys && id in ids;
    DistinctCount(q, if tried then TriedIds(mapInfo) else NewIds(mapInfo));
  }

  /** The place of an element in a duplicate-free sequence. */
  function Rank(q: seq<int>, id: int): (i: nat)
    requires id in q
    ensures i < |q| && q[i] == id
  {
    if q[|q| - 1] == id then |q| - 1 else Rank(q[..|q| - 1], id)
  }

  lemma RankUnique(q: seq<int>, i: nat)
    requires Distinct(q) && i < |q|
    ensures Rank(q, q[i]) == i
  {
  }

  // ----- what writing produces -----

  function BlankInfo(): Info {
    Info(Service(NetAddr(0), 0), {0}, 100000000, 0, NetAddr(0), 0, 0, 0, false, -1)
  }

  /** `mapInfo[id]` in C++: a missing key reads as a default entry. */
  function At(mapInfo: map<int, Info>, id: int): Info {
    if id in mapInfo then mapInfo[id] else BlankInfo()
  }

  function SavedList(mapInfo: map<int, Info>, q: seq<int>): (r: seq<Saved>)
    ensures |r| == |q| && forall i :: 0 <= i < |q| ==> r[i] == Save(At(mapInfo, q[i]))
  {
    seq(|q|, i requires 0 <= i < |q| => Save(At(mapInfo, q[i])))
  }

  function Ranks(newIds: seq<int>, q: seq<int>): (r: seq<int>)
    requires forall i :: 0 <= i < |q| ==> q[i] in newIds
    ensures |r| == |q| && forall i :: 0 <= i < |q| ==> r[i] == Rank(newIds, q[i])
  {
    seq(|q|, i requires 0 <= i < |q| => Rank(newIds, q[i]))
  }

  ghost predicate Covered(newIds: seq<int>, bucket: set<int>) {
    forall id :: id in bucket ==> id in newIds
  }

  lemma AscendingCovered(newIds: seq<int>, bucket: set<int>)
    requires Covered(newIds, bucket)
    ensures forall i :: 0 <= i < |Ascending(bucket)| ==> Ascending(bucket)[i] in newIds
  {
    var ids := Ascending(bucket);
    forall i | 0 <= i < |ids|
      ensures ids[i] in newIds
    {
      assert ids[i] in ids;
    }
  }

  /** The saved form of one new bucket. */
  function BucketRanks(newIds: seq<int>, bucket: set<int>): seq<int>
    requires Covered(newIds, bucket)
  {
    AscendingCovered(newIds, bucket);
    Ranks(newIds, Ascending(bucket))
  }

  ghost predicate BucketsCovered(newIds: seq<int>, vvNew: seq<set<int>>) {
    forall b :: 0 <= b < |vvNew| ==> Covered(newIds, vvNew[b])
  }

  ghost predicate BucketsWritten(newIds: seq<int>, vvNew: seq<set<int>>, buckets: seq<seq<int>>)
    requires BucketsCovered(newIds, vvNew)
  {
    && |buckets| == |vvNew|
    && forall b :: 0 <= b < |vvNew| ==> buckets[b] == BucketRanks(newIds, vvNew[b])
  }

  ghost predicate EntriesWritten(mapInfo: map<int, Info>, newIds: seq<int>, triedIds: seq<int>, f: File) {
    && f.newInfos == SavedList(mapInfo, newIds)
    && f.triedInfos == SavedList(mapInfo, triedIds)
  }

  /** `f` lists the entries of `t`. */
  ghost predicate EntriesOf(t: Tables, f: File) {
    f.nKey == t.nKey && EntriesWritten(t.mapInfo, Ordered(t.mapInfo, false), Ordered(t.mapInfo, true), f)
  }

  /** `f` lists the new buckets of `t`. */
  ghost predicate BucketsOf(t: Tables, f: File) {
    var newIds := Ordered(t.mapInfo, false);
    BucketsCovered(newIds, t.vvNew) && BucketsWritten(newIds, t.vvNew, f.buckets)
  }

  /** `f` is the file that belongs to the tables. */
  ghost predicate IsFileOf(t: Tables, f: File) { EntriesOf(t, f) && BucketsOf(t, f) }

  /** Exactly the new entries have references. */
  ghost predicate ReferencesTell(mapInfo: map<int, Info>) {
    forall id :: id in mapInfo ==> (mapInfo[id].refCount != 0 <==> !mapInfo[id].inTried)
  }

  lemma InvReferences(t: Tables)
    requires RefCountsOk(t, NO_ENTRY)
    ensures ReferencesTell(t.mapInfo)
  {
    forall id | id in t.mapInfo
      ensures t.mapInfo[id].refCount != 0 <==> !t.mapInfo[id].inTried
    {
      assert RefCountOk(t, id, NO_ENTRY);
    }
  }

  lemma InvCovered(t: Tables)
    requires NewBucketsOk(t)
    ensures BucketsCovered(Ordered(t.mapInfo, false), t.vvNew)
  {
    OrderedFacts(t.mapInfo, false);
    var newIds := Ordered(t.mapInfo, false);
    forall b | 0 <= b < |t.vvNew|
      ensures Covered(newIds, t.vvNew[b])
    {
      forall id | id in t.vvNew[b]
        ensures id in newIds
      {
        assert id in t.mapInfo && !t.mapInfo[id].inTried;
      }
    }
  }

  lemma InvCounts(t: Tables)
    requires CountsOk(t)
    ensures t.nNew == |Ordered(t.mapInfo, false)| && t.nTried == |Ordered(t.mapInfo, true)|
  {
    OrderedFacts(t.mapInfo, false);
    OrderedFacts(t.mapInfo, true);
  }

  lemma InvWritable(net: Network, t: Tables)
    requires Inv(net, t, NO_ENTRY)
    ensures BucketsCovered(Ordered(t.mapInfo, false), t.vvNew)
    ensures ReferencesTell(t.mapInfo)
    ensures t.nNew == |Ordered(t.mapInfo, false)| && t.nTried == |Ordered(t.mapInfo, true)|
  {
    InvCovered(t);
    InvReferences(t);
    InvCounts(t);
  }

  // ----- the writing loops -----

  /** `saved` lists what the first `i` of the ids contribute. */
  ghost predicate SavedSoFar(mapInfo: map<int, Info>, ids: seq<int>, i: nat, tried: bool, saved: seq<Saved>) {
    i <= |ids| && saved == SavedList(mapInfo, Select(mapInfo, ids[..i], tried))
  }

  lemma SaveOne(mapInfo: map<int, Info>, ids: seq<int>, i: nat, tried: bool, saved: seq<Saved>)
    requires SavedSoFar(mapInfo, ids, i, tried, saved) && i < |ids| && ids[i] in mapInfo
    ensures SavedSoFar(mapInfo, ids, i + 1, tried,
                       if mapInfo[ids[i]].inTried == tried then saved + [Save(mapInfo[ids[i]])] else saved)
  {
    assert ids[..i + 1][..i] == ids[..i];
  }

  /** The number an entry gets is its rank among the entries of its kind. */
  lemma SaveRank(mapInfo: map<int, Info>, ids: seq<int>, i: nat, tried: bool, saved: seq<Saved>)
    requires SavedSoFar(mapInfo, ids, i, tried, saved) && i < |ids| && ids[i] in mapInfo && mapInfo[ids[i]].inTried == tried
    requires Distinct(Select(mapInfo, ids, tried))
    ensures ids[i] in Select(mapInfo, ids, tried) && Rank(Select(mapInfo, ids, tried), ids[i]) == |saved|
  {
    var q := Select(mapInfo, ids[..i + 1], tried);
    assert ids[..i + 1][..i] == ids[..i];
    SelectPrefix(mapInfo, ids, tried, i + 1);
    assert q[|saved|] == ids[i];
    RankUnique(Select(mapInfo, ids, tried), |saved|);
  }

  /** A selection of full length is the whole selection. */
  lemma SaveDone(mapInfo: map<int, Info>, ids: seq<int>, i: nat, tried: bool, saved: seq<Saved>)
    requires SavedSoFar(mapInfo, ids, i, tried, saved)
    requires i == |ids| || |saved| == |Select(mapInfo, ids, tried)|
    ensures Select(mapInfo, ids[..i], tried) == Select(mapInfo, ids, tried)
    ensures saved == SavedList(mapInfo, Select(mapInfo, ids, tried))
  {
    if i == |ids| {
      assert ids[..i] == ids;
    }
    SelectPrefix(mapInfo, ids, tried, i);
  }

  // ----- what reading produces -----

  /** One new entry read; without usable buckets in the file it goes into its own one. */
  ghost function NewStep(net: Network, direct: bool, t: Tables, n: nat, v: Saved): Tables {
    var b := NewBucket(net, t.nKey, v.service, v.source);
    t.(mapInfo := t.mapInfo[n := Load(v).(randomPos := |t.vRandom|, refCount := if direct then 1 else 0)],
       mapAddr := t.mapAddr[v.service.net := n],
       vRandom := t.vRandom + [n],
       vvNew := if direct && b < |t.vvNew| then t.vvNew[b := t.vvNew[b] + {n}] else t.vvNew)
  }

  /** The tables after `n` new entries of the file have been read. */
  ghost function ReadNew(net: Network, f: File, n: nat): Tables
    requires n <= |f.newInfos|
  {
    if n == 0 then EmptyTables(f.nKey).(nNew := |f.newInfos|, nTried := |f.triedInfos|)
    else NewStep(net, |f.buckets| != NEW_BUCKET_COUNT, ReadNew(net, f, n - 1), n - 1, f.newInfos[n - 1])
  }

  ghost predicate HasRoom(net: Network, t: Tables, v: Saved) {
    var k := TriedBucket(net, t.nKey, v.service);
    k < |t.vvTried| && |t.vvTried[k]| < TRIED_BUCKET_SIZE
  }

  /** One tried entry read; if its bucket is full it is lost. */
  ghost function TriedStep(net: Network, t: Tables, v: Saved): Tables {
    if HasRoom(net, t, v) then
      var k := TriedBucket(net, t.nKey, v.service);
      t.(mapInfo := t.mapInfo[t.nIdCount := Load(v).(randomPos := |t.vRandom|, inTried := true)],
         mapAddr := t.mapAddr[v.service.net := t.nIdCount],
         vRandom := t.vRandom + [t.nIdCount],
         vvTried := t.vvTried[k := t.vvTried[k] + [t.nIdCount]],
         nIdCount := t.nIdCount + 1)
    else t
  }

  /** The tables and the number of lost entries after also `n` tried entries have been read. */
  ghost function ReadTried(net: Network, f: File, n: nat): (Tables, nat)
    requires n <= |f.triedInfos|
  {
    if n == 0 then (ReadNew(net, f, |f.newInfos|).(nIdCount := |f.newInfos|), 0)
    else LossyStep(net, ReadTried(net, f, n - 1), f.triedInfos[n - 1])
  }

  ghost function LossyStep(net: Network, r: (Tables, nat), v: Saved): (Tables, nat) {
    (TriedStep(net, r.0, v), if HasRoom(net, r.0, v) then r.1 else r.1 + 1)
  }

  ghost function ReadEntries(net: Network, f: File): Tables {
    var (t, lost) := ReadTried(net, f, |f.triedInfos|);
    t.(nTried := t.nTried - lost)
  }

  /** One bucket member read: counted and inserted unless the entry has enough buckets. */
  ghost function ReadMember(f: File, t: Tables, b: nat, index: int): Tables
    requires b < |t.vvNew|
  {
    var info := At(t.mapInfo, index);
    if |f.buckets| == NEW_BUCKET_COUNT && info.refCount < NEW_BUCKETS_PER_ADDRESS then
      t.(mapInfo := t.mapInfo[index := info.(refCount := info.refCount + 1)],
         vvNew := t.vvNew[b := t.vvNew[b] + {index}])
    else t.(mapInfo := t.mapInfo[index := info])
  }

  ghost function ReadBucket(f: File, t: Tables, b: nat, q: seq<int>): (s: Tables)
    requires b < |t.vvNew|
    ensures |s.vvNew| == |t.vvNew|
  {
    if q == [] then t else ReadMember(f, ReadBucket(f, t, b, q[..|q| - 1]), b, q[|q| - 1])
  }

  /** The tables after `n` buckets have been read. */
  ghost function ReadBuckets(net: Network, f: File, n: nat): (t: Tables)
    requires n <= |f.buckets| <= NEW_BUCKET_COUNT
    ensures |t.vvNew| == NEW_BUCKET_COUNT
  {
    if n == 0 then
      ReadTriedSizes(net, f, |f.triedInfos|);
      ReadEntries(net, f)
    else ReadBucket(f, ReadBuckets(net, f, n - 1), n - 1, f.buckets[n - 1])
  }

  lemma {:induction false} ReadNewSizes(net: Network, f: File, n: nat)
    requires n <= |f.newInfos|
    ensures var t := ReadNew(net, f, n);
      && |t.vvNew| == NEW_BUCKET_COUNT && |t.vvTried| == TRIED_BUCKET_COUNT
      && t.nKey == f.nKey && t.nNew == |f.newInfos| && t.nTried == |f.triedInfos|
  {
    if n > 0 { ReadNewSizes(net, f, n - 1); }
  }

  lemma {:induction false} ReadTriedSizes(net: Network, f: File, n: nat)
    requires n <= |f.triedInfos|
    ensures var t := ReadTried(net, f, n).0;
      && |t.vvNew| == NEW_BUCKET_COUNT && |t.vvTried| == TRIED_BUCKET_COUNT
      && t.nKey == f.nKey && t.nNew == |f.newInfos| && t.nTried == |f.triedInfos|
  {
    if n == 0 { ReadNewSizes(net, f, |f.newInfos|); } else { ReadTriedSizes(net, f, n - 1); }
  }

  /** The tables a file is read into. */
  ghost function TablesOf(net: Network, f: File): Tables
    requires |f.buckets| <= NEW_BUCKET_COUNT
  {
    ReadBuckets(net, f, |f.buckets|)
  }
}
