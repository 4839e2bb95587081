/**
 What a peer file says about each entry, field by field: which entry of the manager a place in the file stands
 for when it is written, and which entry it becomes when it is read.
 */
module AddrFields {
  import opened Collections
  import opened AddrTables
  import opened AddrSteps
  import opened AddrFile
  import opened AddrReload

  /** The six fields in the file are those of the entry. */
  ghost predicate HasFields(info: Info, v: Saved) {
    && info.service == v.service && info.services == v.services && info.time == v.time
    && info.source == v.source && info.lastSuccess == v.lastSuccess && info.attempts == v.attempts
  }

  /** An entry as read: the fields of the file, no attempt yet, and the table it came from. */
  ghost predicate IsReadFrom(info: Info, v: Saved, tried: bool) {
    HasFields(info, v) && info.lastTry == 0 && info.inTried == tried
  }

  // ----- writing -----

  lemma {:induction false} SelectAscending(mapInfo: map<int, Info>, ids: seq<int>, tried: bool)
    requires StrictlyAscending(ids)
    ensures StrictlyAscending(Select(mapInfo, ids, tried))
  {
    if ids != [] {
      var n := |ids| - 1;
      SelectAscending(mapInfo, ids[..n], tried);
      var q := Select(mapInfo, ids[..n], tried);
      forall i | 0 <= i < |q|
        ensures q[i] < ids[n]
      {
        var x := q[i];
        SelectMembers(mapInfo, ids[..n], tried);
        assert x in q && x in ids[..n];
      }
    }
  }

  /** `q` lists the entries of one kind in the order of their ids. */
  ghost predicate InIdOrder(mapInfo: map<int, Info>, q: seq<int>, tried: bool) {
    && StrictlyAscending(q)
    && forall id :: id in q <==> id in mapInfo && mapInfo[id].inTried == tried
  }

  lemma OrderedInIdOrder(mapInfo: map<int, Info>, tried: bool)
    ensures InIdOrder(mapInfo, Ordered(mapInfo, tried), tried)
  {
    OrderedFacts(mapInfo, tried);
    SelectAscending(mapInfo, Ascending(mapInfo.Keys), tried);
  }

  /** The list `saved` holds the fields of the entries `q`, place by place. */
  ghost predicate ListsFields(mapInfo: map<int, Info>, q: seq<int>, saved: seq<Saved>) {
    |saved| == |q| && forall i :: 0 <= i < |q| ==> q[i] in mapInfo && HasFields(mapInfo[q[i]], saved[i])
  }

  /** A file that belongs to the tables lists the fields of the new entries in id order, then those of the tried ones. */
  lemma WrittenFields(t: Tables, f: File)
    requires IsFileOf(t, f)
    ensures exists q :: InIdOrder(t.mapInfo, q, false) && ListsFields(t.mapInfo, q, f.newInfos)
    ensures exists q :: InIdOrder(t.mapInfo, q, true) && ListsFields(t.mapInfo, q, f.triedInfos)
  {
    OrderedInIdOrder(t.mapInfo, false);
    OrderedInIdOrder(t.mapInfo, true);
    ListedFields(t.mapInfo, Ordered(t.mapInfo, false), false);
    ListedFields(t.mapInfo, Ordered(t.mapInfo, true), true);
  }

  lemma ListedFields(mapInfo: map<int, Info>, q: seq<int>, tried: bool)
    requires InIdOrder(mapInfo, q, tried)
    ensures ListsFields(mapInfo, q, SavedList(mapInfo, q))
  {
    forall i | 0 <= i < |q|
      ensures q[i] in mapInfo && HasFields(mapInfo[q[i]], SavedList(mapInfo, q)[i])
    {
      var id := q[i];
      assert id in q;
    }
  }

  // ----- reading -----

  lemma {:induction false} NewRead(net: Network, f: File, n: nat, i: nat)
    requires i < n <= |f.newInfos|
    ensures i in ReadNew(net, f, n).mapInfo && IsReadFrom(ReadNew(net, f, n).mapInfo[i], f.newInfos[i], false)
  {
    if i < n - 1 {
      NewRead(net, f, n - 1, i);
    }
  }

  ghost predicate IsId(id: int) { true }

  /** `s` has the entries of `t` below its counter, unchanged; to be opened at an id. */
  ghost predicate Extends(t: Tables, s: Tables) {
    && t.nIdCount <= s.nIdCount
    && forall id {:trigger IsId(id)} :: IsId(id) && id < t.nIdCount && id in t.mapInfo ==>
         id in s.mapInfo && s.mapInfo[id] == t.mapInfo[id]
  }

  lemma ExtendsTransitive(t: Tables, s: Tables, r: Tables)
    requires Extends(t, s) && Extends(s, r)
    ensures Extends(t, r)
  {
  }

  lemma ExtendsEntry(t: Tables, s: Tables, id: int)
    requires Extends(t, s) && id < t.nIdCount && id in t.mapInfo
    ensures id in s.mapInfo && s.mapInfo[id] == t.mapInfo[id]
  {
    assert IsId(id);
  }

  lemma TriedStepExtends(net: Network, t: Tables, v: Saved)
    ensures Extends(t, TriedStep(net, t, v))
  {
  }

  lemma TriedStepAdds(net: Network, t: Tables, v: Saved)
    requires HasRoom(net, t, v)
    ensures var s := TriedStep(net, t, v);
      s.nIdCount == t.nIdCount + 1 && t.nIdCount in s.mapInfo && IsReadFrom(s.mapInfo[t.nIdCount], v, true)
  {
  }

  /** The tables after `j` tried entries have been read. */
  ghost function TriedRead(net: Network, f: File, j: nat): Tables
    requires j <= |f.triedInfos|
  {
    ReadTried(net, f, j).0
  }

  lemma NextTriedRead(net: Network, f: File, j: nat)
    requires j < |f.triedInfos|
    ensures TriedRead(net, f, j + 1) == TriedStep(net, TriedRead(net, f, j), f.triedInfos[j])
  {
  }

  lemma NextExtends(net: Network, f: File, j: nat)
    requires j < |f.triedInfos|
    ensures Extends(TriedRead(net, f, j), TriedRead(net, f, j + 1))
  {
    NextTriedRead(net, f, j);
    TriedStepExtends(net, TriedRead(net, f, j), f.triedInfos[j]);
  }

  lemma {:induction false} ExtendsAlong(ts: seq<Tables>, m: nat, n: nat)
    requires m <= n < |ts| && forall j :: 0 <= j < |ts| - 1 ==> Extends(ts[j], ts[j + 1])
    ensures Extends(ts[m], ts[n])
    decreases n
  {
    if m < n {
      ExtendsAlong(ts, m, n - 1);
      assert Extends(ts[n - 1], ts[n - 1 + 1]);
      ExtendsTransitive(ts[m], ts[n - 1], ts[n]);
    }
  }

  /** Entries that have been read stay as they are while more tried ones are read. */
  lemma TriedReadExtends(net: Network, f: File, m: nat, n: nat)
    requires m <= n <= |f.triedInfos|
    ensures Extends(TriedRead(net, f, m), TriedRead(net, f, n))
  {
    var ts := seq(|f.triedInfos| + 1, j requires 0 <= j <= |f.triedInfos| => TriedRead(net, f, j));
    forall j | 0 <= j < |ts| - 1
      ensures Extends(ts[j], ts[j + 1])
    {
      NextExtends(net, f, j);
    }
    ExtendsAlong(ts, m, n);
  }

  /** Reading a bucket changes only how often an entry is counted. */
  lemma {:induction false} BucketReadKeeps(f: File, t: Tables, b: nat, q: seq<int>, id: int)
    requires b < |t.vvNew| && id in t.mapInfo
    ensures var s := ReadBucket(f, t, b, q);
      id in s.mapInfo && s.mapInfo[id] == t.mapInfo[id].(refCount := s.mapInfo[id].refCount)
    decreases |q|
  {
    if q != [] {
      BucketReadKeeps(f, t, b, q[..|q| - 1], id);
    }
  }

  lemma {:induction false} BucketsReadKeep(net: Network, f: File, n: nat, id: int)
    requires n <= |f.buckets| <= NEW_BUCKET_COUNT && id in ReadEntries(net, f).mapInfo
    ensures var s, t := ReadBuckets(net, f, n), ReadEntries(net, f);
      id in s.mapInfo && s.mapInfo[id] == t.mapInfo[id].(refCount := s.mapInfo[id].refCount)
  {
    if n > 0 {
      BucketsReadKeep(net, f, n - 1, id);
      BucketReadKeeps(f, ReadBuckets(net, f, n - 1), n - 1, f.buckets[n - 1], id);
    }
  }

  /** Once read, an entry keeps its fields to the end of the file. */
  lemma ReadStays(net: Network, f: File, j: nat, id: int, v: Saved, tried: bool)
    requires j <= |f.triedInfos| && |f.buckets| <= NEW_BUCKET_COUNT
    requires id < TriedRead(net, f, j).nIdCount && BecomesEntry(TriedRead(net, f, j).mapInfo, id, v, tried)
    ensures BecomesEntry(TablesOf(net, f).mapInfo, id, v, tried)
  {
    TriedReadExtends(net, f, j, |f.triedInfos|);
    ExtendsEntry(TriedRead(net, f, j), TriedRead(net, f, |f.triedInfos|), id);
    BucketsReadKeep(net, f, |f.buckets|, id);
  }

  /** Entry `v` of the file has become entry `id`. */
  ghost predicate BecomesEntry(mapInfo: map<int, Info>, id: int, v: Saved, tried: bool) {
    id in mapInfo && IsReadFrom(mapInfo[id], v, tried)
  }

  /** New entry `i` of any file becomes entry `i` of the manager, with the fields of the file. */
  lemma NewEntryRead(net: Network, f: File, i: nat)
    requires i < |f.newInfos| && |f.buckets| <= NEW_BUCKET_COUNT
    ensures BecomesEntry(TablesOf(net, f).mapInfo, i, f.newInfos[i], false)
  {
    NewRead(net, f, |f.newInfos|, i);
    ReadStays(net, f, 0, i, f.newInfos[i], false);
  }

  /** The bucket of tried entry `j` is not full when it is read. */
  ghost predicate FindsRoom(net: Network, f: File, j: nat)
    requires j < |f.triedInfos|
  {
    HasRoom(net, TriedRead(net, f, j), f.triedInfos[j])
  }

  /** The id for tried entry `j`: those before it that found room follow the new entries. */
  ghost function IdFor(net: Network, f: File, j: nat): nat
    requires j <= |f.triedInfos|
  {
    if j == 0 then |f.newInfos| else IdFor(net, f, j - 1) + (if FindsRoom(net, f, j - 1) then 1 else 0)
  }

  /** Entries that find no room are counted as lost. */
  lemma {:induction false} LostCounts(net: Network, f: File, j: nat)
    requires j <= |f.triedInfos|
    ensures ReadTried(net, f, j).1 == j - (IdFor(net, f, j) - |f.newInfos|)
  {
    if j > 0 {
      LostCounts(net, f, j - 1);
      NextCounted(net, f, j - 1);
    }
  }

  lemma NextCounted(net: Network, f: File, j: nat)
    requires j < |f.triedInfos|
    ensures TriedRead(net, f, j + 1).nIdCount == TriedRead(net, f, j).nIdCount + (if FindsRoom(net, f, j) then 1 else 0)
    ensures ReadTried(net, f, j + 1).1 == ReadTried(net, f, j).1 + (if FindsRoom(net, f, j) then 0 else 1)
  {
    NextTriedRead(net, f, j);
  }

  lemma {:induction false} IdForCounts(net: Network, f: File, j: nat)
    requires j <= |f.triedInfos|
    ensures TriedRead(net, f, j).nIdCount == IdFor(net, f, j)
  {
    if j > 0 {
      IdForCounts(net, f, j - 1);
      NextCounted(net, f, j - 1);
    }
  }

  /** A tried entry that finds room gets the next id, with the fields of the file. */
  lemma TriedEntryRead(net: Network, f: File, j: nat)
    requires j < |f.triedInfos| && |f.buckets| <= NEW_BUCKET_COUNT && FindsRoom(net, f, j)
    ensures BecomesEntry(TablesOf(net, f).mapInfo, IdFor(net, f, j), f.triedInfos[j], true)
  {
    IdForCounts(net, f, j);
    NextTriedRead(net, f, j);
    TriedStepAdds(net, TriedRead(net, f, j), f.triedInfos[j]);
    ReadStays(net, f, j + 1, IdFor(net, f, j), f.triedInfos[j], true);
  }

  /** Every new entry of the file has become an entry, and every tried one that found room. */
  ghost predicate AllRead(net: Network, f: File, mapInfo: map<int, Info>) {
    && (forall i :: 0 <= i < |f.newInfos| ==> BecomesEntry(mapInfo, i, f.newInfos[i], false))
    && (forall j :: 0 <= j < |f.triedInfos| && FindsRoom(net, f, j) ==>
          BecomesEntry(mapInfo, IdFor(net, f, j), f.triedInfos[j], true))
  }

  lemma ReadFields(net: Network, f: File)
    requires |f.buckets| <= NEW_BUCKET_COUNT
    ensures AllRead(net, f, TablesOf(net, f).mapInfo)
  {
    forall i | 0 <= i < |f.newInfos|
      ensures BecomesEntry(TablesOf(net, f).mapInfo, i, f.newInfos[i], false)
    {
      NewEntryRead(net, f, i);
    }
    forall j | 0 <= j < |f.triedInfos| && FindsRoom(net, f, j)
      ensures BecomesEntry(TablesOf(net, f).mapInfo, IdFor(net, f, j), f.triedInfos[j], true)
    {
      TriedEntryRead(net, f, j);
    }
  }

  /** In a well-formed file, tried entry `j` follows the new entries at place `j`. */
  lemma TriedEntryFits(net: Network, f: File, j: nat)
    requires j < |f.triedInfos| && WellFormed(net, f)
    ensures BecomesEntry(TablesOf(net, f).mapInfo, |f.newInfos| + j, f.triedInfos[j], true)
  {
    AllFind(net, f, j);
    TriedEntryRead(net, f, j);
  }

  lemma AllFind(net: Network, f: File, j: nat)
    requires j < |f.triedInfos| && WellFormed(net, f)
    ensures FindsRoom(net, f, j) && IdFor(net, f, j) == |f.newInfos| + j
  {
    AllLoaded(net, f, j);
    IdForCounts(net, f, j);
    ReadTriedSizes(net, f, j);
    RoomForNext(net, f, j, TriedRead(net, f, j));
  }

  /** A bucket that lists an unknown number makes an entry without address for it. */
  lemma UnknownIndexRead(f: File, t: Tables, b: nat, index: int)
    requires b < |t.vvNew| && index !in t.mapInfo
    ensures var s := ReadBucket(f, t, b, [index]);
      && s.mapInfo.Keys == t.mapInfo.Keys + {index} && s.mapAddr == t.mapAddr && s.vRandom == t.vRandom
      && s.mapInfo[index].service == Service(NetAddr(0), 0) && s.mapInfo[index].services == {0}
      && s.mapInfo[index].time == 100_000_000 && s.mapInfo[index].source == NetAddr(0)
      && s.mapInfo[index].lastSuccess == 0 && s.mapInfo[index].attempts == 0 && s.mapInfo[index].lastTry == 0
      && s.mapInfo[index].randomPos == -1 && !s.mapInfo[index].inTried
  {
    assert [index][..0] == [];
    assert ReadBucket(f, t, b, []) == t;
  }
}
