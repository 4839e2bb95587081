/**
 Moving an entry from the new table to the tried table.

 `Promoted` relates the tables before and after `AddrMan.MakeTried`. A full tried bucket gives up one
 entry, the victim, which goes back to the new table; otherwise the victim is NO_ENTRY.
 */
module AddrPromotion {
  import opened Collections
  import opened AddrTables
  import opened AddrEviction

  ghost function HomeBucket(net: Network, t: Tables, id: int): nat
    requires id in t.mapInfo
  {
    TriedBucket(net, t.nKey, t.mapInfo[id].service)
  }

  /** The tried entry that `id` becomes. */
  ghost function TriedInfo(info: Info): Info { info.(refCount := 0, inTried := true) }

  /** The new entry that an evicted tried entry becomes. */
  ghost function DemotedInfo(info: Info): Info { info.(refCount := 1, inTried := false) }

  ghost predicate EntriesPromoted(t: Tables, id: int, victim: int, s: Tables)
    requires id in t.mapInfo && (victim != NO_ENTRY ==> victim in t.mapInfo)
  {
    var moved := t.mapInfo[id := TriedInfo(t.mapInfo[id])];
    s.mapInfo == if victim == NO_ENTRY then moved else moved[victim := DemotedInfo(t.mapInfo[victim])]
  }

  /** `id` left every new bucket, and the victim, if any, joined bucket `u`. */
  ghost predicate NewBucketsPromoted(t: Tables, id: int, victim: int, u: int, s: Tables) {
    && |s.vvNew| == |t.vvNew|
    && forall b :: 0 <= b < |t.vvNew| ==>
         s.vvNew[b] == if b == u && victim != NO_ENTRY then t.vvNew[b] - {id} + {victim} else t.vvNew[b] - {id}
  }

  /** The home bucket has `id` at its end, or instead of the victim that a sampling chose. */
  ghost predicate TriedBucketPromoted(mapInfo: map<int, Info>, before: seq<int>, id: int, victim: int, after: seq<int>) {
    if victim == NO_ENTRY then after == before + [id] else Replaced(mapInfo, before, id, victim, after)
  }

  ghost predicate Promoted(net: Network, t: Tables, id: int, origin: int, victim: int, u: int, s: Tables)
    requires id in t.mapInfo
  {
    var k := HomeBucket(net, t, id);
    && k < |t.vvTried| && 0 <= u < |t.vvNew|
    && (victim == NO_ENTRY <==> |t.vvTried[k]| < TRIED_BUCKET_SIZE)
    && (victim != NO_ENTRY ==>
          && victim in t.mapInfo
          && var wanted := NewBucket(net, t.nKey, t.mapInfo[victim].service, t.mapInfo[victim].source);
             wanted < |t.vvNew| && u == if |t.vvNew[wanted] - {id}| < NEW_BUCKET_SIZE then wanted else origin)
    && EntriesPromoted(t, id, victim, s)
    && NewBucketsPromoted(t, id, victim, u, s)
    && |s.vvTried| == |t.vvTried|
    && (forall b :: 0 <= b < |t.vvTried| && b != k ==> s.vvTried[b] == t.vvTried[b])
    && TriedBucketPromoted(t.mapInfo, t.vvTried[k], id, victim, s.vvTried[k])
    && s.nTried == (if victim == NO_ENTRY then t.nTried + 1 else t.nTried)
    && s.nNew == (if victim == NO_ENTRY then t.nNew - 1 else t.nNew)
    && s.nKey == t.nKey && s.nIdCount == t.nIdCount && s.mapAddr == t.mapAddr && s.vRandom == t.vRandom
  }

  // ----- the parts of the invariant -----

  ghost predicate CanPromote(net: Network, t: Tables, id: int, origin: int) {
    && Inv(net, t, NO_ENTRY)
    && id in t.mapInfo && !t.mapInfo[id].inTried
    && 0 <= origin < |t.vvNew| && id in t.vvNew[origin]
  }

  lemma VictimFacts(net: Network, t: Tables, id: int, origin: int, victim: int, u: int, s: Tables)
    requires CanPromote(net, t, id, origin) && Promoted(net, t, id, origin, victim, u, s)
    ensures victim != NO_ENTRY ==> victim in t.vvTried[HomeBucket(net, t, id)]
    ensures victim != NO_ENTRY ==> victim != id && t.mapInfo[victim].inTried && |t.vvNew[u] - {id}| < NEW_BUCKET_SIZE
    ensures s.mapInfo.Keys == t.mapInfo.Keys
    ensures forall x :: x in t.mapInfo && x != id && x != victim ==> s.mapInfo[x] == t.mapInfo[x]
    ensures s.mapInfo[id] == TriedInfo(t.mapInfo[id])
    ensures victim != NO_ENTRY ==> s.mapInfo[victim] == DemotedInfo(t.mapInfo[victim])
  {
    SetKeys(t.mapInfo, id, TriedInfo(t.mapInfo[id]));
    if victim != NO_ENTRY {
      var k := HomeBucket(net, t, id);
      ReplacedCounts(t.mapInfo, t.vvTried[k], id, victim, s.vvTried[k]);
      SetKeys(t.mapInfo[id := TriedInfo(t.mapInfo[id])], victim, DemotedInfo(t.mapInfo[victim]));
    }
  }

  lemma PromotedRandom(net: Network, t: Tables, id: int, origin: int, victim: int, u: int, s: Tables)
    requires CanPromote(net, t, id, origin) && Promoted(net, t, id, origin, victim, u, s)
    ensures RandomOk(s) && AddrOk(s)
  {
    var t1 := SetInfo(t, id, TriedInfo(t.mapInfo[id]));
    SetKeepsRandom(t, id, TriedInfo(t.mapInfo[id]));
    SetKeepsAddr(t, id, TriedInfo(t.mapInfo[id]));
    VictimFacts(net, t, id, origin, victim, u, s);
    if victim != NO_ENTRY {
      SetKeepsRandom(t1, victim, DemotedInfo(t1.mapInfo[victim]));
      SetKeepsAddr(t1, victim, DemotedInfo(t1.mapInfo[victim]));
    }
  }

  lemma PromotedIds(m: map<int, Info>, id: int, victim: int, n: map<int, Info>)
    requires id in m && !m[id].inTried
    requires victim != NO_ENTRY ==> victim in m && m[victim].inTried
    requires n == var moved := m[id := TriedInfo(m[id])];
                  if victim == NO_ENTRY then moved else moved[victim := DemotedInfo(m[victim])]
    ensures |TriedIds(n)| == |TriedIds(m)| + (if victim == NO_ENTRY then 1 else 0)
    ensures |NewIds(n)| == |NewIds(m)| - (if victim == NO_ENTRY then 1 else 0)
  {
    var moved := m[id := TriedInfo(m[id])];
    IdsAfterSet(m, id, TriedInfo(m[id]));
    assert id in NewIds(m) && id !in TriedIds(m);
    if victim != NO_ENTRY {
      IdsAfterSet(moved, victim, DemotedInfo(m[victim]));
      assert victim in TriedIds(moved) && victim !in NewIds(moved);
    }
  }

  lemma PromotedCounts(net: Network, t: Tables, id: int, origin: int, victim: int, u: int, s: Tables)
    requires CanPromote(net, t, id, origin) && Promoted(net, t, id, origin, victim, u, s)
    ensures CountsOk(s)
  {
    VictimFacts(net, t, id, origin, victim, u, s);
    PromotedIds(t.mapInfo, id, victim, s.mapInfo);
    assert forall x :: x in s.mapInfo ==> x in t.mapInfo.Keys;
  }

  /** The holders of an entry after the promotion. */
  lemma PromotedHolders(t: Tables, id: int, victim: int, u: int, s: Tables, x: int)
    requires NewBucketsPromoted(t, id, victim, u, s) && 0 <= u < |t.vvNew|
    requires victim != NO_ENTRY ==> victim != id && HolderCount(t.vvNew, victim) == 0
    ensures HolderCount(s.vvNew, x) ==
      if x == id then 0 else if x == victim && victim != NO_ENTRY then 1 else HolderCount(t.vvNew, x)
  {
    var before, after := Holders(t.vvNew, x, |t.vvNew|), Holders(s.vvNew, x, |s.vvNew|);
    if x == id {
      assert after == {};
    } else if x == victim && victim != NO_ENTRY {
      assert before == {};
      assert forall b :: 0 <= b < |t.vvNew| && x in t.vvNew[b] ==> b in before;
      assert after == {u};
    } else {
      assert after == before;
    }
  }

  lemma PromotedRefCounts(net: Network, t: Tables, id: int, origin: int, victim: int, u: int, s: Tables)
    requires CanPromote(net, t, id, origin) && Promoted(net, t, id, origin, victim, u, s)
    ensures RefCountsOk(s, NO_ENTRY)
  {
    VictimFacts(net, t, id, origin, victim, u, s);
    if victim != NO_ENTRY {
      assert RefCountOk(t, victim, NO_ENTRY);
    }
    forall x | x in s.mapInfo
      ensures RefCountOk(s, x, NO_ENTRY)
    {
      assert x in t.mapInfo.Keys;
      PromotedHolders(t, id, victim, u, s, x);
      assert RefCountOk(t, x, NO_ENTRY);
      assert x >= 0;
    }
  }

  /** What a promotion means for the entries of the new table. */
  ghost predicate NewMoved(t: Tables, id: int, victim: int, s: Tables) {
    && s.mapInfo.Keys == t.mapInfo.Keys
    && (forall x :: x in t.mapInfo && x != id && x != victim ==> s.mapInfo[x] == t.mapInfo[x])
    && (victim != NO_ENTRY ==> victim in t.mapInfo && t.mapInfo[victim].inTried && !s.mapInfo[victim].inTried)
  }

  lemma MovedNewMember(t: Tables, id: int, victim: int, u: int, s: Tables, b: int, x: int)
    requires NewBucketsOk(t) && NO_ENTRY !in t.mapInfo
    requires NewBucketsPromoted(t, id, victim, u, s) && NewMoved(t, id, victim, s)
    requires 0 <= b < |s.vvNew| && x in s.vvNew[b]
    ensures x in s.mapInfo && !s.mapInfo[x].inTried
  {
    if x != victim {
      assert x in t.vvNew[b] && x in t.mapInfo && x != id;
    } else {
      assert victim != NO_ENTRY;
    }
    assert x in s.mapInfo.Keys;
  }

  lemma MovedNewBuckets(t: Tables, id: int, victim: int, u: int, s: Tables)
    requires NewBucketsOk(t) && NO_ENTRY !in t.mapInfo
    requires NewBucketsPromoted(t, id, victim, u, s) && NewMoved(t, id, victim, s)
    requires victim != NO_ENTRY ==> 0 <= u < |t.vvNew| && |t.vvNew[u] - {id}| < NEW_BUCKET_SIZE
    ensures NewBucketsOk(s)
  {
    forall b | 0 <= b < |s.vvNew|
      ensures |s.vvNew[b]| <= NEW_BUCKET_SIZE
    {
      assert |t.vvNew[b] - {id}| <= |t.vvNew[b]|;
    }
    forall b, x | 0 <= b < |s.vvNew| && x in s.vvNew[b]
      ensures x in s.mapInfo && !s.mapInfo[x].inTried
    {
      MovedNewMember(t, id, victim, u, s, b, x);
    }
  }

  lemma PromotedNewBuckets(net: Network, t: Tables, id: int, origin: int, victim: int, u: int, s: Tables)
    requires CanPromote(net, t, id, origin) && Promoted(net, t, id, origin, victim, u, s)
    ensures NewBucketsOk(s)
  {
    VictimFacts(net, t, id, origin, victim, u, s);
    MovedNewBuckets(t, id, victim, u, s);
  }

  /** One bucket: distinct and of the right size afterwards, with the victim replaced. */
  lemma PromotedBucket(mapInfo: map<int, Info>, before: seq<int>, id: int, victim: int, after: seq<int>)
    requires TriedBucketPromoted(mapInfo, before, id, victim, after) && Distinct(before) && id !in before
    requires victim == NO_ENTRY ==> |before| < TRIED_BUCKET_SIZE
    requires |before| <= TRIED_BUCKET_SIZE
    ensures Distinct(after) && |after| <= TRIED_BUCKET_SIZE
    ensures forall x :: x in after <==> x == id || (x in before && (victim == NO_ENTRY || x != victim))
  {
    if victim != NO_ENTRY {
      ReplacedCounts(mapInfo, before, id, victim, after);
      ExchangedBucket(before, id, victim, after);
    }
  }

  lemma ExchangedBucket(before: seq<int>, id: int, victim: int, after: seq<int>)
    requires Distinct(before) && id !in before && victim in before
    requires multiset(after) == multiset(before) - multiset{victim} + multiset{id}
    ensures Distinct(after) && |after| == |before|
    ensures forall x :: x in after <==> x == id || (x in before && x != victim)
  {
    DistinctOnce(before);
    DistinctOnce(after);
    assert |multiset(after)| == |after| && |multiset(before)| == |before|;
    assert id !in multiset(before);
    assert forall x :: x in after <==> x in multiset(after);
    assert forall x :: x in before <==> x in multiset(before);
  }

  /** The home bucket afterwards. */
  lemma PromotedHome(net: Network, t: Tables, id: int, origin: int, victim: int, u: int, s: Tables)
    requires CanPromote(net, t, id, origin) && Promoted(net, t, id, origin, victim, u, s)
    ensures var k := HomeBucket(net, t, id);
      && k < |t.vvTried| == |s.vvTried| && Distinct(s.vvTried[k]) && |s.vvTried[k]| <= TRIED_BUCKET_SIZE
      && forall x :: x in s.vvTried[k] <==> x == id || (x in t.vvTried[k] && (victim == NO_ENTRY || x != victim))
  {
    var k := HomeBucket(net, t, id);
    PromotedBucket(t.mapInfo, t.vvTried[k], id, victim, s.vvTried[k]);
  }

  /** What a promotion means for the tried table. */
  ghost predicate TriedMoved(net: Network, t: Tables, k: int, id: int, victim: int, s: Tables) {
    && 0 <= k < |t.vvTried| == |s.vvTried| && s.nKey == t.nKey && s.mapInfo.Keys == t.mapInfo.Keys
    && id in t.mapInfo && k == TriedBucket(net, t.nKey, t.mapInfo[id].service)
    && s.mapInfo[id] == TriedInfo(t.mapInfo[id])
    && (victim != NO_ENTRY ==> victim in t.vvTried[k] && victim in t.mapInfo && !s.mapInfo[victim].inTried)
    && (forall x :: x in t.mapInfo && x != id && x != victim ==> s.mapInfo[x] == t.mapInfo[x])
    && (forall b :: 0 <= b < |t.vvTried| && b != k ==> s.vvTried[b] == t.vvTried[b])
    && (forall x :: x in s.vvTried[k] <==> x == id || (x in t.vvTried[k] && (victim == NO_ENTRY || x != victim)))
  }

  lemma MovedMember(net: Network, t: Tables, k: int, id: int, victim: int, s: Tables, b: int, x: int)
    requires TriedBucketsOk(net, t) && NO_ENTRY !in t.mapInfo && TriedMoved(net, t, k, id, victim, s)
    requires 0 <= b < |s.vvTried| && x in s.vvTried[b]
    ensures x in s.mapInfo && s.mapInfo[x].inTried && TriedBucket(net, s.nKey, s.mapInfo[x].service) == b
  {
    assert x != id ==> x in t.vvTried[b];
    assert x in t.mapInfo.Keys;
  }

  lemma MovedEntry(net: Network, t: Tables, k: int, id: int, victim: int, s: Tables, x: int)
    requires TriedBucketsOk(net, t) && NO_ENTRY !in t.mapInfo && TriedMoved(net, t, k, id, victim, s) && x in s.mapInfo
    ensures TriedEntryOk(net, s, x)
  {
    assert x in t.mapInfo.Keys && TriedEntryOk(net, t, x);
  }

  lemma MovedTried(net: Network, t: Tables, k: int, id: int, victim: int, s: Tables)
    requires TriedBucketsOk(net, t) && NO_ENTRY !in t.mapInfo && TriedMoved(net, t, k, id, victim, s)
    requires Distinct(s.vvTried[k]) && |s.vvTried[k]| <= TRIED_BUCKET_SIZE
    ensures TriedBucketsOk(net, s)
  {
    forall b, x | 0 <= b < |s.vvTried| && x in s.vvTried[b]
      ensures x in s.mapInfo && s.mapInfo[x].inTried && TriedBucket(net, s.nKey, s.mapInfo[x].service) == b
    {
      MovedMember(net, t, k, id, victim, s, b, x);
    }
    forall x | x in s.mapInfo
      ensures TriedEntryOk(net, s, x)
    {
      MovedEntry(net, t, k, id, victim, s, x);
    }
  }

  lemma PromotedTried(net: Network, t: Tables, id: int, origin: int, victim: int, u: int, s: Tables)
    requires CanPromote(net, t, id, origin) && Promoted(net, t, id, origin, victim, u, s)
    ensures TriedBucketsOk(net, s)
  {
    VictimFacts(net, t, id, origin, victim, u, s);
    PromotedHome(net, t, id, origin, victim, u, s);
    MovedTried(net, t, HomeBucket(net, t, id), id, victim, s);
  }

  /** Promotion keeps the whole structural invariant. */
  lemma PromotedKeeps(net: Network, t: Tables, id: int, origin: int, victim: int, u: int, s: Tables)
    requires CanPromote(net, t, id, origin) && Promoted(net, t, id, origin, victim, u, s)
    ensures Inv(net, s, NO_ENTRY)
  {
    PromotedRandom(net, t, id, origin, victim, u, s);
    PromotedCounts(net, t, id, origin, victim, u, s);
    PromotedRefCounts(net, t, id, origin, victim, u, s);
    PromotedNewBuckets(net, t, id, origin, victim, u, s);
    PromotedTried(net, t, id, origin, victim, u, s);
  }
}
