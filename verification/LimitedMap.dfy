/** The container itself. */
module LimitedMap {
  import opened LimitedMapSpec

  class Limited<K(==, !new)> {
    var entries: map<K, int>
    var rmap: seq<Link<K>>
    var nMaxSize: nat

    ghost predicate Valid()
      reads this
    {
      Inverse(entries, rmap)
    }

    constructor (n: nat)
      ensures Valid() && entries == map[] && nMaxSize == n
    {
      entries, rmap, nMaxSize := map[], [], n;
    }

    /** The end of the links with values up to `v`: where a multimap puts a new one. */
    method UpperBound(v: int) returns (i: nat)
      requires Ordered(rmap)
      ensures IsPlace(rmap, i, v)
    {
      i := 0;
      while i < |rmap| && rmap[i].value <= v
        invariant 0 <= i <= |rmap| && forall j :: 0 <= j < i ==> rmap[j].value <= v
      {
        i := i + 1;
      }
    }

    /** rmap.insert. */
    method AddLink(k: K, v: int, ghost e: map<K, int>)
      requires Inverse(e, rmap) && k !in e && entries == e[k := v]
      modifies this`rmap
      ensures Valid()
    {
      var i := UpperBound(v);
      AddKeeps(e, rmap, k, v, i);
      rmap := With(rmap, i, Link(v, k));
    }

    /** Whether inserting a new key finds the map full. */
    predicate Evicts(k: K)
      reads this
    {
      k !in entries && nMaxSize != 0 && |entries| + 1 == nMaxSize
    }

    /**
     insert. The eviction takes the first link before the new entry has one, so it needs an older entry: a
     new key in an empty map of size 1 has none.
     */
    method Insert(k: K, v: int)
      requires Valid() && (Evicts(k) ==> entries != map[])
      modifies this
      ensures Valid() && nMaxSize == old(nMaxSize)
      ensures k in old(entries) ==> entries == old(entries) && rmap == old(rmap)
      ensures k !in old(entries) && !old(Evicts(k)) ==> entries == old(entries)[k := v]
      ensures old(Evicts(k)) ==> exists gone :: IsSmallest(old(entries), gone) && entries == (old(entries) - {gone})[k := v]
      ensures old(|entries|) < nMaxSize && nMaxSize >= 2 ==> |entries| < nMaxSize
    {
      if k in entries {
        return;
      }
      ghost var e := entries;
      OneMore(e, k, v);
      entries := entries[k := v];
      if nMaxSize != 0 && |entries| == nMaxSize {
        ghost var gone := DropFirst(k, v, e);
        OneMore(e - {gone}, k, v);
        e := e - {gone};
      }
      AddLink(k, v, e);
    }

    /** The eviction, while the new entry has no link yet: an older, smallest entry goes. */
    method DropFirst(k: K, v: int, ghost e: map<K, int>) returns (ghost gone: K)
      requires Inverse(e, rmap) && k !in e && entries == e[k := v] && e != map[]
      modifies this`entries, this`rmap
      ensures IsSmallest(e, gone) && gone != k && Inverse(e - {gone}, rmap) && entries == (e - {gone})[k := v]
      ensures |e - {gone}| == |e| - 1
    {
      RemoveFirst(e, rmap);
      gone := rmap[0].key;
      entries := entries - {rmap[0].key};
      rmap := rmap[1..];
    }

    /** The link of an entry, found among those with its value; there always is one. */
    method FindLink(k: K) returns (i: nat)
      requires Valid() && k in entries
      ensures i < |rmap| && rmap[i].key == k
    {
      ghost var place := LinkOf(entries, rmap, k);
      i := 0;
      while i < |rmap| && rmap[i].value < entries[k]
        invariant 0 <= i <= place
      {
        i := i + 1;
      }
      while i < |rmap| && rmap[i].value == entries[k]
        invariant 0 <= i <= place
      {
        if rmap[i].key == k {
          return;
        }
        i := i + 1;
      }
      assert false;
    }

    /** erase. */
    method Erase(k: K)
      requires Valid()
      modifies this`entries, this`rmap
      ensures Valid() && entries == old(entries) - {k}
    {
      if k !in entries {
        assert entries == entries - {k};
        return;
      }
      var i := FindLink(k);
      RemoveKeeps(entries, rmap, i);
      rmap := Without(rmap, i);
      entries := entries - {k};
    }

    /** update. */
    method Update(k: K, v: int)
      requires Valid()
      modifies this`entries, this`rmap
      ensures Valid() && entries == if k in old(entries) then old(entries)[k := v] else old(entries)
    {
      if k !in entries {
        return;
      }
      var i := FindLink(k);
      RemoveKeeps(entries, rmap, i);
      ghost var e := entries - {k};
      rmap := Without(rmap, i);
      entries := entries[k := v];
      assert entries == e[k := v];
      AddLink(k, v, e);
    }

    /** max_size: erases smallest entries until no more than `s` are left. */
    method SetMaxSize(s: nat)
      requires Valid()
      modifies this
      ensures Valid() && nMaxSize == s && (s != 0 ==> |entries| <= s)
      ensures (s == 0 || old(|entries|) <= s) ==> entries == old(entries)
      ensures forall k :: k in entries ==> k in old(entries) && entries[k] == old(entries)[k]
      ensures forall k, e :: k in entries && e in old(entries) && e !in entries ==> old(entries)[e] <= entries[k]
    {
      if s != 0 {
        while |entries| > s
          invariant Valid() && (old(|entries|) <= s ==> entries == old(entries))
          invariant forall k :: k in entries ==> k in old(entries) && entries[k] == old(entries)[k]
          invariant forall k, e :: k in entries && e in old(entries) && e !in entries ==> old(entries)[e] <= entries[k]
          decreases |entries|
        {
          RemoveFirst(entries, rmap);
          entries := entries - {rmap[0].key};
          rmap := rmap[1..];
        }
      }
      nMaxSize := s;
    }
  }

  ghost predicate IsSmallest<K>(entries: map<K, int>, k: K) {
    k in entries && forall e :: e in entries ==> entries[k] <= entries[e]
  }

  /** The first link is that of a smallest entry, and goes with it. */
  lemma RemoveFirst<K(!new)>(entries: map<K, int>, rmap: seq<Link<K>>)
    requires Inverse(entries, rmap) && entries != map[]
    ensures rmap != [] && IsSmallest(entries, rmap[0].key) && Inverse(entries - {rmap[0].key}, rmap[1..])
    ensures |entries - {rmap[0].key}| == |entries| - 1
  {
    forall e | e in entries
      ensures rmap != [] && rmap[0].key in entries && entries[rmap[0].key] <= entries[e]
    {
      FirstIsSmallest(entries, rmap, e);
    }
    assert |entries| > 0 by { NonEmpty(entries); }
    RemoveKeeps(entries, rmap, 0);
    assert Without(rmap, 0) == rmap[1..];
  }

  lemma LinkOf<K(!new)>(entries: map<K, int>, rmap: seq<Link<K>>, k: K) returns (i: nat)
    requires Inverse(entries, rmap) && k in entries
    ensures i < |rmap| && rmap[i].key == k && rmap[i].value == entries[k]
  {
    assert Linked(rmap, k);
    i :| 0 <= i < |rmap| && rmap[i].key == k;
    assert LinksTo(entries, rmap[i]);
  }

  /** A full map has no link to evict exactly if its size is limited to one. */
  lemma NothingToEvict<K(!new)>(entries: map<K, int>, rmap: seq<Link<K>>, nMaxSize: nat)
    requires Inverse(entries, rmap) && nMaxSize != 0 && |entries| + 1 == nMaxSize
    ensures rmap == [] <==> nMaxSize == 1
    ensures rmap == [] <==> entries == map[]
  {
    NonEmpty(entries);
  }

  lemma OneMore<K>(e: map<K, int>, k: K, v: int)
    requires k !in e
    ensures |e[k := v]| == |e| + 1
  {
    assert e[k := v].Keys == e.Keys + {k};
  }

  lemma NonEmpty<K>(m: map<K, int>)
    ensures |m| > 0 <==> m != map[]
  {
  }
}
