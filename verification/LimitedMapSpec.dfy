/**
 `limitedmap.h`: a map that evicts its smallest value when it is full, and the multimap from values to
 entries that finds it.
 */
module LimitedMapSpec {

  /** An element of `rmap`: a value, and the entry of the map it belongs to. */
  datatype Link<K> = Link(value: int, key: K)

  ghost predicate Ordered<K>(rmap: seq<Link<K>>) {
    forall i, j :: 0 <= i < j < |rmap| ==> rmap[i].value <= rmap[j].value
  }

  ghost predicate DistinctKeys<K>(rmap: seq<Link<K>>) {
    forall i, j :: 0 <= i < j < |rmap| ==> rmap[i].key != rmap[j].key
  }

  ghost predicate LinksTo<K>(entries: map<K, int>, link: Link<K>) { link.key in entries && entries[link.key] == link.value }

  ghost predicate Linked<K>(rmap: seq<Link<K>>, k: K) { exists i :: 0 <= i < |rmap| && rmap[i].key == k }

  /** Every link belongs to an entry... */
  ghost predicate AllLink<K>(entries: map<K, int>, rmap: seq<Link<K>>) {
    forall i :: 0 <= i < |rmap| ==> LinksTo(entries, rmap[i])
  }

  /** ... and every entry has a link. */
  ghost predicate AllLinked<K(!new)>(entries: map<K, int>, rmap: seq<Link<K>>) {
    forall k :: k in entries ==> Linked(rmap, k)
  }

  /** `rmap` is the exact inverse of the map, in the order of values. */
  ghost predicate Inverse<K(!new)>(entries: map<K, int>, rmap: seq<Link<K>>) {
    Ordered(rmap) && DistinctKeys(rmap) && |rmap| == |entries| && AllLink(entries, rmap) && AllLinked(entries, rmap)
  }

  function Without<K>(rmap: seq<Link<K>>, i: nat): (r: seq<Link<K>>)
    requires i < |rmap|
    ensures |r| == |rmap| - 1 && forall j :: 0 <= j < |r| ==> r[j] == rmap[if j < i then j else j + 1]
  {
    rmap[..i] + rmap[i + 1..]
  }

  lemma WithoutOrdered<K>(rmap: seq<Link<K>>, i: nat)
    requires i < |rmap| && Ordered(rmap) && DistinctKeys(rmap)
    ensures Ordered(Without(rmap, i)) && DistinctKeys(Without(rmap, i))
  {
  }

  lemma WithoutLinks<K(!new)>(entries: map<K, int>, rmap: seq<Link<K>>, i: nat)
    requires i < |rmap| && DistinctKeys(rmap) && AllLink(entries, rmap)
    ensures AllLink(entries - {rmap[i].key}, Without(rmap, i))
  {
    var e, r := entries - {rmap[i].key}, Without(rmap, i);
    forall j | 0 <= j < |r|
      ensures LinksTo(e, r[j])
    {
      assert LinksTo(entries, rmap[if j < i then j else j + 1]);
    }
  }

  lemma WithoutLinked<K(!new)>(entries: map<K, int>, rmap: seq<Link<K>>, i: nat)
    requires i < |rmap| && AllLinked(entries, rmap)
    ensures AllLinked(entries - {rmap[i].key}, Without(rmap, i))
  {
    var e, r := entries - {rmap[i].key}, Without(rmap, i);
    forall k | k in e
      ensures Linked(r, k)
    {
      assert Linked(rmap, k);
      var j :| 0 <= j < |rmap| && rmap[j].key == k;
      assert r[if j < i then j else j - 1].key == k;
    }
  }

  /** Removing an entry and its link. */
  lemma RemoveKeeps<K(!new)>(entries: map<K, int>, rmap: seq<Link<K>>, i: nat)
    requires Inverse(entries, rmap) && i < |rmap|
    ensures Inverse(entries - {rmap[i].key}, Without(rmap, i)) && rmap[i].key in entries
  {
    WithoutOrdered(rmap, i);
    WithoutLinks(entries, rmap, i);
    WithoutLinked(entries, rmap, i);
    assert LinksTo(entries, rmap[i]);
    assert (entries - {rmap[i].key}).Keys == entries.Keys - {rmap[i].key};
  }

  function With<K>(rmap: seq<Link<K>>, i: nat, link: Link<K>): (r: seq<Link<K>>)
    requires i <= |rmap|
    ensures |r| == |rmap| + 1 && r[i] == link
    ensures forall j :: 0 <= j < |r| && j != i ==> r[j] == rmap[if j < i then j else j - 1]
  {
    rmap[..i] + [link] + rmap[i..]
  }

  /** A place behind the links of values up to `v`. */
  ghost predicate IsPlace<K>(rmap: seq<Link<K>>, i: nat, v: int) {
    && i <= |rmap|
    && (forall j :: 0 <= j < i ==> rmap[j].value <= v) && (forall j :: i <= j < |rmap| ==> rmap[j].value > v)
  }

  lemma WithOrdered<K>(rmap: seq<Link<K>>, i: nat, v: int, k: K)
    requires Ordered(rmap) && IsPlace(rmap, i, v)
    ensures Ordered(With(rmap, i, Link(v, k)))
  {
  }

  lemma WithDistinct<K>(rmap: seq<Link<K>>, i: nat, v: int, k: K)
    requires DistinctKeys(rmap) && i <= |rmap| && forall j :: 0 <= j < |rmap| ==> rmap[j].key != k
    ensures DistinctKeys(With(rmap, i, Link(v, k)))
  {
  }

  lemma WithLinks<K(!new)>(entries: map<K, int>, rmap: seq<Link<K>>, i: nat, v: int, k: K)
    requires i <= |rmap| && k !in entries && AllLink(entries, rmap)
    ensures AllLink(entries[k := v], With(rmap, i, Link(v, k)))
    ensures forall j :: 0 <= j < |rmap| ==> rmap[j].key != k
  {
    var e, r := entries[k := v], With(rmap, i, Link(v, k));
    forall j | 0 <= j < |rmap|
      ensures rmap[j].key != k && LinksTo(e, rmap[j])
    {
      assert LinksTo(entries, rmap[j]);
    }
  }

  lemma WithLinked<K(!new)>(entries: map<K, int>, rmap: seq<Link<K>>, i: nat, v: int, k: K)
    requires i <= |rmap| && AllLinked(entries, rmap)
    ensures AllLinked(entries[k := v], With(rmap, i, Link(v, k)))
  {
    var e, r := entries[k := v], With(rmap, i, Link(v, k));
    forall x | x in e
      ensures Linked(r, x)
    {
      if x == k {
        assert r[i].key == k;
      } else {
        assert Linked(rmap, x);
        var j :| 0 <= j < |rmap| && rmap[j].key == x;
        assert r[if j < i then j else j + 1].key == x;
      }
    }
  }

  /** Adding an entry and its link. */
  lemma AddKeeps<K(!new)>(entries: map<K, int>, rmap: seq<Link<K>>, k: K, v: int, i: nat)
    requires Inverse(entries, rmap) && k !in entries && IsPlace(rmap, i, v)
    ensures Inverse(entries[k := v], With(rmap, i, Link(v, k)))
  {
    WithLinks(entries, rmap, i, v, k);
    WithLinked(entries, rmap, i, v, k);
    WithOrdered(rmap, i, v, k);
    WithDistinct(rmap, i, v, k);
    assert entries[k := v].Keys == entries.Keys + {k};
  }

  /** The first link has a smallest value. */
  lemma FirstIsSmallest<K(!new)>(entries: map<K, int>, rmap: seq<Link<K>>, k: K)
    requires Inverse(entries, rmap) && k in entries
    ensures rmap != [] && LinksTo(entries, rmap[0]) && entries[rmap[0].key] <= entries[k]
  {
    assert Linked(rmap, k);
    var j :| 0 <= j < |rmap| && rmap[j].key == k;
    assert LinksTo(entries, rmap[j]);
  }
}
