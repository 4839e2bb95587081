/** Facts about finite collections that several components share. */
module Collections {

  /** The least element of a non-empty set of integers. */
  function Least(s: set<int>): (m: int)
    requires s != {}
    ensures m in s
    ensures forall x :: x in s ==> m <= x
  {
    LeastExists(s);
    var m :| m in s && forall x :: x in s ==> m <= x;
    m
  }

  lemma {:induction false} LeastExists(s: set<int>)
    requires s != {}
    ensures exists m :: m in s && forall x :: x in s ==> m <= x
    decreases |s|
  {
    assert (forall e :: e !in s) ==> s == {};
    var e :| e in s;
    var rest := s - {e};
    if rest == {} {
      assert s == {e};
    } else {
      LeastExists(rest);
      var m :| m in rest && forall x :: x in rest ==> m <= x;
      var least := if e <= m then e else m;
      assert forall x :: x in s ==> x == e || x in rest;
      assert least in s && forall x :: x in s ==> least <= x;
    }
  }

  ghost predicate StrictlyAscending(q: seq<int>) {
    forall i, j :: 0 <= i < j < |q| ==> q[i] < q[j]
  }

  /** `q` lists the set in ascending order. */
  ghost predicate Lists(q: seq<int>, s: set<int>) {
    StrictlyAscending(q) && forall x :: x in q <==> x in s
  }

  /** The order in which an iterator of `std::set<int>` or `std::map<int, T>` visits its keys. */
  function Ascending(s: set<int>): (q: seq<int>)
    ensures StrictlyAscending(q)
    ensures |q| == |s|
    ensures forall x :: x in q <==> x in s
    decreases |s|
  {
    if s == {} then []
    else
      var m := Least(s);
      assert forall x :: x in s - {m} ==> m < x;
      [m] + Ascending(s - {m})
  }

  /** No value occurs twice. */
  ghost predicate Distinct<T>(q: seq<T>) {
    forall i, j :: 0 <= i < j < |q| ==> q[i] != q[j]
  }

  /** The elements of a duplicate-free sequence, counted. */
  lemma {:induction false} DistinctCount<T>(q: seq<T>, s: set<T>)
    requires Distinct(q)
    requires forall x :: x in q <==> x in s
    ensures |q| == |s|
    ensures multiset(q) == multiset(s)
  {
    if |q| == 0 {
      assert s == {};
    } else {
      var last := q[|q| - 1];
      var init := q[..|q| - 1];
      assert q == init + [last];
      DistinctCount(init, s - {last});
    }
  }

  /** All elements of a sequence of sequences, in order. */
  function Flatten<T>(qq: seq<seq<T>>): (q: seq<T>)
  {
    if |qq| == 0 then [] else Flatten(qq[..|qq| - 1]) + qq[|qq| - 1]
  }

  lemma {:induction false} FlattenMember<T>(qq: seq<seq<T>>, x: T)
    ensures x in Flatten(qq) <==> exists b :: 0 <= b < |qq| && x in qq[b]
  {
    if |qq| > 0 {
      var n := |qq| - 1;
      FlattenMember(qq[..n], x);
      assert x in Flatten(qq) <==> x in Flatten(qq[..n]) || x in qq[n];
      assert forall b :: 0 <= b < n ==> qq[..n][b] == qq[b];
    }
  }

  /** Flattening a longer prefix only adds occurrences. */
  lemma {:induction false} FlattenPrefix<T>(qq: seq<seq<T>>, n: nat, x: T)
    requires n <= |qq|
    ensures multiset(Flatten(qq[..n]))[x] <= multiset(Flatten(qq))[x]
    decreases |qq|
  {
    if n < |qq| {
      var m := |qq| - 1;
      FlattenPrefix(qq[..m], n, x);
      assert qq[..m][..n] == qq[..n];
    } else {
      assert qq[..n] == qq;
    }
  }

  lemma {:induction false} DistinctOnce<T>(q: seq<T>)
    ensures Distinct(q) <==> forall x :: x in q ==> multiset(q)[x] == 1
  {
    if |q| > 0 {
      var n := |q| - 1;
      var init, last := q[..n], q[n];
      assert q == init + [last];
      DistinctOnce(init);
      assert forall x :: multiset(q)[x] == multiset(init)[x] + (if x == last then 1 else 0);
      if Distinct(q) {
        assert last !in init;
        forall x | x in q
          ensures multiset(q)[x] == 1
        {
          assert x == last || x in init;
        }
      }
      if forall x :: x in q ==> multiset(q)[x] == 1 {
        assert last in q;
        assert forall x :: x in init ==> x in q;
        assert Distinct(init) && last !in init;
      }
    }
  }

  lemma DistinctConcat<T>(p: seq<T>, q: seq<T>)
    requires Distinct(p) && Distinct(q)
    requires forall x :: x in q ==> x !in p
    ensures Distinct(p + q)
  {
    forall i, j | 0 <= i < j < |p + q|
      ensures (p + q)[i] != (p + q)[j]
    {
      if i < |p| <= j {
        assert q[j - |p|] in q && p[i] in p;
      }
    }
  }

  /** A duplicate-free sequence is no longer than one that has all its elements. */
  lemma DistinctWithin<T>(p: seq<T>, q: seq<T>)
    requires Distinct(p) && Distinct(q)
    requires forall i :: 0 <= i < |p| ==> p[i] in q
    ensures |p| <= |q|
  {
    var ps, qs := set x | x in p, set x | x in q;
    DistinctCount(p, ps);
    DistinctCount(q, qs);
    assert ps <= qs;
    assert qs == ps + (qs - ps);
  }

  lemma ExchangeKeepsElements<T>(q: seq<T>, i: nat, j: nat)
    requires i < |q| && j < |q|
    ensures multiset(q[j := q[i]][i := q[j]]) == multiset(q)
  {
    assert multiset(q[j := q[i]]) == multiset(q) - multiset{q[j]} + multiset{q[i]};
  }
}
