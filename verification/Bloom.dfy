/** CBloomFilter. */
module Bloom {
  import opened BloomSpec
  import opened Octets

  lemma SetBit(v: seq<Octet>, n: nat)
    requires n < 8 * |v|
    ensures n / 8 < |v| && Bits(v[n / 8 := v[n / 8][n % 8 := true]]) == Bits(v)[n := true]
  {
    var w := v[n / 8 := v[n / 8][n % 8 := true]];
    forall i | 0 <= i < 8 * |v|
      ensures Bits(w)[i] == Bits(v)[n := true][i]
    {
      if i / 8 == n / 8 && i % 8 == n % 8 {
        assert i == n;
      }
    }
  }

  lemma OneMoreHit(hashes: Hashes, bits: seq<bool>, m: nat, k: Key)
    requires bits != []
    ensures WithHits(hashes, bits, m + 1, k) == WithHits(hashes, bits, m, k)[Place(hashes, |bits|, m, k) := true]
  {
    var p := Place(hashes, |bits|, m, k);
    forall n | 0 <= n < |bits|
      ensures Hits(hashes, |bits|, m + 1, k, n) <==> Hits(hashes, |bits|, m, k, n) || n == p
    {
    }
  }

  /** The byte is 0xff, or 0. */
  predicate IsOctet(b: Octet, v: bool) { b == [v, v, v, v, v, v, v, v] }

  /** All bytes are 0xff, or 0, exactly if all bits are set, or clear. */
  lemma WholeOctets(data: seq<Octet>, v: bool)
    ensures (forall i :: 0 <= i < |data| ==> IsOctet(data[i], v)) <==> forall n :: 0 <= n < 8 * |data| ==> Bits(data)[n] == v
  {
    if forall n :: 0 <= n < 8 * |data| ==> Bits(data)[n] == v {
      forall i | 0 <= i < |data|
        ensures IsOctet(data[i], v)
      {
        forall j | 0 <= j < 8
          ensures data[i][j] == v
        {
          BitOf(data, i, j);
        }
      }
    }
    if forall i :: 0 <= i < |data| ==> IsOctet(data[i], v) {
      forall n | 0 <= n < 8 * |data|
        ensures Bits(data)[n] == v
      {
        assert IsOctet(data[n / 8], v);
      }
    }
  }

  class BloomFilter {
    const hashes: Hashes
    const nHashFuncs: nat
    const nFlags: nat
    var vData: array<Octet>
    var isFull: bool
    var isEmpty: bool

    ghost function View(): Filter
      reads this, vData
    {
      Filter(Bits(vData[..]), isFull, isEmpty, nHashFuncs, nFlags)
    }

    constructor (hashes: Hashes, size: nat, funcs: nat, flags: nat)
      requires size > 0
      ensures fresh(vData) && Ok(View()) && NoneSet(View().bits) && nHashFuncs == funcs
    {
      this.hashes, nHashFuncs, nFlags := hashes, funcs, flags;
      vData := new Octet[size](_ => [false, false, false, false, false, false, false, false]);
      isFull, isEmpty := false, false;
    }

    /** CBloomFilter(): every peer starts with a filter without data that is marked full. */
    constructor Default(hashes: Hashes)
      ensures fresh(vData) && Ok(View()) && View().bits == [] && isFull
    {
      this.hashes, nHashFuncs, nFlags := hashes, 0, 0;
      vData := new Octet[0];
      isFull, isEmpty := true, false;
    }

    /** A filter read from a peer: any data, even none, with the marks recomputed. */
    constructor Load(hashes: Hashes, data: seq<Octet>, funcs: nat, flags: nat)
      ensures fresh(vData) && Ok(View()) && vData[..] == data && nHashFuncs == funcs && nFlags == flags
      ensures View() == Refreshed(View())
    {
      this.hashes, nHashFuncs, nFlags := hashes, funcs, flags;
      vData := new Octet[|data|](i requires 0 <= i < |data| => data[i]);
      isFull, isEmpty := true, false;
      new;
      UpdateEmptyFull();
    }

    /** insert. */
    method Insert(k: Key)
      requires Usable(View())
      modifies this`isEmpty, vData
      ensures View() == InsertInto(hashes, old(View()), k)
    {
      if isFull {
        return;
      }
      ghost var bits := Bits(vData[..]);
      assert WithHits(hashes, bits, 0, k) == bits;
      for i := 0 to nHashFuncs
        invariant Bits(vData[..]) == WithHits(hashes, bits, i, k)
      {
        var n := Place(hashes, 8 * vData.Length, i, k);
        SetBit(vData[..], n);
        OneMoreHit(hashes, bits, i, k);
        ghost var w := vData[..][n / 8 := vData[n / 8][n % 8 := true]];
        vData[n / 8] := vData[n / 8][n % 8 := true];
        assert vData[..] == w;
      }
      isEmpty := false;
    }

    /** contains. */
    method Has(k: Key) returns (r: bool)
      requires Usable(View())
      ensures r <==> Contains(hashes, View(), k)
    {
      if isFull {
        return true;
      }
      if isEmpty {
        return false;
      }
      for i := 0 to nHashFuncs
        invariant forall j :: 0 <= j < i ==> View().bits[Place(hashes, |View().bits|, j, k)]
      {
        var n := Place(hashes, 8 * vData.Length, i, k);
        if !vData[n / 8][n % 8] {
          return false;
        }
      }
      return true;
    }

    /** UpdateEmptyFull. */
    method UpdateEmptyFull()
      modifies this`isFull, this`isEmpty
      ensures View() == Refreshed(old(View()))
    {
      var full, empty := true, true;
      for i := 0 to vData.Length
        invariant full <==> forall j :: 0 <= j < i ==> IsOctet(vData[j], true)
        invariant empty <==> forall j :: 0 <= j < i ==> IsOctet(vData[j], false)
      {
        full, empty := full && IsOctet(vData[i], true), empty && IsOctet(vData[i], false);
      }
      WholeOctets(vData[..], true);
      WholeOctets(vData[..], false);
      isFull, isEmpty := full, empty;
    }

    /** The search for a push that the filter contains. */
    method AnyPush(pushes: seq<Key>) returns (r: bool)
      requires Usable(View())
      ensures r <==> Matches(hashes, View(), pushes)
    {
      for j := 0 to |pushes|
        invariant forall i :: 0 <= i < j ==> pushes[i] == [] || !Contains(hashes, View(), pushes[i])
      {
        var has := Has(pushes[j]);
        if |pushes[j]| != 0 && has {
          return true;
        }
      }
      return false;
    }

    /** The outputs: every match is noted, and its outpoint recorded as the settings ask. */
    method NoteOutputs(outputs: seq<Output>) returns (found: bool)
      requires Usable(View())
      modifies this`isEmpty, vData
      ensures View() == After(hashes, old(View()), outputs, |outputs|)
      ensures found <==> exists i :: 0 <= i < |outputs| && Matches(hashes, old(View()), outputs[i].pushes)
    {
      found := false;
      ghost var f := View();
      for i := 0 to |outputs|
        invariant View() == After(hashes, f, outputs, i) && isFull == f.full
        invariant found <==> exists j :: 0 <= j < i && Matches(hashes, f, outputs[j].pushes)
        invariant !found ==> View() == f
      {
        var o := outputs[i];
        var hit := AnyPush(o.pushes);
        found := found || hit;
        if hit && (nFlags % 4 == BLOOM_UPDATE_ALL || (nFlags % 4 == BLOOM_UPDATE_P2PUBKEY_ONLY && o.toPubkey)) {
          Insert(o.key);
        }
      }
    }

    /** The inputs: an outpoint or a push that the filter contains. */
    method AnyInput(inputs: seq<Input>) returns (r: bool)
      requires Usable(View())
      ensures r <==> exists i :: 0 <= i < |inputs| && MatchesInput(hashes, View(), inputs[i])
    {
      for i := 0 to |inputs|
        invariant forall j :: 0 <= j < i ==> !MatchesInput(hashes, View(), inputs[j])
      {
        var spent := Has(inputs[i].prevout);
        if spent {
          return true;
        }
        var push := AnyPush(inputs[i].pushes);
        if push {
          return true;
        }
      }
      return false;
    }

    /** IsRelevantAndUpdate. */
    method IsRelevantAndUpdate(tx: Transaction) returns (r: bool)
      requires Usable(View())
      modifies this`isEmpty, vData
      ensures r <==> Relevant(hashes, old(View()), tx)
      ensures View() == Next(hashes, old(View()), Process(tx))
    {
      ghost var f := View();
      if isFull {
        FullStays(hashes, f, tx.outputs, |tx.outputs|);
        return true;
      }
      if isEmpty {
        EmptyStays(hashes, f, tx.outputs, |tx.outputs|);
        return false;
      }
      var byHash := Has(tx.hash);
      var byOutput := NoteOutputs(tx.outputs);
      if byHash || byOutput {
        return true;
      }
      NothingNoted(hashes, f, tx.outputs, |tx.outputs|);
      r := AnyInput(tx.inputs);
    }
  }

  lemma {:induction false} FullStays(hashes: Hashes, f: Filter, outputs: seq<Output>, n: nat)
    requires Usable(f) && n <= |outputs| && f.full
    ensures After(hashes, f, outputs, n) == f
  {
    if n > 0 {
      FullStays(hashes, f, outputs, n - 1);
    }
  }

  lemma {:induction false} NothingNoted(hashes: Hashes, f: Filter, outputs: seq<Output>, n: nat)
    requires Usable(f) && n <= |outputs|
    requires forall i :: 0 <= i < |outputs| ==> !Matches(hashes, f, outputs[i].pushes)
    ensures After(hashes, f, outputs, n) == f
  {
    if n > 0 {
      NothingNoted(hashes, f, outputs, n - 1);
    }
  }

  lemma EmptyStays(hashes: Hashes, f: Filter, outputs: seq<Output>, n: nat)
    requires Usable(f) && n <= |outputs| && f.empty && !f.full
    ensures After(hashes, f, outputs, n) == f
  {
    NothingNoted(hashes, f, outputs, n);
  }
}
