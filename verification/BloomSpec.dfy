/** The Bloom filter of `bloom.cpp`. */
module BloomSpec {

  type Key = seq<nat>

  /** The hash of a key under hash function `i`. */
  type Hashes = (nat, Key) -> nat

  /** The bits of the data, the marks for full and empty, the number of hash functions, and nFlags. */
  datatype Filter = Filter(bits: seq<bool>, full: bool, empty: bool, funcs: nat, flags: nat)

  const BLOOM_UPDATE_ALL := 1
  const BLOOM_UPDATE_P2PUBKEY_ONLY := 2

  /** nFlags & BLOOM_UPDATE_MASK. */
  function Mode(f: Filter): nat { f.flags % 4 }

  ghost predicate AllSet(bits: seq<bool>) { forall n :: 0 <= n < |bits| ==> bits[n] }

  ghost predicate NoneSet(bits: seq<bool>) { forall n :: 0 <= n < |bits| ==> !bits[n] }

  /** A filter without data is marked full: the mark keeps the code from dividing by its size. */
  predicate Usable(f: Filter) { f.bits == [] ==> f.full }

  /** A usable filter whose marks tell the truth. */
  ghost predicate Ok(f: Filter) { Usable(f) && (f.full ==> AllSet(f.bits)) && (f.empty ==> NoneSet(f.bits)) }

  function Place(hashes: Hashes, size: nat, i: nat, k: Key): (n: nat)
    requires size > 0
    ensures n < size
  {
    hashes(i, k) % size
  }

  /** The places of the key under the first `m` hash functions. */
  ghost predicate Hits(hashes: Hashes, size: nat, m: nat, k: Key, n: nat)
    requires size > 0
  {
    exists i :: 0 <= i < m && Place(hashes, size, i, k) == n
  }

  /** All places of the key that the data has are set. */
  ghost predicate Marked(hashes: Hashes, f: Filter, k: Key) {
    f.bits == [] || forall i :: 0 <= i < f.funcs ==> f.bits[Place(hashes, |f.bits|, i, k)]
  }

  /** What `contains` answers. */
  ghost predicate Contains(hashes: Hashes, f: Filter, k: Key) { f.full || (!f.empty && Marked(hashes, f, k)) }

  /** With a hash function, the marks are short cuts only; without one, a filter can be taken for empty. */
  lemma ContainsExactly(hashes: Hashes, f: Filter, k: Key)
    requires Ok(f)
    ensures (Contains(hashes, f, k) <==> Marked(hashes, f, k)) <==> f.funcs >= 1 || !f.empty || f.full
  {
    if f.bits != [] {
      assert f.bits[0] || !f.bits[0];
      if f.funcs >= 1 {
        assert f.bits[Place(hashes, |f.bits|, 0, k)] || !f.bits[Place(hashes, |f.bits|, 0, k)];
      }
    }
  }

  /** In terms of bits: key `k` belongs to the bits at `hashes(i, k)` modulo the size, for every hash function `i`. */
  lemma ContainsByBits(hashes: Hashes, f: Filter, k: Key)
    requires f.bits != [] && !f.full && !f.empty
    ensures Contains(hashes, f, k) <==> forall i: nat :: i < f.funcs ==> f.bits[hashes(i, k) % |f.bits|]
  {
    assert forall i: nat :: Place(hashes, |f.bits|, i, k) == hashes(i, k) % |f.bits|;
  }

  /** There is a hash function, or something that keeps the filter from being taken for empty. */
  ghost predicate Lasts(f: Filter) { f.funcs >= 1 || f.full || !NoneSet(f.bits) }

  // ----- the operations -----

  /** UpdateEmptyFull. */
  ghost function Refreshed(f: Filter): Filter { f.(full := AllSet(f.bits), empty := NoneSet(f.bits)) }

  /** insert. */
  ghost function InsertInto(hashes: Hashes, f: Filter, k: Key): (g: Filter)
    requires Usable(f)
    ensures |g.bits| == |f.bits| && Usable(g)
  {
    if f.full then f
    else f.(bits := WithHits(hashes, f.bits, f.funcs, k), empty := false)
  }

  /** The bits with the first `m` places of the key set. */
  ghost function WithHits(hashes: Hashes, bits: seq<bool>, m: nat, k: Key): (r: seq<bool>)
    requires bits != []
    ensures |r| == |bits|
  {
    seq(|bits|, n requires 0 <= n < |bits| => bits[n] || Hits(hashes, |bits|, m, k, n))
  }

  /** Exactly the bits that belong to the key are set in addition. */
  lemma InsertByBits(hashes: Hashes, f: Filter, k: Key, n: nat)
    requires f.bits != [] && !f.full && n < |f.bits|
    ensures InsertInto(hashes, f, k).bits[n] <==> f.bits[n] || exists i: nat :: i < f.funcs && hashes(i, k) % |f.bits| == n
  {
    if i: nat :| i < f.funcs && hashes(i, k) % |f.bits| == n {
      assert Place(hashes, |f.bits|, i, k) == n;
      assert Hits(hashes, |f.bits|, f.funcs, k, n);
    }
  }

  /** `g` has all the bits of `f`, and the same settings. */
  ghost predicate Covers(f: Filter, g: Filter) {
    && |g.bits| == |f.bits| && g.funcs == f.funcs && g.flags == f.flags
    && forall n :: 0 <= n < |f.bits| ==> f.bits[n] ==> g.bits[n]
  }

  /** An insertion keeps everything, and marks its key. */
  lemma InsertMarks(hashes: Hashes, f: Filter, k: Key)
    requires Ok(f)
    ensures var g := InsertInto(hashes, f, k); Ok(g) && Extends(f, g) && Marked(hashes, g, k)
  {
    var g := InsertInto(hashes, f, k);
    forall i | g.bits != [] && 0 <= i < g.funcs
      ensures g.bits[Place(hashes, |g.bits|, i, k)]
    {
      assert Hits(hashes, |f.bits|, f.funcs, k, Place(hashes, |g.bits|, i, k)) || f.full;
    }
  }

  lemma CoversMarks(hashes: Hashes, f: Filter, g: Filter, k: Key)
    requires Covers(f, g) && Marked(hashes, f, k)
    ensures Marked(hashes, g, k)
  {
  }

  // ----- transactions -----

  /** The pushes of a script up to where it stops parsing; `key` is the serialised outpoint of the output. */
  datatype Output = Output(pushes: seq<Key>, toPubkey: bool, key: Key)

  datatype Input = Input(prevout: Key, pushes: seq<Key>)

  datatype Transaction = Transaction(hash: Key, outputs: seq<Output>, inputs: seq<Input>)

  ghost predicate Matches(hashes: Hashes, f: Filter, pushes: seq<Key>) {
    exists j :: 0 <= j < |pushes| && pushes[j] != [] && Contains(hashes, f, pushes[j])
  }

  ghost predicate MatchesInput(hashes: Hashes, f: Filter, input: Input) {
    Contains(hashes, f, input.prevout) || Matches(hashes, f, input.pushes)
  }

  predicate Updates(f: Filter, o: Output) {
    Mode(f) == BLOOM_UPDATE_ALL || (Mode(f) == BLOOM_UPDATE_P2PUBKEY_ONLY && o.toPubkey)
  }

  /** The filter after the first `n` outputs. */
  ghost function After(hashes: Hashes, f: Filter, outputs: seq<Output>, n: nat): (g: Filter)
    requires Usable(f) && n <= |outputs|
    ensures Usable(g) && |g.bits| == |f.bits| && g.funcs == f.funcs && g.flags == f.flags
  {
    if n == 0 then f
    else
      var h := After(hashes, f, outputs, n - 1);
      var o := outputs[n - 1];
      if Matches(hashes, h, o.pushes) && Updates(h, o) then InsertInto(hashes, h, o.key) else h
  }

  /** The transaction concerns the filter: its hash, a push of an output, an outpoint spent or a push of an input. */
  ghost predicate Relevant(hashes: Hashes, f: Filter, tx: Transaction) {
    || Contains(hashes, f, tx.hash)
    || (exists i :: 0 <= i < |tx.outputs| && Matches(hashes, f, tx.outputs[i].pushes))
    || (exists i :: 0 <= i < |tx.inputs| && MatchesInput(hashes, f, tx.inputs[i]))
  }

  /** `g` has all the bits of `f`, and is not taken for emptier. */
  ghost predicate Extends(f: Filter, g: Filter) {
    Covers(f, g) && (f.full ==> g.full) && (g.empty ==> f.empty)
  }

  lemma ExtensionMatches(hashes: Hashes, f: Filter, g: Filter, pushes: seq<Key>)
    requires Extends(f, g) && Matches(hashes, f, pushes)
    ensures Matches(hashes, g, pushes)
  {
    var j :| 0 <= j < |pushes| && pushes[j] != [] && Contains(hashes, f, pushes[j]);
    if !f.full {
      CoversMarks(hashes, f, g, pushes[j]);
    }
    assert Contains(hashes, g, pushes[j]);
  }

  lemma {:induction false} AfterCovers(hashes: Hashes, f: Filter, outputs: seq<Output>, m: nat, n: nat)
    requires Ok(f) && m <= n <= |outputs|
    ensures Ok(After(hashes, f, outputs, m)) && Ok(After(hashes, f, outputs, n))
    ensures Extends(After(hashes, f, outputs, m), After(hashes, f, outputs, n))
    decreases n
  {
    if n > 0 {
      AfterCovers(hashes, f, outputs, if m < n then m else m - 1, n - 1);
      InsertMarks(hashes, After(hashes, f, outputs, n - 1), outputs[n - 1].key);
    }
  }

  /** Where all matches are recorded, the outpoint of every matched output is in the filter afterwards. */
  lemma MatchedIsMarked(hashes: Hashes, f: Filter, tx: Transaction, i: nat)
    requires Ok(f) && Mode(f) == BLOOM_UPDATE_ALL && i < |tx.outputs| && Matches(hashes, f, tx.outputs[i].pushes)
    ensures var g := After(hashes, f, tx.outputs, |tx.outputs|);
      Ok(g) && Covers(f, g) && Marked(hashes, g, tx.outputs[i].key)
  {
    var o, n := tx.outputs, |tx.outputs|;
    AfterCovers(hashes, f, o, 0, i);
    AfterCovers(hashes, f, o, i + 1, n);
    AfterCovers(hashes, f, o, 0, n);
    var h := After(hashes, f, o, i);
    ExtensionMatches(hashes, f, h, o[i].pushes);
    InsertMarks(hashes, h, o[i].key);
    CoversMarks(hashes, After(hashes, f, o, i + 1), After(hashes, f, o, n), o[i].key);
  }

  // ----- runs -----

  datatype Operation = Insert(key: Key) | Refresh | Process(tx: Transaction)

  ghost function Next(hashes: Hashes, f: Filter, op: Operation): (g: Filter)
    requires Usable(f)
    ensures Usable(g) && |g.bits| == |f.bits| && g.funcs == f.funcs && g.flags == f.flags
  {
    match op
    case Insert(k) => InsertInto(hashes, f, k)
    case Refresh => Refreshed(f)
    case Process(tx) => After(hashes, f, tx.outputs, |tx.outputs|)
  }

  ghost function Run(hashes: Hashes, f: Filter, ops: seq<Operation>): (g: Filter)
    requires Usable(f)
    ensures Usable(g) && |g.bits| == |f.bits| && g.funcs == f.funcs && g.flags == f.flags
  {
    if ops == [] then f else Next(hashes, Run(hashes, f, ops[..|ops| - 1]), ops[|ops| - 1])
  }

  lemma NextCovers(hashes: Hashes, f: Filter, op: Operation)
    requires Ok(f)
    ensures Ok(Next(hashes, f, op)) && Covers(f, Next(hashes, f, op))
  {
    match op
    case Insert(k) => InsertMarks(hashes, f, k);
    case Refresh =>
    case Process(tx) => AfterCovers(hashes, f, tx.outputs, 0, |tx.outputs|);
  }

  lemma {:induction false} RunCovers(hashes: Hashes, f: Filter, ops: seq<Operation>)
    requires Ok(f)
    ensures Ok(Run(hashes, f, ops)) && Covers(f, Run(hashes, f, ops))
  {
    if ops != [] {
      RunCovers(hashes, f, ops[..|ops| - 1]);
      NextCovers(hashes, Run(hashes, f, ops[..|ops| - 1]), ops[|ops| - 1]);
    }
  }

  /** A marked key of a lasting filter stays contained. */
  lemma LastingContains(hashes: Hashes, f: Filter, g: Filter, k: Key)
    requires Ok(f) && Lasts(f) && Ok(g) && Covers(f, g) && Marked(hashes, g, k)
    ensures Contains(hashes, g, k)
  {
    if g.empty && g.bits != [] {
      assert !g.bits[0] && !f.bits[0];
    }
    ContainsExactly(hashes, g, k);
  }

  lemma {:induction false} AfterUnchanged(hashes: Hashes, f: Filter, outputs: seq<Output>, n: nat)
    requires Usable(f) && f.funcs == 0 && n <= |outputs|
    ensures After(hashes, f, outputs, n).bits == f.bits
  {
    if n > 0 { AfterUnchanged(hashes, f, outputs, n - 1); }
  }

  /** Once its marks are recomputed, a filter without set bits contains nothing. */
  lemma EmptyForgets(hashes: Hashes, f: Filter)
    requires f.bits != [] && NoneSet(f.bits)
    ensures forall k :: !Contains(hashes, Refreshed(f), k)
    ensures forall tx :: !Relevant(hashes, Refreshed(f), tx)
  {
    assert !f.bits[0];
  }

  lemma RunRefresh(hashes: Hashes, f: Filter)
    requires Usable(f)
    ensures Run(hashes, f, [Refresh]) == Refreshed(f)
  {
    assert [Refresh][..0] == [];
    assert Run(hashes, f, []) == f;
  }

  /** An inserted key is contained after whatever follows, exactly if the filter lasts. */
  lemma InsertedStays(hashes: Hashes, f: Filter, k: Key)
    requires Ok(f)
    ensures Lasts(f) <==> forall ops :: Contains(hashes, Run(hashes, InsertInto(hashes, f, k), ops), k)
  {
    var g := InsertInto(hashes, f, k);
    InsertMarks(hashes, f, k);
    if Lasts(f) {
      forall ops
        ensures Contains(hashes, Run(hashes, g, ops), k)
      {
        RunCovers(hashes, g, ops);
        CoversMarks(hashes, g, Run(hashes, g, ops), k);
        LastingContains(hashes, f, Run(hashes, g, ops), k);
      }
    } else {
      assert g.bits == f.bits;
      EmptyForgets(hashes, g);
      RunRefresh(hashes, g);
      assert !Contains(hashes, Run(hashes, g, [Refresh]), k);
    }
  }

  /** Where all matches are recorded, a transaction that spends a matched output is relevant whenever it comes. */
  lemma SpendIsRelevant(hashes: Hashes, f: Filter, tx: Transaction, i: nat, spend: Transaction, j: nat)
    requires Ok(f) && Mode(f) == BLOOM_UPDATE_ALL && i < |tx.outputs| && Matches(hashes, f, tx.outputs[i].pushes)
    requires j < |spend.inputs| && spend.inputs[j].prevout == tx.outputs[i].key
    ensures Lasts(f) <==> forall ops :: Relevant(hashes, Run(hashes, Next(hashes, f, Process(tx)), ops), spend)
  {
    var g := Next(hashes, f, Process(tx));
    MatchedIsMarked(hashes, f, tx, i);
    if Lasts(f) {
      forall ops
        ensures Relevant(hashes, Run(hashes, g, ops), spend)
      {
        var h := Run(hashes, g, ops);
        RunCovers(hashes, g, ops);
        CoversMarks(hashes, g, h, tx.outputs[i].key);
        LastingContains(hashes, f, h, tx.outputs[i].key);
        assert MatchesInput(hashes, h, spend.inputs[j]);
      }
    } else {
      AfterUnchanged(hashes, f, tx.outputs, |tx.outputs|);
      EmptyForgets(hashes, g);
      RunRefresh(hashes, g);
      assert !Relevant(hashes, Run(hashes, g, [Refresh]), spend);
    }
  }
}
