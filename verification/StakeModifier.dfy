/**
 The stake modifier (`kernel.cpp`): 64 bits, each the entropy bit of a recent block, picked round by round
 by the least selection hash among the blocks of a widening interval.
 */
module StakeModifier {
  import Collections
  import opened Arithmetic

  const MODIFIER_INTERVAL := 60
  const MODIFIER_INTERVAL_RATIO := 3

  type Hash = nat

  /** 64 bits, least significant first. */
  type Modifier = m: seq<bool> | |m| == 64 witness seq(64, _ => false)

  /** A block index entry. A chain of them runs from a block to its ancestors. */
  datatype Block = Block(hash: Hash, time: nat, generated: bool, modifier: Modifier, entropy: bool,
                         proofOfStake: bool, hashProof: Hash)

  /** The hash of a proof and a modifier. */
  type Hasher = (Hash, Modifier) -> Hash

  /** A candidate as the code sorts it: time and hash. */
  datatype Candidate = Candidate(time: int, hash: Hash)

  // ----- intervals -----

  function Section(k: nat): nat
    requires k < 64
  {
    MODIFIER_INTERVAL * 63 / (63 + (63 - k) * (MODIFIER_INTERVAL_RATIO - 1))
  }

  /** The first `k` sections together. */
  function Sections(k: nat): nat
    requires k <= 64
  {
    if k == 0 then 0 else Sections(k - 1) + Section(k - 1)
  }

  /** The sections grow from 20 seconds to 60, round by round. */
  lemma SectionsGrow(k: nat, l: nat)
    requires k <= l < 64
    ensures 20 <= Section(k) <= Section(l) <= 60
    ensures Section(0) == 20 && Section(63) == 60
  {
    SectionStep(63 + (63 - k) * 2, 63 + (63 - l) * 2);
    SectionStep(63 + 63 * 2, 63 + (63 - k) * 2);
    SectionStep(63 + (63 - l) * 2, 63);
  }

  lemma SectionStep(d: nat, e: nat)
    requires 0 < e <= d
    ensures MODIFIER_INTERVAL * 63 / d <= MODIFIER_INTERVAL * 63 / e
  {
    QuotientFalls(MODIFIER_INTERVAL * 63, d, e);
  }

  method SelectionInterval() returns (r: nat)
    ensures r == Sections(64)
  {
    r := 0;
    for k := 0 to 64
      invariant r == Sections(k)
    {
      r := r + Section(k);
    }
  }

  /** Where the selection interval for a child of a block of this time starts. */
  function Start(time: nat): int { time / MODIFIER_INTERVAL * MODIFIER_INTERVAL - Sections(64) }

  /** The interval starts all sections together before the last full minute of the block. */
  lemma StartIs(time: nat)
    ensures var minute := Start(time) + Sections(64); minute % 60 == 0 && minute <= time < minute + 60
  {
    FullMinute(time, Sections(64));
  }

  lemma FullMinute(time: nat, interval: nat)
    ensures var minute := time / MODIFIER_INTERVAL * MODIFIER_INTERVAL - interval + interval;
      minute % 60 == 0 && minute <= time < minute + 60
  {
  }

  lemma {:induction false} SectionsBounds(k: nat)
    requires k <= 64
    ensures 20 * k <= Sections(k) <= 60 * k
  {
    if k > 0 {
      SectionsBounds(k - 1);
      SectionsGrow(k - 1, k - 1);
    }
  }

  // ----- candidates -----

  ghost predicate Indexed(index: map<Hash, Block>, chain: seq<Block>) {
    forall i :: 0 <= i < |chain| ==> chain[i].hash in index && index[chain[i].hash] == chain[i]
  }

  ghost predicate UniqueHashes(chain: seq<Block>) {
    forall i, j :: 0 <= i < j < |chain| ==> chain[i].hash != chain[j].hash
  }

  /** The length of the run of blocks from the tip that are not older than `start`. */
  function Recent(chain: seq<Block>, start: int): (n: nat)
    ensures n <= |chain|
  {
    if chain == [] || chain[0].time < start then 0 else 1 + Recent(chain[1..], start)
  }

  function CandidateOf(b: Block): Candidate { Candidate(b.time, b.hash) }

  predicate Before(a: Candidate, b: Candidate) { a.time < b.time || (a.time == b.time && a.hash <= b.hash) }

  ghost predicate Ordered(s: seq<Candidate>) { forall i, j :: 0 <= i < j < |s| ==> Before(s[i], s[j]) }

  /** The candidates of the recent blocks, from the tip. */
  function Candidates(chain: seq<Block>, n: nat): seq<Candidate>
    requires n <= |chain|
  {
    seq(n, i requires 0 <= i < n => CandidateOf(chain[i]))
  }

  /** `s` holds the candidates of the recent blocks, each once, by time and hash. */
  ghost predicate AreCandidates(s: seq<Candidate>, chain: seq<Block>, start: int) {
    Ordered(s) && multiset(s) == multiset(Candidates(chain, Recent(chain, start)))
  }

  // ----- selection -----

  function SelectionHash(hasher: Hasher, b: Block, prev: Modifier): Hash {
    if b.proofOfStake then hasher(b.hashProof, prev) / 0x1_0000_0000 else hasher(b.hash, prev)
  }

  ghost predicate Unselected(s: seq<Candidate>, selected: set<Hash>, k: nat) {
    k < |s| && s[k].hash !in selected
  }

  /** Candidate `k` may be picked: it is not selected, and not past the stop unless it is the earliest left. */
  ghost predicate Eligible(s: seq<Candidate>, selected: set<Hash>, stop: int, k: nat) {
    && Unselected(s, selected, k)
    && (s[k].time <= stop || forall j :: 0 <= j < k ==> !Unselected(s, selected, j))
  }

  ghost predicate AllIndexed(s: seq<Candidate>, index: map<Hash, Block>) {
    forall k :: 0 <= k < |s| ==> s[k].hash in index && CandidateOf(index[s[k].hash]) == s[k]
  }

  /** Candidate `k` has the least selection hash of the eligible ones before `n`, and is the first to have it. */
  ghost predicate IsPick(hasher: Hasher, index: map<Hash, Block>, s: seq<Candidate>, selected: set<Hash>, stop: int, prev: Modifier,
                         k: nat, n: nat)
    requires AllIndexed(s, index) && n <= |s|
  {
    && k < n && Eligible(s, selected, stop, k)
    && forall j :: 0 <= j < n && Eligible(s, selected, stop, j) ==>
      var x, y := SelectionHash(hasher, index[s[k].hash], prev), SelectionHash(hasher, index[s[j].hash], prev);
      x < y || (x == y && k <= j)
  }

  const TWO_224: nat := 0x1_00000000_00000000_00000000_00000000_00000000_00000000_00000000

  const TWO_256: nat := 0x1_00000000_00000000_00000000_00000000_00000000_00000000_00000000_00000000

  /** For hashes of 256 bits, a proof-of-stake block always has a selection hash of 224 bits; the other blocks keep all 256. */
  lemma StakeIsFavoured(hasher: Hasher, b: Block, prev: Modifier)
    requires hasher(b.hashProof, prev) < TWO_256
    ensures b.proofOfStake ==> SelectionHash(hasher, b, prev) < TWO_224
    ensures b.proofOfStake ==> SelectionHash(hasher, b, prev) * 0x1_0000_0000 <= hasher(b.hashProof, prev)
                              < (SelectionHash(hasher, b, prev) + 1) * 0x1_0000_0000
    ensures !b.proofOfStake ==> SelectionHash(hasher, b, prev) == hasher(b.hash, prev)
  {
  }

  /** So another block is picked over an eligible proof-of-stake block only with a hash of less than 224 bits. */
  lemma StakeWins(hasher: Hasher, index: map<Hash, Block>, s: seq<Candidate>, selected: set<Hash>, stop: int, prev: Modifier,
                  k: nat, n: nat, j: nat)
    requires AllIndexed(s, index) && n <= |s| && IsPick(hasher, index, s, selected, stop, prev, k, n)
    requires j < n && Eligible(s, selected, stop, j) && index[s[j].hash].proofOfStake
    requires hasher(index[s[j].hash].hashProof, prev) < TWO_256
    ensures !index[s[k].hash].proofOfStake ==> hasher(index[s[k].hash].hash, prev) < TWO_224
  {
    StakeIsFavoured(hasher, index[s[j].hash], prev);
  }

  /** The pick is not past the stop, unless all candidates left are, and then it is the earliest of them by time and hash. */
  lemma PickByTime(hasher: Hasher, index: map<Hash, Block>, s: seq<Candidate>, selected: set<Hash>, stop: int, prev: Modifier,
                   k: nat, j: nat)
    requires AllIndexed(s, index) && Ordered(s) && IsPick(hasher, index, s, selected, stop, prev, k, |s|)
    requires Unselected(s, selected, j) && j != k
    ensures s[j].time <= stop ==> s[k].time <= stop
    ensures s[k].time > stop ==> s[k].time < s[j].time || (s[k].time == s[j].time && s[k].hash <= s[j].hash)
  {
    if s[k].time > stop {
      assert k < j;
      assert Before(s[k], s[j]);
    } else if j < k {
      assert Before(s[j], s[k]);
    }
  }

  /** SelectBlockFromCandidates. */
  method SelectBlock(hasher: Hasher, index: map<Hash, Block>, s: seq<Candidate>, selected: set<Hash>, stop: int, prev: Modifier)
    returns (found: bool, pick: nat)
    requires AllIndexed(s, index) && Ordered(s)
    ensures found <==> exists k :: Unselected(s, selected, k)
    ensures found ==> pick < |s| && IsPick(hasher, index, s, selected, stop, prev, pick, |s|)
  {
    found, pick := false, 0;
    var best := 0;
    var i := 0;
    while i < |s|
      invariant 0 <= i <= |s|
      invariant !found ==> forall k :: 0 <= k < i ==> !Unselected(s, selected, k)
      invariant found ==> IsPick(hasher, index, s, selected, stop, prev, pick, i)
      invariant found ==> best == SelectionHash(hasher, index[s[pick].hash], prev)
    {
      var b := index[s[i].hash];
      if found && b.time > stop {
        PastStop(hasher, index, s, selected, stop, prev, pick, i);
        return;
      }
      if b.hash !in selected {
        var h := SelectionHash(hasher, b, prev);
        if !found || h < best {
          found, best, pick := true, h, i;
        }
      }
      i := i + 1;
    }
  }

  /** Past the stop nothing is eligible any more. */
  lemma PastStop(hasher: Hasher, index: map<Hash, Block>, s: seq<Candidate>, selected: set<Hash>, stop: int, prev: Modifier,
                 k: nat, n: nat)
    requires AllIndexed(s, index) && Ordered(s) && n < |s| && s[n].time > stop
    requires IsPick(hasher, index, s, selected, stop, prev, k, n)
    ensures IsPick(hasher, index, s, selected, stop, prev, k, |s|)
  {
    forall j | n <= j < |s|
      ensures !Eligible(s, selected, stop, j)
    {
      assert Before(s[n], s[j]) || n == j;
      assert Unselected(s, selected, k);
    }
  }

  // ----- all rounds -----

  function Least64(n: nat): nat { if n < 64 then n else 64 }

  ghost predicate InRange(s: seq<Candidate>, picks: seq<nat>) { forall i :: 0 <= i < |picks| ==> picks[i] < |s| }

  /** The hashes of the candidates at these places. */
  ghost function Chosen(s: seq<Candidate>, picks: seq<nat>): set<Hash>
    requires InRange(s, picks)
  {
    set i | 0 <= i < |picks| :: s[picks[i]].hash
  }

  /** Round `r` picks by its own stop among the candidates that no earlier round has picked. */
  ghost predicate IsRound(hasher: Hasher, index: map<Hash, Block>, s: seq<Candidate>, start: int, prev: Modifier, picks: seq<nat>, r: nat)
    requires AllIndexed(s, index) && InRange(s, picks) && r < |picks| <= 64
  {
    IsPick(hasher, index, s, Chosen(s, picks[..r]), start + Sections(r + 1), prev, picks[r], |s|)
  }

  ghost predicate IsSelection(hasher: Hasher, index: map<Hash, Block>, s: seq<Candidate>, start: int, prev: Modifier, picks: seq<nat>)
    requires AllIndexed(s, index)
  {
    && |picks| <= 64 && InRange(s, picks)
    && forall r :: 0 <= r < |picks| ==> IsRound(hasher, index, s, start, prev, picks, r)
  }

  /** No block is picked twice. */
  lemma PicksDiffer(hasher: Hasher, index: map<Hash, Block>, s: seq<Candidate>, start: int, prev: Modifier, picks: seq<nat>, i: nat, j: nat)
    requires AllIndexed(s, index) && IsSelection(hasher, index, s, start, prev, picks) && i < j < |picks|
    ensures s[picks[i]].hash != s[picks[j]].hash
  {
    assert IsRound(hasher, index, s, start, prev, picks, j);
    assert picks[..j][i] == picks[i];
    assert s[picks[i]].hash in Chosen(s, picks[..j]);
  }

  /** The picks are determined by the candidates: two selections agree as far as both go. */
  lemma {:induction false} SelectionUnique(hasher: Hasher, index: map<Hash, Block>, s: seq<Candidate>, start: int, prev: Modifier,
                                           picks: seq<nat>, others: seq<nat>, n: nat)
    requires AllIndexed(s, index) && n <= |picks| && n <= |others|
    requires IsSelection(hasher, index, s, start, prev, picks) && IsSelection(hasher, index, s, start, prev, others)
    ensures picks[..n] == others[..n]
  {
    if n > 0 {
      var r := n - 1;
      SelectionUnique(hasher, index, s, start, prev, picks, others, r);
      assert IsRound(hasher, index, s, start, prev, picks, r) && IsRound(hasher, index, s, start, prev, others, r);
      PickUnique(hasher, index, s, Chosen(s, picks[..r]), start + Sections(n), prev, picks[r], others[r]);
      assert picks[..n] == picks[..r] + [picks[r]] && others[..n] == others[..r] + [others[r]];
    }
  }

  lemma PickUnique(hasher: Hasher, index: map<Hash, Block>, s: seq<Candidate>, selected: set<Hash>, stop: int, prev: Modifier, k: nat, j: nat)
    requires AllIndexed(s, index)
    requires IsPick(hasher, index, s, selected, stop, prev, k, |s|) && IsPick(hasher, index, s, selected, stop, prev, j, |s|)
    ensures k == j
  {
  }

  /** The entropy bits of the picked blocks, and zeros above them. */
  ghost predicate IsModifier(index: map<Hash, Block>, s: seq<Candidate>, picks: seq<nat>, m: Modifier)
    requires AllIndexed(s, index) && InRange(s, picks)
  {
    forall r :: 0 <= r < 64 ==> m[r] == (r < |picks| && EntropyAt(index, s, picks[r]))
  }

  ghost predicate EntropyAt(index: map<Hash, Block>, s: seq<Candidate>, p: nat)
    requires AllIndexed(s, index) && p < |s|
  {
    index[s[p].hash].entropy
  }

  /** The modifier comes from a full selection among the candidates: as many rounds as there are, up to 64. */
  ghost predicate IsSelected(hasher: Hasher, index: map<Hash, Block>, s: seq<Candidate>, start: int, prev: Modifier, m: Modifier)
    requires AllIndexed(s, index)
  {
    exists picks :: |picks| == Least64(|s|) && IsSelection(hasher, index, s, start, prev, picks) && IsModifier(index, s, picks, m)
  }

  /** The candidates determine the modifier. */
  lemma SelectedOnce(hasher: Hasher, index: map<Hash, Block>, s: seq<Candidate>, start: int, prev: Modifier, m: Modifier, n: Modifier)
    requires AllIndexed(s, index) && IsSelected(hasher, index, s, start, prev, m) && IsSelected(hasher, index, s, start, prev, n)
    ensures m == n
  {
    var picks :| |picks| == Least64(|s|) && IsSelection(hasher, index, s, start, prev, picks) && IsModifier(index, s, picks, m);
    var others :| |others| == Least64(|s|) && IsSelection(hasher, index, s, start, prev, others) && IsModifier(index, s, others, n);
    SelectionUnique(hasher, index, s, start, prev, picks, others, |picks|);
    assert picks[..|picks|] == picks && others[..|picks|] == others;
  }

  ghost predicate DistinctHashes(s: seq<Candidate>) {
    forall i, j :: 0 <= i < j < |s| ==> s[i].hash != s[j].hash
  }

  /** While fewer candidates are selected than there are, one is left. */
  lemma OneLeft(s: seq<Candidate>, selected: set<Hash>)
    requires DistinctHashes(s) && |selected| < |s|
    ensures exists k :: Unselected(s, selected, k)
  {
    var hashes := seq(|s|, k requires 0 <= k < |s| => s[k].hash);
    var all := set h | h in hashes;
    Collections.DistinctCount(hashes, all);
    if !exists k :: Unselected(s, selected, k) {
      forall h | h in all
        ensures h in selected
      {
        var k :| 0 <= k < |hashes| && hashes[k] == h;
        assert !Unselected(s, selected, k);
      }
      SubsetSize(all, selected);
      assert false;
    }
  }

  lemma {:induction false} SubsetSize<T>(a: set<T>, b: set<T>)
    requires a <= b
    ensures |a| <= |b|
    decreases |a|
  {
    if a != {} {
      assert (forall e :: e !in a) ==> a == {};
      var x :| x in a;
      SubsetSize(a - {x}, b - {x});
    }
  }

  lemma ChosenGrows(s: seq<Candidate>, picks: seq<nat>, p: nat)
    requires InRange(s, picks) && p < |s|
    ensures InRange(s, picks + [p]) && Chosen(s, picks + [p]) == Chosen(s, picks) + {s[p].hash}
  {
    var more := picks + [p];
    assert more[|picks|] == p;
    forall i | 0 <= i < |picks|
      ensures s[picks[i]].hash in Chosen(s, more)
    {
      assert more[i] == picks[i];
    }
  }

  lemma RoundKept(hasher: Hasher, index: map<Hash, Block>, s: seq<Candidate>, start: int, prev: Modifier, picks: seq<nat>, p: nat, r: nat)
    requires AllIndexed(s, index) && InRange(s, picks) && p < |s| && r < |picks| < 64
    requires IsRound(hasher, index, s, start, prev, picks, r)
    ensures InRange(s, picks + [p]) && IsRound(hasher, index, s, start, prev, picks + [p], r)
  {
    ChosenGrows(s, picks, p);
    assert (picks + [p])[..r] == picks[..r];
  }

  /** The selection so far, extended by one more pick. */
  lemma SelectionGrows(hasher: Hasher, index: map<Hash, Block>, s: seq<Candidate>, start: int, prev: Modifier, picks: seq<nat>, p: nat)
    requires AllIndexed(s, index) && IsSelection(hasher, index, s, start, prev, picks) && |picks| < 64
    requires IsPick(hasher, index, s, Chosen(s, picks), start + Sections(|picks| + 1), prev, p, |s|)
    ensures IsSelection(hasher, index, s, start, prev, picks + [p])
  {
    var more := picks + [p];
    ChosenGrows(s, picks, p);
    assert more[..|picks|] == picks;
    forall r | 0 <= r < |more|
      ensures IsRound(hasher, index, s, start, prev, more, r)
    {
      if r < |picks| {
        RoundKept(hasher, index, s, start, prev, picks, p, r);
      }
    }
  }

  lemma ModifierGrows(index: map<Hash, Block>, s: seq<Candidate>, picks: seq<nat>, p: nat, m: Modifier)
    requires AllIndexed(s, index) && InRange(s, picks) && p < |s| && |picks| < 64 && IsModifier(index, s, picks, m)
    ensures InRange(s, picks + [p]) && IsModifier(index, s, picks + [p], m[|picks| := m[|picks|] || index[s[p].hash].entropy])
  {
  }

  /** One round. */
  method Round(hasher: Hasher, index: map<Hash, Block>, s: seq<Candidate>, ghost start: int, prev: Modifier, ghost picks: seq<nat>,
               selected: set<Hash>, stop: int) returns (found: bool, p: nat)
    requires AllIndexed(s, index) && Ordered(s) && DistinctHashes(s) && |picks| < Least64(|s|)
    requires IsSelection(hasher, index, s, start, prev, picks)
    requires selected == Chosen(s, picks) && |selected| <= |picks| && stop == start + Sections(|picks| + 1)
    ensures found && p < |s| && IsSelection(hasher, index, s, start, prev, picks + [p])
    ensures Chosen(s, picks + [p]) == selected + {s[p].hash}
  {
    OneLeft(s, selected);
    found, p := SelectBlock(hasher, index, s, selected, stop, prev);
    SelectionGrows(hasher, index, s, start, prev, picks, p);
    ChosenGrows(s, picks, p);
  }

  /** The rounds of ComputeNextStakeModifier. No round fails. */
  method SelectAll(hasher: Hasher, index: map<Hash, Block>, s: seq<Candidate>, start: int, prev: Modifier)
    returns (m: Modifier)
    requires AllIndexed(s, index) && Ordered(s) && DistinctHashes(s)
    ensures IsSelected(hasher, index, s, start, prev, m)
  {
    m := seq(64, _ => false);
    ghost var picks := [];
    var stop, selected, rounds := start, {}, Least64(|s|);
    for r := 0 to rounds
      invariant |picks| == r && IsSelection(hasher, index, s, start, prev, picks) && IsModifier(index, s, picks, m)
      invariant stop == start + Sections(r) && selected == Chosen(s, picks) && |selected| <= r
    {
      stop := stop + Section(r);
      var found, p := Round(hasher, index, s, start, prev, picks, selected, stop);
      assert found;
      ModifierGrows(index, s, picks, p, m);
      m := m[r := m[r] || index[s[p].hash].entropy];
      picks, selected := picks + [p], selected + {s[p].hash};
    }
  }

  // ----- gathering and sorting -----

  lemma {:induction false} RecentIs(chain: seq<Block>, start: int, n: nat)
    requires n <= |chain| && (forall i :: 0 <= i < n ==> chain[i].time >= start)
    requires n < |chain| ==> chain[n].time < start
    ensures Recent(chain, start) == n
  {
    if n > 0 {
      RecentIs(chain[1..], start, n - 1);
    }
  }

  /** The walk from the tip, pushing at the back, and the reversal after it. */
  method Gather(chain: seq<Block>, start: int) returns (v: seq<Candidate>)
    ensures multiset(v) == multiset(Candidates(chain, Recent(chain, start)))
  {
    v := [];
    var i := 0;
    while i < |chain| && chain[i].time >= start
      invariant 0 <= i <= |chain| && (forall k :: 0 <= k < i ==> chain[k].time >= start)
      invariant multiset(v) == multiset(Candidates(chain, i))
    {
      assert Candidates(chain, i + 1) == Candidates(chain, i) + [CandidateOf(chain[i])];
      v := [CandidateOf(chain[i])] + v;
      i := i + 1;
    }
    RecentIs(chain, start, i);
  }

  /** One step of sorting: a candidate goes before the first one that is not before it. */
  method Insert(s: seq<Candidate>, x: Candidate) returns (t: seq<Candidate>)
    requires Ordered(s)
    ensures Ordered(t) && multiset(t) == multiset(s) + multiset{x}
  {
    var k := 0;
    while k < |s| && Before(s[k], x)
      invariant 0 <= k <= |s| && forall i :: 0 <= i < k ==> Before(s[i], x)
    {
      k := k + 1;
    }
    t := s[..k] + [x] + s[k..];
    assert s == s[..k] + s[k..];
    Inserted(s, k, x);
  }

  lemma Inserted(s: seq<Candidate>, k: nat, x: Candidate)
    requires Ordered(s) && k <= |s| && (forall i :: 0 <= i < k ==> Before(s[i], x)) && (k < |s| ==> !Before(s[k], x))
    ensures Ordered(s[..k] + [x] + s[k..])
  {
    var t := s[..k] + [x] + s[k..];
    forall i | k <= i < |s|
      ensures Before(x, s[i])
    {
      assert i == k || Before(s[k], s[i]);
    }
    forall i, j | 0 <= i < j < |t|
      ensures Before(t[i], t[j])
    {
      var p, q := if i <= k then i else i - 1, if j <= k then j else j - 1;
      if i != k && j != k {
        assert Before(s[p], s[q]);
      }
    }
  }

  method Sort(v: seq<Candidate>) returns (s: seq<Candidate>)
    ensures Ordered(s) && multiset(s) == multiset(v)
  {
    s := [];
    for i := 0 to |v|
      invariant Ordered(s) && multiset(s) == multiset(v[..i])
    {
      s := Insert(s, v[i]);
      assert v[..i + 1] == v[..i] + [v[i]];
    }
    assert v[..|v|] == v;
  }

  lemma SortedIndexed(s: seq<Candidate>, index: map<Hash, Block>, chain: seq<Block>, n: nat)
    requires Indexed(index, chain) && n <= |chain| && multiset(s) == multiset(Candidates(chain, n))
    ensures AllIndexed(s, index) && |s| == n
  {
    var q := Candidates(chain, n);
    assert |multiset(s)| == |multiset(q)|;
    forall k | 0 <= k < |s|
      ensures s[k].hash in index && CandidateOf(index[s[k].hash]) == s[k]
    {
      assert s[k] in multiset(q);
      var i :| 0 <= i < |q| && q[i] == s[k];
      assert chain[i].hash in index;
    }
  }

  lemma SortedDistinct(s: seq<Candidate>, index: map<Hash, Block>, chain: seq<Block>, n: nat)
    requires Indexed(index, chain) && UniqueHashes(chain) && n <= |chain| && multiset(s) == multiset(Candidates(chain, n))
    requires AllIndexed(s, index)
    ensures DistinctHashes(s)
  {
    var q := Candidates(chain, n);
    assert forall i, j :: 0 <= i < j < |q| ==> q[i].hash == chain[i].hash && q[j].hash == chain[j].hash;
    assert Collections.Distinct(q);
    Collections.DistinctOnce(q);
    forall x | x in s
      ensures multiset(s)[x] == 1
    {
      assert x in multiset(s);
      assert x in q;
    }
    Collections.DistinctOnce(s);
    SameHashSame(s, index);
  }

  lemma SameHashSame(s: seq<Candidate>, index: map<Hash, Block>)
    requires AllIndexed(s, index) && Collections.Distinct(s)
    ensures DistinctHashes(s)
  {
    forall i, j | 0 <= i < j < |s|
      ensures s[i].hash != s[j].hash
    {
      assert s[i] != s[j];
    }
  }

  // ----- the whole computation -----

  /** The nearest block, from the tip, that generated a modifier. */
  ghost predicate IsLast(chain: seq<Block>, i: nat) {
    i < |chain| && chain[i].generated && forall j :: 0 <= j < i ==> !chain[j].generated
  }

  /** GetLastStakeModifier. */
  method LastModifier(chain: seq<Block>) returns (ok: bool, last: nat)
    ensures ok ==> IsLast(chain, last)
    ensures !ok ==> forall j :: 0 <= j < |chain| ==> !chain[j].generated
  {
    if chain == [] {
      return false, 0;
    }
    last := 0;
    while last + 1 < |chain| && !chain[last].generated
      invariant 0 <= last < |chain| && forall j :: 0 <= j < last ==> !chain[j].generated
    {
      last := last + 1;
    }
    ok := chain[last].generated;
  }

  /** A new interval of `MODIFIER_INTERVAL` seconds has begun since `past`. */
  predicate NewInterval(past: nat, now: nat) { past / MODIFIER_INTERVAL < now / MODIFIER_INTERVAL }

  /** What a newly generated modifier is made from: the recent blocks of the chain, sorted. */
  ghost predicate IsGenerated(hasher: Hasher, index: map<Hash, Block>, chain: seq<Block>, prev: Modifier, m: Modifier)
    requires chain != []
  {
    var start := Start(chain[0].time);
    exists s :: AreCandidates(s, chain, start) && AllIndexed(s, index) && IsSelected(hasher, index, s, start, prev, m)
  }

  method Generate(hasher: Hasher, index: map<Hash, Block>, chain: seq<Block>, prev: Modifier) returns (m: Modifier)
    requires chain != [] && Indexed(index, chain) && UniqueHashes(chain)
    ensures IsGenerated(hasher, index, chain, prev, m)
  {
    var interval := SelectionInterval();
    var start := chain[0].time / MODIFIER_INTERVAL * MODIFIER_INTERVAL - interval;
    var v := Gather(chain, start);
    var sorted := Sort(v);
    SortedIndexed(sorted, index, chain, Recent(chain, start));
    SortedDistinct(sorted, index, chain, Recent(chain, start));
    m := SelectAll(hasher, index, sorted, start, prev);
    GeneratedFrom(hasher, index, chain, prev, m, sorted, start);
  }

  lemma GeneratedFrom(hasher: Hasher, index: map<Hash, Block>, chain: seq<Block>, prev: Modifier, m: Modifier, s: seq<Candidate>, start: int)
    requires chain != [] && start == Start(chain[0].time)
    requires AreCandidates(s, chain, start) && AllIndexed(s, index) && IsSelected(hasher, index, s, start, prev, m)
    ensures IsGenerated(hasher, index, chain, prev, m)
  {
  }

  /** The order of the candidates is total: a sorted list is determined by what it holds. */
  lemma {:induction false} OrderedUnique(s: seq<Candidate>, t: seq<Candidate>)
    requires Ordered(s) && Ordered(t) && multiset(s) == multiset(t)
    ensures s == t
    decreases |s|
  {
    assert |s| == |multiset(s)| == |multiset(t)| == |t|;
    if s != [] {
      assert s[0] in multiset(t) && t[0] in multiset(s);
      FirstIsLeast(s, t[0]);
      FirstIsLeast(t, s[0]);
      WithoutFirst(s);
      WithoutFirst(t);
      OrderedUnique(s[1..], t[1..]);
    }
  }

  lemma FirstIsLeast(s: seq<Candidate>, x: Candidate)
    requires Ordered(s) && x in s
    ensures Before(s[0], x)
  {
  }

  lemma WithoutFirst(s: seq<Candidate>)
    requires s != []
    ensures s == [s[0]] + s[1..] && multiset(s[1..]) == multiset(s) - multiset{s[0]}
  {
    assert s == [s[0]] + s[1..];
  }

  /** The chain determines the modifier it generates. */
  lemma GeneratedOnce(hasher: Hasher, index: map<Hash, Block>, chain: seq<Block>, prev: Modifier, m: Modifier, n: Modifier)
    requires chain != [] && IsGenerated(hasher, index, chain, prev, m) && IsGenerated(hasher, index, chain, prev, n)
    ensures m == n
  {
    var start := Start(chain[0].time);
    var s :| AreCandidates(s, chain, start) && AllIndexed(s, index) && IsSelected(hasher, index, s, start, prev, m);
    var t :| AreCandidates(t, chain, start) && AllIndexed(t, index) && IsSelected(hasher, index, t, start, prev, n);
    OrderedUnique(s, t);
    SelectedOnce(hasher, index, s, start, prev, m, n);
  }

  /** ComputeNextStakeModifier. It fails exactly where no block of the chain has generated a modifier. */
  method ComputeNext(hasher: Hasher, index: map<Hash, Block>, chain: seq<Block>)
    returns (ok: bool, m: Modifier, generated: bool)
    requires Indexed(index, chain) && UniqueHashes(chain)
    ensures ok <==> chain == [] || exists i :: 0 <= i < |chain| && chain[i].generated
    ensures chain == [] ==> generated && m == seq(64, _ => false)
    ensures ok && chain != [] ==> exists i: nat :: IsLast(chain, i) && IsNext(hasher, index, chain, i, m, generated)
  {
    m, generated := seq(64, _ => false), false;
    if chain == [] {
      generated, ok := true, true;
      return;
    }
    var last;
    ok, last := LastModifier(chain);
    if ok {
      m, generated := NextAfter(hasher, index, chain, last);
    }
  }

  /** The modifier of the last generating block, or a new one in a new interval. */
  ghost predicate IsNext(hasher: Hasher, index: map<Hash, Block>, chain: seq<Block>, last: nat, m: Modifier, generated: bool)
    requires last < |chain|
  {
    && (generated <==> NewInterval(chain[last].time, chain[0].time))
    && if generated then IsGenerated(hasher, index, chain, chain[last].modifier, m) else m == chain[last].modifier
  }

  /** So every node that has the chain computes the same modifier, and agrees whether it is new. */
  lemma NextOnce(hasher: Hasher, index: map<Hash, Block>, chain: seq<Block>, i: nat, m: Modifier, g: bool, j: nat, n: Modifier, h: bool)
    requires IsLast(chain, i) && IsNext(hasher, index, chain, i, m, g)
    requires IsLast(chain, j) && IsNext(hasher, index, chain, j, n, h)
    ensures i == j && m == n && g == h
  {
    assert i == j;
    if g {
      GeneratedOnce(hasher, index, chain, chain[i].modifier, m, n);
    }
  }

  method NextAfter(hasher: Hasher, index: map<Hash, Block>, chain: seq<Block>, last: nat)
    returns (m: Modifier, generated: bool)
    requires Indexed(index, chain) && UniqueHashes(chain) && last < |chain|
    ensures IsNext(hasher, index, chain, last, m, generated)
  {
    m := chain[last].modifier;
    generated := chain[last].time / MODIFIER_INTERVAL < chain[0].time / MODIFIER_INTERVAL;
    if generated {
      m := Generate(hasher, index, chain, m);
    }
  }

  // ----- the modifier of a kernel -----

  predicate LateEnough(next: seq<Block>, interval: nat, i: nat)
    requires i < |next|
  {
    next[i].generated && next[i].time >= next[0].time + interval
  }

  /** The first block after the first one of `next` that generated a modifier a whole interval later. */
  ghost predicate IsKernelBlock(next: seq<Block>, interval: nat, i: nat) {
    && 0 < i < |next| && LateEnough(next, interval, i)
    && forall j :: 0 < j < i ==> !LateEnough(next, interval, j)
  }

  lemma IntervalPositive()
    ensures Sections(64) > 0
  {
    assert Section(63) == 60;
  }

  /** The walk along `pnext`. */
  method FindKernel(next: seq<Block>, interval: nat) returns (ok: bool, m: Modifier)
    requires next != [] && interval > 0
    ensures ok <==> exists i :: 0 < i < |next| && LateEnough(next, interval, i)
    ensures ok ==> exists i: nat :: IsKernelBlock(next, interval, i) && m == next[i].modifier
  {
    var time, i := next[0].time, 0;
    m := seq(64, _ => false);
    while time < next[0].time + interval
      invariant 0 <= i < |next| && forall j :: 0 < j < i ==> !LateEnough(next, interval, j)
      invariant if i > 0 && LateEnough(next, interval, i) then time == next[i].time else time < next[0].time + interval
      decreases |next| - i
    {
      if i + 1 == |next| {
        return false, m;
      }
      i := i + 1;
      if next[i].generated {
        time := next[i].time;
      }
    }
    ok, m := true, next[i].modifier;
    assert IsKernelBlock(next, interval, i);
  }

  /** GetKernelStakeModifier, from the block of the staked output on; `next` is empty if that is not indexed. */
  method KernelModifier(next: seq<Block>) returns (ok: bool, m: Modifier)
    ensures ok <==> exists i :: 0 < i < |next| && LateEnough(next, Sections(64), i)
    ensures ok ==> exists i: nat :: IsKernelBlock(next, Sections(64), i) && m == next[i].modifier
  {
    if next == [] {
      return false, seq(64, _ => false);
    }
    var interval := SelectionInterval();
    IntervalPositive();
    ok, m := FindKernel(next, interval);
  }
}
