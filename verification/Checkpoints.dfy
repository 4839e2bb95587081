/**
 Synchronised checkpoints (`checkpoints.cpp`) as a transition system over a growing block tree: a hash that only
 ever moves to a descendant, and the check that holds new blocks to it.
 */
module Checkpoints {
  import opened BlockTree
  import opened Options

  const NULL_HASH: Hash := 0

  /** The globals, with the block index. A message is represented by the hash it carries. */
  datatype State = State(tree: Tree, sync: Hash, pending: Hash, invalid: Hash,
                         message: Option<Hash>, pendingMessage: Option<Hash>)

  /** How the calls out of this file turn out. */
  datatype Outcome = Outcome(inMainChain: bool, read: bool, bestChain: bool, written: bool, committed: bool)

  ghost predicate Ok(s: State) {
    && WellFormed(s.tree) && s.sync in s.tree
    && (s.pendingMessage.Some? ==> s.pendingMessage.value == s.pending)
    && (s.message.Some? ==> s.message.value == s.sync)
  }

  /** Both are indexed, and `h` is higher than the checkpoint and descends from it. */
  ghost predicate Advances(s: State, h: Hash)
    requires WellFormed(s.tree)
  {
    s.sync in s.tree && h in s.tree && s.tree[h].height > s.tree[s.sync].height && IsAncestor(s.tree, s.sync, h)
  }

  /** The block could be connected and the database took the new hash. */
  predicate Succeeds(o: Outcome) { (o.inMainChain || (o.read && o.bestChain)) && o.written && o.committed }

  // ----- the steps -----

  datatype Event =
    | Grow(tree: Tree)
    | Process(hash: Hash, signed: bool, outcome: Outcome)
    | AcceptPending(accepting: Outcome)

  /** `h` and the checkpoint are on different branches that meet the lower of the two heights. */
  ghost predicate Conflicts(s: State, h: Hash)
    requires WellFormed(s.tree)
  {
    && s.sync in s.tree && h in s.tree && !IsAncestor(s.tree, s.sync, h) && !IsAncestor(s.tree, h, s.sync)
    && WalkDown(s.tree, h, s.tree[s.sync].height).Some? && WalkDown(s.tree, s.sync, s.tree[h].height).Some?
  }

  /** A checkpoint that is not adopted changes nothing but the record of the last invalid one. */
  ghost function Refuse(s: State, h: Hash, o: Outcome): State
    requires WellFormed(s.tree)
  {
    if Conflicts(s, h) || (Advances(s, h) && !o.inMainChain && o.read && !o.bestChain) then s.(invalid := h) else s
  }

  ghost predicate Next(s: State, t: State, e: Event)
    requires WellFormed(s.tree)
  {
    match e
    case Grow(tree) => Grows(s.tree, tree) && t == s.(tree := tree)
    case Process(h, signed, o) =>
      if !signed then t == s
      else if h !in s.tree then t == s.(pending := h, pendingMessage := Some(h))
      else if Advances(s, h) && Succeeds(o) then
        t == s.(sync := h, message := Some(h), pending := NULL_HASH, pendingMessage := None)
      else t == Refuse(s, h, o)
    case AcceptPending(o) =>
      if s.pending == NULL_HASH || s.pending !in s.tree then t == s
      else if !Advances(s, s.pending) then
        t == Refuse(s, s.pending, o).(pending := NULL_HASH, pendingMessage := None)
      else if Succeeds(o) then
        t == s.(sync := s.pending, message := s.pendingMessage, pending := NULL_HASH, pendingMessage := None)
      else t == Refuse(s, s.pending, o)
  }

  /** Every step keeps the state well-formed and moves the checkpoint only to a descendant. */
  lemma StepAdvances(s: State, t: State, e: Event)
    requires Ok(s) && Next(s, t, e)
    ensures Ok(t) && Grows(s.tree, t.tree)
    ensures IsAncestor(t.tree, s.sync, t.sync) && (t.sync == s.sync || t.tree[s.sync].height < t.tree[t.sync].height)
  {
  }

  /** A message is adopted exactly if it is signed, advances the checkpoint and its block could be connected and stored. */
  lemma AdoptsExactly(s: State, t: State, h: Hash, signed: bool, o: Outcome)
    requires Ok(s) && Next(s, t, Process(h, signed, o))
    ensures t.sync != s.sync <==> signed && Advances(s, h) && Succeeds(o)
    ensures t.sync != s.sync ==> t.sync == h && t.message == Some(h) && t.pending == NULL_HASH && t.pendingMessage == None
  {
  }

  /** A message that is ahead of its block waits, and is adopted once the block has arrived. */
  lemma PendingIsAdopted(s: State, h: Hash, o: Outcome, t: State, tree: Tree, u: State, p: Outcome, v: State)
    requires Ok(s) && h != NULL_HASH && h !in s.tree && Next(s, t, Process(h, true, o))
    requires Next(t, u, Grow(tree)) && Next(u, v, AcceptPending(p))
    requires h in tree && tree[h].height > tree[s.sync].height && IsAncestor(tree, s.sync, h) && Succeeds(p)
    ensures t.sync == s.sync == u.sync && t.pending == h
    ensures v.sync == h && v.message == Some(h) && v.pending == NULL_HASH && v.pendingMessage == None
  {
  }

  // ----- runs -----

  ghost predicate IsRun(states: seq<State>, events: seq<Event>) {
    && |states| == |events| + 1 && Ok(states[0])
    && forall i :: 0 <= i < |events| ==> WellFormed(states[i].tree) && Next(states[i], states[i + 1], events[i])
  }

  /** In every state of a run the checkpoint is indexed and the messages name their hashes. */
  lemma {:induction false} RunOk(states: seq<State>, events: seq<Event>, i: nat)
    requires IsRun(states, events) && i < |states|
    ensures Ok(states[i])
  {
    if i > 0 {
      RunOk(states, events, i - 1);
      StepAdvances(states[i - 1], states[i], events[i - 1]);
    }
  }

  /** Along a run the checkpoints form a chain of ancestors of strictly rising height. */
  lemma {:induction false} RunAdvances(states: seq<State>, events: seq<Event>, i: nat, j: nat)
    requires IsRun(states, events) && i <= j < |states|
    ensures Ok(states[i]) && Ok(states[j]) && Grows(states[i].tree, states[j].tree)
    ensures IsAncestor(states[j].tree, states[i].sync, states[j].sync)
    ensures states[i].sync == states[j].sync
         || states[j].tree[states[i].sync].height < states[j].tree[states[j].sync].height
    decreases j - i
  {
    RunOk(states, events, i);
    if i < j {
      var k := j - 1;
      RunAdvances(states, events, i, k);
      StepAdvances(states[k], states[j], events[k]);
      GrowthKeepsAncestors(states[k].tree, states[j].tree, states[i].sync, states[k].sync);
      AncestorTransitive(states[j].tree, states[i].sync, states[k].sync, states[j].sync);
    }
  }

  /** What `CheckSync` answers on the main network. */
  ghost predicate PassesSync(s: State, hash: Hash, prev: Hash)
    requires WellFormed(s.tree) && s.sync in s.tree && prev in s.tree
  {
    var height := s.tree[prev].height + 1;
    var synced := s.tree[s.sync].height;
    if height > synced then IsAncestor(s.tree, s.sync, prev)
    else if height == synced then hash == s.sync
    else hash in s.tree
  }

  /** A block above the checkpoint that passes descends from every checkpoint adopted earlier in the run. */
  lemma PassingDescends(states: seq<State>, events: seq<Event>, i: nat, j: nat, hash: Hash, prev: Hash)
    requires IsRun(states, events) && i <= j < |states| && prev in states[j].tree
    ensures Ok(states[j])
    ensures states[j].tree[prev].height + 1 > states[j].tree[states[j].sync].height && PassesSync(states[j], hash, prev)
      ==> IsAncestor(states[j].tree, states[i].sync, prev)
  {
    RunAdvances(states, events, i, j);
    if states[j].tree[prev].height + 1 > states[j].tree[states[j].sync].height && PassesSync(states[j], hash, prev) {
      AncestorTransitive(states[j].tree, states[i].sync, states[j].sync, prev);
    }
  }
}
