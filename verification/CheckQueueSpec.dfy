/**
 The parallel check queue (`CCheckQueue`) as a transition system.

 Each critical section of `Loop` and `Add` is one atomic step over the shared fields and the state of
 one thread; running one check outside the mutex is a step of its own. Thread 0 is the controller that
 adds checks and waits, the others are workers. A waiting thread may wake at any time, as condition
 variables allow.
 */
module CheckQueueSpec {
  import opened Arithmetic
  import opened Options

  /** A check, with the result of running it. */
  datatype Check = Check(id: nat, verdict: bool)

  datatype Phase =
    | Outside
    | Waiting
    | Working(batch: seq<Check>, next: nat, ok: bool)

  datatype State = State(
    queue: seq<Check>,
    nIdle: int,
    nTotal: int,
    fAllOk: bool,
    nTodo: int,
    fQuit: bool,
    nBatchSize: nat,
    threads: seq<Phase>,
    notified: bool)

  /** One step: a thread enters `Loop`, reports a batch, wakes, runs a check; the controller adds checks. */
  datatype Label =
    | Enter(i: nat)
    | Report(i: nat)
    | Wake(i: nat)
    | Run(i: nat)
    | Add(checks: seq<Check>)

  ghost predicate Passes(checks: seq<Check>) {
    forall i :: 0 <= i < |checks| ==> checks[i].verdict
  }

  function BatchLength(s: State): (n: nat)
    requires s.queue != [] && s.nTotal >= 0 && s.nIdle >= 0
    ensures 1 <= n <= |s.queue|
  {
    var share := |s.queue| / (s.nTotal + s.nIdle + 1);
    assert share <= |s.queue|;
    var n := if s.nBatchSize < share then s.nBatchSize else share;
    if n < 1 then 1 else n
  }

  /** The checks taken from the back of the queue, the last one first. */
  function FromBack(queue: seq<Check>, n: nat): (batch: seq<Check>)
    requires n <= |queue|
    ensures |batch| == n
  {
    if n == 0 then [] else [queue[|queue| - 1]] + FromBack(queue[..|queue| - 1], n - 1)
  }

  function SetPhase(s: State, i: nat, p: Phase): State
    requires i < |s.threads|
  {
    s.(threads := s.threads[i := p])
  }

  /** The end of every critical section of `Loop`: take a batch, return, or wait. */
  function Settle(s: State, i: nat): (r: (State, Option<bool>))
    requires i < |s.threads| && s.nTotal >= 0 && s.nIdle >= 0
  {
    if s.queue != [] then
      var n := BatchLength(s);
      var batch := FromBack(s.queue, n);
      (SetPhase(s, i, Working(batch, 0, s.fAllOk)).(queue := s.queue[..|s.queue| - n]), None)
    else if (i == 0 || s.fQuit) && s.nTodo == 0 then
      (SetPhase(s, i, Outside).(nTotal := s.nTotal - 1, fAllOk := if i == 0 then true else s.fAllOk), Some(s.fAllOk))
    else
      (SetPhase(s, i, Waiting).(nIdle := s.nIdle + 1, notified := if i == 0 then false else s.notified), None)
  }

  function Reported(s: State, i: nat): State
    requires i < |s.threads| && s.threads[i].Working?
  {
    var todo := s.nTodo - |s.threads[i].batch|;
    s.(fAllOk := s.fAllOk && s.threads[i].ok,
       nTodo := todo,
       notified := s.notified || (todo == 0 && i != 0))
  }

  predicate Enabled(s: State, l: Label) {
    match l
    case Enter(i) => i < |s.threads| && s.threads[i].Outside?
    case Report(i) => i < |s.threads| && s.threads[i].Working? && s.threads[i].next == |s.threads[i].batch|
    case Wake(i) => i < |s.threads| && s.threads[i].Waiting?
    case Run(i) => i < |s.threads| && s.threads[i].Working? && s.threads[i].next < |s.threads[i].batch|
    case Add(_) => |s.threads| > 0 && s.threads[0].Outside?
  }

  /** The counters of threads have not run below zero. */
  predicate Countable(s: State, l: Label) { s.nTotal >= 0 && s.nIdle >= 0 && (l.Wake? ==> s.nIdle >= 1) }

  /** The state after a step, and the value returned by `Loop` if the step ends a call. */
  function Next(s: State, l: Label): (r: (State, Option<bool>))
    requires Enabled(s, l) && Countable(s, l)
  {
    match l
    case Enter(i) => Settle(s.(nTotal := s.nTotal + 1), i)
    case Report(i) => Settle(Reported(s, i), i)
    case Wake(i) => Settle(s.(nIdle := s.nIdle - 1), i)
    case Run(i) =>
      var p := s.threads[i];
      (SetPhase(s, i, p.(next := p.next + 1, ok := p.ok && p.batch[p.next].verdict)), None)
    case Add(checks) =>
      (s.(queue := s.queue + checks, nTodo := s.nTodo + |checks|), None)
  }

  // ----- what a critical section does with the queue -----

  lemma {:induction false} FromBackAt(queue: seq<Check>, n: nat, j: nat)
    requires j < n <= |queue|
    ensures FromBack(queue, n)[j] == queue[|queue| - 1 - j]
  {
    if j > 0 {
      FromBackAt(queue[..|queue| - 1], n - 1, j - 1);
    }
  }

  /** A batch of `n` checks fits the limit of a batch, and every registered or idle thread a share of the same size. */
  ghost predicate FairSize(n: nat, nBatchSize: nat, threads: int, checks: nat) {
    n <= nBatchSize && n * (threads + 1) <= checks
  }

  /** The size of a batch: one, or the largest fair size. */
  ghost predicate IsBatchSize(n: nat, nBatchSize: nat, threads: int, checks: nat) {
    && n >= 1 && (n == 1 || FairSize(n, nBatchSize, threads, checks))
    && forall m: nat :: m > n ==> !FairSize(m, nBatchSize, threads, checks)
  }

  lemma BatchLengthIs(s: State)
    requires s.queue != [] && s.nTotal >= 0 && s.nIdle >= 0
    ensures IsBatchSize(BatchLength(s), s.nBatchSize, s.nTotal + s.nIdle, |s.queue|)
  {
    var d := s.nTotal + s.nIdle + 1;
    forall m: nat
      ensures m * d <= |s.queue| <==> m <= |s.queue| / d
    {
      QuotientIsGreatest(|s.queue|, d, m);
    }
  }

  /** The batch is the end of the queue, the last check first, and the rest stays. */
  ghost predicate TakenOff(queue: seq<Check>, batch: seq<Check>, rest: seq<Check>) {
    && |batch| <= |queue| && rest == queue[..|queue| - |batch|]
    && forall j :: 0 <= j < |batch| ==> batch[j] == queue[|queue| - 1 - j]
  }

  /** Thread `i` has taken a batch off the back of the queue; only it and the queue have changed. */
  ghost predicate Takes(s: State, i: nat, s': State)
    requires i < |s.threads|
  {
    && |s'.threads| == |s.threads| && s'.threads[i].Working?
    && var n := |s'.threads[i].batch|;
       && IsBatchSize(n, s.nBatchSize, s.nTotal + s.nIdle, |s.queue|) && TakenOff(s.queue, s'.threads[i].batch, s'.queue)
       && s'.threads[i].next == 0 && s'.threads[i].ok == s.fAllOk
       && s' == s.(queue := s'.queue, threads := s.threads[i := s'.threads[i]])
  }

  /** The rest of a critical section takes a batch whenever there is one; a thread goes to sleep only on an empty queue. */
  lemma SettleTakes(s: State, i: nat)
    requires i < |s.threads| && s.nTotal >= 0 && s.nIdle >= 0
    ensures var (s', ret) := Settle(s, i);
      && |s'.threads| == |s.threads|
      && (s.queue != [] ==> ret == None && Takes(s, i, s'))
      && (s'.threads[i].Waiting? ==> s.queue == [])
      && (ret.Some? <==> s.queue == [] && (i == 0 || s.fQuit) && s.nTodo == 0)
      && (ret.Some? ==> ret.value == s.fAllOk && s'.threads[i].Outside?)
      && (s.queue == [] && ret.None? ==> s'.threads[i].Waiting?)
  {
    if s.queue != [] {
      BatchLengthIs(s);
      forall j | 0 <= j < BatchLength(s)
        ensures FromBack(s.queue, BatchLength(s))[j] == s.queue[|s.queue| - 1 - j]
      {
        FromBackAt(s.queue, BatchLength(s), j);
      }
    }
  }

  // ----- sums over threads -----

  function Total(threads: seq<Phase>, f: Phase -> nat): (n: nat) {
    if threads == [] then 0 else Total(threads[..|threads| - 1], f) + f(threads[|threads| - 1])
  }

  lemma {:induction false} TotalUpdate(threads: seq<Phase>, i: nat, p: Phase, f: Phase -> nat)
    requires i < |threads|
    ensures Total(threads[i := p], f) == Total(threads, f) - f(threads[i]) + f(p)
  {
    var n := |threads| - 1;
    if i == n {
      assert threads[i := p][..n] == threads[..n];
    } else {
      TotalUpdate(threads[..n], i, p, f);
      assert threads[i := p][..n] == threads[..n][i := p];
    }
  }

  lemma {:induction false} TotalAtLeast(threads: seq<Phase>, i: nat, f: Phase -> nat)
    requires i < |threads|
    ensures f(threads[i]) <= Total(threads, f)
  {
    var n := |threads| - 1;
    if i < n {
      TotalAtLeast(threads[..n], i, f);
    }
  }

  lemma {:induction false} TotalPositive(threads: seq<Phase>, f: Phase -> nat) returns (i: nat)
    requires Total(threads, f) > 0
    ensures i < |threads| && f(threads[i]) > 0
  {
    var n := |threads| - 1;
    if f(threads[n]) > 0 {
      i := n;
    } else {
      i := TotalPositive(threads[..n], f);
    }
  }

  const Load: Phase -> nat := (p: Phase) => if p.Working? then |p.batch| else 0
  const Registered: Phase -> nat := (p: Phase) => if p.Outside? then 0 else 1
  const Idle: Phase -> nat := (p: Phase) => if p.Waiting? then 1 else 0

  // ----- the invariant -----

  ghost predicate PhaseOk(p: Phase) {
    p.Working? ==> p.next <= |p.batch| && |p.batch| >= 1
  }

  /** Whether what a thread holds can still turn out well. */
  ghost predicate Promising(p: Phase) {
    p.Working? && p.next <= |p.batch| ==> p.ok && Passes(p.batch[p.next..])
  }

  ghost predicate CountersOk(s: State) {
    && s.nTodo == |s.queue| + Total(s.threads, Load)
    && s.nTotal == Total(s.threads, Registered)
    && s.nIdle == Total(s.threads, Idle)
  }

  ghost predicate AllPromising(threads: seq<Phase>) {
    forall i :: 0 <= i < |threads| ==> Promising(threads[i])
  }

  /** The verdict on the checks added so far can be read off the state. */
  ghost predicate VerdictOk(s: State, added: seq<Check>) {
    Passes(added) <==> s.fAllOk && Passes(s.queue) && AllPromising(s.threads)
  }

  /** A controller that waits without having been notified has somebody to wait for. */
  ghost predicate WaitOk(s: State) {
    |s.threads| > 0 && s.threads[0].Waiting? ==> s.queue == [] && (!s.notified ==> s.nTodo > 0)
  }

  ghost predicate PhasesOk(threads: seq<Phase>) {
    forall i :: 0 <= i < |threads| ==> PhaseOk(threads[i])
  }

  ghost predicate Inv(s: State, added: seq<Check>) {
    && |s.threads| > 0 && PhasesOk(s.threads)
    && CountersOk(s)
    && VerdictOk(s, added)
    && WaitOk(s)
    && s.nTodo <= |added|
  }

  /** The situation inside a critical section, with thread `i` registered but in no phase yet. */
  ghost predicate InSection(s: State, i: nat, added: seq<Check>) {
    && i < |s.threads|
    && var others := s.threads[i := Outside];
    && PhasesOk(others)
    && s.nTodo == |s.queue| + Total(others, Load)
    && s.nTotal == Total(others, Registered) + 1
    && s.nIdle == Total(others, Idle)
    && (Passes(added) <==> s.fAllOk && Passes(s.queue) && AllPromising(others))
    && (i != 0 ==> WaitOk(s))
    && s.nTodo <= |added|
  }

  // ----- taking a batch -----

  lemma {:induction false} BatchPasses(queue: seq<Check>, n: nat)
    requires n <= |queue|
    ensures Passes(queue) <==> Passes(queue[..|queue| - n]) && Passes(FromBack(queue, n))
  {
    if n > 0 {
      var m := |queue| - 1;
      BatchPasses(queue[..m], n - 1);
      assert queue[..m][..m - (n - 1)] == queue[..|queue| - n];
      assert queue == queue[..m] + [queue[m]];
      PassesConcat(queue[..m], [queue[m]]);
      PassesConcat([queue[m]], FromBack(queue[..m], n - 1));
    } else {
      assert queue[..|queue| - n] == queue;
    }
  }

  lemma PassesConcat(p: seq<Check>, q: seq<Check>)
    ensures Passes(p + q) <==> Passes(p) && Passes(q)
  {
    if Passes(p + q) {
      assert forall i :: 0 <= i < |p| ==> p[i] == (p + q)[i];
      assert forall i :: 0 <= i < |q| ==> q[i] == (p + q)[|p| + i];
    }
  }

  /** Giving one thread another phase changes the outlook by that phase only. */
  lemma PromisingUpdate(threads: seq<Phase>, i: nat, p: Phase)
    requires i < |threads|
    ensures AllPromising(threads[i := p]) <==> AllPromising(threads[i := Outside]) && Promising(p)
  {
    var others, after := threads[i := Outside], threads[i := p];
    if AllPromising(after) {
      assert forall j :: 0 <= j < |threads| && j != i ==> others[j] == after[j];
      assert Promising(after[i]);
    }
    if AllPromising(others) && Promising(p) {
      assert forall j :: 0 <= j < |threads| && j != i ==> others[j] == after[j];
    }
  }

  lemma PhasesUpdate(threads: seq<Phase>, i: nat, p: Phase)
    requires i < |threads| && PhasesOk(threads[i := Outside]) && PhaseOk(p)
    ensures PhasesOk(threads[i := p])
  {
    var others, after := threads[i := Outside], threads[i := p];
    forall j | 0 <= j < |after|
      ensures PhaseOk(after[j])
    {
      assert j != i ==> after[j] == others[j];
    }
  }

  lemma SettleTotals(s: State, i: nat, p: Phase)
    requires i < |s.threads|
    ensures var others := s.threads[i := Outside];
      && Total(s.threads[i := p], Load) == Total(others, Load) + Load(p)
      && Total(s.threads[i := p], Registered) == Total(others, Registered) + Registered(p)
      && Total(s.threads[i := p], Idle) == Total(others, Idle) + Idle(p)
  {
    var others := s.threads[i := Outside];
    assert others[i := p] == s.threads[i := p];
    TotalUpdate(others, i, p, Load);
    TotalUpdate(others, i, p, Registered);
    TotalUpdate(others, i, p, Idle);
  }

  lemma TakeKeeps(s: State, i: nat, added: seq<Check>)
    requires InSection(s, i, added) && s.queue != []
    ensures Settle(s, i).1 == None && Inv(Settle(s, i).0, added)
  {
    var n := BatchLength(s);
    var p := Working(FromBack(s.queue, n), 0, s.fAllOk);
    SettleTotals(s, i, p);
    PhasesUpdate(s.threads, i, p);
    BatchPasses(s.queue, n);
    PromisingUpdate(s.threads, i, p);
    assert p.batch[0..] == p.batch;
  }

  lemma NobodyWorking(threads: seq<Phase>)
    requires Total(threads, Load) == 0 && PhasesOk(threads)
    ensures forall i :: 0 <= i < |threads| ==> !threads[i].Working?
    ensures AllPromising(threads)
  {
    forall i | 0 <= i < |threads|
      ensures !threads[i].Working?
    {
      TotalAtLeast(threads, i, Load);
      assert PhaseOk(threads[i]);
    }
  }

  lemma WaitKeeps(s: State, i: nat, added: seq<Check>)
    requires InSection(s, i, added) && s.queue == [] && !((i == 0 || s.fQuit) && s.nTodo == 0)
    ensures Settle(s, i).1 == None && Inv(Settle(s, i).0, added)
  {
    SettleTotals(s, i, Waiting);
    PhasesUpdate(s.threads, i, Waiting);
    PromisingUpdate(s.threads, i, Waiting);
  }

  /** The controller returns exactly the conjunction of the checks added since its last return. */
  lemma ReturnExact(s: State, i: nat, added: seq<Check>)
    requires InSection(s, i, added) && s.queue == [] && (i == 0 || s.fQuit) && s.nTodo == 0
    ensures Settle(s, i).1 == Some(Passes(added))
    ensures i == 0 ==> Inv(Settle(s, i).0, [])
    ensures i != 0 ==> Inv(Settle(s, i).0, added)
  {
    var others := s.threads[i := Outside];
    NobodyWorking(others);
  }

  /** The invariant after a step, for the checks added since the controller's last return. */
  ghost predicate Follows(r: (State, Option<bool>), i: nat, added: seq<Check>) {
    if i == 0 && r.1.Some? then r.1.value == Passes(added) && Inv(r.0, []) else Inv(r.0, added)
  }

  lemma SettleKeeps(s: State, i: nat, added: seq<Check>)
    requires InSection(s, i, added)
    ensures Follows(Settle(s, i), i, added)
  {
    if s.queue != [] {
      TakeKeeps(s, i, added);
    } else if (i == 0 || s.fQuit) && s.nTodo == 0 {
      ReturnExact(s, i, added);
    } else {
      WaitKeeps(s, i, added);
    }
  }

  // ----- every step -----

  lemma EnterKeeps(s: State, i: nat, added: seq<Check>)
    requires Inv(s, added) && Enabled(s, Enter(i))
    ensures InSection(s.(nTotal := s.nTotal + 1), i, added)
  {
    assert s.threads[i := Outside] == s.threads;
  }

  lemma WakeKeeps(s: State, i: nat, added: seq<Check>)
    requires Inv(s, added) && Enabled(s, Wake(i))
    ensures InSection(s.(nIdle := s.nIdle - 1), i, added)
  {
    SettleTotals(s, i, Waiting);
    PromisingUpdate(s.threads, i, Waiting);
    assert s.threads[i := Waiting] == s.threads;
  }

  lemma ReportKeeps(s: State, i: nat, added: seq<Check>)
    requires Inv(s, added) && Enabled(s, Report(i))
    ensures InSection(Reported(s, i), i, added)
    ensures s.nTodo >= |s.threads[i].batch|
  {
    var p := s.threads[i];
    SettleTotals(s, i, p);
    PromisingUpdate(s.threads, i, p);
    assert s.threads[i := p] == s.threads;
    assert Passes(p.batch[p.next..]);
  }

  /** Running the next check does not change what the batch can still yield. */
  lemma StillPromising(p: Phase)
    requires p.Working? && p.next < |p.batch|
    ensures Promising(p) <==> Promising(p.(next := p.next + 1, ok := p.ok && p.batch[p.next].verdict))
  {
    assert p.batch[p.next..] == [p.batch[p.next]] + p.batch[p.next + 1..];
    PassesConcat([p.batch[p.next]], p.batch[p.next + 1..]);
    assert Passes([p.batch[p.next]]) <==> p.batch[p.next].verdict;
  }

  lemma RunKeeps(s: State, i: nat, added: seq<Check>)
    requires Inv(s, added) && Enabled(s, Run(i))
    ensures Inv(Next(s, Run(i)).0, added)
  {
    var p := s.threads[i];
    var p' := p.(next := p.next + 1, ok := p.ok && p.batch[p.next].verdict);
    StillPromising(p);
    SamePromise(s, i, p');
    PhasesUpdate(s.threads, i, p');
  }

  /** Another phase that counts alike and promises alike changes no total. */
  lemma SamePromise(s: State, i: nat, p: Phase)
    requires i < |s.threads| && Load(p) == Load(s.threads[i])
    requires Registered(p) == Registered(s.threads[i]) && Idle(p) == Idle(s.threads[i])
    requires Promising(p) <==> Promising(s.threads[i])
    ensures var after := s.threads[i := p];
      && Total(after, Load) == Total(s.threads, Load) && Total(after, Registered) == Total(s.threads, Registered)
      && Total(after, Idle) == Total(s.threads, Idle) && (AllPromising(after) <==> AllPromising(s.threads))
  {
    assert s.threads[i := s.threads[i]] == s.threads;
    SettleTotals(s, i, s.threads[i]);
    SettleTotals(s, i, p);
    PromisingUpdate(s.threads, i, s.threads[i]);
    PromisingUpdate(s.threads, i, p);
  }

  lemma AddKeeps(s: State, checks: seq<Check>, added: seq<Check>)
    requires Inv(s, added) && Enabled(s, Add(checks))
    ensures Inv(Next(s, Add(checks)).0, added + checks)
  {
    PassesConcat(added, checks);
    PassesConcat(s.queue, checks);
  }

  /** The thread a step belongs to. */
  function ThreadOf(l: Label): nat {
    match l
    case Enter(i) => i
    case Report(i) => i
    case Wake(i) => i
    case Run(i) => i
    case Add(_) => 0
  }

  /** The checks added since the controller's last return, after a step. */
  ghost function AddedAfter(l: Label, ret: Option<bool>, added: seq<Check>): seq<Check> {
    if l.Add? then added + l.checks
    else if ThreadOf(l) == 0 && ret.Some? then []
    else added
  }

  lemma CanStep(s: State, l: Label, added: seq<Check>)
    requires Inv(s, added) && Enabled(s, l)
    ensures Countable(s, l)
  {
    if l.Wake? {
      TotalAtLeast(s.threads, l.i, Idle);
    }
  }

  /** The three ways into a critical section of `Loop`. */
  lemma SectionKeeps(s: State, l: Label, added: seq<Check>)
    requires Inv(s, added) && Enabled(s, l) && (l.Enter? || l.Report? || l.Wake?)
    requires Countable(s, l)
    ensures Follows(Next(s, l), l.i, added)
  {
    match l
    case Enter(i) => EnterFollows(s, i, added);
    case Report(i) => ReportFollows(s, i, added);
    case Wake(i) => WakeFollows(s, i, added);
  }

  lemma EnterFollows(s: State, i: nat, added: seq<Check>)
    requires Inv(s, added) && Enabled(s, Enter(i)) && Countable(s, Enter(i))
    ensures Follows(Next(s, Enter(i)), i, added)
  {
    EnterKeeps(s, i, added);
    SettleKeeps(s.(nTotal := s.nTotal + 1), i, added);
  }

  lemma ReportFollows(s: State, i: nat, added: seq<Check>)
    requires Inv(s, added) && Enabled(s, Report(i)) && Countable(s, Report(i))
    ensures Follows(Next(s, Report(i)), i, added)
  {
    ReportKeeps(s, i, added);
    SettleKeeps(Reported(s, i), i, added);
  }

  lemma WakeFollows(s: State, i: nat, added: seq<Check>)
    requires Inv(s, added) && Enabled(s, Wake(i)) && Countable(s, Wake(i))
    ensures Follows(Next(s, Wake(i)), i, added)
  {
    WakeKeeps(s, i, added);
    SettleKeeps(s.(nIdle := s.nIdle - 1), i, added);
  }

  /** Every step keeps the invariant, and every return of `Wait` is the exact verdict. */
  lemma StepKeeps(s: State, l: Label, added: seq<Check>)
    requires Inv(s, added) && Enabled(s, l)
    ensures Countable(s, l)
    ensures var (s', ret) := Next(s, l);
      && Inv(s', AddedAfter(l, ret, added))
      && (ThreadOf(l) == 0 && ret.Some? ==> ret.value == Passes(added))
  {
    CanStep(s, l, added);
    if l.Run? {
      RunKeeps(s, l.i, added);
    } else if l.Add? {
      AddKeeps(s, l.checks, added);
    } else {
      SectionKeeps(s, l, added);
    }
  }

  // ----- whole runs -----

  ghost function Start(nBatchSize: nat, nThreads: nat): State {
    State([], 0, 0, true, 0, false, nBatchSize, seq(nThreads, _ => Outside), false)
  }

  /** Any interleaving of any number of threads. */
  ghost predicate IsRun(states: seq<State>, labels: seq<Label>, rets: seq<Option<bool>>, nBatchSize: nat, nThreads: nat) {
    && nThreads > 0
    && |states| == |labels| + 1 && |rets| == |labels|
    && states[0] == Start(nBatchSize, nThreads)
    && forall k :: 0 <= k < |labels| ==> StepAt(states, labels, rets, k)
  }

  ghost predicate StepAt(states: seq<State>, labels: seq<Label>, rets: seq<Option<bool>>, k: nat)
    requires |states| == |labels| + 1 && |rets| == |labels| && k < |labels|
  {
    var s, l := states[k], labels[k];
    && Enabled(s, l) && Countable(s, l)
    && (states[k + 1], rets[k]) == Next(s, l)
  }

  /** The checks added in the first `n` steps since the controller's last return. */
  ghost function AddedSince(labels: seq<Label>, rets: seq<Option<bool>>, n: nat): seq<Check>
    requires n <= |labels| == |rets|
  {
    if n == 0 then [] else AddedAfter(labels[n - 1], rets[n - 1], AddedSince(labels, rets, n - 1))
  }

  lemma {:induction false} StartTotals(n: nat, f: Phase -> nat)
    requires f(Outside) == 0
    ensures Total(seq(n, _ => Outside), f) == 0
  {
    if n > 0 {
      StartTotals(n - 1, f);
      assert seq(n, _ => Outside)[..n - 1] == seq(n - 1, _ => Outside);
    }
  }

  lemma {:induction false} RunKeepsInv(states: seq<State>, labels: seq<Label>, rets: seq<Option<bool>>,
                                       nBatchSize: nat, nThreads: nat, n: nat)
    requires IsRun(states, labels, rets, nBatchSize, nThreads) && n <= |labels|
    ensures Inv(states[n], AddedSince(labels, rets, n))
  {
    if n == 0 {
      StartTotals(nThreads, Load);
      StartTotals(nThreads, Registered);
      StartTotals(nThreads, Idle);
    } else {
      RunKeepsInv(states, labels, rets, nBatchSize, nThreads, n - 1);
      assert StepAt(states, labels, rets, n - 1);
      StepKeeps(states[n - 1], labels[n - 1], AddedSince(labels, rets, n - 1));
    }
  }

  /** The thread that goes through a critical section in a step. */
  function SectionOf(l: Label): Option<nat> {
    match l
    case Enter(i) => Some(i)
    case Report(i) => Some(i)
    case Wake(i) => Some(i)
    case _ => None
  }

  /** In every run, a critical section that finds checks takes a batch, and a thread goes to sleep only if it finds none. */
  lemma NobodySleepsOnWork(states: seq<State>, labels: seq<Label>, rets: seq<Option<bool>>, nBatchSize: nat, nThreads: nat, k: nat)
    requires IsRun(states, labels, rets, nBatchSize, nThreads) && k < |labels| && SectionOf(labels[k]).Some?
    ensures var i, s, s' := SectionOf(labels[k]).value, states[k], states[k + 1];
      && i < |s.threads| == |s'.threads|
      && (s.queue != [] ==> rets[k] == None && s'.threads[i].Working? && TakenOff(s.queue, s'.threads[i].batch, s'.queue))
      && (s.queue != [] ==> IsBatchSize(|s'.threads[i].batch|, nBatchSize, s'.nTotal + s'.nIdle, |s.queue|))
      && (s'.threads[i].Waiting? ==> s.queue == [])
  {
    var i, s, l := SectionOf(labels[k]).value, states[k], labels[k];
    RunKeepsInv(states, labels, rets, nBatchSize, nThreads, k);
    SizeKept(states, labels, rets, nBatchSize, nThreads, k);
    assert StepAt(states, labels, rets, k);
    CanStep(s, l, AddedSince(labels, rets, k));
    SettleTakes(Entered(s, l), i);
  }

  /** The state as the thread of a critical section sees it when it looks at the queue. */
  ghost function Entered(s: State, l: Label): (t: State)
    requires Enabled(s, l) && SectionOf(l).Some?
    ensures t.queue == s.queue && |t.threads| == |s.threads| && t.nBatchSize == s.nBatchSize
  {
    match l
    case Enter(i) => s.(nTotal := s.nTotal + 1)
    case Report(i) => Reported(s, i)
    case Wake(i) => s.(nIdle := s.nIdle - 1)
  }

  lemma {:induction false} SizeKept(states: seq<State>, labels: seq<Label>, rets: seq<Option<bool>>, nBatchSize: nat, nThreads: nat, k: nat)
    requires IsRun(states, labels, rets, nBatchSize, nThreads) && k <= |labels|
    ensures states[k].nBatchSize == nBatchSize
  {
    if k > 0 {
      SizeKept(states, labels, rets, nBatchSize, nThreads, k - 1);
      assert StepAt(states, labels, rets, k - 1);
    }
  }

  /** In every interleaving, `Wait` returns exactly the conjunction of the checks added since the last `Wait`. */
  lemma WaitIsExact(states: seq<State>, labels: seq<Label>, rets: seq<Option<bool>>, nBatchSize: nat, nThreads: nat, n: nat)
    requires IsRun(states, labels, rets, nBatchSize, nThreads) && n < |labels|
    requires ThreadOf(labels[n]) == 0 && rets[n].Some?
    ensures rets[n].value == Passes(AddedSince(labels, rets, n))
  {
    RunKeepsInv(states, labels, rets, nBatchSize, nThreads, n);
    assert StepAt(states, labels, rets, n);
    StepKeeps(states[n], labels[n], AddedSince(labels, rets, n));
  }

  /** What `CCheckQueueControl` asserts when it is constructed. */
  ghost predicate ControlAssertions(s: State) {
    s.nTotal == s.nIdle && s.nTodo == 0 && s.fAllOk
  }

  lemma {:induction false} CountsAgree(threads: seq<Phase>)
    requires forall i :: 0 <= i < |threads| ==> !threads[i].Working?
    ensures Total(threads, Registered) == Total(threads, Idle)
  {
    if threads != [] {
      CountsAgree(threads[..|threads| - 1]);
    }
  }

  /** With nothing added since the last `Wait`, a new control object finds its assertions true. */
  lemma ControlIsReady(states: seq<State>, labels: seq<Label>, rets: seq<Option<bool>>, nBatchSize: nat, nThreads: nat, n: nat)
    requires IsRun(states, labels, rets, nBatchSize, nThreads) && n <= |labels|
    requires AddedSince(labels, rets, n) == []
    ensures ControlAssertions(states[n])
  {
    RunKeepsInv(states, labels, rets, nBatchSize, nThreads, n);
    var s := states[n];
    NobodyWorking(s.threads);
    CountsAgree(s.threads);
  }

  /** A controller that waits and has not been notified has a worker with work in hand. */
  lemma NoLostWakeup(states: seq<State>, labels: seq<Label>, rets: seq<Option<bool>>, nBatchSize: nat, nThreads: nat, n: nat)
    returns (i: nat)
    requires IsRun(states, labels, rets, nBatchSize, nThreads) && n <= |labels|
    requires |states[n].threads| > 0 && states[n].threads[0].Waiting? && !states[n].notified
    ensures 0 < i < |states[n].threads| && states[n].threads[i].Working?
  {
    RunKeepsInv(states, labels, rets, nBatchSize, nThreads, n);
    i := TotalPositive(states[n].threads, Load);
  }

  // ----- a bound on the work -----

  const Burden: Phase -> nat := (p: Phase) => if p.Working? && p.next <= |p.batch| then |p.batch| - p.next + 1 else 0

  /** An upper bound on the running and reporting still to be done. */
  ghost function WorkLeft(s: State): nat {
    3 * |s.queue| + Total(s.threads, Burden)
  }

  predicate IsWork(l: Label) { l.Run? || l.Report? }

  lemma SettleWork(s: State, i: nat)
    requires i < |s.threads| && s.nTotal >= 0 && s.nIdle >= 0
    ensures WorkLeft(Settle(s, i).0) <= 3 * |s.queue| + Total(s.threads[i := Outside], Burden)
  {
    var others, after := s.threads[i := Outside], Settle(s, i).0.threads;
    assert others[i := after[i]] == after;
    TotalUpdate(others, i, after[i], Burden);
  }

  lemma StepWork(s: State, l: Label, added: seq<Check>)
    requires Inv(s, added) && Enabled(s, l) && Countable(s, l)
    ensures WorkLeft(Next(s, l).0) + (if IsWork(l) then 1 else 0)
         <= WorkLeft(s) + (if l.Add? then 3 * |l.checks| else 0)
  {
    if l.Run? {
      TotalUpdate(s.threads, l.i, Next(s, l).0.threads[l.i], Burden);
    } else if !l.Add? {
      SectionWork(s, l);
    }
  }

  lemma SectionWork(s: State, l: Label)
    requires Enabled(s, l) && (l.Enter? || l.Report? || l.Wake?)
    requires Countable(s, l)
    ensures WorkLeft(Next(s, l).0) + (if IsWork(l) then 1 else 0) <= WorkLeft(s)
  {
    match l
    case Enter(i) =>
      SettledWork(s, s.(nTotal := s.nTotal + 1), i);
    case Report(i) =>
      SettledWork(s, Reported(s, i), i);
    case Wake(i) =>
      SettledWork(s, s.(nIdle := s.nIdle - 1), i);
  }

  lemma SettledWork(s: State, t: State, i: nat)
    requires i < |s.threads| && t.threads == s.threads && t.queue == s.queue && t.nTotal >= 0 && t.nIdle >= 0
    ensures WorkLeft(Settle(t, i).0) + Burden(s.threads[i]) <= WorkLeft(s)
  {
    TotalUpdate(s.threads, i, Outside, Burden);
    SettleWork(t, i);
  }

  ghost function WorkSteps(labels: seq<Label>, n: nat): nat
    requires n <= |labels|
  {
    if n == 0 then 0 else WorkSteps(labels, n - 1) + (if IsWork(labels[n - 1]) then 1 else 0)
  }

  ghost function ChecksAdded(labels: seq<Label>, n: nat): nat
    requires n <= |labels|
  {
    if n == 0 then 0 else ChecksAdded(labels, n - 1) + (if labels[n - 1].Add? then |labels[n - 1].checks| else 0)
  }

  /** However the threads interleave, three working steps per check suffice. */
  lemma {:induction false} WorkIsBounded(states: seq<State>, labels: seq<Label>, rets: seq<Option<bool>>,
                                         nBatchSize: nat, nThreads: nat, n: nat)
    requires IsRun(states, labels, rets, nBatchSize, nThreads) && n <= |labels|
    ensures WorkSteps(labels, n) + WorkLeft(states[n]) <= 3 * ChecksAdded(labels, n)
  {
    if n == 0 {
      StartTotals(nThreads, Burden);
    } else {
      WorkIsBounded(states, labels, rets, nBatchSize, nThreads, n - 1);
      RunKeepsInv(states, labels, rets, nBatchSize, nThreads, n - 1);
      assert StepAt(states, labels, rets, n - 1);
      StepWork(states[n - 1], labels[n - 1], AddedSince(labels, rets, n - 1));
    }
  }
}
