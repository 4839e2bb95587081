/** The check queue itself: each method is one critical section, or one check run outside of it. */
module CheckQueueImpl {
  import opened CheckQueueSpec
  import opened Options

  class CheckQueue {
    var queue: seq<Check>
    var nIdle: int
    var nTotal: int
    var fAllOk: bool
    var nTodo: int
    var fQuit: bool
    const nBatchSize: nat
    var threads: seq<Phase>
    var notified: bool

    ghost function View(): State
      reads this
    {
      State(queue, nIdle, nTotal, fAllOk, nTodo, fQuit, nBatchSize, threads, notified)
    }

    constructor (nBatchSize: nat, nThreads: nat)
      requires nThreads > 0
      ensures View() == Start(nBatchSize, nThreads) && Inv(View(), [])
    {
      this.nBatchSize := nBatchSize;
      queue, nIdle, nTotal, fAllOk, nTodo, fQuit := [], 0, 0, true, 0, false;
      threads := seq(nThreads, _ => Outside);
      notified := false;
      new;
      StartTotals(nThreads, Load);
      StartTotals(nThreads, Registered);
      StartTotals(nThreads, Idle);
    }

    /** The rest of a critical section of `Loop`, once the thread has been counted. */
    method Proceed(i: nat) returns (ret: Option<bool>)
      requires i < |threads| && nTotal >= 0 && nIdle >= 0
      modifies this
      ensures (View(), ret) == Settle(old(View()), i)
      ensures old(queue) != [] ==> Takes(old(View()), i, View())
      ensures threads[i].Waiting? ==> old(queue) == []
    {
      SettleTakes(View(), i);
      ret := None;
      if queue == [] {
        if (i == 0 || fQuit) && nTodo == 0 {
          nTotal := nTotal - 1;
          ret := Some(fAllOk);
          if i == 0 {
            fAllOk := true;
          }
          threads := threads[i := Outside];
        } else {
          nIdle := nIdle + 1;
          threads := threads[i := Waiting];
          if i == 0 {
            notified := false;
          }
        }
        return;
      }
      var share := |queue| / (nTotal + nIdle + 1);
      var nNow := if nBatchSize < share then nBatchSize else share;
      if nNow < 1 {
        nNow := 1;
      }
      assert nNow == BatchLength(View());
      var batch := TakeBack(nNow);
      threads := threads[i := Working(batch, 0, fAllOk)];
    }

    method TakeBack(n: nat) returns (batch: seq<Check>)
      requires n <= |queue|
      modifies this
      ensures batch == FromBack(old(queue), n)
      ensures View() == old(View()).(queue := old(queue)[..|old(queue)| - n])
    {
      batch := [];
      ghost var q := queue;
      for k := 0 to n
        invariant |queue| == |q| - k && queue == q[..|q| - k]
        invariant batch + FromBack(queue, n - k) == FromBack(q, n)
        invariant View() == old(View()).(queue := queue)
      {
        batch := batch + [queue[|queue| - 1]];
        queue := queue[..|queue| - 1];
      }
    }

    /** A worker thread starts, or the controller calls `Wait`. */
    method EnterLoop(i: nat, ghost added: seq<Check>) returns (ret: Option<bool>)
      requires Inv(View(), added) && Enabled(View(), Enter(i))
      modifies this
      ensures Follows((View(), ret), i, added)
      ensures old(Countable(View(), Enter(i))) && (View(), ret) == Next(old(View()), Enter(i))
    {
      CanStep(View(), Enter(i), added);
      EnterKeeps(View(), i, added);
      nTotal := nTotal + 1;
      SettleKeeps(View(), i, added);
      ret := Proceed(i);
    }

    /** A thread comes back with a finished batch. */
    method ReportBatch(i: nat, ghost added: seq<Check>) returns (ret: Option<bool>)
      requires Inv(View(), added) && Enabled(View(), Report(i))
      modifies this
      ensures Follows((View(), ret), i, added)
      ensures old(Countable(View(), Report(i))) && (View(), ret) == Next(old(View()), Report(i))
    {
      CanStep(View(), Report(i), added);
      ReportKeeps(View(), i, added);
      ghost var s := View();
      fAllOk := fAllOk && threads[i].ok;
      nTodo := nTodo - |threads[i].batch|;
      if nTodo == 0 && i != 0 {
        notified := true;
      }
      assert View() == Reported(s, i);
      SettleKeeps(View(), i, added);
      ret := Proceed(i);
    }

    /** A waiting thread gets the mutex back. */
    method WakeUp(i: nat, ghost added: seq<Check>) returns (ret: Option<bool>)
      requires Inv(View(), added) && Enabled(View(), Wake(i))
      modifies this
      ensures Follows((View(), ret), i, added)
      ensures old(Countable(View(), Wake(i))) && (View(), ret) == Next(old(View()), Wake(i))
    {
      CanStep(View(), Wake(i), added);
      WakeKeeps(View(), i, added);
      nIdle := nIdle - 1;
      SettleKeeps(View(), i, added);
      ret := Proceed(i);
    }

    /** Runs the next check of a batch, or skips it after a failure. */
    method RunNext(i: nat, ghost added: seq<Check>)
      requires Inv(View(), added) && Enabled(View(), Run(i))
      modifies this
      ensures Inv(View(), added)
      ensures old(Countable(View(), Run(i))) && View() == Next(old(View()), Run(i)).0
    {
      CanStep(View(), Run(i), added);
      RunKeeps(View(), i, added);
      var p := threads[i];
      var ok := p.ok;
      if ok {
        ok := p.batch[p.next].verdict;
      }
      threads := threads[i := p.(next := p.next + 1, ok := ok)];
    }

    /** The controller adds checks. */
    method AddChecks(checks: seq<Check>, ghost added: seq<Check>)
      requires Inv(View(), added) && Enabled(View(), Add(checks))
      modifies this
      ensures Inv(View(), added + checks)
      ensures old(Countable(View(), Add(checks))) && View() == Next(old(View()), Add(checks)).0
    {
      CanStep(View(), Add(checks), added);
      AddKeeps(View(), checks, added);
      ghost var s := View();
      for k := 0 to |checks|
        invariant View() == s.(queue := s.queue + checks[..k])
      {
        queue := queue + [checks[k]];
      }
      assert checks[..|checks|] == checks;
      nTodo := nTodo + |checks|;
    }
  }
}
