/** Every run of the address manager from the empty manager. */
module AddrRuns {
  import opened AddrTables
  import opened AddrPromotion
  import opened AddrSteps
  import opened AddrCheck
  import opened AddrManager

  datatype Operation =
    | OpAdd(address: Address, source: NetAddr, penalty: int, now: int)
    | OpGood(addr: Service, time: int)
    | OpAttempt(addr: Service, time: int)
    | OpConnected(addr: Service, time: int)
    | OpGetAddr

  /** The clock values for which the original's check holds: positive for a success, else not negative. */
  predicate SaneTime(op: Operation) {
    match op
    case OpGood(_, time) => time > 0
    case OpAttempt(_, time) => time >= 0
    case _ => true
  }

  /** One operation, with any outcome of its random choices. */
  ghost predicate Step(net: Network, t: Tables, op: Operation, s: Tables) {
    match op
    case OpAdd(address, source, penalty, now) => AddOutcome(net, t, address, source, penalty, now, s)
    case OpGood(addr, time) => GoodOutcome(net, t, addr, time, s)
    case OpAttempt(addr, time) => s == AttemptedTables(t, addr, time)
    case OpConnected(addr, time) => s == ConnectedTables(t, addr, time)
    case OpGetAddr => GetAddrOutcome(t, s)
  }

  lemma StepKeeps(net: Network, t: Tables, op: Operation, s: Tables)
    requires Inv(net, t, NO_ENTRY) && Step(net, t, op, s)
    ensures Inv(net, s, NO_ENTRY)
    ensures TimesOk(t.mapInfo) && SaneTime(op) ==> TimesOk(s.mapInfo)
  {
    match op
    case OpAdd(address, source, penalty, now) => AddKeeps(net, t, address, source, penalty, now, s);
    case OpGood(addr, time) =>
      GoodKeeps(net, t, addr, time, s);
      GoodTimes(net, t, addr, time, s);
    case OpAttempt(addr, time) => AttemptKeeps(net, t, addr, time);
    case OpConnected(addr, time) => ConnectedKeeps(net, t, addr, time);
    case OpGetAddr => GetAddrKeeps(net, t, s);
  }

  lemma EmptyKeeps(net: Network, nKey: seq<int>)
    ensures Inv(net, EmptyTables(nKey), NO_ENTRY) && TimesOk(EmptyTables(nKey).mapInfo)
  {
    var t := EmptyTables(nKey);
    assert TriedIds(t.mapInfo) == {} && NewIds(t.mapInfo) == {};
  }

  ghost predicate IsRun(net: Network, nKey: seq<int>, ops: seq<Operation>, states: seq<Tables>) {
    && |states| == |ops| + 1 && states[0] == EmptyTables(nKey)
    && forall i :: 0 <= i < |ops| ==> StepAt(net, ops, states, i)
  }

  ghost predicate StepAt(net: Network, ops: seq<Operation>, states: seq<Tables>, i: nat)
    requires |states| == |ops| + 1 && i < |ops|
  {
    Step(net, states[i], ops[i], states[i + 1])
  }

  /** In every state of every run the tables are consistent, whatever clock values were passed. */
  lemma {:induction false} EveryRunConsistent(net: Network, nKey: seq<int>, ops: seq<Operation>, states: seq<Tables>, n: nat)
    requires IsRun(net, nKey, ops, states) && n <= |ops|
    ensures Inv(net, states[n], NO_ENTRY)
    ensures (forall i :: 0 <= i < n ==> SaneTime(ops[i])) ==> TimesOk(states[n].mapInfo)
  {
    if n == 0 {
      EmptyKeeps(net, nKey);
    } else {
      EveryRunConsistent(net, nKey, ops, states, n - 1);
      RunStepKeeps(net, nKey, ops, states, n - 1);
    }
  }

  lemma RunStepKeeps(net: Network, nKey: seq<int>, ops: seq<Operation>, states: seq<Tables>, i: nat)
    requires IsRun(net, nKey, ops, states) && i < |ops| && Inv(net, states[i], NO_ENTRY)
    ensures Inv(net, states[i + 1], NO_ENTRY)
    ensures TimesOk(states[i].mapInfo) && SaneTime(ops[i]) ==> TimesOk(states[i + 1].mapInfo)
  {
    assert StepAt(net, ops, states, i);
    StepKeeps(net, states[i], ops[i], states[i + 1]);
  }

  /** In every state of every run with sane clock values the original's own check passes. */
  lemma EveryRunPassesCheck(net: Network, nKey: seq<int>, ops: seq<Operation>, states: seq<Tables>, n: nat)
    requires IsRun(net, nKey, ops, states) && n <= |ops|
    requires forall i :: 0 <= i < n ==> SaneTime(ops[i])
    ensures CheckOk(states[n])
  {
    EveryRunConsistent(net, nKey, ops, states, n);
    InvPassesCheck(net, states[n]);
  }

  /** Performs operations on a manager; its check finds nothing afterwards. */
  method Perform(m: AddrMan, ops: seq<Operation>) returns (err: int)
    requires m.Valid()
    requires forall i :: 0 <= i < |ops| ==> SaneTime(ops[i])
    modifies m
    ensures m.Valid() && err == 0
  {
    for i := 0 to |ops|
      invariant m.Valid()
    {
      match ops[i]
      case OpAdd(address, source, penalty, now) =>
        var isNew := m.Add(address, source, penalty, now);
      case OpGood(addr, time) =>
        m.Good(addr, time);
      case OpAttempt(addr, time) =>
        m.Attempt(addr, time);
      case OpConnected(addr, time) =>
        m.Connected(addr, time);
      case OpGetAddr =>
        var vAddr := m.GetAddr();
    }
    InvPassesCheck(m.net, m.View());
    err := m.Check();
  }

  // ----- times that the check rejects -----

  /** The first announcement of a routable address makes an entry for it. */
  method Announce(net: Network, nKey: seq<int>, address: Address, source: NetAddr, penalty: int, now: int)
    returns (m: AddrMan)
    requires net.routable(address.service.net)
    ensures fresh(m) && m.net == net && m.Valid() && Matches(m.View(), address.service)
  {
    m := new AddrMan(net, nKey);
    var isNew := m.Add(address, source, penalty, now);
  }

  /** After a success at the given time the check of a one-entry manager fails exactly for times up to 0. */
  method CheckAfterGood(net: Network, nKey: seq<int>, address: Address, source: NetAddr, penalty: int,
                        now: int, time: int) returns (err: int)
    requires net.routable(address.service.net)
    ensures err == 0 <==> time > 0
  {
    var m := Announce(net, nKey, address, source, penalty, now);
    InvPassesCheck(net, m.View());
    m.Good(address.service, time);
    err := m.Check();
  }

  /** After an attempt at the given time it fails exactly for negative times. */
  method CheckAfterAttempt(net: Network, nKey: seq<int>, address: Address, source: NetAddr, penalty: int,
                           now: int, time: int) returns (err: int)
    requires net.routable(address.service.net)
    ensures err == 0 <==> time >= 0
  {
    var m := Announce(net, nKey, address, source, penalty, now);
    InvPassesCheck(net, m.View());
    m.Attempt(address.service, time);
    err := m.Check();
  }
}
