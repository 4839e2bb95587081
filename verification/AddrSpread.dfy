/**
 How far announcements reach: the groups of the sources bound the new buckets that can be occupied, the groups
 of the addresses bound the tried ones.

 This is what the two-stage hashes of `GetNewBucket` and `GetTriedBucket` are for: a peer that controls the
 addresses of one group only reaches a small part of the tables, whatever it announces.
 */
module AddrSpread {
  import opened Collections
  import opened AddrTables
  import opened AddrEviction
  import opened AddrPromotion
  import opened AddrSteps
  import opened AddrRuns

  /** A group of addresses: the bytes that the network layer gives all of them. */
  type Group = seq<int>

  // ----- the buckets within reach -----

  /** The `n` buckets out of `count` that stage two of the hash can give to a group. */
  ghost function Reach(net: Network, nKey: seq<int>, group: Group, n: nat, count: nat): (bs: set<int>)
    requires count > 0
  {
    set i | 0 <= i < n :: net.hash([Bytes(nKey), Bytes(group), Number(i)]) % count
  }

  lemma {:induction false} ReachIsSmall(net: Network, nKey: seq<int>, group: Group, n: nat, count: nat)
    requires count > 0
    ensures |Reach(net, nKey, group, n, count)| <= n
  {
    if n > 0 {
      ReachIsSmall(net, nKey, group, n - 1, count);
      assert Reach(net, nKey, group, n, count)
          == Reach(net, nKey, group, n - 1, count) + {net.hash([Bytes(nKey), Bytes(group), Number(n - 1)]) % count};
    } else {
      assert Reach(net, nKey, group, n, count) == {};
    }
  }

  /** The buckets within reach of any of the groups. */
  ghost function ReachOfAll(net: Network, nKey: seq<int>, groups: set<Group>, n: nat, count: nat): (bs: set<int>)
    requires count > 0
  {
    set g, i | g in groups && 0 <= i < n :: net.hash([Bytes(nKey), Bytes(g), Number(i)]) % count
  }

  lemma {:induction false} ReachOfAllIsSmall(net: Network, nKey: seq<int>, groups: set<Group>, n: nat, count: nat)
    requires count > 0
    ensures |ReachOfAll(net, nKey, groups, n, count)| <= n * |groups|
    decreases |groups|
  {
    if groups == {} {
      assert ReachOfAll(net, nKey, groups, n, count) == {};
    } else {
      var g :| g in groups;
      var others, mine := ReachOfAll(net, nKey, groups - {g}, n, count), Reach(net, nKey, g, n, count);
      ReachOfAllIsSmall(net, nKey, groups - {g}, n, count);
      ReachIsSmall(net, nKey, g, n, count);
      ReachWithout(net, nKey, groups, g, n, count);
      UnionSize(others, mine);
      OneMore(n, |groups|);
    }
  }

  lemma ReachWithout(net: Network, nKey: seq<int>, groups: set<Group>, g: Group, n: nat, count: nat)
    requires count > 0 && g in groups
    ensures ReachOfAll(net, nKey, groups, n, count)
         == ReachOfAll(net, nKey, groups - {g}, n, count) + Reach(net, nKey, g, n, count)
  {
  }

  lemma OneMore(n: nat, k: nat)
    requires k > 0
    ensures n * k == n * (k - 1) + n
  {
  }

  lemma UnionSize<T>(a: set<T>, b: set<T>)
    ensures |a + b| <= |a| + |b|
  {
    assert a + b == a + (b - a);
    assert |b - a| <= |b| by {
      assert b == (b - a) + (b * a);
    }
  }

  /** All addresses announced by one group of sources fall into 32 buckets, ... */
  lemma NewBucketInReach(net: Network, nKey: seq<int>, s: Service, source: NetAddr)
    ensures NewBucket(net, nKey, s, source) in Reach(net, nKey, net.group(source), 32, 256)
  {
  }

  /** ... all addresses of one group into 4 tried buckets ... */
  lemma TriedBucketInReach(net: Network, nKey: seq<int>, s: Service)
    ensures TriedBucket(net, nKey, s) in Reach(net, nKey, net.group(s.net), 4, 64)
  {
  }

  /** ... and nothing but the two groups decides which of the 32. */
  lemma NewBucketByGroups(net: Network, nKey: seq<int>, s: Service, source: NetAddr, s': Service, source': NetAddr)
    requires net.group(s.net) == net.group(s'.net) && net.group(source) == net.group(source')
    ensures NewBucket(net, nKey, s, source) == NewBucket(net, nKey, s', source')
  {
  }

  // ----- no bucket is out of reach -----

  function FirstByte(item: Item): nat {
    if item.Bytes? && |item.bytes| > 0 && item.bytes[0] >= 0 then item.bytes[0] else 0
  }

  /** A hash function that adds up the first bytes of its stream, with weights that tell them apart. */
  function Weighted(items: seq<Item>): nat {
    if |items| == 2 then FirstByte(items[0]) + FirstByte(items[1])
    else if |items| != 3 then 0
    else match items[2]
      case Bytes(_) => FirstByte(items[0]) + FirstByte(items[1]) + 5 * FirstByte(items[2])
      case Number(n) => n + 32 * (FirstByte(items[0]) + FirstByte(items[1]))
  }

  /** A network in which the groups and keys are single bytes. */
  function ByteNetwork(): Network {
    Network(Weighted, (a: NetAddr) => [a.ip], (s: Service) => [s.port], (a: NetAddr) => true)
  }

  /** The groups of the address and of the source, and the key, each have their part in the bucket. */
  lemma NewBucketSpreads(k: nat, s: Service, source: NetAddr)
    ensures NewBucket(ByteNetwork(), [k], s, source)
         == (k + s.net.ip + 5 * source.ip) % 32 + 32 * ((k + source.ip) % 8)
  {
    var h := (k + s.net.ip + 5 * source.ip) % 32;
    assert NewBucket(ByteNetwork(), [k], s, source) == (h + 32 * (k + source.ip)) % 256;
  }

  lemma TriedBucketSpreads(k: nat, s: Service)
    ensures TriedBucket(ByteNetwork(), [k], s) == (k + s.port) % 4 + 32 * ((k + s.net.ip) % 2)
  {
    var h := (k + s.port) % 4;
    assert TriedBucket(ByteNetwork(), [k], s) == (h + 32 * (k + s.net.ip)) % 64;
  }

  /** So eight groups of sources can reach all new buckets. */
  lemma EveryBucketReached(b: nat) returns (s: Service, source: NetAddr)
    requires b < 256
    ensures source.ip < 8 && NewBucket(ByteNetwork(), [0], s, source) == b
  {
    source := NetAddr(b / 32);
    s := Service(NetAddr(160 + b % 32 - 5 * (b / 32)), 0);
    NewBucketSpreads(0, s, source);
  }

  // ----- whole runs -----

  /** Every entry comes from one of the sources and has one of the addresses. */
  ghost predicate EntriesWithin(net: Network, mapInfo: map<int, Info>, sources: set<Group>, groups: set<Group>) {
    forall id :: id in mapInfo ==> net.group(mapInfo[id].source) in sources && net.group(mapInfo[id].service.net) in groups
  }

  ghost predicate BucketsWithin(vvNew: seq<set<int>>, reach: set<int>) {
    forall b :: 0 <= b < |vvNew| && vvNew[b] != {} ==> b in reach
  }

  ghost function NewReach(net: Network, nKey: seq<int>, sources: set<Group>): set<int> {
    ReachOfAll(net, nKey, sources, 32, 256)
  }

  ghost predicate Confined(net: Network, t: Tables, sources: set<Group>, groups: set<Group>) {
    EntriesWithin(net, t.mapInfo, sources, groups) && BucketsWithin(t.vvNew, NewReach(net, t.nKey, sources))
  }

  lemma NewBucketWithin(net: Network, nKey: seq<int>, s: Service, source: NetAddr, sources: set<Group>)
    requires net.group(source) in sources
    ensures NewBucket(net, nKey, s, source) in NewReach(net, nKey, sources)
  {
    NewBucketInReach(net, nKey, s, source);
  }

  /** Announcements by the given sources, of the given addresses. */
  ghost predicate Announces(net: Network, op: Operation, sources: set<Group>, groups: set<Group>) {
    op.OpAdd? ==> net.group(op.source) in sources && net.group(op.address.service.net) in groups
  }

  lemma DroppedBuckets(t: Tables, b: int, v: int)
    requires RandomOk(t) && v in t.mapInfo && 0 <= b < |t.vvNew|
    ensures Dropped(t, b, v).vvNew == t.vvNew[b := t.vvNew[b] - {v}]
  {
    DroppedShape(t, b, v);
  }

  lemma DropConfined(net: Network, t: Tables, b: int, v: int, sources: set<Group>, groups: set<Group>)
    requires RandomOk(t) && v in t.mapInfo && 0 <= b < |t.vvNew| && Confined(net, t, sources, groups)
    ensures Confined(net, Dropped(t, b, v), sources, groups) && Dropped(t, b, v).nKey == t.nKey
  {
    var d := Dropped(t, b, v);
    DroppedShape(t, b, v);
    DropEntriesWithin(net, t, b, v, d, sources, groups);
  }

  lemma DropEntriesWithin(net: Network, t: Tables, b: int, v: int, d: Tables, sources: set<Group>, groups: set<Group>)
    requires v in t.mapInfo && 0 <= b < |t.vvNew| && DropShape(t, b, v, d)
    requires EntriesWithin(net, t.mapInfo, sources, groups)
    ensures EntriesWithin(net, d.mapInfo, sources, groups)
  {
    forall id | id in d.mapInfo
      ensures net.group(d.mapInfo[id].source) in sources && net.group(d.mapInfo[id].service.net) in groups
    {
      assert id in d.mapInfo.Keys && id in t.mapInfo;
    }
  }

  lemma InsertConfined(net: Network, t: Tables, b: int, id: int, sources: set<Group>, groups: set<Group>)
    requires 0 <= b < |t.vvNew| && Confined(net, t, sources, groups) && b in NewReach(net, t.nKey, sources)
    ensures Confined(net, Inserted(t, b, id), sources, groups)
  {
  }

  lemma PlacedConfined(net: Network, t: Tables, b: int, id: int, now: int, s: Tables, sources: set<Group>, groups: set<Group>)
    requires RandomOk(t) && 0 <= b < |t.vvNew| && Placed(t, b, id, now, s) && Confined(net, t, sources, groups)
    requires b in NewReach(net, t.nKey, sources)
    ensures Confined(net, s, sources, groups)
  {
    if |t.vvNew[b]| == NEW_BUCKET_SIZE {
      var v :| PlacedEvicting(t, b, id, now, v, s);
      EvictingConfined(net, t, b, id, v, sources, groups);
    } else {
      InsertConfined(net, t, b, id, sources, groups);
    }
  }

  lemma EvictingConfined(net: Network, t: Tables, b: int, id: int, v: int, sources: set<Group>, groups: set<Group>)
    requires RandomOk(t) && v in t.mapInfo && 0 <= b < |t.vvNew| && Confined(net, t, sources, groups)
    requires b in NewReach(net, t.nKey, sources)
    ensures b < |Dropped(t, b, v).vvNew| && Confined(net, Inserted(Dropped(t, b, v), b, id), sources, groups)
  {
    DropConfined(net, t, b, v, sources, groups);
    DroppedBuckets(t, b, v);
    InsertConfined(net, Dropped(t, b, v), b, id, sources, groups);
  }

  lemma SetConfined(net: Network, t: Tables, id: int, info: Info, sources: set<Group>, groups: set<Group>)
    requires Confined(net, t, sources, groups)
    requires net.group(info.source) in sources && net.group(info.service.net) in groups
    ensures Confined(net, SetInfo(t, id, info), sources, groups)
  {
  }

  lemma AddConfined(net: Network, t: Tables, op: Operation, s: Tables, sources: set<Group>, groups: set<Group>)
    requires Inv(net, t, NO_ENTRY) && Confined(net, t, sources, groups) && op.OpAdd? && Step(net, t, op, s)
    requires Announces(net, op, sources, groups)
    ensures Confined(net, s, sources, groups)
  {
    var a := op.address.service.net;
    if net.routable(a) {
      if Known(t, a) {
        KnownConfined(net, t, t.mapAddr[a], op.address, op.source, op.penalty, op.now, s, sources, groups);
      } else {
        UnknownConfined(net, t, op.address, op.source, op.penalty, op.now, s, sources, groups);
      }
    }
  }

  lemma UnknownConfined(net: Network, t0: Tables, addr: Address, source: NetAddr, penalty: int, now: int, s: Tables,
                        sources: set<Group>, groups: set<Group>)
    requires Inv(net, t0, NO_ENTRY) && Confined(net, t0, sources, groups) && addr.service.net !in t0.mapAddr
    requires net.group(source) in sources && net.group(addr.service.net) in groups
    requires UnknownOutcome(net, t0, addr, source, penalty, now, s)
    ensures Confined(net, s, sources, groups)
  {
    var info := Announced(addr, source, penalty);
    EnteredKeeps(net, t0, info);
    assert Confined(net, Entered(t0, info), sources, groups);
    NewBucketWithin(net, t0.nKey, addr.service, source, sources);
    PlacedConfined(net, Entered(t0, info), NewBucket(net, t0.nKey, addr.service, source), t0.nIdCount, now, s, sources, groups);
  }

  lemma KnownConfined(net: Network, t0: Tables, id: int, addr: Address, source: NetAddr, penalty: int, now: int, s: Tables,
                      sources: set<Group>, groups: set<Group>)
    requires Inv(net, t0, NO_ENTRY) && Confined(net, t0, sources, groups) && id in t0.mapInfo
    requires net.group(source) in sources && KnownOutcome(net, t0, id, addr, source, penalty, now, s)
    ensures Confined(net, s, sources, groups)
  {
    var info := Refreshed(t0.mapInfo[id], addr, penalty, now);
    var t := SetInfo(t0, id, info);
    SetConfined(net, t0, id, info, sources, groups);
    if s != t {
      SetConfined(net, t, id, Raised(t, id).mapInfo[id], sources, groups);
      RefreshedKeeps(net, t0, id, addr, penalty, now);
      SetKeepsRandom(t, id, Raised(t, id).mapInfo[id]);
      NewBucketWithin(net, t0.nKey, info.service, source, sources);
      PlacedConfined(net, Raised(t, id), NewBucket(net, t0.nKey, info.service, source), id, now, s, sources, groups);
    }
  }

  /** A demoted entry goes to a bucket of its own source, or to one that was occupied. */
  lemma PromotedConfined(net: Network, t: Tables, id: int, origin: int, victim: int, u: int, s: Tables,
                         sources: set<Group>, groups: set<Group>)
    requires CanPromote(net, t, id, origin) && Promoted(net, t, id, origin, victim, u, s)
    requires Confined(net, t, sources, groups)
    ensures Confined(net, s, sources, groups)
  {
    VictimFacts(net, t, id, origin, victim, u, s);
    forall x | x in s.mapInfo
      ensures net.group(s.mapInfo[x].source) in sources && net.group(s.mapInfo[x].service.net) in groups
    {
      assert x in t.mapInfo.Keys;
    }
    if victim != NO_ENTRY {
      NewBucketWithin(net, t.nKey, t.mapInfo[victim].service, t.mapInfo[victim].source, sources);
    }
    forall b | 0 <= b < |s.vvNew| && s.vvNew[b] != {}
      ensures b in NewReach(net, s.nKey, sources)
    {
      if b != u || victim == NO_ENTRY {
        assert t.vvNew[b] != {};
      }
    }
  }

  lemma GoodConfined(net: Network, t0: Tables, addr: Service, time: int, s: Tables, sources: set<Group>, groups: set<Group>)
    requires Inv(net, t0, NO_ENTRY) && Confined(net, t0, sources, groups) && GoodOutcome(net, t0, addr, time, s)
    ensures Confined(net, s, sources, groups)
  {
    if Matches(t0, addr) {
      var id := t0.mapAddr[addr.net];
      var info := Succeeded(t0.mapInfo[id], time);
      SetConfined(net, t0, id, info, sources, groups);
      if !t0.mapInfo[id].inTried {
        var t := SetInfo(t0, id, info);
        SucceededKeeps(net, t0, id, time);
        var origin, victim, u :| PromotedFrom(net, t, id, origin, victim, u, s);
        PromotedConfined(net, t, id, origin, victim, u, s, sources, groups);
      }
    }
  }

  lemma ReorderedConfined(net: Network, t: Tables, s: Tables, sources: set<Group>, groups: set<Group>)
    requires Confined(net, t, sources, groups) && Reordered(t, s)
    ensures Confined(net, s, sources, groups)
  {
    forall id | id in s.mapInfo
      ensures net.group(s.mapInfo[id].source) in sources && net.group(s.mapInfo[id].service.net) in groups
    {
      assert id in t.mapInfo.Keys;
      assert Moved(t.mapInfo[id], s.mapInfo[id]);
    }
  }

  lemma StepConfined(net: Network, t: Tables, op: Operation, s: Tables, sources: set<Group>, groups: set<Group>)
    requires Inv(net, t, NO_ENTRY) && Confined(net, t, sources, groups) && Step(net, t, op, s)
    requires Announces(net, op, sources, groups)
    ensures Confined(net, s, sources, groups)
  {
    match op
    case OpAdd(_, _, _, _) => AddConfined(net, t, op, s, sources, groups);
    case OpGood(addr, time) => GoodConfined(net, t, addr, time, s, sources, groups);
    case OpAttempt(addr, time) =>
    case OpConnected(addr, time) =>
    case OpGetAddr =>
      var spots: seq<nat> :| |spots| == SampleSize(|t.vRandom|) && Shuffled(t, spots, s);
      ShuffledReorders(t, spots, s);
      ReorderedConfined(net, t, s, sources, groups);
  }

  lemma {:induction false} RunConfined(net: Network, nKey: seq<int>, ops: seq<Operation>, states: seq<Tables>, n: nat,
                                       sources: set<Group>, groups: set<Group>)
    requires IsRun(net, nKey, ops, states) && n <= |ops|
    requires forall i :: 0 <= i < n ==> Announces(net, ops[i], sources, groups)
    ensures Confined(net, states[n], sources, groups)
  {
    if n > 0 {
      RunConfined(net, nKey, ops, states, n - 1, sources, groups);
      EveryRunConsistent(net, nKey, ops, states, n - 1);
      assert StepAt(net, ops, states, n - 1);
      StepConfined(net, states[n - 1], ops[n - 1], states[n], sources, groups);
    }
  }

  ghost function OccupiedNew(t: Tables): set<int> { set b | 0 <= b < |t.vvNew| && t.vvNew[b] != {} }

  ghost function OccupiedTried(t: Tables): set<int> { set k | 0 <= k < |t.vvTried| && t.vvTried[k] != [] }

  lemma TriedConfined(net: Network, t: Tables, sources: set<Group>, groups: set<Group>)
    requires Inv(net, t, NO_ENTRY) && Confined(net, t, sources, groups)
    ensures OccupiedTried(t) <= ReachOfAll(net, t.nKey, groups, 4, 64)
  {
    forall k | k in OccupiedTried(t)
      ensures k in ReachOfAll(net, t.nKey, groups, 4, 64)
    {
      var id := t.vvTried[k][0];
      assert id in t.vvTried[k];
      TriedBucketInReach(net, t.nKey, t.mapInfo[id].service);
    }
  }

  lemma SubsetSmall(a: set<int>, b: set<int>, n: nat)
    requires a <= b && |b| <= n
    ensures |a| <= n
  {
    assert b == a + (b - a);
  }

  /** In every run, each group of sources occupies at most 32 new buckets, each group of addresses at most 4 tried ones. */
  lemma FewBuckets(net: Network, nKey: seq<int>, ops: seq<Operation>, states: seq<Tables>, n: nat,
                   sources: set<Group>, groups: set<Group>)
    requires IsRun(net, nKey, ops, states) && n <= |ops|
    requires forall i :: 0 <= i < n ==> Announces(net, ops[i], sources, groups)
    ensures |OccupiedNew(states[n])| <= 32 * |sources| && |OccupiedTried(states[n])| <= 4 * |groups|
  {
    var t := states[n];
    RunConfined(net, nKey, ops, states, n, sources, groups);
    EveryRunConsistent(net, nKey, ops, states, n);
    TriedConfined(net, t, sources, groups);
    ReachOfAllIsSmall(net, t.nKey, sources, 32, 256);
    ReachOfAllIsSmall(net, t.nKey, groups, 4, 64);
    SubsetSmall(OccupiedNew(t), NewReach(net, t.nKey, sources), 32 * |sources|);
    SubsetSmall(OccupiedTried(t), ReachOfAll(net, t.nKey, groups, 4, 64), 4 * |groups|);
  }

  /** The bucket that gains an entry from an announcement is one of the 32 of the source's group. */
  lemma AddStaysInReach(net: Network, t: Tables, addr: Address, source: NetAddr, penalty: int, now: int, s: Tables, b: int, id: int)
    requires Inv(net, t, NO_ENTRY) && AddOutcome(net, t, addr, source, penalty, now, s)
    requires 0 <= b < |t.vvNew| && |s.vvNew| == |t.vvNew| && id in s.vvNew[b] && id !in t.vvNew[b]
    ensures b in Reach(net, t.nKey, net.group(source), 32, 256)
  {
    var a := addr.service.net;
    if Known(t, a) {
      var k := t.mapAddr[a];
      var r := SetInfo(t, k, Refreshed(t.mapInfo[k], addr, penalty, now));
      RefreshedKeeps(net, t, k, addr, penalty, now);
      SetKeepsRandom(r, k, Raised(r, k).mapInfo[k]);
      PlacedGains(Raised(r, k), NewBucket(net, t.nKey, t.mapInfo[k].service, source), k, now, s, b, id);
      NewBucketInReach(net, t.nKey, t.mapInfo[k].service, source);
    } else {
      EnteredKeeps(net, t, Announced(addr, source, penalty));
      PlacedGains(Entered(t, Announced(addr, source, penalty)), NewBucket(net, t.nKey, addr.service, source), t.nIdCount, now, s, b, id);
      NewBucketInReach(net, t.nKey, addr.service, source);
    }
  }

  lemma PlacedGains(t: Tables, b: int, id: int, now: int, s: Tables, c: int, x: int)
    requires RandomOk(t) && 0 <= b < |t.vvNew| && Placed(t, b, id, now, s)
    requires 0 <= c < |t.vvNew| && |s.vvNew| == |t.vvNew| && x in s.vvNew[c] && x !in t.vvNew[c]
    ensures c == b && x == id
  {
    if |t.vvNew[b]| == NEW_BUCKET_SIZE {
      var v :| PlacedEvicting(t, b, id, now, v, s);
      DroppedBuckets(t, b, v);
    }
  }
}
