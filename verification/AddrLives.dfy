/**
 What happens to one entry: how it comes in, what announcements, attempts and successes do to it, and when it may
 be given up.
 */
module AddrLives {
  import opened Collections
  import opened AddrTables
  import opened AddrEviction
  import opened AddrPromotion
  import opened AddrSteps

  /** A time that fits the field is kept as it is; others are reduced by multiples of 2^32. */
  lemma TimeKept(x: int, k: int)
    ensures 0 <= x < 0x1_0000_0000 ==> ToUint32(x) == x && ToUint32(x + k * 0x1_0000_0000) == x
  {
  }

  // ----- announcements -----

  /** A new entry: what the announcement said, the time less the penalty, and nothing tried yet. */
  ghost predicate IsNewcomer(info: Info, addr: Address, source: NetAddr, penalty: int) {
    && info.service == addr.service && info.services == addr.services && info.source == source
    && info.time == (if addr.time < penalty then 0 else addr.time - penalty)
    && info.lastTry == 0 && info.lastSuccess == 0 && info.attempts == 0 && info.refCount == 1 && !info.inTried
  }

  lemma NewcomerIs(net: Network, t: Tables, addr: Address, source: NetAddr, penalty: int, now: int, s: Tables)
    requires Inv(net, t, NO_ENTRY) && AddOutcome(net, t, addr, source, penalty, now, s) && penalty >= 0
    requires net.routable(addr.service.net) && !Known(t, addr.service.net)
    ensures var id, b := t.nIdCount, NewBucket(net, t.nKey, addr.service, source);
      && id in s.mapInfo && IsNewcomer(s.mapInfo[id], addr, source, penalty)
      && addr.service.net in s.mapAddr && s.mapAddr[addr.service.net] == id
      && b < |s.vvNew| && id in s.vvNew[b]
  {
    var info := Announced(addr, source, penalty);
    var r, b, id := Entered(t, info), NewBucket(net, t.nKey, addr.service, source), t.nIdCount;
    EnteredKeeps(net, t, info);
    UnusedIdNowhere(t);
    AnnouncedIs(addr, source, penalty);
    if |r.vvNew[b]| == NEW_BUCKET_SIZE {
      var v :| PlacedEvicting(r, b, id, now, v, s);
      EvictionSpares(net, r, b, v, id);
    }
  }

  lemma AnnouncedIs(addr: Address, source: NetAddr, penalty: int)
    requires penalty >= 0
    ensures IsNewcomer(Announced(addr, source, penalty).(refCount := 1), addr, source, penalty)
  {
  }

  /** Making room in a bucket leaves another entry and its address alone. */
  lemma EvictionSpares(net: Network, t: Tables, b: int, v: int, id: int)
    requires Inv(net, t, id) && id in t.mapInfo && v in t.mapInfo && v != id && 0 <= b < |t.vvNew|
    ensures var d := Dropped(t, b, v);
      && id in d.mapInfo && d.mapInfo[id] == t.mapInfo[id].(randomPos := d.mapInfo[id].randomPos)
      && t.mapInfo[id].service.net in d.mapAddr && d.mapAddr[t.mapInfo[id].service.net] == id && |d.vvNew| == |t.vvNew|
  {
    DroppedShape(t, b, v);
    assert t.mapAddr[t.mapInfo[id].service.net] == id && t.mapAddr[t.mapInfo[v].service.net] == v;
  }

  /** A repeated announcement never makes an entry look older, and never takes services away. */
  lemma RefreshedIsNewer(info: Info, addr: Address, penalty: int, now: int)
    requires penalty >= 0
    ensures var r := Refreshed(info, addr, penalty, now);
      && info.time <= r.time && (r.time == info.time || r.time == (if addr.time < penalty then 0 else addr.time - penalty))
      && info.services <= r.services == info.services + addr.services
      && r == info.(time := r.time, services := r.services)
  {
  }

  /** News moves the time of an entry seen in the last day by more than an hour, of others by more than a day, or not at all. */
  lemma RefreshedByHoursOrDays(info: Info, addr: Address, penalty: int, now: int)
    requires penalty >= 0
    ensures var r, news := Refreshed(info, addr, penalty, now), addr.time - penalty;
      && (r.time != info.time ==> addr.time != 0 && (info.time == 0 || news - info.time > 3600))
      && (r.time != info.time && now - addr.time >= 86400 ==> info.time == 0 || news - info.time > 86400)
      && (addr.time != 0 && news - info.time > 86400 ==> r.time == news)
      && (addr.time != 0 && news - info.time > 3600 && now - addr.time < 86400 ==> r.time == news)
  {
  }

  /** Every reference halves the chance of another one. */
  lemma ChancesHalve(n: nat)
    ensures Odds(0) == 1 && Odds(n + 1) == 2 * Odds(n)
  {
  }

  // ----- connections and samples -----

  /** A connected peer counts as seen within twenty minutes; more recent entries are left alone. */
  lemma ConnectedIsRecent(info: Info, time: int)
    requires 0 <= time < 0x1_0000_0000
    ensures var r := Seen(info, time);
      && time - r.time <= 20 * 60 && r == info.(time := r.time)
      && r.time == (if time - info.time <= 20 * 60 then info.time else time)
  {
  }

  /** A sample has the largest size that is neither above 2500 nor above 23 percent. */
  lemma SampleSizeIs(n: nat, m: nat)
    ensures m <= SampleSize(n) <==> m <= 2500 && 100 * m <= 23 * n
  {
  }

  // ----- attempts -----

  /** Several attempts, one after the other. */
  ghost function AfterAttempts(t: Tables, addr: Service, times: seq<int>): Tables {
    if times == [] then t
    else AttemptedTables(AfterAttempts(t, addr, times[..|times| - 1]), addr, times[|times| - 1])
  }

  lemma {:induction false} AttemptsCount(t: Tables, addr: Service, times: seq<int>)
    requires Matches(t, addr)
    ensures var id, s := t.mapAddr[addr.net], AfterAttempts(t, addr, times);
      && Matches(s, addr) && s.mapAddr == t.mapAddr
      && s.mapInfo[id].attempts == t.mapInfo[id].attempts + |times|
      && s.mapInfo[id].lastTry == (if times == [] then t.mapInfo[id].lastTry else times[|times| - 1])
      && s.mapInfo[id].lastSuccess == t.mapInfo[id].lastSuccess
    decreases |times|
  {
    if times != [] {
      AttemptsCount(t, addr, times[..|times| - 1]);
    }
  }

  /** After three attempts an address without any success can be given up, a minute after the last of them. */
  lemma ThreeFailures(t: Tables, addr: Service, times: seq<int>, now: int)
    requires Matches(t, addr) && |times| >= 3 && now > times[|times| - 1] + 60
    requires var info := t.mapInfo[t.mapAddr[addr.net]]; info.lastSuccess == 0 && info.attempts >= 0
    ensures var id, s := t.mapAddr[addr.net], AfterAttempts(t, addr, times);
      id in s.mapInfo && IsTerrible(s.mapInfo[id], now)
  {
    AttemptsCount(t, addr, times);
  }

  // ----- successes -----

  /** An entry after a success: the times set, the attempts forgotten, a tried one. */
  ghost predicate HasSucceeded(info: Info, time: int) {
    && info.inTried && info.lastSuccess == time && info.lastTry == time && info.attempts == 0
    && (0 <= time < 0x1_0000_0000 ==> info.time == time)
  }

  ghost predicate InTriedBucket(net: Network, s: Tables, id: int)
    requires id in s.mapInfo
  {
    var k := TriedBucket(net, s.nKey, s.mapInfo[id].service);
    k < |s.vvTried| && id in s.vvTried[k]
  }

  /** Every success brings the entry into its tried bucket, and keeps it there if it was in it. */
  lemma GoodIsTried(net: Network, t0: Tables, addr: Service, time: int, s: Tables)
    requires Inv(net, t0, NO_ENTRY) && GoodOutcome(net, t0, addr, time, s) && Matches(t0, addr)
    ensures var id := t0.mapAddr[addr.net]; id in s.mapInfo && HasSucceeded(s.mapInfo[id], time) && InTriedBucket(net, s, id)
  {
    GoodSucceeds(net, t0, addr, time, s);
    GoodKeeps(net, t0, addr, time, s);
    TriedIsPlaced(net, s, t0.mapAddr[addr.net]);
  }

  lemma TriedIsPlaced(net: Network, s: Tables, id: int)
    requires Inv(net, s, NO_ENTRY) && id in s.mapInfo && s.mapInfo[id].inTried
    ensures InTriedBucket(net, s, id)
  {
    assert TriedEntryOk(net, s, id);
  }

  lemma GoodSucceeds(net: Network, t0: Tables, addr: Service, time: int, s: Tables)
    requires Inv(net, t0, NO_ENTRY) && GoodOutcome(net, t0, addr, time, s) && Matches(t0, addr)
    ensures var id := t0.mapAddr[addr.net]; id in s.mapInfo && HasSucceeded(s.mapInfo[id], time)
  {
    var id := t0.mapAddr[addr.net];
    if !t0.mapInfo[id].inTried {
      var t := SetInfo(t0, id, Succeeded(t0.mapInfo[id], time));
      var origin, victim, u :| PromotedFrom(net, t, id, origin, victim, u, s);
      PromotionSucceeds(net, t0, id, time, origin, victim, u, s);
    }
  }

  lemma PromotionSucceeds(net: Network, t0: Tables, id: int, time: int, origin: int, victim: int, u: int, s: Tables)
    requires Inv(net, t0, NO_ENTRY) && id in t0.mapInfo && !t0.mapInfo[id].inTried
    requires PromotedFrom(net, SetInfo(t0, id, Succeeded(t0.mapInfo[id], time)), id, origin, victim, u, s)
    ensures id in s.mapInfo && s.mapInfo[id] == TriedInfo(Succeeded(t0.mapInfo[id], time))
  {
    SucceededKeeps(net, t0, id, time);
    VictimFacts(net, SetInfo(t0, id, Succeeded(t0.mapInfo[id], time)), id, origin, victim, u, s);
  }

  /** For a week after a success no number of failures makes an entry terrible. */
  lemma SuccessLastsAWeek(info: Info, attempts: int, lastTry: int, now: int)
    requires 0 < info.lastSuccess == info.time && info.time - 600 <= now <= info.lastSuccess + 7 * 86400
    ensures !IsTerrible(info.(attempts := attempts, lastTry := lastTry), now)
  {
  }
}
