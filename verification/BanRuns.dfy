/** Runs of the auto-ban ledger: hits, admin unbans, garbage collection and restarts in any order,
    with the history of accepted hits kept beside the state. */
module BanRuns {
  import opened Wrappers
  import opened Order
  import opened SlidingWindow
  import opened BanSpec

  datatype BanOp =
    | DoHit(target: string, hit: Hit, guards: Guards, now: nat)
    | DoOverturn(target: string, nowSecs: nat)
    | DoGc(nowSecs: nat)
    | DoRestart

  /** An accepted hit: which boot of the hub it fell in, and the offense it led to, if any. */
  datatype Entry = Entry(boot: nat, target: string, hit: Hit, now: nat, offense: Option<Offense>)

  datatype RunState = RunState(s: BanState, boot: nat, clock: nat, log: seq<Entry>)

  ghost function After(r: RunState, op: BanOp): RunState {
    match op
    case DoHit(target, hit, g, now) =>
      var (s, d) := Record(r.s, target, hit, g, now);
      var o := if d.Banned? then Some(NewOffense(r.s, target, hit, g, now)) else None;
      RunState(s, r.boot, now, if d.Reject? then r.log else r.log + [Entry(r.boot, target, hit, now, o)])
    case DoOverturn(target, nowSecs) => r.(s := OverturnRecent(r.s, target, nowSecs))
    case DoGc(nowSecs) => r.(s := Gc(r.s, nowSecs))
    case DoRestart => r.(s := Restarted(r.s), boot := r.boot + 1)
  }

  const START: RunState := RunState(BanState(map[], map[], map[], map[], map[]), 0, 0, [])

  ghost function Run(ops: seq<BanOp>): RunState {
    if ops == [] then START else After(Run(ops[..|ops| - 1]), ops[|ops| - 1])
  }

  /** The clock never runs backwards from one hit to the next. */
  ghost predicate Timely(ops: seq<BanOp>) {
    ops == [] ||
    (var n := |ops| - 1;
     Timely(ops[..n]) && (ops[n].DoHit? ==> Run(ops[..n]).clock <= ops[n].now))
  }

  /** The times of the entries of one boot that satisfy p. */
  function Times(log: seq<Entry>, boot: nat, p: Entry -> bool): seq<nat> {
    if log == [] then [] else
      var n := |log| - 1;
      Times(log[..n], boot, p) + if log[n].boot == boot && p(log[n]) then [log[n].now] else []
  }

  function HitBy(uid: string): Entry -> bool {
    (e: Entry) => e.hit.reporterUid == uid
  }

  function TriggeredByUid(uid: string): Entry -> bool {
    (e: Entry) => e.offense.Some? && uid in e.offense.value.reporterUids
  }

  function TriggeredByCluster(c: string): Entry -> bool {
    (e: Entry) => e.offense.Some? && c in e.offense.value.reporterClusters
  }

  /** Bans on the session path, by reporter or by reporter cluster. */
  function SoloBy(uid: string): Entry -> bool {
    (e: Entry) => e.offense.Some? && e.offense.value.path == SessionPath && e.hit.reporterUid == uid
  }

  function SoloIn(c: string): Entry -> bool {
    (e: Entry) => e.offense.Some? && e.offense.value.path == SessionPath && e.hit.reporterCluster == c
  }

  lemma TimesAppend(log: seq<Entry>, e: Entry, boot: nat, p: Entry -> bool)
    ensures Times(log + [e], boot, p) == Times(log, boot, p) + if e.boot == boot && p(e) then [e.now] else []
  {
    assert (log + [e])[..|log|] == log;
  }

  // Times of a stronger predicate lag behind those of a weaker one.

  ghost predicate SortedLog(log: seq<Entry>, clock: nat) {
    && (forall i: nat, j: nat | i < j < |log| :: log[i].now <= log[j].now)
    && (log != [] ==> log[|log| - 1].now <= clock)
  }

  function FromEnd(s: seq<nat>, k: nat): nat
    requires k < |s|
  {
    s[|s| - 1 - k]
  }

  /** Counted from the end, every time of s is matched by one of t that is no earlier. */
  ghost predicate Lags(s: seq<nat>, t: seq<nat>) {
    |s| <= |t| && forall k: nat | k < |s| :: FromEnd(s, k) <= FromEnd(t, k)
  }

  lemma {:induction false} TimesBounded(log: seq<Entry>, clock: nat, boot: nat, p: Entry -> bool)
    requires SortedLog(log, clock)
    ensures Nondecreasing(Times(log, boot, p))
    ensures forall k: nat | k < |Times(log, boot, p)| :: Times(log, boot, p)[k] <= clock
    decreases |log|
  {
    if log != [] {
      var n := |log| - 1;
      TimesBounded(log[..n], log[n].now, boot, p);
    }
  }

  lemma {:induction false} TimesLag(log: seq<Entry>, clock: nat, boot: nat, p: Entry -> bool, q: Entry -> bool)
    requires SortedLog(log, clock)
    requires forall i: nat | i < |log| && p(log[i]) :: q(log[i])
    ensures Lags(Times(log, boot, p), Times(log, boot, q))
    decreases |log|
  {
    if log != [] {
      hide Lags, Nondecreasing;
      var n := |log| - 1;
      var s, t := Times(log[..n], boot, p), Times(log[..n], boot, q);
      TimesLag(log[..n], log[n].now, boot, p, q);
      TimesBounded(log[..n], log[n].now, boot, p);
      assert s + [] == s && t + [] == t;
      if log[n].boot == boot {
        if p(log[n]) {
          LagPushBoth(s, t, log[n].now);
        } else if q(log[n]) {
          LagPush(s, t, log[n].now);
        }
      }
    }
  }

  lemma LagPush(s: seq<nat>, t: seq<nat>, now: nat)
    requires Lags(s, t) && Nondecreasing(s) && forall k: nat | k < |s| :: s[k] <= now
    ensures Lags(s, t + [now])
  {
    forall k: nat | k < |s|
      ensures FromEnd(s, k) <= FromEnd(t + [now], k)
    {
      if k > 0 {
        assert FromEnd(s, k - 1) <= FromEnd(t, k - 1);
      }
    }
  }

  lemma LagPushBoth(s: seq<nat>, t: seq<nat>, now: nat)
    requires Lags(s, t)
    ensures Lags(s + [now], t + [now])
  {
    forall k: nat | k < |s| + 1
      ensures FromEnd(s + [now], k) <= FromEnd(t + [now], k)
    {
      if k > 0 {
        assert FromEnd(s, k - 1) <= FromEnd(t, k - 1);
      }
    }
  }

  /** A push that finds its queue short keeps the lagging times spaced. */
  lemma QuotaPush(q: seq<nat>, s: seq<nat>, t: seq<nat>, now: nat, window: nat, k: nat)
    requires Tracks(q, t, now, window, NonStrict) && |q| < k && Lags(s, t) && Spaced(s, k, window, NonStrict)
    ensures Spaced(s + [now], k, window, NonStrict)
  {
    hide Tracks, Spaced;
    if k <= |s| {
      ShortQueueExpired(q, t, now, window, NonStrict, k);
      assert FromEnd(s, k - 1) <= FromEnd(t, k - 1);
    }
    SpacedPush(s, k, now, window, NonStrict);
  }

  // The invariant.

  ghost predicate RateTracked(r: RunState) {
    forall u :: Tracks(ListOf(r.s.rate, u), Times(r.log, r.boot, HitBy(u)), r.clock, HOUR_MS, NonStrict)
  }

  ghost predicate UidTracked(r: RunState) {
    forall u :: Tracks(ListOf(r.s.byUid, u), Times(r.log, r.boot, TriggeredByUid(u)), r.clock, DAY_MS, NonStrict)
  }

  ghost predicate ClusterTracked(r: RunState) {
    forall c :: Tracks(ListOf(r.s.byCluster, c), Times(r.log, r.boot, TriggeredByCluster(c)), r.clock, DAY_MS,
                       NonStrict)
  }

  ghost predicate Quotas(log: seq<Entry>) {
    && (forall b: nat, u :: Spaced(Times(log, b, HitBy(u)), REPORTER_RATE_PER_HOUR, HOUR_MS, NonStrict))
    && (forall b: nat, u :: Spaced(Times(log, b, SoloBy(u)), REPORTER_BAN_CAP_24H, DAY_MS, NonStrict))
    && (forall b: nat, c :: Spaced(Times(log, b, SoloIn(c)), CLUSTER_BAN_CAP_24H, DAY_MS, NonStrict))
  }

  /** A session-path offense is booked on its reporter and cluster alone. */
  predicate SoloShape(e: Entry) {
    e.offense.Some? && e.offense.value.path == SessionPath ==>
      e.offense.value.reporterUids == [e.hit.reporterUid] && e.offense.value.reporterClusters == [e.hit.reporterCluster]
  }

  ghost predicate Logged(r: RunState) {
    && SortedLog(r.log, r.clock)
    && (forall i: nat | i < |r.log| :: r.log[i].boot <= r.boot && SoloShape(r.log[i]))
  }

  lemma {:induction false} NoTimesAhead(log: seq<Entry>, boot: nat, p: Entry -> bool)
    requires forall i: nat | i < |log| :: log[i].boot < boot
    ensures Times(log, boot, p) == []
    decreases |log|
  {
    if log != [] {
      NoTimesAhead(log[..|log| - 1], boot, p);
    }
  }

  lemma {:induction false} PushAllLists(m: map<string, seq<nat>>, keys: seq<string>, now: nat, k: string)
    requires StrictlySorted(keys)
    ensures ListOf(PushAll(m, keys, now), k) == ListOf(m, k) + if k in keys then [now] else []
    decreases |keys|
  {
    if keys != [] {
      var n := |keys| - 1;
      SortedInit(keys);
      hide StrictlySorted;
      PushAllLists(m, keys[..n], now, k);
      assert keys == keys[..n] + [keys[n]];
    }
  }

  lemma OffenseShape(s: BanState, target: string, hit: Hit, g: Guards, now: nat)
    ensures var o := NewOffense(s, target, hit, g, now);
            && StrictlySorted(o.reporterUids) && StrictlySorted(o.reporterClusters)
            && !o.overturned && o.at == now / 1000
            && (o.path == SessionPath ==>
                o.reporterUids == [hit.reporterUid] && o.reporterClusters == [hit.reporterCluster])
  {
    hide NextLevel, CrossReady;
  }

  lemma ChargedQueues(s: BanState, hit: Hit, now: nat)
    ensures var s' := Charged(s, hit, now);
            && (forall u :: ListOf(s'.rate, u) == RateAfter(s, hit, now, u))
            && (forall u :: ListOf(s'.byUid, u) == UidAfter(s, hit, now, u))
            && (forall c :: ListOf(s'.byCluster, c) == ClusterAfter(s, hit, now, c))
  {
    hide Pruned;
  }

  function RateAfter(s: BanState, hit: Hit, now: nat, u: string): seq<nat> {
    if u == hit.reporterUid then PrunedTimes(s.rate, u, now, HOUR_MS) + [now] else ListOf(s.rate, u)
  }

  function UidAfter(s: BanState, hit: Hit, now: nat, u: string): seq<nat> {
    if u == hit.reporterUid then PrunedTimes(s.byUid, u, now, DAY_MS) else ListOf(s.byUid, u)
  }

  function ClusterAfter(s: BanState, hit: Hit, now: nat, c: string): seq<nat> {
    if c == hit.reporterCluster then PrunedTimes(s.byCluster, c, now, DAY_MS) else ListOf(s.byCluster, c)
  }

  /** What one accepted hit does to the three families of queues. */
  lemma {:induction false} RecordQueues(s: BanState, target: string, hit: Hit, g: Guards, now: nat)
    requires !RateExceeded(s, hit, now)
    ensures var (s', d) := Record(s, target, hit, g, now);
            var o := NewOffense(s, target, hit, g, now);
            && !d.Reject?
            && (forall u :: ListOf(s'.rate, u) == RateAfter(s, hit, now, u))
            && (forall u ::
                  ListOf(s'.byUid, u) ==
                  UidAfter(s, hit, now, u) + if d.Banned? && u in o.reporterUids then [now] else [])
            && (forall c ::
                  ListOf(s'.byCluster, c) ==
                  ClusterAfter(s, hit, now, c) + if d.Banned? && c in o.reporterClusters then [now] else [])
  {
    hide NextLevel, SessionReady, CrossReady, SoloOk, RateExceeded, NewOffense, Punished, Hint, BanFor, Evidence,
         Charged, ListOf, RateAfter, UidAfter, ClusterAfter, StrictlySorted;
    var s1, o := Charged(s, hit, now), NewOffense(s, target, hit, g, now);
    ChargedQueues(s, hit, now);
    OffenseShape(s, target, hit, g, now);
    PunishedQueues(s1, target, o, now);
    assert forall u :: ListOf(s1.byUid, u) + [] == ListOf(s1.byUid, u);
    assert forall c :: ListOf(s1.byCluster, c) + [] == ListOf(s1.byCluster, c);
  }

  lemma PunishedQueues(s: BanState, target: string, o: Offense, now: nat)
    requires StrictlySorted(o.reporterUids) && StrictlySorted(o.reporterClusters)
    ensures var s' := Punished(s, target, o, now);
            && s'.rate == s.rate
            && (forall u :: ListOf(s'.byUid, u) == ListOf(s.byUid, u) + if u in o.reporterUids then [now] else [])
            && (forall c ::
                  ListOf(s'.byCluster, c) == ListOf(s.byCluster, c) + if c in o.reporterClusters then [now] else [])
  {
    hide PushAll, StrictlySorted;
    forall k
      ensures ListOf(PushAll(s.byUid, o.reporterUids, now), k)
              == ListOf(s.byUid, k) + if k in o.reporterUids then [now] else []
    {
      PushAllLists(s.byUid, o.reporterUids, now, k);
    }
    forall k
      ensures ListOf(PushAll(s.byCluster, o.reporterClusters, now), k)
              == ListOf(s.byCluster, k) + if k in o.reporterClusters then [now] else []
    {
      PushAllLists(s.byCluster, o.reporterClusters, now, k);
    }
  }

  /** A queue that is pruned or not, and pushed or not, stays in step. */
  lemma QueueStep(q: seq<nat>, t: seq<nat>, clock: nat, now: nat, window: nat, prune: bool, push: bool)
    requires Tracks(q, t, clock, window, NonStrict) && clock <= now
    ensures Tracks((if prune then Pruned(q, now, window, NonStrict) else q) + (if push then [now] else []),
                   t + (if push then [now] else []), now, window, NonStrict)
  {
    hide Tracks, Pruned;
    ClockAdvances(q, t, clock, now, window, NonStrict);
    PrunedTracks(q, t, clock, now, window, NonStrict);
    var p := if prune then Pruned(q, now, window, NonStrict) else q;
    if push {
      PushTracks(p, t, now, window, NonStrict);
    } else {
      assert p + [] == p && t + [] == t;
    }
  }

  /** The entry an accepted hit adds to the history. */
  ghost function NewEntry(r: RunState, target: string, hit: Hit, g: Guards, now: nat): Entry {
    Entry(r.boot, target, hit, now,
          if Record(r.s, target, hit, g, now).1.Banned? then Some(NewOffense(r.s, target, hit, g, now)) else None)
  }

  ghost predicate Ok(r: RunState) {
    RateTracked(r) && UidTracked(r) && ClusterTracked(r) && Quotas(r.log) && Logged(r)
  }

  lemma {:induction false} HitKeepsRate(r: RunState, target: string, hit: Hit, g: Guards, now: nat)
    requires RateTracked(r) && r.clock <= now
    ensures RateTracked(After(r, DoHit(target, hit, g, now)))
  {
    hide Tracks, Pruned, Record, NewOffense, RateExceeded;
    var r' := After(r, DoHit(target, hit, g, now));
    var e := NewEntry(r, target, hit, g, now);
    forall u
      ensures Tracks(ListOf(r'.s.rate, u), Times(r'.log, r'.boot, HitBy(u)), now, HOUR_MS, NonStrict)
    {
      var q, t := ListOf(r.s.rate, u), Times(r.log, r.boot, HitBy(u));
      var mine := u == hit.reporterUid;
      if RateExceeded(r.s, hit, now) {
        RejectedQueues(r.s, target, hit, g, now);
        QueueStep(q, t, r.clock, now, HOUR_MS, mine, false);
        assert t + [] == t && ListOf(r'.s.rate, u) + [] == ListOf(r'.s.rate, u);
      } else {
        RecordQueues(r.s, target, hit, g, now);
        TimesAppend(r.log, e, r.boot, HitBy(u));
        QueueStep(q, t, r.clock, now, HOUR_MS, mine, mine);
        assert q + [] == q;
      }
    }
  }

  lemma RejectedQueues(s: BanState, target: string, hit: Hit, g: Guards, now: nat)
    requires RateExceeded(s, hit, now)
    ensures var (s', d) := Record(s, target, hit, g, now);
            && d.Reject? && s' == s.(rate := s'.rate)
            && (forall u ::
                  ListOf(s'.rate, u) ==
                  if u == hit.reporterUid then PrunedTimes(s.rate, u, now, HOUR_MS) else ListOf(s.rate, u))
  {
    hide RateExceeded, Pruned;
  }

  lemma {:induction false} HitKeepsUid(r: RunState, target: string, hit: Hit, g: Guards, now: nat)
    requires UidTracked(r) && r.clock <= now
    ensures UidTracked(After(r, DoHit(target, hit, g, now)))
  {
    hide Tracks, Pruned, Record, NewOffense, RateExceeded;
    var r' := After(r, DoHit(target, hit, g, now));
    var e := NewEntry(r, target, hit, g, now);
    forall u
      ensures Tracks(ListOf(r'.s.byUid, u), Times(r'.log, r'.boot, TriggeredByUid(u)), now, DAY_MS, NonStrict)
    {
      var q, t := ListOf(r.s.byUid, u), Times(r.log, r.boot, TriggeredByUid(u));
      if RateExceeded(r.s, hit, now) {
        RejectedQueues(r.s, target, hit, g, now);
        ClockAdvances(q, t, r.clock, now, DAY_MS, NonStrict);
      } else {
        RecordQueues(r.s, target, hit, g, now);
        TimesAppend(r.log, e, r.boot, TriggeredByUid(u));
        QueueStep(q, t, r.clock, now, DAY_MS, u == hit.reporterUid, TriggeredByUid(u)(e));
      }
    }
  }

  lemma {:induction false} HitKeepsCluster(r: RunState, target: string, hit: Hit, g: Guards, now: nat)
    requires ClusterTracked(r) && r.clock <= now
    ensures ClusterTracked(After(r, DoHit(target, hit, g, now)))
  {
    hide Tracks, Pruned, Record, NewOffense, RateExceeded;
    var r' := After(r, DoHit(target, hit, g, now));
    var e := NewEntry(r, target, hit, g, now);
    forall c
      ensures Tracks(ListOf(r'.s.byCluster, c), Times(r'.log, r'.boot, TriggeredByCluster(c)), now, DAY_MS, NonStrict)
    {
      var q, t := ListOf(r.s.byCluster, c), Times(r.log, r.boot, TriggeredByCluster(c));
      if RateExceeded(r.s, hit, now) {
        RejectedQueues(r.s, target, hit, g, now);
        ClockAdvances(q, t, r.clock, now, DAY_MS, NonStrict);
      } else {
        RecordQueues(r.s, target, hit, g, now);
        TimesAppend(r.log, e, r.boot, TriggeredByCluster(c));
        QueueStep(q, t, r.clock, now, DAY_MS, c == hit.reporterCluster, TriggeredByCluster(c)(e));
      }
    }
  }

  lemma HitKeepsLogged(r: RunState, target: string, hit: Hit, g: Guards, now: nat)
    requires Logged(r) && r.clock <= now
    ensures Logged(After(r, DoHit(target, hit, g, now)))
  {
    hide Record, NewOffense;
    OffenseShape(r.s, target, hit, g, now);
  }

  /** A session-path ban was within both caps. */
  lemma SoloWasNotCapped(s: BanState, target: string, hit: Hit, g: Guards, now: nat)
    requires Record(s, target, hit, g, now).1.Banned? && NewOffense(s, target, hit, g, now).path == SessionPath
    ensures !Capped(s, hit, now)
  {
    hide NextLevel, SessionReady, CrossReady, RateExceeded, Capped, ReporterOverturned;
  }

  lemma {:induction false} HitKeepsQuotas(r: RunState, target: string, hit: Hit, g: Guards, now: nat)
    requires Ok(r) && r.clock <= now
    ensures Quotas(After(r, DoHit(target, hit, g, now)).log)
  {
    hide Tracks, Pruned, Record, NewOffense, Spaced, Logged;
    var e := NewEntry(r, target, hit, g, now);
    if !RateExceeded(r.s, hit, now) {
      RecordQueues(r.s, target, hit, g, now);
      var log := r.log + [e];
      forall b: nat, u
        ensures Spaced(Times(log, b, HitBy(u)), REPORTER_RATE_PER_HOUR, HOUR_MS, NonStrict)
      {
        var t := Times(r.log, b, HitBy(u));
        TimesAppend(r.log, e, b, HitBy(u));
        assert t + [] == t;
        if b == r.boot && u == hit.reporterUid {
          PrunedTracks(ListOf(r.s.rate, u), t, r.clock, now, HOUR_MS, NonStrict);
          SelfLags(t);
          QuotaPush(PrunedTimes(r.s.rate, u, now, HOUR_MS), t, t, now, HOUR_MS, REPORTER_RATE_PER_HOUR);
        }
      }
      forall b: nat, u
        ensures Spaced(Times(log, b, SoloBy(u)), REPORTER_BAN_CAP_24H, DAY_MS, NonStrict)
      {
        var t := Times(r.log, b, SoloBy(u));
        TimesAppend(r.log, e, b, SoloBy(u));
        assert t + [] == t;
        if b == r.boot && SoloBy(u)(e) {
          SoloWasNotCapped(r.s, target, hit, g, now);
          SoloLags(r, u, hit.reporterCluster);
          var all := Times(r.log, b, TriggeredByUid(u));
          PrunedTracks(ListOf(r.s.byUid, u), all, r.clock, now, DAY_MS, NonStrict);
          QuotaPush(PrunedTimes(r.s.byUid, u, now, DAY_MS), t, all, now, DAY_MS, REPORTER_BAN_CAP_24H);
        }
      }
      forall b: nat, c
        ensures Spaced(Times(log, b, SoloIn(c)), CLUSTER_BAN_CAP_24H, DAY_MS, NonStrict)
      {
        var t := Times(r.log, b, SoloIn(c));
        TimesAppend(r.log, e, b, SoloIn(c));
        assert t + [] == t;
        if b == r.boot && SoloIn(c)(e) {
          SoloWasNotCapped(r.s, target, hit, g, now);
          SoloLags(r, hit.reporterUid, c);
          var all := Times(r.log, b, TriggeredByCluster(c));
          PrunedTracks(ListOf(r.s.byCluster, c), all, r.clock, now, DAY_MS, NonStrict);
          QuotaPush(PrunedTimes(r.s.byCluster, c, now, DAY_MS), t, all, now, DAY_MS, CLUSTER_BAN_CAP_24H);
        }
      }
    } else {
      RejectedQueues(r.s, target, hit, g, now);
    }
  }

  lemma SelfLags(t: seq<nat>)
    ensures Lags(t, t)
  {}

  lemma SoloLags(r: RunState, u: string, c: string)
    requires Logged(r)
    ensures Lags(Times(r.log, r.boot, SoloBy(u)), Times(r.log, r.boot, TriggeredByUid(u)))
    ensures Lags(Times(r.log, r.boot, SoloIn(c)), Times(r.log, r.boot, TriggeredByCluster(c)))
  {
    TimesLag(r.log, r.clock, r.boot, SoloBy(u), TriggeredByUid(u));
    TimesLag(r.log, r.clock, r.boot, SoloIn(c), TriggeredByCluster(c));
  }

  lemma {:induction false} RestartKeepsOk(r: RunState)
    requires Ok(r)
    ensures Ok(After(r, DoRestart))
  {
    hide Tracks, Spaced, SortedLog;
    var next := r.boot + 1;
    forall p: Entry -> bool
      ensures Times(r.log, next, p) == []
    {
      NoTimesAhead(r.log, next, p);
    }
    EmptyTracks(0, r.clock, HOUR_MS, NonStrict);
    EmptyTracks(0, r.clock, DAY_MS, NonStrict);
  }

  lemma {:induction false} RunIsOk(ops: seq<BanOp>)
    requires Timely(ops)
    ensures Ok(Run(ops))
    decreases |ops|
  {
    hide RateTracked, UidTracked, ClusterTracked, Quotas, Logged, Record;
    if ops == [] {
      StartIsOk();
    } else {
      var n := |ops| - 1;
      var r, op := Run(ops[..n]), ops[n];
      RunIsOk(ops[..n]);
      match op
      case DoHit(target, hit, g, now) =>
        HitKeepsRate(r, target, hit, g, now);
        HitKeepsUid(r, target, hit, g, now);
        HitKeepsCluster(r, target, hit, g, now);
        HitKeepsLogged(r, target, hit, g, now);
        HitKeepsQuotas(r, target, hit, g, now);
      case DoOverturn(_, _) => BookOnly(r, After(r, op));
      case DoGc(_) => BookOnly(r, After(r, op));
      case DoRestart => RestartKeepsOk(r);
    }
  }

  lemma StartIsOk()
    ensures Ok(START)
  {
    hide Tracks, Spaced;
    EmptyTracks(0, 0, HOUR_MS, NonStrict);
    EmptyTracks(0, 0, DAY_MS, NonStrict);
    EmptyTracks(REPORTER_RATE_PER_HOUR, 0, HOUR_MS, NonStrict);
    EmptyTracks(REPORTER_BAN_CAP_24H, 0, DAY_MS, NonStrict);
    EmptyTracks(CLUSTER_BAN_CAP_24H, 0, DAY_MS, NonStrict);
  }

  lemma BookOnly(r: RunState, r': RunState)
    requires Ok(r) && r' == r.(s := r.s.(book := r'.s.book))
    ensures Ok(r')
  {
    hide Tracks, Spaced;
  }
}
