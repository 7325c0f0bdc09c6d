/** What a restart of the hub does to the quotas of the auto-ban ledger: it ends them. Both runs here break a quota by
    repeating one hit at one instant (bridge/src/genital_ban.rs:157-205). */
module BanRestarts {
  import opened BanSpec
  import opened BanRuns
  import opened BanTheorems
  import opened BanEvidence

  function Repeated(op: BanOp, n: nat): (ops: seq<BanOp>)
    ensures |ops| == n
  {
    seq(n, _ => op)
  }

  lemma RepeatedNext(op: BanOp, n: nat)
    requires n > 0
    ensures Repeated(op, n)[..n - 1] == Repeated(op, n - 1) && Repeated(op, n)[n - 1] == op
  {}

  /** The history is that hit and nothing else. */
  ghost predicate OnlyHit(log: seq<Entry>, target: string, hit: Hit, now: nat) {
    forall i: nat | i < |log| :: log[i].target == target && log[i].hit == hit && log[i].now == now
  }

  lemma {:induction false} FewTimes(log: seq<Entry>, boot: nat, p: Entry -> bool)
    ensures |Times(log, boot, p)| <= |log|
    decreases |log|
  {
    if log != [] {
      FewTimes(log[..|log| - 1], boot, p);
    }
  }

  /** When every entry counts, every entry has its time. */
  lemma {:induction false} AllTimes(log: seq<Entry>, boot: nat, p: Entry -> bool, now: nat)
    requires forall i: nat | i < |log| :: log[i].boot == boot && p(log[i]) && log[i].now == now
    ensures Times(log, boot, p) == seq(|log|, _ => now)
    decreases |log|
  {
    if log != [] {
      AllTimes(log[..|log| - 1], boot, p, now);
    }
  }

  // The rate.

  /** Up to ten equal hits at one instant are all accepted. */
  lemma {:induction false} TenAreAccepted(target: string, hit: Hit, g: Guards, now: nat, n: nat)
    requires n <= REPORTER_RATE_PER_HOUR
    ensures var ops := Repeated(DoHit(target, hit, g, now), n);
            var r := Run(ops);
            && Timely(ops) && r.boot == 0 && r.clock <= now && |r.log| == n && OnlyHit(r.log, target, hit, now)
            && (forall i: nat | i < n :: r.log[i].boot == 0)
  {
    hide Record, NewOffense;
    if n > 0 {
      var op := DoHit(target, hit, g, now);
      TenAreAccepted(target, hit, g, now, n - 1);
      RepeatedNext(op, n);
      RefusedIff(Repeated(op, n - 1), target, hit, g, now);
      FewTimes(Run(Repeated(op, n - 1)).log, 0, HitBy(hit.reporterUid));
    }
  }

  /** One more is refused, but not after a restart: eleven hits of one reporter are accepted at the same instant. */
  lemma {:induction false} RestartBreaksRate(target: string, hit: Hit, g: Guards, now: nat)
    ensures var op := DoHit(target, hit, g, now);
            var ten := Repeated(op, REPORTER_RATE_PER_HOUR);
            var log := Run(ten + [DoRestart] + [op]).log;
            && Run(ten + [op]).log == Run(ten).log
            && Timely(ten + [DoRestart] + [op]) && |log| == REPORTER_RATE_PER_HOUR + 1 && OnlyHit(log, target, hit, now)
  {
    hide Record, NewOffense, RateExceeded, Times, Timely;
    var op := DoHit(target, hit, g, now);
    var ten := Repeated(op, REPORTER_RATE_PER_HOUR);
    TenAreAccepted(target, hit, g, now, REPORTER_RATE_PER_HOUR);
    RefusedIff(ten, target, hit, g, now);
    AllTimes(Run(ten).log, 0, HitBy(hit.reporterUid), now);
    assert (ten + [op])[..|ten|] == ten;
    RestartThenHit(ten, op);
    RestartEndsQuotas(ten, hit, now);
    ExceededIffRefused(Run(ten + [DoRestart]).s, target, hit, g, now);
  }

  lemma ExceededIffRefused(s: BanState, target: string, hit: Hit, g: Guards, now: nat)
    ensures RateExceeded(s, hit, now) <==> Record(s, target, hit, g, now).1.Reject?
  {
    hide RateExceeded, NewOffense, CrossReady, SessionReady, SoloOk, Hint;
  }

  lemma RestartThenHit(ops: seq<BanOp>, op: BanOp)
    requires Timely(ops) && op.DoHit? && Run(ops).clock <= op.now
    ensures var r := Run(ops);
            Run(ops + [DoRestart]) == r.(s := Restarted(r.s), boot := r.boot + 1) && Timely(ops + [DoRestart])
    ensures Run(ops + [DoRestart] + [op]) == After(Run(ops + [DoRestart]), op) && Timely(ops + [DoRestart] + [op])
  {
    hide Record, NewOffense;
    var before := ops + [DoRestart];
    assert before[..|ops|] == ops;
    assert (before + [op])[..|before|] == before;
  }

  // The daily caps.

  predicate BansAlone(e: Entry) {
    && e.offense.Some? && e.offense.value.path == SessionPath
    && e.offense.value.reporterUids == [e.hit.reporterUid]
    && e.offense.value.reporterClusters == [e.hit.reporterCluster]
  }

  ghost predicate NothingOverturned(book: Book) {
    forall t, i: nat | t in book && i < |book[t]| :: !book[t][i].overturned
  }

  /** Every other hit has banned, alone. */
  ghost predicate Alternating(r: RunState, target: string, hit: Hit) {
    && ListOf(r.s.hits, target) == (if |r.log| % 2 == 1 then [hit] else [])
    && (forall i: nat | i < |r.log| :: if i % 2 == 1 then BansAlone(r.log[i]) else r.log[i].offense.None?)
    && NothingOverturned(r.s.book)
  }

  lemma {:induction false} EveryOtherTime(log: seq<Entry>, boot: nat, p: Entry -> bool, now: nat)
    requires forall i: nat | i < |log| :: log[i].boot == boot && log[i].now == now && (p(log[i]) <==> i % 2 == 1)
    ensures Times(log, boot, p) == seq(|log| / 2, _ => now)
    decreases |log|
  {
    if log != [] {
      EveryOtherTime(log[..|log| - 1], boot, p, now);
    }
  }

  lemma TriggersAlternate(r: RunState, target: string, hit: Hit, now: nat, boot: nat)
    requires Alternating(r, target, hit) && OnlyHit(r.log, target, hit, now)
    requires forall i: nat | i < |r.log| :: r.log[i].boot == boot
    ensures Times(r.log, boot, TriggeredByUid(hit.reporterUid)) == seq(|r.log| / 2, _ => now)
    ensures Times(r.log, boot, TriggeredByCluster(hit.reporterCluster)) == seq(|r.log| / 2, _ => now)
  {
    EveryOtherTime(r.log, boot, TriggeredByUid(hit.reporterUid), now);
    EveryOtherTime(r.log, boot, TriggeredByCluster(hit.reporterCluster), now);
  }

  lemma NotOverturned(book: Book, uid: string)
    requires NothingOverturned(book)
    ensures !ReporterOverturned(book, uid)
  {}

  /** The next hit bans when it is the second of a pair and its reporter is not capped; else it is counted. */
  lemma {:induction false} NextAlternates(r: RunState, target: string, hit: Hit, now: nat)
    requires BansAtOnce(hit, now) && Alternating(r, target, hit)
    requires !RateExceeded(r.s, hit, now) && (|r.log| % 2 == 1 ==> !Capped(r.s, hit, now))
    ensures Alternating(After(r, DoHit(target, hit, UNGUARDED, now)), target, hit)
    ensures After(r, DoHit(target, hit, UNGUARDED, now)).log
         == r.log + [NewEntry(r, target, hit, UNGUARDED, now)]
  {
    hide RateExceeded, Capped, NextLevel, CrossReady, SessionReady, Hint, PushAll, PrunedTimes, VoiceClusters,
         ReporterUids, FreshHits, ReporterOverturned;
    NotOverturned(r.s.book, hit.reporterUid);
    OffenseShape(r.s, target, hit, UNGUARDED, now);
    if |r.log| % 2 == 1 {
      SecondBansIff(r.s, target, hit, hit, UNGUARDED, now);
    } else {
      FirstIsCounted(r.s, target, hit, UNGUARDED, now);
    }
  }

  /** Three bans by one reporter at one instant. */
  lemma {:induction false} SixHitsBanThrice(target: string, hit: Hit, now: nat, n: nat)
    requires BansAtOnce(hit, now) && n <= 6
    ensures Alternating(Run(Repeated(DoHit(target, hit, UNGUARDED, now), n)), target, hit)
  {
    hide Record, NewOffense, RateExceeded, Capped, Times, Timely, Alternating;
    if n == 0 {
      assert Alternating(START, target, hit) by { StartAlternates(target, hit); }
    } else {
      var op := DoHit(target, hit, UNGUARDED, now);
      var ops := Repeated(op, n - 1);
      var r := Run(ops);
      SixHitsBanThrice(target, hit, now, n - 1);
      TenAreAccepted(target, hit, UNGUARDED, now, n - 1);
      RepeatedNext(op, n);
      RefusedIff(ops, target, hit, UNGUARDED, now);
      FewTimes(r.log, 0, HitBy(hit.reporterUid));
      ExceededIffRefused(r.s, target, hit, UNGUARDED, now);
      TriggersAlternate(r, target, hit, now, 0);
      CappedIff(ops, hit, now);
      NextAlternates(r, target, hit, now);
    }
  }

  lemma StartAlternates(target: string, hit: Hit)
    ensures Alternating(START, target, hit)
  {}

  lemma RestartAlternates(r: RunState, target: string, hit: Hit)
    requires Alternating(r, target, hit) && |r.log| % 2 == 0
    ensures Alternating(r.(s := Restarted(r.s), boot := r.boot + 1), target, hit)
  {}

  lemma {:induction false} NoTimes(log: seq<Entry>, boot: nat, p: Entry -> bool)
    requires forall i: nat | i < |log| && log[i].boot == boot :: !p(log[i])
    ensures Times(log, boot, p) == []
    decreases |log|
  {
    if log != [] {
      NoTimes(log[..|log| - 1], boot, p);
    }
  }

  /** The hit that follows a run of nothing but itself. */
  lemma OneMore(r: RunState, target: string, hit: Hit, now: nat)
    requires OnlyHit(r.log, target, hit, now)
    ensures OnlyHit(r.log + [NewEntry(r, target, hit, UNGUARDED, now)], target, hit, now)
  {}

  /** After three bans, a restart and one more hit, the reporter is under every limit. */
  lemma {:induction false} FirstOfPairIsFree(ops: seq<BanOp>, target: string, hit: Hit, now: nat)
    requires Timely(ops) && Run(ops).clock <= now && |Run(ops).log| == 7 && Alternating(Run(ops), target, hit)
    requires forall i: nat | i < 6 :: Run(ops).log[i].boot != Run(ops).boot
    ensures !RateExceeded(Run(ops).s, hit, now) && !Capped(Run(ops).s, hit, now)
  {
    hide Record, NewOffense, RateExceeded, Capped, Times, Timely, Run;
    var r := Run(ops);
    FewTimes(r.log, r.boot, HitBy(hit.reporterUid));
    RefusedIff(ops, target, hit, UNGUARDED, now);
    ExceededIffRefused(r.s, target, hit, UNGUARDED, now);
    NoTimes(r.log, r.boot, TriggeredByUid(hit.reporterUid));
    NoTimes(r.log, r.boot, TriggeredByCluster(hit.reporterCluster));
    CappedIff(ops, hit, now);
  }

  /** Three bans use up the cap, but not after a restart: a reporter is behind four session-path bans at the same
      instant. */
  lemma {:induction false} RestartBreaksCap(target: string, hit: Hit, now: nat)
    requires BansAtOnce(hit, now)
    ensures var op := DoHit(target, hit, UNGUARDED, now);
            var six := Repeated(op, 6);
            var ops := six + [DoRestart] + [op] + [op];
            var log := Run(ops).log;
            && Capped(Run(six).s, hit, now)
            && Timely(ops) && |log| == 8 && OnlyHit(log, target, hit, now)
            && BansAlone(log[1]) && BansAlone(log[3]) && BansAlone(log[5]) && BansAlone(log[7])
  {
    hide Record, NewOffense, RateExceeded, Capped, Times, Alternating, OnlyHit, BansAlone, NewEntry;
    var op := DoHit(target, hit, UNGUARDED, now);
    var six := Repeated(op, 6);
    TenAreAccepted(target, hit, UNGUARDED, now, 6);
    SixHitsBanThrice(target, hit, now, 6);
    TriggersAlternate(Run(six), target, hit, now, 0);
    CappedIff(six, hit, now);
    RestartThenHit(six, op);
    var restarted := six + [DoRestart];
    var seven := restarted + [op];
    hide Run, Timely;
    RestartEndsQuotas(six, hit, now);
    RestartAlternates(Run(six), target, hit);
    NextAlternates(Run(restarted), target, hit, now);
    OneMore(Run(restarted), target, hit, now);
    ClockOf(Run(restarted), op);
    FirstOfPairIsFree(seven, target, hit, now);
    NextAlternates(Run(seven), target, hit, now);
    OneMore(Run(seven), target, hit, now);
    HitGoesOn(seven, op);
    BansAreThere(Run(seven + [op]), target, hit);
  }

  lemma ClockOf(r: RunState, op: BanOp)
    requires op.DoHit?
    ensures After(r, op).clock == op.now && After(r, op).boot == r.boot
  {
    hide Record, NewOffense;
  }

  lemma HitGoesOn(ops: seq<BanOp>, op: BanOp)
    requires Timely(ops) && op.DoHit? && Run(ops).clock <= op.now
    ensures Run(ops + [op]) == After(Run(ops), op) && Timely(ops + [op])
  {
    hide Record, NewOffense;
    assert (ops + [op])[..|ops|] == ops;
  }

  lemma BansAreThere(r: RunState, target: string, hit: Hit)
    requires Alternating(r, target, hit) && |r.log| == 8
    ensures BansAlone(r.log[1]) && BansAlone(r.log[3]) && BansAlone(r.log[5]) && BansAlone(r.log[7])
  {}
}
