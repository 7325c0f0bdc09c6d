/** The guarantees of the auto-ban ledger over every run (bridge/src/genital_ban.rs:9-20). */
module BanTheorems {
  import opened SlidingWindow
  import opened BanSpec
  import opened BanRuns

  // Quotas, within one boot of the hub.

  /** Any 11 accepted hits of one reporter span at least an hour. */
  lemma HitsAreRateLimited(ops: seq<BanOp>, boot: nat, uid: string, i: nat)
    requires Timely(ops) && i + REPORTER_RATE_PER_HOUR < |Times(Run(ops).log, boot, HitBy(uid))|
    ensures var t := Times(Run(ops).log, boot, HitBy(uid)); t[i + REPORTER_RATE_PER_HOUR] - t[i] >= HOUR_MS
  {
    hide Run, Times, Timely, Logged, RateTracked, UidTracked, ClusterTracked;
    RunIsOk(ops);
    var t := Times(Run(ops).log, boot, HitBy(uid));
    assert Spaced(t, REPORTER_RATE_PER_HOUR, HOUR_MS, NonStrict);
    assert Expired(t[i], t[i + REPORTER_RATE_PER_HOUR], HOUR_MS, NonStrict);
  }

  /** Any 4 session-path bans of one reporter span at least a day. */
  lemma SoloBansAreCappedByUid(ops: seq<BanOp>, boot: nat, uid: string, i: nat)
    requires Timely(ops) && i + REPORTER_BAN_CAP_24H < |Times(Run(ops).log, boot, SoloBy(uid))|
    ensures var t := Times(Run(ops).log, boot, SoloBy(uid)); t[i + REPORTER_BAN_CAP_24H] - t[i] >= DAY_MS
  {
    hide Run, Times, Timely, Logged, RateTracked, UidTracked, ClusterTracked;
    RunIsOk(ops);
    var t := Times(Run(ops).log, boot, SoloBy(uid));
    assert Spaced(t, REPORTER_BAN_CAP_24H, DAY_MS, NonStrict);
    assert Expired(t[i], t[i + REPORTER_BAN_CAP_24H], DAY_MS, NonStrict);
  }

  /** Any 7 session-path bans of one reporter cluster span at least a day. */
  lemma SoloBansAreCappedByCluster(ops: seq<BanOp>, boot: nat, c: string, i: nat)
    requires Timely(ops) && i + CLUSTER_BAN_CAP_24H < |Times(Run(ops).log, boot, SoloIn(c))|
    ensures var t := Times(Run(ops).log, boot, SoloIn(c)); t[i + CLUSTER_BAN_CAP_24H] - t[i] >= DAY_MS
  {
    hide Run, Times, Timely, Logged, RateTracked, UidTracked, ClusterTracked;
    RunIsOk(ops);
    var t := Times(Run(ops).log, boot, SoloIn(c));
    assert Spaced(t, CLUSTER_BAN_CAP_24H, DAY_MS, NonStrict);
    assert Expired(t[i], t[i + CLUSTER_BAN_CAP_24H], DAY_MS, NonStrict);
  }

  // When a quota is used up, exactly.

  /** The k-th last of the times lies inside the window. */
  predicate Full(t: seq<nat>, k: nat, now: nat, window: nat)
    requires k > 0
  {
    k <= |t| && Elapsed(now, t[|t| - k]) < window
  }

  /** A hit is refused exactly when its reporter had ten accepted hits in the last hour of this boot. */
  lemma {:induction false} RefusedIff(ops: seq<BanOp>, target: string, hit: Hit, g: Guards, now: nat)
    requires Timely(ops) && Run(ops).clock <= now
    ensures var r := Run(ops);
            Record(r.s, target, hit, g, now).1.Reject? <==>
            Full(Times(r.log, r.boot, HitBy(hit.reporterUid)), REPORTER_RATE_PER_HOUR, now, HOUR_MS)
  {
    hide Times, Timely, Logged, UidTracked, ClusterTracked, Quotas, Tracks, Pruned, CrossReady, SessionReady, SoloOk,
         NewOffense, Hint;
    RunIsOk(ops);
    var r, u := Run(ops), hit.reporterUid;
    hide Run;
    FullIff(ListOf(r.s.rate, u), Times(r.log, r.boot, HitBy(u)), r.clock, now, HOUR_MS, NonStrict,
            REPORTER_RATE_PER_HOUR);
  }

  /** The session path is capped exactly when the reporter was behind three bans, or the cluster behind six, in the last
      day of this boot. */
  lemma {:induction false} CappedIff(ops: seq<BanOp>, hit: Hit, now: nat)
    requires Timely(ops) && Run(ops).clock <= now
    ensures var r := Run(ops);
            Capped(r.s, hit, now) <==>
            || Full(Times(r.log, r.boot, TriggeredByUid(hit.reporterUid)), REPORTER_BAN_CAP_24H, now, DAY_MS)
            || Full(Times(r.log, r.boot, TriggeredByCluster(hit.reporterCluster)), CLUSTER_BAN_CAP_24H, now, DAY_MS)
  {
    hide Times, Timely, Logged, RateTracked, Quotas, Tracks, Pruned;
    RunIsOk(ops);
    var r, u, c := Run(ops), hit.reporterUid, hit.reporterCluster;
    hide Run;
    FullIff(ListOf(r.s.byUid, u), Times(r.log, r.boot, TriggeredByUid(u)), r.clock, now, DAY_MS, NonStrict,
            REPORTER_BAN_CAP_24H);
    FullIff(ListOf(r.s.byCluster, c), Times(r.log, r.boot, TriggeredByCluster(c)), r.clock, now, DAY_MS, NonStrict,
            CLUSTER_BAN_CAP_24H);
  }

  /** A restart ends every quota: right after it no reporter is over a limit. */
  lemma RestartEndsQuotas(ops: seq<BanOp>, hit: Hit, now: nat)
    ensures var s := Run(ops + [DoRestart]).s; !RateExceeded(s, hit, now) && !Capped(s, hit, now)
  {
    assert (ops + [DoRestart])[..|ops|] == ops;
  }
}
