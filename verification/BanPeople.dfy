/** Who a level of the auto-ban ledger takes (bridge/src/genital_ban.rs:18-20): clusters, and people only as long as
    each of them stays in one cluster. */
module BanPeople {
  import opened Wrappers
  import opened Sets
  import opened BanSpec
  import opened BanRuns
  import opened BanTheorems
  import opened BanEvidence
  import opened BanLadder
  import opened BanRestarts

  /** The reporters that sent an accepted hit on the target. */
  function HitUids(log: seq<Entry>, target: string): set<string> {
    set i: nat | i < |log| && log[i].target == target :: log[i].hit.reporterUid
  }

  /** All accepted hits of one reporter on the target come from one cluster. */
  ghost predicate Settled(log: seq<Entry>, target: string) {
    forall i: nat, j: nat | i < |log| && j < |log| && log[i].target == log[j].target == target ::
      log[i].hit.reporterUid == log[j].hit.reporterUid ==> log[i].hit.reporterCluster == log[j].hit.reporterCluster
  }

  /** The cluster of a reporter that hit the target. */
  ghost function HomeOf(log: seq<Entry>, target: string, uid: string): string {
    if i: nat :| i < |log| && log[i].target == target && log[i].hit.reporterUid == uid then log[i].hit.reporterCluster
    else ""
  }

  lemma {:induction false} FewerClustersThanPeople(log: seq<Entry>, target: string)
    requires Settled(log, target)
    ensures |HitClusters(log, target)| <= |HitUids(log, target)|
  {
    var home := (u: string) => HomeOf(log, target, u);
    forall c | c in HitClusters(log, target)
      ensures exists u | u in HitUids(log, target) :: home(u) == c
    {
      var i: nat :| i < |log| && log[i].target == target && log[i].hit.reporterCluster == c;
      assert log[i].hit.reporterUid in HitUids(log, target) && home(log[i].hit.reporterUid) == c;
    }
    ImageIsSmaller(HitClusters(log, target), HitUids(log, target), home);
  }

  /** When no reporter of the target changes clusters, a ban of level n needs accepted hits from n people. */
  lemma {:induction false} LevelNeedsPeople(ops: seq<BanOp>, target: string, hit: Hit, g: Guards, now: nat)
    requires Record(Run(ops).s, target, hit, g, now).1.Banned?
    requires Settled(Run(ops + [DoHit(target, hit, g, now)]).log, target)
    ensures Record(Run(ops).s, target, hit, g, now).1.ban.level <=
            |HitUids(Run(ops + [DoHit(target, hit, g, now)]).log, target)|
  {
    hide Record, Run, Settled, HitClusters, HitUids;
    LevelNeedsClusters(ops, target, hit, g, now);
    FewerClustersThanPeople(Run(ops + [DoHit(target, hit, g, now)]).log, target);
  }

  // One person who changes clusters.

  /** A detector hit of the person, stamped with the time at which it is recorded. */
  function HitFrom(uid: string, cluster: string, session: string, now: nat): Hit {
    Hit(uid, cluster, session, Detector, now)
  }

  function HitOp(target: string, uid: string, cluster: string, session: string, now: nat): BanOp {
    DoHit(target, HitFrom(uid, cluster, session, now), UNGUARDED, now)
  }

  /** Two confirmations in one session, the gap apart. */
  function Pair(target: string, uid: string, cluster: string, session: string, now: nat): seq<BanOp> {
    [HitOp(target, uid, cluster, session, now), HitOp(target, uid, cluster, session, now + MIN_HIT_GAP_MS)]
  }

  predicate OneReporter(log: seq<Entry>, uid: string) {
    forall i: nat | i < |log| :: log[i].hit.reporterUid == uid
  }

  /** Nothing keeps the person from banning the target: no pending hits, a short history, at most two bans. */
  ghost predicate Clear(ops: seq<BanOp>, target: string, uid: string, now: nat) {
    var r := Run(ops);
    && Timely(ops) && r.clock <= now && ListOf(r.s.hits, target) == [] && NothingOverturned(r.s.book)
    && |r.log| <= 4 && |Times(r.log, r.boot, TriggeredByUid(uid))| <= 2
  }

  lemma {:induction false} UnderLimits(ops: seq<BanOp>, target: string, hit: Hit, now: nat)
    requires Timely(ops) && Run(ops).clock <= now && |Run(ops).log| <= 5
    requires |Times(Run(ops).log, Run(ops).boot, TriggeredByUid(hit.reporterUid))| <= 2
    ensures !RateExceeded(Run(ops).s, hit, now) && !Capped(Run(ops).s, hit, now)
  {
    hide Record, RateExceeded, Capped, Times, Timely, Run;
    var r := Run(ops);
    FewTimes(r.log, r.boot, HitBy(hit.reporterUid));
    RefusedIff(ops, target, hit, UNGUARDED, now);
    ExceededIffRefused(r.s, target, hit, UNGUARDED, now);
    FewTimes(r.log, r.boot, TriggeredByCluster(hit.reporterCluster));
    CappedIff(ops, hit, now);
  }

  /** The first of a pair is counted. */
  lemma {:induction false} FirstOfPair(ops: seq<BanOp>, target: string, uid: string, c: string, session: string,
                                       now: nat)
    requires Clear(ops, target, uid, now)
    ensures var hit := HitFrom(uid, c, session, now);
            var r, r' := Run(ops), Run(ops + [HitOp(target, uid, c, session, now)]);
            && Timely(ops + [HitOp(target, uid, c, session, now)])
            && r'.clock == now && r'.boot == r.boot && r'.log == r.log + [Entry(r.boot, target, hit, now, None)]
            && ListOf(r'.s.hits, target) == [hit] && r'.s.book == r.s.book
            && Times(r'.log, r.boot, TriggeredByUid(uid)) == Times(r.log, r.boot, TriggeredByUid(uid))
  {
    hide Record, NewOffense, RateExceeded, Capped, Times, Timely, Run, PrunedTimes;
    var hit, op := HitFrom(uid, c, session, now), HitOp(target, uid, c, session, now);
    UnderLimits(ops, target, hit, now);
    FirstIsCounted(Run(ops).s, target, hit, UNGUARDED, now);
    HitGoesOn(ops, op);
    var e := Entry(Run(ops).boot, target, hit, now, None);
    TimesAppend(Run(ops).log, e, Run(ops).boot, TriggeredByUid(uid));
    var t := Times(Run(ops).log, Run(ops).boot, TriggeredByUid(uid));
    assert t + [] == t;
  }

  /** The second bans, and the target's book has one more offense, from that cluster. */
  lemma {:induction false} SecondOfPair(ops: seq<BanOp>, target: string, uid: string, c: string, session: string,
                                        now: nat)
    requires Clear(ops, target, uid, now)
    ensures var first, later := HitOp(target, uid, c, session, now), now + MIN_HIT_GAP_MS;
            var hit := HitFrom(uid, c, session, later);
            var w, r' := Run(ops + [first]), Run(ops + Pair(target, uid, c, session, now));
            var o := NewOffense(w.s, target, hit, UNGUARDED, later);
            && SoloBan(ops + [first], target, hit, UNGUARDED, later)
            && o.reporterClusters == [c] && o.at == later / 1000 && !o.overturned
            && r'.s.book == Run(ops).s.book[target := ListOf(Run(ops).s.book, target) + [o]]
            && Timely(ops + Pair(target, uid, c, session, now)) && r'.clock == later && r'.boot == Run(ops).boot
            && ListOf(r'.s.hits, target) == []
            && r'.log == w.log + [Entry(w.boot, target, hit, later, Some(o))] && |w.log| == |Run(ops).log| + 1
            && (OneReporter(Run(ops).log, uid) ==> OneReporter(r'.log, uid))
            && |Times(r'.log, r'.boot, TriggeredByUid(uid))|
               <= |Times(Run(ops).log, Run(ops).boot, TriggeredByUid(uid))| + 1
  {
    hide RateExceeded, Capped, Times, Timely, Run, PrunedTimes, NextLevel, CrossReady, SessionReady, Hint, PushAll,
         VoiceClusters, ReporterUids, FreshHits, ReporterOverturned;
    var later := now + MIN_HIT_GAP_MS;
    var first, op := HitOp(target, uid, c, session, now), HitOp(target, uid, c, session, later);
    var hit := HitFrom(uid, c, session, later);
    FirstOfPair(ops, target, uid, c, session, now);
    var before := ops + [first];
    var w := Run(before);
    UnderLimits(before, target, hit, later);
    NotOverturned(w.s.book, uid);
    SecondBansIff(w.s, target, HitFrom(uid, c, session, now), hit, UNGUARDED, later);
    OffenseShape(w.s, target, hit, UNGUARDED, later);
    HitGoesOn(before, op);
    assert before + [op] == ops + Pair(target, uid, c, session, now);
    TimesAppend(w.log, NewEntry(w, target, hit, UNGUARDED, later), w.boot, TriggeredByUid(uid));
  }

  lemma PairIsClear(ops: seq<BanOp>, target: string, uid: string, c: string, session: string, now: nat, next: nat)
    requires Clear(ops, target, uid, now) && now + MIN_HIT_GAP_MS <= next && |Run(ops).log| <= 2
    requires |Times(Run(ops).log, Run(ops).boot, TriggeredByUid(uid))| <= 1
    ensures Clear(ops + Pair(target, uid, c, session, now), target, uid, next)
  {
    hide Record, NewOffense, SoloBan, Run, Times, Timely, HitOp, Pair;
    SecondOfPair(ops, target, uid, c, session, now);
  }

  /** The offenses of the three bans, in order. */
  ghost predicate FromClusters(os: seq<Offense>, clusters: seq<string>, nowSecs: nat) {
    && |os| == |clusters|
    && forall i: nat | i < |os| :: os[i].reporterClusters == [clusters[i]] && LiveOffense(os[i], nowSecs)
  }

  lemma {:induction false} AllLive(os: seq<Offense>, nowSecs: nat)
    requires forall i: nat | i < |os| :: LiveOffense(os[i], nowSecs)
    ensures LiveOffenses(os, nowSecs) == os
    decreases |os|
  {
    hide LiveOffense;
    if os != [] {
      AllLive(os[..|os| - 1], nowSecs);
      assert os == os[..|os| - 1] + [os[|os| - 1]];
    }
  }

  lemma ThreeClustersArePermanent(os: seq<Offense>, a: string, b: string, c: string, nowSecs: nat)
    requires FromClusters(os, [a, b, c], nowSecs) && a != b && b != c && a != c
    ensures LadderOf(LiveOffenses(os, nowSecs)) == 3
  {
    hide LiveOffenses, LiveOffense;
    AllLive(os, nowSecs);
    assert os[0].reporterClusters[0] == a && os[1].reporterClusters[0] == b && os[2].reporterClusters[0] == c;
    assert {a, b, c} <= ClustersOf(os);
    SubsetIsSmaller({a, b, c}, ClustersOf(os));
  }

  /** One person, seen from three clusters, bans a target permanently in ten seconds: six confirmations in one session,
      each stamped with its own time, the gap apart. */
  lemma {:induction false} OnePersonClimbs(target: string, uid: string, session: string, a: string, b: string,
                                           c: string, t: nat)
    requires a != b && b != c && a != c
    ensures var ops := Pair(target, uid, a, session, t) + Pair(target, uid, b, session, t + 2 * MIN_HIT_GAP_MS)
                       + [HitOp(target, uid, c, session, t + 4 * MIN_HIT_GAP_MS)];
            var now := t + 5 * MIN_HIT_GAP_MS;
            var hit := HitFrom(uid, c, session, now);
            && Timely(ops) && OneReporter(Run(ops).log, uid) && SoloBan(ops, target, hit, UNGUARDED, now)
            && Record(Run(ops).s, target, hit, UNGUARDED, now).1.ban.permanent
  {
    hide Record, NewOffense, SoloBan, Run, Times, Timely, HitOp, Pair, LadderOf, LiveOffenses;
    var t2, t4, now := t + 2 * MIN_HIT_GAP_MS, t + 4 * MIN_HIT_GAP_MS, t + 5 * MIN_HIT_GAP_MS;
    var one := Pair(target, uid, a, session, t);
    var two := one + Pair(target, uid, b, session, t2);
    StartIsClear(target, uid, t);
    assert [] + one == one;
    SecondOfPair([], target, uid, a, session, t);
    PairIsClear([], target, uid, a, session, t, t2);
    SecondOfPair(one, target, uid, b, session, t2);
    PairIsClear(one, target, uid, b, session, t2, t4);
    SecondOfPair(two, target, uid, c, session, t4);
    FirstOfPair(two, target, uid, c, session, t4);
    var ops, hit := two + [HitOp(target, uid, c, session, t4)], HitFrom(uid, c, session, now);
    BanIsBanned(ops, target, hit, now);
    LevelIsLadder(Run(ops).s, target, hit, UNGUARDED, now);
    var o := NewOffense(Run(ops).s, target, hit, UNGUARDED, now);
    ThreeClustersArePermanent(ListOf(Run(ops).s.book, target) + [o], a, b, c, now / 1000);
  }

  lemma BanIsBanned(ops: seq<BanOp>, target: string, hit: Hit, now: nat)
    requires SoloBan(ops, target, hit, UNGUARDED, now)
    ensures Record(Run(ops).s, target, hit, UNGUARDED, now).1.Banned?
  {}

  lemma StartIsClear(target: string, uid: string, now: nat)
    ensures Clear([], target, uid, now) && Run([]) == START && OneReporter(Run([]).log, uid)
    ensures Times(Run([]).log, Run([]).boot, TriggeredByUid(uid)) == []
  {}
}
