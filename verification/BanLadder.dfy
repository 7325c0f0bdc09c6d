/** The escalation ladder of the auto-ban ledger over every run (bridge/src/genital_ban.rs:18-20, 281-317). */
module BanLadder {
  import opened Sets
  import opened Order
  import opened BanSpec
  import opened BanRuns
  import opened BanEvidence

  /** The ladder position that the live offenses of a target amount to. */
  function LadderOf(live: seq<Offense>): nat {
    Min(3, Min(|live|, |ClustersOf(live)|))
  }

  lemma NewOffenseHasClusters(s: BanState, target: string, hit: Hit, g: Guards, now: nat)
    ensures NewOffense(s, target, hit, g, now).reporterClusters != []
  {
    hide NextLevel;
    var list := Evidence(s, target, hit, now);
    if CrossReady(list, hit, g) {
      var v := VoiceClusters(list, hit, g);
      var c :| c in v;
      assert c in SortedKeys(v);
    }
  }

  /** A ban's level is the ladder position of the target's live offenses, this one included. */
  lemma {:induction false} LevelIsLadder(s: BanState, target: string, hit: Hit, g: Guards, now: nat)
    requires Record(s, target, hit, g, now).1.Banned?
    ensures var (s', d) := Record(s, target, hit, g, now);
            var o := NewOffense(s, target, hit, g, now);
            && target in s'.book && s'.book[target] == ListOf(s.book, target) + [o]
            && d.ban.level == o.level == LadderOf(LiveOffenses(s'.book[target], now / 1000))
            && 1 <= d.ban.level <= 3
            && (d.ban.permanent <==> d.ban.level == 3)
            && (d.ban.permanent ==> d.ban.secs == 0)
            && (d.ban.level == 1 ==> d.ban.secs == 24 * 3600) && (d.ban.level == 2 ==> d.ban.secs == 7 * 24 * 3600)
  {
    hide CrossReady, SessionReady, SoloOk, RateExceeded, Hint, VoiceClusters, ReporterUids, FreshHits, PushAll,
         ClustersOf;
    var o := NewOffense(s, target, hit, g, now);
    var os, t := ListOf(s.book, target), now / 1000;
    var live := LiveOffenses(os, t);
    OffenseShape(s, target, hit, g, now);
    NewOffenseHasClusters(s, target, hit, g, now);
    assert (os + [o])[..|os|] == os;
    assert LiveOffenses(os + [o], t) == live + [o];
    ClustersOfSnoc(live, o);
    NonemptyElements(o.reporterClusters, ClustersOf(live));
    assert ClustersOf(live + [o]) == Elements(o.reporterClusters) + ClustersOf(live);
  }

  lemma NonemptyElements(keys: seq<string>, rest: set<string>)
    requires keys != []
    ensures |Elements(keys) + rest| >= 1
  {
    assert keys[0] in Elements(keys) + rest;
  }

  // Who stands behind a level.

  /** The clusters that sent an accepted hit on the target. */
  function HitClusters(log: seq<Entry>, target: string): set<string> {
    set i: nat | i < |log| && log[i].target == target :: log[i].hit.reporterCluster
  }

  /** Every offense in the book rests on accepted hits from each of its clusters. */
  ghost predicate BookIsBacked(r: RunState) {
    forall t | t in r.s.book :: ClustersOf(r.s.book[t]) <= HitClusters(r.log, t)
  }

  ghost predicate HitsAreLogged(r: RunState) {
    forall t, h | h in ListOf(r.s.hits, t) :: h.reporterCluster in HitClusters(r.log, t)
  }

  lemma NewClustersAreBacked(r: RunState, target: string, hit: Hit, g: Guards, now: nat)
    requires HitsAreLogged(r)
    ensures Elements(NewOffense(r.s, target, hit, g, now).reporterClusters) <=
            HitClusters(r.log, target) + {hit.reporterCluster}
  {
    hide NextLevel, CrossReady, FreshHits, HitClusters;
    var pending := ListOf(r.s.hits, target);
    FreshHitsShrink(pending, now);
    var list := Evidence(r.s, target, hit, now);
    forall c | c in VoiceClusters(list, hit, g)
      ensures c in HitClusters(r.log, target) + {hit.reporterCluster}
    {
      var i: nat :| i < |list| && HasVoice(list[i], hit, g) && list[i].reporterCluster == c;
      if i < |list| - 1 {
        assert list[i] in FreshHits(pending, now);
        assert list[i] in pending;
      }
    }
  }

  lemma HitClustersAppend(log: seq<Entry>, e: Entry, t: string)
    ensures HitClusters(log + [e], t) == HitClusters(log, t) + if e.target == t then {e.hit.reporterCluster} else {}
  {
    var all := log + [e];
    assert all[|log|] == e;
    assert forall i: nat | i < |log| :: all[i] == log[i];
  }

  lemma HitKeepsBacked(r: RunState, target: string, hit: Hit, g: Guards, now: nat)
    requires BookIsBacked(r) && HitsAreLogged(r)
    ensures var r' := After(r, DoHit(target, hit, g, now)); BookIsBacked(r') && HitsAreLogged(r')
  {
    hide CrossReady, SessionReady, SoloOk, RateExceeded, Hint, NewOffense, NextLevel, FreshHits, ClustersOf,
         HitClusters, PushAll;
    var o := NewOffense(r.s, target, hit, g, now);
    if !RateExceeded(r.s, hit, now) {
      NewClustersAreBacked(r, target, hit, g, now);
      ClustersOfSnoc(ListOf(r.s.book, target), o);
      FreshHitsShrink(ListOf(r.s.hits, target), now);
      NoClusters();
      forall t
        ensures var e := NewEntry(r, target, hit, g, now);
                HitClusters(r.log + [e], t)
                == HitClusters(r.log, t) + if e.target == t then {e.hit.reporterCluster} else {}
      {
        HitClustersAppend(r.log, NewEntry(r, target, hit, g, now), t);
      }
    }
  }

  lemma NoClusters()
    ensures ClustersOf([]) == {}
  {}

  lemma {:induction false} OverturnedKeepsClusters(os: seq<Offense>, nowSecs: nat)
    ensures ClustersOf(Overturned(os, nowSecs)) == ClustersOf(os)
  {
    var r := Overturned(os, nowSecs);
    assert forall i: nat | i < |os| :: r[i].reporterClusters == os[i].reporterClusters;
  }

  lemma {:induction false} UnexpiredKeepsClusters(os: seq<Offense>, nowSecs: nat)
    ensures ClustersOf(Unexpired(os, nowSecs)) <= ClustersOf(os)
    decreases |os|
  {
    hide ClustersOf;
    if os != [] {
      var n := |os| - 1;
      UnexpiredKeepsClusters(os[..n], nowSecs);
      ClustersOfSnoc(os[..n], os[n]);
      ClustersOfSnoc(Unexpired(os[..n], nowSecs), os[n]);
      assert os == os[..n] + [os[n]];
      assert Unexpired(os[..n], nowSecs) + [] == Unexpired(os[..n], nowSecs);
    }
  }

  lemma {:induction false} RunIsBacked(ops: seq<BanOp>)
    ensures BookIsBacked(Run(ops)) && HitsAreLogged(Run(ops))
    decreases |ops|
  {
    hide Record, NewOffense, ClustersOf, HitClusters, Overturned, Unexpired;
    if ops != [] {
      var r, op := Run(ops[..|ops| - 1]), ops[|ops| - 1];
      RunIsBacked(ops[..|ops| - 1]);
      match op
      case DoHit(target, hit, g, now) => HitKeepsBacked(r, target, hit, g, now);
      case DoOverturn(target, nowSecs) => OverturnedKeepsClusters(ListOf(r.s.book, target), nowSecs);
      case DoGc(nowSecs) =>
        forall t | t in r.s.book
          ensures ClustersOf(Unexpired(r.s.book[t], nowSecs)) <= ClustersOf(r.s.book[t])
        {
          UnexpiredKeepsClusters(r.s.book[t], nowSecs);
        }
      case DoRestart =>
    }
  }

  lemma {:induction false} LiveClusters(os: seq<Offense>, nowSecs: nat)
    ensures ClustersOf(LiveOffenses(os, nowSecs)) <= ClustersOf(os)
    decreases |os|
  {
    hide ClustersOf;
    if os != [] {
      var n := |os| - 1;
      LiveClusters(os[..n], nowSecs);
      ClustersOfSnoc(os[..n], os[n]);
      ClustersOfSnoc(LiveOffenses(os[..n], nowSecs), os[n]);
      assert os == os[..n] + [os[n]];
      assert LiveOffenses(os[..n], nowSecs) + [] == LiveOffenses(os[..n], nowSecs);
    }
  }

  /** A ban of level n needs accepted hits on the target from n distinct clusters: one cluster alone never gets
      anyone past level 1, and a permanent ban takes three. Restarts do not weaken this. */
  lemma {:induction false} LevelNeedsClusters(ops: seq<BanOp>, target: string, hit: Hit, g: Guards, now: nat)
    requires Record(Run(ops).s, target, hit, g, now).1.Banned?
    ensures Record(Run(ops).s, target, hit, g, now).1.ban.level <=
            |HitClusters(Run(ops + [DoHit(target, hit, g, now)]).log, target)|
  {
    hide CrossReady, SessionReady, SoloOk, RateExceeded, Hint, NewOffense, NextLevel, FreshHits, ClustersOf,
         HitClusters, PushAll, LiveOffenses;
    var op := DoHit(target, hit, g, now);
    var r' := Run(ops + [op]);
    assert (ops + [op])[..|ops|] == ops;
    LevelIsLadder(Run(ops).s, target, hit, g, now);
    RunIsBacked(ops + [op]);
    LiveClusters(r'.s.book[target], now / 1000);
    SubsetIsSmaller(ClustersOf(LiveOffenses(r'.s.book[target], now / 1000)), HitClusters(r'.log, target));
  }

  // Levels never fall without an overturn or an expiry.

  /** The operation neither unbans the target nor looks beyond the given time. */
  predicate Harmless(op: BanOp, target: string, nowSecs: nat) {
    match op
    case DoHit(_, _, _, now) => now / 1000 <= nowSecs
    case DoOverturn(t, _) => t != target
    case DoGc(t) => t <= nowSecs
    case DoRestart => true
  }

  lemma {:induction false} UnexpiredKeepsLive(os: seq<Offense>, early: nat, late: nat)
    requires early <= late
    ensures LiveOffenses(Unexpired(os, early), late) == LiveOffenses(os, late)
    decreases |os|
  {
    if os != [] {
      var n := |os| - 1;
      var u := Unexpired(os[..n], early);
      UnexpiredKeepsLive(os[..n], early, late);
      assert (u + [os[n]])[..|u|] == u && u + [] == u;
    }
  }

  lemma LiveAppend(os: seq<Offense>, o: Offense, nowSecs: nat)
    ensures LiveOffenses(os + [o], nowSecs) == LiveOffenses(os, nowSecs) + if LiveOffense(o, nowSecs) then [o] else []
  {
    assert (os + [o])[..|os|] == os;
  }

  lemma StepExtendsLive(r: RunState, op: BanOp, target: string, nowSecs: nat)
    requires Harmless(op, target, nowSecs)
    ensures LiveOffenses(ListOf(r.s.book, target), nowSecs) <= LiveOffenses(ListOf(After(r, op).s.book, target),
                                                                            nowSecs)
  {
    hide CrossReady, SessionReady, SoloOk, RateExceeded, Hint, NewOffense, NextLevel, FreshHits, PushAll, LiveOffenses,
         Unexpired, Overturned;
    var os := ListOf(r.s.book, target);
    match op
    case DoHit(t, hit, g, now) => LiveAppend(os, NewOffense(r.s, t, hit, g, now), nowSecs);
    case DoOverturn(_, _) =>
    case DoGc(t) =>
      UnexpiredKeepsLive(os, t, nowSecs);
      NothingLives(nowSecs);
    case DoRestart =>
  }

  lemma NothingLives(nowSecs: nat)
    ensures LiveOffenses([], nowSecs) == [] == Unexpired([], nowSecs)
  {}

  lemma {:induction false} RunExtendsLive(ops: seq<BanOp>, more: seq<BanOp>, target: string, nowSecs: nat)
    requires forall i: nat | i < |more| :: Harmless(more[i], target, nowSecs)
    ensures LiveOffenses(ListOf(Run(ops).s.book, target), nowSecs) <=
            LiveOffenses(ListOf(Run(ops + more).s.book, target), nowSecs)
    decreases |more|
  {
    hide After, LiveOffenses;
    if more == [] {
      assert ops + more == ops;
    } else {
      var n := |more| - 1;
      var all := ops + more;
      assert all[..|all| - 1] == ops + more[..n];
      RunExtendsLive(ops, more[..n], target, nowSecs);
      StepExtendsLive(Run(ops + more[..n]), more[n], target, nowSecs);
    }
  }

  /** No live offense at the earlier time has expired by the later one. */
  ghost predicate NoneExpires(os: seq<Offense>, early: nat, late: nat) {
    forall o | o in LiveOffenses(os, early) :: LiveOffense(o, late)
  }

  lemma {:induction false} SameLive(os: seq<Offense>, early: nat, late: nat)
    requires early <= late && NoneExpires(os, early, late)
    ensures LiveOffenses(os, early) == LiveOffenses(os, late)
    decreases |os|
  {
    if os != [] {
      var n := |os| - 1;
      SameLive(os[..n], early, late);
      assert LiveOffense(os[n], early) ==> os[n] in LiveOffenses(os, early);
    }
  }

  lemma LadderMonotone(a: seq<Offense>, b: seq<Offense>)
    requires a <= b
    ensures LadderOf(a) <= LadderOf(b)
  {
    assert ClustersOf(a) <= ClustersOf(b) by {
      assert forall i: nat | i < |a| :: a[i] == b[i];
    }
    SubsetIsSmaller(ClustersOf(a), ClustersOf(b));
  }

  /** Between two bans of a target, as long as no admin unban touched it and none of its live offenses expired,
      the level does not fall, whatever hits, garbage collections and restarts come in between. */
  lemma {:induction false} LevelsNeverFall(ops: seq<BanOp>, first: BanOp, more: seq<BanOp>, second: BanOp,
                                           target: string)
    requires first.DoHit? && second.DoHit? && first.target == target && second.target == target
    requires first.now <= second.now
    requires forall i: nat | i < |more| :: Harmless(more[i], target, second.now / 1000)
    requires Record(Run(ops).s, target, first.hit, first.guards, first.now).1.Banned?
    requires Record(Run(ops + [first] + more).s, target, second.hit, second.guards, second.now).1.Banned?
    requires NoneExpires(ListOf(Run(ops + [first]).s.book, target), first.now / 1000, second.now / 1000)
    ensures Record(Run(ops).s, target, first.hit, first.guards, first.now).1.ban.level <=
            Record(Run(ops + [first] + more).s, target, second.hit, second.guards, second.now).1.ban.level
  {
    hide Record, NewOffense, LadderOf, LiveOffenses, NoneExpires;
    var t1, t2 := first.now / 1000, second.now / 1000;
    assert (ops + [first])[..|ops|] == ops;
    var os1 := ListOf(Run(ops + [first]).s.book, target);
    var before := ops + [first] + more;
    var os := ListOf(Run(before).s.book, target);
    LevelIsLadder(Run(ops).s, target, first.hit, first.guards, first.now);
    LevelIsLadder(Run(before).s, target, second.hit, second.guards, second.now);
    SameLive(os1, t1, t2);
    RunExtendsLive(ops + [first], more, target, t2);
    LiveAppend(os, NewOffense(Run(before).s, target, second.hit, second.guards, second.now), t2);
    LadderMonotone(LiveOffenses(os1, t2),
                   LiveOffenses(os + [NewOffense(Run(before).s, target, second.hit, second.guards, second.now)], t2));
  }
}
