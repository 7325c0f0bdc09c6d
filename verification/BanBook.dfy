/** What the book of offenses of the auto-ban ledger stands for, over every run: the bans of the history that neither an
    unban nor the time has taken back (bridge/src/genital_ban.rs:275-343). */
module BanBook {
  import opened Wrappers
  import opened BanSpec
  import opened BanRuns
  import opened BanLadder

  /** The offense that operation i of a run books against the target, if it bans it. */
  ghost function BanBy(ops: seq<BanOp>, target: string, i: nat): Option<Offense>
    requires i < |ops|
  {
    match ops[i]
    case DoHit(t, hit, g, now) =>
      var r := Run(ops[..i]);
      if t == target && Record(r.s, t, hit, g, now).1.Banned? then Some(NewOffense(r.s, t, hit, g, now)) else None
    case _ => None
  }

  /** The ban of the offense still ran at this time: bans of level 1 last a day, of level 2 a week, and those of level 3
      do not end. */
  predicate InForce(o: Offense, nowSecs: nat) {
    && (o.level <= 1 ==> nowSecs < o.at + 86_400)
    && (o.level == 2 ==> nowSecs < o.at + 604_800)
  }

  /** An admin unbanned the target after operation i, while the ban of the offense ran. */
  ghost predicate Pardoned(ops: seq<BanOp>, target: string, i: nat, o: Offense) {
    exists j: nat | i < j < |ops| ::
      ops[j].DoOverturn? && ops[j].target == target && InForce(o, ops[j].nowSecs)
  }

  /** The ban of operation i still weighs on the target: it is not pardoned and less than 180 days old. */
  ghost predicate Weighs(ops: seq<BanOp>, target: string, nowSecs: nat, i: nat) {
    && i < |ops| && BanBy(ops, target, i).Some?
    && !Pardoned(ops, target, i, BanBy(ops, target, i).value)
    && nowSecs < BanBy(ops, target, i).value.at + 180 * 86_400
  }

  /** The offense of operation i, if it weighs on the target. */
  ghost function Weight(ops: seq<BanOp>, target: string, nowSecs: nat, i: nat): seq<Offense> {
    if Weighs(ops, target, nowSecs, i) then [BanBy(ops, target, i).value] else []
  }

  /** The offenses of the first n operations that weigh on the target, oldest first. */
  ghost function WeighingBans(ops: seq<BanOp>, target: string, nowSecs: nat, n: nat): seq<Offense>
    requires n <= |ops|
  {
    if n == 0 then [] else WeighingBans(ops, target, nowSecs, n - 1) + Weight(ops, target, nowSecs, n - 1)
  }

  /** No garbage collection of the run looks beyond the given time. */
  ghost predicate CollectsBy(ops: seq<BanOp>, nowSecs: nat) {
    forall i: nat | i < |ops| && ops[i].DoGc? :: ops[i].nowSecs <= nowSecs
  }

  // An unban keeps, of the live offenses, those whose ban has run out.

  function NotRunning(os: seq<Offense>, nowSecs: nat): seq<Offense> {
    if os == [] then [] else
      var n := |os| - 1;
      NotRunning(os[..n], nowSecs) + if Running(os[n], nowSecs) then [] else [os[n]]
  }

  lemma NotRunningAppend(os: seq<Offense>, o: Offense, nowSecs: nat)
    ensures NotRunning(os + [o], nowSecs) == NotRunning(os, nowSecs) + if Running(o, nowSecs) then [] else [o]
  {
    assert (os + [o])[..|os|] == os;
  }

  lemma NotRunningOne(o: Offense, nowSecs: nat)
    ensures NotRunning([], nowSecs) == []
    ensures NotRunning([o], nowSecs) == if Running(o, nowSecs) then [] else [o]
  {
    NotRunningAppend([], o, nowSecs);
    assert [] + [o] == [o];
  }

  lemma {:induction false} OverturnedLive(os: seq<Offense>, early: nat, late: nat)
    ensures LiveOffenses(Overturned(os, early), late) == NotRunning(LiveOffenses(os, late), early)
    decreases |os|
  {
    if os != [] {
      hide Running;
      var n := |os| - 1;
      var marked, live := Overturned(os, early), LiveOffenses(os[..n], late);
      OverturnedLive(os[..n], early, late);
      assert marked[..n] == Overturned(os[..n], early);
      NotRunningAppend(live, os[n], early);
      assert live + [] == live;
    }
  }

  // Whether a ban weighs changes only with an unban.

  lemma BanByOfMore(ops: seq<BanOp>, op: BanOp, target: string, i: nat)
    requires i < |ops|
    ensures BanBy(ops + [op], target, i) == BanBy(ops, target, i)
  {
    hide Run, Record, NewOffense;
    assert (ops + [op])[..i] == ops[..i];
  }

  /** The operation unbans the target while the ban of the offense runs. */
  predicate Pardons(op: BanOp, target: string, o: Offense) {
    op.DoOverturn? && op.target == target && InForce(o, op.nowSecs)
  }

  lemma PardonedByMore(ops: seq<BanOp>, op: BanOp, target: string, i: nat, o: Offense)
    requires i < |ops|
    ensures Pardoned(ops + [op], target, i, o) <==> Pardoned(ops, target, i, o) || Pardons(op, target, o)
  {
    var all := ops + [op];
    assert all[|ops|] == op;
    assert forall j: nat | j < |ops| :: all[j] == ops[j];
  }

  lemma WeighsOfMore(ops: seq<BanOp>, op: BanOp, target: string, nowSecs: nat, i: nat)
    requires i < |ops|
    ensures Weighs(ops + [op], target, nowSecs, i) <==>
            Weighs(ops, target, nowSecs, i) && !Pardons(op, target, BanBy(ops, target, i).value)
  {
    hide BanBy, Pardoned, Pardons;
    BanByOfMore(ops, op, target, i);
    if BanBy(ops, target, i).Some? {
      PardonedByMore(ops, op, target, i, BanBy(ops, target, i).value);
    }
  }

  lemma RunningIsInForce(o: Offense, nowSecs: nat)
    ensures Running(o, nowSecs) <==> InForce(o, nowSecs)
  {}

  function AfterUnban(os: seq<Offense>, op: BanOp, target: string): seq<Offense> {
    if op.DoOverturn? && op.target == target then NotRunning(os, op.nowSecs) else os
  }

  lemma AfterUnbanOfSum(a: seq<Offense>, b: seq<Offense>, op: BanOp, target: string)
    requires |b| <= 1
    ensures AfterUnban(a + b, op, target) == AfterUnban(a, op, target) + AfterUnban(b, op, target)
  {
    hide NotRunning, Running;
    if op.DoOverturn? && op.target == target {
      NothingRuns(op.nowSecs);
      if b == [] {
        assert a + b == a;
      } else {
        NotRunningAppend(a, b[0], op.nowSecs);
        NotRunningOne(b[0], op.nowSecs);
        assert b == [b[0]];
        assert a + b == a + [b[0]];
      }
    }
  }

  lemma WeightOfMore(ops: seq<BanOp>, op: BanOp, target: string, nowSecs: nat, i: nat)
    requires i < |ops|
    ensures Weight(ops + [op], target, nowSecs, i) == AfterUnban(Weight(ops, target, nowSecs, i), op, target)
  {
    hide BanBy, Pardoned, Running, InForce;
    BanByOfMore(ops, op, target, i);
    WeighsOfMore(ops, op, target, nowSecs, i);
    if op.DoOverturn? && Weighs(ops, target, nowSecs, i) {
      RunningIsInForce(BanBy(ops, target, i).value, op.nowSecs);
      NotRunningOne(BanBy(ops, target, i).value, op.nowSecs);
    }
  }

  lemma NothingAfterUnban(op: BanOp, target: string)
    ensures AfterUnban([], op, target) == []
  {}

  lemma {:induction false} WeighingOfMore(ops: seq<BanOp>, op: BanOp, target: string, nowSecs: nat, n: nat)
    requires n <= |ops|
    ensures WeighingBans(ops + [op], target, nowSecs, n) ==
            AfterUnban(WeighingBans(ops, target, nowSecs, n), op, target)
  {
    hide Weight, AfterUnban, NotRunning;
    if n == 0 {
      NothingAfterUnban(op, target);
    } else {
      WeighingOfMore(ops, op, target, nowSecs, n - 1);
      WeightOfMore(ops, op, target, nowSecs, n - 1);
      AtMostOne(ops, target, nowSecs, n - 1);
      AfterUnbanOfSum(WeighingBans(ops, target, nowSecs, n - 1), Weight(ops, target, nowSecs, n - 1), op, target);
    }
  }

  lemma AtMostOne(ops: seq<BanOp>, target: string, nowSecs: nat, i: nat)
    ensures |Weight(ops, target, nowSecs, i)| <= 1
  {}

  // The last operation.

  lemma LastWeight(ops: seq<BanOp>, op: BanOp, target: string, nowSecs: nat)
    ensures var all := ops + [op];
            BanBy(all, target, |ops|) ==
            (match op
             case DoHit(t, hit, g, now) =>
               if t == target && Record(Run(ops).s, t, hit, g, now).1.Banned?
               then Some(NewOffense(Run(ops).s, t, hit, g, now)) else None
             case _ => None)
    ensures Weight(ops + [op], target, nowSecs, |ops|) ==
            match BanBy(ops + [op], target, |ops|)
            case None => []
            case Some(o) => if nowSecs < o.at + 180 * 86_400 then [o] else []
  {
    hide Run, Record, NewOffense;
    var all := ops + [op];
    assert all[|ops|] == op && all[..|ops|] == ops;
  }

  lemma NothingRuns(secs: nat)
    ensures NotRunning([], secs) == []
  {}

  /** What an operation does to the book of the target. */
  lemma StepBook(ops: seq<BanOp>, op: BanOp, target: string, nowSecs: nat)
    requires op.DoGc? ==> op.nowSecs <= nowSecs
    ensures LiveOffenses(ListOf(After(Run(ops), op).s.book, target), nowSecs) ==
            AfterUnban(LiveOffenses(ListOf(Run(ops).s.book, target), nowSecs), op, target)
            + Weight(ops + [op], target, nowSecs, |ops|)
  {
    hide CrossReady, SessionReady, SoloOk, RateExceeded, Hint, FreshHits, PushAll, Run, Weight, BanBy, LiveOffenses,
         NextLevel, Unexpired, Overturned, NotRunning;
    var os := ListOf(Run(ops).s.book, target);
    LastWeight(ops, op, target, nowSecs);
    NothingLives(nowSecs);
    match op
    case DoHit(t, hit, g, now) => LiveAppend(os, NewOffense(Run(ops).s, t, hit, g, now), nowSecs);
    case DoOverturn(t, secs) =>
      OverturnedLive(os, secs, nowSecs);
      NothingRuns(secs);
    case DoGc(secs) => UnexpiredKeepsLive(os, secs, nowSecs);
    case DoRestart =>
  }

  /** The live offenses in the book are the bans of the history that weigh on the target, whatever hits, unbans, garbage
      collections and restarts the run holds. */
  lemma {:induction false} BookIsHistory(ops: seq<BanOp>, target: string, nowSecs: nat)
    requires CollectsBy(ops, nowSecs)
    ensures LiveOffenses(ListOf(Run(ops).s.book, target), nowSecs) == WeighingBans(ops, target, nowSecs, |ops|)
    decreases |ops|
  {
    hide After, LiveOffenses, Weight, AfterUnban;
    if ops == [] {
      NothingLives(nowSecs);
    } else {
      var n := |ops| - 1;
      var before, op := ops[..n], ops[n];
      assert ops == before + [op];
      BookIsHistory(before, target, nowSecs);
      StepBook(before, op, target, nowSecs);
      WeighingOfMore(before, op, target, nowSecs, n);
    }
  }

  /** The clusters that some offenses name. */
  function NamedClusters(os: seq<Offense>): set<string> {
    set o, c | o in os && c in o.reporterClusters :: c
  }

  lemma NamedIsClusters(os: seq<Offense>)
    ensures NamedClusters(os) == ClustersOf(os)
  {
    forall c | c in NamedClusters(os)
      ensures c in ClustersOf(os)
    {
      var i: nat :| i < |os| && c in os[i].reporterClusters;
      var j: nat :| j < |os[i].reporterClusters| && os[i].reporterClusters[j] == c;
    }
    forall c | c in ClustersOf(os)
      ensures c in NamedClusters(os)
    {
      var i: nat, j: nat :| i < |os| && j < |os[i].reporterClusters| && os[i].reporterClusters[j] == c;
      assert os[i] in os && c in os[i].reporterClusters;
    }
  }

  /** The level of a ban is the least of three, the bans that weigh on the target with this one, and the distinct
      clusters that those name. */
  lemma {:induction false} LevelIsHistory(ops: seq<BanOp>, target: string, hit: Hit, g: Guards, now: nat)
    requires CollectsBy(ops, now / 1000)
    requires Record(Run(ops).s, target, hit, g, now).1.Banned?
    ensures var all := ops + [DoHit(target, hit, g, now)];
            var bans := WeighingBans(all, target, now / 1000, |all|);
            var level := Record(Run(ops).s, target, hit, g, now).1.ban.level;
            && level <= 3 && level <= |bans| && level <= |NamedClusters(bans)|
            && (level == 3 || level == |bans| || level == |NamedClusters(bans)|)
  {
    hide Record, NewOffense, WeighingBans, LiveOffenses, NamedClusters, ClustersOf;
    var all := ops + [DoHit(target, hit, g, now)];
    assert all[..|ops|] == ops;
    LevelIsLadder(Run(ops).s, target, hit, g, now);
    BookIsHistory(all, target, now / 1000);
    NamedIsClusters(WeighingBans(all, target, now / 1000, |all|));
  }

  /** Every ban that weighs on the target is in force at the time of the unban. */
  ghost predicate AllInForce(ops: seq<BanOp>, target: string, nowSecs: nat, secs: nat) {
    forall i: nat | Weighs(ops, target, nowSecs, i) :: InForce(BanBy(ops, target, i).value, secs)
  }

  lemma WeightInForce(ops: seq<BanOp>, target: string, nowSecs: nat, secs: nat, i: nat)
    requires AllInForce(ops, target, nowSecs, secs)
    ensures AfterUnban(Weight(ops, target, nowSecs, i), DoOverturn(target, secs), target) == []
  {
    hide BanBy, Running, InForce, Pardoned;
    NothingRuns(secs);
    if Weighs(ops, target, nowSecs, i) {
      RunningIsInForce(BanBy(ops, target, i).value, secs);
      NotRunningOne(BanBy(ops, target, i).value, secs);
    }
  }

  lemma {:induction false} NothingStays(ops: seq<BanOp>, target: string, nowSecs: nat, secs: nat, n: nat)
    requires n <= |ops| && AllInForce(ops, target, nowSecs, secs)
    ensures AfterUnban(WeighingBans(ops, target, nowSecs, n), DoOverturn(target, secs), target) == []
  {
    hide AllInForce, Weight, AfterUnban;
    if n == 0 {
      NothingAfterUnban(DoOverturn(target, secs), target);
    } else {
      NothingStays(ops, target, nowSecs, secs, n - 1);
      WeightInForce(ops, target, nowSecs, secs, n - 1);
      AtMostOne(ops, target, nowSecs, n - 1);
      AfterUnbanOfSum(WeighingBans(ops, target, nowSecs, n - 1), Weight(ops, target, nowSecs, n - 1),
                      DoOverturn(target, secs), target);
    }
  }

  lemma {:induction false} UnbanClears(ops: seq<BanOp>, target: string, secs: nat, nowSecs: nat)
    requires CollectsBy(ops, nowSecs) && AllInForce(ops, target, nowSecs, secs)
    ensures LiveOffenses(ListOf(Run(ops + [DoOverturn(target, secs)]).s.book, target), nowSecs) == []
  {
    hide After, Weight, BanBy, LiveOffenses, AfterUnban, AllInForce, WeighingBans;
    var op := DoOverturn(target, secs);
    assert (ops + [op])[..|ops|] == ops;
    BookIsHistory(ops, target, nowSecs);
    NothingStays(ops, target, nowSecs, secs, |ops|);
    StepBook(ops, op, target, nowSecs);
    LastWeight(ops, op, target, nowSecs);
  }

  /** Once an unban finds every ban that weighs on the target in force, the next ban has level 1 again. */
  lemma {:induction false} UnbanStartsOver(ops: seq<BanOp>, target: string, secs: nat, hit: Hit, g: Guards, now: nat)
    requires CollectsBy(ops, now / 1000) && AllInForce(ops, target, now / 1000, secs)
    requires Record(Run(ops + [DoOverturn(target, secs)]).s, target, hit, g, now).1.Banned?
    ensures Record(Run(ops + [DoOverturn(target, secs)]).s, target, hit, g, now).1.ban.level == 1
  {
    hide Record, NewOffense, LadderOf, LiveOffenses, Run, AllInForce, CollectsBy;
    var r := Run(ops + [DoOverturn(target, secs)]);
    var os, o := ListOf(r.s.book, target), NewOffense(r.s, target, hit, g, now);
    UnbanClears(ops, target, secs, now / 1000);
    LevelIsLadder(r.s, target, hit, g, now);
    LiveAppend(os, o, now / 1000);
    LadderAtMost(LiveOffenses(os + [o], now / 1000));
  }

  lemma LadderAtMost(live: seq<Offense>)
    ensures LadderOf(live) <= |live|
  {}

  /** The offenses an unban marks. */
  function InForceNow(os: seq<Offense>, nowSecs: nat): set<nat> {
    set i: nat | i < |os| && !os[i].overturned && InForce(os[i], nowSecs)
  }

  /** An unban answers how many offenses it marks. */
  lemma {:induction false} MarkedIs(os: seq<Offense>, nowSecs: nat)
    ensures MarkedBy(os, nowSecs) == |InForceNow(os, nowSecs)|
    decreases |os|
  {
    if os == [] {
      assert InForceNow(os, nowSecs) == {};
    } else {
      hide Running, InForce;
      var n := |os| - 1;
      MarkedIs(os[..n], nowSecs);
      RunningIsInForce(os[n], nowSecs);
      LastInForce(os, nowSecs);
      hide InForceNow;
    }
  }

  lemma LastInForce(os: seq<Offense>, nowSecs: nat)
    requires os != []
    ensures var n := |os| - 1;
            && n !in InForceNow(os[..n], nowSecs)
            && InForceNow(os, nowSecs) ==
               InForceNow(os[..n], nowSecs) + if !os[n].overturned && InForce(os[n], nowSecs) then {n} else {}
  {
    hide InForce;
  }
}
