/** When a hit bans, over every run of the auto-ban ledger (bridge/src/genital_ban.rs:9-18, 195-292): exactly when the
    history of accepted hits holds the evidence, and whom the offense names. */
module BanDecisions {
  import opened BanSpec
  import opened BanRuns
  import opened BanTheorems
  import opened BanEvidence

  // The pending hits are all the unspent ones, as long as they are fresh.

  ghost predicate KeepsUnspent(r: RunState) {
    forall t, i: nat | Unspent(r.log, r.boot, t, i) && FreshHit(r.log[i].hit, r.clock) ::
      r.log[i].hit in ListOf(r.s.hits, t)
  }

  lemma {:induction false} FreshHitsKeep(hits: seq<Hit>, now: nat, h: Hit)
    requires h in hits && FreshHit(h, now)
    ensures h in FreshHits(hits, now)
    decreases |hits|
  {
    var n := |hits| - 1;
    if h in hits[..n] {
      FreshHitsKeep(hits[..n], now, h);
    } else {
      assert hits == hits[..n] + [hits[n]];
    }
  }

  lemma FreshEarlier(h: Hit, early: nat, late: nat)
    requires early <= late && FreshHit(h, late)
    ensures FreshHit(h, early)
  {}

  lemma UnspentBefore(log: seq<Entry>, e: Entry, boot: nat, t: string, i: nat)
    requires Unspent(log + [e], boot, t, i) && i < |log|
    ensures Unspent(log, boot, t, i) && (e.target == t ==> e.offense.None?)
  {
    assert (log + [e])[|log|] == e;
    assert forall j: nat | j < |log| :: (log + [e])[j] == log[j];
  }

  lemma {:induction false} AcceptedKeepsUnspent(r: RunState, target: string, hit: Hit, g: Guards, now: nat)
    requires KeepsUnspent(r) && r.clock <= now && !RateExceeded(r.s, hit, now)
    ensures KeepsUnspent(After(r, DoHit(target, hit, g, now)))
  {
    hide CrossReady, SessionReady, SoloOk, RateExceeded, NewOffense, NextLevel, Hint, FreshHits, FreshHit;
    var r' := After(r, DoHit(target, hit, g, now));
    var e := NewEntry(r, target, hit, g, now);
    forall t, i: nat | Unspent(r'.log, r'.boot, t, i) && FreshHit(r'.log[i].hit, now)
      ensures r'.log[i].hit in ListOf(r'.s.hits, t)
    {
      InLog(r'.log, r'.boot, t, i);
      if i < |r.log| {
        UnspentBefore(r.log, e, r.boot, t, i);
        FreshEarlier(r.log[i].hit, r.clock, now);
        FreshOfList(r, target, t, now, r.log[i].hit);
      }
    }
  }

  lemma InLog(log: seq<Entry>, boot: nat, t: string, i: nat)
    requires Unspent(log, boot, t, i)
    ensures i < |log| && log[i].target == t && log[i].boot == boot && log[i].offense.None?
  {}

  lemma FreshOfList(r: RunState, target: string, t: string, now: nat, h: Hit)
    requires h in ListOf(r.s.hits, t) && FreshHit(h, now)
    ensures t == target ==> h in FreshHits(ListOf(r.s.hits, target), now)
  {
    hide FreshHits, FreshHit;
    if t == target {
      FreshHitsKeep(ListOf(r.s.hits, t), now, h);
    }
  }

  lemma RefusedKeepsUnspent(r: RunState, target: string, hit: Hit, g: Guards, now: nat)
    requires KeepsUnspent(r) && r.clock <= now && RateExceeded(r.s, hit, now)
    ensures KeepsUnspent(After(r, DoHit(target, hit, g, now)))
  {
    hide RateExceeded, PrunedTimes;
    var r' := After(r, DoHit(target, hit, g, now));
    assert r'.log == r.log && r'.s.hits == r.s.hits && r'.clock == now && r'.boot == r.boot;
    forall t, i: nat | Unspent(r.log, r.boot, t, i) && FreshHit(r.log[i].hit, now)
      ensures r.log[i].hit in ListOf(r.s.hits, t)
    {
      FreshEarlier(r.log[i].hit, r.clock, now);
    }
  }

  lemma {:induction false} RunKeepsUnspent(ops: seq<BanOp>)
    requires Timely(ops)
    ensures KeepsUnspent(Run(ops))
    decreases |ops|
  {
    hide Record, NewOffense, RateExceeded, KeepsUnspent;
    if ops == [] {
      NothingUnspent();
    } else {
      var n := |ops| - 1;
      var r, op := Run(ops[..n]), ops[n];
      RunKeepsUnspent(ops[..n]);
      match op
      case DoHit(target, hit, g, now) =>
        if RateExceeded(r.s, hit, now) {
          RefusedKeepsUnspent(r, target, hit, g, now);
        } else {
          AcceptedKeepsUnspent(r, target, hit, g, now);
        }
      case DoOverturn(_, _) => BookKeepsUnspent(r, After(r, op));
      case DoGc(_) => BookKeepsUnspent(r, After(r, op));
      case DoRestart =>
        RunIsOk(ops[..n]);
        RestartSpendsAll(r);
    }
  }

  lemma NothingUnspent()
    ensures KeepsUnspent(START)
  {}

  lemma BookKeepsUnspent(r: RunState, r': RunState)
    requires KeepsUnspent(r) && r' == r.(s := r.s.(book := r'.s.book))
    ensures KeepsUnspent(r')
  {}

  lemma RestartSpendsAll(r: RunState)
    requires Ok(r)
    ensures KeepsUnspent(After(r, DoRestart))
  {
    hide RateTracked, UidTracked, ClusterTracked, Quotas;
    assert Logged(r);
  }

  // The decision.

  /** The list a decision looks at holds the new hit and every unspent fresh one. */
  lemma {:induction false} EvidenceIsBehind(ops: seq<BanOp>, target: string, hit: Hit, now: nat, h: Hit)
    requires Timely(ops) && Run(ops).clock <= now
    ensures h in Evidence(Run(ops).s, target, hit, now) <==> Behind(Run(ops), target, hit, now, h)
  {
    hide Run, Timely, FreshHits, FreshHit;
    var r := Run(ops);
    if h in FreshHits(ListOf(r.s.hits, target), now) {
      RecentIsLogged(ops, target, now, h);
    }
    if h != hit && Behind(r, target, hit, now, h) {
      var i: nat :| FreshEntry(r, target, now, i) && r.log[i].hit == h;
      RunKeepsUnspent(ops);
      FreshEarlier(h, r.clock, now);
      FreshHitsKeep(ListOf(r.s.hits, target), now, h);
    }
  }

  // What the evidence is, in terms of the history of hits.

  /** Entry i still counts: it is a hit on the target in this boot, under 30 minutes old, and neither it nor a later one
      banned the target. */
  ghost predicate StillCounts(r: RunState, target: string, now: nat, i: nat) {
    && i < |r.log| && r.log[i].boot == r.boot && r.log[i].target == target
    && now < r.log[i].hit.atMs + 30 * 60 * 1000
    && forall j: nat | i <= j < |r.log| && r.log[j].target == target :: r.log[j].offense.None?
  }

  /** The hit is the new one, or one that still counts. */
  ghost predicate OnTheTable(r: RunState, target: string, hit: Hit, now: nat, h: Hit) {
    h == hit || exists i: nat :: StillCounts(r, target, now, i) && r.log[i].hit == h
  }

  /** On the cross path a reporter the target has reported back has no voice. */
  predicate MayBeHeard(h: Hit, hit: Hit, g: Guards) {
    g.mutualFeud ==> h.reporterUid != hit.reporterUid
  }

  /** Two hits that may be heard come from different clusters, and one of them is from the detector. */
  ghost predicate CrossEvidence(r: RunState, target: string, hit: Hit, g: Guards, now: nat) {
    exists a, b | OnTheTable(r, target, hit, now, a) && OnTheTable(r, target, hit, now, b) ::
      && MayBeHeard(a, hit, g) && MayBeHeard(b, hit, g)
      && a.kind == Detector && a.reporterCluster != b.reporterCluster
  }

  /** Entry i still counts, and is a detector hit of the new hit's reporter and session. */
  ghost predicate Confirms(r: RunState, target: string, hit: Hit, now: nat, i: nat) {
    && StillCounts(r, target, now, i) && r.log[i].hit.kind == Detector
    && r.log[i].hit.reporterUid == hit.reporterUid && r.log[i].hit.sessionId == hit.sessionId
  }

  /** The new hit is from the detector, a hit that still counts confirms it, and the new one or a confirming one is at
      least two seconds old. */
  ghost predicate SessionEvidence(r: RunState, target: string, hit: Hit, now: nat) {
    && hit.kind == Detector && (exists i: nat :: Confirms(r, target, hit, now, i))
    && (hit.atMs + 2_000 <= now
        || exists i: nat :: Confirms(r, target, hit, now, i) && r.log[i].hit.atMs + 2_000 <= now)
  }

  /** The reporter may ban alone: the target is neither senior nor at feud with the reporter, no overturned offense
      lists the reporter, and neither the reporter nor the cluster has used up the bans of the last day of this boot. */
  ghost predicate MayBanAlone(r: RunState, hit: Hit, g: Guards, now: nat) {
    && !g.targetSenior && !g.mutualFeud
    && (forall t, i: nat | t in r.s.book && i < |r.s.book[t]| && r.s.book[t][i].overturned ::
          hit.reporterUid !in r.s.book[t][i].reporterUids)
    && !Full(Times(r.log, r.boot, TriggeredByUid(hit.reporterUid)), 3, now, 24 * 3600 * 1000)
    && !Full(Times(r.log, r.boot, TriggeredByCluster(hit.reporterCluster)), 6, now, 24 * 3600 * 1000)
  }

  lemma StillCountsIsFresh(r: RunState, target: string, now: nat, i: nat)
    ensures StillCounts(r, target, now, i) <==> FreshEntry(r, target, now, i)
  {}

  lemma ConfirmsIsSupports(r: RunState, target: string, hit: Hit, now: nat, i: nat)
    ensures Confirms(r, target, hit, now, i) <==> Supports(r, target, hit, now, i)
  {}

  lemma OnTheTableIsBehind(r: RunState, target: string, hit: Hit, now: nat, h: Hit)
    ensures OnTheTable(r, target, hit, now, h) <==> Behind(r, target, hit, now, h)
  {
    hide StillCounts, FreshEntry;
    forall i: nat
      ensures StillCounts(r, target, now, i) <==> FreshEntry(r, target, now, i)
    {
      StillCountsIsFresh(r, target, now, i);
    }
  }

  lemma MayBeHeardIsVoice(h: Hit, hit: Hit, g: Guards)
    ensures MayBeHeard(h, hit, g) <==> HasVoice(h, hit, g)
  {}

  lemma {:induction false} CrossReadyIsEvidence(ops: seq<BanOp>, target: string, hit: Hit, g: Guards, now: nat)
    requires Timely(ops) && Run(ops).clock <= now
    ensures CrossReady(Evidence(Run(ops).s, target, hit, now), hit, g) <==> CrossEvidence(Run(ops), target, hit, g, now)
  {
    hide Run, Timely, Evidence, CrossReady, Behind, OnTheTable, HasVoice, MayBeHeard;
    var list := Evidence(Run(ops).s, target, hit, now);
    CrossReadyIff(list, hit, g);
    forall h
      ensures h in list <==> OnTheTable(Run(ops), target, hit, now, h)
      ensures MayBeHeard(h, hit, g) <==> HasVoice(h, hit, g)
    {
      EvidenceIsBehind(ops, target, hit, now, h);
      OnTheTableIsBehind(Run(ops), target, hit, now, h);
      MayBeHeardIsVoice(h, hit, g);
    }
  }

  /** The hit is one of the confirming ones. */
  ghost predicate IsConfirming(r: RunState, target: string, hit: Hit, now: nat, h: Hit) {
    exists i: nat :: Confirms(r, target, hit, now, i) && r.log[i].hit == h
  }

  lemma {:induction false} ConfirmedInList(ops: seq<BanOp>, target: string, hit: Hit, now: nat, h: Hit)
    requires Timely(ops) && Run(ops).clock <= now
    ensures h in FreshHits(ListOf(Run(ops).s.hits, target), now) && SameSession(h, hit) <==>
            IsConfirming(Run(ops), target, hit, now, h)
  {
    hide Run, Timely, FreshHits, FreshHit;
    var r := Run(ops);
    if h in FreshHits(ListOf(r.s.hits, target), now) && SameSession(h, hit) {
      SessionHitSupports(ops, target, hit, now, h);
      var i: nat :| Supports(r, target, hit, now, i) && r.log[i].hit == h;
      ConfirmsIsSupports(r, target, hit, now, i);
    }
    if IsConfirming(r, target, hit, now, h) {
      var i: nat :| Confirms(r, target, hit, now, i) && r.log[i].hit == h;
      ConfirmsIsSupports(r, target, hit, now, i);
      SupportIsRecent(ops, target, hit, now, i);
    }
  }

  lemma ConfirmingHits(r: RunState, target: string, hit: Hit, now: nat, age: nat)
    ensures (exists h | IsConfirming(r, target, hit, now, h) :: h.atMs + age <= now) <==>
            exists i: nat :: Confirms(r, target, hit, now, i) && r.log[i].hit.atMs + age <= now
  {
    if i: nat :| Confirms(r, target, hit, now, i) && r.log[i].hit.atMs + age <= now {
      assert IsConfirming(r, target, hit, now, r.log[i].hit);
    }
  }

  lemma SessionHitsOf(recent: seq<Hit>, hit: Hit, now: nat)
    ensures (exists i: nat | i < |recent| :: SameSession(recent[i], hit)) <==>
            exists h :: h in recent && SameSession(h, hit)
    ensures HasOld(recent, hit, now) <==> exists h | h in recent && SameSession(h, hit) :: h.atMs + 2_000 <= now
  {
    hide SameSession;
  }

  lemma {:induction false} SessionReadyIsEvidence(ops: seq<BanOp>, target: string, hit: Hit, now: nat)
    requires Timely(ops) && Run(ops).clock <= now
    ensures SessionReady(Evidence(Run(ops).s, target, hit, now), hit, now) <==>
            SessionEvidence(Run(ops), target, hit, now)
  {
    hide Run, Timely, SessionReady, FreshHits, SameSession, IsConfirming, HasOld;
    var r := Run(ops);
    var recent := FreshHits(ListOf(r.s.hits, target), now);
    SessionReadyIff(recent, hit, now);
    SessionHitsOf(recent, hit, now);
    forall h
      ensures h in recent && SameSession(h, hit) <==> IsConfirming(r, target, hit, now, h)
    {
      ConfirmedInList(ops, target, hit, now, h);
    }
    SomeConfirming(r, target, hit, now);
    ConfirmingHits(r, target, hit, now, 2_000);
  }

  lemma SomeConfirming(r: RunState, target: string, hit: Hit, now: nat)
    ensures (exists h :: IsConfirming(r, target, hit, now, h)) <==> exists i: nat :: Confirms(r, target, hit, now, i)
  {
    if i: nat :| Confirms(r, target, hit, now, i) {
      assert IsConfirming(r, target, hit, now, r.log[i].hit);
    }
  }

  lemma {:induction false} SupportIsRecent(ops: seq<BanOp>, target: string, hit: Hit, now: nat, k: nat)
    requires Timely(ops) && Run(ops).clock <= now && Supports(Run(ops), target, hit, now, k)
    ensures Run(ops).log[k].hit in FreshHits(ListOf(Run(ops).s.hits, target), now)
  {
    hide Run, Timely, FreshHits, FreshHit;
    var r := Run(ops);
    RunKeepsUnspent(ops);
    FreshEarlier(r.log[k].hit, r.clock, now);
    FreshHitsKeep(ListOf(r.s.hits, target), now, r.log[k].hit);
  }

  /** The hit bans the target on the cross path after these operations. */
  ghost predicate CrossBan(ops: seq<BanOp>, target: string, hit: Hit, g: Guards, now: nat) {
    && Record(Run(ops).s, target, hit, g, now).1.Banned?
    && NewOffense(Run(ops).s, target, hit, g, now).path == CrossPath
  }

  lemma {:induction false} SoloOkIsAllowed(ops: seq<BanOp>, hit: Hit, g: Guards, now: nat)
    requires Timely(ops) && Run(ops).clock <= now
    ensures SoloOk(Run(ops).s, hit, g, now) <==> MayBanAlone(Run(ops), hit, g, now)
  {
    CappedIff(ops, hit, now);
    hide Run, Timely, Times, Full, Capped;
  }

  lemma RecordCases(s: BanState, target: string, hit: Hit, g: Guards, now: nat)
    ensures var d, o := Record(s, target, hit, g, now).1, NewOffense(s, target, hit, g, now);
            var list := Evidence(s, target, hit, now);
            && (d.Banned? <==>
                  !d.Reject? && (CrossReady(list, hit, g) || (SessionReady(list, hit, now) && SoloOk(s, hit, g, now))))
            && (o.path == CrossPath <==> CrossReady(list, hit, g))
            && (d.Banned? ==> d.ban.path == o.path && o.at == now / 1000 && !o.overturned)
  {
    hide Evidence, CrossReady, SessionReady, SoloOk, RateExceeded, NextLevel, Hint;
  }

  /** Whether a hit is refused, bans on the cross path, bans on the session path, or is only counted. */
  lemma {:induction false} DecisionIs(ops: seq<BanOp>, target: string, hit: Hit, g: Guards, now: nat)
    requires Timely(ops) && Run(ops).clock <= now
    ensures var r := Run(ops);
            var d := Record(r.s, target, hit, g, now).1;
            && (d.Reject? <==> Full(Times(r.log, r.boot, HitBy(hit.reporterUid)), 10, now, 3600 * 1000))
            && (CrossBan(ops, target, hit, g, now) <==> !d.Reject? && CrossEvidence(r, target, hit, g, now))
            && (SoloBan(ops, target, hit, g, now) <==>
                  && !d.Reject? && !CrossEvidence(r, target, hit, g, now)
                  && SessionEvidence(r, target, hit, now) && MayBanAlone(r, hit, g, now))
            && (d.Counted? <==>
                  !d.Reject? && !CrossBan(ops, target, hit, g, now) && !SoloBan(ops, target, hit, g, now))
            && (d.Banned? ==>
                  var o := NewOffense(r.s, target, hit, g, now);
                  d.ban.path == o.path && o.at == now / 1000 && !o.overturned)
  {
    RefusedIff(ops, target, hit, g, now);
    CrossReadyIsEvidence(ops, target, hit, g, now);
    SessionReadyIsEvidence(ops, target, hit, now);
    SoloOkIsAllowed(ops, hit, g, now);
    RecordCases(Run(ops).s, target, hit, g, now);
    hide Run, Timely, Times, Evidence, CrossReady, SessionReady, CrossEvidence, SessionEvidence, SoloOk, MayBanAlone,
         Full, Record, NewOffense;
  }

  /** What a hit that only counts is told: whether the session alone would do, and if so, why its reporter may not ban
      alone. */
  lemma {:induction false} HintIs(ops: seq<BanOp>, target: string, hit: Hit, g: Guards, now: nat)
    requires Timely(ops) && Run(ops).clock <= now && Record(Run(ops).s, target, hit, g, now).1.Counted?
    ensures var hint := Record(Run(ops).s, target, hit, g, now).1.hint;
            && (!SessionEvidence(Run(ops), target, hit, now) ==> hint == "counted")
            && (SessionEvidence(Run(ops), target, hit, now) ==>
                  && (g.targetSenior ==> hint == "needs_second_reporter_senior")
                  && (!g.targetSenior && g.mutualFeud ==> hint == "needs_second_reporter_feud")
                  && (hint == "needs_second_reporter_overturned" <==>
                        !g.targetSenior && !g.mutualFeud && ReporterOverturned(Run(ops).s.book, hit.reporterUid))
                  && (hint == "needs_second_reporter_cap" ==> Capped(Run(ops).s, hit, now)))
  {
    SessionReadyIsEvidence(ops, target, hit, now);
    hide Run, Timely, Evidence, CrossReady, SessionReady, SessionEvidence, RateExceeded, Capped, ReporterOverturned,
         NewOffense;
  }

  // Whom an offense names.

  /** A cross-path offense names every reporter on the table, and the clusters of those that may be heard. */
  lemma {:induction false} CrossBanNames(ops: seq<BanOp>, target: string, hit: Hit, g: Guards, now: nat)
    requires Timely(ops) && Run(ops).clock <= now && CrossBan(ops, target, hit, g, now)
    ensures var r := Run(ops);
            var o := NewOffense(r.s, target, hit, g, now);
            && (forall u :: u in o.reporterUids <==>
                  exists h | OnTheTable(r, target, hit, now, h) :: h.reporterUid == u)
            && (forall c :: c in o.reporterClusters <==>
                  exists h | OnTheTable(r, target, hit, now, h) :: MayBeHeard(h, hit, g) && h.reporterCluster == c)
            && Record(r.s, target, hit, g, now).1.ban.reporterClusters == o.reporterClusters
  {
    hide Run, Timely, Evidence, CrossReady, SessionReady, SoloOk, RateExceeded, NextLevel, Hint, OnTheTable, Behind,
         HasVoice, MayBeHeard;
    var r := Run(ops);
    var list := Evidence(r.s, target, hit, now);
    forall h
      ensures h in list <==> OnTheTable(r, target, hit, now, h)
      ensures MayBeHeard(h, hit, g) <==> HasVoice(h, hit, g)
    {
      EvidenceIsBehind(ops, target, hit, now, h);
      OnTheTableIsBehind(r, target, hit, now, h);
      MayBeHeardIsVoice(h, hit, g);
    }
    ListNames(list, hit, g);
  }

  lemma ListNames(list: seq<Hit>, hit: Hit, g: Guards)
    ensures forall u :: u in ReporterUids(list) <==> exists h | h in list :: h.reporterUid == u
    ensures forall c :: c in VoiceClusters(list, hit, g) <==>
              exists h | h in list :: HasVoice(h, hit, g) && h.reporterCluster == c
  {}

  /** A session-path offense names the reporter of the hit and nobody else. */
  lemma {:induction false} SoloBanNames(ops: seq<BanOp>, target: string, hit: Hit, g: Guards, now: nat)
    requires SoloBan(ops, target, hit, g, now)
    ensures var o := NewOffense(Run(ops).s, target, hit, g, now);
            && o.reporterUids == [hit.reporterUid] && o.reporterClusters == [hit.reporterCluster]
            && Record(Run(ops).s, target, hit, g, now).1.ban.reporterClusters == [hit.reporterCluster]
  {
    hide Run, Evidence, CrossReady, SessionReady, SoloOk, RateExceeded, NextLevel, Hint;
  }
}
