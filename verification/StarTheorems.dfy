/** The guarantees of the star ledger, and exactly where they stop
    (bridge/src/star_ledger.rs:1-9, 235-357, 359-439, 516-616). */
module StarTheorems {
  import opened Text
  import opened Order
  import opened StarEvents
  import opened StarSpec
  import opened StarRuns

  /** Replaying the log gives exactly the memory, after every run. */
  lemma {:induction false} ReplayRefinesMemory(h: Hash, ops: seq<Op>)
    ensures Run(h, ops).mem == Replay(h, EMPTY, Run(h, ops).log)
    ensures Intact(h, EMPTY, Run(h, ops).log)
  {
    RunIsGood(h, ops);
  }

  /** Each balance, and the sum of them all, is what was credited minus what was debited. */
  lemma {:induction false} StarsAreConserved(h: Hash, ops: seq<Op>)
    ensures forall u :: Get(Run(h, ops).mem.balances, u) == Credits(Run(h, ops).log, u) - Debits(Run(h, ops).log, u)
    ensures Total(Run(h, ops).mem.balances) == TotalCredits(Run(h, ops).log) - TotalDebits(Run(h, ops).log)
  {
    RunIsGood(h, ops);
  }

  lemma {:induction false} FundedAt(log: seq<Line>, i: nat)
    requires Funded(log) && i < |log| && log[i].Entry? && IsDebit(log[i].event)
    ensures log[i].event.amount <= Get(Fold(EMPTY, log[..i]).balances, Who(log[i].event))
    decreases |log|
  {
    var n := |log| - 1;
    if i < n {
      FundedAt(log[..n], i);
      assert log[..n][..i] == log[..i];
    }
  }

  /** No balance subtraction ever saturates: every debit in the log was covered. */
  lemma {:induction false} DebitsAreCovered(h: Hash, ops: seq<Op>, i: nat)
    requires var log := Run(h, ops).log; i < |log| && log[i].Entry? && IsDebit(log[i].event)
    ensures var log := Run(h, ops).log;
            log[i].event.amount <= Get(Replay(h, EMPTY, log[..i]).balances, Who(log[i].event))
  {
    RunIsGood(h, ops);
    var log := Run(h, ops).log;
    FundedAt(log, i);
    IntactPrefix(h, EMPTY, log, i);
    IntactReplay(h, EMPTY, log[..i]);
  }

  lemma {:induction false} IntactPrefix(h: Hash, s: State, log: seq<Line>, i: nat)
    requires Intact(h, s, log) && i <= |log|
    ensures Intact(h, s, log[..i])
    decreases i
  {
    if i > 0 {
      IntactPrefix(h, ApplyLine(s, log[0]), log[1..], i - 1);
      assert log[..i][1..] == log[1..][..i - 1];
    }
  }

  lemma {:induction false} UsesCounts(log: seq<Line>, i: nat, j: nat, op: string)
    requires i < j < |log| && log[i].Entry? && log[j].Entry?
    requires IsBurn(log[i].event) && IsBurn(log[j].event) && log[i].event.opId == log[j].event.opId == op
    ensures Uses(log, op) >= 2
    decreases |log|
  {
    var n := |log| - 1;
    if j < n {
      UsesCounts(log[..n], i, j, op);
    } else {
      OneUse(log[..n], i, op);
    }
  }

  lemma {:induction false} OneUse(log: seq<Line>, i: nat, op: string)
    requires i < |log| && log[i].Entry? && IsBurn(log[i].event) && log[i].event.opId == op
    ensures Uses(log, op) >= 1
    decreases |log|
  {
    if i < |log| - 1 {
      OneUse(log[..|log| - 1], i, op);
    }
  }

  /** No two spends or clawbacks of a run share a nonempty operation id. */
  lemma {:induction false} OperationIdsAreUsedOnce(h: Hash, ops: seq<Op>, i: nat, j: nat)
    requires var log := Run(h, ops).log;
             && i < j < |log| && log[i].Entry? && log[j].Entry?
             && IsBurn(log[i].event) && IsBurn(log[j].event) && log[i].event.opId != ""
    ensures Run(h, ops).log[i].event.opId != Run(h, ops).log[j].event.opId
  {
    RunIsGood(h, ops);
    var log := Run(h, ops).log;
    if log[i].event.opId == log[j].event.opId {
      UsesCounts(log, i, j, log[i].event.opId);
    }
  }

  lemma {:induction false} StepKeepsSpentOps(h: Hash, w: World, op: Op)
    requires Good(h, w)
    ensures w.mem.spentOps <= Step(h, w, op).mem.spentOps
  {
    hide Good, Payload, Trim, Take, Dec, Load;
    if op.OpReload? {
      LoadKeepsSpentOps(h, w, op.legacy, op.ids, op.ts);
    }
  }

  lemma LoadKeepsSpentOps(h: Hash, w: World, legacy: map<string, nat>, ids: nat -> string, ts: nat)
    requires Good(h, w)
    ensures w.mem.spentOps == Load(h, w.log, legacy, ids, ts).mem.spentOps
  {
    hide Payload;
    GenesisKeepsSpentOps(h, w, legacy, SortedKeys(LegacyUsers(legacy)), ids, ts);
  }

  lemma {:induction false} GenesisKeepsSpentOps(h: Hash, w: World, legacy: map<string, nat>, users: seq<string>,
                                                ids: nat -> string, ts: nat)
    requires forall u | u in users :: u in legacy
    ensures w.mem.spentOps == Genesis(h, w, legacy, users, ids, ts).mem.spentOps
    decreases |users|
  {
    hide Payload;
    if users != [] {
      GenesisKeepsSpentOps(h, w, legacy, users[..|users| - 1], ids, ts);
    }
  }

  lemma {:induction false} RunKeepsSpentOps(h: Hash, ops: seq<Op>, more: seq<Op>)
    ensures Run(h, ops).mem.spentOps <= Run(h, ops + more).mem.spentOps
    decreases |more|
  {
    hide Step;
    if more == [] {
      assert ops + more == ops;
    } else {
      var n := |more| - 1;
      var all := ops + more;
      RunKeepsSpentOps(h, ops, more[..n]);
      assert all[..|all| - 1] == ops + more[..n];
      RunIsGood(h, ops + more[..n]);
      StepKeepsSpentOps(h, Run(h, ops + more[..n]), more[n]);
    }
  }

  /** Once a spend or a clawback went through, its operation id burns nothing more, whatever happened in between. */
  lemma {:induction false} RetryChangesNothing(h: Hash, ops: seq<Op>, first: Op, more: seq<Op>, retry: Op)
    requires (first.OpSpend? || first.OpClawback?) && Trim(first.opId) != ""
    requires Run(h, ops + [first]).log != Run(h, ops).log
    requires (retry.OpSpend? || retry.OpClawback?) && Trim(retry.opId) == Trim(first.opId)
    ensures var w := Run(h, ops + [first] + more); Step(h, w, retry) == w
  {
    var w := Run(h, ops);
    assert (ops + [first])[..|ops|] == ops;
    assert Trim(first.opId) in Run(h, ops + [first]).mem.spentOps;
    RunKeepsSpentOps(h, ops + [first], more);
  }

  predicate AllTrimmed(ops: set<string>) {
    forall op | op in ops :: Trim(op) == op
  }

  /** Operation ids are kept without surrounding white space, so that retries are compared without it too. */
  lemma {:induction false} OperationIdsAreTrimmed(h: Hash, ops: seq<Op>)
    ensures AllTrimmed(Run(h, ops).mem.spentOps)
    decreases |ops|
  {
    hide Step, Trim;
    if ops != [] {
      var n := |ops| - 1;
      OperationIdsAreTrimmed(h, ops[..n]);
      RunIsGood(h, ops[..n]);
      StepAddsTrimmed(h, Run(h, ops[..n]), ops[n]);
    }
  }

  lemma {:induction false} StepAddsTrimmed(h: Hash, w: World, op: Op)
    requires Good(h, w) && AllTrimmed(w.mem.spentOps)
    ensures AllTrimmed(Step(h, w, op).mem.spentOps)
  {
    hide Good, Payload, Trim, Take, Dec, Load, AllTrimmed;
    match op
    case OpReload(legacy, ids, ts) => LoadKeepsSpentOps(h, w, legacy, ids, ts);
    case OpSpend(_, _, _, _, opId, _, _) => TrimmedGrow(w.mem.spentOps, opId);
    case OpClawback(_, _, _, _, opId, _) => TrimmedGrow(w.mem.spentOps, opId);
    case _ =>
  }

  lemma TrimmedGrow(ops: set<string>, opId: string)
    requires AllTrimmed(ops)
    ensures AllTrimmed(ops + {Trim(opId)})
  {
    hide Trim;
    TrimTwice(opId);
  }

  /** A spend never touches trust, whatever the ledger holds. */
  lemma SpendKeepsTrust(h: Hash, w: World, from: string, to: string, amount: nat, reason: string, opId: string,
                        session: string, stamp: Stamp)
    ensures var m := Spend(h, w, from, to, amount, reason, opId, session, stamp).0.mem;
            m.trust == w.mem.trust && m.edges == w.mem.edges && m.lastTs == w.mem.lastTs
  {
    hide Payload, Trim;
  }

  /** An applied clawback burns exactly the smaller of what was asked and what was there. */
  lemma ClawbackBurns(h: Hash, w: World, userId: string, balanceBurn: nat, trustBurn: nat, reason: string,
                      opId: string, stamp: Stamp)
    requires trustBurn < U64_LIMIT
    requires Clawback(h, w, userId, balanceBurn, trustBurn, reason, opId, stamp).1.Done?
    ensures var m := Clawback(h, w, userId, balanceBurn, trustBurn, reason, opId, stamp).0.mem;
            var u := Trim(userId);
            && Get(m.balances, u) == Get(w.mem.balances, u) - Min(balanceBurn, Get(w.mem.balances, u))
            && Get(m.trust, u) == Get(w.mem.trust, u) - Min(trustBurn, Get(w.mem.trust, u))
            && (forall v | v != u ::
                  Get(m.balances, v) == Get(w.mem.balances, v) && Get(m.trust, v) == Get(w.mem.trust, v))
  {
    hide Payload, Trim, Take, Dec, ParseTrustBurnSession;
    TrustBurnRoundTrip(trustBurn);
  }

  /** After a run that logged anything, reloading changes nothing, whatever the legacy counts say. */
  lemma ReloadIsIdentity(h: Hash, ops: seq<Op>, legacy: map<string, nat>, ids: nat -> string, ts: nat)
    requires Run(h, ops).log != []
    ensures Step(h, Run(h, ops), OpReload(legacy, ids, ts)) == Run(h, ops)
  {
    RunIsGood(h, ops);
    RunLogsEntries(h, ops);
    IntactCounts(h, EMPTY, Run(h, ops).log);
    LoadKeepsGood(h, Run(h, ops), legacy, ids, ts);
  }

  ghost predicate OnlyEntries(log: seq<Line>) {
    forall i: nat | i < |log| :: log[i].Entry?
  }

  lemma {:induction false} RunLogsEntries(h: Hash, ops: seq<Op>)
    ensures OnlyEntries(Run(h, ops).log)
    decreases |ops|
  {
    hide Payload, Trim, Take, Dec, Load, Apply;
    if ops != [] {
      var w, op := Run(h, ops[..|ops| - 1]), ops[|ops| - 1];
      RunLogsEntries(h, ops[..|ops| - 1]);
      if op.OpReload? {
        LoadLogsEntries(h, w.log, op.legacy, op.ids, op.ts);
      }
    }
  }

  lemma LoadLogsEntries(h: Hash, log: seq<Line>, legacy: map<string, nat>, ids: nat -> string, ts: nat)
    requires OnlyEntries(log)
    ensures OnlyEntries(Load(h, log, legacy, ids, ts).log)
  {
    GenesisLogsEntries(h, World(Replay(h, EMPTY, log), log), legacy, SortedKeys(LegacyUsers(legacy)), ids, ts);
  }

  lemma {:induction false} GenesisLogsEntries(h: Hash, w: World, legacy: map<string, nat>, users: seq<string>,
                                              ids: nat -> string, ts: nat)
    requires OnlyEntries(w.log) && forall u | u in users :: u in legacy
    ensures OnlyEntries(Genesis(h, w, legacy, users, ids, ts).log)
    decreases |users|
  {
    hide Payload;
    if users != [] {
      GenesisLogsEntries(h, w, legacy, users[..|users| - 1], ids, ts);
    }
  }

  lemma {:induction false} IntactCounts(h: Hash, s: State, log: seq<Line>)
    requires Intact(h, s, log) && OnlyEntries(log)
    ensures Replay(h, s, log).seqNo == s.seqNo + |log|
    decreases log
  {
    hide Payload;
    if log != [] {
      assert log[0].Entry?;
      IntactCounts(h, ApplyLine(s, log[0]), log[1..]);
    }
  }

  /** On any log at all: the legacy counts can matter exactly when replay accepts no event. */
  lemma LegacyMattersIffNothingReplayed(h: Hash, log: seq<Line>, ids: nat -> string, ts: nat)
    ensures (forall legacy :: Load(h, log, legacy, ids, ts).mem == Replay(h, EMPTY, log))
            <==> Replay(h, EMPTY, log).seqNo > 0
  {
    if Replay(h, EMPTY, log).seqNo == 0 {
      var legacy := map["u" := 1];
      var users := SortedKeys(LegacyUsers(legacy));
      assert "u" in LegacyUsers(legacy);
      assert "u" in users;
      GenesisCounts(h, World(Replay(h, EMPTY, log), log), legacy, users, ids, ts);
      assert Load(h, log, legacy, ids, ts).mem.seqNo == |users| > 0;
    }
  }

  lemma {:induction false} GenesisCounts(h: Hash, w: World, legacy: map<string, nat>, users: seq<string>,
                                         ids: nat -> string, ts: nat)
    requires forall u | u in users :: u in legacy
    ensures Genesis(h, w, legacy, users, ids, ts).mem.seqNo == w.mem.seqNo + |users|
    decreases |users|
  {
    hide Payload;
    if users != [] {
      GenesisCounts(h, w, legacy, users[..|users| - 1], ids, ts);
    }
  }

  /** Seeding an empty ledger gives every legacy user exactly the legacy count, and no one else anything. */
  lemma {:induction false} GenesisSeedsLegacyCounts(h: Hash, legacy: map<string, nat>, ids: nat -> string, ts: nat,
                                                    u: string)
    ensures Balance(Load(h, [], legacy, ids, ts).mem, u) == if u in legacy && u != "" then legacy[u] else 0
  {
    var users := SortedKeys(LegacyUsers(legacy));
    GenesisBalances(h, legacy, users, ids, ts, u);
  }

  lemma {:induction false} GenesisBalances(h: Hash, legacy: map<string, nat>, users: seq<string>,
                                           ids: nat -> string, ts: nat, u: string)
    requires StrictlySorted(users) && forall v | v in users :: v in legacy && v in LegacyUsers(legacy)
    ensures Get(Genesis(h, World(EMPTY, []), legacy, users, ids, ts).mem.balances, u)
            == if u in users then legacy[u] else 0
    decreases |users|
  {
    hide Payload, Less, Append, GenesisEvent;
    if users != [] {
      var n := |users| - 1;
      GenesisBalances(h, legacy, users[..n], ids, ts, u);
      var before := Genesis(h, World(EMPTY, []), legacy, users[..n], ids, ts);
      SeedingCredits(h, before, users[n], legacy[users[n]], Stamp(ids(n), ts));
      assert users == users[..n] + [users[n]];
      SortedInit(users);
    }
  }

  lemma {:induction false} SeedingCredits(h: Hash, w: World, user: string, amount: nat, stamp: Stamp)
    requires user != "" && amount > 0
    ensures Append(w, GenesisEvent(h, w.mem, user, amount, stamp)).mem.balances
            == w.mem.balances[user := Get(w.mem.balances, user) + amount]
  {
    hide Payload, ApplyTrust, ApplyEdges, ApplyLastTs, ApplyOps, Get;
  }

  /** An event appended to a loaded ledger is there after the next load exactly when the log was intact:
      behind a broken line it is written but never read. */
  lemma AppendSurvivesReloadIffIntact(h: Hash, log: seq<Line>, kind: string, from: string, to: string, amount: nat,
                                      reason: string, session: string, opId: string, stamp: Stamp)
    ensures var s := Replay(h, EMPTY, log);
            var w := Append(World(s, log), MakeEvent(h, s, kind, from, to, amount, reason, session, opId, stamp));
            Replay(h, EMPTY, w.log) == w.mem <==> Intact(h, EMPTY, log)
  {
    hide Payload;
    var s := Replay(h, EMPTY, log);
    var e := MakeEvent(h, s, kind, from, to, amount, reason, session, opId, stamp);
    MadeEventIsAccepted(h, s, kind, from, to, amount, reason, session, opId, stamp);
    if Intact(h, EMPTY, log) {
      ReplayAppend(h, EMPTY, log, Entry(e));
    } else {
      ReplayIgnoresAfterBreak(h, EMPTY, log, [Entry(e)]);
    }
  }
}
