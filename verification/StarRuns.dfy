/** What the star ledger keeps over every run: mints, adjustments, spends, clawbacks and reloads
    in any order from an empty log. */
module StarRuns {
  import opened Text
  import opened Order
  import opened StarEvents
  import opened StarSpec

  datatype Op =
    | OpMint(from: string, to: string, amount: nat, reason: string, session: string, stamp: Stamp)
    | OpAdjust(to: string, amount: nat, reason: string, stamp: Stamp)
    | OpSpend(from: string, to: string, amount: nat, reason: string, opId: string, session: string, stamp: Stamp)
    | OpClawback(userId: string, balanceBurn: nat, trustBurn: nat, reason: string, opId: string, stamp: Stamp)
    | OpReload(legacy: map<string, nat>, ids: nat -> string, ts: nat)

  ghost function Step(h: Hash, w: World, op: Op): World {
    match op
    case OpMint(from, to, amount, reason, session, stamp) =>
      MintFrom(h, w, from, to, amount, reason, session, stamp).0
    case OpAdjust(to, amount, reason, stamp) => Adjust(h, w, to, amount, reason, stamp).0
    case OpSpend(from, to, amount, reason, opId, session, stamp) =>
      Spend(h, w, from, to, amount, reason, opId, session, stamp).0
    case OpClawback(userId, balanceBurn, trustBurn, reason, opId, stamp) =>
      Clawback(h, w, userId, balanceBurn, trustBurn, reason, opId, stamp).0
    case OpReload(legacy, ids, ts) => Load(h, w.log, legacy, ids, ts)
  }

  /** The world after the operations, from an empty log. */
  ghost function Run(h: Hash, ops: seq<Op>): World {
    if ops == [] then World(EMPTY, []) else Step(h, Run(h, ops[..|ops| - 1]), ops[|ops| - 1])
  }

  // What a log says, read on its own.

  function Credits(log: seq<Line>, u: string): nat {
    if log == [] then 0 else
      var last := log[|log| - 1];
      Credits(log[..|log| - 1], u) +
      if last.Entry? && IsCredit(last.event) && last.event.to == u then last.event.amount else 0
  }

  function Debits(log: seq<Line>, u: string): nat {
    if log == [] then 0 else
      var last := log[|log| - 1];
      Debits(log[..|log| - 1], u) +
      if last.Entry? && IsDebit(last.event) && Who(last.event) == u then last.event.amount else 0
  }

  function TotalCredits(log: seq<Line>): nat {
    if log == [] then 0 else
      var last := log[|log| - 1];
      TotalCredits(log[..|log| - 1]) + if last.Entry? && IsCredit(last.event) then last.event.amount else 0
  }

  function TotalDebits(log: seq<Line>): nat {
    if log == [] then 0 else
      var last := log[|log| - 1];
      TotalDebits(log[..|log| - 1]) + if last.Entry? && IsDebit(last.event) then last.event.amount else 0
  }

  /** The number of spends and clawbacks that carry the operation id. */
  function Uses(log: seq<Line>, opId: string): nat {
    if log == [] then 0 else
      var last := log[|log| - 1];
      Uses(log[..|log| - 1], opId) + if last.Entry? && IsBurn(last.event) && last.event.opId == opId then 1 else 0
  }

  /** Every debit was covered by the balance its account had at that point of the log. */
  predicate Funded(log: seq<Line>) {
    log == [] ||
    (var n := |log| - 1;
     && Funded(log[..n])
     && (log[n].Entry? && IsDebit(log[n].event) ==>
           log[n].event.amount <= Get(Fold(EMPTY, log[..n]).balances, Who(log[n].event))))
  }

  ghost function Total(m: map<string, nat>): nat {
    if m == map[] then 0 else
      var k :| k in m;
      m[k] + Total(m - {k})
  }

  lemma {:induction false} TotalRemove(m: map<string, nat>, k: string)
    requires k in m
    ensures Total(m) == m[k] + Total(m - {k})
    decreases |m|
  {
    var j :| j in m && Total(m) == m[j] + Total(m - {j});
    if j != k {
      TotalRemove(m - {j}, k);
      TotalRemove(m - {k}, j);
      assert m - {j} - {k} == m - {k} - {j};
    }
  }

  lemma TotalPut(m: map<string, nat>, k: string, n: nat)
    ensures Total(m[k := n]) + Get(m, k) == Total(m) + n
    ensures Total(m - {k}) + Get(m, k) == Total(m)
  {
    TotalRemove(m[k := n], k);
    assert m[k := n] - {k} == m - {k};
    if k in m {
      TotalRemove(m, k);
    } else {
      assert m - {k} == m;
    }
  }

  /** Everything a run keeps. */
  ghost predicate Good(h: Hash, w: World) {
    && Intact(h, EMPTY, w.log)
    && w.mem == Replay(h, EMPTY, w.log)
    && (forall u :: Get(w.mem.balances, u) + Debits(w.log, u) == Credits(w.log, u))
    && Total(w.mem.balances) + TotalDebits(w.log) == TotalCredits(w.log)
    && (forall op | op != "" :: Uses(w.log, op) == if op in w.mem.spentOps then 1 else 0)
    && Funded(w.log)
  }

  /** An event the ledger may append: it continues the chain, is covered, and uses a new operation id. */
  ghost predicate Appendable(h: Hash, s: State, e: StarEvent) {
    && Accepts(h, s, e)
    && (IsDebit(e) ==> e.amount <= Get(s.balances, Who(e)))
    && (IsBurn(e) && e.opId != "" ==> e.opId !in s.spentOps)
  }

  lemma AppendKeepsAccounts(b: map<string, nat>, log: seq<Line>, e: StarEvent, u: string)
    requires Get(b, u) + Debits(log, u) == Credits(log, u)
    requires IsDebit(e) ==> e.amount <= Get(b, Who(e))
    ensures var log' := log + [Entry(e)]; Get(ApplyBalances(b, e), u) + Debits(log', u) == Credits(log', u)
  {
    assert (log + [Entry(e)])[..|log|] == log;
  }

  lemma AppendKeepsTotal(b: map<string, nat>, log: seq<Line>, e: StarEvent)
    requires Total(b) + TotalDebits(log) == TotalCredits(log)
    requires IsDebit(e) ==> e.amount <= Get(b, Who(e))
    ensures var log' := log + [Entry(e)]; Total(ApplyBalances(b, e)) + TotalDebits(log') == TotalCredits(log')
  {
    assert (log + [Entry(e)])[..|log|] == log;
    if IsCredit(e) {
      TotalPut(b, e.to, Get(b, e.to) + e.amount);
    } else if IsDebit(e) {
      TotalPut(b, Who(e), Get(b, Who(e)) - e.amount);
    }
  }

  lemma AppendKeepsUses(ops: set<string>, log: seq<Line>, e: StarEvent, op: string)
    requires op != "" && Uses(log, op) == if op in ops then 1 else 0
    requires IsBurn(e) && e.opId != "" ==> e.opId !in ops
    ensures Uses(log + [Entry(e)], op) == if op in ApplyOps(ops, e) then 1 else 0
  {
    assert (log + [Entry(e)])[..|log|] == log;
  }

  lemma AppendKeepsGood(h: Hash, w: World, e: StarEvent)
    requires Good(h, w) && Appendable(h, w.mem, e)
    ensures Good(h, Append(w, e))
  {
    hide Payload, Uses, Debits, Credits, TotalDebits, TotalCredits, ApplyBalances, ApplyOps, ApplyTrust, ApplyEdges,
         ApplyLastTs;
    ReplayAppend(h, EMPTY, w.log, Entry(e));
    IntactReplay(h, EMPTY, w.log);
    assert Append(w, e).log[..|w.log|] == w.log;
    AppendKeepsTotal(w.mem.balances, w.log, e);
    forall u
      ensures Get(Append(w, e).mem.balances, u) + Debits(Append(w, e).log, u) == Credits(Append(w, e).log, u)
    {
      AppendKeepsAccounts(w.mem.balances, w.log, e, u);
    }
    forall op | op != ""
      ensures Uses(Append(w, e).log, op) == if op in Append(w, e).mem.spentOps then 1 else 0
    {
      AppendKeepsUses(w.mem.spentOps, w.log, e, op);
    }
  }

  lemma MadeEventIsAccepted(h: Hash, s: State, kind: string, from: string, to: string, amount: nat, reason: string,
                            session: string, opId: string, stamp: Stamp)
    ensures Accepts(h, s, MakeEvent(h, s, kind, from, to, amount, reason, session, opId, stamp))
  {
    hide Dec, Join;
  }

  lemma GenesisEventIsAppendable(h: Hash, s: State, user: string, amount: nat, stamp: Stamp)
    ensures Appendable(h, s, GenesisEvent(h, s, user, amount, stamp))
  {
    hide Accepts, Payload;
    MadeEventIsAccepted(h, s, KIND_ADJUST, "", user, amount, "genesis_snapshot", "", "", stamp);
  }

  lemma {:induction false} GenesisKeepsGood(h: Hash, w: World, legacy: map<string, nat>, users: seq<string>,
                                            ids: nat -> string, ts: nat)
    requires Good(h, w) && forall u | u in users :: u in legacy
    ensures Good(h, Genesis(h, w, legacy, users, ids, ts))
    decreases |users|
  {
    hide Good, Appendable, GenesisEvent, Append;
    if users != [] {
      var n := |users| - 1;
      var before := Genesis(h, w, legacy, users[..n], ids, ts);
      GenesisKeepsGood(h, w, legacy, users[..n], ids, ts);
      GenesisEventIsAppendable(h, before.mem, users[n], legacy[users[n]], Stamp(ids(n), ts));
      AppendKeepsGood(h, before, GenesisEvent(h, before.mem, users[n], legacy[users[n]], Stamp(ids(n), ts)));
    }
  }

  lemma {:induction false} StepKeepsGood(h: Hash, w: World, op: Op)
    requires Good(h, w)
    ensures Good(h, Step(h, w, op))
  {
    hide Good, Accepts, Load;
    match op
    case OpMint(from, to, amount, reason, session, stamp) =>
      MintKeepsGood(h, w, from, to, amount, reason, session, stamp);
    case OpAdjust(to, amount, reason, stamp) =>
      MadeEventIsAccepted(h, w.mem, KIND_ADJUST, "", to, amount, reason, "", "", stamp);
      MintKeepsGood(h, w, "", to, 0, reason, "", stamp);
      if to != "" && amount != 0 {
        AppendKeepsGood(h, w, MakeEvent(h, w.mem, KIND_ADJUST, "", to, amount, reason, "", "", stamp));
      }
    case OpSpend(from, to, amount, reason, opId, session, stamp) =>
      SpendKeepsGood(h, w, from, to, amount, reason, opId, session, stamp);
    case OpClawback(userId, balanceBurn, trustBurn, reason, opId, stamp) =>
      ClawbackKeepsGood(h, w, userId, balanceBurn, trustBurn, reason, opId, stamp);
    case OpReload(legacy, ids, ts) =>
      LoadKeepsGood(h, w, legacy, ids, ts);
  }

  lemma MintKeepsGood(h: Hash, w: World, from: string, to: string, amount: nat, reason: string, session: string,
                      stamp: Stamp)
    requires Good(h, w)
    ensures Good(h, MintFrom(h, w, from, to, amount, reason, session, stamp).0)
  {
    hide Good, Accepts, Payload;
    if to != "" && amount != 0 {
      MadeEventIsAccepted(h, w.mem, KIND_MINT, from, to, amount, reason, session, "", stamp);
      AppendKeepsGood(h, w, MakeEvent(h, w.mem, KIND_MINT, from, to, amount, reason, session, "", stamp));
    }
  }

  lemma SpendKeepsGood(h: Hash, w: World, from: string, to: string, amount: nat, reason: string, opId: string,
                       session: string, stamp: Stamp)
    requires Good(h, w)
    ensures Good(h, Spend(h, w, from, to, amount, reason, opId, session, stamp).0)
  {
    hide Good, Accepts, Payload, Trim;
    var op := Trim(opId);
    if Spend(h, w, from, to, amount, reason, opId, session, stamp).1.Done? {
      MadeEventIsAccepted(h, w.mem, KIND_SPEND, from, to, amount, reason, session, op, stamp);
      AppendKeepsGood(h, w, MakeEvent(h, w.mem, KIND_SPEND, from, to, amount, reason, session, op, stamp));
    }
  }

  lemma ClawbackKeepsGood(h: Hash, w: World, userId: string, balanceBurn: nat, trustBurn: nat, reason: string,
                          opId: string, stamp: Stamp)
    requires Good(h, w)
    ensures Good(h, Clawback(h, w, userId, balanceBurn, trustBurn, reason, opId, stamp).0)
  {
    hide Good, Accepts, Payload, Trim, Take, Dec;
    var r := Clawback(h, w, userId, balanceBurn, trustBurn, reason, opId, stamp);
    if r.1.Done? {
      var e := r.1.event;
      MadeEventIsAccepted(h, w.mem, KIND_CLAWBACK, e.from, "", e.amount, e.reason, e.session, e.opId, stamp);
      AppendKeepsGood(h, w, e);
    }
  }

  lemma {:induction false} LoadKeepsGood(h: Hash, w: World, legacy: map<string, nat>, ids: nat -> string, ts: nat)
    requires Good(h, w)
    ensures Good(h, Load(h, w.log, legacy, ids, ts))
    ensures w.mem.seqNo > 0 ==> Load(h, w.log, legacy, ids, ts) == w
  {
    hide Payload;
    if w.mem.seqNo == 0 {
      GenesisKeepsGood(h, w, legacy, SortedKeys(LegacyUsers(legacy)), ids, ts);
    }
  }

  /** Every run keeps everything in Good. */
  lemma {:induction false} RunIsGood(h: Hash, ops: seq<Op>)
    ensures Good(h, Run(h, ops))
    decreases |ops|
  {
    hide Step;
    if ops != [] {
      RunIsGood(h, ops[..|ops| - 1]);
      StepKeepsGood(h, Run(h, ops[..|ops| - 1]), ops[|ops| - 1]);
    }
  }
}
