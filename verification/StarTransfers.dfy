/** Whom each operation of the star ledger pays, charges or refuses, from any state
    (bridge/src/star_ledger.rs:23-34, 243-283, 452-555). */
module StarTransfers {
  import opened Text
  import opened StarEvents
  import opened StarSpec

  /** What an account holds. */
  function Held(m: map<string, nat>, user: string): nat {
    if user in m then m[user] else 0
  }

  /** The user holds n more, everybody else as much as before. */
  ghost predicate Gains(before: map<string, nat>, after: map<string, nat>, user: string, n: nat) {
    && Held(after, user) == Held(before, user) + n
    && forall u | u != user :: Held(after, u) == Held(before, u)
  }

  /** The user holds n less, or nothing, and everybody else as much as before. */
  ghost predicate Loses(before: map<string, nat>, after: map<string, nat>, user: string, n: nat) {
    && Held(after, user) == (if n <= Held(before, user) then Held(before, user) - n else 0)
    && forall u | u != user :: Held(after, u) == Held(before, u)
  }

  /** The time of the user's last trust event does not go back, and everybody else's stays. */
  ghost predicate Stamped(before: map<string, nat>, after: map<string, nat>, user: string, ts: nat) {
    && Held(after, user) == (if Held(before, user) <= ts then ts else Held(before, user))
    && forall u | u != user :: Held(after, u) == Held(before, u)
  }

  // Which reasons raise trust.

  predicate AllWhite(s: string) {
    forall c | c in s :: IsWhite(c)
  }

  predicate Tight(s: string) {
    s != "" && !IsWhite(s[0]) && !IsWhite(s[|s| - 1])
  }

  /** The text of a rate gift, an admin's restoring of trust or a live gift. */
  ghost predicate IsGift(text: string) {
    || text == "rate_partner"
    || (exists p: string :: text == p + ":rate_partner")
    || (exists q: string :: text == "admin:trust" + q)
    || (exists q: string :: text == "gift:" + q)
  }

  /** The reason is such a text, perhaps with white space around it. */
  ghost predicate RaisesTrust(reason: string) {
    exists a, text, b :: reason == a + text + b && AllWhite(a) && AllWhite(b) && Tight(text) && IsGift(text)
  }

  lemma {:induction false} TrimStartSplits(s: string)
    ensures |TrimStart(s)| <= |s|
    ensures var n := |s| - |TrimStart(s)|; TrimStart(s) == s[n..] && AllWhite(s[..n])
  {
    if s != "" && IsWhite(s[0]) {
      TrimStartSplits(s[1..]);
      var n := |s| - |TrimStart(s)|;
      assert s[..n] == [s[0]] + s[1..][..n - 1];
    }
  }

  lemma {:induction false} TrimEndSplits(s: string)
    ensures |TrimEnd(s)| <= |s|
    ensures var n := |TrimEnd(s)|; TrimEnd(s) == s[..n] && AllWhite(s[n..])
  {
    if s != "" && IsWhite(s[|s| - 1]) {
      TrimEndSplits(s[..|s| - 1]);
      var n := |TrimEnd(s)|;
      assert s[n..] == s[..|s| - 1][n..] + [s[|s| - 1]];
    }
  }

  /** A string is its trimmed text between white space. */
  lemma TrimSplits(s: string)
    ensures exists a, b :: s == a + Trim(s) + b && AllWhite(a) && AllWhite(b)
    ensures Trim(s) != "" ==> Tight(Trim(s))
  {
    hide TrimStart, TrimEnd, IsWhite, AllWhite;
    var t := TrimStart(s);
    TrimStartSplits(s);
    TrimEndSplits(t);
    TrimStartIsTight(s);
    TrimEndIsTight(t);
    var a, b := s[..|s| - |t|], t[|Trim(s)|..];
    assert s == a + t && t == Trim(s) + b;
    assert s == a + Trim(s) + b;
  }

  lemma {:induction false} TrimStartOf(a: string, s: string)
    requires AllWhite(a) && (s == "" || !IsWhite(s[0]))
    ensures TrimStart(a + s) == s
  {
    if a == "" {
      assert a + s == s;
    } else {
      assert (a + s)[1..] == a[1..] + s;
      TrimStartOf(a[1..], s);
    }
  }

  lemma {:induction false} TrimEndOf(s: string, b: string)
    requires AllWhite(b) && (s == "" || !IsWhite(s[|s| - 1]))
    ensures TrimEnd(s + b) == s
  {
    if b == "" {
      assert s + b == s;
    } else {
      var n := |b| - 1;
      assert (s + b)[..|s| + n] == s + b[..n];
      TrimEndOf(s, b[..n]);
    }
  }

  lemma TrimOf(a: string, text: string, b: string)
    requires AllWhite(a) && AllWhite(b) && Tight(text)
    ensures Trim(a + text + b) == text
  {
    assert a + text + b == a + (text + b);
    TrimStartOf(a, text + b);
    TrimEndOf(text, b);
  }

  lemma EndsWithIff(s: string, suffix: string)
    ensures EndsWith(s, suffix) <==> exists p: string :: s == p + suffix
  {
    if EndsWith(s, suffix) {
      assert s == s[..|s| - |suffix|] + suffix;
    }
  }

  lemma StartsWithIff(s: string, prefix: string)
    ensures StartsWith(s, prefix) <==> exists q: string :: s == prefix + q
  {
    if StartsWith(s, prefix) {
      assert s == prefix + s[|prefix|..];
    }
  }

  /** Which mints and adjustments raise trust. */
  lemma TrustReasonIff(reason: string)
    ensures IsTrustMintReason(reason) <==> RaisesTrust(reason)
  {
    TrimSplits(reason);
    var r := Trim(reason);
    assert "mint:rate_partner" == "mint" + ":rate_partner";
    EndsWithIff(r, ":rate_partner");
    StartsWithIff(r, "admin:trust");
    StartsWithIff(r, "gift:");
    assert IsTrustMintReason(reason) <==> IsGift(r);
    if a, text, b :| reason == a + text + b && AllWhite(a) && AllWhite(b) && Tight(text) && IsGift(text) {
      TrimOf(a, text, b);
    }
  }

  // What an applied event does.

  lemma CreditPays(s: State, e: StarEvent)
    requires (e.kind == KIND_MINT || e.kind == KIND_ADJUST) && e.to != "" && e.amount > 0
    ensures var t := Apply(s, e);
            && Gains(s.balances, t.balances, e.to, e.amount)
            && Gains(s.trust, t.trust, e.to, if RaisesTrust(e.reason) then e.amount else 0)
            && t.edges == s.edges + (if RaisesTrust(e.reason) && e.from != "" && e.from != e.to
                                     then {e.from + "|" + e.to} else {})
            && Stamped(s.lastTs, t.lastTs, e.to, if RaisesTrust(e.reason) then e.ts else 0)
            && t.spentOps == s.spentOps
  {
    hide IsTrustMintReason, RaisesTrust;
    TrustReasonIff(e.reason);
  }

  /** A mint always answers Done. It pays the receiver and nobody else, and raises the receiver's trust by the same
      amount when the reason is a gift; a gift from somebody else also adds the edge from giver to receiver. */
  lemma MintPays(h: Hash, w: World, from: string, to: string, amount: nat, reason: string, session: string,
                 stamp: Stamp)
    ensures var (w', r) := MintFrom(h, w, from, to, amount, reason, session, stamp);
            && r.Done? && r.balance == (if to == "" then 0 else Held(w'.mem.balances, to))
            && (to == "" || amount == 0 ==> w' == w)
            && (to != "" && amount > 0 ==>
                  var trust := if RaisesTrust(reason) then amount else 0;
                  && Gains(w.mem.balances, w'.mem.balances, to, amount)
                  && Gains(w.mem.trust, w'.mem.trust, to, trust)
                  && w'.mem.edges ==
                     w.mem.edges + (if trust > 0 && from != "" && from != to then {from + "|" + to} else {})
                  && Stamped(w.mem.lastTs, w'.mem.lastTs, to, if trust > 0 then stamp.ts else 0)
                  && w'.mem.spentOps == w.mem.spentOps
                  && w'.log == w.log + [Entry(r.event)]
                  && r.event.kind == KIND_MINT && r.event.from == from && r.event.to == to
                  && r.event.amount == amount && r.event.reason == reason && r.event.session == session
                  && r.event.id == stamp.id && r.event.ts == stamp.ts && r.event.opId == "")
  {
    hide Payload, RaisesTrust, Gains, Stamped, Apply;
    if to != "" && amount > 0 {
      var e := MakeEvent(h, w.mem, KIND_MINT, from, to, amount, reason, session, "", stamp);
      CreditPays(w.mem, e);
      BalanceIsHeld(Apply(w.mem, e), to);
    } else {
      BalanceIsHeld(w.mem, to);
    }
  }

  lemma BalanceIsHeld(s: State, user: string)
    ensures Balance(s, user) == if user == "" then 0 else Held(s.balances, user)
  {}

  /** So does an adjustment, which names no giver and adds no edge. */
  lemma AdjustPays(h: Hash, w: World, to: string, amount: nat, reason: string, stamp: Stamp)
    ensures var (w', r) := Adjust(h, w, to, amount, reason, stamp);
            && r.Done? && r.balance == (if to == "" then 0 else Held(w'.mem.balances, to))
            && (to == "" || amount == 0 ==> w' == w)
            && (to != "" && amount > 0 ==>
                  var trust := if RaisesTrust(reason) then amount else 0;
                  && Gains(w.mem.balances, w'.mem.balances, to, amount)
                  && Gains(w.mem.trust, w'.mem.trust, to, trust)
                  && w'.mem.edges == w.mem.edges && w'.mem.spentOps == w.mem.spentOps
                  && Stamped(w.mem.lastTs, w'.mem.lastTs, to, if trust > 0 then stamp.ts else 0)
                  && w'.log == w.log + [Entry(r.event)]
                  && r.event.kind == KIND_ADJUST && r.event.from == "" && r.event.to == to
                  && r.event.amount == amount && r.event.reason == reason && r.event.session == ""
                  && r.event.id == stamp.id && r.event.ts == stamp.ts && r.event.opId == "")
  {
    hide Payload, RaisesTrust, Gains, Stamped, Apply;
    if to != "" && amount > 0 {
      var e := MakeEvent(h, w.mem, KIND_ADJUST, "", to, amount, reason, "", "", stamp);
      CreditPays(w.mem, e);
      BalanceIsHeld(Apply(w.mem, e), to);
    } else {
      BalanceIsHeld(w.mem, to);
    }
  }

  /** The operation id without surrounding white space is already used. */
  predicate UsedBefore(s: State, opId: string) {
    Trim(opId) != "" && Trim(opId) in s.spentOps
  }

  lemma SpendTakes(s: State, e: StarEvent)
    requires e.kind == KIND_SPEND && e.from != "" && e.amount > 0
    ensures var t := Apply(s, e);
            && Loses(s.balances, t.balances, e.from, e.amount)
            && t.trust == s.trust && t.edges == s.edges && t.lastTs == s.lastTs
            && t.spentOps == s.spentOps + if e.opId == "" then {} else {e.opId}
  {}

  /** A spend goes through exactly when it names a payer and an amount, its operation id is unused and the payer holds
      enough. Then the payer loses the amount and nobody else is touched, the operation id is used up; a refused spend
      changes nothing and says why. */
  lemma SpendCharges(h: Hash, w: World, from: string, to: string, amount: nat, reason: string, opId: string,
                     session: string, stamp: Stamp)
    ensures var (w', r) := Spend(h, w, from, to, amount, reason, opId, session, stamp);
            var have := Held(w.mem.balances, from);
            && (r.Done? <==> from != "" && amount > 0 && !UsedBefore(w.mem, opId) && amount <= have)
            && (r.Done? ==>
                  && Held(w'.mem.balances, from) + amount == have && r.balance == have - amount
                  && Loses(w.mem.balances, w'.mem.balances, from, amount)
                  && w'.mem.trust == w.mem.trust && w'.mem.edges == w.mem.edges && w'.mem.lastTs == w.mem.lastTs
                  && w'.mem.spentOps == w.mem.spentOps + (if Trim(opId) == "" then {} else {Trim(opId)})
                  && w'.log == w.log + [Entry(r.event)]
                  && r.event.kind == KIND_SPEND && r.event.from == from && r.event.to == to
                  && r.event.amount == amount && r.event.reason == reason && r.event.session == session
                  && r.event.id == stamp.id && r.event.ts == stamp.ts && r.event.opId == Trim(opId))
            && (r.Failed? ==> w' == w)
            && (r == Failed(EmptySpend) <==> from == "" || amount == 0)
            && (r == Failed(AlreadyApplied(have)) <==> from != "" && amount > 0 && UsedBefore(w.mem, opId))
            && (r == Failed(Insufficient(have, amount)) <==>
                  from != "" && amount > 0 && !UsedBefore(w.mem, opId) && have < amount)
  {
    hide Payload, Trim, Apply;
    BalanceIsHeld(w.mem, from);
    var e := MakeEvent(h, w.mem, KIND_SPEND, from, to, amount, reason, session, Trim(opId), stamp);
    if from != "" && amount > 0 {
      SpendTakes(w.mem, e);
      BalanceIsHeld(Apply(w.mem, e), from);
    }
  }

  lemma ClawbackTakes(s: State, e: StarEvent, burn: nat)
    requires e.kind == KIND_CLAWBACK && e.from != "" && burn < U64_LIMIT && e.session == "trust:" + Dec(burn)
    ensures var t := Apply(s, e);
            && Loses(s.balances, t.balances, e.from, e.amount)
            && Loses(s.trust, t.trust, e.from, burn)
            && t.edges == s.edges && Stamped(s.lastTs, t.lastTs, e.from, e.ts)
            && t.spentOps == s.spentOps + if e.opId == "" then {} else {e.opId}
  {
    hide ParseTrustBurnSession, Dec;
    TrustBurnRoundTrip(burn);
  }

  /** A clawback goes through exactly when it names a user and something to burn and its operation id is unused. The
      user then loses what was asked, as far as it is there, of balance and of trust, and nobody else is touched. */
  lemma ClawbackCharges(h: Hash, w: World, userId: string, balanceBurn: nat, trustBurn: nat, reason: string,
                        opId: string, stamp: Stamp)
    requires trustBurn < U64_LIMIT
    ensures var (w', r) := Clawback(h, w, userId, balanceBurn, trustBurn, reason, opId, stamp);
            var user := Trim(userId);
            && (r.Done? <==> user != "" && (balanceBurn > 0 || trustBurn > 0) && !UsedBefore(w.mem, opId))
            && (r.Done? ==>
                  && Loses(w.mem.balances, w'.mem.balances, user, balanceBurn)
                  && Loses(w.mem.trust, w'.mem.trust, user, trustBurn)
                  && r.balance == Held(w'.mem.balances, user)
                  && w'.mem.edges == w.mem.edges && Stamped(w.mem.lastTs, w'.mem.lastTs, user, stamp.ts)
                  && w'.mem.spentOps == w.mem.spentOps + (if Trim(opId) == "" then {} else {Trim(opId)})
                  && w'.log == w.log + [Entry(r.event)]
                  && r.event.kind == KIND_CLAWBACK && r.event.from == user && r.event.to == ""
                  && r.event.amount + Held(w'.mem.balances, user) == Held(w.mem.balances, user)
                  && (if reason == "" then r.event.reason == "clawback" else r.event.reason <= reason)
                  && (reason != "" ==> |r.event.reason| == 96 || (|r.event.reason| < 96 && r.event.reason == reason))
                  && r.event.id == stamp.id && r.event.ts == stamp.ts && r.event.opId == Trim(opId))
            && (r.Failed? ==> w' == w)
            && (r == Failed(EmptySpend) <==> user == "" || (balanceBurn == 0 && trustBurn == 0))
            && (r.Failed? && r != Failed(EmptySpend) ==> r == Failed(AlreadyApplied(Held(w.mem.balances, user))))
  {
    hide Payload, Trim, Apply, Dec;
    var user, op := Trim(userId), Trim(opId);
    BalanceIsHeld(w.mem, user);
    var note := if reason == "" then "clawback" else Take(reason, 96);
    var e := MakeEvent(h, w.mem, KIND_CLAWBACK, user, "", Min(balanceBurn, Balance(w.mem, user)), note,
                       "trust:" + Dec(trustBurn), op, stamp);
    if user != "" {
      ClawbackTakes(w.mem, e, trustBurn);
      BalanceIsHeld(Apply(w.mem, e), user);
    }
  }
}
