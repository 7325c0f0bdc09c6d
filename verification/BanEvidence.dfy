/** What a ban rests on (bridge/src/genital_ban.rs:9-18): evidence that is spent once, and for each path two hits as the
    header describes them, as far as that is kept. */
module BanEvidence {
  import opened Wrappers
  import opened Sets
  import opened SlidingWindow
  import opened BanSpec
  import opened BanRuns

  // Evidence is spent once.

  function AcceptedHits(log: seq<Entry>, target: string): nat {
    if log == [] then 0 else
      var n := |log| - 1;
      AcceptedHits(log[..n], target) + if log[n].target == target then 1 else 0
  }

  function Bans(log: seq<Entry>, target: string): nat {
    if log == [] then 0 else
      var n := |log| - 1;
      Bans(log[..n], target) + if log[n].target == target && log[n].offense.Some? then 1 else 0
  }

  lemma {:induction false} FreshHitsShrink(hits: seq<Hit>, now: nat)
    ensures |FreshHits(hits, now)| <= |hits|
    ensures forall h | h in FreshHits(hits, now) :: h in hits && FreshHit(h, now)
    decreases |hits|
  {
    if hits != [] {
      FreshHitsShrink(hits[..|hits| - 1], now);
    }
  }

  lemma {:induction false} SessionHitsShrink(list: seq<Hit>, hit: Hit)
    ensures |SessionHits(list, hit)| <= |list|
    decreases |list|
  {
    if list != [] {
      SessionHitsShrink(list[..|list| - 1], hit);
    }
  }

  /** A ban needs at least two hits on the list. */
  lemma BanNeedsTwoHits(list: seq<Hit>, hit: Hit, g: Guards, now: nat)
    requires CrossReady(list, hit, g) || SessionReady(list, hit, now)
    ensures |list| >= 2
  {
    SessionHitsShrink(list, hit);
    if |list| < 2 {
      ShortListHasFewVoices(list, hit, g);
    }
  }

  lemma ShortListHasFewVoices(list: seq<Hit>, hit: Hit, g: Guards)
    requires |list| < 2
    ensures |VoiceClusters(list, hit, g)| < 2
  {
    var s := VoiceClusters(list, hit, g);
    if list == [] {
      assert s == {};
    } else {
      assert s <= {list[0].reporterCluster};
      SubsetIsSmaller(s, {list[0].reporterCluster});
    }
  }

  /** For each target: twice the bans so far, plus the pending hits, never exceeds the accepted hits. */
  lemma {:induction false} EvidenceIsSpentOnce(ops: seq<BanOp>, target: string)
    ensures 2 * Bans(Run(ops).log, target) + |ListOf(Run(ops).s.hits, target)| <= AcceptedHits(Run(ops).log, target)
    decreases |ops|
  {
    hide Bans, AcceptedHits, Record, RateExceeded;
    if ops == [] {
      NothingSpent(target);
    } else {
      var r, op := Run(ops[..|ops| - 1]), ops[|ops| - 1];
      EvidenceIsSpentOnce(ops[..|ops| - 1], target);
      if op.DoHit? {
        HitSpendsEvidence(r, op.target, op.hit, op.guards, op.now, target);
      }
    }
  }

  lemma NothingSpent(target: string)
    ensures Bans([], target) == 0
  {}

  lemma HitSpendsEvidence(r: RunState, t: string, hit: Hit, g: Guards, now: nat, target: string)
    requires 2 * Bans(r.log, target) + |ListOf(r.s.hits, target)| <= AcceptedHits(r.log, target)
    ensures var r' := After(r, DoHit(t, hit, g, now));
            2 * Bans(r'.log, target) + |ListOf(r'.s.hits, target)| <= AcceptedHits(r'.log, target)
  {
    hide CrossReady, SessionReady, SoloOk, RateExceeded, NewOffense, NextLevel, Hint, FreshHits, Bans, AcceptedHits;
    var list := Evidence(r.s, t, hit, now);
    FreshHitsShrink(ListOf(r.s.hits, t), now);
    if CrossReady(list, hit, g) || SessionReady(list, hit, now) {
      BanNeedsTwoHits(list, hit, g, now);
    }
    if !RateExceeded(r.s, hit, now) {
      CountsAppend(r.log, NewEntry(r, t, hit, g, now), target);
    }
  }

  lemma CountsAppend(log: seq<Entry>, e: Entry, target: string)
    ensures Bans(log + [e], target) == Bans(log, target) + if e.target == target && e.offense.Some? then 1 else 0
    ensures AcceptedHits(log + [e], target) == AcceptedHits(log, target) + if e.target == target then 1 else 0
  {
    assert (log + [e])[..|log|] == log;
  }

  /** Entry i is a hit on the target, in this boot, and no ban of the target has come since. */
  ghost predicate Unspent(log: seq<Entry>, boot: nat, target: string, i: nat) {
    && i < |log| && log[i].boot == boot && log[i].target == target
    && forall j: nat | i <= j < |log| && log[j].target == target :: log[j].offense.None?
  }

  ghost predicate IsPending(log: seq<Entry>, boot: nat, target: string, h: Hit) {
    exists i: nat :: Unspent(log, boot, target, i) && log[i].hit == h
  }

  /** Every pending hit of the state is an unspent accepted hit of the history. */
  ghost predicate PendingIsUnspent(r: RunState) {
    forall t, h | h in ListOf(r.s.hits, t) :: IsPending(r.log, r.boot, t, h)
  }

  lemma PendingAppend(log: seq<Entry>, e: Entry, boot: nat, target: string, h: Hit)
    requires IsPending(log, boot, target, h) && (e.target == target ==> e.offense.None?)
    ensures IsPending(log + [e], boot, target, h)
  {
    var i: nat :| Unspent(log, boot, target, i) && log[i].hit == h;
    assert Unspent(log + [e], boot, target, i);
  }

  lemma HitKeepsPending(r: RunState, target: string, hit: Hit, g: Guards, now: nat)
    requires PendingIsUnspent(r)
    ensures PendingIsUnspent(After(r, DoHit(target, hit, g, now)))
  {
    hide CrossReady, SessionReady, SoloOk, RateExceeded, NewOffense, NextLevel, Hint, FreshHits, IsPending;
    var r' := After(r, DoHit(target, hit, g, now));
    var e := NewEntry(r, target, hit, g, now);
    FreshHitsShrink(ListOf(r.s.hits, target), now);
    if !RateExceeded(r.s, hit, now) {
      NewestIsPending(r.log, e);
      forall t, h | h in ListOf(r'.s.hits, t)
        ensures IsPending(r'.log, r'.boot, t, h)
      {
        if !(t == target && h == hit) {
          PendingAppend(r.log, e, r.boot, t, h);
        }
      }
    }
  }

  lemma NewestIsPending(log: seq<Entry>, e: Entry)
    ensures e.offense.None? ==> IsPending(log + [e], e.boot, e.target, e.hit)
  {
    if e.offense.None? {
      assert Unspent(log + [e], e.boot, e.target, |log|);
    }
  }

  lemma {:induction false} RunKeepsPending(ops: seq<BanOp>)
    ensures PendingIsUnspent(Run(ops))
    decreases |ops|
  {
    hide Record, NewOffense, IsPending;
    if ops != [] {
      var r, op := Run(ops[..|ops| - 1]), ops[|ops| - 1];
      RunKeepsPending(ops[..|ops| - 1]);
      if op.DoHit? {
        HitKeepsPending(r, op.target, op.hit, op.guards, op.now);
      }
    }
  }

  /** Some hit before the new one is of its session and at least the gap old. */
  predicate HasOld(recent: seq<Hit>, hit: Hit, now: nat) {
    exists i: nat | i < |recent| :: SameSession(recent[i], hit) && Elapsed(now, recent[i].atMs) >= MIN_HIT_GAP_MS
  }

  /** The session condition, exactly: the new hit and an earlier one of the same reporter and session, both from
      the detector, and one of the session's hits stamped at least the gap ago. */
  lemma SessionReadyIff(recent: seq<Hit>, hit: Hit, now: nat)
    ensures SessionReady(recent + [hit], hit, now) <==>
            && hit.kind == Detector
            && (exists i: nat | i < |recent| :: SameSession(recent[i], hit))
            && (HasOld(recent, hit, now) || Elapsed(now, hit.atMs) >= MIN_HIT_GAP_MS)
  {
    var list := recent + [hit];
    SessionHitsSome(recent, hit);
    assert list[..|recent|] == recent;
    assert list[|recent|] == hit;
    assert forall i: nat | i < |recent| :: list[i] == recent[i];
  }

  lemma {:induction false} SessionHitsSome(list: seq<Hit>, hit: Hit)
    ensures |SessionHits(list, hit)| > 0 <==> exists i: nat | i < |list| :: SameSession(list[i], hit)
    decreases |list|
  {
    if list != [] {
      SessionHitsSome(list[..|list| - 1], hit);
    }
  }

  /** The two confirmations are stamped at least the gap apart, whichever came first. */
  predicate Apart(a: Hit, b: Hit) {
    Elapsed(a.atMs, b.atMs) >= MIN_HIT_GAP_MS || Elapsed(b.atMs, a.atMs) >= MIN_HIT_GAP_MS
  }

  /** The new hit is apart from an earlier one of its session. */
  predicate GapKept(recent: seq<Hit>, hit: Hit) {
    exists i: nat | i < |recent| :: SameSession(recent[i], hit) && Apart(recent[i], hit)
  }

  /** The session condition alone keeps the promise of two hits apart exactly for new hits that are not stamped back. It
      measures against the clock: for a hit stamped back, even by a millisecond, an earlier one can be old enough and
      yet close. */
  lemma GapIsKeptIff(hit: Hit, now: nat)
    ensures (forall recent: seq<Hit> | SessionReady(recent + [hit], hit, now) :: GapKept(recent, hit)) <==>
            hit.kind != Detector || hit.atMs >= now || now < MIN_HIT_GAP_MS
  {
    hide SessionReady;
    forall recent: seq<Hit> | SessionReady(recent + [hit], hit, now)
      ensures hit.kind == Detector && now >= MIN_HIT_GAP_MS && (hit.atMs >= now ==> GapKept(recent, hit))
    {
      SessionReadyIff(recent, hit, now);
    }
    if hit.kind == Detector && hit.atMs < now && now >= MIN_HIT_GAP_MS {
      var recent := [hit.(atMs := if now - hit.atMs >= MIN_HIT_GAP_MS then hit.atMs else now - MIN_HIT_GAP_MS)];
      assert SameSession(recent[0], hit);
      SessionReadyIff(recent, hit, now);
      assert SessionReady(recent + [hit], hit, now) && !GapKept(recent, hit);
    }
  }

  // Over runs.

  /** The hit bans the target on the session path after these operations. */
  ghost predicate SoloBan(ops: seq<BanOp>, target: string, hit: Hit, g: Guards, now: nat) {
    && Record(Run(ops).s, target, hit, g, now).1.Banned?
    && NewOffense(Run(ops).s, target, hit, g, now).path == SessionPath
  }

  /** Entry i is an unspent hit on the target, under 30 minutes old. */
  ghost predicate FreshEntry(r: RunState, target: string, now: nat, i: nat) {
    Unspent(r.log, r.boot, target, i) && FreshHit(r.log[i].hit, now)
  }

  /** It is also one of the same reporter in the same session, from the detector. */
  ghost predicate Supports(r: RunState, target: string, hit: Hit, now: nat, i: nat) {
    FreshEntry(r, target, now, i) && SameSession(r.log[i].hit, hit)
  }

  /** Every session-path ban rests on an earlier hit, unspent and fresh, of the same reporter in the same session, both
      from the detector. When the new hit is stamped less than the gap ago, an earlier one is at least the gap old; when
      it is stamped with the current time, that one is at least the gap away from it. */
  lemma {:induction false} SessionBanRestsOnTwoHits(ops: seq<BanOp>, target: string, hit: Hit, g: Guards, now: nat)
    requires SoloBan(ops, target, hit, g, now)
    ensures hit.kind == Detector && now >= MIN_HIT_GAP_MS
    ensures exists i: nat :: Supports(Run(ops), target, hit, now, i)
    ensures Elapsed(now, hit.atMs) < MIN_HIT_GAP_MS ==>
              exists i: nat ::
                Supports(Run(ops), target, hit, now, i) && now - Run(ops).log[i].hit.atMs >= MIN_HIT_GAP_MS
    ensures hit.atMs >= now ==>
              exists i: nat ::
                Supports(Run(ops), target, hit, now, i) && hit.atMs - Run(ops).log[i].hit.atMs >= MIN_HIT_GAP_MS
  {
    hide CrossReady, SessionReady, SoloOk, RateExceeded, NextLevel, Hint, IsPending, FreshHits, Run;
    var r := Run(ops);
    var recent := FreshHits(ListOf(r.s.hits, target), now);
    SessionReadyIff(recent, hit, now);
    var i: nat :| i < |recent| && SameSession(recent[i], hit);
    SessionHitSupports(ops, target, hit, now, recent[i]);
    if Elapsed(now, hit.atMs) < MIN_HIT_GAP_MS {
      var j: nat :| j < |recent| && SameSession(recent[j], hit) && Elapsed(now, recent[j].atMs) >= MIN_HIT_GAP_MS;
      SessionHitSupports(ops, target, hit, now, recent[j]);
    }
  }

  lemma RecentIsLogged(ops: seq<BanOp>, target: string, now: nat, h: Hit)
    requires h in FreshHits(ListOf(Run(ops).s.hits, target), now)
    ensures exists i: nat :: FreshEntry(Run(ops), target, now, i) && Run(ops).log[i].hit == h
  {
    hide IsPending, FreshHits, Run;
    var r := Run(ops);
    FreshHitsShrink(ListOf(r.s.hits, target), now);
    RunKeepsPending(ops);
    PendingWitness(r.log, r.boot, target, h);
    var i: nat :| Unspent(r.log, r.boot, target, i) && r.log[i].hit == h;
    assert FreshEntry(r, target, now, i);
  }

  lemma SessionHitSupports(ops: seq<BanOp>, target: string, hit: Hit, now: nat, h: Hit)
    requires h in FreshHits(ListOf(Run(ops).s.hits, target), now) && SameSession(h, hit)
    ensures exists i: nat :: Supports(Run(ops), target, hit, now, i) && Run(ops).log[i].hit == h
  {
    hide FreshHits, Run;
    RecentIsLogged(ops, target, now, h);
    var i: nat :| FreshEntry(Run(ops), target, now, i) && Run(ops).log[i].hit == h;
    assert Supports(Run(ops), target, hit, now, i);
  }

  lemma PendingWitness(log: seq<Entry>, boot: nat, target: string, h: Hit)
    requires IsPending(log, boot, target, h)
    ensures exists i: nat :: Unspent(log, boot, target, i) && log[i].hit == h
  {}

  // Two hits of one reporter in one session on a fresh target.

  const UNGUARDED: Guards := Guards(false, false)

  /** The first hit on a target is only counted. */
  lemma {:induction false} FirstIsCounted(s: BanState, target: string, hit: Hit, g: Guards, now: nat)
    requires ListOf(s.hits, target) == [] && !RateExceeded(s, hit, now)
    ensures var (s', d) := Record(s, target, hit, g, now);
            d.Counted? && s' == Charged(s, hit, now).(hits := s.hits[target := [hit]])
  {
    hide RateExceeded, Hint, SoloOk, CrossReady, SessionReady, PrunedTimes;
    SessionReadyIff([], hit, now);
    OneHitIsNotCross(hit, g);
    assert FreshHits([], now) == [] && [] + [hit] == [hit];
  }

  lemma OneHitIsNotCross(hit: Hit, g: Guards)
    ensures !CrossReady([hit], hit, g)
  {
    ShortListHasFewVoices([hit], hit, g);
  }

  lemma OneClusterIsNotCross(first: Hit, hit: Hit, g: Guards)
    requires first.reporterCluster == hit.reporterCluster
    ensures !CrossReady([first, hit], hit, g)
  {
    assert VoiceClusters([first, hit], hit, g) <= {hit.reporterCluster};
    SubsetIsSmaller(VoiceClusters([first, hit], hit, g), {hit.reporterCluster});
  }

  /** After the first hit, the second meets the session condition: detector hits, the first fresh, one of them old. */
  predicate PairBans(first: Hit, hit: Hit, now: nat) {
    && hit.kind == Detector && FreshHit(first, now)
    && (Elapsed(now, first.atMs) >= MIN_HIT_GAP_MS || Elapsed(now, hit.atMs) >= MIN_HIT_GAP_MS)
  }

  /** A second hit that differs in its stamp alone bans exactly when the pair meets the session condition and the
      reporter may ban alone. */
  lemma {:induction false} SecondBansIff(s: BanState, target: string, first: Hit, hit: Hit, g: Guards, now: nat)
    requires ListOf(s.hits, target) == [first] && first == hit.(atMs := first.atMs) && !RateExceeded(s, hit, now)
    ensures var d := Record(s, target, hit, g, now).1;
            && (d.Banned? <==> PairBans(first, hit, now) && SoloOk(s, hit, g, now))
            && (d.Banned? ==> NewOffense(s, target, hit, g, now).path == SessionPath)
  {
    hide RateExceeded, Hint, Charged, NextLevel, SoloOk;
    assert [first][..0] == [] && FreshHits([], now) == [];
    var recent := FreshHits([first], now);
    assert recent == if FreshHit(first, now) then [first] else [];
    SessionReadyIff(recent, hit, now);
    OneHitIsNotCross(hit, g);
    OneClusterIsNotCross(first, hit, g);
    assert recent + [hit] == if FreshHit(first, now) then [first, hit] else [hit];
    hide CrossReady, SessionReady, FreshHits;
    assert recent != [] ==> SameSession(recent[0], hit) == (hit.kind == Detector);
  }

  /** Two hits recorded at the same instant, alike but for their stamps: the second bans exactly when the pair meets the
      session condition, on a target that is neither senior nor feuding. */
  lemma {:induction false} PairBansIff(target: string, first: Hit, hit: Hit, g: Guards, now: nat)
    requires first == hit.(atMs := first.atMs)
    ensures var ops := [DoHit(target, first, g, now)];
            && Timely(ops) && Run(ops).log == [Entry(0, target, first, now, None)]
            && Run(ops).boot == 0 && Run(ops).clock == now
            && (Record(Run(ops).s, target, hit, g, now).1.Banned? <==>
                  PairBans(first, hit, now) && !g.targetSenior && !g.mutualFeud)
            && (PairBans(first, hit, now) && g == UNGUARDED ==> SoloBan(ops, target, hit, g, now))
  {
    hide Hint, NextLevel, Record, NewOffense;
    var op := DoHit(target, first, g, now);
    assert [op][..0] == [] && Run([]) == START;
    FirstIsCounted(START.s, target, first, g, now);
    SecondBansIff(Run([op]).s, target, first, hit, g, now);
  }

  /** A detector hit stamped so far back that its repetition bans at once. */
  predicate BansAtOnce(hit: Hit, now: nat) {
    hit.kind == Detector && MIN_HIT_GAP_MS <= Elapsed(now, hit.atMs) < HIT_TTL_MS
  }

  /** The stamp matters: two equal hits at the same instant ban at once exactly when they are detector hits stamped from
      2 s to 30 minutes back, on a target that is neither senior nor feuding. */
  lemma {:induction false} BackdatedHitsBanAtOnce(target: string, hit: Hit, g: Guards, now: nat)
    ensures Record(Run([DoHit(target, hit, g, now)]).s, target, hit, g, now).1.Banned? <==>
            BansAtOnce(hit, now) && !g.targetSenior && !g.mutualFeud
  {
    hide Run, Record;
    PairBansIff(target, hit, hit, g, now);
  }

  // What of the promise is kept, over all runs.

  function Max(a: int, b: int): int {
    if a >= b then a else b
  }

  /** Stamped back, but not so far that no fresh hit is close. */
  predicate StampedBack(hit: Hit, now: nat) {
    0 < now - hit.atMs <= HIT_TTL_MS - 1 + MIN_HIT_GAP_MS - 1
  }

  /** A hit of the same session that is fresh, at least the gap old, and as close to the new hit as that allows. */
  function CloseTo(hit: Hit, now: nat): (first: Hit)
    requires hit.atMs < now && now >= MIN_HIT_GAP_MS
    ensures first == hit.(atMs := first.atMs) && FreshHit(first, now)
    ensures Elapsed(now, first.atMs) >= MIN_HIT_GAP_MS
    ensures Apart(first, hit) <==> !StampedBack(hit, now)
  {
    var age := Max(MIN_HIT_GAP_MS, if now - hit.atMs < HIT_TTL_MS then now - hit.atMs else HIT_TTL_MS - 1);
    hit.(atMs := now - age)
  }

  /** The ban rests on an earlier hit that is apart from the new one. */
  ghost predicate RestsApart(r: RunState, target: string, hit: Hit, now: nat) {
    exists i: nat :: Supports(r, target, hit, now, i) && Apart(r.log[i].hit, hit)
  }

  lemma {:induction false} OtherwiseApart(ops: seq<BanOp>, target: string, hit: Hit, g: Guards, now: nat)
    requires SoloBan(ops, target, hit, g, now) && !StampedBack(hit, now)
    ensures RestsApart(Run(ops), target, hit, now)
  {
    hide SoloBan, Run;
    SessionBanRestsOnTwoHits(ops, target, hit, g, now);
    if hit.atMs >= now {
      var i: nat :| Supports(Run(ops), target, hit, now, i) && hit.atMs - Run(ops).log[i].hit.atMs >= MIN_HIT_GAP_MS;
      assert Apart(Run(ops).log[i].hit, hit);
    } else {
      var i: nat :| Supports(Run(ops), target, hit, now, i);
      assert Apart(Run(ops).log[i].hit, hit);
    }
  }

  lemma {:induction false} StampedBackBreaks(target: string, hit: Hit, now: nat)
    requires hit.kind == Detector && now >= MIN_HIT_GAP_MS && StampedBack(hit, now)
    ensures var ops := [DoHit(target, CloseTo(hit, now), UNGUARDED, now)];
            && Timely(ops) && Run(ops).clock <= now
            && SoloBan(ops, target, hit, UNGUARDED, now) && !RestsApart(Run(ops), target, hit, now)
  {
    hide SoloBan, Run, CloseTo, Apart;
    PairBansIff(target, CloseTo(hit, now), hit, UNGUARDED, now);
  }

  /** In every run, a session-path ban on the hit rests on an earlier one, unspent and fresh, that is apart from it
      exactly when the hit is not stamped back, or too far back for any fresh hit to be close. (Before 2 s on the clock,
      and for hits of the other kind, there are no such bans.) */
  lemma {:induction false} RunsKeepGapIff(target: string, hit: Hit, now: nat)
    ensures (forall ops, g | SoloBan(ops, target, hit, g, now) :: RestsApart(Run(ops), target, hit, now)) <==>
            hit.kind != Detector || now < MIN_HIT_GAP_MS || !StampedBack(hit, now)
  {
    hide SoloBan, Run, RestsApart, StampedBack;
    forall ops, g | SoloBan(ops, target, hit, g, now)
      ensures hit.kind == Detector && now >= MIN_HIT_GAP_MS
      ensures !StampedBack(hit, now) ==> RestsApart(Run(ops), target, hit, now)
    {
      SessionBanRestsOnTwoHits(ops, target, hit, g, now);
      if !StampedBack(hit, now) {
        OtherwiseApart(ops, target, hit, g, now);
      }
    }
    if hit.kind == Detector && now >= MIN_HIT_GAP_MS && StampedBack(hit, now) {
      StampedBackBreaks(target, hit, now);
    }
  }

  /** The new hit itself is under 30 minutes old in every session-path ban exactly when its stamp says so: nothing
      checks the stamp of the hit that bans. */
  lemma {:induction false} RunsKeepFreshIff(target: string, hit: Hit, now: nat)
    ensures (forall ops, g | SoloBan(ops, target, hit, g, now) :: FreshHit(hit, now)) <==>
            hit.kind != Detector || FreshHit(hit, now)
  {
    hide SoloBan, Run;
    forall ops, g | SoloBan(ops, target, hit, g, now)
      ensures hit.kind == Detector
    {
      SessionBanRestsOnTwoHits(ops, target, hit, g, now);
    }
    if hit.kind == Detector && !FreshHit(hit, now) {
      var first := CloseTo(hit, now);
      PairBansIff(target, first, hit, UNGUARDED, now);
      assert SoloBan([DoHit(target, first, UNGUARDED, now)], target, hit, UNGUARDED, now);
    }
  }

  /** Two hits one millisecond apart, recorded at the same instant, ban. */
  lemma {:induction false} MillisecondApartBans(target: string, hit: Hit, now: nat)
    requires hit.kind == Detector && now >= MIN_HIT_GAP_MS && hit.atMs == now - MIN_HIT_GAP_MS + 1
    ensures SoloBan([DoHit(target, hit.(atMs := hit.atMs - 1), UNGUARDED, now)], target, hit, UNGUARDED, now)
  {
    hide SoloBan, Run;
    PairBansIff(target, hit.(atMs := hit.atMs - 1), hit, UNGUARDED, now);
  }

  // The cross path.

  /** Two hits with a voice, from different clusters, the first from the detector. */
  predicate TwoClusters(a: Hit, b: Hit, hit: Hit, g: Guards) {
    HasVoice(a, hit, g) && HasVoice(b, hit, g) && a.kind == Detector && a.reporterCluster != b.reporterCluster
  }

  /** The cross condition in terms of the hits themselves. */
  lemma {:induction false} CrossReadyIff(list: seq<Hit>, hit: Hit, g: Guards)
    ensures CrossReady(list, hit, g) <==> exists a, b | a in list && b in list :: TwoClusters(a, b, hit, g)
  {
    var voices := VoiceClusters(list, hit, g);
    if CrossReady(list, hit, g) {
      var i: nat :| i < |list| && HasVoice(list[i], hit, g) && list[i].kind == Detector;
      var own := {list[i].reporterCluster};
      if voices <= own {
        SubsetIsSmaller(voices, own);
      }
      var c :| c in voices && c !in own;
      var j: nat :| j < |list| && HasVoice(list[j], hit, g) && list[j].reporterCluster == c;
      assert list[i] in list && list[j] in list && TwoClusters(list[i], list[j], hit, g);
    }
    if a, b :| a in list && b in list && TwoClusters(a, b, hit, g) {
      assert {a.reporterCluster, b.reporterCluster} <= voices;
      SubsetIsSmaller({a.reporterCluster, b.reporterCluster}, voices);
    }
  }

  /** The new hit, or an unspent one on the target under 30 minutes old. */
  ghost predicate Behind(r: RunState, target: string, hit: Hit, now: nat, h: Hit) {
    h == hit || exists i: nat :: FreshEntry(r, target, now, i) && r.log[i].hit == h
  }

  /** Every cross-path ban rests on two hits with a voice from different reporter clusters, one of them from the
      detector, each the new hit or an accepted one on the target that is unspent and fresh. */
  lemma {:induction false} CrossBanRestsOnTwoClusters(ops: seq<BanOp>, target: string, hit: Hit, g: Guards, now: nat)
    requires Record(Run(ops).s, target, hit, g, now).1.Banned?
    requires NewOffense(Run(ops).s, target, hit, g, now).path == CrossPath
    ensures exists a, b | Behind(Run(ops), target, hit, now, a) && Behind(Run(ops), target, hit, now, b) ::
              TwoClusters(a, b, hit, g)
  {
    hide SessionReady, SoloOk, RateExceeded, NextLevel, Hint, FreshHits, Run, Unspent, CrossReady;
    var r := Run(ops);
    var recent := FreshHits(ListOf(r.s.hits, target), now);
    CrossReadyIff(recent + [hit], hit, g);
    var a, b :| a in recent + [hit] && b in recent + [hit] && TwoClusters(a, b, hit, g);
    forall h | h in recent
      ensures Behind(r, target, hit, now, h)
    {
      RecentIsLogged(ops, target, now, h);
    }
    assert Behind(r, target, hit, now, a) && Behind(r, target, hit, now, b);
  }
}
