/** The rules of the auto-ban ledger on values (bridge/src/genital_ban.rs). */
module BanSpec {
  import opened Order
  import opened SlidingWindow

  const HIT_TTL_MS: nat := 30 * 60 * 1000
  const MIN_HIT_GAP_MS: nat := 2_000
  const REPORTER_RATE_PER_HOUR: nat := 10
  const REPORTER_BAN_CAP_24H: nat := 3
  const CLUSTER_BAN_CAP_24H: nat := 6
  const OFFENSE_TTL_SECS: nat := 180 * 24 * 3600
  const HOUR_MS: nat := 3600 * 1000
  const DAY_MS: nat := 24 * 3600 * 1000

  datatype HitKind = Detector | PornOnly

  datatype Hit = Hit(reporterUid: string, reporterCluster: string, sessionId: string, kind: HitKind, atMs: nat)

  datatype Guards = Guards(targetSenior: bool, mutualFeud: bool)

  datatype Path = SessionPath | CrossPath

  /** secs is 0 for a permanent ban. */
  datatype Ban = Ban(level: nat, secs: nat, permanent: bool, path: Path, reporterClusters: seq<string>)

  datatype Decision = Reject(why: string) | Counted(hint: string) | Banned(ban: Ban)

  datatype Offense = Offense(at: nat, level: nat, path: Path, reporterUids: seq<string>,
                             reporterClusters: seq<string>, overturned: bool)

  type Book = map<string, seq<Offense>>

  datatype BanState = BanState(book: Book, hits: map<string, seq<Hit>>, rate: map<string, seq<nat>>,
                               byUid: map<string, seq<nat>>, byCluster: map<string, seq<nat>>)

  /** The list stored under a key, empty when there is none. */
  function ListOf<T>(m: map<string, seq<T>>, k: string): seq<T> {
    if k in m then m[k] else []
  }

  function PrunedTimes(m: map<string, seq<nat>>, k: string, now: nat, window: nat): seq<nat> {
    Pruned(ListOf(m, k), now, window, NonStrict)
  }

  predicate FreshHit(h: Hit, now: nat) {
    Elapsed(now, h.atMs) < HIT_TTL_MS
  }

  function FreshHits(hits: seq<Hit>, now: nat): seq<Hit> {
    if hits == [] then [] else
      var n := |hits| - 1;
      FreshHits(hits[..n], now) + if FreshHit(hits[n], now) then [hits[n]] else []
  }

  /** A hit of the same reporter in the same session, from the detector. */
  predicate SameSession(h: Hit, hit: Hit) {
    h.reporterUid == hit.reporterUid && h.sessionId == hit.sessionId && h.kind == Detector
  }

  function SessionHits(hits: seq<Hit>, hit: Hit): seq<Hit> {
    if hits == [] then [] else
      var n := |hits| - 1;
      SessionHits(hits[..n], hit) + if SameSession(hits[n], hit) then [hits[n]] else []
  }

  predicate SessionReady(list: seq<Hit>, hit: Hit, now: nat) {
    && hit.kind == Detector
    && |SessionHits(list, hit)| >= 2
    && exists i: nat | i < |list| :: SameSession(list[i], hit) && Elapsed(now, list[i].atMs) >= MIN_HIT_GAP_MS
  }

  /** A feuding reporter has no voice on the cross path. */
  predicate HasVoice(h: Hit, hit: Hit, g: Guards) {
    !(g.mutualFeud && h.reporterUid == hit.reporterUid)
  }

  function VoiceClusters(list: seq<Hit>, hit: Hit, g: Guards): set<string> {
    set i: nat | i < |list| && HasVoice(list[i], hit, g) :: list[i].reporterCluster
  }

  predicate CrossReady(list: seq<Hit>, hit: Hit, g: Guards) {
    && |VoiceClusters(list, hit, g)| >= 2
    && exists i: nat | i < |list| :: HasVoice(list[i], hit, g) && list[i].kind == Detector
  }

  function ReporterUids(list: seq<Hit>): set<string> {
    set i: nat | i < |list| :: list[i].reporterUid
  }

  /** Some offense an admin overturned has this reporter behind it. */
  ghost predicate ReporterOverturned(book: Book, uid: string) {
    exists t, i: nat | t in book && i < |book[t]| :: book[t][i].overturned && uid in book[t][i].reporterUids
  }

  // The ladder.

  predicate LiveOffense(o: Offense, nowSecs: nat) {
    !o.overturned && Elapsed(nowSecs, o.at) < OFFENSE_TTL_SECS
  }

  function LiveOffenses(os: seq<Offense>, nowSecs: nat): seq<Offense> {
    if os == [] then [] else
      var n := |os| - 1;
      LiveOffenses(os[..n], nowSecs) + if LiveOffense(os[n], nowSecs) then [os[n]] else []
  }

  function ClustersOf(os: seq<Offense>): set<string> {
    set i: nat, j: nat | i < |os| && j < |os[i].reporterClusters| :: os[i].reporterClusters[j]
  }

  lemma ClustersOfSnoc(os: seq<Offense>, o: Offense)
    ensures ClustersOf(os + [o]) == ClustersOf(os) + Elements(o.reporterClusters)
  {
    var all := os + [o];
    assert all[|os|] == o;
    assert forall i: nat | i < |os| :: all[i] == os[i];
    forall c | c in Elements(o.reporterClusters)
      ensures c in ClustersOf(all)
    {
      var j :| 0 <= j < |o.reporterClusters| && o.reporterClusters[j] == c;
      assert all[|os|].reporterClusters[j] == c;
    }
  }

  function Min(a: nat, b: nat): nat {
    if a <= b then a else b
  }

  /** Level, seconds and permanence of a new offense on top of the live ones. */
  function NextLevel(os: seq<Offense>, newClusters: seq<string>, nowSecs: nat): (nat, nat, bool) {
    var prior := LiveOffenses(os, nowSecs);
    var clusters := Elements(newClusters) + ClustersOf(prior);
    var steps := Min(|prior| + 1, |clusters|);
    var idx := Min(if steps == 0 then 0 else steps - 1, 2);
    if idx == 0 then (1, 24 * 3600, false) else if idx == 1 then (2, 7 * 24 * 3600, false) else (3, 0, true)
  }

  // One validated hit.

  /** Push now onto the queue of every key. */
  function PushAll(m: map<string, seq<nat>>, keys: seq<string>, now: nat): map<string, seq<nat>> {
    if keys == [] then m else
      var n := |keys| - 1;
      var before := PushAll(m, keys[..n], now);
      before[keys[n] := ListOf(before, keys[n]) + [now]]
  }

  /** The state once the hit is within its reporter's rate: queues pruned, the hit counted in the rate. */
  function Charged(s: BanState, hit: Hit, now: nat): BanState {
    var u, c := hit.reporterUid, hit.reporterCluster;
    s.(rate := s.rate[u := PrunedTimes(s.rate, u, now, HOUR_MS) + [now]],
       byUid := s.byUid[u := PrunedTimes(s.byUid, u, now, DAY_MS)],
       byCluster := s.byCluster[c := PrunedTimes(s.byCluster, c, now, DAY_MS)])
  }

  predicate RateExceeded(s: BanState, hit: Hit, now: nat) {
    |PrunedTimes(s.rate, hit.reporterUid, now, HOUR_MS)| >= REPORTER_RATE_PER_HOUR
  }

  predicate Capped(s: BanState, hit: Hit, now: nat) {
    || |PrunedTimes(s.byUid, hit.reporterUid, now, DAY_MS)| >= REPORTER_BAN_CAP_24H
    || |PrunedTimes(s.byCluster, hit.reporterCluster, now, DAY_MS)| >= CLUSTER_BAN_CAP_24H
  }

  ghost predicate SoloOk(s: BanState, hit: Hit, g: Guards, now: nat) {
    !g.targetSenior && !g.mutualFeud && !ReporterOverturned(s.book, hit.reporterUid) && !Capped(s, hit, now)
  }

  /** The target's hits the decision looks at: the fresh ones and the new one. */
  function Evidence(s: BanState, target: string, hit: Hit, now: nat): seq<Hit> {
    FreshHits(ListOf(s.hits, target), now) + [hit]
  }

  ghost function Hint(s: BanState, list: seq<Hit>, hit: Hit, g: Guards, now: nat): string {
    if !SessionReady(list, hit, now) then "counted"
    else if g.targetSenior then "needs_second_reporter_senior"
    else if g.mutualFeud then "needs_second_reporter_feud"
    else if ReporterOverturned(s.book, hit.reporterUid) then "needs_second_reporter_overturned"
    else "needs_second_reporter_cap"
  }

  ghost function NewOffense(s: BanState, target: string, hit: Hit, g: Guards, now: nat): Offense {
    var list := Evidence(s, target, hit, now);
    var cross := CrossReady(list, hit, g);
    var uids := if cross then SortedKeys(ReporterUids(list)) else [hit.reporterUid];
    var clusters := if cross then SortedKeys(VoiceClusters(list, hit, g)) else [hit.reporterCluster];
    var level := NextLevel(ListOf(s.book, target), clusters, now / 1000).0;
    Offense(now / 1000, level, if cross then CrossPath else SessionPath, uids, clusters, false)
  }

  /** The state once the offense is booked: the target's hits are spent, the reporters' triggers are noted. */
  function Punished(s: BanState, target: string, o: Offense, now: nat): BanState {
    s.(hits := s.hits - {target},
       byUid := PushAll(s.byUid, o.reporterUids, now),
       byCluster := PushAll(s.byCluster, o.reporterClusters, now),
       book := s.book[target := ListOf(s.book, target) + [o]])
  }

  function BanFor(s: BanState, target: string, o: Offense, now: nat): Ban {
    var ladder := NextLevel(ListOf(s.book, target), o.reporterClusters, now / 1000);
    Ban(ladder.0, ladder.1, ladder.2, o.path, o.reporterClusters)
  }

  ghost function Record(s: BanState, target: string, hit: Hit, g: Guards, now: nat): (BanState, Decision) {
    if RateExceeded(s, hit, now) then
      (s.(rate := s.rate[hit.reporterUid := PrunedTimes(s.rate, hit.reporterUid, now, HOUR_MS)]), Reject("rate"))
    else
      var s1 := Charged(s, hit, now);
      var list := Evidence(s, target, hit, now);
      if !CrossReady(list, hit, g) && !(SessionReady(list, hit, now) && SoloOk(s, hit, g, now)) then
        (s1.(hits := s1.hits[target := list]), Counted(Hint(s, list, hit, g, now)))
      else
        var o := NewOffense(s, target, hit, g, now);
        (Punished(s1, target, o, now), Banned(BanFor(s1, target, o, now)))
  }

  // Admin unban and garbage collection.

  /** The ban of this offense has not run out. Offenses of level 3 never do. */
  predicate Running(o: Offense, nowSecs: nat) {
    o.level >= 3 || nowSecs < o.at + if o.level <= 1 then 24 * 3600 else 7 * 24 * 3600
  }

  function Overturned(os: seq<Offense>, nowSecs: nat): (r: seq<Offense>)
    ensures |r| == |os|
  {
    seq(|os|, i requires 0 <= i < |os| =>
      if !os[i].overturned && Running(os[i], nowSecs) then os[i].(overturned := true) else os[i])
  }

  /** How many offenses an unban marks. */
  function MarkedBy(os: seq<Offense>, nowSecs: nat): nat {
    if os == [] then 0 else
      var n := |os| - 1;
      MarkedBy(os[..n], nowSecs) + if !os[n].overturned && Running(os[n], nowSecs) then 1 else 0
  }

  function OverturnRecent(s: BanState, target: string, nowSecs: nat): BanState {
    if target in s.book then s.(book := s.book[target := Overturned(s.book[target], nowSecs)]) else s
  }

  function Unexpired(os: seq<Offense>, nowSecs: nat): seq<Offense> {
    if os == [] then [] else
      var n := |os| - 1;
      Unexpired(os[..n], nowSecs) + if Elapsed(nowSecs, os[n].at) < OFFENSE_TTL_SECS then [os[n]] else []
  }

  function Gc(s: BanState, nowSecs: nat): BanState {
    s.(book := map t | t in s.book && Unexpired(s.book[t], nowSecs) != [] :: Unexpired(s.book[t], nowSecs))
  }

  /** A restart keeps only the offense book. */
  function Restarted(s: BanState): BanState {
    BanState(s.book, map[], map[], map[], map[])
  }
}
