/** The auto-ban ledger object (bridge/src/genital_ban.rs): evidence queues and an offense book,
    updated hit by hit. */
module BanLedger {
  import opened Order
  import opened SlidingWindow
  import opened BanSpec

  class GenitalLedger {
    var book: Book
    var hits: map<string, seq<Hit>>
    var rate: map<string, seq<nat>>
    var triggeredByUid: map<string, seq<nat>>
    var triggeredByCluster: map<string, seq<nat>>

    function Abs(): BanState
      reads this
    {
      BanState(book, hits, rate, triggeredByUid, triggeredByCluster)
    }

    /** A restart: the book survives, half-finished evidence does not. */
    constructor WithBook(book: Book)
      ensures Abs() == BanState(book, map[], map[], map[], map[])
    {
      this.book := book;
      hits, rate, triggeredByUid, triggeredByCluster := map[], map[], map[], map[];
    }

    method ReporterOverturnedNow(uid: string) returns (r: bool)
      ensures r == ReporterOverturned(book, uid)
    {
      var rest := book.Keys;
      while rest != {}
        invariant rest <= book.Keys
        invariant forall t | t in book.Keys - rest ::
          forall i: nat | i < |book[t]| :: !(book[t][i].overturned && uid in book[t][i].reporterUids)
        decreases |rest|
      {
        var t :| t in rest;
        for i := 0 to |book[t]|
          invariant forall j: nat | j < i :: !(book[t][j].overturned && uid in book[t][j].reporterUids)
        {
          if book[t][i].overturned && uid in book[t][i].reporterUids {
            return true;
          }
        }
        rest := rest - {t};
      }
      r := false;
    }

    method CapReached(uid: string, cluster: string, now: nat) returns (r: bool)
      modifies this
      ensures var uidTimes := PrunedTimes(old(triggeredByUid), uid, now, DAY_MS);
              var clusterTimes := PrunedTimes(old(triggeredByCluster), cluster, now, DAY_MS);
              Abs() == old(Abs()).(byUid := old(triggeredByUid)[uid := uidTimes],
                                   byCluster := old(triggeredByCluster)[cluster := clusterTimes])
      ensures r == (|triggeredByUid[uid]| >= REPORTER_BAN_CAP_24H
                    || |triggeredByCluster[cluster]| >= CLUSTER_BAN_CAP_24H)
    {
      var u := Prune(ListOf(triggeredByUid, uid), now, DAY_MS, NonStrict);
      triggeredByUid := triggeredByUid[uid := u];
      var c := Prune(ListOf(triggeredByCluster, cluster), now, DAY_MS, NonStrict);
      triggeredByCluster := triggeredByCluster[cluster := c];
      r := |u| >= REPORTER_BAN_CAP_24H || |c| >= CLUSTER_BAN_CAP_24H;
    }

    method RetainFresh(list: seq<Hit>, now: nat) returns (r: seq<Hit>)
      ensures r == FreshHits(list, now)
    {
      r := [];
      for i := 0 to |list|
        invariant r == FreshHits(list[..i], now)
      {
        assert list[..i + 1][..i] == list[..i];
        if Elapsed(now, list[i].atMs) < HIT_TTL_MS {
          r := r + [list[i]];
        }
      }
      assert list[..|list|] == list;
    }

    method CheckSession(list: seq<Hit>, hit: Hit, now: nat) returns (ready: bool)
      ensures ready == SessionReady(list, hit, now)
    {
      var sessionHits := [];
      var aged := false;
      for i := 0 to |list|
        invariant sessionHits == SessionHits(list[..i], hit)
        invariant aged == exists j: nat | j < i ::
                    SameSession(list[j], hit) && Elapsed(now, list[j].atMs) >= MIN_HIT_GAP_MS
      {
        assert list[..i + 1][..i] == list[..i];
        if SameSession(list[i], hit) {
          sessionHits := sessionHits + [list[i]];
          aged := aged || Elapsed(now, list[i].atMs) >= MIN_HIT_GAP_MS;
        }
      }
      assert list[..|list|] == list;
      ready := hit.kind == Detector && |sessionHits| >= 2 && aged;
    }

    method CheckCross(list: seq<Hit>, hit: Hit, g: Guards) returns (clusters: set<string>, ready: bool)
      ensures clusters == VoiceClusters(list, hit, g) && ready == CrossReady(list, hit, g)
    {
      clusters := {};
      var anyDetector := false;
      for i := 0 to |list|
        invariant clusters == set j: nat | j < i && HasVoice(list[j], hit, g) :: list[j].reporterCluster
        invariant anyDetector == exists j: nat | j < i :: HasVoice(list[j], hit, g) && list[j].kind == Detector
      {
        if g.mutualFeud && list[i].reporterUid == hit.reporterUid {
          continue;
        }
        clusters := clusters + {list[i].reporterCluster};
        anyDetector := anyDetector || list[i].kind == Detector;
      }
      ready := |clusters| >= 2 && anyDetector;
    }

    method CollectUids(list: seq<Hit>) returns (uids: seq<string>)
      ensures uids == SortedKeys(ReporterUids(list))
    {
      var s: set<string> := {};
      for i := 0 to |list|
        invariant s == set j: nat | j < i :: list[j].reporterUid
      {
        s := s + {list[i].reporterUid};
      }
      uids := SortKeys(s);
    }

    method PushEach(m: map<string, seq<nat>>, keys: seq<string>, now: nat) returns (r: map<string, seq<nat>>)
      ensures r == PushAll(m, keys, now)
    {
      r := m;
      for i := 0 to |keys|
        invariant r == PushAll(m, keys[..i], now)
      {
        assert keys[..i + 1][..i] == keys[..i];
        r := r[keys[i] := ListOf(r, keys[i]) + [now]];
      }
      assert keys[..|keys|] == keys;
    }

    /** Level of a new offense for the target. */
    method NextLevelFor(target: string, newClusters: seq<string>, nowSecs: nat)
      returns (level: nat, secs: nat, permanent: bool)
      ensures (level, secs, permanent) == NextLevel(ListOf(book, target), newClusters, nowSecs)
    {
      var os := ListOf(book, target);
      var prior: seq<Offense> := [];
      for i := 0 to |os|
        invariant prior == LiveOffenses(os[..i], nowSecs)
      {
        assert os[..i + 1][..i] == os[..i];
        if !os[i].overturned && Elapsed(nowSecs, os[i].at) < OFFENSE_TTL_SECS {
          prior := prior + [os[i]];
        }
      }
      assert os[..|os|] == os;
      var clusters := Elements(newClusters);
      for i := 0 to |prior|
        invariant clusters == Elements(newClusters) + ClustersOf(prior[..i])
      {
        ClustersOfSnoc(prior[..i], prior[i]);
        assert prior[..i + 1] == prior[..i] + [prior[i]];
        clusters := clusters + Elements(prior[i].reporterClusters);
      }
      assert prior[..|prior|] == prior;
      var steps := Min(|prior| + 1, |clusters|);
      var idx := Min(if steps == 0 then 0 else steps - 1, 2);
      match idx {
        case 0 => return 1, 24 * 3600, false;
        case 1 => return 2, 7 * 24 * 3600, false;
        case _ => return 3, 0, true;
      }
    }

    /** Book an offense: spend the target's hits, note the triggers, climb the ladder. */
    method Punish(target: string, path: Path, uids: seq<string>, clusters: seq<string>, now: nat) returns (ban: Ban)
      modifies this
      ensures var level := NextLevel(ListOf(old(book), target), clusters, now / 1000).0;
              var o := Offense(now / 1000, level, path, uids, clusters, false);
              Abs() == Punished(old(Abs()), target, o, now) && ban == BanFor(old(Abs()), target, o, now)
    {
      hide NextLevel, PushAll;
      hits := hits - {target};
      triggeredByUid := PushEach(triggeredByUid, uids, now);
      triggeredByCluster := PushEach(triggeredByCluster, clusters, now);
      var nowSecs := now / 1000;
      var level, secs, permanent := NextLevelFor(target, clusters, nowSecs);
      book := book[target := ListOf(book, target) + [Offense(nowSecs, level, path, uids, clusters, false)]];
      ban := Ban(level, secs, permanent, path, clusters);
    }

    /** The reporter's rate limit, then the facts that decide whether the reporter may ban alone. */
    method Admit(hit: Hit, now: nat) returns (admitted: bool, overturned: bool, capped: bool)
      modifies this
      ensures admitted == !RateExceeded(old(Abs()), hit, now)
      ensures !admitted ==> var times := PrunedTimes(old(rate), hit.reporterUid, now, HOUR_MS);
                            Abs() == old(Abs()).(rate := old(rate)[hit.reporterUid := times])
      ensures admitted ==> Abs() == Charged(old(Abs()), hit, now)
      ensures admitted ==> overturned == ReporterOverturned(old(book), hit.reporterUid)
      ensures admitted ==> capped == Capped(old(Abs()), hit, now)
    {
      hide ReporterOverturned, Pruned;
      ghost var m := rate;
      var q := Prune(ListOf(rate, hit.reporterUid), now, HOUR_MS, NonStrict);
      rate := rate[hit.reporterUid := q];
      if |q| >= REPORTER_RATE_PER_HOUR {
        return false, false, false;
      }
      rate := rate[hit.reporterUid := q + [now]];
      assert rate == m[hit.reporterUid := q + [now]];
      overturned := ReporterOverturnedNow(hit.reporterUid);
      capped := CapReached(hit.reporterUid, hit.reporterCluster, now);
      admitted := true;
    }

    /** Count one validated hit and decide. */
    method RecordHit(target: string, hit: Hit, guards: Guards, now: nat) returns (d: Decision)
      modifies this
      ensures (Abs(), d) == Record(old(Abs()), target, hit, guards, now)
    {
      hide NextLevel, SessionReady, CrossReady, VoiceClusters, ReporterUids, FreshHits, Punished, BanFor,
           ReporterOverturned, Capped, RateExceeded;
      ghost var s := Abs();
      var admitted, overturned, capped := Admit(hit, now);
      if !admitted {
        return Reject("rate");
      }

      var list := RetainFresh(ListOf(hits, target), now);
      list := list + [hit];
      hits := hits[target := list];
      var soloOk := !guards.targetSenior && !guards.mutualFeud && !overturned && !capped;
      var sessionReady := CheckSession(list, hit, now);
      var clusters, crossReady := CheckCross(list, hit, guards);
      assert soloOk == SoloOk(s, hit, guards, now);
      assert list == Evidence(s, target, hit, now);

      var path;
      if crossReady {
        path := CrossPath;
      } else if sessionReady && soloOk {
        path := SessionPath;
      } else {
        return Counted(
          if sessionReady then
            if guards.targetSenior then "needs_second_reporter_senior"
            else if guards.mutualFeud then "needs_second_reporter_feud"
            else if overturned then "needs_second_reporter_overturned"
            else "needs_second_reporter_cap"
          else "counted");
      }

      var uids := CollectUids(list);
      var reporterClusters := [hit.reporterCluster];
      if path == CrossPath {
        reporterClusters := SortKeys(clusters);
      } else {
        uids := [hit.reporterUid];
      }
      PunishedForgetsHits(Charged(s, hit, now), target, list,
                          NewOffense(s, target, hit, guards, now), now);
      var ban := Punish(target, path, uids, reporterClusters, now);
      d := Banned(ban);
    }

    /** Admin unban: mark the offenses whose ban is still running. */
    method Overturn(target: string, nowSecs: nat) returns (n: nat)
      modifies this
      ensures Abs() == OverturnRecent(old(Abs()), target, nowSecs)
      ensures n == MarkedBy(ListOf(old(book), target), nowSecs)
    {
      n := 0;
      if target in book {
        var os := book[target];
        var r: seq<Offense> := [];
        for i := 0 to |os|
          invariant r == Overturned(os, nowSecs)[..i]
          invariant n == MarkedBy(os[..i], nowSecs)
        {
          assert os[..i + 1][..i] == os[..i];
          if !os[i].overturned && Running(os[i], nowSecs) {
            r := r + [os[i].(overturned := true)];
            n := n + 1;
          } else {
            r := r + [os[i]];
          }
        }
        assert os[..|os|] == os && r == Overturned(os, nowSecs);
        book := book[target := r];
      }
    }

    /** Drop offenses older than their time to live. */
    method CollectGarbage(nowSecs: nat)
      modifies this
      ensures Abs() == Gc(old(Abs()), nowSecs)
    {
      var rest := book.Keys;
      var kept: Book := map[];
      while rest != {}
        invariant rest <= book.Keys
        invariant kept ==
                  map t | t in book.Keys - rest && Unexpired(book[t], nowSecs) != [] :: Unexpired(book[t], nowSecs)
        decreases |rest|
      {
        var t :| t in rest;
        var r: seq<Offense> := [];
        var os := book[t];
        for i := 0 to |os|
          invariant r == Unexpired(os[..i], nowSecs)
        {
          assert os[..i + 1][..i] == os[..i];
          if Elapsed(nowSecs, os[i].at) < OFFENSE_TTL_SECS {
            r := r + [os[i]];
          }
        }
        assert os[..|os|] == os;
        if r != [] {
          kept := kept[t := r];
        }
        rest := rest - {t};
      }
      book := kept;
    }
  }

  /** Booking an offense does not depend on the hits that were pending on the target. */
  lemma PunishedForgetsHits(s: BanState, target: string, list: seq<Hit>, o: Offense, now: nat)
    ensures var t := s.(hits := s.hits[target := list]);
            Punished(t, target, o, now) == Punished(s, target, o, now)
            && BanFor(t, target, o, now) == BanFor(s, target, o, now)
  {
    assert s.hits[target := list] - {target} == s.hits - {target};
  }
}
