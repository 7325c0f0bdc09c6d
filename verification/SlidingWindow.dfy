/** Queues of times pruned at the front, as the client limiter and the auto-ban ledger keep them
    (bridge/src/limits.rs:46-63, bridge/src/genital_ban.rs:157-161). */
module SlidingWindow {

  /** The limiter drops what is older than its window; the ban ledger also drops what is exactly that old. */
  datatype Boundary = Strict | NonStrict

  /** Saturating time difference. */
  function Elapsed(now: nat, t: nat): nat {
    if now >= t then now - t else 0
  }

  predicate Expired(t: nat, now: nat, window: nat, b: Boundary) {
    if b.Strict? then Elapsed(now, t) > window else Elapsed(now, t) >= window
  }

  function Pruned(q: seq<nat>, now: nat, window: nat, b: Boundary): seq<nat> {
    if q != [] && Expired(q[0], now, window, b) then Pruned(q[1..], now, window, b) else q
  }

  method Prune(q: seq<nat>, now: nat, window: nat, b: Boundary) returns (r: seq<nat>)
    ensures r == Pruned(q, now, window, b)
  {
    r := q;
    while r != [] && Expired(r[0], now, window, b)
      invariant Pruned(r, now, window, b) == Pruned(q, now, window, b)
      decreases |r|
    {
      r := r[1..];
    }
  }

  ghost predicate Nondecreasing(p: seq<nat>) {
    forall i: nat, j: nat | i < j < |p| :: p[i] <= p[j]
  }

  /** The queue is what is left of the pushed times: a suffix, and everything dropped had expired by then. */
  ghost predicate Tracks(q: seq<nat>, pushed: seq<nat>, clock: nat, window: nat, b: Boundary) {
    && |q| <= |pushed| && q == pushed[|pushed| - |q|..]
    && Nondecreasing(pushed) && (pushed != [] ==> pushed[|pushed| - 1] <= clock)
    && forall i: nat | i < |pushed| - |q| :: Expired(pushed[i], clock, window, b)
  }

  lemma ClockAdvances(q: seq<nat>, pushed: seq<nat>, clock: nat, now: nat, window: nat, b: Boundary)
    requires Tracks(q, pushed, clock, window, b) && clock <= now
    ensures Tracks(q, pushed, now, window, b)
  {}

  /** Pruning keeps the queue in step, and nothing expired is left in it. */
  lemma {:induction false} PrunedTracks(q: seq<nat>, pushed: seq<nat>, clock: nat, now: nat, window: nat, b: Boundary)
    requires Tracks(q, pushed, clock, window, b) && clock <= now
    ensures Tracks(Pruned(q, now, window, b), pushed, now, window, b)
    ensures forall t | t in Pruned(q, now, window, b) :: !Expired(t, now, window, b)
    decreases |q|
  {
    ClockAdvances(q, pushed, clock, now, window, b);
    if q != [] {
      var k := |pushed| - |q|;
      assert q[0] == pushed[k];
      if Expired(q[0], now, window, b) {
        assert q[1..] == pushed[k + 1..];
        PrunedTracks(q[1..], pushed, now, now, window, b);
      } else {
        forall t | t in q
          ensures !Expired(t, now, window, b)
        {
          var i :| 0 <= i < |q| && q[i] == t;
          assert q[i] == pushed[k + i];
        }
      }
    }
  }

  lemma PushTracks(q: seq<nat>, pushed: seq<nat>, now: nat, window: nat, b: Boundary)
    requires Tracks(q, pushed, now, window, b)
    ensures Tracks(q + [now], pushed + [now], now, window, b)
  {
    hide Expired;
    var p, k := pushed + [now], |pushed| - |q|;
    assert p[k..] == pushed[k..] + [now];
    assert forall i: nat | i < k :: p[i] == pushed[i];
  }

  /** A queue that is not full at now leaves the k-th last push expired. */
  lemma ShortQueueExpired(q: seq<nat>, pushed: seq<nat>, now: nat, window: nat, b: Boundary, k: nat)
    requires Tracks(q, pushed, now, window, b) && |q| < k <= |pushed|
    ensures Expired(pushed[|pushed| - k], now, window, b)
  {}

  /** After pruning, k entries are left exactly when the k-th last push is still inside the window. */
  lemma FullIff(q: seq<nat>, pushed: seq<nat>, clock: nat, now: nat, window: nat, b: Boundary, k: nat)
    requires Tracks(q, pushed, clock, window, b) && clock <= now && k > 0
    ensures |Pruned(q, now, window, b)| >= k <==> k <= |pushed| && !Expired(pushed[|pushed| - k], now, window, b)
  {
    hide Pruned;
    PrunedTracks(q, pushed, clock, now, window, b);
    var p := Pruned(q, now, window, b);
    if |p| >= k {
      assert p[|p| - k] == pushed[|pushed| - k] && p[|p| - k] in p;
    }
  }

  /** Any k + 1 consecutive times span at least the window. */
  ghost predicate Spaced(p: seq<nat>, k: nat, window: nat, b: Boundary) {
    forall i: nat | i + k < |p| :: Expired(p[i], p[i + k], window, b)
  }

  lemma EmptyTracks(k: nat, clock: nat, window: nat, b: Boundary)
    ensures Tracks([], [], clock, window, b) && Spaced([], k, window, b)
  {}

  lemma SpacedPush(p: seq<nat>, k: nat, now: nat, window: nat, b: Boundary)
    requires Spaced(p, k, window, b)
    requires k <= |p| ==> Expired(if k == 0 then now else p[|p| - k], now, window, b)
    ensures Spaced(p + [now], k, window, b)
  {
    forall i: nat | i + k < |p + [now]|
      ensures Expired((p + [now])[i], (p + [now])[i + k], window, b)
    {
      if i + k < |p| {
        assert Expired(p[i], p[i + k], window, b);
      }
    }
  }
}
