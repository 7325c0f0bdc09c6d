/** Per-connection sliding-window limits (bridge/src/limits.rs). Times are in clock ticks. */
module Limits {
  import opened SlidingWindow

  datatype LimitConfig = LimitConfig(maxMessages: nat, messageWindow: nat, maxChat: nat, chatWindow: nat,
                                     maxMatchCmds: nat, matchWindow: nat)

  /** The queue and the answer of one request at time now. */
  function Allowed(q: seq<nat>, max: nat, window: nat, now: nat): (seq<nat>, bool) {
    var p := Pruned(q, now, window, Strict);
    if |p| >= max then (p, false) else (p + [now], true)
  }

  method Allow(q: seq<nat>, max: nat, window: nat, now: nat) returns (r: seq<nat>, ok: bool)
    ensures (r, ok) == Allowed(q, max, window, now)
  {
    r := Prune(q, now, window, Strict);
    if |r| >= max {
      return r, false;
    }
    r := r + [now];
    ok := true;
  }

  datatype Kind = Message | Chat | MatchCmd

  function Max(cfg: LimitConfig, k: Kind): nat {
    match k case Message => cfg.maxMessages case Chat => cfg.maxChat case MatchCmd => cfg.maxMatchCmds
  }

  function Window(cfg: LimitConfig, k: Kind): nat {
    match k case Message => cfg.messageWindow case Chat => cfg.chatWindow case MatchCmd => cfg.matchWindow
  }

  datatype Queues = Queues(messages: seq<nat>, chat: seq<nat>, matchCmds: seq<nat>) {
    function Get(k: Kind): seq<nat> {
      match k case Message => messages case Chat => chat case MatchCmd => matchCmds
    }

    function Set(k: Kind, q: seq<nat>): (r: Queues)
      ensures forall j: Kind :: r.Get(j) == if j == k then q else Get(j)
    {
      match k
      case Message => this.(messages := q)
      case Chat => this.(chat := q)
      case MatchCmd => this.(matchCmds := q)
    }
  }

  function Request(q: Queues, cfg: LimitConfig, k: Kind, now: nat): (Queues, bool) {
    var r := Allowed(q.Get(k), Max(cfg, k), Window(cfg, k), now);
    (q.Set(k, r.0), r.1)
  }

  class ClientLimiter {
    var messages: seq<nat>
    var chat: seq<nat>
    var matchCmds: seq<nat>

    constructor ()
      ensures Abs() == Queues([], [], [])
    {
      messages, chat, matchCmds := [], [], [];
    }

    function Abs(): Queues
      reads this
    {
      Queues(messages, chat, matchCmds)
    }

    method AllowMessage(cfg: LimitConfig, now: nat) returns (ok: bool)
      modifies this
      ensures (Abs(), ok) == Request(old(Abs()), cfg, Message, now)
    {
      messages, ok := Allow(messages, cfg.maxMessages, cfg.messageWindow, now);
    }

    method AllowChat(cfg: LimitConfig, now: nat) returns (ok: bool)
      modifies this
      ensures (Abs(), ok) == Request(old(Abs()), cfg, Chat, now)
    {
      chat, ok := Allow(chat, cfg.maxChat, cfg.chatWindow, now);
    }

    method AllowMatchCmd(cfg: LimitConfig, now: nat) returns (ok: bool)
      modifies this
      ensures (Abs(), ok) == Request(old(Abs()), cfg, MatchCmd, now)
    {
      matchCmds, ok := Allow(matchCmds, cfg.maxMatchCmds, cfg.matchWindow, now);
    }
  }

  // Runs: any interleaving of the three kinds of request under one configuration.

  datatype Event = Event(kind: Kind, now: nat)

  ghost predicate Monotone(es: seq<Event>) {
    forall i: nat, j: nat | i < j < |es| :: es[i].now <= es[j].now
  }

  function Run(cfg: LimitConfig, es: seq<Event>): Queues {
    if es == [] then Queues([], [], []) else
      var e := es[|es| - 1];
      Request(Run(cfg, es[..|es| - 1]), cfg, e.kind, e.now).0
  }

  /** The times of the accepted requests of one kind. */
  function Accepted(cfg: LimitConfig, es: seq<Event>, k: Kind): seq<nat> {
    if es == [] then [] else
      var n := |es| - 1;
      var e := es[n];
      Accepted(cfg, es[..n], k) + if e.kind == k && Request(Run(cfg, es[..n]), cfg, k, e.now).1 then [e.now] else []
  }

  /** One request keeps the queue in step with the accepted times, and the times spaced. */
  lemma RequestTracks(q: seq<nat>, a: seq<nat>, clock: nat, max: nat, window: nat, now: nat)
    requires Tracks(q, a, clock, window, Strict) && Spaced(a, max, window, Strict) && clock <= now
    ensures var (r, ok) := Allowed(q, max, window, now);
            var a' := if ok then a + [now] else a;
            Tracks(r, a', now, window, Strict) && Spaced(a', max, window, Strict)
  {
    hide Tracks, Spaced, Pruned;
    PrunedTracks(q, a, clock, now, window, Strict);
    var p := Pruned(q, now, window, Strict);
    if |p| < max {
      PushTracks(p, a, now, window, Strict);
      if max <= |a| {
        ShortQueueExpired(p, a, now, window, Strict, max);
      }
      SpacedPush(a, max, now, window, Strict);
    }
  }

  function Clock(es: seq<Event>): nat {
    if es == [] then 0 else es[|es| - 1].now
  }

  lemma {:induction false} RunTracks(cfg: LimitConfig, es: seq<Event>, k: Kind)
    requires Monotone(es)
    ensures Tracks(Run(cfg, es).Get(k), Accepted(cfg, es, k), Clock(es), Window(cfg, k), Strict)
    ensures Spaced(Accepted(cfg, es, k), Max(cfg, k), Window(cfg, k), Strict)
    decreases |es|
  {
    hide Tracks, Spaced, Allowed;
    if es == [] {
      EmptyTracks(Max(cfg, k), 0, Window(cfg, k), Strict);
    } else {
      assert Clock(es[..|es| - 1]) <= es[|es| - 1].now;
      var n := |es| - 1;
      var q, a := Run(cfg, es[..n]).Get(k), Accepted(cfg, es[..n], k);
      RunTracks(cfg, es[..n], k);
      assert a + [] == a;
      if es[n].kind == k {
        RequestTracks(q, a, Clock(es[..n]), Max(cfg, k), Window(cfg, k), es[n].now);
      } else {
        ClockAdvances(q, a, Clock(es[..n]), es[n].now, Window(cfg, k), Strict);
      }
    }
  }

  /** Any max + 1 accepted requests of one kind span more than the window. */
  lemma {:induction false} AcceptedAreSpaced(cfg: LimitConfig, es: seq<Event>, k: Kind, i: nat)
    requires Monotone(es) && i + Max(cfg, k) < |Accepted(cfg, es, k)|
    ensures Accepted(cfg, es, k)[i + Max(cfg, k)] - Accepted(cfg, es, k)[i] > Window(cfg, k)
  {
    RunTracks(cfg, es, k);
    assert Expired(Accepted(cfg, es, k)[i], Accepted(cfg, es, k)[i + Max(cfg, k)], Window(cfg, k), Strict);
  }

  /** A request is rejected exactly when the last max accepted ones all lie inside the window. */
  lemma RejectedIffFull(cfg: LimitConfig, es: seq<Event>, k: Kind, now: nat)
    requires Monotone(es) && Clock(es) <= now
    ensures var a := Accepted(cfg, es, k);
            !Request(Run(cfg, es), cfg, k, now).1 <==>
            Max(cfg, k) <= |a| && (Max(cfg, k) > 0 ==> now - a[|a| - Max(cfg, k)] <= Window(cfg, k))
  {
    hide Tracks, Spaced, Pruned, Accepted, Run;
    RunTracks(cfg, es, k);
    if Max(cfg, k) > 0 {
      FullIff(Run(cfg, es).Get(k), Accepted(cfg, es, k), Clock(es), now, Window(cfg, k), Strict, Max(cfg, k));
    }
  }

  /** The last max accepted requests all lie inside the window. */
  predicate Busy(a: seq<nat>, max: nat, window: nat, now: nat) {
    max <= |a| && (max > 0 ==> now - a[|a| - max] <= window)
  }

  /** Which setting limits which kind of request. */
  lemma {:induction false} EachKindHasItsLimit(cfg: LimitConfig, es: seq<Event>, now: nat)
    requires Monotone(es) && Clock(es) <= now
    ensures var q := Run(cfg, es);
            && (Request(q, cfg, Message, now).1 <==>
                  !Busy(Accepted(cfg, es, Message), cfg.maxMessages, cfg.messageWindow, now))
            && (Request(q, cfg, Chat, now).1 <==>
                  !Busy(Accepted(cfg, es, Chat), cfg.maxChat, cfg.chatWindow, now))
            && (Request(q, cfg, MatchCmd, now).1 <==>
                  !Busy(Accepted(cfg, es, MatchCmd), cfg.maxMatchCmds, cfg.matchWindow, now))
  {
    hide Request, Accepted, Run;
    RejectedIffFull(cfg, es, Message, now);
    RejectedIffFull(cfg, es, Chat, now);
    RejectedIffFull(cfg, es, MatchCmd, now);
  }
}
