/** The star ledger object (bridge/src/star_ledger.rs): an in-memory cache beside an append-only log.
    Disk writes succeed. */
module StarLedger {
  import opened Text
  import opened Order
  import opened StarEvents
  import opened StarSpec

  class LogFile {
    var lines: seq<Line>

    constructor ()
      ensures lines == []
    {
      lines := [];
    }
  }

  method ApplyEventToBalances(balances: map<string, nat>, e: StarEvent) returns (b: map<string, nat>)
    ensures b == ApplyBalances(balances, e)
  {
    b := balances;
    if e.kind == KIND_MINT || e.kind == KIND_ADJUST {
      if e.to == "" || e.amount == 0 {
        return;
      }
      var next := Get(b, e.to) + e.amount;
      b := b[e.to := next];
    } else if e.kind == KIND_SPEND || e.kind == KIND_CLAWBACK {
      var who;
      if e.from != "" {
        who := e.from;
      } else if e.to != "" {
        who := e.to;
      } else {
        return;
      }
      if e.amount == 0 {
        return;
      }
      var have := Get(b, who);
      var next := Minus(have, e.amount);
      if next == 0 {
        b := b - {who};
      } else {
        b := b[who := next];
      }
    }
  }

  method ApplyEventToTrust(trust: map<string, nat>, edges: set<string>, lastTs: map<string, nat>, e: StarEvent)
    returns (t: map<string, nat>, s: set<string>, l: map<string, nat>)
    ensures t == ApplyTrust(trust, e) && s == ApplyEdges(edges, e) && l == ApplyLastTs(lastTs, e)
  {
    t, s, l := trust, edges, lastTs;
    if e.kind == KIND_CLAWBACK {
      var who;
      if e.from != "" {
        who := e.from;
      } else if e.to != "" {
        who := e.to;
      } else {
        return;
      }
      var burn := ParseTrustBurnSession(e.session);
      if burn > 0 {
        var next := Minus(Get(t, who), burn);
        if next == 0 {
          t := t - {who};
        } else {
          t := t[who := next];
        }
      }
      if e.ts > 0 {
        var prev := Get(l, who);
        if e.ts >= prev {
          l := l[who := e.ts];
        }
      }
      return;
    }
    if e.kind != KIND_MINT && e.kind != KIND_ADJUST {
      return;
    }
    if !IsTrustMintReason(e.reason) || e.to == "" || e.amount == 0 {
      return;
    }
    var next := Get(t, e.to) + e.amount;
    t := t[e.to := next];
    if e.from != "" && e.from != e.to {
      s := s + {e.from + "|" + e.to};
    }
    if e.ts > 0 {
      var prev := Get(l, e.to);
      if e.ts >= prev {
        l := l[e.to := e.ts];
      }
    }
  }

  lemma LegacyUsersAreKeys(legacy: map<string, nat>)
    ensures LegacyUsers(legacy) <= legacy.Keys
  {}

  class Ledger {
    const h: Hash
    const file: LogFile
    var seqNo: nat
    var tipHash: string
    var spentOps: set<string>
    var balances: map<string, nat>
    var trustScores: map<string, nat>
    var trustEdges: set<string>
    var trustLastTs: map<string, nat>

    function Mem(): State
      reads this
    {
      State(seqNo, tipHash, balances, spentOps, trustScores, trustEdges, trustLastTs)
    }

    function Abs(): World
      reads this, file
    {
      World(Mem(), file.lines)
    }

    /** Load the ledger; when its log yields nothing, seed it from the legacy counts. */
    constructor LoadOrMigrate(h: Hash, file: LogFile, legacy: map<string, nat>, ids: nat -> string, ts: nat)
      modifies file
      ensures this.h == h && this.file == file
      ensures Abs() == Load(h, old(file.lines), legacy, ids, ts)
    {
      this.h := h;
      this.file := file;
      seqNo, tipHash, spentOps, balances := 0, "", {}, map[];
      trustScores, trustEdges, trustLastTs := map[], {}, map[];
      new;
      hide Apply, MakeEvent, Replay, Payload, LegacyUsers;
      assert LegacyUsers(legacy) <= legacy.Keys by {
        LegacyUsersAreKeys(legacy);
      }
      ReplayFile();
      if seqNo == 0 {
        ghost var w := Abs();
        var users := SortKeys(LegacyUsers(legacy));
        for i := 0 to |users|
          invariant Abs() == Genesis(h, w, legacy, users[..i], ids, ts)
        {
          var e := AppendEvent(KIND_ADJUST, "", users[i], legacy[users[i]], "genesis_snapshot", "", "",
                               Stamp(ids(i), ts));
          assert users[..i + 1][..i] == users[..i];
        }
        assert users[..|users|] == users;
      }
    }

    /** Verify and apply the log line by line, stopping at the first line that breaks the chain. */
    method ReplayFile()
      requires Mem() == EMPTY
      modifies this
      ensures Mem() == Replay(h, EMPTY, file.lines)
    {
      var lines := file.lines;
      var expectedSeq, prev := 0, "";
      var b: map<string, nat>, ops: set<string>, t: map<string, nat> := map[], {}, map[];
      var s: set<string>, l: map<string, nat> := {}, map[];
      ghost var state := EMPTY;
      var i := 0;
      while i < |lines|
        invariant i <= |lines|
        invariant state == State(expectedSeq, prev, b, ops, t, s, l)
        invariant seqNo == expectedSeq && tipHash == prev
        invariant Replay(h, EMPTY, lines) == Replay(h, state, lines[i..])
      {
        var line := lines[i];
        assert lines[i..][1..] == lines[i + 1..];
        i := i + 1;
        if line.Blank? {
          continue;
        }
        if line.Corrupt? {
          break;
        }
        var e := line.event;
        if e.seqNo != expectedSeq + 1 || e.prevHash != prev {
          break;
        }
        var recomputed := h(Payload(e));
        if recomputed != e.hash {
          break;
        }
        state := Apply(state, e);
        expectedSeq := expectedSeq + 1;
        b := ApplyEventToBalances(b, e);
        t, s, l := ApplyEventToTrust(t, s, l, e);
        if (e.kind == KIND_SPEND || e.kind == KIND_CLAWBACK) && e.opId != "" {
          ops := ops + {e.opId};
        }
        prev := e.hash;
        seqNo := e.seqNo;
        tipHash := e.hash;
      }
      balances, spentOps, trustScores, trustEdges, trustLastTs := b, ops, t, s, l;
    }

    /** Append one event to the log, then to the cache. */
    method AppendEvent(kind: string, from: string, to: string, amount: nat, reason: string, session: string,
                       opId: string, stamp: Stamp) returns (e: StarEvent)
      modifies this, file
      ensures e == MakeEvent(h, old(Mem()), kind, from, to, amount, reason, session, opId, stamp)
      ensures Abs() == Append(old(Abs()), e)
    {
      hide Payload, ApplyBalances, ApplyTrust, ApplyEdges, ApplyLastTs;
      var next := seqNo + 1;
      e := StarEvent(next, stamp.id, kind, from, to, amount, reason, session, opId, stamp.ts, tipHash, "");
      var hash := h(Payload(e));
      e := e.(hash := hash);
      file.lines := file.lines + [Entry(e)];
      balances := ApplyEventToBalances(balances, e);
      trustScores, trustEdges, trustLastTs := ApplyEventToTrust(trustScores, trustEdges, trustLastTs, e);
      if (e.kind == KIND_SPEND || e.kind == KIND_CLAWBACK) && e.opId != "" {
        spentOps := spentOps + {e.opId};
      }
      seqNo := next;
      tipHash := hash;
    }

    method MintFrom(from: string, to: string, amount: nat, reason: string, session: string, stamp: Stamp)
      returns (r: Outcome)
      modifies this, file
      ensures (Abs(), r) == StarSpec.MintFrom(h, old(Abs()), from, to, amount, reason, session, stamp)
    {
      if to == "" || amount == 0 {
        var e := StarEvent(seqNo, "", KIND_MINT, from, to, 0, reason, session, "", stamp.ts, tipHash, tipHash);
        return Done(e, Balance(Mem(), to));
      }
      var e := AppendEvent(KIND_MINT, from, to, amount, reason, session, "", stamp);
      return Done(e, Balance(Mem(), to));
    }

    method Adjust(to: string, amount: nat, reason: string, stamp: Stamp) returns (r: Outcome)
      modifies this, file
      ensures (Abs(), r) == StarSpec.Adjust(h, old(Abs()), to, amount, reason, stamp)
    {
      if to == "" || amount == 0 {
        r := MintFrom("", to, 0, reason, "", stamp);
        return;
      }
      var e := AppendEvent(KIND_ADJUST, "", to, amount, reason, "", "", stamp);
      return Done(e, Balance(Mem(), to));
    }

    method Spend(from: string, to: string, amount: nat, reason: string, opId: string, session: string, stamp: Stamp)
      returns (r: Outcome)
      modifies this, file
      ensures (Abs(), r) == StarSpec.Spend(h, old(Abs()), from, to, amount, reason, opId, session, stamp)
    {
      if from == "" || amount == 0 {
        return Failed(EmptySpend);
      }
      var op := Trim(opId);
      if op != "" && op in spentOps {
        return Failed(AlreadyApplied(Balance(Mem(), from)));
      }
      var have := Balance(Mem(), from);
      if have < amount {
        return Failed(Insufficient(have, amount));
      }
      var e := AppendEvent(KIND_SPEND, from, to, amount, reason, session, op, stamp);
      return Done(e, Balance(Mem(), from));
    }

    method Clawback(userId: string, balanceBurn: nat, trustBurn: nat, reason: string, opId: string, stamp: Stamp)
      returns (r: Outcome)
      modifies this, file
      ensures (Abs(), r) == StarSpec.Clawback(h, old(Abs()), userId, balanceBurn, trustBurn, reason, opId, stamp)
    {
      var uid := Trim(userId);
      if uid == "" {
        return Failed(EmptySpend);
      }
      if balanceBurn == 0 && trustBurn == 0 {
        return Failed(EmptySpend);
      }
      var op := Trim(opId);
      if op != "" && op in spentOps {
        return Failed(AlreadyApplied(Balance(Mem(), uid)));
      }
      var have := Balance(Mem(), uid);
      var bal := if balanceBurn <= have then balanceBurn else have;
      var session := "trust:" + Dec(trustBurn);
      var note := if reason == "" then "clawback" else Take(reason, 96);
      var e := AppendEvent(KIND_CLAWBACK, uid, "", bal, note, session, op, stamp);
      return Done(e, Balance(Mem(), uid));
    }
  }
}
