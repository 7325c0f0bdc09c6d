/** The events of the append-only star ledger and what replaying them means
    (bridge/src/star_ledger.rs). The hash is a parameter; amounts are natural numbers. */
module StarEvents {
  import opened Wrappers
  import opened Text

  const KIND_MINT := "mint"
  const KIND_SPEND := "spend"
  const KIND_ADJUST := "adjust"
  const KIND_CLAWBACK := "clawback"

  type Hash = string -> string

  datatype StarEvent = StarEvent(seqNo: nat, id: string, kind: string, from: string, to: string, amount: nat,
                                 reason: string, session: string, opId: string, ts: nat, prevHash: string,
                                 hash: string)

  /** What is hashed: every field but the hash itself, joined by bars. */
  function Fields(e: StarEvent): seq<string> {
    [Dec(e.seqNo), e.id, e.kind, e.from, e.to, Dec(e.amount), e.reason, e.session, e.opId, Dec(e.ts), e.prevHash]
  }

  function Payload(e: StarEvent): string {
    Join(Fields(e))
  }

  predicate IsTrustMintReason(reason: string) {
    var r := Trim(reason);
    || r == "mint:rate_partner"
    || EndsWith(r, ":rate_partner")
    || r == "rate_partner"
    || StartsWith(r, "admin:trust")
    || StartsWith(r, "gift:")
  }

  predicate IsSeparator(c: char) {
    c == '|' || c == ',' || c == ' '
  }

  /** The pieces of s between separators. */
  function Split(s: string): (parts: seq<string>)
    ensures parts != []
  {
    if s == "" then [""]
    else
      var rest := Split(s[1..]);
      if IsSeparator(s[0]) then [""] + rest else [[s[0]] + rest[0]] + rest[1..]
  }

  /** The number in a piece of the form trust:N. */
  function TrustPart(part: string): Option<nat> {
    var p := Trim(part);
    if StartsWith(p, "trust:") then ParseU64(Trim(p[6..])) else None
  }

  function FirstTrustPart(parts: seq<string>): nat {
    if parts == [] then 0
    else
      match TrustPart(parts[0])
      case Some(n) => n
      case None => FirstTrustPart(parts[1..])
  }

  function ParseTrustBurnSession(session: string): nat {
    FirstTrustPart(Split(session))
  }

  /** The session text a clawback writes is read back as the same burn. */
  lemma TrustBurnRoundTrip(n: nat)
    requires n < U64_LIMIT
    ensures ParseTrustBurnSession("trust:" + Dec(n)) == n
  {
    var s := "trust:" + Dec(n);
    DecParses(n);
    DecRoundTrip(n);
    forall i: nat | i < |s|
      ensures !IsSeparator(s[i]) && !IsWhite(s[i])
    {
      if i >= 6 {
        assert s[i] == Dec(n)[i - 6];
      }
    }
    SplitKeeps(s);
    TrimKeeps(s);
    assert s[6..] == Dec(n);
    TrimKeeps(Dec(n));
  }

  lemma {:induction false} SplitKeeps(s: string)
    requires forall i: nat | i < |s| :: !IsSeparator(s[i])
    ensures Split(s) == [s]
  {
    if s != "" {
      SplitKeeps(s[1..]);
      assert [s[0]] + s[1..] == s;
    }
  }

  // The state a ledger keeps in memory.

  datatype State = State(seqNo: nat, tip: string, balances: map<string, nat>, spentOps: set<string>,
                         trust: map<string, nat>, edges: set<string>, lastTs: map<string, nat>)

  const EMPTY: State := State(0, "", map[], {}, map[], {}, map[])

  function Get(m: map<string, nat>, k: string): nat {
    if k in m then m[k] else 0
  }

  /** Store n under k, dropping the entry when n is 0. */
  function Put(m: map<string, nat>, k: string, n: nat): map<string, nat> {
    if n == 0 then m - {k} else m[k := n]
  }

  function Minus(have: nat, n: nat): nat {
    if have >= n then have - n else 0
  }

  predicate IsCredit(e: StarEvent) {
    (e.kind == KIND_MINT || e.kind == KIND_ADJUST) && e.to != "" && e.amount != 0
  }

  predicate IsBurn(e: StarEvent) {
    e.kind == KIND_SPEND || e.kind == KIND_CLAWBACK
  }

  /** The account a spend or clawback burns. */
  function Who(e: StarEvent): string {
    if e.from != "" then e.from else e.to
  }

  predicate IsDebit(e: StarEvent) {
    IsBurn(e) && Who(e) != "" && e.amount != 0
  }

  function ApplyBalances(b: map<string, nat>, e: StarEvent): map<string, nat> {
    if IsCredit(e) then b[e.to := Get(b, e.to) + e.amount]
    else if IsDebit(e) then Put(b, Who(e), Minus(Get(b, Who(e)), e.amount))
    else b
  }

  predicate IsTrustGain(e: StarEvent) {
    IsCredit(e) && IsTrustMintReason(e.reason)
  }

  predicate IsTrustBurn(e: StarEvent) {
    e.kind == KIND_CLAWBACK && Who(e) != ""
  }

  function ApplyTrust(t: map<string, nat>, e: StarEvent): map<string, nat> {
    if IsTrustGain(e) then t[e.to := Get(t, e.to) + e.amount]
    else if IsTrustBurn(e) && ParseTrustBurnSession(e.session) > 0 then
      Put(t, Who(e), Minus(Get(t, Who(e)), ParseTrustBurnSession(e.session)))
    else t
  }

  function ApplyEdges(s: set<string>, e: StarEvent): set<string> {
    if IsTrustGain(e) && e.from != "" && e.from != e.to then s + {e.from + "|" + e.to} else s
  }

  function Touch(m: map<string, nat>, k: string, ts: nat): map<string, nat> {
    if ts > 0 && ts >= Get(m, k) then m[k := ts] else m
  }

  function ApplyLastTs(m: map<string, nat>, e: StarEvent): map<string, nat> {
    if IsTrustGain(e) then Touch(m, e.to, e.ts)
    else if IsTrustBurn(e) then Touch(m, Who(e), e.ts)
    else m
  }

  function ApplyOps(ops: set<string>, e: StarEvent): set<string> {
    if IsBurn(e) && e.opId != "" then ops + {e.opId} else ops
  }

  function Apply(s: State, e: StarEvent): State {
    State(e.seqNo, e.hash, ApplyBalances(s.balances, e), ApplyOps(s.spentOps, e),
          ApplyTrust(s.trust, e), ApplyEdges(s.edges, e), ApplyLastTs(s.lastTs, e))
  }

  // The log file and its verified replay.

  datatype Line = Blank | Corrupt | Entry(event: StarEvent)

  /** The event continues a ledger in state s: next number, matching previous hash, correct hash. */
  predicate Accepts(h: Hash, s: State, e: StarEvent) {
    e.seqNo == s.seqNo + 1 && e.prevHash == s.tip && h(Payload(e)) == e.hash
  }

  predicate Continues(h: Hash, s: State, line: Line) {
    line.Blank? || (line.Entry? && Accepts(h, s, line.event))
  }

  function ApplyLine(s: State, line: Line): State {
    if line.Entry? then Apply(s, line.event) else s
  }

  /** Replay stops at the first line that does not continue the chain. */
  function Replay(h: Hash, s: State, lines: seq<Line>): State
    decreases lines
  {
    if lines != [] && Continues(h, s, lines[0]) then Replay(h, ApplyLine(s, lines[0]), lines[1..]) else s
  }

  /** Every line continues the chain. */
  predicate Intact(h: Hash, s: State, lines: seq<Line>)
    decreases lines
  {
    lines == [] || (Continues(h, s, lines[0]) && Intact(h, ApplyLine(s, lines[0]), lines[1..]))
  }

  /** The state after all the entries of the lines, with no checks. */
  function Fold(s: State, lines: seq<Line>): State
    decreases lines
  {
    if lines == [] then s else Fold(ApplyLine(s, lines[0]), lines[1..])
  }

  /** The length of the longest intact prefix. */
  function IntactLength(h: Hash, s: State, lines: seq<Line>): (n: nat)
    ensures n <= |lines|
    decreases lines
  {
    if lines != [] && Continues(h, s, lines[0]) then 1 + IntactLength(h, ApplyLine(s, lines[0]), lines[1..]) else 0
  }

  /** On any log, replay is the plain fold over the longest intact prefix. */
  lemma {:induction false} ReplayIsFoldOfIntactPrefix(h: Hash, s: State, lines: seq<Line>)
    ensures var n := IntactLength(h, s, lines);
            && Intact(h, s, lines[..n])
            && (n < |lines| ==> forall m: nat | n < m <= |lines| :: !Intact(h, s, lines[..m]))
            && Replay(h, s, lines) == Fold(s, lines[..n])
    decreases lines
  {
    var n := IntactLength(h, s, lines);
    if n > 0 {
      var t := ApplyLine(s, lines[0]);
      ReplayIsFoldOfIntactPrefix(h, t, lines[1..]);
      assert lines[..n][1..] == lines[1..][..n - 1];
      forall m: nat | n < m <= |lines|
        ensures !Intact(h, s, lines[..m])
      {
        assert lines[..m][1..] == lines[1..][..m - 1];
      }
    } else {
      assert forall m: nat | 0 < m <= |lines| :: lines[..m][0] == lines[0];
    }
  }

  lemma {:induction false} IntactReplay(h: Hash, s: State, lines: seq<Line>)
    requires Intact(h, s, lines)
    ensures Replay(h, s, lines) == Fold(s, lines)
    decreases lines
  {
    if lines != [] {
      IntactReplay(h, ApplyLine(s, lines[0]), lines[1..]);
    }
  }

  /** A line appended to an intact log is replayed exactly when it continues the chain. */
  lemma {:induction false} ReplayAppend(h: Hash, s: State, lines: seq<Line>, line: Line)
    requires Intact(h, s, lines)
    ensures var t := Replay(h, s, lines);
            && Intact(h, s, lines + [line]) == Continues(h, t, line)
            && Replay(h, s, lines + [line]) == if Continues(h, t, line) then ApplyLine(t, line) else t
    decreases lines
  {
    if lines == [] {
      assert [line][1..] == [];
      assert [] + [line] == [line];
    } else {
      ReplayAppend(h, ApplyLine(s, lines[0]), lines[1..], line);
      assert (lines + [line])[1..] == lines[1..] + [line];
    }
  }

  /** Whatever is appended after a broken line is never replayed. */
  lemma {:induction false} ReplayIgnoresAfterBreak(h: Hash, s: State, lines: seq<Line>, more: seq<Line>)
    requires !Intact(h, s, lines)
    ensures Replay(h, s, lines + more) == Replay(h, s, lines)
    ensures !Intact(h, s, lines + more)
    decreases lines
  {
    if Continues(h, s, lines[0]) {
      ReplayIgnoresAfterBreak(h, ApplyLine(s, lines[0]), lines[1..], more);
      assert (lines + more)[1..] == lines[1..] + more;
    }
  }
}
