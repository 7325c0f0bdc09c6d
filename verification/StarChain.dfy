/** The hash chain of the star ledger: what the tip hash pins down, and what it does not
    (bridge/src/star_ledger.rs:374-431, 706-725). */
module StarChain {
  import opened Text
  import opened StarEvents

  /** What the proofs need of SHA-256 in hex: distinct payloads have distinct, nonempty, bar-free digests. */
  ghost predicate CollisionFree(h: Hash) {
    && (forall s, t :: h(s) == h(t) ==> s == t)
    && (forall s :: h(s) != "" && BarFree(h(s)))
  }

  /** The event's own text fields hold no bar. */
  predicate BarFreeEvent(e: StarEvent) {
    && BarFree(e.id) && BarFree(e.kind) && BarFree(e.from) && BarFree(e.to)
    && BarFree(e.reason) && BarFree(e.session) && BarFree(e.opId)
  }

  /** The events agree in everything that is hashed. */
  predicate SameContent(e: StarEvent, f: StarEvent) {
    e == f.(hash := e.hash)
  }

  lemma DecIsBarFree(n: nat)
    ensures BarFree(Dec(n))
  {
    DecParses(n);
  }

  lemma PayloadDetermines(e: StarEvent, f: StarEvent)
    requires BarFreeEvent(e) && BarFree(e.prevHash) && Payload(e) == Payload(f)
    ensures SameContent(e, f)
  {
    var fs, gs := Fields(e), Fields(f);
    DecIsBarFree(e.seqNo);
    DecIsBarFree(e.amount);
    DecIsBarFree(e.ts);
    JoinDetermines(fs, gs);
    assert fs[0] == gs[0] && fs[1] == gs[1] && fs[2] == gs[2] && fs[3] == gs[3] && fs[4] == gs[4] && fs[5] == gs[5];
    assert fs[6] == gs[6] && fs[7] == gs[7] && fs[8] == gs[8] && fs[9] == gs[9] && fs[10] == gs[10];
    DecInjective(e.seqNo, f.seqNo);
    DecInjective(e.amount, f.amount);
    DecInjective(e.ts, f.ts);
  }

  /** Moving a bar from the end of one field to the start of the next leaves the joined string unchanged. */
  lemma {:induction false} JoinShift(fs: seq<string>, i: nat, a: string, b: string)
    requires i + 1 < |fs| && fs[i] == a + "|" + b
    ensures Join(fs[i := a][i + 1 := b + "|" + fs[i + 1]]) == Join(fs)
    decreases i
  {
    var gs := fs[i := a][i + 1 := b + "|" + fs[i + 1]];
    if i > 0 {
      JoinShift(fs[1..], i - 1, a, b);
      assert gs[1..] == fs[1..][i - 1 := a][i := b + "|" + fs[1..][i]];
    } else {
      var t := if |fs| == 2 then "" else "|" + Join(fs[2..]);
      assert fs[1..][1..] == fs[2..] && gs[1..][1..] == fs[2..];
      assert Join(fs[1..]) == fs[1] + t;
      assert Join(gs[1..]) == b + "|" + fs[1] + t;
      assert Join(fs) == a + "|" + b + "|" + (fs[1] + t);
    }
  }

  lemma BarAt(s: string) returns (a: string, b: string)
    requires !BarFree(s)
    ensures s == a + "|" + b
  {
    var i :| 0 <= i < |s| && s[i] == '|';
    a, b := s[..i], s[i + 1..];
  }

  /** f is e with the part of field i after a bar moved to field i + 1. */
  ghost predicate BarMoved(e: StarEvent, f: StarEvent, i: nat, a: string, b: string)
    requires i < 10
  {
    var fs := Fields(e);
    fs[i] == a + "|" + b && Fields(f) == fs[i := a][i + 1 := b + "|" + fs[i + 1]]
  }

  lemma BarMovedIsAmbiguous(e: StarEvent, f: StarEvent, i: nat, a: string, b: string)
    requires i < 10 && BarMoved(e, f, i, a, b)
    ensures Payload(f) == Payload(e) && !SameContent(e, f) && !SameContent(f, e)
  {
    hide Join, Dec;
    JoinShift(Fields(e), i, a, b);
    assert |Fields(e)[i]| != |Fields(f)[i]|;
  }

  /** The events fit into a chain at the same place. */
  predicate SameLink(e: StarEvent, f: StarEvent) {
    e.seqNo == f.seqNo && e.prevHash == f.prevHash && e.hash == f.hash
  }

  /** An event with a bar in one of its fields shares its payload with a different event. */
  lemma BarIsAmbiguous(e: StarEvent) returns (f: StarEvent)
    requires !BarFreeEvent(e)
    ensures Payload(f) == Payload(e) && !SameContent(e, f) && SameLink(e, f)
  {
    hide Join, Dec, Payload, SameContent;
    if !BarFree(e.id) {
      var a, b := BarAt(e.id);
      f := e.(id := a, kind := b + "|" + e.kind);
      BarMovedIsAmbiguous(e, f, 1, a, b);
    } else if !BarFree(e.kind) {
      var a, b := BarAt(e.kind);
      f := e.(kind := a, from := b + "|" + e.from);
      BarMovedIsAmbiguous(e, f, 2, a, b);
    } else if !BarFree(e.from) {
      var a, b := BarAt(e.from);
      f := e.(from := a, to := b + "|" + e.to);
      BarMovedIsAmbiguous(e, f, 3, a, b);
    } else if !BarFree(e.to) {
      var a, b := BarAt(e.to);
      f := e.(from := e.from + "|" + a, to := b);
      BarMovedIsAmbiguous(f, e, 3, e.from, a);
    } else {
      f := LateBarIsAmbiguous(e);
    }
  }

  lemma LateBarIsAmbiguous(e: StarEvent) returns (f: StarEvent)
    requires !(BarFree(e.reason) && BarFree(e.session) && BarFree(e.opId))
    ensures Payload(f) == Payload(e) && !SameContent(e, f) && SameLink(e, f)
  {
    hide Join, Dec, Payload, SameContent;
    if !BarFree(e.reason) {
      var a, b := BarAt(e.reason);
      f := e.(reason := a, session := b + "|" + e.session);
      BarMovedIsAmbiguous(e, f, 6, a, b);
    } else if !BarFree(e.session) {
      var a, b := BarAt(e.session);
      f := e.(session := a, opId := b + "|" + e.opId);
      BarMovedIsAmbiguous(e, f, 7, a, b);
    } else {
      var a, b := BarAt(e.opId);
      f := e.(session := e.session + "|" + a, opId := b);
      BarMovedIsAmbiguous(f, e, 7, e.session, a);
    }
  }

  /** The hash pins down an event exactly when none of its text fields holds a bar. */
  lemma HashDeterminesIffBarFree(h: Hash, e: StarEvent)
    requires CollisionFree(h) && BarFree(e.prevHash)
    ensures BarFreeEvent(e) <==> forall f: StarEvent | h(Payload(f)) == h(Payload(e)) :: SameContent(e, f)
  {
    if BarFreeEvent(e) {
      forall f: StarEvent | h(Payload(f)) == h(Payload(e))
        ensures SameContent(e, f)
      {
        PayloadDetermines(e, f);
      }
    } else {
      var f := BarIsAmbiguous(e);
    }
  }

  function Events(lines: seq<Line>): seq<StarEvent> {
    if lines == [] then [] else (if lines[0].Entry? then [lines[0].event] else []) + Events(lines[1..])
  }

  /** Event i carries the next number, the hash of its predecessor, and its own hash. */
  ghost predicate Link(h: Hash, es: seq<StarEvent>, i: nat)
    requires i < |es|
  {
    && es[i].seqNo == i + 1
    && es[i].prevHash == Tip(es[..i])
    && es[i].hash == h(Payload(es[i]))
  }

  /** The events form a chain that starts from an empty ledger. */
  ghost predicate Chain(h: Hash, es: seq<StarEvent>) {
    forall i: nat | i < |es| :: Link(h, es, i)
  }

  function Tip(es: seq<StarEvent>): string {
    if es == [] then "" else es[|es| - 1].hash
  }

  lemma ChainAppend(h: Hash, es: seq<StarEvent>, e: StarEvent)
    requires Chain(h, es) && e.seqNo == |es| + 1 && e.prevHash == Tip(es) && e.hash == h(Payload(e))
    ensures Chain(h, es + [e])
  {
    hide Payload;
    var fs := es + [e];
    forall i: nat | i < |fs|
      ensures Link(h, fs, i)
    {
      assert fs[..|es|] == es;
      if i < |es| {
        assert Link(h, es, i);
        assert fs[..i] == es[..i];
      }
    }
  }

  lemma ChainPrefix(h: Hash, es: seq<StarEvent>, n: nat)
    requires Chain(h, es) && n <= |es|
    ensures Chain(h, es[..n])
  {
    hide Payload;
    forall i: nat | i < n
      ensures Link(h, es[..n], i)
    {
      assert Link(h, es, i);
      assert es[..n][..i] == es[..i];
    }
  }

  /** What replay accepts in full is a chain, and its tip is the last event's hash. */
  lemma {:induction false} IntactIsChain(h: Hash, lines: seq<Line>)
    requires Intact(h, EMPTY, lines)
    ensures Chain(h, Events(lines))
    ensures Replay(h, EMPTY, lines).seqNo == |Events(lines)|
    ensures Replay(h, EMPTY, lines).tip == Tip(Events(lines))
    decreases |lines|
  {
    hide Payload, Link;
    if lines != [] {
      var n := |lines| - 1;
      var last := lines[n];
      assert lines == lines[..n] + [last];
      if !Intact(h, EMPTY, lines[..n]) {
        ReplayIgnoresAfterBreak(h, EMPTY, lines[..n], [last]);
      }
      ReplayAppend(h, EMPTY, lines[..n], last);
      IntactIsChain(h, lines[..n]);
      EventsAppend(lines[..n], last);
      assert Events(lines[..n]) + [] == Events(lines[..n]);
      if last.Entry? {
        ChainAppend(h, Events(lines[..n]), last.event);
      }
    }
  }

  lemma {:induction false} EventsAppend(lines: seq<Line>, line: Line)
    ensures Events(lines + [line]) == Events(lines) + (if line.Entry? then [line.event] else [])
  {
    if lines == [] {
      assert [] + [line] == [line] && [line][1..] == [];
    } else {
      EventsAppend(lines[1..], line);
      assert (lines + [line])[1..] == lines[1..] + [line];
    }
  }

  lemma TipIsBarFree(h: Hash, es: seq<StarEvent>)
    requires CollisionFree(h) && Chain(h, es)
    ensures BarFree(Tip(es)) && (es != [] ==> Tip(es) != "")
  {
    hide Payload;
    if es != [] {
      assert Link(h, es, |es| - 1);
    }
  }

  lemma {:induction false} ChainTipDetermines(h: Hash, es: seq<StarEvent>, fs: seq<StarEvent>)
    requires CollisionFree(h) && Chain(h, es) && Chain(h, fs) && Tip(es) == Tip(fs)
    requires forall e | e in es :: BarFreeEvent(e)
    ensures es == fs
    decreases |es|
  {
    hide Payload, BarFreeEvent;
    TipIsBarFree(h, es);
    TipIsBarFree(h, fs);
    if es != [] {
      var m, n := |es| - 1, |fs| - 1;
      assert Link(h, es, m) && Link(h, fs, n);
      ChainPrefix(h, es, m);
      ChainPrefix(h, fs, n);
      TipIsBarFree(h, es[..m]);
      PayloadDetermines(es[m], fs[n]);
      ChainTipDetermines(h, es[..m], fs[..n]);
      assert es == es[..m] + [es[m]] && fs == fs[..n] + [fs[n]];
    }
  }

  /** Two logs that replay accepts in full and that end in the same tip hold the same events,
      provided the first has no bar in its fields. */
  lemma TipDeterminesLog(h: Hash, a: seq<Line>, b: seq<Line>)
    requires CollisionFree(h) && Intact(h, EMPTY, a) && Intact(h, EMPTY, b)
    requires Replay(h, EMPTY, a).tip == Replay(h, EMPTY, b).tip
    requires forall e | e in Events(a) :: BarFreeEvent(e)
    ensures Events(a) == Events(b)
  {
    IntactIsChain(h, a);
    IntactIsChain(h, b);
    ChainTipDetermines(h, Events(a), Events(b));
  }

  // The converse: a bar anywhere in an intact log lets another log end in the same tip.

  /** Verification looks at the number and the tip only. */
  lemma {:induction false} IntactByTip(h: Hash, s: State, t: State, lines: seq<Line>)
    requires s.seqNo == t.seqNo && s.tip == t.tip
    ensures Intact(h, s, lines) == Intact(h, t, lines) && Replay(h, s, lines).tip == Replay(h, t, lines).tip
    decreases |lines|
  {
    hide Payload;
    if lines != [] && Continues(h, s, lines[0]) {
      IntactByTip(h, ApplyLine(s, lines[0]), ApplyLine(t, lines[0]), lines[1..]);
    }
  }

  /** Replacing an event by one with the same payload in the same place keeps a log intact, tip and all. */
  lemma {:induction false} ReplacedIsIntact(h: Hash, s: State, lines: seq<Line>, i: nat, f: StarEvent)
    requires Intact(h, s, lines) && i < |lines| && lines[i].Entry?
    requires Payload(f) == Payload(lines[i].event) && SameLink(lines[i].event, f) && f != lines[i].event
    ensures var other := lines[i := Entry(f)];
            Intact(h, s, other) && Replay(h, s, other).tip == Replay(h, s, lines).tip && Events(other) != Events(lines)
    decreases |lines|
  {
    hide Payload;
    var other := lines[i := Entry(f)];
    if i == 0 {
      assert other[1..] == lines[1..];
      IntactByTip(h, ApplyLine(s, lines[0]), ApplyLine(s, other[0]), lines[1..]);
      assert Events(other)[0] == f && Events(lines)[0] == lines[0].event;
    } else {
      ReplacedIsIntact(h, ApplyLine(s, lines[0]), lines[1..], i - 1, f);
      assert other[1..] == lines[1..][i - 1 := Entry(f)];
      var head := if lines[0].Entry? then [lines[0].event] else [];
      assert (head + Events(other[1..]))[|head|..] == Events(other[1..]);
      assert (head + Events(lines[1..]))[|head|..] == Events(lines[1..]);
    }
  }

  lemma {:induction false} EventHasLine(lines: seq<Line>, e: StarEvent) returns (i: nat)
    requires e in Events(lines)
    ensures i < |lines| && lines[i] == Entry(e)
  {
    if lines[0] == Entry(e) {
      i := 0;
    } else {
      var j := EventHasLine(lines[1..], e);
      i := j + 1;
    }
  }

  /** An intact log is the only one with its tip exactly when none of its events holds a bar. */
  lemma {:induction false} TipDeterminesIffBarFree(h: Hash, a: seq<Line>)
    requires CollisionFree(h) && Intact(h, EMPTY, a)
    ensures (forall e | e in Events(a) :: BarFreeEvent(e)) <==>
            (forall b: seq<Line> | Intact(h, EMPTY, b) && Replay(h, EMPTY, b).tip == Replay(h, EMPTY, a).tip ::
               Events(b) == Events(a))
  {
    hide BarFreeEvent, CollisionFree, Payload, Intact, Replay, Events;
    if forall e | e in Events(a) :: BarFreeEvent(e) {
      forall b: seq<Line> | Intact(h, EMPTY, b) && Replay(h, EMPTY, b).tip == Replay(h, EMPTY, a).tip
        ensures Events(b) == Events(a)
      {
        TipDeterminesLog(h, a, b);
      }
    } else {
      var e :| e in Events(a) && !BarFreeEvent(e);
      var i := EventHasLine(a, e);
      var f := BarIsAmbiguous(e);
      ReplacedIsIntact(h, EMPTY, a, i, f);
    }
  }

  function Bar(field: string, rest: string): string {
    field + "|" + rest
  }

  lemma JoinBar(field: string, fields: seq<string>)
    requires fields != []
    ensures Join([field] + fields) == Bar(field, Join(fields))
  {
    assert ([field] + fields)[1..] == fields;
  }

  /** The order of the fields in what is hashed. */
  lemma PayloadIs(e: StarEvent)
    ensures Payload(e) ==
            Bar(Dec(e.seqNo), Bar(e.id, Bar(e.kind, Bar(e.from, Bar(e.to, Bar(Dec(e.amount),
              Bar(e.reason, Bar(e.session, Bar(e.opId, Bar(Dec(e.ts), e.prevHash))))))))))
  {
    hide Join, Dec, Bar;
    var f := Fields(e);
    forall i: nat | i < 10
      ensures Join(f[i..]) == Bar(f[i], Join(f[i + 1..]))
    {
      JoinBar(f[i], f[i + 1..]);
      assert f[i..] == [f[i]] + f[i + 1..];
    }
    JoinOne(f[10]);
    assert f[10..] == [f[10]] && f[0..] == f;
    assert Join(f[9..]) == Bar(f[9], f[10]);
    assert Join(f[7..]) == Bar(f[7], Bar(f[8], Bar(f[9], f[10])));
    assert Join(f[4..]) == Bar(f[4], Bar(f[5], Bar(f[6], Join(f[7..]))));
    assert Join(f[1..]) == Bar(f[1], Bar(f[2], Bar(f[3], Join(f[4..]))));
    assert Join(f) == Bar(f[0], Join(f[1..]));
  }

  lemma JoinOne(field: string)
    ensures Join([field]) == field
  {}
}
