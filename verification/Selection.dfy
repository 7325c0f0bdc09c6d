/** Partner selection of the browser match protocol at one snapshot of the lobby (ui/protocol.js).
    The digests of pairScore and sessionIdFor are parameters, applied to the ordered pair. */
module Selection {
  import opened Wrappers
  import opened Order

  /** The hex digest of (smaller id, larger id, epoch bucket). */
  type ScoreHash = (string, string, nat) -> string

  /** The hex digest of (smaller id, larger id, its seed, the other seed). */
  type SessionHash = (string, string, string, string) -> string

  datatype Offer = Offer(peerId: string, sessionSeed: string)

  datatype Claim = Claim(claimer: string, target: string, sessionId: string)

  function CompareHex(a: string, b: string): int {
    if Less(a, b) then -1 else if Less(b, a) then 1 else 0
  }

  function PairScore(h: ScoreHash, p: string, q: string, bucket: nat): string {
    if CompareHex(p, q) <= 0 then h(p, q, bucket) else h(q, p, bucket)
  }

  lemma PairScoreSymmetric(h: ScoreHash, p: string, q: string, bucket: nat)
    ensures PairScore(h, p, q, bucket) == PairScore(h, q, p, bucket)
  {
    hide Less;
    LessTotal(p, q);
    if Less(p, q) {
      LessAsymmetric(p, q);
    }
  }

  function SessionIdFor(h: SessionHash, a: string, b: string, seedA: string, seedB: string): string {
    if CompareHex(a, b) <= 0 then h(a, b, seedA, seedB) else h(b, a, seedB, seedA)
  }

  /** Both sides of a pair derive the same session id. */
  lemma SessionIdSymmetric(h: SessionHash, a: string, b: string, seedA: string, seedB: string)
    requires a != b
    ensures SessionIdFor(h, a, b, seedA, seedB) == SessionIdFor(h, b, a, seedB, seedA)
  {
    hide Less;
    LessTotal(a, b);
    if Less(a, b) {
      LessAsymmetric(a, b);
    }
  }

  // The least candidate under (key, id).

  predicate Better(key: string -> string, b: string, c: string) {
    Less(key(b), key(c)) || (key(b) == key(c) && Less(b, c))
  }

  lemma BetterIsStrictOrder(key: string -> string, a: string, b: string, c: string)
    ensures !Better(key, a, a)
    ensures a != b ==> Better(key, a, b) || Better(key, b, a)
    ensures !(Better(key, a, b) && Better(key, b, a))
    ensures Better(key, a, b) && Better(key, b, c) ==> Better(key, a, c)
  {
    hide Less;
    LessIrreflexive(key(a));
    LessIrreflexive(a);
    LessTotal(key(a), key(b));
    LessTotal(a, b);
    if Less(key(a), key(b)) {
      LessAsymmetric(key(a), key(b));
    }
    if Less(a, b) {
      LessAsymmetric(a, b);
    }
    if Less(key(a), key(b)) && Less(key(b), key(c)) {
      LessTransitive(key(a), key(b), key(c));
    }
    if Less(a, b) && Less(b, c) {
      LessTransitive(a, b, c);
    }
  }

  ghost predicate IsLeast(key: string -> string, s: set<string>, b: string) {
    b in s && forall c | c in s && c != b :: Better(key, b, c)
  }

  lemma {:induction false} LeastExists(key: string -> string, s: set<string>)
    requires s != {}
    ensures exists b :: IsLeast(key, s, b)
  {
    hide Better;
    var x :| x in s;
    var rest := s - {x};
    if rest == {} {
      assert s == {x};
      assert IsLeast(key, s, x);
    } else {
      LeastExists(key, rest);
      var b :| IsLeast(key, rest, b);
      if Better(key, x, b) {
        forall c | c in s && c != x
          ensures Better(key, x, c)
        {
          BetterIsStrictOrder(key, x, b, c);
        }
        assert IsLeast(key, s, x);
      } else {
        BetterIsStrictOrder(key, b, x, x);
        assert IsLeast(key, s, b);
      }
    }
  }

  lemma LeastIsUnique(key: string -> string, s: set<string>, a: string, b: string)
    requires IsLeast(key, s, a) && IsLeast(key, s, b)
    ensures a == b
  {
    hide Better;
    BetterIsStrictOrder(key, a, b, a);
  }

  ghost function Least(key: string -> string, s: set<string>): (b: string)
    requires s != {}
    ensures IsLeast(key, s, b)
  {
    LeastExists(key, s);
    var b :| IsLeast(key, s, b);
    b
  }

  // Choices.

  function ScoreOf(h: ScoreHash, me: string, bucket: nat): string -> string {
    other => PairScore(h, me, other, bucket)
  }

  function LiveIds(live: seq<Offer>): set<string> {
    set i: nat | i < |live| :: live[i].peerId
  }

  /** The free peers another peer may choose from. */
  function Candidates(me: string, free: set<string>): set<string> {
    free - {me}
  }

  /** The peer that me selects among the free ones: least score, then least id. */
  ghost function Choice(h: ScoreHash, me: string, free: set<string>, bucket: nat): Option<string> {
    if Candidates(me, free) == {} then None else Some(Least(ScoreOf(h, me, bucket), Candidates(me, free)))
  }

  /** The loop of selectPartner. Its result depends only on the set of free peers, not on the list order. */
  method SelectPartner(h: ScoreHash, me: string, live: seq<Offer>, bucket: nat, matched: set<string>)
    returns (best: Option<string>)
    ensures best == Choice(h, me, LiveIds(live) - matched, bucket)
  {
    hide Better, PairScore;
    var key := ScoreOf(h, me, bucket);
    best := None;
    var bestScore := "";
    for i := 0 to |live|
      invariant best == None <==> Candidates(me, LiveIds(live[..i]) - matched) == {}
      invariant best.Some? ==>
                  bestScore == key(best.value) && IsLeast(key, Candidates(me, LiveIds(live[..i]) - matched), best.value)
    {
      var other := live[i].peerId;
      ghost var seen := Candidates(me, LiveIds(live[..i]) - matched);
      ghost var now := Candidates(me, LiveIds(live[..i + 1]) - matched);
      LiveIdsSnoc(live, i);
      if other == me {
        assert now == seen;
        continue;
      }
      if other in matched {
        assert now == seen;
        continue;
      }
      assert now == seen + {other};
      var score := PairScore(h, me, other, bucket);
      if best == None || Less(score, bestScore) || (score == bestScore && Less(other, best.value)) {
        if best.Some? {
          Overtake(key, seen, best.value, other);
        }
        best, bestScore := Some(other), score;
      } else {
        Keep(key, best.value, other);
      }
    }
    assert live[..|live|] == live;
    if best.Some? {
      LeastIsUnique(key, Candidates(me, LiveIds(live) - matched), best.value,
                    Least(key, Candidates(me, LiveIds(live) - matched)));
    }
  }

  lemma LiveIdsSnoc(live: seq<Offer>, i: nat)
    requires i < |live|
    ensures LiveIds(live[..i + 1]) == LiveIds(live[..i]) + {live[i].peerId}
  {
    var a, b := live[..i], live[..i + 1];
    assert b[i] == live[i];
    assert forall j: nat | j < i :: a[j] == b[j];
  }

  lemma Overtake(key: string -> string, s: set<string>, b: string, c: string)
    requires IsLeast(key, s, b) && (Less(key(c), key(b)) || (key(c) == key(b) && Less(c, b)))
    ensures IsLeast(key, s + {c}, c)
  {
    hide Less;
    forall d | d in s && d != c
      ensures Better(key, c, d)
    {
      BetterIsStrictOrder(key, c, b, d);
    }
  }

  lemma Keep(key: string -> string, b: string, c: string)
    requires !(Less(key(c), key(b)) || (key(c) == key(b) && Less(c, b)))
    ensures b != c ==> Better(key, b, c)
  {
    hide Less;
    BetterIsStrictOrder(key, b, c, b);
  }

  // Mutual choices.

  ghost predicate Mutual(h: ScoreHash, p: string, q: string, free: set<string>, bucket: nat) {
    && p in free && q in free
    && Choice(h, p, free, bucket) == Some(q) && Choice(h, q, free, bucket) == Some(p)
  }

  /** Mutual choices pair distinct peers, and no peer is in two pairs. */
  lemma MutualIsMatching(h: ScoreHash, p: string, q: string, r: string, free: set<string>, bucket: nat)
    requires Mutual(h, p, q, free, bucket)
    ensures p != q && Mutual(h, q, p, free, bucket)
    ensures Mutual(h, p, r, free, bucket) ==> r == q
  {}

  /** The score of a peer's own choice. */
  ghost function BestScore(h: ScoreHash, p: string, free: set<string>, bucket: nat): string {
    match Choice(h, p, free, bucket)
    case None => ""
    case Some(q) => PairScore(h, p, q, bucket)
  }

  lemma BestIsBelow(h: ScoreHash, p: string, q: string, free: set<string>, bucket: nat)
    requires p in free && q in free && p != q
    ensures Choice(h, p, free, bucket).Some?
    ensures !Less(PairScore(h, p, q, bucket), BestScore(h, p, free, bucket))
    ensures PairScore(h, p, q, bucket) == BestScore(h, p, free, bucket) ==>
            !Less(q, Choice(h, p, free, bucket).value)
  {
    hide Less, PairScore;
    assert q in Candidates(p, free);
    var b := Choice(h, p, free, bucket).value;
    var key := ScoreOf(h, p, bucket);
    LessIrreflexive(q);
    LessIrreflexive(key(q));
    if b != q {
      assert Better(key, b, q);
      if Less(key(q), key(b)) {
        LessAsymmetric(key(q), key(b));
      }
      if Less(q, b) {
        LessAsymmetric(q, b);
      }
    }
  }

  lemma ChoiceIsFree(h: ScoreHash, p: string, free: set<string>, bucket: nat)
    ensures var c := Choice(h, p, free, bucket); c.Some? ==> c.value in free && c.value != p
  {}

  /** Whenever two or more peers are free, some two of them select each other, even when scores tie. */
  lemma MutualPairExists(h: ScoreHash, free: set<string>, bucket: nat)
    requires |free| >= 2
    ensures exists p, q :: Mutual(h, p, q, free, bucket)
  {
    hide Less, PairScore, Choice;
    var best := (p: string) => BestScore(h, p, free, bucket);
    var p := Least(best, free);
    assert |free - {p}| == |free| - 1;
    var other :| other in free - {p};
    BestIsBelow(h, p, other, free, bucket);
    var q := Choice(h, p, free, bucket).value;
    ChoiceIsFree(h, p, free, bucket);
    PairScoreSymmetric(h, p, q, bucket);
    BestIsBelow(h, q, p, free, bucket);
    var r := Choice(h, q, free, bucket).value;
    ChoiceIsFree(h, q, free, bucket);
    PairScoreSymmetric(h, q, r, bucket);
    BestIsBelow(h, r, q, free, bucket);
    NotLess(best, p, q);
    NotLess(best, p, r);
    LessTotal(p, r);
    LessTotal(best(q), best(p));
    LessTotal(best(r), best(q));
    assert r == p;
    assert Mutual(h, p, q, free, bucket);
  }

  /** The least element is not above anything. */
  lemma NotLess(key: string -> string, p: string, q: string)
    requires p == q || Better(key, p, q)
    ensures !Less(key(q), key(p))
    ensures key(q) == key(p) ==> !Less(q, p)
  {
    hide Less;
    LessIrreflexive(key(p));
    LessIrreflexive(p);
    if Less(key(q), key(p)) && Less(key(p), key(q)) {
      LessAsymmetric(key(q), key(p));
    }
    if Less(q, p) && Less(p, q) {
      LessAsymmetric(q, p);
    }
  }

  // Claims.

  /** The seed a peer published. */
  function SeedOf(live: seq<Offer>, id: string): string {
    if live == [] then "" else if live[0].peerId == id then live[0].sessionSeed else SeedOf(live[1..], id)
  }

  /** The claim a peer inserts at this snapshot, if its choice chooses it back. */
  ghost function ClaimOf(h: ScoreHash, k: SessionHash, me: string, live: seq<Offer>, bucket: nat,
                         matched: set<string>): Option<Claim>
  {
    var free := LiveIds(live) - matched;
    match Choice(h, me, free, bucket)
    case None => None
    case Some(partner) =>
      if Choice(h, partner, free, bucket) == Some(me) then
        Some(Claim(me, partner, SessionIdFor(k, me, partner, SeedOf(live, me), SeedOf(live, partner))))
      else None
  }

  method FindSeed(live: seq<Offer>, id: string) returns (seed: string)
    ensures seed == SeedOf(live, id)
  {
    for i := 0 to |live|
      invariant SeedOf(live, id) == SeedOf(live[i..], id)
    {
      assert live[i..][1..] == live[i + 1..];
      if live[i].peerId == id {
        return live[i].sessionSeed;
      }
    }
    seed := "";
  }

  /** The claim part of Peer.tick. */
  method TryClaim(h: ScoreHash, k: SessionHash, me: string, live: seq<Offer>, bucket: nat, matched: set<string>)
    returns (c: Option<Claim>)
    ensures c == ClaimOf(h, k, me, live, bucket, matched)
  {
    c := None;
    var partner := SelectPartner(h, me, live, bucket, matched);
    if partner.Some? {
      var theirChoice := SelectPartner(h, partner.value, live, bucket, matched);
      if theirChoice == Some(me) {
        var mySeed := FindSeed(live, me);
        var theirSeed := FindSeed(live, partner.value);
        c := Some(Claim(me, partner.value, SessionIdFor(k, me, partner.value, mySeed, theirSeed)));
      }
    }
  }

  /** On one snapshot, a claim is always answered: the target claims back, with the same session id. */
  lemma ClaimsAreMutual(h: ScoreHash, k: SessionHash, me: string, live: seq<Offer>, bucket: nat, matched: set<string>)
    requires ClaimOf(h, k, me, live, bucket, matched).Some?
    ensures var c := ClaimOf(h, k, me, live, bucket, matched).value;
            && c.claimer == me && c.target != me
            && c.target in LiveIds(live) - matched && me in LiveIds(live) - matched
            && ClaimOf(h, k, c.target, live, bucket, matched) == Some(Claim(c.target, me, c.sessionId))
  {
    hide Less, PairScore, SessionIdFor;
    var partner := Choice(h, me, LiveIds(live) - matched, bucket).value;
    SessionIdSymmetric(k, me, partner, SeedOf(live, me), SeedOf(live, partner));
  }

  /** While two peers are free, some claim is made. */
  lemma SomeClaimIsMade(h: ScoreHash, k: SessionHash, live: seq<Offer>, bucket: nat, matched: set<string>)
    requires |LiveIds(live) - matched| >= 2
    ensures exists me :: me in LiveIds(live) - matched && ClaimOf(h, k, me, live, bucket, matched).Some?
  {
    hide Less, PairScore, SessionIdFor, Choice;
    var free := LiveIds(live) - matched;
    MutualPairExists(h, free, bucket);
    var p, q :| Mutual(h, p, q, free, bucket);
    assert ClaimOf(h, k, p, live, bucket, matched).Some?;
  }
}
