/** What a session id and a pair score tell apart (ui/protocol.js:18-43, 142-178, 232-275). */
module Sessions {
  import opened Wrappers
  import opened Order
  import opened Selection

  // Digests that do not collide.

  /** On ids and seeds of these kinds, different arguments have different digests. */
  ghost predicate NoCollision(k: SessionHash, isId: string -> bool, isSeed: string -> bool) {
    forall a, b, s, t, c, d, u, v |
      isId(a) && isId(b) && isSeed(s) && isSeed(t) && isId(c) && isId(d) && isSeed(u) && isSeed(v) ::
      k(a, b, s, t) == k(c, d, u, v) ==> a == c && b == d && s == u && t == v
  }

  /** Two session ids are equal exactly when they are made from the same two peers with the same seeds, in either
      order. */
  lemma SessionIdsAgreeIff(k: SessionHash, isId: string -> bool, isSeed: string -> bool,
                           a: string, b: string, s: string, t: string, c: string, d: string, u: string, v: string)
    requires NoCollision(k, isId, isSeed)
    requires isId(a) && isId(b) && isId(c) && isId(d) && isSeed(s) && isSeed(t) && isSeed(u) && isSeed(v)
    requires a != b && c != d
    ensures SessionIdFor(k, a, b, s, t) == SessionIdFor(k, c, d, u, v) <==> {(a, s), (b, t)} == {(c, u), (d, v)}
  {
    hide Less;
    LessTotal(a, b);
    LessTotal(c, d);
    SamePairs((a, s), (b, t), (c, u), (d, v));
    if a == d && b == c {
      SessionIdSymmetric(k, a, b, s, t);
    }
    if Less(a, b) {
      LessAsymmetric(a, b);
    }
    if Less(c, d) {
      LessAsymmetric(c, d);
    }
  }

  lemma SamePairs<T>(p: T, q: T, x: T, y: T)
    ensures {p, q} == {x, y} <==> (p == x && q == y) || (p == y && q == x)
  {
    if {p, q} == {x, y} {
      assert p in {x, y} && q in {x, y} && x in {p, q} && y in {p, q};
    }
  }

  /** On ids of this kind, different pairs or times have different scores. */
  ghost predicate NoTie(h: ScoreHash, isId: string -> bool, isTime: nat -> bool) {
    forall p, q, m, r, s, n | isId(p) && isId(q) && isTime(m) && isId(r) && isId(s) && isTime(n) ::
      h(p, q, m) == h(r, s, n) ==> p == r && q == s && m == n
  }

  /** Two scores are equal exactly when they are of the same two peers in the same epoch. */
  lemma PairScoresAgreeIff(h: ScoreHash, isId: string -> bool, isTime: nat -> bool,
                           p: string, q: string, m: nat, r: string, s: string, n: nat)
    requires NoTie(h, isId, isTime) && isId(p) && isId(q) && isId(r) && isId(s) && isTime(m) && isTime(n)
    ensures PairScore(h, p, q, m) == PairScore(h, r, s, n) <==> {p, q} == {r, s} && m == n
  {
    hide Less;
    LessTotal(p, q);
    LessTotal(r, s);
    SamePairs(p, q, r, s);
    if Less(p, q) {
      LessAsymmetric(p, q);
    }
    if Less(r, s) {
      LessAsymmetric(r, s);
    }
  }

  // The digest of the joined parts.

  function SessionDigest(sha: string -> string): SessionHash {
    (p, q, s, t) => sha("session/v1" + p + q + s + t)
  }

  /** The low n bytes of a number, the lowest one first. */
  function LowBytes(x: nat, n: nat): (s: string)
    ensures |s| == n
  {
    if n == 0 then "" else [(x % 256) as char] + LowBytes(x / 256, n - 1)
  }

  function MatchDigest(sha: string -> string): ScoreHash {
    (p: string, q: string, bucket: nat) => sha("match/v1" + p + q + LowBytes(bucket, 8))
  }

  ghost predicate Injective(sha: string -> string) {
    forall x, y :: sha(x) == sha(y) ==> x == y
  }

  function Sized(n: nat): string -> bool {
    (x: string) => |x| == n
  }

  lemma SumsAgree(a: string, b: string, c: string, d: string)
    requires |a| == |c| && a + b == c + d
    ensures a == c && b == d
  {
    assert a == (a + b)[..|a|] && b == (a + b)[|a|..];
    assert c == (c + d)[..|c|] && d == (c + d)[|c|..];
  }

  /** The parts are joined without a separator, which is enough for ids of one length and seeds of one length. */
  lemma JoinedSessionsDiffer(sha: string -> string, n: nat, m: nat)
    requires Injective(sha)
    ensures NoCollision(SessionDigest(sha), Sized(n), Sized(m))
  {
    var k := SessionDigest(sha);
    forall a, b, s, t, c, d, u, v |
      |a| == |b| == |c| == |d| == n && |s| == |t| == |u| == |v| == m && k(a, b, s, t) == k(c, d, u, v)
      ensures a == c && b == d && s == u && t == v
    {
      SumsAgree("session/v1" + a + b + s, t, "session/v1" + c + d + u, v);
      SumsAgree("session/v1" + a + b, s, "session/v1" + c + d, u);
      SumsAgree("session/v1" + a, b, "session/v1" + c, d);
      SumsAgree("session/v1", a, "session/v1", c);
    }
  }

  /** For ids of different lengths it is not: two pairs that share no peer get one session id, whatever the digest. */
  lemma LengthsMatter(sha: string -> string, s: string, t: string)
    ensures SessionIdFor(SessionDigest(sha), "a", "bc", s, t) == SessionIdFor(SessionDigest(sha), "ab", "c", s, t)
  {
    assert "session/v1" + "a" + "bc" == "session/v1" + "ab" + "c";
    assert Less("a", "bc") && Less("ab", "c");
  }

  function Pow256(n: nat): nat {
    if n == 0 then 1 else 256 * Pow256(n - 1)
  }

  lemma {:induction false} LowBytesDiffer(x: nat, y: nat, n: nat)
    requires x < Pow256(n) && y < Pow256(n) && LowBytes(x, n) == LowBytes(y, n)
    ensures x == y
  {
    if n > 0 {
      assert LowBytes(x, n)[0] == LowBytes(y, n)[0];
      assert LowBytes(x, n)[1..] == LowBytes(y, n)[1..];
      LowBytesDiffer(x / 256, y / 256, n - 1);
    }
  }

  function InU64(): nat -> bool {
    (x: nat) => x < 0x1_0000_0000_0000_0000
  }

  lemma JoinedScoresDiffer(sha: string -> string, n: nat)
    requires Injective(sha)
    ensures NoTie(MatchDigest(sha), Sized(n), InU64())
  {
    var h := MatchDigest(sha);
    forall p, q, i: nat, r, s, j: nat |
      |p| == |q| == |r| == |s| == n && InU64()(i) && InU64()(j) && h(p, q, i) == h(r, s, j)
      ensures p == r && q == s && i == j
    {
      SumsAgree("match/v1" + p + q, LowBytes(i, 8), "match/v1" + r + s, LowBytes(j, 8));
      SumsAgree("match/v1" + p, q, "match/v1" + r, s);
      SumsAgree("match/v1", p, "match/v1", r);
      EightBytes();
      LowBytesDiffer(i, j, 8);
    }
  }

  lemma EightBytes()
    ensures Pow256(8) == 0x1_0000_0000_0000_0000
  {
    assert Pow256(4) == 0x1_0000_0000;
    assert Pow256(6) == 0x1_0000_0000_0000;
  }

  // Claims.

  /** The seed found for a peer is the one in its offer. */
  lemma {:induction false} SeedIsPublished(live: seq<Offer>, i: nat)
    requires i < |live| && forall j: nat | j < i :: live[j].peerId != live[i].peerId
    ensures SeedOf(live, live[i].peerId) == live[i].sessionSeed
  {
    if i > 0 {
      assert live[0].peerId != live[i].peerId;
      forall j: nat | j < i - 1
        ensures live[1..][j].peerId != live[1..][i - 1].peerId
      {
        assert live[j + 1].peerId != live[i].peerId;
      }
      SeedIsPublished(live[1..], i - 1);
    }
  }

  /** The peers of a claim with the seeds they published. */
  function Parties(c: Claim, live: seq<Offer>): set<(string, string)> {
    {(c.claimer, SeedOf(live, c.claimer)), (c.target, SeedOf(live, c.target))}
  }

  /** The snapshot has ids and seeds of these kinds only. */
  ghost predicate WellFormed(live: seq<Offer>, isId: string -> bool, isSeed: string -> bool) {
    forall i: nat | i < |live| :: isId(live[i].peerId) && isSeed(live[i].sessionSeed)
  }

  lemma {:induction false} SeedOfMember(live: seq<Offer>, isId: string -> bool, isSeed: string -> bool, id: string)
    requires WellFormed(live, isId, isSeed) && id in LiveIds(live)
    ensures isId(id) && isSeed(SeedOf(live, id))
  {
    var i: nat :| i < |live| && live[i].peerId == id;
    assert isId(live[i].peerId);
    if live[0].peerId == id {
      assert isSeed(live[0].sessionSeed);
    } else {
      assert live[1..][i - 1].peerId == id;
      assert forall j: nat | j < |live| - 1 :: live[1..][j] == live[j + 1];
      SeedOfMember(live[1..], isId, isSeed, id);
    }
  }

  /** Two claims, made on any two snapshots, carry the same session id exactly when they join the same two peers under
      the same published seeds. Different pairs never share one, and neither does a pair with fresh seeds. */
  lemma ClaimIdsAgreeIff(h: ScoreHash, k: SessionHash, isId: string -> bool, isSeed: string -> bool,
                         me: string, live: seq<Offer>, bucket: nat, matched: set<string>,
                         me': string, live': seq<Offer>, bucket': nat, matched': set<string>)
    requires NoCollision(k, isId, isSeed) && WellFormed(live, isId, isSeed) && WellFormed(live', isId, isSeed)
    requires ClaimOf(h, k, me, live, bucket, matched).Some? && ClaimOf(h, k, me', live', bucket', matched').Some?
    ensures var c := ClaimOf(h, k, me, live, bucket, matched).value;
            var c' := ClaimOf(h, k, me', live', bucket', matched').value;
            c.sessionId == c'.sessionId <==> Parties(c, live) == Parties(c', live')
  {
    hide Less, PairScore, SessionIdFor, NoCollision, WellFormed;
    ClaimsAreMutual(h, k, me, live, bucket, matched);
    ClaimsAreMutual(h, k, me', live', bucket', matched');
    var c := ClaimOf(h, k, me, live, bucket, matched).value;
    var c' := ClaimOf(h, k, me', live', bucket', matched').value;
    SeedOfMember(live, isId, isSeed, me);
    SeedOfMember(live, isId, isSeed, c.target);
    SeedOfMember(live', isId, isSeed, me');
    SeedOfMember(live', isId, isSeed, c'.target);
    SessionIdsAgreeIff(k, isId, isSeed, me, c.target, SeedOf(live, me), SeedOf(live, c.target),
                       me', c'.target, SeedOf(live', me'), SeedOf(live', c'.target));
  }

  // The order of strings, and whom a peer chooses.

  /** A string is before another when it is a proper prefix of it, or smaller where they first differ. */
  ghost predicate Before(s: string, t: string) {
    s < t || exists n: nat :: n < |s| && n < |t| && s[..n] == t[..n] && s[n] < t[n]
  }

  lemma BeforeByHead(s: string, t: string)
    requires s != "" && t != "" && s[0] != t[0]
    ensures Before(s, t) <==> s[0] < t[0]
  {
    if s[0] < t[0] {
      assert s[..0] == t[..0];
    }
    assert forall n: nat | 0 < n <= |s| && n <= |t| :: s[..n][0] != t[..n][0];
  }

  lemma BeforeByTail(s: string, t: string)
    requires s != "" && t != "" && s[0] == t[0]
    ensures Before(s, t) <==> Before(s[1..], t[1..])
  {
    var x, y := s[1..], t[1..];
    assert s == [s[0]] + x && t == [t[0]] + y;
    if n: nat :| n < |x| && n < |y| && x[..n] == y[..n] && x[n] < y[n] {
      assert s[..n + 1] == [s[0]] + x[..n] && t[..n + 1] == [t[0]] + y[..n];
      assert s[n + 1] < t[n + 1];
    }
    if n: nat :| n < |s| && n < |t| && s[..n] == t[..n] && s[n] < t[n] {
      assert n > 0;
      assert x[..n - 1] == s[..n][1..] && y[..n - 1] == t[..n][1..];
      assert x[n - 1] < y[n - 1];
    }
  }

  lemma {:induction false} LessIff(s: string, t: string)
    ensures Less(s, t) <==> Before(s, t)
  {
    if s != "" && t != "" {
      hide Before;
      LessIff(s[1..], t[1..]);
      if s[0] == t[0] {
        BeforeByTail(s, t);
      } else {
        BeforeByHead(s, t);
      }
    }
  }

  /** A peer chooses exactly the free other whose score comes first, and among equal scores the one whose id does. */
  lemma ChoiceIsFirst(h: ScoreHash, me: string, free: set<string>, bucket: nat, b: string)
    ensures Choice(h, me, free, bucket) == Some(b) <==>
            && b in free && b != me
            && forall c | c in free && c != me && c != b ::
                 || Before(PairScore(h, me, b, bucket), PairScore(h, me, c, bucket))
                 || (PairScore(h, me, b, bucket) == PairScore(h, me, c, bucket) && Before(b, c))
  {
    hide Less, PairScore, Before;
    var key, s := ScoreOf(h, me, bucket), Candidates(me, free);
    forall c
      ensures Better(key, b, c) <==>
              || Before(PairScore(h, me, b, bucket), PairScore(h, me, c, bucket))
              || (PairScore(h, me, b, bucket) == PairScore(h, me, c, bucket) && Before(b, c))
    {
      LessIff(key(b), key(c));
      LessIff(b, c);
    }
    if IsLeast(key, s, b) {
      LeastIsUnique(key, s, b, Least(key, s));
    }
  }
}
