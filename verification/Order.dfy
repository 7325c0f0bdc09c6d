/** The lexicographic order on strings, and sorting by it. */
module Order {

  predicate Less(s: string, t: string) {
    t != "" && (s == "" || s[0] < t[0] || (s[0] == t[0] && Less(s[1..], t[1..])))
  }

  lemma {:induction false} LessIrreflexive(s: string)
    ensures !Less(s, s)
  {
    if s != "" {
      LessIrreflexive(s[1..]);
    }
  }

  lemma {:induction false} LessTotal(s: string, t: string)
    ensures Less(s, t) || s == t || Less(t, s)
  {
    if s != "" && t != "" && s[0] == t[0] {
      LessTotal(s[1..], t[1..]);
      assert s == [s[0]] + s[1..] && t == [t[0]] + t[1..];
    }
  }

  lemma {:induction false} LessTransitive(s: string, t: string, u: string)
    requires Less(s, t) && Less(t, u)
    ensures Less(s, u)
  {
    if s != "" && s[0] == t[0] == u[0] {
      LessTransitive(s[1..], t[1..], u[1..]);
    }
  }

  lemma LessAsymmetric(s: string, t: string)
    requires Less(s, t)
    ensures !Less(t, s) && s != t
  {
    LessIrreflexive(s);
    if Less(t, s) {
      LessTransitive(s, t, s);
    }
  }

  ghost predicate StrictlySorted(keys: seq<string>) {
    forall i: nat, j: nat | i < j < |keys| :: Less(keys[i], keys[j])
  }

  function Elements(keys: seq<string>): set<string> {
    set k | k in keys
  }

  lemma HeadOccursOnce(a: seq<string>)
    requires StrictlySorted(a) && a != []
    ensures forall k :: k in a[1..] <==> k in a && k != a[0]
  {
    assert a == [a[0]] + a[1..];
    forall i: nat | 0 < i < |a|
      ensures a[i] != a[0]
    {
      LessAsymmetric(a[0], a[i]);
    }
  }

  /** The last element of a strictly sorted sequence is not among the others. */
  lemma SortedInit(a: seq<string>)
    requires StrictlySorted(a) && a != []
    ensures StrictlySorted(a[..|a| - 1]) && a[|a| - 1] !in a[..|a| - 1]
  {
    hide Less;
    var n := |a| - 1;
    forall i: nat | i < n
      ensures a[i] != a[n]
    {
      LessAsymmetric(a[i], a[n]);
    }
  }

  /** A sorted sequence is determined by its elements. */
  lemma {:induction false} SortedIsUnique(a: seq<string>, b: seq<string>)
    requires StrictlySorted(a) && StrictlySorted(b)
    requires forall k :: k in a <==> k in b
    ensures a == b
    decreases |a|
  {
    if a == [] {
      assert forall i: nat | i < |b| :: b[i] in b;
    } else {
      assert a[0] in b && b != [] && b[0] in a;
      if a[0] != b[0] {
        var i :| 0 <= i < |b| && b[i] == a[0];
        var j :| 0 <= j < |a| && a[j] == b[0];
        assert Less(b[0], b[i]) && Less(a[0], a[j]);
        LessAsymmetric(a[0], b[0]);
      }
      HeadOccursOnce(a);
      HeadOccursOnce(b);
      SortedIsUnique(a[1..], b[1..]);
      assert a == [a[0]] + a[1..] && b == [b[0]] + b[1..];
    }
  }

  function Insert(k: string, keys: seq<string>): seq<string> {
    if keys == [] then [k] else if Less(k, keys[0]) then [k] + keys else [keys[0]] + Insert(k, keys[1..])
  }

  lemma {:induction false} InsertSorts(k: string, keys: seq<string>)
    requires StrictlySorted(keys) && k !in keys
    ensures StrictlySorted(Insert(k, keys))
    ensures forall x :: x in Insert(k, keys) <==> x == k || x in keys
  {
    if keys != [] {
      var rest := keys[1..];
      assert keys == [keys[0]] + rest;
      if Less(k, keys[0]) {
        forall j: nat | j < |keys|
          ensures Less(k, keys[j])
        {
          if j > 0 {
            LessTransitive(k, keys[0], keys[j]);
          }
        }
      } else {
        InsertSorts(k, rest);
        LessTotal(k, keys[0]);
        forall j: nat | j < |Insert(k, rest)|
          ensures Less(keys[0], Insert(k, rest)[j])
        {
          var x := Insert(k, rest)[j];
          if x != k {
            assert x in rest;
            var i :| 0 <= i < |rest| && rest[i] == x;
            assert Less(keys[0], keys[i + 1]);
          }
        }
      }
    }
  }

  /** The sorted sequence of a set of keys. */
  ghost function SortedKeys(s: set<string>): (keys: seq<string>)
    ensures StrictlySorted(keys) && forall k :: k in keys <==> k in s
  {
    if s == {} then [] else
      var k :| k in s;
      var rest := SortedKeys(s - {k});
      InsertSorts(k, rest);
      Insert(k, rest)
  }

  /** Collect the keys in any order and sort them. */
  method SortKeys(s: set<string>) returns (keys: seq<string>)
    ensures keys == SortedKeys(s)
  {
    keys := [];
    var rest := s;
    while rest != {}
      invariant rest <= s && StrictlySorted(keys)
      invariant forall k :: k in keys <==> k in s - rest
      decreases |rest|
    {
      var k :| k in rest;
      rest := rest - {k};
      InsertSorts(k, keys);
      keys := Insert(k, keys);
    }
    SortedIsUnique(keys, SortedKeys(s));
  }
}
