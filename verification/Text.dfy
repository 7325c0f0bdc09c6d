/** The string operations the star ledger relies on: trimming, decimal numbers, and fields joined by bars. */
module Text {
  import opened Wrappers

  /** Unicode White_Space, the characters Rust's trim removes. */
  predicate IsWhite(c: char) {
    var n := c as int;
    || 0x09 <= n <= 0x0d || n == 0x20 || n == 0x85 || n == 0xa0 || n == 0x1680 || 0x2000 <= n <= 0x200a
    || n == 0x2028 || n == 0x2029 || n == 0x202f || n == 0x205f || n == 0x3000
  }

  function TrimStart(s: string): (r: string)
    ensures |r| <= |s|
  {
    if s != "" && IsWhite(s[0]) then TrimStart(s[1..]) else s
  }

  function TrimEnd(s: string): (r: string)
    ensures |r| <= |s|
  {
    if s != "" && IsWhite(s[|s| - 1]) then TrimEnd(s[..|s| - 1]) else s
  }

  function Trim(s: string): string {
    TrimEnd(TrimStart(s))
  }

  predicate NoWhite(s: string) {
    forall i: nat | i < |s| :: !IsWhite(s[i])
  }

  lemma TrimKeeps(s: string)
    requires NoWhite(s)
    ensures Trim(s) == s
  {}

  lemma {:induction false} TrimEndIsTight(s: string)
    ensures TrimEnd(s) <= s
    ensures TrimEnd(s) != "" ==> !IsWhite(TrimEnd(s)[|TrimEnd(s)| - 1])
  {
    if s != "" && IsWhite(s[|s| - 1]) {
      TrimEndIsTight(s[..|s| - 1]);
    }
  }

  lemma {:induction false} TrimStartIsTight(s: string)
    ensures TrimStart(s) != "" ==> !IsWhite(TrimStart(s)[0])
  {
    if s != "" && IsWhite(s[0]) {
      TrimStartIsTight(s[1..]);
    }
  }

  lemma TrimTwice(s: string)
    ensures Trim(Trim(s)) == Trim(s)
  {
    var t := TrimStart(s);
    TrimStartIsTight(s);
    TrimEndIsTight(t);
  }

  predicate StartsWith(s: string, prefix: string) {
    prefix <= s
  }

  predicate EndsWith(s: string, suffix: string) {
    |suffix| <= |s| && s[|s| - |suffix|..] == suffix
  }

  // Decimal numbers.

  predicate IsDigit(c: char) {
    '0' <= c <= '9'
  }

  function Digit(n: nat): char
    requires n < 10
  {
    '0' + n as char
  }

  function Dec(n: nat): (s: string)
    ensures s != ""
  {
    if n < 10 then [Digit(n)] else Dec(n / 10) + [Digit(n % 10)]
  }

  /** The value of a string of digits, or None. */
  function ParseDigits(s: string): Option<nat> {
    if s == "" then Some(0)
    else if !IsDigit(s[|s| - 1]) then None
    else
      match ParseDigits(s[..|s| - 1])
      case None => None
      case Some(n) => Some(10 * n + (s[|s| - 1] - '0') as nat)
  }

  const U64_LIMIT: nat := 0x1_0000_0000_0000_0000

  /** Rust's u64 parser: an optional plus sign, at least one digit, no overflow. */
  function ParseU64(s: string): Option<nat> {
    var digits := if s != "" && s[0] == '+' then s[1..] else s;
    if digits == "" then None else
      match ParseDigits(digits)
      case None => None
      case Some(n) => if n < U64_LIMIT then Some(n) else None
  }

  lemma {:induction false} DecParses(n: nat)
    ensures ParseDigits(Dec(n)) == Some(n)
    ensures forall i: nat | i < |Dec(n)| :: IsDigit(Dec(n)[i])
  {
    if n < 10 {
      assert Dec(n)[..0] == "";
    } else {
      DecParses(n / 10);
      assert Dec(n)[..|Dec(n)| - 1] == Dec(n / 10);
    }
  }

  lemma DecInjective(m: nat, n: nat)
    requires Dec(m) == Dec(n)
    ensures m == n
  {
    DecParses(m);
    DecParses(n);
  }

  lemma DecRoundTrip(n: nat)
    requires n < U64_LIMIT
    ensures ParseU64(Dec(n)) == Some(n)
  {
    DecParses(n);
    assert IsDigit(Dec(n)[0]);
  }

  // Fields joined by bars.

  predicate BarFree(s: string) {
    '|' !in s
  }

  function Bars(s: string): nat {
    if s == "" then 0 else (if s[0] == '|' then 1 else 0) + Bars(s[1..])
  }

  lemma {:induction false} BarsOfConcat(s: string, t: string)
    ensures Bars(s + t) == Bars(s) + Bars(t)
  {
    if s == "" {
      assert s + t == t;
    } else {
      BarsOfConcat(s[1..], t);
      assert (s + t)[1..] == s[1..] + t;
    }
  }

  lemma {:induction false} BarFreeIffNoBars(s: string)
    ensures BarFree(s) <==> Bars(s) == 0
  {
    if s != "" {
      BarFreeIffNoBars(s[1..]);
      assert s == [s[0]] + s[1..];
    }
  }

  function Join(fields: seq<string>): string
    requires fields != []
  {
    if |fields| == 1 then fields[0] else fields[0] + "|" + Join(fields[1..])
  }

  predicate AllBarFree(fields: seq<string>) {
    forall i: nat | i < |fields| :: BarFree(fields[i])
  }

  lemma {:induction false} BarsOfJoin(fields: seq<string>)
    requires fields != []
    ensures Bars(Join(fields)) >= |fields| - 1
    ensures Bars(Join(fields)) == |fields| - 1 <==> AllBarFree(fields)
  {
    var f := fields[0];
    BarFreeIffNoBars(f);
    if |fields| > 1 {
      BarsOfJoin(fields[1..]);
      BarsOfConcat(f + "|", Join(fields[1..]));
      BarsOfConcat(f, "|");
      assert Bars("|") == 1 + Bars("");
      assert fields == [f] + fields[1..];
    }
  }

  /** Two bar-free heads followed by a bar agree as soon as the whole strings do. */
  lemma {:induction false} HeadsAgree(f: string, g: string, s: string, t: string)
    requires BarFree(f) && BarFree(g) && f + "|" + s == g + "|" + t
    ensures f == g && s == t
  {
    var u := f + "|" + s;
    assert u[|f|] == '|' && u[|g|] == '|';
    assert forall i: nat | i < |f| :: u[i] == f[i];
    assert forall i: nat | i < |g| :: u[i] == g[i];
    assert f == u[..|f|] && g == u[..|g|];
    assert s == u[|f| + 1..] && t == u[|g| + 1..];
  }

  /** Bar-free fields can be read back from the joined string, whatever the other side's fields are. */
  lemma {:induction false} JoinDetermines(fs: seq<string>, gs: seq<string>)
    requires fs != [] && |fs| == |gs| && AllBarFree(fs) && Join(fs) == Join(gs)
    ensures fs == gs
  {
    BarsOfJoin(fs);
    BarsOfJoin(gs);
    JoinInjective(fs, gs);
  }

  lemma {:induction false} JoinInjective(fs: seq<string>, gs: seq<string>)
    requires fs != [] && |fs| == |gs| && AllBarFree(fs) && AllBarFree(gs) && Join(fs) == Join(gs)
    ensures fs == gs
  {
    if |fs| > 1 {
      HeadsAgree(fs[0], gs[0], Join(fs[1..]), Join(gs[1..]));
      JoinInjective(fs[1..], gs[1..]);
    }
    assert fs == [fs[0]] + fs[1..] && gs == [gs[0]] + gs[1..];
  }
}
