/** What the error correction bytes are for (ISO/IEC 18004:2015, section 7.5.2; ui/qrcode-generator.js:267-301): half
    as many errors leave no doubt about the data of a block. */
module RsDistance {
  import opened Sets
  import opened Gf256
  import opened Polynomial
  import opened ReedSolomon

  // Dilation: the value at x a of a polynomial is the value at a of another.

  /** Every coefficient times the power of x that belongs to its place. */
  ghost function Dilated(p: Poly): (d: Poly)
    ensures |d| == |p|
  {
    seq(|p|, k requires 0 <= k < |p| => Mul(p[k], Exp(|p| - 1 - k)))
  }

  lemma {:induction false} EvalDilated(p: Poly, a: bv8)
    ensures Eval(Dilated(p), a) == Eval(p, Mul(Exp(1), a))
  {
    hide Plus, Mul, Exp, Dilated;
    if p == [] {
      assert Dilated(p) == [];
    } else {
      var n, x := |p| - 1, Exp(1);
      var h := p[..n];
      EvalDilated(h, a);
      DilatedSnoc(h, p[n]);
      assert p == h + [p[n]];
      EvalSnoc(Scale(x, Dilated(h)), p[n], a);
      EvalScale(x, Dilated(h), a);
      EvalSnoc(h, p[n], Mul(x, a));
      var v := Eval(h, Mul(x, a));
      MulComm(x, v);
      MulAssoc(v, x, a);
    }
  }

  lemma DilatedSnoc(h: Poly, c: bv8)
    ensures Dilated(h + [c]) == Scale(Exp(1), Dilated(h)) + [c]
  {
    hide Mul, Exp;
    var n := |h|;
    forall k: nat | k <= n
      ensures Dilated(h + [c])[k] == (Scale(Exp(1), Dilated(h)) + [c])[k]
    {
      if k < n {
        MulAssoc(h[k], Exp(n - 1 - k), Exp(1));
        MulExpExp(n - 1 - k, 1);
        MulComm(Exp(1), Dilated(h)[k]);
      } else {
        ExpZero();
        MulOne(c);
      }
    }
  }

  lemma ExpZero()
    ensures Exp(0) == 1
  {}

  lemma ExpNext(i: nat)
    ensures Mul(Exp(1), Exp(i)) == Exp(i + 1)
  {
    MulExpExp(1, i);
  }

  // Cancelling one coefficient.

  /** The places of the nonzero coefficients. */
  function Support(p: Poly): set<nat> {
    set k: nat | k < |p| && p[k] != 0
  }

  /** The dilated polynomial plus the multiple of p that cancels coefficient m. */
  ghost function Cancelled(p: Poly, m: nat): (q: Poly)
    requires m < |p|
    ensures |q| == |p|
  {
    Sum(Dilated(p), Scale(Exp(|p| - 1 - m), p))
  }

  lemma CancelledAt(p: Poly, m: nat, k: nat)
    requires m < |p| <= 255 && k < |p|
    ensures Cancelled(p, m)[k] == 0 <==> p[k] == 0 || k == m
  {
    hide Plus, Mul, Exp;
    var a, b := Exp(|p| - 1 - k), Exp(|p| - 1 - m);
    MulComm(b, p[k]);
    MulPlus(p[k], a, b);
    MulIsZeroIff(p[k], Plus(a, b));
    PlusLaws(a, b, 0);
    if a == b {
      ExpInjective(|p| - 1 - k, |p| - 1 - m);
    }
  }

  lemma CancelledSupport(p: Poly, m: nat)
    requires m < |p| <= 255
    ensures Support(Cancelled(p, m)) == Support(p) - {m}
  {
    hide Cancelled;
    forall k: nat | k < |p|
      ensures Cancelled(p, m)[k] == 0 <==> p[k] == 0 || k == m
    {
      CancelledAt(p, m, k);
    }
  }

  /** One root is spent. */
  lemma CancelledVanishes(p: Poly, m: nat, i: nat)
    requires m < |p| && Eval(p, Exp(i)) == 0 && Eval(p, Exp(i + 1)) == 0
    ensures Eval(Cancelled(p, m), Exp(i)) == 0
  {
    hide Plus, Mul, Exp, Eval, Dilated;
    var c := Exp(|p| - 1 - m);
    EvalSum(Dilated(p), Scale(c, p), Exp(i));
    EvalDilated(p, Exp(i));
    ExpNext(i);
    EvalScale(c, p, Exp(i));
    MulIsZeroIff(c, 0);
    PlusLaws(0, 0, 0);
  }

  /** A single coefficient is the value at 1. */
  lemma {:induction false} SingleAtOne(p: Poly, m: nat)
    requires m < |p| && forall k: nat | k < |p| && k != m :: p[k] == 0
    ensures Eval(p, 1) == p[m]
    decreases |p|
  {
    hide Plus, Mul;
    var n := |p| - 1;
    MulOne(Eval(p[..n], 1));
    if m == n {
      assert p[..n] == Zeros(n) + [];
      EvalLeadingZeros(n, [], 1);
      PlusLaws(0, p[m], 0);
      PlusLaws(p[m], 0, 0);
    } else {
      SingleAtOne(p[..n], m);
      PlusLaws(p[m], 0, 0);
    }
  }

  /** A polynomial with at most ec nonzero coefficients that vanishes at the first ec powers of x is zero. */
  lemma {:induction false} LightVanishingIsZero(p: Poly, ec: nat)
    requires |p| <= 255 && |Support(p)| <= ec
    requires forall i: nat | i < ec :: Eval(p, Exp(i)) == 0
    ensures p == Zeros(|p|)
    decreases ec
  {
    hide Exp, Eval, Cancelled;
    if Support(p) != {} {
      var m :| m in Support(p);
      var q := Cancelled(p, m);
      CancelledSupport(p, m);
      forall i: nat | i < ec - 1
        ensures Eval(q, Exp(i)) == 0
      {
        CancelledVanishes(p, m, i);
      }
      LightVanishingIsZero(q, ec - 1);
      OnlyOneLeft(p, q, m);
      SingleAtOne(p, m);
      ExpZero();
      assert false;
    }
    assert forall k: nat | k < |p| :: p[k] == 0 || k in Support(p);
  }

  lemma OnlyOneLeft(p: Poly, q: Poly, m: nat)
    requires |p| == |q| && Support(q) == Support(p) - {m} && q == Zeros(|q|)
    ensures forall k: nat | k < |p| && k != m :: p[k] == 0
  {
    assert Support(q) == {};
    forall k: nat | k < |p| && k != m
      ensures p[k] == 0
    {
      assert k in Support(p) ==> k in Support(q);
    }
  }

  // Blocks.

  /** The places where two blocks differ. */
  function Differences(a: Poly, b: Poly): set<nat>
    requires |a| == |b|
  {
    set k: nat | k < |a| && a[k] != b[k]
  }

  /** Blocks of up to 255 bytes with different data differ in more bytes than there are error correction bytes. */
  lemma {:induction false} BlocksAreFarApart(a: Poly, b: Poly, ec: nat)
    requires |a| == |b| && |a| + ec <= 255 && a != b
    ensures |Differences(a + EcBytes(a, ec), b + EcBytes(b, ec))| > ec
  {
    hide Plus, Exp, Eval, EcBytes;
    var s, t := a + EcBytes(a, ec), b + EcBytes(b, ec);
    var d := Sum(s, t);
    forall i: nat | i < ec
      ensures Eval(d, Exp(i)) == 0
    {
      BlockVanishes(a, ec, i);
      BlockVanishes(b, ec, i);
      EvalSum(s, t, Exp(i));
      PlusLaws(0, 0, 0);
    }
    SumSupport(s, t);
    assert s[..|a|] == a && t[..|b|] == b;
    if |Support(d)| <= ec {
      LightVanishingIsZero(d, ec);
      SameWhereZero(s, t);
    }
  }

  lemma SumSupport(s: Poly, t: Poly)
    requires |s| == |t|
    ensures Support(Sum(s, t)) == Differences(s, t)
  {
    hide Plus;
    forall k: nat | k < |s|
      ensures Sum(s, t)[k] == 0 <==> s[k] == t[k]
    {
      PlusLaws(s[k], t[k], 0);
    }
  }

  lemma SameWhereZero(s: Poly, t: Poly)
    requires |s| == |t| && Sum(s, t) == Zeros(|s|)
    ensures s == t
  {
    hide Plus;
    forall k: nat | k < |s|
      ensures s[k] == t[k]
    {
      assert Sum(s, t)[k] == 0;
      PlusLaws(s[k], t[k], 0);
    }
  }

  /** Up to half as many errors as error correction bytes, anywhere in the block, leave only one choice of data. */
  lemma {:induction false} ErrorsAreCorrectable(a: Poly, b: Poly, ec: nat, received: Poly, errors: nat)
    requires |a| == |b| && |a| + ec <= 255 && |received| == |a| + ec && 2 * errors <= ec
    requires |Differences(received, a + EcBytes(a, ec))| <= errors
    requires |Differences(received, b + EcBytes(b, ec))| <= errors
    ensures a == b
  {
    hide EcBytes, Differences;
    var s, t := a + EcBytes(a, ec), b + EcBytes(b, ec);
    if a != b {
      BlocksAreFarApart(a, b, ec);
      Triangle(s, received, t);
    }
  }

  lemma Triangle(s: Poly, r: Poly, t: Poly)
    requires |s| == |r| == |t|
    ensures |Differences(s, t)| <= |Differences(r, s)| + |Differences(r, t)|
  {
    var x, y := Differences(r, s), Differences(r, t);
    assert Differences(s, t) <= x + y;
    SubsetIsSmaller(Differences(s, t), x + y);
    SubsetIsSmaller(y - x, y);
    assert x + y == x + (y - x);
  }
}
