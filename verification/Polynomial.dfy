/** Polynomials over GF(256), most significant coefficient first, as the QR encoder's
    qrPolynomial computes with them (ui/qrcode-generator.js:1182-1245). */
module Polynomial {
  import opened Gf256

  type Poly = seq<bv8>

  /** The value of p at a, by Horner's rule. */
  ghost function Eval(p: Poly, a: bv8): bv8 {
    if p == [] then 0 else Plus(Mul(Eval(p[..|p| - 1], a), a), p[|p| - 1])
  }

  function Zeros(n: nat): Poly {
    seq(n, _ => 0)
  }

  /** p without its leading zero coefficients. */
  function Strip(p: Poly): (r: Poly)
    ensures |r| <= |p| && p == Zeros(|p| - |r|) + r
    ensures r == [] || r[0] != 0
  {
    if p == [] || p[0] != 0 then p else
      var r := Strip(p[1..]);
      assert p == [p[0]] + p[1..] == [0] + (Zeros(|p| - 1 - |r|) + r);
      r
  }

  function Sum(p: Poly, q: Poly): Poly
    requires |p| == |q|
  {
    seq(|p|, i requires 0 <= i < |p| => Plus(p[i], q[i]))
  }

  ghost function Scale(c: bv8, p: Poly): Poly {
    seq(|p|, i requires 0 <= i < |p| => Mul(c, p[i]))
  }

  /** Coefficient k of the product of the first n coefficients of p with q. */
  ghost function Coefficient(p: Poly, q: Poly, k: nat, n: nat): bv8
    requires n <= |p|
  {
    if n == 0 then 0 else
      Plus(Coefficient(p, q, k, n - 1), if 0 <= k - (n - 1) < |q| then Mul(p[n - 1], q[k - (n - 1)]) else 0)
  }

  ghost function Product(p: Poly, q: Poly): Poly
    requires p != [] && q != []
  {
    seq(|p| + |q| - 1, k requires k >= 0 => Coefficient(p, q, k, |p|))
  }

  // Laws of evaluation.

  lemma EvalSnoc(p: Poly, c: bv8, a: bv8)
    ensures Eval(p + [c], a) == Plus(Mul(Eval(p, a), a), c)
  {
    hide Plus, Mul;
    assert (p + [c])[..|p|] == p;
  }

  lemma {:induction false} EvalSum(p: Poly, q: Poly, a: bv8)
    requires |p| == |q|
    ensures Eval(Sum(p, q), a) == Plus(Eval(p, a), Eval(q, a))
  {
    hide Plus, Mul;
    if p == [] {
      PlusLaws(0, 0, 0);
    } else {
      var n := |p| - 1;
      EvalSum(p[..n], q[..n], a);
      assert Sum(p, q)[..n] == Sum(p[..n], q[..n]);
      var s, t := Eval(p[..n], a), Eval(q[..n], a);
      MulPlus(a, s, t);
      MulComm(a, s);
      MulComm(a, t);
      MulComm(a, Plus(s, t));
      PlusSwap(Mul(s, a), Mul(t, a), p[n], q[n]);
    }
  }

  lemma {:induction false} PlusSwap(a: bv8, b: bv8, c: bv8, d: bv8)
    ensures Plus(Plus(a, b), Plus(c, d)) == Plus(Plus(a, c), Plus(b, d))
  {
    hide Plus;
    PlusLaws(a, b, Plus(c, d));
    PlusLaws(b, c, d);
    PlusLaws(c, b, d);
    PlusLaws(a, c, Plus(b, d));
  }

  lemma {:induction false} EvalScale(c: bv8, p: Poly, a: bv8)
    ensures Eval(Scale(c, p), a) == Mul(c, Eval(p, a))
  {
    hide Plus, Mul;
    if p == [] {
      MulIsZeroIff(c, 0);
    } else {
      var n := |p| - 1;
      EvalScale(c, p[..n], a);
      assert Scale(c, p)[..n] == Scale(c, p[..n]);
      MulAssoc(c, Eval(p[..n], a), a);
      MulPlus(c, Mul(Eval(p[..n], a), a), p[n]);
    }
  }

  lemma {:induction false} EvalLeadingZeros(n: nat, p: Poly, a: bv8)
    ensures Eval(Zeros(n) + p, a) == Eval(p, a)
  {
    hide Plus, Mul;
    var z := Zeros(n) + p;
    if p != [] {
      EvalLeadingZeros(n, p[..|p| - 1], a);
      assert z[..|z| - 1] == Zeros(n) + p[..|p| - 1];
    } else if n > 0 {
      EvalLeadingZeros(n - 1, p, a);
      assert z[..|z| - 1] == Zeros(n - 1) + p;
      MulIsZeroIff(0, a);
      PlusLaws(0, 0, 0);
    }
  }

  /** Appending trailing coefficients: the head's value is scaled, whatever the tail. */
  lemma {:induction false} EvalTail(p: Poly, q: Poly, t: Poly, a: bv8)
    requires Eval(p, a) == Eval(q, a)
    ensures Eval(p + t, a) == Eval(q + t, a)
  {
    hide Plus, Mul;
    if t == [] {
      assert p + t == p && q + t == q;
    } else {
      var n := |t| - 1;
      EvalTail(p, q, t[..n], a);
      EvalSnoc(p + t[..n], t[n], a);
      EvalSnoc(q + t[..n], t[n], a);
      assert p + t == p + t[..n] + [t[n]];
      assert q + t == q + t[..n] + [t[n]];
    }
  }

  /** Evaluation turns products into products. */
  lemma {:induction false} EvalProduct(p: Poly, q: Poly, a: bv8)
    requires p != [] && q != []
    ensures Eval(Product(p, q), a) == Mul(Eval(p, a), Eval(q, a))
  {
    hide Plus, Mul, Product;
    var n := |p| - 1;
    var head, c := p[..n], p[n];
    if n == 0 {
      assert p == [c];
      EvalConstant(c, a);
      ProductConstant(c, q);
      EvalScale(c, q, a);
    } else {
      EvalProduct(head, q, a);
      assert p == head + [c];
      EvalSnoc(head, c, a);
      EvalProductStep(head, c, q, a);
      DistributeRight(Eval(head, a), a, c, Eval(q, a));
    }
  }

  lemma EvalConstant(c: bv8, a: bv8)
    ensures Eval([c], a) == c
  {
    hide Plus, Mul;
    EvalSnoc([], c, a);
    assert [] + [c] == [c];
    MulIsZeroIff(0, a);
    PlusLaws(0, c, 0);
    PlusLaws(c, 0, 0);
  }

  lemma ProductConstant(c: bv8, q: Poly)
    requires q != []
    ensures Product([c], q) == Scale(c, q)
  {
    hide Plus, Mul;
    var p := [c];
    forall k: nat | k < |q|
      ensures Coefficient(p, q, k, 1) == Mul(c, q[k])
    {
      PlusLaws(0, Mul(c, q[k]), 0);
      PlusLaws(Mul(c, q[k]), 0, 0);
      assert Coefficient(p, q, k, 0) == 0;
    }
  }

  lemma EvalProductStep(head: Poly, c: bv8, q: Poly, a: bv8)
    requires head != [] && q != []
    ensures Eval(Product(head + [c], q), a) == Plus(Plus(Mul(Eval(Product(head, q), a), a), 0), Mul(c, Eval(q, a)))
  {
    hide Plus, Mul, Eval;
    var high, low := Product(head, q) + [0], Zeros(|head|) + Scale(c, q);
    ProductStep(head, c, q);
    EvalSum(high, low, a);
    EvalSnoc(Product(head, q), 0, a);
    EvalLeadingZeros(|head|, Scale(c, q), a);
    EvalScale(c, q, a);
  }

  /** One more coefficient of p adds a shifted multiple of q. */
  lemma ProductStep(head: Poly, c: bv8, q: Poly)
    requires head != [] && q != []
    ensures Product(head + [c], q) == Sum(Product(head, q) + [0], Zeros(|head|) + Scale(c, q))
  {
    hide Plus, Mul;
    var n, p := |head|, head + [c];
    var high, low := Product(head, q) + [0], Zeros(n) + Scale(c, q);
    forall k: nat | k < |p| + |q| - 1
      ensures Coefficient(p, q, k, |p|) == Plus(high[k], low[k])
    {
      CoefficientPrefix(head, c, q, k, n);
      if k == |head| + |q| - 1 {
        CoefficientBeyond(head, q, k, n);
      }
    }
  }

  lemma DistributeRight(h: bv8, a: bv8, c: bv8, e: bv8)
    ensures Plus(Plus(Mul(Mul(h, e), a), 0), Mul(c, e)) == Mul(Plus(Mul(h, a), c), e)
  {
    hide Plus, Mul;
    MulAssoc(h, e, a);
    MulComm(e, a);
    MulAssoc(h, a, e);
    MulPlus(e, Mul(h, a), c);
    MulComm(e, Plus(Mul(h, a), c));
    MulComm(e, Mul(h, a));
    MulComm(e, c);
    PlusLaws(Mul(Mul(h, e), a), 0, 0);
  }

  lemma {:induction false} CoefficientPrefix(p: Poly, c: bv8, q: Poly, k: nat, n: nat)
    requires n <= |p|
    ensures Coefficient(p + [c], q, k, n) == Coefficient(p, q, k, n)
  {
    hide Plus, Mul;
    if n > 0 {
      CoefficientPrefix(p, c, q, k, n - 1);
    }
  }

  lemma {:induction false} CoefficientBeyond(p: Poly, q: Poly, k: nat, n: nat)
    requires n <= |p| && k >= n - 1 + |q|
    ensures Coefficient(p, q, k, n) == 0
  {
    hide Mul;
    if n > 0 {
      CoefficientBeyond(p, q, k, n - 1);
    }
  }
}
