/** Reed-Solomon error correction bytes (ISO/IEC 18004:2015, section 7.5.2) as the QR encoder
    computes them: polynomial division by the generator (ui/qrcode-generator.js:292-300, 966-972, 1182-1245). */
module ReedSolomon {
  import opened Gf256
  import opened QrMath
  import opened Polynomial
  import opened RsGenerator

  /** The factor that makes e's leading coefficient equal p's. */
  ghost function Ratio(p: Poly, e: Poly): bv8
    requires p != [] && e != [] && p[0] != 0 && e[0] != 0
  {
    Exp((Log(p[0]) - Log(e[0])) % 255)
  }

  /** One division step: subtract the multiple of e that cancels p's leading coefficient. */
  ghost function Subtract(p: Poly, e: Poly): (r: Poly)
    requires 0 < |e| <= |p| && p[0] != 0 && e[0] != 0
    ensures |r| == |p| && r[0] == 0
  {
    LeadCancels(p, e);
    seq(|p|, i requires 0 <= i < |p| => if i < |e| then Plus(p[i], Mul(e[i], Ratio(p, e))) else p[i])
  }

  lemma LeadCancels(p: Poly, e: Poly)
    requires 0 < |e| <= |p| && p[0] != 0 && e[0] != 0
    ensures Plus(p[0], Mul(e[0], Ratio(p, e))) == 0
  {
    hide Exp, Plus;
    var r := (Log(p[0]) - Log(e[0])) % 255;
    MulExpExp(Log(e[0]), r);
    ExpMod(Log(e[0]) + r);
    PlusLaws(p[0], p[0], 0);
  }

  /** The remainder of p divided by e. */
  ghost function Remainder(p: Poly, e: Poly): Poly
    requires e != [] && e[0] != 0
    requires |p| < |e| || p[0] != 0
    decreases |p|
  {
    if |p| < |e| then p else
      Remainder(Strip(Subtract(p, e)), e)
  }

  /** A division step does not change the value at a root of the divisor. */
  lemma SubtractKeepsRoots(p: Poly, e: Poly, a: bv8)
    requires 0 < |e| <= |p| && p[0] != 0 && e[0] != 0 && Eval(e, a) == 0
    ensures Eval(Subtract(p, e), a) == Eval(p, a)
  {
    hide Plus, Mul, Ratio;
    var c, n := Ratio(p, e), |e|;
    var head := Sum(p[..n], Scale(c, e));
    EvalSum(p[..n], Scale(c, e), a);
    EvalScale(c, e, a);
    MulIsZeroIff(c, 0);
    PlusLaws(Eval(p[..n], a), 0, 0);
    EvalTail(head, p[..n], p[n..], a);
    forall i: nat | i < n
      ensures Mul(c, e[i]) == Mul(e[i], c)
    {
      MulComm(c, e[i]);
    }
    assert Subtract(p, e) == head + p[n..];
    assert p == p[..n] + p[n..];
  }

  lemma {:induction false} RemainderKeepsRoots(p: Poly, e: Poly, a: bv8)
    requires e != [] && e[0] != 0 && Eval(e, a) == 0
    requires |p| < |e| || p[0] != 0
    ensures |Remainder(p, e)| < |e|
    ensures Eval(Remainder(p, e), a) == Eval(p, a)
    decreases |p|
  {
    hide Plus, Mul, Ratio, Eval;
    if |p| >= |e| {
      var s := Subtract(p, e);
      SubtractKeepsRoots(p, e, a);
      EvalLeadingZeros(|s| - |Strip(s)|, Strip(s), a);
      RemainderKeepsRoots(Strip(s), e, a);
    }
  }

  /** The error correction bytes of a data block: the remainder, padded on the left. */
  ghost function EcBytes(data: Poly, ec: nat): (r: Poly)
    ensures |r| == ec
  {
    GeneratorMonic(ec);
    var m := Remainder(Strip(data) + Zeros(ec), Generator(ec));
    RemainderIsShort(Strip(data) + Zeros(ec), Generator(ec));
    Zeros(ec - |m|) + m
  }

  lemma {:induction false} RemainderIsShort(p: Poly, e: Poly)
    requires e != [] && e[0] != 0
    requires |p| < |e| || p[0] != 0
    ensures |Remainder(p, e)| < |e|
    decreases |p|
  {
    hide Subtract;
    if |p| >= |e| {
      RemainderIsShort(Strip(Subtract(p, e)), e);
    }
  }

  /** A block followed by its error correction bytes vanishes at every root of the generator. */
  lemma BlockVanishes(data: Poly, ec: nat, i: nat)
    requires i < ec
    ensures Eval(data + EcBytes(data, ec), Exp(i)) == 0
  {
    hide Plus, Mul, Exp, Generator, Remainder, Eval, Strip, EcBytes;
    var a, g := Exp(i), Generator(ec);
    var shifted := Strip(data) + Zeros(ec);
    EcBytesIsRemainder(data, ec);
    var m, r := Remainder(shifted, g), EcBytes(data, ec);
    GeneratorRoots(ec, i);
    RemainderKeepsRoots(shifted, g, a);
    EvalLeadingZeros(ec - |m|, m, a);
    EvalLeadingZeros(|data| - |Strip(data)|, shifted, a);
    assert data + Zeros(ec) == Zeros(|data| - |Strip(data)|) + shifted;
    EvalSplit(data, r, a);
    PlusLaws(Eval(r, a), Eval(r, a), 0);
  }

  lemma EcBytesIsRemainder(data: Poly, ec: nat)
    ensures Generator(ec)[0] == 1
    ensures var m := Remainder(Strip(data) + Zeros(ec), Generator(ec));
            |m| <= ec && EcBytes(data, ec) == Zeros(ec - |m|) + m
  {
    hide Generator, Strip, Subtract;
    GeneratorMonic(ec);
    RemainderIsShort(Strip(data) + Zeros(ec), Generator(ec));
  }

  lemma EvalSplit(data: Poly, r: Poly, a: bv8)
    ensures Eval(data + r, a) == Plus(Eval(data + Zeros(|r|), a), Eval(r, a))
  {
    hide Plus, Mul, Eval;
    var high, low := data + Zeros(|r|), Zeros(|data|) + r;
    forall k: nat | k < |data| + |r|
      ensures (data + r)[k] == Plus(high[k], low[k])
    {
      PlusLaws(high[k], 0, 0);
      PlusLaws(0, low[k], 0);
      PlusLaws(low[k], 0, 0);
    }
    assert data + r == Sum(high, low);
    EvalSum(high, low, a);
    EvalLeadingZeros(|data|, r, a);
  }

  // Uniqueness: a polynomial with n coefficients has fewer than n roots.

  /** The quotient of p by x + a: the intermediate values of Horner's rule. */
  ghost function Quotient(p: Poly, a: bv8): Poly
    requires p != []
  {
    seq(|p| - 1, k requires 0 <= k < |p| - 1 => Eval(p[..k + 1], a))
  }

  lemma {:induction false} FactorTheorem(p: Poly, a: bv8, b: bv8)
    requires p != []
    ensures Eval(p, b) == Plus(Mul(Plus(b, a), Eval(Quotient(p, a), b)), Eval(p, a))
  {
    hide Plus, Mul;
    var n := |p| - 1;
    var h, c := p[..n], p[n];
    if n == 0 {
      assert Quotient(p, a) == [];
      MulIsZeroIff(Plus(b, a), 0);
      MulIsZeroIff(0, a);
      MulIsZeroIff(0, b);
      PlusLaws(0, Eval(p, a), 0);
      PlusLaws(Eval(p, a), 0, 0);
    } else {
      FactorTheorem(h, a, b);
      var q := Quotient(h, a);
      forall k: nat | k < n
        ensures Quotient(p, a)[k] == (q + [Eval(h, a)])[k]
      {
        assert p[..k + 1] == h[..k + 1];
      }
      assert Quotient(p, a) == q + [Eval(h, a)];
      EvalSnoc(q, Eval(h, a), b);
      FactorStep(Eval(q, b), Eval(h, a), a, b, c);
    }
  }

  /** ((b + a) q + h) b + c == (b + a) (q b + h) + (h a + c). */
  lemma FactorStep(q: bv8, h: bv8, a: bv8, b: bv8, c: bv8)
    ensures Plus(Mul(Plus(Mul(Plus(b, a), q), h), b), c) ==
            Plus(Mul(Plus(b, a), Plus(Mul(q, b), h)), Plus(Mul(h, a), c))
  {
    hide Plus, Mul;
    var s := Plus(b, a);
    var u := Mul(Mul(s, q), b);
    MulComm(Plus(Mul(s, q), h), b);
    MulPlus(b, Mul(s, q), h);
    MulComm(b, Mul(s, q));
    MulComm(b, h);
    MulAssoc(s, q, b);
    MulPlus(s, Mul(q, b), h);
    MulComm(s, h);
    MulPlus(h, b, a);
    PlusLaws(u, Plus(Mul(h, b), Mul(h, a)), Plus(Mul(h, a), c));
    PlusLaws(Mul(h, b), Mul(h, a), Plus(Mul(h, a), c));
    PlusLaws(Mul(h, a), Mul(h, a), c);
    PlusLaws(0, c, 0);
    PlusLaws(c, 0, 0);
    PlusLaws(u, Mul(h, b), c);
  }

  /** A second root is a root of the quotient. */
  lemma QuotientVanishes(p: Poly, a: bv8, b: bv8)
    requires p != [] && a != b && Eval(p, a) == 0 && Eval(p, b) == 0
    ensures Eval(Quotient(p, a), b) == 0
  {
    hide Plus, Mul, Eval, Quotient;
    var v := Eval(Quotient(p, a), b);
    FactorTheorem(p, a, b);
    PlusLaws(Mul(Plus(b, a), v), 0, 0);
    PlusLaws(b, a, 0);
    MulIsZeroIff(Plus(b, a), v);
  }

  /** With a zero quotient and no remainder there is nothing left. */
  lemma ZeroQuotient(p: Poly, a: bv8)
    requires p != [] && Quotient(p, a) == Zeros(|p| - 1) && Eval(p, a) == 0
    ensures p == Zeros(|p|)
  {
    hide Quotient, Eval;
    forall k: nat | k < |p|
      ensures p[k] == 0
    {
      PrefixVanishes(p, a, k);
      PrefixVanishes(p, a, k + 1);
      assert p[..k + 1] == p[..k] + [p[k]];
      LastIsZero(p[..k], p[k], a);
    }
  }

  lemma PrefixVanishes(p: Poly, a: bv8, k: nat)
    requires k <= |p| && p != [] && Quotient(p, a) == Zeros(|p| - 1) && Eval(p, a) == 0
    ensures Eval(p[..k], a) == 0
  {
    hide Plus, Mul;
    if k == |p| {
      assert p[..k] == p;
    } else if k > 0 {
      assert Quotient(p, a)[k - 1] == Eval(p[..k], a);
    }
  }

  lemma LastIsZero(p: Poly, c: bv8, a: bv8)
    ensures Eval(p, a) == 0 && Eval(p + [c], a) == 0 ==> c == 0
  {
    hide Plus, Mul;
    EvalSnoc(p, c, a);
    MulIsZeroIff(0, a);
    PlusLaws(0, c, 0);
    PlusLaws(c, 0, 0);
  }

  lemma {:induction false} OnlyZeroVanishes(p: Poly)
    requires |p| <= 255
    requires forall i: nat | i < |p| :: Eval(p, Exp(i)) == 0
    ensures p == Zeros(|p|)
    decreases |p|
  {
    hide Exp, Eval;
    if p != [] {
      var n := |p| - 1;
      var a := Exp(n);
      forall i: nat | i < n
        ensures Eval(Quotient(p, a), Exp(i)) == 0
      {
        if Exp(i) == a {
          ExpInjective(i, n);
        }
        QuotientVanishes(p, a, Exp(i));
      }
      OnlyZeroVanishes(Quotient(p, a));
      ZeroQuotient(p, a);
    }
  }

  /** The error correction bytes are the only ones that make the block vanish at all the roots. */
  lemma {:induction false} EcBytesUnique(data: Poly, r: Poly)
    requires |r| <= 255
    requires forall i: nat | i < |r| :: Eval(data + r, Exp(i)) == 0
    ensures r == EcBytes(data, |r|)
  {
    hide Plus, Mul, Exp, EcBytes, Eval;
    var e := EcBytes(data, |r|);
    var d := Sum(r, e);
    forall i: nat | i < |r|
      ensures Eval(d, Exp(i)) == 0
    {
      var a := Exp(i);
      BlockVanishes(data, |r|, i);
      EvalSplit(data, r, a);
      EvalSplit(data, e, a);
      EvalSum(r, e, a);
      var z := Eval(data + Zeros(|r|), a);
      PlusLaws(z, Eval(r, a), 0);
      PlusLaws(z, Eval(e, a), 0);
      PlusLaws(Eval(r, a), Eval(e, a), 0);
    }
    OnlyZeroVanishes(d);
    forall k: nat | k < |r|
      ensures r[k] == e[k]
    {
      assert d[k] == 0;
      PlusLaws(r[k], e[k], 0);
    }
  }

  // The source's loops.

  lemma {:induction false} StripDrops(num: Poly, offset: nat)
    requires offset <= |num| && forall k: nat | k < offset :: num[k] == 0
    requires offset < |num| ==> num[offset] != 0
    ensures Strip(num) == num[offset..]
  {
    if offset > 0 {
      StripDrops(num[1..], offset - 1);
    }
  }

  /** qrPolynomial: copy without leading zeros, then shift. */
  method QrPolynomial(num: seq<bv8>, shift: nat) returns (p: Poly)
    ensures p == Strip(num) + Zeros(shift)
  {
    hide Strip;
    var offset := 0;
    while offset < |num| && num[offset] == 0
      invariant offset <= |num| && forall k: nat | k < offset :: num[k] == 0
    {
      offset := offset + 1;
    }
    StripDrops(num, offset);
    var n := |num| - offset;
    var a := new bv8[n + shift](_ => 0);
    assert forall k: nat | k < a.Length :: a[k] == 0;
    for i := 0 to n
      invariant forall k: nat | k < i :: a[k] == num[offset + k]
      invariant forall k: nat | i <= k < a.Length :: a[k] == 0
    {
      a[i] := num[i + offset];
    }
    p := a[..];
    assert p == num[offset..] + Zeros(shift);
  }

  predicate AllNonzero(p: Poly) {
    forall i: nat | i < |p| :: p[i] != 0
  }

  lemma NoCoefficient(p: Poly, e: Poly)
    ensures forall k: nat :: Coefficient(p, e, k, 0) == 0
  {}

  lemma CoefficientStep(p: Poly, e: Poly, k: nat, i: nat)
    requires i < |p|
    ensures Coefficient(p, e, k, i + 1) ==
            if 0 <= k - i < |e| then Plus(Coefficient(p, e, k, i), Mul(p[i], e[k - i])) else Coefficient(p, e, k, i)
  {
    hide Plus, Mul;
    PlusLaws(Coefficient(p, e, k, i), 0, 0);
  }

  /** Every coefficient of both factors must have a logarithm. */
  method Multiply(math: QRMath, p: Poly, e: Poly) returns (r: Poly)
    requires math.Valid()
    requires p != [] && e != [] && AllNonzero(p) && AllNonzero(e)
    ensures r == Strip(Product(p, e))
  {
    hide Exp, Plus, Mul, Coefficient, Strip;
    var n := |p| + |e| - 1;
    var num := new bv8[n](_ => 0);
    NoCoefficient(p, e);
    for i := 0 to |p|
      invariant forall k: nat | k < n :: num[k] == Coefficient(p, e, k, i)
    {
      for j := 0 to |e|
        invariant forall k: nat | k < n ::
          num[k] == if i <= k < i + j then Plus(Coefficient(p, e, k, i), Mul(p[i], e[k - i]))
                    else Coefficient(p, e, k, i)
      {
        var x := math.Glog(p[i]);
        var y := math.Glog(e[j]);
        var v := math.Gexp(x + y);
        MulIsExpSum(p[i], e[j]);
        num[i + j] := Plus(num[i + j], v);
      }
      forall k: nat | k < n
        ensures num[k] == Coefficient(p, e, k, i + 1)
      {
        CoefficientStep(p, e, k, i);
      }
    }
    assert num[..] == Product(p, e);
    r := QrPolynomial(num[..], 0);
    assert r == Strip(Product(p, e));
  }

  lemma MulIsExpSum(a: bv8, b: bv8)
    requires a != 0 && b != 0
    ensures Mul(a, b) == Exp((Log(a) + Log(b)) % 255)
  {
    hide Exp;
    ExpMod(Log(a) + Log(b));
  }

  lemma RatioByLogs(p: Poly, e: Poly, a: bv8)
    requires p != [] && e != [] && p[0] != 0 && e[0] != 0 && a != 0
    ensures Exp((Log(a) + (Log(p[0]) - Log(e[0]))) % 255) == Mul(a, Ratio(p, e))
  {
    hide Exp, Mul, Log;
    LogPlus(a, Log(p[0]) - Log(e[0]));
  }

  lemma LogPlus(a: bv8, r: int)
    requires a != 0
    ensures Exp((Log(a) + r) % 255) == Mul(a, Exp(r % 255))
  {
    hide Exp, Mul;
    MulExpExp(Log(a), r % 255);
    ExpMod(Log(a) + r % 255);
  }

  lemma RemainderStep(p: Poly, e: Poly)
    requires e != [] && e[0] != 0
    requires |p| < |e| || p[0] != 0
    ensures Remainder(p, e) == if |p| < |e| then p else Remainder(Strip(Subtract(p, e)), e)
  {
    hide Strip, Subtract;
  }

  lemma SubtractAt(p: Poly, e: Poly, k: nat)
    requires 0 < |e| <= |p| && p[0] != 0 && e[0] != 0 && k < |p|
    ensures Subtract(p, e)[k] == if k < |e| then Plus(p[k], Mul(e[k], Ratio(p, e))) else p[k]
  {
    hide Plus, Mul, Ratio;
  }

  /** The recursive division. Every coefficient of the divisor must have a logarithm. */
  method Mod(math: QRMath, p: Poly, e: Poly) returns (r: Poly)
    requires math.Valid()
    requires e != [] && AllNonzero(e)
    requires |p| < |e| || p[0] != 0
    ensures r == Remainder(p, e)
    decreases |p|
  {
    hide Exp, Plus, Mul, Strip, Ratio, Log, Remainder, Subtract;
    RemainderStep(p, e);
    if |p| < |e| {
      return p;
    }
    var x: int := math.Glog(p[0]);
    var y: int := math.Glog(e[0]);
    var ratio := x - y;
    var num := new bv8[|p|](i requires 0 <= i < |p| => p[i]);
    for i := 0 to |e|
      invariant forall k: nat | k < |p| :: num[k] == if k < i then Subtract(p, e)[k] else p[k]
    {
      var l := math.Glog(e[i]);
      var v := math.Gexp(l + ratio);
      RatioByLogs(p, e, e[i]);
      SubtractAt(p, e, i);
      num[i] := Plus(num[i], v);
    }
    forall k: nat | k < |p|
      ensures num[k] == Subtract(p, e)[k]
    {
      SubtractAt(p, e, k);
    }
    assert num[..] == Subtract(p, e);
    var q := QrPolynomial(num[..], 0);
    assert q == Strip(Subtract(p, e));
    r := Mod(math, q, e);
  }

  /** The generator is built factor by factor; up to degree 255 every factor has logarithms. */
  lemma GeneratorHasLogs(n: nat)
    requires n <= 254
    ensures AllNonzero(Generator(n))
  {
    hide Generator;
    forall k: nat | k <= n
      ensures Generator(n)[k] != 0
    {
      GeneratorNonzero(n, k);
    }
  }

  /** All generators up to a degree have logarithms exactly when that degree is at most 254. */
  lemma {:induction false} LogsExistIff(n: nat)
    ensures (forall m: nat | m <= n :: AllNonzero(Generator(m))) <==> n <= 254
  {
    hide Generator;
    forall m: nat | m <= n && n <= 254
      ensures AllNonzero(Generator(m))
    {
      GeneratorHasLogs(m);
    }
    if n >= 255 {
      GeneratorBoundIsSharp();
      assert !AllNonzero(Generator(255));
    }
  }

  method GetErrorCorrectPolynomial(math: QRMath, ec: nat) returns (a: Poly)
    requires math.Valid() && ec <= 255
    ensures a == Generator(ec)
  {
    hide Exp, Plus, Product;
    a := QrPolynomial([1], 0);
    for i := 0 to ec
      invariant a == Generator(i)
    {
      var c := math.Gexp(i);
      var f := QrPolynomial([1, c], 0);
      ExpNonzero(i);
      assert f == [1, Exp(i)];
      GeneratorHasLogs(i);
      a := Multiply(math, a, f);
      GeneratorMonic(i + 1);
      assert Generator(i + 1) == Product(Generator(i), [1, Exp(i)]);
    }
  }

  /** The error correction bytes of one block (ui/qrcode-generator.js:292-300). No step reaches glog(0). */
  method ErrorCorrection(math: QRMath, data: seq<bv8>, ec: nat) returns (r: seq<bv8>)
    requires math.Valid() && ec <= 254
    ensures r == EcBytes(data, ec)
  {
    hide Exp, Plus, Product, Strip, Generator, Remainder, EcBytes;
    EcBytesIsRemainder(data, ec);
    var rsPoly := GetErrorCorrectPolynomial(math, ec);
    var rawPoly := QrPolynomial(data, |rsPoly| - 1);
    forall k: nat | k <= ec
      ensures rsPoly[k] != 0
    {
      GeneratorNonzero(ec, k);
    }
    var modPoly := Mod(math, rawPoly, rsPoly);
    var a := new bv8[|rsPoly| - 1](_ => 0);
    for i := 0 to a.Length
      invariant forall k: nat | k < i :: a[k] == EcBytes(data, ec)[k]
    {
      var modIndex := i + |modPoly| - a.Length;
      a[i] := if modIndex >= 0 then modPoly[modIndex] else 0;
    }
    r := a[..];
  }
}
