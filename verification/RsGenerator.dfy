/** The Reed-Solomon generator polynomial of the QR encoder (ui/qrcode-generator.js:966-972):
    its roots, and why its coefficients have logarithms. */
module RsGenerator {
  import opened Gf256
  import opened Polynomial

  /** The product of the factors x + x^i for i below n. */
  ghost function Generator(n: nat): (g: Poly)
    ensures |g| == n + 1
  {
    if n == 0 then [1] else Product(Generator(n - 1), [1, Exp(n - 1)])
  }

  /** Multiplying by x + c adds c times the neighbour on the left to every coefficient. */
  lemma TimesLinear(p: Poly, c: bv8, k: nat)
    requires p != [] && k <= |p|
    ensures Product(p, [1, c])[k] ==
            Plus(if k < |p| then p[k] else 0, if k > 0 then Mul(p[k - 1], c) else 0)
  {
    hide Plus, Mul;
    LinearCoefficient(p, c, k, |p|);
  }

  lemma {:induction false} LinearCoefficient(p: Poly, c: bv8, k: nat, n: nat)
    requires n <= |p|
    ensures Coefficient(p, [1, c], k, n) ==
            Plus(if k < n then p[k] else 0, if 0 < k <= n then Mul(p[k - 1], c) else 0)
  {
    hide Plus, Mul;
    PlusLaws(0, 0, 0);
    if n > 0 {
      LinearCoefficient(p, c, k, n - 1);
      MulOne(p[n - 1]);
      var before := Coefficient(p, [1, c], k, n - 1);
      if k == n - 1 {
        var u := if 0 < k then Mul(p[k - 1], c) else 0;
        PlusLaws(0, u, 0);
        PlusLaws(u, 0, 0);
        PlusLaws(u, p[k], 0);
      } else {
        PlusLaws(before, 0, 0);
      }
    }
  }

  /** The generator vanishes at the first n powers of x. */
  lemma {:induction false} GeneratorRoots(n: nat, i: nat)
    requires i < n
    ensures Eval(Generator(n), Exp(i)) == 0
  {
    hide Plus, Mul, Exp;
    var a := Exp(i);
    EvalProduct(Generator(n - 1), [1, Exp(n - 1)], a);
    if i < n - 1 {
      GeneratorRoots(n - 1, i);
      MulIsZeroIff(0, Eval([1, Exp(n - 1)], a));
    } else {
      EvalLinear(a, a);
      MulIsZeroIff(Eval(Generator(n - 1), a), 0);
    }
  }

  lemma EvalLinear(c: bv8, a: bv8)
    ensures Eval([1, c], a) == Plus(a, c)
    ensures Plus(a, a) == 0
  {
    hide Mul, Plus;
    PlusLaws(a, a, 0);
    EvalSnoc([], 1, a);
    EvalSnoc([1], c, a);
    assert [] + [1] == [1] && [1] + [c] == [1, c];
    MulIsZeroIff(0, a);
    PlusLaws(1, 0, 0);
    MulOne(a);
  }

  /** Coefficient k of the generator of degree n, zero outside its range. */
  ghost function C(n: nat, k: int): bv8 {
    if 0 <= k <= n then Generator(n)[k] else 0
  }

  lemma Pascal(n: nat, k: nat)
    ensures C(n + 1, k) == Plus(C(n, k), Shift(n, C(n, k - 1)))
  {
    hide Plus, Mul, Exp, Shift;
    var g := Generator(n);
    PlusLaws(C(n, k), 0, 0);
    PlusLaws(0, 0, 0);
    ShiftZero(n);
    if k <= n + 1 {
      TimesLinear(g, Exp(n), k);
      if k > 0 {
        MulComm(g[k - 1], Exp(n));
        MulExp(n, g[k - 1]);
      }
    }
  }

  lemma Cancel(x: bv8, y: bv8, z: bv8)
    ensures Plus(Plus(x, y), Plus(z, x)) == Plus(y, z)
  {
    hide Plus;
    PlusLaws(x, y, 0);
    PlusLaws(z, x, 0);
    PlusSwap(x, y, x, z);
    PlusLaws(x, x, 0);
    PlusLaws(0, Plus(y, z), 0);
    PlusLaws(Plus(y, z), 0, 0);
  }

  lemma RatioLeft(m: nat, k: nat, c: bv8, b: bv8)
    requires k > 0 && Plus(Shift(k, c), c) == Plus(Shift(m, b), Shift(k - 1, b))
    ensures var c' := Plus(c, Shift(m, b)); Plus(Shift(k, c'), c') == Plus(Shift(k - 1, b), Shift(m + k, b))
  {
    hide Plus, Shift;
    ShiftLinear(k, c, Shift(m, b));
    ShiftShift(k, m, b);
    PlusSwap(Shift(k, c), Shift(m + k, b), c, Shift(m, b));
    Cancel(Shift(m, b), Shift(k - 1, b), Shift(m + k, b));
  }

  lemma RatioRight(m: nat, k: nat, b: bv8, d: bv8)
    requires k > 1 && Plus(Shift(k - 1, b), b) == Plus(Shift(m, d), Shift(k - 2, d))
    ensures var b' := Plus(b, Shift(m, d));
            Plus(Shift(m + 1, b'), Shift(k - 1, b')) == Plus(Shift(k - 1, b), Shift(m + k, b))
  {
    hide Plus, Shift;
    var n := m + 1;
    ShiftLinear(n, b, Shift(m, d));
    ShiftLinear(k - 1, b, Shift(m, d));
    ShiftLinear(n, Shift(k - 1, b), b);
    ShiftLinear(n, Shift(m, d), Shift(k - 2, d));
    ShiftShift(n, m, d);
    ShiftShift(n, k - 2, d);
    ShiftShift(n, k - 1, b);
    ShiftShift(k - 1, m, d);
    PlusSwap(Shift(n, b), Shift(n + m, d), Shift(k - 1, b), Shift(m + k - 1, d));
    Cancel(Shift(n, b), Shift(k - 1, b), Shift(m + k, b));
  }

  /** The ratio of neighbouring coefficients: (x^k + 1) C(n, k) = (x^n + x^(k-1)) C(n, k-1). */
  lemma {:induction false} NeighbourRatio(n: nat, k: nat)
    requires 0 < k <= n + 1
    ensures Plus(Shift(k, C(n, k)), C(n, k)) == Plus(Shift(n, C(n, k - 1)), Shift(k - 1, C(n, k - 1)))
    decreases n, k
  {
    hide Plus, Mul, Exp, Shift, Generator;
    if k == n + 1 {
      ShiftZero(k);
      PlusLaws(0, 0, 0);
      PlusLaws(Shift(n, C(n, n)), Shift(n, C(n, n)), 0);
    } else {
      var m := n - 1;
      var b, d := C(m, k - 1), C(m, k - 2);
      NeighbourRatio(m, k);
      Pascal(m, k);
      Pascal(m, k - 1);
      RatioLeft(m, k, C(m, k), b);
      if k == 1 {
        ShiftZero(m);
        PlusLaws(b, 0, 0);
        PlusLaws(Shift(0, b), Shift(n, b), 0);
      } else {
        NeighbourRatio(m, k - 1);
        RatioRight(m, k, b, d);
      }
    }
  }

  /** A power of x other than a multiple of the period moves every nonzero element. */
  lemma ShiftMoves(d: nat, c: bv8)
    requires 0 < d < 255 && c != 0
    ensures Shift(d, c) != c
  {
    hide Shift;
    ExpIsOneOnlyAtPeriod(d);
    if Shift(d, c) == c {
      var j := Log(c);
      ExpSum(d, j);
      ShiftInjective(j, Exp(d), 1);
    }
  }

  /** For every degree up to 254, no coefficient is zero, so each has a logarithm. */
  lemma {:induction false} GeneratorNonzero(n: nat, k: nat)
    requires k <= n <= 254
    ensures Generator(n)[k] != 0
  {
    hide Plus, Shift;
    if k == 0 {
      GeneratorMonic(n);
    } else {
      GeneratorNonzero(n, k - 1);
      NeighbourRatio(n, k);
      var c := C(n, k - 1);
      if C(n, k) == 0 {
        ShiftZero(k);
        PlusLaws(0, 0, 0);
        PlusLaws(Shift(n, c), Shift(k - 1, c), 0);
        ShiftShift(k - 1, n - k + 1, c);
        ShiftInjective(k - 1, Shift(n - k + 1, c), c);
        ShiftMoves(n - k + 1, c);
      }
    }
  }

  lemma {:induction false} GeneratorMonic(n: nat)
    ensures Generator(n)[0] == 1
  {
    hide Plus;
    if n > 0 {
      GeneratorMonic(n - 1);
      TimesLinear(Generator(n - 1), Exp(n - 1), 0);
      PlusLaws(1, 0, 0);
    }
  }

  /** The bound is sharp: the generator of degree 255 has a zero coefficient, which has no logarithm. */
  lemma {:induction false} GeneratorBoundIsSharp()
    ensures Generator(255)[1] == 0
  {
    hide Plus, Shift, Generator;
    var c := C(255, 1);
    NeighbourRatio(255, 1);
    GeneratorMonic(255);
    ExpPeriod();
    SmallShift(1);
    PlusLaws(1, 1, 0);
    PlusLaws(Shift(1, c), c, 0);
    if c != 0 {
      ShiftMoves(1, c);
    }
  }
}
