/** A block with its error correction bytes is a multiple of the generator polynomial
    (ISO/IEC 18004:2015, section 7.5.2). */
module RsDivision {
  import opened Gf256
  import opened Polynomial
  import opened RsGenerator
  import opened ReedSolomon

  /** p divided by the factors x + x^i for i below n, one after the other. */
  ghost function Divided(p: Poly, n: nat): (q: Poly)
    requires n <= |p|
    ensures |q| == |p| - n
  {
    if n == 0 then p else Quotient(Divided(p, n - 1), Exp(n - 1))
  }

  /** The generator has no roots among the further powers of x. */
  lemma {:induction false} GeneratorOnlyRoots(n: nat, j: nat)
    requires n <= j < 255
    ensures Eval(Generator(n), Exp(j)) != 0
  {
    hide Plus, Mul, Exp;
    var a := Exp(j);
    if n == 0 {
      EvalSnoc([], 1, a);
      assert [] + [1] == [1];
      MulIsZeroIff(0, a);
      PlusLaws(0, 1, 0);
      PlusLaws(1, 0, 0);
    } else {
      var c := Exp(n - 1);
      GeneratorOnlyRoots(n - 1, j);
      EvalProduct(Generator(n - 1), [1, c], a);
      EvalLinear(c, a);
      PlusLaws(a, c, 0);
      if a == c {
        ExpInjective(j, n - 1);
      }
      MulIsZeroIff(Eval(Generator(n - 1), a), Plus(a, c));
    }
  }

  lemma {:induction false} DividedTimesGenerator(p: Poly, n: nat, b: bv8)
    requires n <= |p| && n <= 255
    requires forall i: nat | i < n :: Eval(p, Exp(i)) == 0
    ensures Eval(p, b) == Mul(Eval(Generator(n), b), Eval(Divided(p, n), b))
  {
    hide Plus, Mul, Exp, Eval, Quotient;
    if n == 0 {
      GeneratorZero(b);
      MulOne(Eval(p, b));
    } else {
      var a, g, q := Exp(n - 1), Generator(n - 1), Divided(p, n - 1);
      DividedTimesGenerator(p, n - 1, a);
      GeneratorOnlyRoots(n - 1, n - 1);
      MulIsZeroIff(Eval(g, a), Eval(q, a));
      DividedTimesGenerator(p, n - 1, b);
      FactorTheorem(q, a, b);
      PlusLaws(Mul(Plus(b, a), Eval(Quotient(q, a), b)), 0, 0);
      EvalProduct(g, [1, a], b);
      EvalLinear(a, b);
      MulAssoc(Eval(g, b), Plus(b, a), Eval(Quotient(q, a), b));
    }
  }

  lemma GeneratorZero(b: bv8)
    ensures Eval(Generator(0), b) == 1
  {
    hide Plus, Mul;
    EvalSnoc([], 1, b);
    assert [] + [1] == [1];
    MulIsZeroIff(0, b);
    PlusLaws(0, 1, 0);
    PlusLaws(1, 0, 0);
  }

  /** The generator divides every block with its error correction bytes, of up to 255 bytes. */
  lemma BlockIsMultiple(data: Poly, ec: nat)
    requires data != [] && |data| + ec <= 255
    ensures var block := data + EcBytes(data, ec);
            block == Product(Generator(ec), Divided(block, ec))
  {
    hide Plus, Mul, Exp, Eval, EcBytes, Product, Generator, Divided;
    var block := data + EcBytes(data, ec);
    forall i: nat | i < ec
      ensures Eval(block, Exp(i)) == 0
    {
      BlockVanishes(data, ec, i);
    }
    var product := Product(Generator(ec), Divided(block, ec));
    ProductLength(Generator(ec), Divided(block, ec));
    var d := Sum(block, product);
    forall i: nat | i < |d|
      ensures Eval(d, Exp(i)) == 0
    {
      var b := Exp(i);
      DividedTimesGenerator(block, ec, b);
      EvalProduct(Generator(ec), Divided(block, ec), b);
      EvalSum(block, product, b);
      PlusLaws(Eval(block, b), Eval(product, b), 0);
    }
    OnlyZeroVanishes(d);
    forall k: nat | k < |block|
      ensures block[k] == product[k]
    {
      assert d[k] == 0;
      PlusLaws(block[k], product[k], 0);
    }
  }

  lemma ProductLength(p: Poly, q: Poly)
    requires p != [] && q != []
    ensures |Product(p, q)| == |p| + |q| - 1
  {}
}
