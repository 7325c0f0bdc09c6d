/** Arithmetic of GF(256) over x^8 + x^4 + x^3 + x^2 + 1, and the antilog and log
    tables the QR encoder computes with (ui/qrcode-generator.js, QRMath). */
module Gf256 {

  /** Multiplication by the field element x. */
  function Xtime(a: bv8): bv8 {
    (a << 1) ^ ((a >> 7) * 0x1d)
  }

  /** Field addition, which is also field subtraction. */
  function Plus(a: bv8, b: bv8): bv8 {
    a ^ b
  }

  lemma PlusLaws(a: bv8, b: bv8, c: bv8)
    ensures Plus(a, b) == Plus(b, a)
    ensures Plus(Plus(a, b), c) == Plus(a, Plus(b, c))
    ensures Plus(a, 0) == a
    ensures Plus(a, b) == 0 <==> a == b
  {}

  /** Multiplication of b by the n-th power of x. */
  function Shift(n: nat, b: bv8): bv8 {
    if n == 0 then b else Xtime(Shift(n - 1, b))
  }

  /** The n-th power of x. */
  function Exp(n: nat): bv8 {
    Shift(n, 1)
  }

  lemma {:induction false} ShiftShift(i: nat, j: nat, b: bv8)
    ensures Shift(i, Shift(j, b)) == Shift(i + j, b)
  {
    hide Xtime;
    if i > 0 {
      ShiftShift(i - 1, j, b);
    }
  }

  lemma XtimeXor(a: bv8, b: bv8)
    ensures Xtime(a ^ b) == Xtime(a) ^ Xtime(b)
  {}

  lemma XtimeLinear(a: bv8, b: bv8)
    ensures Xtime(Plus(a, b)) == Plus(Xtime(a), Xtime(b))
  {
    hide Xtime;
    XtimeXor(a, b);
  }

  lemma {:induction false} ShiftLinear(n: nat, a: bv8, b: bv8)
    ensures Shift(n, Plus(a, b)) == Plus(Shift(n, a), Shift(n, b))
  {
    hide Xtime, Plus;
    if n > 0 {
      ShiftLinear(n - 1, a, b);
      XtimeLinear(Shift(n - 1, a), Shift(n - 1, b));
    }
  }

  lemma {:induction false} ShiftZero(n: nat)
    ensures Shift(n, 0) == 0
  {
    if n > 0 {
      ShiftZero(n - 1);
    }
  }

  lemma XtimeInjective(a: bv8, b: bv8)
    requires Xtime(a) == Xtime(b)
    ensures a == b
  {}

  lemma {:induction false} ShiftInjective(n: nat, a: bv8, b: bv8)
    requires Shift(n, a) == Shift(n, b)
    ensures a == b
  {
    hide Xtime;
    if n > 0 {
      XtimeInjective(Shift(n - 1, a), Shift(n - 1, b));
      ShiftInjective(n - 1, a, b);
    }
  }

  // Giant steps of sixteen: together with single steps they reach every power.

  function Xtime4(a: bv8): bv8 {
    Xtime(Xtime(Xtime(Xtime(a))))
  }

  function Xtime16(a: bv8): bv8 {
    Xtime4(Xtime4(Xtime4(Xtime4(a))))
  }

  lemma ShiftPlus4(n: nat, b: bv8)
    ensures Shift(n + 4, b) == Xtime4(Shift(n, b))
  {
    hide Xtime;
    assert Shift(n + 3, b) == Xtime(Shift(n + 2, b));
    assert Shift(n + 1, b) == Xtime(Shift(n, b));
  }

  lemma ShiftPlus16(n: nat, b: bv8)
    ensures Shift(n + 16, b) == Xtime16(Shift(n, b))
  {
    hide Xtime, Xtime4;
    ShiftPlus4(n, b);
    ShiftPlus4(n + 4, b);
    ShiftPlus4(n + 8, b);
    ShiftPlus4(n + 12, b);
  }

  /** The powers of x whose exponent is a multiple of sixteen, up to 256. */
  function Giant(q: nat): bv8
    requires q <= 16
  {
    [0x01, 0x4c, 0x9d, 0x46, 0x5f, 0xfd, 0xd9, 0x81, 0x85, 0xa8, 0xe6, 0xe3, 0x82, 0x51, 0x12, 0x2c, 0x02][q]
  }

  lemma GiantStep(q: nat)
    requires q < 16
    ensures Xtime16(Giant(q)) == Giant(q + 1)
  {}

  lemma {:induction false} GiantIsExp(q: nat)
    requires q <= 16
    ensures Exp(16 * q) == Giant(q)
  {
    hide Xtime, Xtime4, Xtime16;
    if q > 0 {
      GiantIsExp(q - 1);
      ShiftPlus16(16 * (q - 1), 1);
      GiantStep(q - 1);
    }
  }

  /** The powers of x repeat with period 255. */
  lemma ExpPeriod()
    ensures Exp(255) == 1
  {
    GiantIsExp(16);
    XtimeInjective(Exp(255), 1);
  }

  predicate IsGiant(v: bv8) {
    v == 0x01 || v == 0x4c || v == 0x9d || v == 0x46 || v == 0x5f || v == 0xfd || v == 0xd9 || v == 0x81 ||
    v == 0x85 || v == 0xa8 || v == 0xe6 || v == 0xe3 || v == 0x82 || v == 0x51 || v == 0x12 || v == 0x2c
  }

  /** The first r elements of the orbit of v under x, for r up to four. */
  lemma SmallShift(v: bv8)
    ensures Shift(0, v) == v && Shift(1, v) == Xtime(v)
    ensures Shift(2, v) == Xtime(Xtime(v)) && Shift(3, v) == Xtime(Xtime(Xtime(v)))
  {
    hide Xtime;
    assert Shift(1, v) == Xtime(Shift(0, v));
    assert Shift(2, v) == Xtime(Shift(1, v));
  }

  /** The quarters of a run of sixteen single steps. */
  lemma Quarters(v: bv8)
    ensures Shift(4, v) == Xtime4(v)
    ensures Shift(8, v) == Xtime4(Xtime4(v))
    ensures Shift(12, v) == Xtime4(Xtime4(Xtime4(v)))
  {
    hide Xtime, Xtime4;
    ShiftPlus4(0, v);
    ShiftPlus4(4, v);
    ShiftPlus4(8, v);
  }

  predicate NearGiant(v: bv8) {
    IsGiant(v) || IsGiant(Xtime(v)) || IsGiant(Xtime(Xtime(v))) || IsGiant(Xtime(Xtime(Xtime(v))))
  }

  lemma GiantsReachAll(n: bv8)
    requires n != 0
    ensures NearGiant(n) || NearGiant(Xtime4(n)) || NearGiant(Xtime4(Xtime4(n))) ||
            NearGiant(Xtime4(Xtime4(Xtime4(n))))
  {}

  lemma NearGiantShift(v: bv8) returns (r: nat)
    requires NearGiant(v)
    ensures r < 4 && IsGiant(Shift(r, v))
  {
    hide Xtime, IsGiant;
    SmallShift(v);
    r := if IsGiant(v) then 0 else if IsGiant(Xtime(v)) then 1 else if IsGiant(Xtime(Xtime(v))) then 2 else 3;
  }

  lemma GiantExponent(v: bv8) returns (q: nat)
    requires IsGiant(v)
    ensures q < 16 && v == Exp(16 * q)
  {
    hide Xtime, Shift;
    q := if v == 0x01 then 0 else if v == 0x4c then 1 else if v == 0x9d then 2 else if v == 0x46 then 3
    else if v == 0x5f then 4 else if v == 0xfd then 5 else if v == 0xd9 then 6 else if v == 0x81 then 7
    else if v == 0x85 then 8 else if v == 0xa8 then 9 else if v == 0xe6 then 10 else if v == 0xe3 then 11
    else if v == 0x82 then 12 else if v == 0x51 then 13 else if v == 0x12 then 14 else 15;
    GiantIsExp(q);
  }

  lemma ExpWraps(n: nat)
    ensures Exp(n + 255) == Exp(n)
  {
    hide Xtime;
    ExpPeriod();
    ShiftShift(n, 255, 1);
  }

  lemma {:induction false} ExpMod(n: nat)
    ensures Exp(n) == Exp(n % 255)
  {
    hide Exp;
    if n >= 255 {
      ExpWraps(n - 255);
      ExpMod(n - 255);
    }
  }

  /** x generates the multiplicative group: every nonzero element is one of its powers. */
  lemma EveryNonzeroIsExp(n: bv8) returns (i: nat)
    requires n != 0
    ensures i < 255 && Exp(i) == n
  {
    hide Xtime, Xtime4, IsGiant, NearGiant;
    GiantsReachAll(n);
    Quarters(n);
    var k: nat := if NearGiant(n) then 0 else if NearGiant(Xtime4(n)) then 4
    else if NearGiant(Xtime4(Xtime4(n))) then 8 else 12;
    assert Shift(0, n) == n;
    var r := NearGiantShift(Shift(k, n));
    ShiftShift(r, k, n);
    var q := GiantExponent(Shift(r + k, n));
    var j := 16 * q + 255 - (r + k);
    ShiftShift(r + k, j, 1);
    ExpWraps(16 * q);
    ShiftInjective(r + k, n, Exp(j));
    ExpMod(j);
    i := j % 255;
  }

  predicate NearOne(v: bv8) {
    v == 1 || Xtime(v) == 1 || Xtime(Xtime(v)) == 1 || Xtime(Xtime(Xtime(v))) == 1
  }

  lemma GiantsAvoidOne(v: bv8)
    requires IsGiant(v)
    ensures NearOne(v) ==> v == 1
    ensures !NearOne(Xtime4(v)) && !NearOne(Xtime4(Xtime4(v)))
    ensures NearOne(Xtime4(Xtime4(Xtime4(v)))) ==> v == 0x2c
    ensures !NearOne(Xtime(1))
  {}

  lemma SmallPowersAreNotOne(r: nat)
    requires 0 < r < 4
    ensures Exp(r) != 1
  {
    GiantsAvoidOne(1);
    SmallShift(1);
  }

  lemma ShiftNearOne(v: bv8, r: nat)
    requires r < 4 && Shift(r, v) == 1
    ensures NearOne(v)
  {
    hide Xtime;
    SmallShift(v);
  }

  lemma GiantIsDistinct(q: nat)
    requires q < 16
    ensures IsGiant(Giant(q))
    ensures Giant(q) == 0x01 ==> q == 0
    ensures Giant(q) == 0x2c ==> q == 15
  {}

  /** The order of x is exactly 255. */
  lemma ExpIsOneOnlyAtPeriod(d: nat)
    requires 0 < d < 255
    ensures Exp(d) != 1
  {
    hide Xtime, Xtime4, NearOne, Giant, IsGiant;
    var q, r := d / 16, d % 16;
    var v := Giant(q);
    GiantIsExp(q);
    ShiftShift(r, 16 * q, 1);
    if Exp(d) == 1 {
      ReachesOneOnce(q, r);
      if r < 4 {
        SmallPowersAreNotOne(r);
      } else {
        ExpPeriod();
        ShiftShift(15 - r, d, 1);
        SmallPowersAreNotOne(15 - r);
      }
    }
  }

  /** Only the first giant step, and the last, come near 1. */
  lemma ReachesOneOnce(q: nat, r: nat)
    requires q < 16 && r < 16 && Shift(r, Giant(q)) == 1
    ensures r < 4 ==> q == 0
    ensures r >= 4 ==> q == 15 && r >= 12
  {
    hide Xtime, Xtime4, NearOne, Giant, IsGiant, Exp;
    var k, v := r / 4, Giant(q);
    ShiftShift(r % 4, 4 * k, v);
    ShiftNearOne(Shift(4 * k, v), r % 4);
    GiantIsDistinct(q);
    GiantsAvoidOne(v);
    Quarters(v);
  }

  lemma ExpNonzero(n: nat)
    ensures Exp(n) != 0
  {
    hide Xtime;
    if Exp(n) == 0 {
      ShiftZero(n);
      ShiftInjective(n, 0, 1);
    }
  }

  /** Distinct exponents below 255 give distinct elements. */
  lemma ExpInjective(i: nat, j: nat)
    requires i < 255 && j < 255 && Exp(i) == Exp(j)
    ensures i == j
  {
    hide Xtime;
    if i < j {
      ShiftShift(i, j - i, 1);
      ShiftInjective(i, 1, Exp(j - i));
      ExpIsOneOnlyAtPeriod(j - i);
    } else if j < i {
      ExpInjective(j, i);
    }
  }

  predicate IsLog(i: nat, n: bv8) {
    i < 255 && Exp(i) == n
  }

  lemma LogExists(n: bv8)
    requires n != 0
    ensures exists i: nat :: IsLog(i, n)
  {
    hide Exp;
    var i := EveryNonzeroIsExp(n);
    assert IsLog(i, n);
  }

  /** The discrete logarithm. */
  ghost function Log(n: bv8): (i: nat)
    requires n != 0
    ensures i < 255 && Exp(i) == n
  {
    LogExists(n);
    var i: nat :| IsLog(i, n);
    i
  }

  /** Field multiplication: add the logarithms. */
  ghost function Mul(a: bv8, b: bv8): bv8 {
    if a == 0 || b == 0 then 0 else Exp(Log(a) + Log(b))
  }

  lemma ExpSum(i: nat, j: nat)
    ensures Exp(i + j) == Shift(i, Exp(j)) == Shift(j, Exp(i))
  {
    hide Xtime;
    ShiftShift(i, j, 1);
    ShiftShift(j, i, 1);
  }

  /** Multiplying by the i-th power of x is i steps of Xtime. */
  lemma {:induction false} MulExp(i: nat, b: bv8)
    ensures Mul(Exp(i), b) == Shift(i, b)
  {
    hide Shift, Exp;
    ExpNonzero(i);
    ShiftZero(i);
    if b != 0 {
      var a := Exp(i);
      ExpSum(Log(b), Log(a));
      ExpSum(Log(b), i);
    }
  }

  lemma MulComm(a: bv8, b: bv8)
    ensures Mul(a, b) == Mul(b, a)
  {
    hide Exp;
  }

  lemma MulAssoc(a: bv8, b: bv8, c: bv8)
    ensures Mul(Mul(a, b), c) == Mul(a, Mul(b, c))
  {
    hide Shift, Exp;
    if a != 0 && b != 0 {
      var i, j := Log(a), Log(b);
      MulExp(i, b);
      MulExp(i + j, c);
      MulExp(j, c);
      MulExp(i, Mul(b, c));
      ShiftShift(i, j, c);
    }
  }

  lemma MulPlus(a: bv8, b: bv8, c: bv8)
    ensures Mul(a, Plus(b, c)) == Plus(Mul(a, b), Mul(a, c))
  {
    hide Shift, Exp, Plus;
    if a == 0 {
      PlusLaws(0, 0, 0);
    } else {
      var i := Log(a);
      MulExp(i, b);
      MulExp(i, c);
      MulExp(i, Plus(b, c));
      ShiftLinear(i, b, c);
    }
  }

  lemma MulOne(a: bv8)
    ensures Mul(1, a) == a && Mul(a, 1) == a
  {
    hide Shift;
    MulExp(0, a);
    MulComm(a, 1);
    SmallShift(a);
    SmallShift(1);
  }

  lemma MulIsZeroIff(a: bv8, b: bv8)
    ensures Mul(a, b) == 0 <==> a == 0 || b == 0
  {
    hide Exp;
    if a != 0 && b != 0 {
      ExpNonzero(Log(a) + Log(b));
    }
  }

  lemma MulExpExp(i: nat, j: nat)
    ensures Mul(Exp(i), Exp(j)) == Exp(i + j)
  {
    hide Shift, Exp;
    MulExp(i, Exp(j));
    ExpSum(i, j);
  }
}
