/** The antilog and log tables of the QR encoder (ui/qrcode-generator.js, QRMath), filled in place
    by the same recurrences and proved to hold the powers of x and their exponents. */
module QrMath {
  import opened Gf256

  /** The recurrence that fills the antilog table from entry 8 on is x^8 = x^4 + x^3 + x^2 + 1. */
  lemma ExpRecurrence(i: nat)
    requires i >= 8
    ensures Exp(i) == Plus(Plus(Plus(Exp(i - 4), Exp(i - 5)), Exp(i - 6)), Exp(i - 8))
  {
    hide Xtime, Plus, Exp;
    var k := i - 8;
    ExpSum(k, 8);
    ExpSum(k, 4);
    ExpSum(k, 3);
    ExpSum(k, 2);
    ExpSum(k, 0);
    FirstPowers();
    ShiftLinear(k, Plus(Plus(Exp(4), Exp(3)), Exp(2)), Exp(0));
    ShiftLinear(k, Plus(Exp(4), Exp(3)), Exp(2));
    ShiftLinear(k, Exp(4), Exp(3));
  }

  lemma FirstPowers()
    ensures forall i: nat | i < 8 :: Exp(i) == (1 as bv8) << i
    ensures Exp(8) == Plus(Plus(Plus(Exp(4), Exp(3)), Exp(2)), Exp(0))
  {
    SmallShift(1);
    SmallShift(Xtime4(1));
    Quarters(1);
    ShiftShift(1, 4, 1);
    ShiftShift(2, 4, 1);
    ShiftShift(3, 4, 1);
  }

  method FillExp(expTable: array<bv8>)
    requires expTable.Length == 256
    modifies expTable
    ensures forall j: nat | j < 256 :: expTable[j] == Exp(j)
  {
    hide Exp, Plus;
    FirstPowers();
    for i := 0 to 8
      invariant forall j: nat | j < i :: expTable[j] == Exp(j)
    {
      expTable[i] := 1 << i;
    }
    for i := 8 to 256
      invariant forall j: nat | j < i :: expTable[j] == Exp(j)
    {
      ExpRecurrence(i);
      expTable[i] := Plus(Plus(Plus(expTable[i - 4], expTable[i - 5]), expTable[i - 6]), expTable[i - 8]);
    }
  }

  /** A byte as an index. */
  function Index(b: bv8): (i: nat)
    ensures i < 256
  {
    b as nat
  }

  lemma IndexInjective(a: bv8, b: bv8)
    requires Index(a) == Index(b)
    ensures a == b
  {}

  method FillLog(expTable: array<bv8>, logTable: array<nat>)
    requires expTable.Length == logTable.Length == 256 && expTable as object != logTable
    requires forall j: nat | j < 256 :: expTable[j] == Exp(j)
    modifies logTable
    ensures forall i: nat | i < 255 :: logTable[Index(Exp(i))] == i
  {
    hide Exp, Index;
    for i := 0 to 255
      invariant forall j: nat | j < i :: logTable[Index(Exp(j))] == j
      invariant forall j: nat | j < 256 :: expTable[j] == Exp(j)
    {
      forall j: nat | j < i
        ensures Index(Exp(j)) != Index(Exp(i))
      {
        if Index(Exp(j)) == Index(Exp(i)) {
          IndexInjective(Exp(j), Exp(i));
          ExpInjective(j, i);
        }
      }
      logTable[Index(expTable[i])] := i;
    }
  }

  class QRMath {
    const expTable: array<bv8>
    const logTable: array<nat>

    ghost predicate Valid()
      reads expTable, logTable
    {
      && expTable.Length == 256 && logTable.Length == 256
      && (forall i: nat | i < 256 :: expTable[i] == Exp(i))
      && (forall i: nat | i < 255 :: logTable[Index(Exp(i))] == i)
    }

    constructor ()
      ensures Valid() && fresh(expTable) && fresh(logTable)
    {
      expTable := new bv8[256];
      logTable := new nat[256];
      new;
      FillExp(expTable);
      FillLog(expTable, logTable);
    }

    /** The source throws when n is 0; no caller in the encoder passes 0. */
    method Glog(n: bv8) returns (i: nat)
      requires Valid() && n != 0
      ensures i == Log(n)
    {
      hide Exp, Index;
      assert Exp(Log(n)) == n;
      i := logTable[Index(n)];
    }

    /** Any integer exponent: exponents count modulo 255. */
    method Gexp(n: int) returns (v: bv8)
      requires Valid()
      ensures v == Exp(n % 255)
    {
      hide Exp;
      var m := n;
      while m < 0
        invariant m % 255 == n % 255
      {
        m := m + 255;
      }
      while m >= 256
        invariant m >= 0 && m % 255 == n % 255
      {
        m := m - 255;
      }
      v := expTable[m];
      ExpMod(m);
    }
  }
}
