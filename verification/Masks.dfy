/** What the eight masks flip (ISO/IEC 18004:2015, section 7.8.2; ui/qrcode-generator.js:234-247, 940-964), said of the
    picture each of them draws, and of the modules of a symbol. */
module Masks {
  import opened QrTypes
  import opened Matrix

  /** Exactly one of three. */
  predicate OneOf(a: bool, b: bool, c: bool) {
    (a || b || c) && !(a && b) && !(b && c) && !(a && c)
  }

  /** A checkerboard: modules that share a side differ. */
  lemma {:induction false} Mask0(i: nat, j: nat)
    ensures MaskFunction(0, 0, 0)
    ensures MaskFunction(0, i, j) != MaskFunction(0, i + 1, j) && MaskFunction(0, i, j) != MaskFunction(0, i, j + 1)
  {
    NextParity(i + j);
  }

  /** Horizontal stripes. */
  lemma {:induction false} Mask1(i: nat, j: nat)
    ensures MaskFunction(1, 0, 0)
    ensures MaskFunction(1, i, j) == MaskFunction(1, i, j + 1) && MaskFunction(1, i, j) != MaskFunction(1, i + 1, j)
  {
    NextParity(i);
  }

  /** Every third column. */
  lemma {:induction false} Mask2(i: nat, j: nat)
    ensures MaskFunction(2, 0, 0)
    ensures MaskFunction(2, i, j) == MaskFunction(2, i + 1, j)
    ensures OneOf(MaskFunction(2, i, j), MaskFunction(2, i, j + 1), MaskFunction(2, i, j + 2))
  {
    NextThirds(j);
  }

  /** Every third antidiagonal. */
  lemma {:induction false} Mask3(i: nat, j: nat)
    ensures MaskFunction(3, 0, 0)
    ensures MaskFunction(3, i + 1, j) == MaskFunction(3, i, j + 1)
    ensures OneOf(MaskFunction(3, i, j), MaskFunction(3, i, j + 1), MaskFunction(3, i, j + 2))
  {
    NextThirds(i + j);
    assert i + (j + 1) == i + j + 1 && i + (j + 2) == i + j + 2;
  }

  /** A checkerboard of blocks, two rows high and three columns wide. */
  lemma {:induction false} Mask4(a: nat, b: nat, r: nat, c: nat)
    requires r < 2 && c < 3
    ensures MaskFunction(4, 0, 0)
    ensures MaskFunction(4, 2 * a + r, 3 * b + c) == MaskFunction(4, 2 * a, 3 * b)
    ensures MaskFunction(4, 2 * a, 3 * b) != MaskFunction(4, 2 * (a + 1), 3 * b)
    ensures MaskFunction(4, 2 * a, 3 * b) != MaskFunction(4, 2 * a, 3 * (b + 1))
  {
    NextParity(a + b);
    assert (2 * a + r) / 2 == a && (3 * b + c) / 3 == b;
    assert (2 * (a + 1)) / 2 == a + 1 && (3 * (b + 1)) / 3 == b + 1;
    assert a + 1 + b == a + b + 1 == a + (b + 1);
  }

  lemma {:induction false} Mask5(i: nat, j: nat)
    ensures MaskFunction(5, i, j) <==> i * j % 6 == 0
  {
    Residues(i * j);
  }

  lemma {:induction false} Mask6(i: nat, j: nat)
    ensures MaskFunction(6, i, j) <==> i * j % 6 < 3
  {
    Residues(i * j);
  }

  lemma {:induction false} Mask7(i: nat, j: nat)
    ensures MaskFunction(7, i, j) <==> (i * j % 3 == 1 <==> (i + j) % 2 == 1)
  {
    Residues(i * j);
  }

  lemma NextParity(n: nat)
    ensures n % 2 == 0 <==> (n + 1) % 2 != 0
  {}

  lemma NextThirds(n: nat)
    ensures OneOf(n % 3 == 0, (n + 1) % 3 == 0, (n + 2) % 3 == 0)
  {}

  lemma Residues(n: nat)
    ensures n % 2 == n % 6 % 2 && n % 3 == n % 6 % 3
    ensures 0 <= n % 6 < 6
  {}

  /** In a mapped symbol, the j-th data module differs from the j-th data bit exactly where the mask says so. */
  lemma {:induction false} FlippedExactlyThere(g: Grid, n: nat, data: seq<bv8>, pattern: MaskPattern, j: nat)
    requires n >= 9 && n % 2 == 1 && j < |FreeCells(Path(n), g.Keys)|
    ensures var p := FreeCells(Path(n), g.Keys)[j];
            && InGrid(n, p) && p in Mapped(g, n, data, pattern)
            && (Mapped(g, n, data, pattern)[p] != DataBit(data, j) <==> MaskFunction(pattern, p.row, p.col))
  {
    hide DataBit, MaskFunction, Path, FreeCells;
    PathVisitsAll(n);
    PlaceSets(g, Path(n), data, 0, pattern);
    FreeIsOnPath(Path(n), g.Keys, j);
  }

  lemma {:induction false} FreeIsOnPath(path: seq<Cell>, taken: set<Cell>, j: nat)
    requires j < |FreeCells(path, taken)|
    ensures FreeCells(path, taken)[j] in path
    decreases |path|
  {
    if path[0] in taken {
      FreeIsOnPath(path[1..], taken, j);
    } else if j > 0 {
      FreeIsOnPath(path[1..], taken, j - 1);
    }
  }
}
