/** The module matrix on values: function patterns, the zig-zag path, masking, and a reader
    (ISO/IEC 18004:2015, sections 7.7 and 7.8; ui/qrcode-generator.js:75-265, 940-964). */
module Matrix {
  import opened QrTypes
  import opened Bits

  datatype Cell = Cell(row: int, col: int)

  /** The modules that have been set, and whether they are dark. */
  type Grid = map<Cell, bool>

  predicate InGrid(n: nat, p: Cell) {
    0 <= p.row < n && 0 <= p.col < n
  }

  function AllCells(n: nat): (s: set<Cell>)
    ensures forall p :: p in s <==> InGrid(n, p)
  {
    set r: int, c: int | 0 <= r < n && 0 <= c < n :: Cell(r, c)
  }

  function ModuleCount(version: nat): nat {
    version * 4 + 17
  }

  lemma {:induction false} OddCount(version: nat)
    ensures ModuleCount(version) % 2 == 1
  {
    OddIsOdd(ModuleCount(version), 2 * version + 8);
  }

  lemma OddIsOdd(n: nat, half: nat)
    requires n == 2 * half + 1
    ensures n % 2 == 1
  {}

  function MaskFunction(pattern: MaskPattern, i: nat, j: nat): bool
  {
    if pattern == 0 then (i + j) % 2 == 0
    else if pattern == 1 then i % 2 == 0
    else if pattern == 2 then j % 3 == 0
    else if pattern == 3 then (i + j) % 3 == 0
    else if pattern == 4 then (i / 2 + j / 3) % 2 == 0
    else if pattern == 5 then (i * j) % 2 + (i * j) % 3 == 0
    else if pattern == 6 then ((i * j) % 2 + (i * j) % 3) % 2 == 0
    else ((i * j) % 3 + (i + j) % 2) % 2 == 0
  }

  // The zig-zag path: column pairs from the right, skipping column 6, upwards and downwards in turn.

  /** The right column of the k-th pair. */
  function Right(n: nat, k: nat): int {
    if n - 1 - 2 * k > 6 then n - 1 - 2 * k else n - 2 - 2 * k
  }

  /** The row visited at step r of the k-th pair. */
  function RowAt(n: nat, k: nat, r: nat): int {
    if k % 2 == 0 then n - 1 - r else r
  }

  function PairCells(n: nat, k: nat, r: nat): seq<Cell>
    decreases n - r
  {
    if r >= n then [] else
      [Cell(RowAt(n, k, r), Right(n, k)), Cell(RowAt(n, k, r), Right(n, k) - 1)] + PairCells(n, k, r + 1)
  }

  function PathFrom(n: nat, k: nat): seq<Cell>
    decreases n - 2 * k
  {
    if 2 * k + 1 >= n then [] else PairCells(n, k, 0) + PathFrom(n, k + 1)
  }

  function Path(n: nat): seq<Cell> {
    PathFrom(n, 0)
  }

  ghost predicate Distinct(s: seq<Cell>) {
    forall i: nat, j: nat | i < j < |s| :: s[i] != s[j]
  }

  /** The cells of the k-th pair from step r on. */
  ghost predicate InPair(n: nat, k: nat, r: nat, p: Cell) {
    0 <= p.row < n && (p.col == Right(n, k) || p.col == Right(n, k) - 1) &&
    if k % 2 == 0 then p.row <= n - 1 - r else p.row >= r
  }

  lemma {:induction false} PairCellsAre(n: nat, k: nat, r: nat)
    requires r <= n
    ensures forall p :: p in PairCells(n, k, r) <==> InPair(n, k, r, p)
    ensures Distinct(PairCells(n, k, r))
    decreases n - r
  {
    hide Right;
    if r < n {
      PairCellsAre(n, k, r + 1);
      var rest := PairCells(n, k, r + 1);
      var a, b := Cell(RowAt(n, k, r), Right(n, k)), Cell(RowAt(n, k, r), Right(n, k) - 1);
      assert a !in rest && b !in rest;
      DistinctCons(b, rest);
      DistinctCons(a, [b] + rest);
      assert PairCells(n, k, r) == [a] + ([b] + rest);
      forall p
        ensures p in PairCells(n, k, r) <==> InPair(n, k, r, p)
      {
        assert p in PairCells(n, k, r) <==> p == a || p == b || p in rest;
      }
    }
  }

  lemma DistinctCons(p: Cell, s: seq<Cell>)
    requires p !in s && Distinct(s)
    ensures Distinct([p] + s)
  {}

  lemma DistinctConcat(s: seq<Cell>, t: seq<Cell>)
    requires Distinct(s) && Distinct(t) && forall p :: !(p in s && p in t)
    ensures Distinct(s + t)
  {
    forall i: nat, j: nat | i < j < |s + t|
      ensures (s + t)[i] != (s + t)[j]
    {
      if i < |s| <= j {
        assert s[i] in s && t[j - |s|] in t;
      }
    }
  }

  /** The cells of the pairs from the k-th on: everything to the left, except column 6. */
  ghost predicate InPath(n: nat, k: nat, p: Cell) {
    0 <= p.row < n && 0 <= p.col && p.col != 6
    && (if n - 1 - 2 * k > 6 then p.col <= n - 1 - 2 * k else p.col <= n - 2 - 2 * k)
  }

  lemma {:induction false} PathFromCells(n: nat, k: nat)
    requires n >= 9 && n % 2 == 1 && 2 * k + 1 <= n
    ensures forall p :: p in PathFrom(n, k) <==> InPath(n, k, p)
    ensures Distinct(PathFrom(n, k))
    decreases n - 2 * k
  {
    if 2 * k + 1 < n {
      PairCellsAre(n, k, 0);
      PathFromCells(n, k + 1);
      var s, t := PairCells(n, k, 0), PathFrom(n, k + 1);
      forall p
        ensures !(p in s && p in t)
        ensures p in s || p in t <==> InPath(n, k, p)
      {
        assert p in s <==> InPair(n, k, 0, p);
        assert p in t <==> InPath(n, k + 1, p);
      }
      DistinctConcat(s, t);
    }
  }

  /** The path visits every cell outside column 6 exactly once. */
  lemma PathVisitsAll(n: nat)
    requires n >= 9 && n % 2 == 1
    ensures Distinct(Path(n))
    ensures forall p :: p in Path(n) <==> InGrid(n, p) && p.col != 6
  {
    PathFromCells(n, 0);
  }

  // Placing data along a path.

  /** Bit i of the data; past its end, false. */
  function DataBit(data: seq<bv8>, i: nat): bool {
    i < 8 * |data| && BitAt(data, i)
  }

  function Masked(bit: bool, p: Cell, pattern: MaskPattern): bool
  {
    if p.row >= 0 && p.col >= 0 && MaskFunction(pattern, p.row, p.col) then !bit else bit
  }

  /** The cells of the path that are not set yet, in order. */
  function FreeCells(path: seq<Cell>, taken: set<Cell>): seq<Cell> {
    if path == [] then []
    else (if path[0] in taken then [] else [path[0]]) + FreeCells(path[1..], taken)
  }

  /** Follow the path and put the data bits, from bit i on, into the cells that are not set. */
  function Place(g: Grid, path: seq<Cell>, data: seq<bv8>, i: nat, pattern: MaskPattern): Grid
    decreases |path|
  {
    if path == [] then g
    else if path[0] in g then Place(g, path[1..], data, i, pattern)
    else Place(g[path[0] := Masked(DataBit(data, i), path[0], pattern)], path[1..], data, i + 1, pattern)
  }

  function Mapped(g: Grid, n: nat, data: seq<bv8>, pattern: MaskPattern): Grid
  {
    Place(g, Path(n), data, 0, pattern)
  }

  /** r is g with the bits from i on placed: it keeps what was set, has exactly the path's cells in addition, and the
      j-th free cell holds bit i + j. */
  ghost predicate Holds(r: Grid, g: Grid, path: seq<Cell>, data: seq<bv8>, i: nat, pattern: MaskPattern)
  {
    var free := FreeCells(path, g.Keys);
    && (forall p | p in g :: p in r && r[p] == g[p])
    && (forall p :: p in r <==> p in g || p in path)
    && (forall j: nat | j < |free| :: free[j] in r && r[free[j]] == Masked(DataBit(data, i + j), free[j], pattern))
  }

  lemma {:induction false} PlaceSets(g: Grid, path: seq<Cell>, data: seq<bv8>, i: nat, pattern: MaskPattern)
    requires Distinct(path)
    ensures Holds(Place(g, path, data, i, pattern), g, path, data, i, pattern)
    decreases |path|
  {
    hide Holds;
    if path == [] {
      NothingPlaced(g, data, i, pattern);
    } else {
      var p, rest := path[0], path[1..];
      assert path == [p] + rest;
      assert Distinct(rest) && p !in rest;
      if p in g {
        PlaceSets(g, rest, data, i, pattern);
        SkipCell(Place(g, path, data, i, pattern), g, path, data, i, pattern);
      } else {
        var g' := g[p := Masked(DataBit(data, i), p, pattern)];
        PlaceSets(g', rest, data, i + 1, pattern);
        FillCell(Place(g, path, data, i, pattern), g, path, data, i, pattern);
      }
    }
  }

  lemma NothingPlaced(g: Grid, data: seq<bv8>, i: nat, pattern: MaskPattern)
    ensures Holds(g, g, [], data, i, pattern)
  {}

  lemma SkipCell(r: Grid, g: Grid, path: seq<Cell>, data: seq<bv8>, i: nat, pattern: MaskPattern)
    requires path != [] && path[0] in g && Holds(r, g, path[1..], data, i, pattern)
    ensures Holds(r, g, path, data, i, pattern)
  {
    hide DataBit, Masked;
    assert path == [path[0]] + path[1..];
    var free := FreeCells(path[1..], g.Keys);
    assert [] + free == free;
  }

  lemma FillCell(r: Grid, g: Grid, path: seq<Cell>, data: seq<bv8>, i: nat, pattern: MaskPattern)
    requires path != [] && path[0] !in g && path[0] !in path[1..]
    requires Holds(r, g[path[0] := Masked(DataBit(data, i), path[0], pattern)], path[1..], data, i + 1, pattern)
    ensures Holds(r, g, path, data, i, pattern)
  {
    hide DataBit, Masked;
    var p, rest := path[0], path[1..];
    var g' := g[p := Masked(DataBit(data, i), p, pattern)];
    assert path == [p] + rest;
    assert g'.Keys == g.Keys + {p};
    FreeIgnores(rest, g.Keys, p);
    var free := FreeCells(rest, g'.Keys);
    forall j: nat | j < |free| + 1
      ensures var q := ([p] + free)[j]; q in r && r[q] == Masked(DataBit(data, i + j), q, pattern)
    {
      if j == 0 {
        assert p in g' && r[p] == g'[p];
      } else {
        assert ([p] + free)[j] == free[j - 1] && i + j == i + 1 + (j - 1);
      }
    }
  }

  lemma {:induction false} FreeIgnores(path: seq<Cell>, taken: set<Cell>, p: Cell)
    requires p !in path
    ensures FreeCells(path, taken + {p}) == FreeCells(path, taken)
    decreases |path|
  {
    if path != [] {
      assert path == [path[0]] + path[1..];
      FreeIgnores(path[1..], taken, p);
    }
  }

  /** A reader that knows the function modules and the mask: the bits along the path. */
  function ReadBits(g: Grid, n: nat, functionCells: set<Cell>, pattern: MaskPattern): seq<bool>
  {
    var free := FreeCells(Path(n), functionCells);
    seq(|free|, j requires 0 <= j < |free| => free[j] in g && Masked(g[free[j]], free[j], pattern))
  }

  /** Mapping keeps the function modules, fills every cell outside column 6, and the reader gets back the data bits
      followed by zeros. */
  lemma MappedReads(g: Grid, n: nat, data: seq<bv8>, pattern: MaskPattern)
    requires n >= 9 && n % 2 == 1
    ensures var r := Mapped(g, n, data, pattern);
            && (forall p | p in g :: p in r && r[p] == g[p])
            && (forall p :: p in r <==> p in g || (InGrid(n, p) && p.col != 6))
            && ReadBits(r, n, g.Keys, pattern)
               == seq(|FreeCells(Path(n), g.Keys)|, j requires j >= 0 => DataBit(data, j))
  {
    hide DataBit, MaskFunction;
    PathVisitsAll(n);
    PlaceSets(g, Path(n), data, 0, pattern);
  }

  // Function patterns.

  predicate ProbeDark(r: int, c: int) {
    || (0 <= r <= 6 && (c == 0 || c == 6))
    || (0 <= c <= 6 && (r == 0 || r == 6))
    || (2 <= r <= 4 && 2 <= c <= 4)
  }

  /** A position probe with its separator, clipped to the symbol, up to row r and column c of the probe. */
  function ProbeUpTo(n: nat, row: int, col: int, r: int, c: int): Grid {
    map p | p in AllCells(n) && -1 <= p.row - row <= 7 && -1 <= p.col - col <= 7
            && (p.row - row < r || (p.row - row == r && p.col - col < c)) :: ProbeDark(p.row - row, p.col - col)
  }

  function Probe(n: nat, row: int, col: int): Grid {
    ProbeUpTo(n, row, col, 8, -1)
  }

  predicate AdjustDark(r: int, c: int) {
    r == -2 || r == 2 || c == -2 || c == 2 || (r == 0 && c == 0)
  }

  function AdjustUpTo(n: nat, row: int, col: int, r: int, c: int): Grid {
    map p | p in AllCells(n) && -2 <= p.row - row <= 2 && -2 <= p.col - col <= 2
            && (p.row - row < r || (p.row - row == r && p.col - col < c)) :: AdjustDark(p.row - row, p.col - col)
  }

  /** One alignment pattern, unless its centre is already set. */
  function Adjusted(g: Grid, n: nat, row: int, col: int): Grid {
    if Cell(row, col) in g then g else g + AdjustUpTo(n, row, col, 3, -2)
  }

  function AdjustRow(g: Grid, n: nat, pos: seq<nat>, row: int, j: nat): Grid
    requires j <= |pos|
  {
    if j == 0 then g else Adjusted(AdjustRow(g, n, pos, row, j - 1), n, row, pos[j - 1])
  }

  /** The alignment patterns at the first i rows of positions. */
  function AdjustAll(g: Grid, n: nat, pos: seq<nat>, i: nat): Grid
    requires i <= |pos|
  {
    if i == 0 then g else AdjustRow(AdjustAll(g, n, pos, i - 1), n, pos, pos[i - 1], |pos|)
  }

  /** The dashed lines between the probes, in column 6 and row 6, where nothing is set yet. */
  function ColumnDashes(g: Grid, n: nat, r: int): Grid {
    map p | p in AllCells(n) && p.col == 6 && 8 <= p.row < r && p !in g :: p.row % 2 == 0
  }

  function RowDashes(g: Grid, n: nat, c: int): Grid {
    map p | p in AllCells(n) && p.row == 6 && 8 <= p.col < c && p !in g :: p.col % 2 == 0
  }

  function ColumnTiming(g: Grid, n: nat, r: int): Grid {
    g + ColumnDashes(g, n, r)
  }

  function RowTiming(g: Grid, n: nat, c: int): Grid {
    g + RowDashes(g, n, c)
  }

  function Timed(g: Grid, n: nat): Grid {
    RowTiming(ColumnTiming(g, n, n - 8), n, n - 8)
  }

  function TypeRow(n: nat, i: nat): int {
    if i < 6 then i else if i < 8 then i + 1 else n - 15 + i
  }

  function TypeCol(n: nat, i: nat): int {
    if i < 8 then n - i - 1 else if i < 9 then 15 - i else 15 - i - 1
  }

  /** The format bits: 15 along column 8, 15 along row 8, and the fixed module. In a test run all are light. */
  function TypeColumn(g: Grid, n: nat, bits: seq<bool>, test: bool, i: nat): Grid
    requires i <= |bits|
  {
    if i == 0 then g else TypeColumn(g, n, bits, test, i - 1)[Cell(TypeRow(n, i - 1), 8) := !test && bits[i - 1]]
  }

  function TypeLine(g: Grid, n: nat, bits: seq<bool>, test: bool, i: nat): Grid
    requires i <= |bits|
  {
    if i == 0 then g else TypeLine(g, n, bits, test, i - 1)[Cell(8, TypeCol(n, i - 1)) := !test && bits[i - 1]]
  }

  function TypeInfo(g: Grid, n: nat, bits: seq<bool>, test: bool): Grid {
    TypeLine(TypeColumn(g, n, bits, test, |bits|), n, bits, test, |bits|)[Cell(n - 8, 8) := !test]
  }

  /** The version bits: 18 above the lower left probe and 18 beside the upper right one. */
  function NumberTop(g: Grid, n: nat, bits: seq<bool>, test: bool, i: nat): Grid
    requires i <= |bits|
  {
    if i == 0 then g else
      NumberTop(g, n, bits, test, i - 1)[Cell((i - 1) / 3, (i - 1) % 3 + n - 8 - 3) := !test && bits[i - 1]]
  }

  function NumberSide(g: Grid, n: nat, bits: seq<bool>, test: bool, i: nat): Grid
    requires i <= |bits|
  {
    if i == 0 then g else
      NumberSide(g, n, bits, test, i - 1)[Cell((i - 1) % 3 + n - 8 - 3, (i - 1) / 3) := !test && bits[i - 1]]
  }

  function TypeNumber(g: Grid, n: nat, bits: seq<bool>, test: bool): Grid {
    NumberSide(NumberTop(g, n, bits, test, |bits|), n, bits, test, |bits|)
  }

  /** All function patterns, in the order makeImpl sets them up. */
  function FunctionPatterns(version: nat, pos: seq<nat>, typeBits: seq<bool>, numberBits: seq<bool>, test: bool): Grid {
    var n := ModuleCount(version);
    var probes := Probe(n, 0, 0) + Probe(n, n - 7, 0) + Probe(n, 0, n - 7);
    var g := TypeInfo(Timed(AdjustAll(probes, n, pos, |pos|), n), n, typeBits, test);
    if version >= 7 then TypeNumber(g, n, numberBits, test) else g
  }

  lemma {:induction false} TypeKeys(g: Grid, h: Grid, n: nat, a: seq<bool>, b: seq<bool>, s: bool, t: bool, i: nat)
    requires g.Keys == h.Keys && i <= |a| == |b|
    ensures TypeColumn(g, n, a, s, i).Keys == TypeColumn(h, n, b, t, i).Keys
    ensures TypeLine(g, n, a, s, i).Keys == TypeLine(h, n, b, t, i).Keys
  {
    hide TypeRow, TypeCol;
    if i > 0 {
      TypeKeys(g, h, n, a, b, s, t, i - 1);
    }
  }

  lemma {:induction false} NumberKeys(g: Grid, h: Grid, n: nat, a: seq<bool>, b: seq<bool>, s: bool, t: bool, i: nat)
    requires g.Keys == h.Keys && i <= |a| == |b|
    ensures NumberTop(g, n, a, s, i).Keys == NumberTop(h, n, b, t, i).Keys
    ensures NumberSide(g, n, a, s, i).Keys == NumberSide(h, n, b, t, i).Keys
  {
    if i > 0 {
      NumberKeys(g, h, n, a, b, s, t, i - 1);
    }
  }

  /** Which modules are function modules depends on the version alone, not on the format bits or the test flag. */
  lemma FunctionCellsAreFixed(version: nat, pos: seq<nat>, a: seq<bool>, b: seq<bool>, c: seq<bool>, d: seq<bool>,
                              s: bool, t: bool)
    requires |a| == |b| && |c| == |d|
    ensures FunctionPatterns(version, pos, a, c, s).Keys == FunctionPatterns(version, pos, b, d, t).Keys
  {
    hide Timed, AdjustAll, Probe, TypeColumn, TypeLine, NumberTop, NumberSide;
    var n := ModuleCount(version);
    var g := Timed(AdjustAll(Probe(n, 0, 0) + Probe(n, n - 7, 0) + Probe(n, 0, n - 7), n, pos, |pos|), n);
    TypeKeys(g, g, n, a, b, s, t, |a|);
    var g1, g2 := TypeColumn(g, n, a, s, |a|), TypeColumn(g, n, b, t, |b|);
    TypeKeys(g1, g2, n, a, b, s, t, |a|);
    var t1, t2 := TypeInfo(g, n, a, s), TypeInfo(g, n, b, t);
    assert t1.Keys == t2.Keys;
    NumberKeys(t1, t2, n, c, d, s, t, |c|);
    var h1, h2 := NumberTop(t1, n, c, s, |c|), NumberTop(t2, n, d, t, |d|);
    NumberKeys(h1, h2, n, c, d, s, t, |c|);
  }

  // Column 6 is full before any data is placed.

  ghost predicate ColumnSix(n: nat, g: Grid, lo: int, hi: int) {
    forall r: int | lo <= r < hi :: Cell(r, 6) in g
  }

  lemma {:induction false} AdjustGrows(g: Grid, n: nat, pos: seq<nat>, i: nat)
    requires i <= |pos|
    ensures g.Keys <= AdjustAll(g, n, pos, i).Keys
  {
    if i > 0 {
      AdjustGrows(g, n, pos, i - 1);
      AdjustRowGrows(AdjustAll(g, n, pos, i - 1), n, pos, pos[i - 1], |pos|);
    }
  }

  lemma {:induction false} AdjustRowGrows(g: Grid, n: nat, pos: seq<nat>, row: int, j: nat)
    requires j <= |pos|
    ensures g.Keys <= AdjustRow(g, n, pos, row, j).Keys
  {
    hide AdjustUpTo;
    if j > 0 {
      AdjustRowGrows(g, n, pos, row, j - 1);
    }
  }

  lemma {:induction false} InfoGrows(g: Grid, n: nat, bits: seq<bool>, test: bool, i: nat)
    requires i <= |bits|
    ensures g.Keys <= TypeColumn(g, n, bits, test, i).Keys && g.Keys <= TypeLine(g, n, bits, test, i).Keys
    ensures g.Keys <= NumberTop(g, n, bits, test, i).Keys && g.Keys <= NumberSide(g, n, bits, test, i).Keys
  {
    if i > 0 {
      InfoGrows(g, n, bits, test, i - 1);
    }
  }

  lemma ProbesFillColumnSix(n: nat)
    requires n >= 21
    ensures ColumnSix(n, Probe(n, 0, 0) + Probe(n, n - 7, 0) + Probe(n, 0, n - 7), 0, 8)
    ensures ColumnSix(n, Probe(n, 0, 0) + Probe(n, n - 7, 0) + Probe(n, 0, n - 7), n - 8, n)
  {}

  lemma TimedFillsColumnSix(g: Grid, n: nat)
    requires n >= 21
    ensures ColumnSix(n, Timed(g, n), 8, n - 8) && g.Keys <= Timed(g, n).Keys
  {}

  /** The function patterns fill column 6 of every symbol. */
  lemma ColumnSixIsFull(version: nat, pos: seq<nat>, typeBits: seq<bool>, numberBits: seq<bool>, test: bool)
    requires 1 <= version
    ensures var n := ModuleCount(version);
            ColumnSix(n, FunctionPatterns(version, pos, typeBits, numberBits, test), 0, n)
  {
    hide Timed, AdjustAll, Probe, TypeColumn, TypeLine, NumberTop, NumberSide;
    var n := ModuleCount(version);
    var probes := Probe(n, 0, 0) + Probe(n, n - 7, 0) + Probe(n, 0, n - 7);
    var adjusted := AdjustAll(probes, n, pos, |pos|);
    var timed := Timed(adjusted, n);
    ProbesFillColumnSix(n);
    AdjustGrows(probes, n, pos, |pos|);
    TimedFillsColumnSix(adjusted, n);
    InfoGrows(timed, n, typeBits, test, |typeBits|);
    InfoGrows(TypeColumn(timed, n, typeBits, test, |typeBits|), n, typeBits, test, |typeBits|);
    var typed := TypeInfo(timed, n, typeBits, test);
    InfoGrows(typed, n, numberBits, test, |numberBits|);
    InfoGrows(NumberTop(typed, n, numberBits, test, |numberBits|), n, numberBits, test, |numberBits|);
  }

  /** With the function patterns of a symbol in place, mapping leaves no module unset. */
  lemma {:induction false} NothingLeftUnset(version: nat, pos: seq<nat>, typeBits: seq<bool>, numberBits: seq<bool>,
                                            test: bool, data: seq<bv8>, pattern: MaskPattern)
    requires 1 <= version
    ensures var n := ModuleCount(version);
            var g := FunctionPatterns(version, pos, typeBits, numberBits, test);
            AllCells(n) <= Mapped(g, n, data, pattern).Keys
  {
    hide FunctionPatterns, Mapped, ReadBits, FreeCells, Path, DataBit;
    var n := ModuleCount(version);
    OddCount(version);
    ColumnSixIsFull(version, pos, typeBits, numberBits, test);
    MappedReads(FunctionPatterns(version, pos, typeBits, numberBits, test), n, data, pattern);
  }

  // Both copies of the format bits survive everything that is set up after them.

  lemma {:induction false} ColumnHolds(g: Grid, n: nat, bits: seq<bool>, test: bool, k: nat, i: nat)
    requires i < k <= |bits| == 15 && n >= 21
    ensures var p, r := Cell(TypeRow(n, i), 8), TypeColumn(g, n, bits, test, k); p in r && r[p] == (!test && bits[i])
  {
    if i < k - 1 {
      ColumnHolds(g, n, bits, test, k - 1, i);
    }
  }

  lemma {:induction false} LineKeeps(g: Grid, n: nat, bits: seq<bool>, test: bool, k: nat, p: Cell)
    requires k <= |bits| == 15 && n >= 21 && p in g && p.col == 8
    ensures var r := TypeLine(g, n, bits, test, k); p in r && r[p] == g[p]
  {
    if k > 0 {
      LineKeeps(g, n, bits, test, k - 1, p);
    }
  }

  lemma {:induction false} LineHolds(g: Grid, n: nat, bits: seq<bool>, test: bool, k: nat, i: nat)
    requires i < k <= |bits| == 15 && n >= 21
    ensures var p, r := Cell(8, TypeCol(n, i)), TypeLine(g, n, bits, test, k); p in r && r[p] == (!test && bits[i])
  {
    if i < k - 1 {
      LineHolds(g, n, bits, test, k - 1, i);
    }
  }

  lemma {:induction false} NumberKeeps(g: Grid, n: nat, bits: seq<bool>, test: bool, k: nat, p: Cell)
    requires k <= |bits| == 18 && n >= 21 && p in g && (p.col == 8 || p.row == 8)
    ensures var r := NumberTop(g, n, bits, test, k); p in r && r[p] == g[p]
    ensures var r := NumberSide(g, n, bits, test, k); p in r && r[p] == g[p]
  {
    if k > 0 {
      NumberKeeps(g, n, bits, test, k - 1, p);
    }
  }

  /** The version bits come last and leave row 8 and column 8 alone. */
  lemma {:induction false} NumberLeaves(typed: Grid, version: nat, numberBits: seq<bool>, p: Cell)
    requires 1 <= version && |numberBits| == 18 && p in typed && (p.col == 8 || p.row == 8)
    ensures var g := if version >= 7 then TypeNumber(typed, ModuleCount(version), numberBits, false) else typed;
            p in g && g[p] == typed[p]
  {
    hide NumberTop, NumberSide;
    var n := ModuleCount(version);
    NumberKeeps(typed, n, numberBits, false, 18, p);
    NumberKeeps(NumberTop(typed, n, numberBits, false, 18), n, numberBits, false, 18, p);
  }

  lemma {:induction false} TypeBitsStay(version: nat, pos: seq<nat>, typeBits: seq<bool>, numberBits: seq<bool>, i: nat)
    requires 1 <= version && |typeBits| == 15 && |numberBits| == 18 && i < 15
    ensures var n, g := ModuleCount(version), FunctionPatterns(version, pos, typeBits, numberBits, false);
            var p, q := Cell(TypeRow(n, i), 8), Cell(8, TypeCol(n, i));
            p in g && q in g && g[p] == g[q] == typeBits[i]
  {
    hide Timed, AdjustAll, Probe, TypeColumn, TypeLine, TypeNumber;
    var n := ModuleCount(version);
    var p, q := Cell(TypeRow(n, i), 8), Cell(8, TypeCol(n, i));
    var timed := Timed(AdjustAll(Probe(n, 0, 0) + Probe(n, n - 7, 0) + Probe(n, 0, n - 7), n, pos, |pos|), n);
    var column := TypeColumn(timed, n, typeBits, false, 15);
    ColumnHolds(timed, n, typeBits, false, 15, i);
    LineKeeps(column, n, typeBits, false, 15, p);
    LineHolds(column, n, typeBits, false, 15, i);
    var typed := TypeInfo(timed, n, typeBits, false);
    assert p in typed && q in typed && typed[p] == typed[q] == typeBits[i];
    NumberLeaves(typed, version, numberBits, p);
    NumberLeaves(typed, version, numberBits, q);
  }

  // So do both copies of the version bits.

  function NumberTopCell(n: nat, i: nat): Cell {
    Cell(i / 3, i % 3 + n - 8 - 3)
  }

  function NumberSideCell(n: nat, i: nat): Cell {
    Cell(i % 3 + n - 8 - 3, i / 3)
  }

  lemma {:induction false} NumberHolds(g: Grid, n: nat, bits: seq<bool>, test: bool, k: nat, i: nat)
    requires i < k <= |bits| == 18
    ensures var p, r := NumberTopCell(n, i), NumberTop(g, n, bits, test, k); p in r && r[p] == (!test && bits[i])
    ensures var p, r := NumberSideCell(n, i), NumberSide(g, n, bits, test, k); p in r && r[p] == (!test && bits[i])
  {
    if i < k - 1 {
      NumberHolds(g, n, bits, test, k - 1, i);
      assert i / 3 != (k - 1) / 3 || i % 3 != (k - 1) % 3;
    }
  }

  lemma {:induction false} SideKeepsTop(g: Grid, n: nat, bits: seq<bool>, test: bool, k: nat, p: Cell)
    requires k <= |bits| == 18 && n >= 21 && p in g && p.row <= 5
    ensures var r := NumberSide(g, n, bits, test, k); p in r && r[p] == g[p]
  {
    if k > 0 {
      SideKeepsTop(g, n, bits, test, k - 1, p);
    }
  }

  lemma {:induction false} NumberBitsStay(version: nat, pos: seq<nat>, typeBits: seq<bool>, numberBits: seq<bool>,
                                          i: nat)
    requires 7 <= version && |typeBits| == 15 && |numberBits| == 18 && i < 18
    ensures var n, g := ModuleCount(version), FunctionPatterns(version, pos, typeBits, numberBits, false);
            var p, q := NumberTopCell(n, i), NumberSideCell(n, i);
            p in g && q in g && g[p] == g[q] == numberBits[i]
  {
    hide Timed, AdjustAll, Probe, TypeInfo, NumberTop, NumberSide;
    var n := ModuleCount(version);
    var timed := Timed(AdjustAll(Probe(n, 0, 0) + Probe(n, n - 7, 0) + Probe(n, 0, n - 7), n, pos, |pos|), n);
    var typed := TypeInfo(timed, n, typeBits, false);
    var top := NumberTop(typed, n, numberBits, false, 18);
    NumberHolds(typed, n, numberBits, false, 18, i);
    NumberHolds(top, n, numberBits, false, 18, i);
    SideKeepsTop(top, n, numberBits, false, 18, NumberTopCell(n, i));
  }
}
