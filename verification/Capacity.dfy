/** How many modules a version leaves free for data (ISO/IEC 18004:2015, section 7.1). The count goes over the
    function modules that lie on the zig-zag: probes, alignment patterns less what they share with the timing row,
    timing, format and version. It holds for every version with alignment patterns as far apart as the table has
    them, and it leaves enough for every codeword. */
module Capacity {
  import opened Sets
  import opened QrTypes
  import opened Matrix
  import opened QrMatrix

  // Sets of cells and their sizes.

  function Rect(row: int, col: int, height: nat, width: nat): (s: set<Cell>)
    ensures forall p :: p in s <==> row <= p.row < row + height && col <= p.col < col + width
  {
    set r: int, c: int | row <= r < row + height && col <= c < col + width :: Cell(r, c)
  }

  lemma {:induction false} RectSize(row: int, col: int, height: nat, width: nat)
    ensures |Rect(row, col, height, width)| == height * width
    decreases height
  {
    hide Rect;
    if height == 0 {
      NoRect(row, col, width);
    } else {
      RectSize(row, col, height - 1, width);
      RowSize(row + height - 1, col, width);
      RectSplit(row, col, height, width);
      DisjointSize(Rect(row, col, height - 1, width), Rect(row + height - 1, col, 1, width));
      Row(height, width);
    }
  }

  lemma NoRect(row: int, col: int, width: nat)
    ensures Rect(row, col, 0, width) == {}
  {}

  lemma RectSplit(row: int, col: int, height: nat, width: nat)
    requires height > 0
    ensures var above, last := Rect(row, col, height - 1, width), Rect(row + height - 1, col, 1, width);
            Rect(row, col, height, width) == above + last && above !! last
  {}

  lemma Row(height: nat, width: nat)
    requires height > 0
    ensures height * width == (height - 1) * width + width
  {}

  lemma {:induction false} RowSize(row: int, col: int, width: nat)
    ensures |Rect(row, col, 1, width)| == width
  {
    hide Rect;
    if width == 0 {
      NoRow(row, col);
    } else {
      RowSize(row, col, width - 1);
      RowSplit(row, col, width);
      DisjointSize(Rect(row, col, 1, width - 1), {Cell(row, col + width - 1)});
    }
  }

  lemma NoRow(row: int, col: int)
    ensures Rect(row, col, 1, 0) == {}
  {}

  lemma RowSplit(row: int, col: int, width: nat)
    requires width > 0
    ensures Rect(row, col, 1, width) == Rect(row, col, 1, width - 1) + {Cell(row, col + width - 1)}
    ensures Rect(row, col, 1, width - 1) !! {Cell(row, col + width - 1)}
  {}

  lemma DisjointSize(a: set<Cell>, b: set<Cell>)
    requires a !! b
    ensures |a + b| == |a| + |b|
  {}

  lemma UnionSize(a: set<Cell>, b: set<Cell>)
    ensures |a + b| <= |a| + |b|
  {
    assert a + b == a + (b - a) && a !! (b - a);
    SubsetIsSmaller(b - a, b);
  }

  // The length of the zig-zag, and what function modules take of it.

  lemma {:induction false} PairLength(n: nat, k: nat, r: nat)
    requires r <= n
    ensures |PairCells(n, k, r)| == 2 * (n - r)
    decreases n - r
  {
    if r < n {
      PairLength(n, k, r + 1);
    }
  }

  lemma {:induction false} PathLength(n: nat, k: nat)
    requires n % 2 == 1 && 2 * k + 1 <= n
    ensures |PathFrom(n, k)| == n * (n - 1 - 2 * k)
    decreases n - 2 * k
  {
    hide PairCells;
    if 2 * k + 1 < n {
      PairLength(n, k, 0);
      PathLength(n, k + 1);
      assert n * (n - 1 - 2 * k) == n * (n - 3 - 2 * k) + 2 * n;
    } else {
      assert n - 1 - 2 * k == 0;
    }
  }

  function CellsOf(path: seq<Cell>): set<Cell> {
    set p | p in path
  }

  lemma {:induction false} FreeCount(path: seq<Cell>, taken: set<Cell>)
    requires Distinct(path)
    ensures |FreeCells(path, taken)| + |taken * CellsOf(path)| == |path|
    decreases |path|
  {
    if path == [] {
      assert taken * CellsOf(path) == {};
    } else {
      var p, rest := path[0], path[1..];
      assert path == [p] + rest;
      assert Distinct(rest) && p !in rest;
      FreeCount(rest, taken);
      var before := taken * CellsOf(rest);
      assert p !in before;
      if p in taken {
        assert taken * CellsOf(path) == before + {p};
      } else {
        assert taken * CellsOf(path) == before;
      }
    }
  }

  /** The function modules outside column 6. */
  function OnPath(n: nat, taken: set<Cell>): set<Cell> {
    set p | p in taken && InGrid(n, p) && p.col != 6
  }

  lemma FreeAtLeast(n: nat, taken: set<Cell>)
    requires n >= 9 && n % 2 == 1
    ensures |FreeCells(Path(n), taken)| == n * (n - 1) - |OnPath(n, taken)|
  {
    hide FreeCells, Distinct, InGrid;
    PathVisitsAll(n);
    PathLength(n, 0);
    FreeCount(Path(n), taken);
    assert taken * CellsOf(Path(n)) == OnPath(n, taken);
  }

  // Probes.

  function Probes(n: nat): Grid {
    Probe(n, 0, 0) + Probe(n, n - 7, 0) + Probe(n, 0, n - 7)
  }

  lemma ProbeSize(n: nat)
    requires n >= 21
    ensures |OnPath(n, Probes(n).Keys)| <= 176
  {
    hide ProbeDark, Probes, OnPath, Rect;
    var a, b := Rect(0, 0, 8, 6), Rect(0, 7, 8, 1);
    var c, d := Rect(n - 8, 0, 8, 6), Rect(n - 8, 7, 8, 1);
    var e := Rect(0, n - 8, 8, 8);
    ProbeCells(n);
    RectSize(0, 0, 8, 6);
    RectSize(0, 7, 8, 1);
    RectSize(n - 8, 0, 8, 6);
    RectSize(n - 8, 7, 8, 1);
    RectSize(0, n - 8, 8, 8);
    UnionSize(a, b);
    UnionSize(a + b, c);
    UnionSize(a + b + c, d);
    UnionSize(a + b + c + d, e);
    SubsetIsSmaller(OnPath(n, Probes(n).Keys), a + b + c + d + e);
  }

  lemma ProbeCells(n: nat)
    requires n >= 21
    ensures OnPath(n, Probes(n).Keys) <=
            Rect(0, 0, 8, 6) + Rect(0, 7, 8, 1) + Rect(n - 8, 0, 8, 6) + Rect(n - 8, 7, 8, 1) + Rect(0, n - 8, 8, 8)
    ensures Cell(6, 6) in Probes(n) && Cell(n - 7, 6) in Probes(n) && Cell(6, n - 7) in Probes(n)
    ensures forall c: int | 8 <= c < n - 8 :: Cell(6, c) !in Probes(n)
  {
    hide Probe;
    ProbeBox(n, 0, 0);
    ProbeBox(n, n - 7, 0);
    ProbeBox(n, 0, n - 7);
  }

  lemma ProbeBox(n: nat, row: nat, col: nat)
    ensures forall p :: p in Probe(n, row, col) <==>
            InGrid(n, p) && row - 1 <= p.row <= row + 7 && col - 1 <= p.col <= col + 7
  {
    hide ProbeDark;
  }

  // Alignment patterns.

  /** The positions of a version with alignment patterns: from 6 to n - 7, the middle ones clear of the probes and of
      each other. */
  predicate Spread(pos: seq<nat>, n: nat) {
    && 2 <= |pos| && pos[0] == 6 && pos[|pos| - 1] == n - 7
    && (forall i: nat | 1 <= i < |pos| - 1 :: 10 <= pos[i] && pos[i] + 10 < n)
    && (forall i: nat | i + 1 < |pos| :: pos[i] + 5 <= pos[i + 1])
  }

  lemma {:induction false} Apart(pos: seq<nat>, n: nat, i: nat, j: nat)
    requires Spread(pos, n) && i < j < |pos|
    ensures pos[i] + 5 <= pos[j]
    decreases j
  {
    if i < j - 1 {
      Apart(pos, n, i, j - 1);
      assert pos[j - 1] + 5 <= pos[j - 1 + 1];
    } else {
      assert pos[i] + 5 <= pos[i + 1];
    }
  }

  /** The modules an alignment pattern may add outside column 6. */
  function Weight(k: nat, i: nat, j: nat): nat {
    if (i == 0 && (j == 0 || j == k - 1)) || (i == k - 1 && j == 0) then 0 else if j == 0 then 20 else 25
  }

  function RowWeight(k: nat, i: nat, j: nat): nat {
    if j == 0 then 0 else RowWeight(k, i, j - 1) + Weight(k, i, j - 1)
  }

  function AllWeight(k: nat, i: nat): nat {
    if i == 0 then 0 else AllWeight(k, i - 1) + RowWeight(k, i - 1, k)
  }

  /** What one pattern adds outside column 6. */
  function Square(row: int, col: int): set<Cell> {
    if col == 6 then Rect(row - 2, 4, 5, 2) + Rect(row - 2, 7, 5, 2) else Rect(row - 2, col - 2, 5, 5)
  }

  lemma SquareSize(row: int, col: int)
    ensures |Square(row, col)| <= if col == 6 then 20 else 25
  {
    hide Rect;
    RectSize(row - 2, 4, 5, 2);
    RectSize(row - 2, 7, 5, 2);
    UnionSize(Rect(row - 2, 4, 5, 2), Rect(row - 2, 7, 5, 2));
    RectSize(row - 2, col - 2, 5, 5);
  }

  lemma AdjustedCells(g: Grid, n: nat, row: nat, col: nat)
    ensures OnPath(n, Adjusted(g, n, row, col).Keys) <= OnPath(n, g.Keys) + Square(row, col)
  {
    hide AdjustDark;
  }

  lemma AdjustedSize(g: Grid, n: nat, row: nat, col: nat)
    ensures |OnPath(n, Adjusted(g, n, row, col).Keys)|
         <= |OnPath(n, g.Keys)| + (if Cell(row, col) in g then 0 else if col == 6 then 20 else 25)
  {
    if Cell(row, col) in g {
      assert Adjusted(g, n, row, col) == g;
    } else {
      hide Adjusted, OnPath, Square;
      var before, after := OnPath(n, g.Keys), OnPath(n, Adjusted(g, n, row, col).Keys);
      AdjustedCells(g, n, row, col);
      SquareSize(row, col);
      UnionSize(before, Square(row, col));
      SubsetIsSmaller(after, before + Square(row, col));
    }
  }

  ghost predicate HasCorners(n: nat, g: Grid) {
    Cell(6, 6) in g && Cell(n - 7, 6) in g && Cell(6, n - 7) in g
  }

  lemma {:induction false} AdjustRowSize(g: Grid, n: nat, pos: seq<nat>, i: nat, j: nat)
    requires Spread(pos, n) && i < |pos| && j <= |pos| && HasCorners(n, g)
    ensures HasCorners(n, AdjustRow(g, n, pos, pos[i], j))
    ensures |OnPath(n, AdjustRow(g, n, pos, pos[i], j).Keys)| <= |OnPath(n, g.Keys)| + RowWeight(|pos|, i, j)
  {
    hide Adjusted, OnPath, Weight;
    if j > 0 {
      var before := AdjustRow(g, n, pos, pos[i], j - 1);
      AdjustRowSize(g, n, pos, i, j - 1);
      AdjustRowGrows(g, n, pos, pos[i], j);
      AdjustedSize(before, n, pos[i], pos[j - 1]);
      WeightCovers(before, n, pos, i, j - 1);
    }
  }

  lemma WeightCovers(g: Grid, n: nat, pos: seq<nat>, i: nat, j: nat)
    requires Spread(pos, n) && i < |pos| && j < |pos| && HasCorners(n, g)
    ensures (if Cell(pos[i], pos[j]) in g then 0 else if pos[j] == 6 then 20 else 25) <= Weight(|pos|, i, j)
  {
    if j > 0 {
      Apart(pos, n, 0, j);
    }
  }

  lemma {:induction false} AdjustSize(g: Grid, n: nat, pos: seq<nat>, i: nat)
    requires Spread(pos, n) && i <= |pos| && HasCorners(n, g)
    ensures HasCorners(n, AdjustAll(g, n, pos, i))
    ensures |OnPath(n, AdjustAll(g, n, pos, i).Keys)| <= |OnPath(n, g.Keys)| + AllWeight(|pos|, i)
  {
    hide AdjustRow, OnPath, RowWeight, Spread;
    if i > 0 {
      AdjustSize(g, n, pos, i - 1);
      AdjustRowSize(AdjustAll(g, n, pos, i - 1), n, pos, i - 1, |pos|);
    }
  }

  // The patterns of the first row reach into the timing row.

  /** The modules of the timing row that the patterns from the second to the m-th position cover. */
  function Covered(pos: seq<nat>, m: nat): set<Cell>
    requires m < |pos|
  {
    if m == 0 then {} else
      var col: int := pos[m];
      Covered(pos, m - 1) + Rect(6, col - 2, 1, 5)
  }

  lemma {:induction false} CoveredCells(pos: seq<nat>, n: nat, m: nat)
    requires Spread(pos, n) && m + 1 < |pos|
    ensures forall p :: p in Covered(pos, m) ==> p.row == 6 && 8 <= p.col < n - 8 && m > 0 && p.col <= pos[m] + 2
  {
    if m > 0 {
      CoveredCells(pos, n, m - 1);
      Apart(pos, n, m - 1, m);
    }
  }

  lemma CoveredApart(pos: seq<nat>, n: nat, m: nat, c: int)
    requires Spread(pos, n) && 1 <= m && m + 1 < |pos| && c == pos[m]
    ensures Covered(pos, m - 1) !! Rect(6, c - 2, 1, 5)
  {
    hide Covered, Spread;
    CoveredCells(pos, n, m - 1);
    Apart(pos, n, m - 1, m);
  }

  lemma CoveredStep(pos: seq<nat>, m: nat, c: int)
    requires 1 <= m < |pos| && c == pos[m]
    ensures Covered(pos, m) == Covered(pos, m - 1) + Rect(6, c - 2, 1, 5)
  {
    hide Rect;
  }

  lemma {:induction false} CoveredSize(pos: seq<nat>, n: nat, m: nat)
    requires Spread(pos, n) && m + 1 < |pos|
    ensures |Covered(pos, m)| == 5 * m
  {
    hide *;
    if m == 0 {
      NothingCovered(pos);
    } else {
      var c: int := pos[m];
      var before, more := Covered(pos, m - 1), Rect(6, c - 2, 1, 5);
      CoveredSize(pos, n, m - 1);
      CoveredApart(pos, n, m, c);
      CoveredStep(pos, m, c);
      RowSize(6, c - 2, 5);
      DisjointSize(before, more);
    }
  }

  lemma NothingCovered(pos: seq<nat>)
    requires pos != []
    ensures Covered(pos, 0) == {}
  {}

  lemma {:induction false} AdjustRowMisses(g: Grid, n: nat, pos: seq<nat>, row: nat, j: nat, p: Cell)
    requires j <= |pos| && p !in g && forall i: nat | i < j :: p.col + 2 < pos[i] || pos[i] + 2 < p.col
    ensures p !in AdjustRow(g, n, pos, row, j)
  {
    hide AdjustDark;
    if j > 0 {
      AdjustRowMisses(g, n, pos, row, j - 1, p);
    }
  }

  lemma FirstRowCovers(n: nat, pos: seq<nat>, m: nat)
    requires n >= 21 && Spread(pos, n) && 1 <= m && m + 1 < |pos|
    ensures Rect(6, pos[m] - 2, 1, 5) <= AdjustAll(Probes(n), n, pos, |pos|).Keys
  {
    hide Probe, Probes, AdjustRow, Adjusted;
    var g, p := AdjustRow(Probes(n), n, pos, 6, m), Cell(6, pos[m]);
    ProbeCells(n);
    forall i: nat | i < m
      ensures p.col + 2 < pos[i] || pos[i] + 2 < p.col
    {
      Apart(pos, n, i, m);
    }
    AdjustRowMisses(Probes(n), n, pos, 6, m, p);
    PatternCovers(g, n, pos[m]);
    FirstRowGrows(n, pos, m);
  }

  lemma PatternCovers(g: Grid, n: nat, col: nat)
    requires Cell(6, col) !in g && 2 <= col && col + 2 < n && n >= 21
    ensures Rect(6, col - 2, 1, 5) <= Adjusted(g, n, 6, col).Keys
  {
    hide AdjustDark;
  }

  lemma FirstRowGrows(n: nat, pos: seq<nat>, m: nat)
    requires Spread(pos, n) && m < |pos|
    ensures Adjusted(AdjustRow(Probes(n), n, pos, 6, m), n, 6, pos[m]).Keys <= AdjustAll(Probes(n), n, pos, |pos|).Keys
  {
    hide Probes, Adjusted;
    RowGrows(Probes(n), n, pos, 6, m + 1, |pos|);
    AllGrows(Probes(n), n, pos, 1, |pos|);
    assert AdjustAll(Probes(n), n, pos, 0) == Probes(n);
  }

  lemma {:induction false} RowGrows(g: Grid, n: nat, pos: seq<nat>, row: int, i: nat, j: nat)
    requires i <= j <= |pos|
    ensures AdjustRow(g, n, pos, row, i).Keys <= AdjustRow(g, n, pos, row, j).Keys
    decreases j
  {
    hide AdjustUpTo;
    if i < j {
      RowGrows(g, n, pos, row, i, j - 1);
    }
  }

  lemma {:induction false} AllGrows(g: Grid, n: nat, pos: seq<nat>, i: nat, j: nat)
    requires i <= j <= |pos|
    ensures AdjustAll(g, n, pos, i).Keys <= AdjustAll(g, n, pos, j).Keys
    decreases j
  {
    hide AdjustRow;
    if i < j {
      AllGrows(g, n, pos, i, j - 1);
      AdjustRowGrows(AdjustAll(g, n, pos, j - 1), n, pos, pos[j - 1], |pos|);
    }
  }

  lemma {:induction false} CoveredIsSet(n: nat, pos: seq<nat>, m: nat)
    requires n >= 21 && Spread(pos, n) && m + 1 < |pos|
    ensures Covered(pos, m) <= AdjustAll(Probes(n), n, pos, |pos|).Keys
  {
    hide AdjustAll, Probes;
    if m > 0 {
      CoveredIsSet(n, pos, m - 1);
      FirstRowCovers(n, pos, m);
    }
  }

  // Timing, format and version.

  lemma TimedCells(g: Grid, n: nat, covered: set<Cell>)
    requires n >= 21 && covered <= g.Keys
    ensures OnPath(n, Timed(g, n).Keys) <= OnPath(n, g.Keys) + (Rect(6, 8, 1, n - 16) - covered)
  {}

  lemma TimedSize(g: Grid, n: nat, covered: set<Cell>)
    requires n >= 21 && covered <= g.Keys && covered <= Rect(6, 8, 1, n - 16)
    ensures |OnPath(n, Timed(g, n).Keys)| <= |OnPath(n, g.Keys)| + (n - 16) - |covered|
  {
    hide OnPath, Timed, Rect;
    var line := Rect(6, 8, 1, n - 16);
    TimedCells(g, n, covered);
    RectSize(6, 8, 1, n - 16);
    assert |line - covered| == |line| - |covered|;
    UnionSize(OnPath(n, g.Keys), line - covered);
    SubsetIsSmaller(OnPath(n, Timed(g, n).Keys), OnPath(n, g.Keys) + (line - covered));
  }

  lemma {:induction false} TypeColumnCells(g: Grid, n: nat, bits: seq<bool>, test: bool, i: nat)
    requires n >= 21 && i <= |bits| == 15
    ensures TypeColumn(g, n, bits, test, i).Keys <= g.Keys + Rect(0, 8, 6, 1) + Rect(7, 8, 2, 1) + Rect(n - 8, 8, 8, 1)
  {
    if i > 0 {
      TypeColumnCells(g, n, bits, test, i - 1);
    }
  }

  lemma {:induction false} TypeLineCells(g: Grid, n: nat, bits: seq<bool>, test: bool, i: nat)
    requires n >= 21 && i <= |bits| == 15
    ensures TypeLine(g, n, bits, test, i).Keys <= g.Keys + Rect(8, 0, 1, 6) + Rect(8, 7, 1, 1) + Rect(8, n - 8, 1, 8)
  {
    if i > 0 {
      TypeLineCells(g, n, bits, test, i - 1);
    }
  }

  lemma {:induction false} NumberTopCells(g: Grid, n: nat, bits: seq<bool>, test: bool, i: nat)
    requires n >= 21 && i <= |bits| == 18
    ensures NumberTop(g, n, bits, test, i).Keys <= g.Keys + Rect(0, n - 11, 6, 3)
  {
    if i > 0 {
      NumberTopCells(g, n, bits, test, i - 1);
    }
  }

  lemma {:induction false} NumberSideCells(g: Grid, n: nat, bits: seq<bool>, test: bool, i: nat)
    requires n >= 21 && i <= |bits| == 18
    ensures NumberSide(g, n, bits, test, i).Keys <= g.Keys + Rect(n - 11, 0, 3, 6)
  {
    if i > 0 {
      NumberSideCells(g, n, bits, test, i - 1);
    }
  }

  lemma Grow(n: nat, before: set<Cell>, more: set<Cell>, after: set<Cell>)
    requires after <= before + more
    ensures |OnPath(n, after)| <= |OnPath(n, before)| + |more|
  {
    UnionSize(OnPath(n, before), more);
    SubsetIsSmaller(OnPath(n, after), OnPath(n, before) + more);
  }

  function FormatColumn(n: nat): set<Cell> {
    Rect(0, 8, 6, 1) + Rect(7, 8, 2, 1) + Rect(n - 8, 8, 8, 1)
  }

  function FormatLine(n: nat): set<Cell> {
    Rect(8, 0, 1, 6) + Rect(8, 7, 1, 1) + Rect(8, n - 8, 1, 8)
  }

  lemma FormatSize(n: nat)
    ensures |FormatColumn(n)| <= 16 && |FormatLine(n)| <= 15
  {
    hide Rect;
    RectSize(0, 8, 6, 1);
    RectSize(7, 8, 2, 1);
    RectSize(n - 8, 8, 8, 1);
    UnionSize(Rect(0, 8, 6, 1), Rect(7, 8, 2, 1));
    UnionSize(Rect(0, 8, 6, 1) + Rect(7, 8, 2, 1), Rect(n - 8, 8, 8, 1));
    RowSize(8, 0, 6);
    RowSize(8, 7, 1);
    RowSize(8, n - 8, 8);
    UnionSize(Rect(8, 0, 1, 6), Rect(8, 7, 1, 1));
    UnionSize(Rect(8, 0, 1, 6) + Rect(8, 7, 1, 1), Rect(8, n - 8, 1, 8));
  }

  lemma TypeInfoCells(g: Grid, n: nat, bits: seq<bool>, test: bool)
    requires n >= 21 && |bits| == 15
    ensures TypeInfo(g, n, bits, test).Keys <= g.Keys + (FormatColumn(n) + FormatLine(n))
  {
    hide TypeColumn, TypeLine;
    TypeColumnCells(g, n, bits, test, 15);
    TypeLineCells(TypeColumn(g, n, bits, test, 15), n, bits, test, 15);
    assert Cell(n - 8, 8) in Rect(n - 8, 8, 8, 1);
  }

  lemma TypeInfoSize(g: Grid, n: nat, bits: seq<bool>, test: bool)
    requires n >= 21 && |bits| == 15
    ensures |OnPath(n, TypeInfo(g, n, bits, test).Keys)| <= |OnPath(n, g.Keys)| + 31
  {
    hide OnPath, TypeInfo, FormatColumn, FormatLine;
    TypeInfoCells(g, n, bits, test);
    FormatSize(n);
    UnionSize(FormatColumn(n), FormatLine(n));
    Grow(n, g.Keys, FormatColumn(n) + FormatLine(n), TypeInfo(g, n, bits, test).Keys);
  }

  lemma TypeNumberSize(g: Grid, n: nat, bits: seq<bool>, test: bool)
    requires n >= 21 && |bits| == 18
    ensures |OnPath(n, TypeNumber(g, n, bits, test).Keys)| <= |OnPath(n, g.Keys)| + 36
  {
    hide OnPath, NumberTop, NumberSide, Rect;
    var top, side := Rect(0, n - 11, 6, 3), Rect(n - 11, 0, 3, 6);
    NumberTopCells(g, n, bits, test, 18);
    NumberSideCells(NumberTop(g, n, bits, test, 18), n, bits, test, 18);
    RectSize(0, n - 11, 6, 3);
    RectSize(n - 11, 0, 3, 6);
    UnionSize(top, side);
    Grow(n, g.Keys, top + side, TypeNumber(g, n, bits, test).Keys);
  }

  // All together.

  function Middle(k: nat): nat {
    if k >= 2 then k - 2 else 0
  }

  lemma AlignedSize(n: nat, pos: seq<nat>)
    requires n >= 21 && (pos == [] || Spread(pos, n))
    ensures |OnPath(n, Timed(AdjustAll(Probes(n), n, pos, |pos|), n).Keys)|
         <= 176 + AllWeight(|pos|, |pos|) + (n - 16) - 5 * Middle(|pos|)
  {
    hide Timed, AdjustAll, Probes, OnPath, AllWeight, Spread, Rect;
    var g := AdjustAll(Probes(n), n, pos, |pos|);
    ProbeSize(n);
    if pos == [] {
      NoPatterns(n);
      TimedSize(g, n, {});
    } else {
      ProbeCells(n);
      SpreadLength(pos, n);
      var m := |pos| - 2;
      AdjustSize(Probes(n), n, pos, |pos|);
      CoveredIsSet(n, pos, m);
      CoveredSize(pos, n, m);
      CoveredInLine(pos, n, m);
      TimedSize(g, n, Covered(pos, m));
    }
  }

  lemma NoPatterns(n: nat)
    ensures AdjustAll(Probes(n), n, [], 0) == Probes(n) && AllWeight(0, 0) == 0
  {}

  lemma SpreadLength(pos: seq<nat>, n: nat)
    requires Spread(pos, n)
    ensures |pos| >= 2
  {}

  lemma CoveredInLine(pos: seq<nat>, n: nat, m: nat)
    requires n >= 21 && Spread(pos, n) && m + 1 < |pos|
    ensures Covered(pos, m) <= Rect(6, 8, 1, n - 16)
  {
    hide Covered, Spread;
    CoveredCells(pos, n, m);
  }

  /** The function modules outside column 6, at most. */
  function Used(n: nat, k: nat): int {
    176 + AllWeight(k, k) + (n - 16) - 5 * Middle(k) + 31 + if n >= 45 then 36 else 0
  }

  lemma FunctionSize(version: nat, pos: seq<nat>, typeBits: seq<bool>, numberBits: seq<bool>, test: bool)
    requires 1 <= version && |typeBits| == 15 && |numberBits| == 18
    requires pos == [] || Spread(pos, ModuleCount(version))
    ensures |OnPath(ModuleCount(version), FunctionPatterns(version, pos, typeBits, numberBits, test).Keys)|
         <= Used(ModuleCount(version), |pos|)
  {
    hide Timed, AdjustAll, Probe, OnPath, AllWeight, TypeInfo, TypeNumber, Spread;
    var n := ModuleCount(version);
    var timed := Timed(AdjustAll(Probes(n), n, pos, |pos|), n);
    AlignedSize(n, pos);
    TypeInfoSize(timed, n, typeBits, test);
    TypeNumberSize(TypeInfo(timed, n, typeBits, test), n, numberBits, test);
  }

  // In numbers.

  lemma {:induction false} RowWeightIs(k: nat, i: nat, j: nat)
    requires 2 <= k && i < k && 1 <= j <= k
    ensures RowWeight(k, i, j)
            == if 0 < i < k - 1 then 25 * j - 5 else 25 * (j - 1) - if i == 0 && j == k then 25 else 0
  {
    if j > 1 {
      RowWeightIs(k, i, j - 1);
    } else {
      assert RowWeight(k, i, 0) == 0;
    }
  }

  lemma {:induction false} AllWeightIs(k: nat, i: nat)
    requires 2 <= k && 1 <= i < k
    ensures AllWeight(k, i) == 25 * (k - 2) + (i - 1) * (25 * k - 5)
  {
    hide RowWeight;
    RowWeightIs(k, i - 1, k);
    if i > 1 {
      AllWeightIs(k, i - 1);
      assert (i - 1) * (25 * k - 5) == (i - 2) * (25 * k - 5) + (25 * k - 5);
    } else {
      assert AllWeight(k, 0) == 0;
    }
  }

  lemma TotalWeight(k: nat)
    requires 2 <= k
    ensures AllWeight(k, k) == 25 * k * k - 5 * k - 65
  {
    hide RowWeight;
    AllWeightIs(k, k - 1);
    RowWeightIs(k, k - 1, k);
    assert (k - 2) * (25 * k - 5) == 25 * k * k - 55 * k + 10;
  }

  predicate TableRowIsSpread(version: Version)
    requires |PATTERN_POSITION_TABLE| == 40
  {
    var pos := PATTERN_POSITION_TABLE[version - 1];
    if version == 1 then pos == [] else |pos| == version / 7 + 2 && Spread(pos, ModuleCount(version))
  }

  lemma SpreadFrom1(version: Version)
    ensures |PATTERN_POSITION_TABLE| == 40 && (1 <= version <= 8 ==> TableRowIsSpread(version))
  {}

  lemma SpreadFrom9(version: Version)
    ensures |PATTERN_POSITION_TABLE| == 40 && (9 <= version <= 16 ==> TableRowIsSpread(version))
  {}

  lemma SpreadFrom17(version: Version)
    ensures |PATTERN_POSITION_TABLE| == 40 && (17 <= version <= 24 ==> TableRowIsSpread(version))
  {}

  lemma SpreadFrom25(version: Version)
    ensures |PATTERN_POSITION_TABLE| == 40 && (25 <= version <= 32 ==> TableRowIsSpread(version))
  {}

  lemma SpreadFrom33(version: Version)
    ensures |PATTERN_POSITION_TABLE| == 40 && (33 <= version <= 40 ==> TableRowIsSpread(version))
  {}

  lemma TableIsSpread(version: Version)
    ensures |PATTERN_POSITION_TABLE| == 40 && TableRowIsSpread(version)
  {
    hide TableRowIsSpread;
    if version <= 8 {
      SpreadFrom1(version);
    } else if version <= 16 {
      SpreadFrom9(version);
    } else if version <= 24 {
      SpreadFrom17(version);
    } else if version <= 32 {
      SpreadFrom25(version);
    } else {
      SpreadFrom33(version);
    }
  }
}
