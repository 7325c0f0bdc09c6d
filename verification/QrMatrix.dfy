/** The module matrix as the encoder builds it, cell by cell (ui/qrcode-generator.js:43-94, 116-265): every loop over
    rows, columns and positions is proved against the grids of Matrix, and the zig-zag of mapData against placement
    along its path. */
module QrMatrix {
  import opened QrTypes
  import opened Wrappers
  import opened Bits
  import opened Matrix

  /** The alignment patterns around these positions lie inside the symbol. */
  predicate Positions(pos: seq<nat>, n: nat) {
    forall i: nat | i < |pos| :: 2 <= pos[i] && pos[i] + 2 < n
  }

  lemma ProbeStart(n: nat, row: nat, col: nat)
    ensures ProbeUpTo(n, row, col, -1, -1) == map[]
  {}

  /** A row of the probe is done after column 7, or at once when it lies outside the symbol. */
  lemma ProbeRow(n: nat, row: nat, col: nat, r: int)
    requires -1 <= r <= 7
    ensures ProbeUpTo(n, row, col, r, 8) == ProbeUpTo(n, row, col, r + 1, -1)
    ensures !(0 <= row + r < n) ==> ProbeUpTo(n, row, col, r, -1) == ProbeUpTo(n, row, col, r + 1, -1)
  {
    hide ProbeDark;
  }

  lemma {:induction false} ProbeCell(g: Grid, n: nat, row: nat, col: nat, r: int, c: int)
    requires -1 <= r <= 7 && -1 <= c <= 7
    ensures var p := Cell(row + r, col + c);
            g + ProbeUpTo(n, row, col, r, c + 1)
            == if InGrid(n, p) then (g + ProbeUpTo(n, row, col, r, c))[p := ProbeDark(r, c)]
                                                    else g + ProbeUpTo(n, row, col, r, c)
  {
    hide ProbeDark;
    var p := Cell(row + r, col + c);
    var before, after := ProbeUpTo(n, row, col, r, c), ProbeUpTo(n, row, col, r, c + 1);
    if InGrid(n, p) {
      assert after == before[p := ProbeDark(r, c)];
      UpdateSum(g, before, p, ProbeDark(r, c));
    } else {
      assert after == before;
    }
  }

  lemma AdjustStart(n: nat, row: nat, col: nat)
    ensures AdjustUpTo(n, row, col, -2, -2) == map[]
  {}

  lemma AdjustNextRow(n: nat, row: nat, col: nat, r: int)
    requires -2 <= r <= 2
    ensures AdjustUpTo(n, row, col, r, 3) == AdjustUpTo(n, row, col, r + 1, -2)
  {
    hide AdjustDark;
  }

  lemma {:induction false} AdjustCell(g: Grid, n: nat, row: nat, col: nat, r: int, c: int)
    requires -2 <= r <= 2 && -2 <= c <= 2 && InGrid(n, Cell(row + r, col + c))
    ensures g + AdjustUpTo(n, row, col, r, c + 1)
            == (g + AdjustUpTo(n, row, col, r, c))[Cell(row + r, col + c) := AdjustDark(r, c)]
  {
    hide AdjustDark;
    var p := Cell(row + r, col + c);
    var before := AdjustUpTo(n, row, col, r, c);
    assert AdjustUpTo(n, row, col, r, c + 1) == before[p := AdjustDark(r, c)];
    UpdateSum(g, before, p, AdjustDark(r, c));
  }

  lemma UpdateSum<K, V>(g: map<K, V>, m: map<K, V>, p: K, v: V)
    ensures g + m[p := v] == (g + m)[p := v]
  {}

  /** The grid after one module, and whether the module took a bit. */
  function Stepped(g: Grid, p: Cell, data: seq<bv8>, i: nat, pattern: MaskPattern): Grid {
    if p in g then g else g[p := Masked(DataBit(data, i), p, pattern)]
  }

  function Uses(g: Grid, p: Cell): nat {
    if p in g then 0 else 1
  }

  lemma PlaceCons(g: Grid, p: Cell, rest: seq<Cell>, data: seq<bv8>, i: nat, pattern: MaskPattern)
    ensures Place(g, [p] + rest, data, i, pattern)
            == Place(Stepped(g, p, data, i, pattern), rest, data, i + Uses(g, p), pattern)
  {
    hide DataBit, Masked;
    assert ([p] + rest)[1..] == rest;
  }

  lemma PairIsUsed(g: Grid, p: Cell, q: Cell, data: seq<bv8>, i: nat, pattern: MaskPattern)
    requires p != q
    ensures Uses(g, q) == Uses(Stepped(g, p, data, i, pattern), q)
    ensures |FreeCells([p], g.Keys)| == Uses(g, p) && |FreeCells([p, q], g.Keys)| == Uses(g, p) + Uses(g, q)
  {
    hide DataBit, Masked;
    assert [p, q][1..] == [q] && [p][1..] == [] && [q][1..] == [];
  }

  /** Placing along a path that starts with a pair. */
  lemma PlacePair(g: Grid, p: Cell, q: Cell, rest: seq<Cell>, data: seq<bv8>, i: nat, pattern: MaskPattern)
    requires p != q
    ensures Place(g, [p, q] + rest, data, i, pattern)
         == Place(Place(g, [p, q], data, i, pattern), rest, data, i + |FreeCells([p, q], g.Keys)|, pattern)
    ensures var h := Stepped(g, p, data, i, pattern);
            Place(g, [p, q], data, i, pattern) == Stepped(h, q, data, i + Uses(g, p), pattern)
  {
    hide DataBit, Masked, Place, Stepped, Uses, FreeCells;
    var h, j := Stepped(g, p, data, i, pattern), i + Uses(g, p);
    PairIsUsed(g, p, q, data, i, pattern);
    assert [p, q] + rest == [p] + ([q] + rest) && [p, q] == [p] + [q] && [q] + [] == [q];
    PlaceCons(g, p, [q] + rest, data, i, pattern);
    PlaceCons(h, q, rest, data, j, pattern);
    PlaceCons(g, p, [q], data, i, pattern);
    PlaceCons(h, q, [], data, j, pattern);
    PlaceEnd(Stepped(h, q, data, j, pattern), data, j + Uses(h, q), pattern);
  }

  /** h is g with the modules of a pair placed from bit i on, and j is the next bit: one for every module that was
      unset. */
  predicate PairPlaced(g: Grid, h: Grid, pair: seq<Cell>, data: seq<bv8>, i: nat, j: nat, pattern: MaskPattern) {
    h == Place(g, pair, data, i, pattern) && j == i + |FreeCells(pair, g.Keys)|
  }

  lemma PairGoesOn(g: Grid, h: Grid, p: Cell, q: Cell, rest: seq<Cell>, data: seq<bv8>, i: nat, j: nat,
                   pattern: MaskPattern)
    requires p != q && PairPlaced(g, h, [p, q], data, i, j, pattern)
    ensures Place(g, [p, q] + rest, data, i, pattern) == Place(h, rest, data, j, pattern)
  {
    hide Place, FreeCells;
    PlacePair(g, p, q, rest, data, i, pattern);
  }

  lemma ColumnTimingStart(g: Grid, n: nat)
    ensures ColumnTiming(g, n, 8) == g
  {
    assert ColumnDashes(g, n, 8) == map[];
  }

  lemma ColumnTimingStep(g: Grid, n: nat, r: nat)
    requires 8 <= r < n
    ensures Cell(r, 6) in ColumnTiming(g, n, r) <==> Cell(r, 6) in g
    ensures ColumnTiming(g, n, r + 1)
            == if Cell(r, 6) in g then ColumnTiming(g, n, r) else ColumnTiming(g, n, r)[Cell(r, 6) := r % 2 == 0]
  {
    var p := Cell(r, 6);
    if p in g {
      assert ColumnDashes(g, n, r + 1) == ColumnDashes(g, n, r);
    } else {
      assert ColumnDashes(g, n, r + 1) == ColumnDashes(g, n, r)[p := r % 2 == 0];
      UpdateSum(g, ColumnDashes(g, n, r), p, r % 2 == 0);
    }
  }

  lemma RowTimingStart(g: Grid, n: nat)
    ensures RowTiming(g, n, 8) == g
  {
    assert RowDashes(g, n, 8) == map[];
  }

  lemma RowTimingStep(g: Grid, n: nat, c: nat)
    requires 8 <= c < n
    ensures Cell(6, c) in RowTiming(g, n, c) <==> Cell(6, c) in g
    ensures RowTiming(g, n, c + 1)
            == if Cell(6, c) in g then RowTiming(g, n, c) else RowTiming(g, n, c)[Cell(6, c) := c % 2 == 0]
  {
    var p := Cell(6, c);
    if p in g {
      assert RowDashes(g, n, c + 1) == RowDashes(g, n, c);
    } else {
      assert RowDashes(g, n, c + 1) == RowDashes(g, n, c)[p := c % 2 == 0];
      UpdateSum(g, RowDashes(g, n, c), p, c % 2 == 0);
    }
  }

  lemma PlaceEnd(g: Grid, data: seq<bv8>, i: nat, pattern: MaskPattern)
    ensures Place(g, [], data, i, pattern) == g
  {}

  lemma PairStart(n: nat, k: nat)
    requires 2 * k + 1 < n
    ensures PathFrom(n, k) == PairCells(n, k, 0) + PathFrom(n, k + 1)
  {}

  lemma PairDone(n: nat, k: nat)
    ensures PairCells(n, k, n) + PathFrom(n, k + 1) == PathFrom(n, k + 1)
  {}

  lemma PathEnd(n: nat, k: nat)
    ensures 2 * k + 1 >= n ==> PathFrom(n, k) == []
    ensures Path(n) == PathFrom(n, 0)
  {}

  lemma PairStep(n: nat, k: nat, r: nat)
    requires r < n
    ensures PairCells(n, k, r) + PathFrom(n, k + 1)
         == [Cell(RowAt(n, k, r), Right(n, k)), Cell(RowAt(n, k, r), Right(n, k) - 1)] +
         (PairCells(n, k, r + 1) + PathFrom(n, k + 1))
  {}

  method EmptyModules(moduleCount: nat) returns (modules: array2<Option<bool>>)
    ensures fresh(modules) && modules.Length0 == modules.Length1 == moduleCount
    ensures forall r: nat, c: nat | r < moduleCount && c < moduleCount :: modules[r, c] == None
  {
    modules := new Option<bool>[moduleCount, moduleCount];
    for row := 0 to moduleCount
      invariant forall r: nat, c: nat | r < row && c < moduleCount :: modules[r, c] == None
    {
      for col := 0 to moduleCount
        invariant forall r: nat, c: nat | r < row && c < moduleCount :: modules[r, c] == None
        invariant forall c: nat | c < col :: modules[row, c] == None
      {
        modules[row, col] := None;
      }
    }
  }

  /** The centres of the alignment patterns, by version. */
  const PATTERN_POSITION_TABLE: seq<seq<nat>> := [
    [], [6, 18], [6, 22], [6, 26], [6, 30], [6, 34], [6, 22, 38], [6, 24, 42], [6, 26, 46], [6, 28, 50], [6, 30, 54],
    [6, 32, 58], [6, 34, 62], [6, 26, 46, 66], [6, 26, 48, 70], [6, 26, 50, 74], [6, 30, 54, 78], [6, 30, 56, 82],
    [6, 30, 58, 86], [6, 34, 62, 90], [6, 28, 50, 72, 94], [6, 26, 50, 74, 98], [6, 30, 54, 78, 102],
    [6, 28, 54, 80, 106], [6, 32, 58, 84, 110], [6, 30, 58, 86, 114], [6, 34, 62, 90, 118], [6, 26, 50, 74, 98, 122],
    [6, 30, 54, 78, 102, 126], [6, 26, 52, 78, 104, 130], [6, 30, 56, 82, 108, 134], [6, 34, 60, 86, 112, 138],
    [6, 30, 58, 86, 114, 142], [6, 34, 62, 90, 118, 146], [6, 30, 54, 78, 102, 126, 150],
    [6, 24, 50, 76, 102, 128, 154], [6, 28, 54, 80, 106, 132, 158], [6, 32, 58, 84, 110, 136, 162],
    [6, 26, 54, 82, 110, 138, 166], [6, 30, 58, 86, 114, 142, 170]
  ]

  lemma TablePositions(version: Version)
    ensures |PATTERN_POSITION_TABLE| == 40
    ensures Positions(PATTERN_POSITION_TABLE[version - 1], ModuleCount(version))
  {
    if version <= 13 {
    } else if version <= 26 {
    }
  }

  /** The bit mapData takes next; false past the end of the data. */
  method BitOfData(data: seq<bv8>, byteIndex: nat, bitIndex: nat) returns (dark: bool)
    requires bitIndex <= 7
    ensures dark == DataBit(data, 8 * byteIndex + 7 - bitIndex)
  {
    hide BitOf;
    dark := false;
    if byteIndex < |data| {
      dark := (data[byteIndex] >> bitIndex) & 1 == 1;
      ShiftIsMask(data[byteIndex], 7 - bitIndex);
      BitPosition(byteIndex, bitIndex);
    }
  }

  lemma BitPosition(byteIndex: nat, bitIndex: nat)
    requires bitIndex <= 7
    ensures var i := 8 * byteIndex + 7 - bitIndex; i / 8 == byteIndex && i % 8 == 7 - bitIndex
  {}

  class QrModules {
    var moduleCount: nat
    var modules: array2<Option<bool>>

    predicate Valid()
      reads this
    {
      modules.Length0 == modules.Length1 == moduleCount && moduleCount >= 21 && moduleCount % 2 == 1
    }

    function Abs(): Grid
      requires Valid()
      reads this, modules
    {
      map p | p in AllCells(moduleCount) && modules[p.row, p.col].Some? :: modules[p.row, p.col].value
    }

    constructor (version: nat)
      requires 1 <= version
      ensures Valid() && moduleCount == ModuleCount(version) && Abs() == map[] && fresh(modules)
    {
      moduleCount := version * 4 + 17;
      var empty := EmptyModules(version * 4 + 17);
      modules := empty;
      OddCount(version);
    }

    lemma AbsInside()
      requires Valid()
      ensures Abs().Keys <= AllCells(moduleCount)
    {}

    method IsSet(row: nat, col: nat) returns (isSet: bool)
      requires Valid() && row < moduleCount && col < moduleCount
      ensures isSet <==> Cell(row, col) in Abs()
    {
      isSet := modules[row, col] != None;
    }

    method Set(row: nat, col: nat, dark: bool)
      requires Valid() && row < moduleCount && col < moduleCount
      modifies modules
      ensures Abs() == old(Abs())[Cell(row, col) := dark]
    {
      modules[row, col] := Some(dark);
    }

    method SetupPositionProbePattern(row: nat, col: nat)
      requires Valid()
      modifies modules
      ensures Abs() == old(Abs()) + Probe(moduleCount, row, col)
    {
      hide ProbeUpTo, Abs;
      ghost var g, n := Abs(), moduleCount;
      ProbeStart(n, row, col);
      assert g + map[] == g;
      for r := -1 to 8
        invariant Abs() == g + ProbeUpTo(n, row, col, r, -1)
      {
        ProbeRow(n, row, col, r);
        if row + r <= -1 || moduleCount <= row + r {
          continue;
        }
        for c := -1 to 8
          invariant Abs() == g + ProbeUpTo(n, row, col, r, c)
        {
          ProbeCell(g, n, row, col, r, c);
          if col + c <= -1 || moduleCount <= col + c {
            continue;
          }
          if (0 <= r <= 6 && (c == 0 || c == 6)) || (0 <= c <= 6 && (r == 0 || r == 6)) ||
             (2 <= r <= 4 && 2 <= c <= 4)
          {
            Set(row + r, col + c, true);
          } else {
            Set(row + r, col + c, false);
          }
        }
      }
    }

    method SetupPositionAdjustPattern(pos: seq<nat>)
      requires Valid() && Positions(pos, moduleCount)
      modifies modules
      ensures Abs() == AdjustAll(old(Abs()), moduleCount, pos, |pos|)
    {
      hide Abs, Adjusted;
      ghost var g := Abs();
      for i := 0 to |pos|
        invariant Abs() == AdjustAll(g, moduleCount, pos, i)
      {
        for j := 0 to |pos|
          invariant Abs() == AdjustRow(AdjustAll(g, moduleCount, pos, i), moduleCount, pos, pos[i], j)
        {
          SetupOneAdjustPattern(pos[i], pos[j]);
        }
      }
    }

    /** The body of the loops over the positions. */
    method SetupOneAdjustPattern(row: nat, col: nat)
      requires Valid() && 2 <= row && row + 2 < moduleCount && 2 <= col && col + 2 < moduleCount
      modifies modules
      ensures Abs() == Adjusted(old(Abs()), moduleCount, row, col)
    {
      hide AdjustUpTo, Abs;
      ghost var g, n := Abs(), moduleCount;
      var taken := IsSet(row, col);
      if taken {
        return;
      }
      AdjustStart(n, row, col);
      assert g + map[] == g;
      for r := -2 to 3
        invariant Abs() == g + AdjustUpTo(n, row, col, r, -2)
      {
        AdjustNextRow(n, row, col, r);
        for c := -2 to 3
          invariant Abs() == g + AdjustUpTo(n, row, col, r, c)
        {
          AdjustCell(g, n, row, col, r, c);
          if r == -2 || r == 2 || c == -2 || c == 2 || (r == 0 && c == 0) {
            Set(row + r, col + c, true);
          } else {
            Set(row + r, col + c, false);
          }
        }
      }
    }

    method SetupTimingPattern()
      requires Valid()
      modifies modules
      ensures Abs() == Timed(old(Abs()), moduleCount)
    {
      hide Abs, ColumnTiming, RowTiming;
      ghost var g, n := Abs(), moduleCount;
      ColumnTimingStart(g, n);
      for r := 8 to moduleCount - 8
        invariant Abs() == ColumnTiming(g, n, r)
      {
        ColumnTimingStep(g, n, r);
        var taken := IsSet(r, 6);
        if taken {
          continue;
        }
        Set(r, 6, r % 2 == 0);
      }
      ghost var h := Abs();
      RowTimingStart(h, n);
      for c := 8 to moduleCount - 8
        invariant Abs() == RowTiming(h, n, c)
      {
        RowTimingStep(h, n, c);
        var taken := IsSet(6, c);
        if taken {
          continue;
        }
        Set(6, c, c % 2 == 0);
      }
    }

    method SetupTypeNumber(test: bool, bits: seq<bool>)
      requires Valid() && |bits| == 18
      modifies modules
      ensures Abs() == TypeNumber(old(Abs()), moduleCount, bits, test)
    {
      hide Abs;
      ghost var g, n := Abs(), moduleCount;
      for i := 0 to 18
        invariant Abs() == NumberTop(g, n, bits, test, i)
      {
        Set(i / 3, i % 3 + moduleCount - 8 - 3, !test && bits[i]);
      }
      ghost var h := Abs();
      for i := 0 to 18
        invariant Abs() == NumberSide(h, n, bits, test, i)
      {
        Set(i % 3 + moduleCount - 8 - 3, i / 3, !test && bits[i]);
      }
    }

    method SetupTypeInfo(test: bool, bits: seq<bool>)
      requires Valid() && |bits| == 15
      modifies modules
      ensures Abs() == TypeInfo(old(Abs()), moduleCount, bits, test)
    {
      hide Abs;
      ghost var g, n := Abs(), moduleCount;
      for i := 0 to 15
        invariant Abs() == TypeColumn(g, n, bits, test, i)
      {
        var mod := !test && bits[i];
        if i < 6 {
          Set(i, 8, mod);
        } else if i < 8 {
          Set(i + 1, 8, mod);
        } else {
          Set(moduleCount - 15 + i, 8, mod);
        }
      }
      ghost var h := Abs();
      for i := 0 to 15
        invariant Abs() == TypeLine(h, n, bits, test, i)
      {
        var mod := !test && bits[i];
        if i < 8 {
          Set(8, moduleCount - i - 1, mod);
        } else if i < 9 {
          Set(8, 15 - i - 1 + 1, mod);
        } else {
          Set(8, 15 - i - 1, mod);
        }
      }
      Set(moduleCount - 8, 8, !test);
    }

    /** The body of mapData's innermost loop: a set module stays and the bit waits; an unset one gets the masked bit,
        and the position moves on. */
    method MapModule(row: nat, col: nat, data: seq<bv8>, pattern: MaskPattern, byteIndex: nat, bitIndex: int)
      returns (nextByte: nat, nextBit: int)
      requires Valid() && row < moduleCount && col < moduleCount && 0 <= bitIndex <= 7
      modifies modules
      ensures 0 <= nextBit <= 7
      ensures var p, i := Cell(row, col), 8 * byteIndex + 7 - bitIndex;
              if p in old(Abs()) then Abs() == old(Abs()) && 8 * nextByte + 7 - nextBit == i
              else Abs() == old(Abs())[p := Masked(DataBit(data, i), p, pattern)] && 8 * nextByte + 7 - nextBit == i + 1
    {
      nextByte, nextBit := byteIndex, bitIndex;
      hide DataBit, MaskFunction, Abs;
      var taken := IsSet(row, col);
      if !taken {
        var dark := BitOfData(data, byteIndex, bitIndex);
        var mask := MaskFunction(pattern, row, col);
        if mask {
          dark := !dark;
        }
        Set(row, col, dark);
        nextBit := nextBit - 1;
        if nextBit == -1 {
          nextByte := nextByte + 1;
          nextBit := 7;
        }
      }
    }

    /** The two modules of one row of a column pair, right one first: as many bits are used as modules were unset. */
    method MapRow(row: nat, col: nat, data: seq<bv8>, pattern: MaskPattern, byte: nat, bit: int)
      returns (byteIndex: nat, bitIndex: int)
      requires Valid() && row < moduleCount && 1 <= col < moduleCount && 0 <= bit <= 7
      modifies modules
      ensures 0 <= bitIndex <= 7
      ensures PairPlaced(old(Abs()), Abs(), [Cell(row, col), Cell(row, col - 1)], data, 8 * byte + 7 - bit,
                         8 * byteIndex + 7 - bitIndex, pattern)
    {
      hide Abs, DataBit, Masked, Place, FreeCells;
      byteIndex, bitIndex := byte, bit;
      ghost var p, q, g, i: nat := Cell(row, col), Cell(row, col - 1), Abs(), 8 * byte + 7 - bit;
      PlacePair(g, p, q, [], data, i, pattern);
      PairIsUsed(g, p, q, data, i, pattern);
      for c := 0 to 2
        invariant 0 <= bitIndex <= 7
        invariant 8 * byteIndex + 7 - bitIndex
                  == i + if c == 0 then 0 else if c == 1 then Uses(g, p) else Uses(g, p) + Uses(g, q)
        invariant Abs() == if c == 0 then g else if c == 1 then Stepped(g, p, data, i, pattern)
                           else Place(g, [p, q], data, i, pattern)
      {
        byteIndex, bitIndex := MapModule(row, col - c, data, pattern, byteIndex, bitIndex);
      }
    }

    method MapData(data: seq<bv8>, pattern: MaskPattern)
      requires Valid()
      modifies modules
      ensures Abs() == Mapped(old(Abs()), moduleCount, data, pattern)
    {
      hide Abs, Place, PathFrom, PairCells, PairPlaced;
      ghost var n, goal := moduleCount, Mapped(Abs(), moduleCount, data, pattern);
      ghost var k: nat := 0;
      var inc: int, row: int, bitIndex: int := -1, moduleCount - 1, 7;
      var byteIndex: nat := 0;
      var col: int := moduleCount - 1;
      while col > 0
        invariant 2 * k + 1 <= n && 0 <= bitIndex <= 7
        invariant col == if n - 1 - 2 * k >= 6 then n - 1 - 2 * k else n - 2 - 2 * k
        invariant inc == (if k % 2 == 0 then -1 else 1) && row == RowAt(n, k, 0)
        invariant Place(Abs(), PathFrom(n, k), data, 8 * byteIndex + 7 - bitIndex, pattern) == goal
        decreases n - 2 * k
      {
        if col == 6 {
          col := col - 1;
        }
        ghost var r: nat := 0;
        PairStart(n, k);
        while true
          invariant r < n && row == RowAt(n, k, r) && 0 <= bitIndex <= 7
          invariant Place(Abs(), PairCells(n, k, r) + PathFrom(n, k + 1), data, 8 * byteIndex + 7 - bitIndex, pattern)
                    == goal
          decreases n - r
        {
          ghost var rest := PairCells(n, k, r + 1) + PathFrom(n, k + 1);
          PairStep(n, k, r);
          ghost var g, i: nat := Abs(), 8 * byteIndex + 7 - bitIndex;
          byteIndex, bitIndex := MapRow(row, col, data, pattern, byteIndex, bitIndex);
          PairGoesOn(g, Abs(), Cell(row, col), Cell(row, col - 1), rest, data, i, 8 * byteIndex + 7 - bitIndex,
                     pattern);
          row := row + inc;
          r := r + 1;
          if row < 0 || moduleCount <= row {
            row := row - inc;
            inc := -inc;
            break;
          }
        }
        PairDone(n, k);
        k := k + 1;
        col := col - 2;
      }
      PathEnd(n, k);
      PlaceEnd(Abs(), data, 8 * byteIndex + 7 - bitIndex, pattern);
    }
  }
}
