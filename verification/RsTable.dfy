/** The block table of all versions and levels and its lookup (ui/qrcode-generator.js:1251-1554). Every row fits its
    symbol: its blocks are sound, and all of its codewords find free modules. This is where the free modules of each
    version are compared with the codewords that its row asks for. */
module RsTable {
  import opened QrTypes
  import opened Interleave

  /** The rows of a version for the levels L, M, Q and H, each of triples (count, total codewords, data codewords). */
  function TableRows(version: Version): seq<seq<nat>>
  {
    match version
    case 1 => [[1, 26, 19], [1, 26, 16], [1, 26, 13], [1, 26, 9]]
    case 2 => [[1, 44, 34], [1, 44, 28], [1, 44, 22], [1, 44, 16]]
    case 3 => [[1, 70, 55], [1, 70, 44], [2, 35, 17], [2, 35, 13]]
    case 4 => [[1, 100, 80], [2, 50, 32], [2, 50, 24], [4, 25, 9]]
    case 5 => [[1, 134, 108], [2, 67, 43], [2, 33, 15, 2, 34, 16], [2, 33, 11, 2, 34, 12]]
    case 6 => [[2, 86, 68], [4, 43, 27], [4, 43, 19], [4, 43, 15]]
    case 7 => [[2, 98, 78], [4, 49, 31], [2, 32, 14, 4, 33, 15], [4, 39, 13, 1, 40, 14]]
    case 8 => [[2, 121, 97], [2, 60, 38, 2, 61, 39], [4, 40, 18, 2, 41, 19], [4, 40, 14, 2, 41, 15]]
    case 9 => [[2, 146, 116], [3, 58, 36, 2, 59, 37], [4, 36, 16, 4, 37, 17], [4, 36, 12, 4, 37, 13]]
    case 10 => [[2, 86, 68, 2, 87, 69], [4, 69, 43, 1, 70, 44], [6, 43, 19, 2, 44, 20], [6, 43, 15, 2, 44, 16]]
    case 11 => [[4, 101, 81], [1, 80, 50, 4, 81, 51], [4, 50, 22, 4, 51, 23], [3, 36, 12, 8, 37, 13]]
    case 12 => [[2, 116, 92, 2, 117, 93], [6, 58, 36, 2, 59, 37], [4, 46, 20, 6, 47, 21], [7, 42, 14, 4, 43, 15]]
    case 13 => [[4, 133, 107], [8, 59, 37, 1, 60, 38], [8, 44, 20, 4, 45, 21], [12, 33, 11, 4, 34, 12]]
    case 14 => [[3, 145, 115, 1, 146, 116], [4, 64, 40, 5, 65, 41], [11, 36, 16, 5, 37, 17], [11, 36, 12, 5, 37, 13]]
    case 15 => [[5, 109, 87, 1, 110, 88], [5, 65, 41, 5, 66, 42], [5, 54, 24, 7, 55, 25], [11, 36, 12, 7, 37, 13]]
    case 16 => [[5, 122, 98, 1, 123, 99], [7, 73, 45, 3, 74, 46], [15, 43, 19, 2, 44, 20], [3, 45, 15, 13, 46, 16]]
    case 17 => [[1, 135, 107, 5, 136, 108], [10, 74, 46, 1, 75, 47], [1, 50, 22, 15, 51, 23], [2, 42, 14, 17, 43, 15]]
    case 18 => [[5, 150, 120, 1, 151, 121], [9, 69, 43, 4, 70, 44], [17, 50, 22, 1, 51, 23], [2, 42, 14, 19, 43, 15]]
    case 19 => [[3, 141, 113, 4, 142, 114], [3, 70, 44, 11, 71, 45], [17, 47, 21, 4, 48, 22], [9, 39, 13, 16, 40, 14]]
    case 20 => [[3, 135, 107, 5, 136, 108], [3, 67, 41, 13, 68, 42], [15, 54, 24, 5, 55, 25], [15, 43, 15, 10, 44, 16]]
    case 21 => [[4, 144, 116, 4, 145, 117], [17, 68, 42], [17, 50, 22, 6, 51, 23], [19, 46, 16, 6, 47, 17]]
    case 22 => [[2, 139, 111, 7, 140, 112], [17, 74, 46], [7, 54, 24, 16, 55, 25], [34, 37, 13]]
    case 23 => [[4, 151, 121, 5, 152, 122], [4, 75, 47, 14, 76, 48], [11, 54, 24, 14, 55, 25], [16, 45, 15, 14, 46, 16]]
    case 24 => [[6, 147, 117, 4, 148, 118], [6, 73, 45, 14, 74, 46], [11, 54, 24, 16, 55, 25], [30, 46, 16, 2, 47, 17]]
    case 25 => [[8, 132, 106, 4, 133, 107], [8, 75, 47, 13, 76, 48], [7, 54, 24, 22, 55, 25], [22, 45, 15, 13, 46, 16]]
    case 26 => [[10, 142, 114, 2, 143, 115], [19, 74, 46, 4, 75, 47], [28, 50, 22, 6, 51, 23], [33, 46, 16, 4, 47, 17]]
    case 27 => [[8, 152, 122, 4, 153, 123], [22, 73, 45, 3, 74, 46], [8, 53, 23, 26, 54, 24], [12, 45, 15, 28, 46, 16]]
    case 28 => [[3, 147, 117, 10, 148, 118], [3, 73, 45, 23, 74, 46], [4, 54, 24, 31, 55, 25], [11, 45, 15, 31, 46, 16]]
    case 29 => [[7, 146, 116, 7, 147, 117], [21, 73, 45, 7, 74, 46], [1, 53, 23, 37, 54, 24], [19, 45, 15, 26, 46, 16]]
    case 30 => [[5, 145, 115, 10, 146, 116], [19, 75, 47, 10, 76, 48], [15, 54, 24, 25, 55, 25],
                [23, 45, 15, 25, 46, 16]]
    case 31 => [[13, 145, 115, 3, 146, 116], [2, 74, 46, 29, 75, 47], [42, 54, 24, 1, 55, 25], [23, 45, 15, 28, 46, 16]]
    case 32 => [[17, 145, 115], [10, 74, 46, 23, 75, 47], [10, 54, 24, 35, 55, 25], [19, 45, 15, 35, 46, 16]]
    case 33 => [[17, 145, 115, 1, 146, 116], [14, 74, 46, 21, 75, 47], [29, 54, 24, 19, 55, 25],
                [11, 45, 15, 46, 46, 16]]
    case 34 => [[13, 145, 115, 6, 146, 116], [14, 74, 46, 23, 75, 47], [44, 54, 24, 7, 55, 25], [59, 46, 16, 1, 47, 17]]
    case 35 => [[12, 151, 121, 7, 152, 122], [12, 75, 47, 26, 76, 48], [39, 54, 24, 14, 55, 25],
                [22, 45, 15, 41, 46, 16]]
    case 36 => [[6, 151, 121, 14, 152, 122], [6, 75, 47, 34, 76, 48], [46, 54, 24, 10, 55, 25], [2, 45, 15, 64, 46, 16]]
    case 37 => [[17, 152, 122, 4, 153, 123], [29, 74, 46, 14, 75, 47], [49, 54, 24, 10, 55, 25],
                [24, 45, 15, 46, 46, 16]]
    case 38 => [[4, 152, 122, 18, 153, 123], [13, 74, 46, 32, 75, 47], [48, 54, 24, 14, 55, 25],
                [42, 45, 15, 32, 46, 16]]
    case 39 => [[20, 147, 117, 4, 148, 118], [40, 75, 47, 7, 76, 48], [43, 54, 24, 22, 55, 25],
                [10, 45, 15, 67, 46, 16]]
    case _ => [[19, 148, 118, 6, 149, 119], [18, 75, 47, 31, 76, 48], [34, 54, 24, 34, 55, 25],
               [20, 45, 15, 61, 46, 16]]
  }

  /** Levels are numbered L = 1, M = 0, Q = 3, H = 2. */
  function Column(level: Level): (c: nat)
    ensures c < 4
  {
    if level == 1 then 0 else if level == 0 then 1 else if level == 3 then 2 else 3
  }

  /** The codewords of a row, and those of them that carry data. */
  function RowTotal(row: seq<nat>): nat
    requires |row| == 3 || |row| == 6
  {
    row[0] * row[1] + if |row| == 6 then row[3] * row[4] else 0
  }

  function RowData(row: seq<nat>): nat
    requires |row| == 3 || |row| == 6
  {
    row[0] * row[2] + if |row| == 6 then row[3] * row[5] else 0
  }

  predicate Sound(row: seq<nat>) {
    (|row| == 3 || |row| == 6) && IsRsBlock(RsBlock(row[1], row[2]))
    && (|row| == 6 ==> IsRsBlock(RsBlock(row[4], row[5])))
  }

  /** The function modules outside column 6, with k positions of alignment patterns. */
  function Taken(n: nat, k: nat): int {
    191 + n + (if k >= 2 then 25 * k * k - 10 * k - 55 else 0) + if n >= 45 then 36 else 0
  }

  function PositionCount(version: Version): nat {
    if version == 1 then 0 else version / 7 + 2
  }

  /** The free modules of a version. */
  function FreeModules(version: Version): int {
    var n := version * 4 + 17;
    n * (n - 1) - Taken(n, PositionCount(version))
  }

  /** The most data codewords among the versions that share a width of the count fields. */
  function MostData(version: Version): nat {
    if version < 10 then 232 else if version < 27 then 1370 else 2956
  }

  /** The codewords of a version, the same at all levels. */
  function CodewordsOf(version: Version): nat
  {
    match version
    case 1 => 26 case 2 => 44 case 3 => 70 case 4 => 100 case 5 => 134
    case 6 => 172 case 7 => 196 case 8 => 242 case 9 => 292 case 10 => 346
    case 11 => 404 case 12 => 466 case 13 => 532 case 14 => 581 case 15 => 655
    case 16 => 733 case 17 => 815 case 18 => 901 case 19 => 991 case 20 => 1085
    case 21 => 1156 case 22 => 1258 case 23 => 1364 case 24 => 1474 case 25 => 1588
    case 26 => 1706 case 27 => 1828 case 28 => 1921 case 29 => 2051 case 30 => 2185
    case 31 => 2323 case 32 => 2465 case 33 => 2611 case 34 => 2761 case 35 => 2876
    case 36 => 3034 case 37 => 3196 case 38 => 3362 case 39 => 3532 case _ => 3706
  }

  predicate RowFits(row: seq<nat>, version: Version)
  {
    Sound(row) && RowTotal(row) == CodewordsOf(version) && RowData(row) <= MostData(version)
  }

  /** The codewords of a version fit its free modules. */
  lemma CodewordsFit(version: Version)
    ensures 8 * CodewordsOf(version) <= FreeModules(version)
  {
    hide CodewordsOf, FreeModules;
    if version <= 13 {
      SmallFit(version);
    } else if version <= 26 {
      MiddleFit(version);
    } else {
      LargeFit(version);
    }
  }

  lemma SmallFit(version: Version)
    ensures 1 <= version <= 13 ==> 8 * CodewordsOf(version) <= FreeModules(version)
  {}

  lemma MiddleFit(version: Version)
    ensures 14 <= version <= 26 ==> 8 * CodewordsOf(version) <= FreeModules(version)
  {}

  lemma LargeFit(version: Version)
    ensures 27 <= version <= 40 ==> 8 * CodewordsOf(version) <= FreeModules(version)
  {}

  lemma RowsFrom1(version: Version, i: nat)
    ensures 1 <= version <= 5 && i < 4 ==> |TableRows(version)| == 4 && RowFits(TableRows(version)[i], version)
  {}

  lemma RowsFrom6(version: Version, i: nat)
    ensures 6 <= version <= 10 && i < 4 ==> |TableRows(version)| == 4 && RowFits(TableRows(version)[i], version)
  {}

  lemma RowsFrom11(version: Version, i: nat)
    ensures 11 <= version <= 15 && i < 4 ==> |TableRows(version)| == 4 && RowFits(TableRows(version)[i], version)
  {}

  lemma RowsFrom16(version: Version, i: nat)
    ensures 16 <= version <= 20 && i < 4 ==> |TableRows(version)| == 4 && RowFits(TableRows(version)[i], version)
  {}

  lemma RowsFrom21(version: Version, i: nat)
    ensures 21 <= version <= 25 && i < 4 ==> |TableRows(version)| == 4 && RowFits(TableRows(version)[i], version)
  {}

  lemma RowsFrom26(version: Version, i: nat)
    ensures 26 <= version <= 30 && i < 4 ==> |TableRows(version)| == 4 && RowFits(TableRows(version)[i], version)
  {}

  lemma RowsFrom31(version: Version, i: nat)
    ensures 31 <= version <= 35 && i < 4 ==> |TableRows(version)| == 4 && RowFits(TableRows(version)[i], version)
  {}

  lemma RowsFrom36(version: Version, i: nat)
    ensures 36 <= version <= 40 && i < 4 ==> |TableRows(version)| == 4 && RowFits(TableRows(version)[i], version)
  {}

  /** Every row of the table is sound and holds the codewords of its version. */
  lemma RowsFit(version: Version, i: nat)
    requires i < 4
    ensures |TableRows(version)| == 4 && RowFits(TableRows(version)[i], version)
  {
    hide TableRows, RowFits;
    if version <= 5 {
      RowsFrom1(version, i);
    } else if version <= 10 {
      RowsFrom6(version, i);
    } else if version <= 15 {
      RowsFrom11(version, i);
    } else if version <= 20 {
      RowsFrom16(version, i);
    } else if version <= 25 {
      RowsFrom21(version, i);
    } else if version <= 30 {
      RowsFrom26(version, i);
    } else if version <= 35 {
      RowsFrom31(version, i);
    } else {
      RowsFrom36(version, i);
    }
  }

  // The blocks of a row.

  function Repeat(b: RsBlock, n: nat): seq<RsBlock> {
    seq(n, _ => b)
  }

  function Expand(row: seq<nat>): seq<RsBlock>
    requires |row| == 3 || |row| == 6
  {
    Repeat(RsBlock(row[1], row[2]), row[0]) + if |row| == 6 then Repeat(RsBlock(row[4], row[5]), row[3]) else []
  }

  /** The blocks of every version and level. */
  function RsBlocks(version: Version, level: Level): (rs: seq<RsBlock>)
    ensures AllRsBlocks(rs)
  {
    hide AllRsBlocks, Expand, TableRows;
    RowsFit(version, Column(level));
    ExpandTotals(TableRows(version)[Column(level)]);
    Expand(TableRows(version)[Column(level)])
  }

  lemma {:induction false} TotalConcat(a: seq<RsBlock>, b: seq<RsBlock>)
    ensures TotalCount(a + b) == TotalCount(a) + TotalCount(b)
    ensures SumOf(DataCounts(a + b)) == SumOf(DataCounts(a)) + SumOf(DataCounts(b))
    decreases |b|
  {
    if b == [] {
      assert a + b == a;
    } else {
      var n := |b| - 1;
      TotalConcat(a, b[..n]);
      assert (a + b)[..|a + b| - 1] == a + b[..n];
      assert DataCounts(a + b)[..|a + b| - 1] == DataCounts(a + b[..n]);
      assert DataCounts(b)[..n] == DataCounts(b[..n]);
    }
  }

  lemma {:induction false} RepeatTotals(b: RsBlock, n: nat)
    ensures TotalCount(Repeat(b, n)) == n * b.totalCount
    ensures SumOf(DataCounts(Repeat(b, n))) == n * b.dataCount
    decreases n
  {
    if n > 0 {
      RepeatTotals(b, n - 1);
      assert Repeat(b, n)[..n - 1] == Repeat(b, n - 1);
      assert DataCounts(Repeat(b, n))[..n - 1] == DataCounts(Repeat(b, n - 1));
      assert n * b.totalCount == (n - 1) * b.totalCount + b.totalCount;
      assert n * b.dataCount == (n - 1) * b.dataCount + b.dataCount;
    }
  }

  lemma ExpandTotals(row: seq<nat>)
    requires Sound(row)
    ensures TotalCount(Expand(row)) == RowTotal(row) && SumOf(DataCounts(Expand(row))) == RowData(row)
    ensures AllRsBlocks(Expand(row))
  {
    hide TotalCount, SumOf, DataCounts;
    RepeatTotals(RsBlock(row[1], row[2]), row[0]);
    if |row| == 6 {
      RepeatTotals(RsBlock(row[4], row[5]), row[3]);
      TotalConcat(Repeat(RsBlock(row[1], row[2]), row[0]), Repeat(RsBlock(row[4], row[5]), row[3]));
    } else {
      assert Expand(row) == Repeat(RsBlock(row[1], row[2]), row[0]);
    }
  }

  /** The blocks of every version and level fit the free modules. */
  lemma BlocksFit(version: Version, level: Level)
    ensures 8 * TotalCount(RsBlocks(version, level)) <= FreeModules(version)
    ensures SumOf(DataCounts(RsBlocks(version, level))) <= MostData(version)
  {
    hide TotalCount, SumOf, DataCounts, Expand, TableRows, FreeModules, AllRsBlocks, IsRsBlock, RowTotal, RowData;
    CodewordsFit(version);
    RowsFit(version, Column(level));
    ExpandTotals(TableRows(version)[Column(level)]);
  }

  /** getRSBlocks. */
  method GetRsBlocks(version: Version, level: Level) returns (list: seq<RsBlock>)
    ensures list == RsBlocks(version, level)
  {
    hide TableRows, RowTotal, RowData, FreeModules;
    RowsFit(version, Column(level));
    var rsBlock := TableRows(version)[Column(level)];
    var length := |rsBlock| / 3;
    list := [];
    for i := 0 to length
      invariant i == 0 ==> list == []
      invariant i == 1 ==> list == Repeat(RsBlock(rsBlock[1], rsBlock[2]), rsBlock[0])
      invariant i == 2 ==> list == Expand(rsBlock)
    {
      var count := rsBlock[i * 3 + 0];
      var totalCount := rsBlock[i * 3 + 1];
      var dataCount := rsBlock[i * 3 + 2];
      ghost var before := list;
      for j := 0 to count
        invariant list == before + Repeat(RsBlock(totalCount, dataCount), j)
      {
        list := list + [RsBlock(totalCount, dataCount)];
      }
    }
  }

  // What the table of the standard has in every row.

  /** The blocks of a row differ by one data codeword, the shorter ones first, and have equally many codewords for error
      correction. */
  predicate Balanced(row: seq<nat>) {
    |row| == 6 ==> row[4] == row[1] + 1 && row[5] == row[2] + 1
  }

  predicate AllBalanced(rows: seq<seq<nat>>) {
    |rows| == 4 && Balanced(rows[0]) && Balanced(rows[1]) && Balanced(rows[2]) && Balanced(rows[3])
  }

  /** A level that corrects more holds less. */
  predicate Ordered(rows: seq<seq<nat>>) {
    && |rows| == 4 && (forall i: nat | i < 4 :: |rows[i]| == 3 || |rows[i]| == 6)
    && RowData(rows[0]) > RowData(rows[1]) > RowData(rows[2]) > RowData(rows[3])
  }

  lemma BalancedFrom1(version: Version)
    ensures 1 <= version <= 5 ==> AllBalanced(TableRows(version))
  {}

  lemma BalancedFrom6(version: Version)
    ensures 6 <= version <= 10 ==> AllBalanced(TableRows(version))
  {}

  lemma BalancedFrom11(version: Version)
    ensures 11 <= version <= 15 ==> AllBalanced(TableRows(version))
  {}

  lemma BalancedFrom16(version: Version)
    ensures 16 <= version <= 20 ==> AllBalanced(TableRows(version))
  {}

  lemma BalancedFrom21(version: Version)
    ensures 21 <= version <= 25 ==> AllBalanced(TableRows(version))
  {}

  lemma BalancedFrom26(version: Version)
    ensures 26 <= version <= 30 ==> AllBalanced(TableRows(version))
  {}

  lemma BalancedFrom31(version: Version)
    ensures 31 <= version <= 35 ==> AllBalanced(TableRows(version))
  {}

  lemma BalancedFrom36(version: Version)
    ensures 36 <= version <= 40 ==> AllBalanced(TableRows(version))
  {}

  lemma RowsAreBalanced(version: Version)
    ensures AllBalanced(TableRows(version))
  {
    hide TableRows, AllBalanced;
    BalancedFrom1(version);
    BalancedFrom6(version);
    BalancedFrom11(version);
    BalancedFrom16(version);
    BalancedFrom21(version);
    BalancedFrom26(version);
    BalancedFrom31(version);
    BalancedFrom36(version);
  }

  lemma OrderedFrom1(version: Version)
    ensures 1 <= version <= 5 ==> Ordered(TableRows(version))
  {}

  lemma OrderedFrom6(version: Version)
    ensures 6 <= version <= 10 ==> Ordered(TableRows(version))
  {}

  lemma OrderedFrom11(version: Version)
    ensures 11 <= version <= 15 ==> Ordered(TableRows(version))
  {}

  lemma OrderedFrom16(version: Version)
    ensures 16 <= version <= 20 ==> Ordered(TableRows(version))
  {}

  lemma OrderedFrom21(version: Version)
    ensures 21 <= version <= 25 ==> Ordered(TableRows(version))
  {}

  lemma OrderedFrom26(version: Version)
    ensures 26 <= version <= 30 ==> Ordered(TableRows(version))
  {}

  lemma OrderedFrom31(version: Version)
    ensures 31 <= version <= 35 ==> Ordered(TableRows(version))
  {}

  lemma OrderedFrom36(version: Version)
    ensures 36 <= version <= 40 ==> Ordered(TableRows(version))
  {}

  lemma LevelsAreOrdered(version: Version)
    ensures Ordered(TableRows(version))
  {
    hide TableRows, Ordered;
    OrderedFrom1(version);
    OrderedFrom6(version);
    OrderedFrom11(version);
    OrderedFrom16(version);
    OrderedFrom21(version);
    OrderedFrom26(version);
    OrderedFrom31(version);
    OrderedFrom36(version);
  }

  /** No whole codeword of a symbol is left unused. */
  lemma CodewordsAreAll(version: Version)
    ensures 8 * CodewordsOf(version) <= FreeModules(version) < 8 * CodewordsOf(version) + 8
  {
    hide CodewordsOf, FreeModules;
    SmallRest(version);
    MiddleRest(version);
    LargeRest(version);
    CodewordsFit(version);
  }

  lemma SmallRest(version: Version)
    ensures 1 <= version <= 13 ==> FreeModules(version) < 8 * CodewordsOf(version) + 8
  {}

  lemma MiddleRest(version: Version)
    ensures 14 <= version <= 26 ==> FreeModules(version) < 8 * CodewordsOf(version) + 8
  {}

  lemma LargeRest(version: Version)
    ensures 27 <= version <= 40 ==> FreeModules(version) < 8 * CodewordsOf(version) + 8
  {}

  lemma LevelData(version: Version, level: Level)
    ensures |TableRows(version)| == 4 && Sound(TableRows(version)[Column(level)])
    ensures SumOf(DataCounts(RsBlocks(version, level))) == RowData(TableRows(version)[Column(level)])
    ensures TotalCount(RsBlocks(version, level)) == CodewordsOf(version)
  {
    hide TableRows, Expand, DataCounts, SumOf, TotalCount, CodewordsOf, IsRsBlock;
    RowsFit(version, Column(level));
    ExpandTotals(TableRows(version)[Column(level)]);
  }

  /** At every version, level L (1) holds more data than M (0), M more than Q (3), and Q more than H (2), while all
      levels use every codeword there is room for. */
  lemma LevelsHoldLess(version: Version, level: Level)
    ensures SumOf(DataCounts(RsBlocks(version, 1))) > SumOf(DataCounts(RsBlocks(version, 0)))
    ensures SumOf(DataCounts(RsBlocks(version, 0))) > SumOf(DataCounts(RsBlocks(version, 3)))
    ensures SumOf(DataCounts(RsBlocks(version, 3))) > SumOf(DataCounts(RsBlocks(version, 2)))
    ensures TotalCount(RsBlocks(version, level)) == FreeModules(version) / 8
  {
    hide TableRows, RsBlocks, DataCounts, SumOf, TotalCount, CodewordsOf, FreeModules, Sound, RowData;
    LevelsAreOrdered(version);
    CodewordsAreAll(version);
    LevelData(version, level);
    LevelData(version, 0);
    LevelData(version, 1);
    LevelData(version, 2);
    LevelData(version, 3);
  }

  /** All blocks of a symbol have equally many bytes for error correction, and later blocks hold as much data as earlier
      ones or one byte more. */
  lemma BlocksAreEven(version: Version, level: Level, r: nat, s: nat)
    requires r <= s < |RsBlocks(version, level)|
    ensures var a, b := RsBlocks(version, level)[r], RsBlocks(version, level)[s];
            b.totalCount - b.dataCount == a.totalCount - a.dataCount && a.dataCount <= b.dataCount <= a.dataCount + 1
  {
    hide TableRows, RowTotal, RowData, FreeModules, CodewordsOf;
    RowsAreBalanced(version);
    RowsFit(version, Column(level));
  }
}
