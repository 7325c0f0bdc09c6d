/** Interleaving of codeword blocks (ISO/IEC 18004:2015, section 7.6) as createBytes does it
    (ui/qrcode-generator.js:267-330), and a reader that undoes it. */
module Interleave {
  import opened QrMath
  import opened ReedSolomon

  type Blocks<T> = seq<seq<T>>

  /** The i-th bytes of the blocks that are long enough, in order. */
  function Row<T>(blocks: Blocks<T>, i: nat): seq<T> {
    if blocks == [] then [] else
      var last := blocks[|blocks| - 1];
      Row(blocks[..|blocks| - 1], i) + if i < |last| then [last[i]] else []
  }

  function Rows<T>(blocks: Blocks<T>, k: nat): seq<T> {
    if k == 0 then [] else Rows(blocks, k - 1) + Row(blocks, k - 1)
  }

  function MaxLength<T>(blocks: Blocks<T>): nat {
    if blocks == [] then 0 else
      var m := MaxLength(blocks[..|blocks| - 1]);
      if |blocks[|blocks| - 1]| > m then |blocks[|blocks| - 1]| else m
  }

  /** Byte 0 of every block, then byte 1 of every block, and so on. */
  function Interleaved<T>(blocks: Blocks<T>): seq<T> {
    Rows(blocks, MaxLength(blocks))
  }

  // The reader knows only the lengths of the blocks.

  function Lengths<T>(blocks: Blocks<T>): seq<nat> {
    seq(|blocks|, r requires 0 <= r < |blocks| => |blocks[r]|)
  }

  /** How many of the blocks have a byte i. */
  function RowCount(lens: seq<nat>, i: nat): nat {
    if lens == [] then 0 else RowCount(lens[..|lens| - 1], i) + if i < lens[|lens| - 1] then 1 else 0
  }

  function RowsCount(lens: seq<nat>, k: nat): nat {
    if k == 0 then 0 else RowsCount(lens, k - 1) + RowCount(lens, k - 1)
  }

  function SumOf(lens: seq<nat>): nat {
    if lens == [] then 0 else SumOf(lens[..|lens| - 1]) + lens[|lens| - 1]
  }

  /** Where byte i of block r stands in the interleaved sequence. */
  function Offset(lens: seq<nat>, r: nat, i: nat): nat
    requires r < |lens| && i < lens[r]
  {
    RowsCount(lens, i) + RowCount(lens[..r], i)
  }

  lemma {:induction false} RowCountStep(lens: seq<nat>, r: nat, s: nat, i: nat)
    requires r <= s <= |lens|
    ensures RowCount(lens[..r], i) <= RowCount(lens[..s], i)
    ensures r < s && i < lens[r] ==> RowCount(lens[..r], i) < RowCount(lens[..s], i)
    decreases s
  {
    if r < s {
      assert lens[..s][..s - 1] == lens[..s - 1];
      RowCountStep(lens, r, s - 1, i);
    }
  }

  lemma {:induction false} RowsCountStep(lens: seq<nat>, i: nat, k: nat)
    requires i < k
    ensures RowsCount(lens, i) + RowCount(lens, i) <= RowsCount(lens, k)
    decreases k
  {
    if i < k - 1 {
      RowsCountStep(lens, i, k - 1);
    }
  }

  lemma {:induction false} OffsetBound(lens: seq<nat>, r: nat, i: nat, k: nat)
    requires r < |lens| && i < lens[r] && i < k
    ensures Offset(lens, r, i) < RowsCount(lens, i) + RowCount(lens, i) <= RowsCount(lens, k)
  {
    RowCountStep(lens, r, |lens|, i);
    assert lens[..|lens|] == lens;
    RowsCountStep(lens, i, k);
  }

  /** No two bytes share a place. */
  lemma OffsetInjective(lens: seq<nat>, r: nat, i: nat, s: nat, j: nat)
    requires r < |lens| && i < lens[r] && s < |lens| && j < lens[s]
    requires Offset(lens, r, i) == Offset(lens, s, j)
    ensures r == s && i == j
  {
    if i < j {
      OffsetBound(lens, r, i, j);
    } else if j < i {
      OffsetBound(lens, s, j, i);
    } else if r < s {
      RowCountStep(lens, r, s, i);
    } else if s < r {
      RowCountStep(lens, s, r, i);
    }
  }

  lemma {:induction false} RowLength<T>(blocks: Blocks<T>, i: nat)
    ensures |Row(blocks, i)| == RowCount(Lengths(blocks), i)
    decreases |blocks|
  {
    if blocks != [] {
      RowLength(blocks[..|blocks| - 1], i);
      assert Lengths(blocks)[..|blocks| - 1] == Lengths(blocks[..|blocks| - 1]);
    }
  }

  lemma {:induction false} RowsLength<T>(blocks: Blocks<T>, k: nat)
    ensures |Rows(blocks, k)| == RowsCount(Lengths(blocks), k)
  {
    if k > 0 {
      RowsLength(blocks, k - 1);
      RowLength(blocks, k - 1);
    }
  }

  lemma {:induction false} RowAt<T>(blocks: Blocks<T>, r: nat, i: nat)
    requires r < |blocks| && i < |blocks[r]|
    ensures RowCount(Lengths(blocks)[..r], i) < |Row(blocks, i)|
    ensures Row(blocks, i)[RowCount(Lengths(blocks)[..r], i)] == blocks[r][i]
    decreases |blocks|
  {
    var n := |blocks| - 1;
    assert Lengths(blocks)[..n] == Lengths(blocks[..n]);
    RowLength(blocks[..n], i);
    if r < n {
      RowAt(blocks[..n], r, i);
      assert Lengths(blocks)[..r] == Lengths(blocks[..n])[..r];
    }
  }

  lemma {:induction false} RowsAt<T>(blocks: Blocks<T>, r: nat, i: nat, k: nat)
    requires r < |blocks| && i < |blocks[r]| && i < k
    ensures Offset(Lengths(blocks), r, i) < |Rows(blocks, k)|
    ensures Rows(blocks, k)[Offset(Lengths(blocks), r, i)] == blocks[r][i]
    decreases k
  {
    hide Row, RowCount;
    if i < k - 1 {
      RowsAt(blocks, r, i, k - 1);
    } else {
      RowsLength(blocks, i);
      RowAt(blocks, r, i);
    }
  }

  lemma {:induction false} MaxLengthIsMax<T>(blocks: Blocks<T>, r: nat)
    requires r < |blocks|
    ensures |blocks[r]| <= MaxLength(blocks)
    decreases |blocks|
  {
    if r < |blocks| - 1 {
      MaxLengthIsMax(blocks[..|blocks| - 1], r);
    }
  }

  lemma OffsetBelowSum(lens: seq<nat>, r: nat, i: nat)
    requires r < |lens| && i < lens[r]
    ensures Offset(lens, r, i) < SumOf(lens)
  {
    var k := MaxOf(lens);
    MaxOfIsMax(lens, r);
    forall s: nat | s < |lens|
      ensures lens[s] <= k
    {
      MaxOfIsMax(lens, s);
    }
    OffsetBound(lens, r, i, k);
    CountIsSum(lens, k);
  }

  function MaxOf(lens: seq<nat>): nat {
    if lens == [] then 0 else
      var m := MaxOf(lens[..|lens| - 1]);
      if lens[|lens| - 1] > m then lens[|lens| - 1] else m
  }

  lemma {:induction false} MaxOfIsMax(lens: seq<nat>, r: nat)
    requires r < |lens|
    ensures lens[r] <= MaxOf(lens)
    decreases |lens|
  {
    if r < |lens| - 1 {
      MaxOfIsMax(lens[..|lens| - 1], r);
    }
  }

  /** The blocks with the given lengths, read from their places. */
  function Deinterleaved<T>(data: seq<T>, lens: seq<nat>): Blocks<T>
    requires SumOf(lens) <= |data|
  {
    seq(|lens|, r requires 0 <= r < |lens| =>
      seq(lens[r], i requires 0 <= i < lens[r] => OffsetBelowSum(lens, r, i); data[Offset(lens, r, i)]))
  }

  /** Interleaving is undone by the reader, whatever follows the data. */
  lemma DeinterleaveInverts<T>(blocks: Blocks<T>, rest: seq<T>)
    ensures SumOf(Lengths(blocks)) <= |Interleaved(blocks) + rest|
    ensures Deinterleaved(Interleaved(blocks) + rest, Lengths(blocks)) == blocks
  {
    var data, lens := Interleaved(blocks), Lengths(blocks);
    InterleavedLength(blocks);
    forall r: nat | r < |blocks|
      ensures Deinterleaved(data + rest, lens)[r] == blocks[r]
    {
      forall i: nat | i < |blocks[r]|
        ensures Offset(lens, r, i) < |data| && (data + rest)[Offset(lens, r, i)] == blocks[r][i]
      {
        MaxLengthIsMax(blocks, r);
        RowsAt(blocks, r, i, MaxLength(blocks));
      }
    }
  }

  /** Every byte has its place and there are no other places. */
  lemma InterleavedLength<T>(blocks: Blocks<T>)
    ensures |Interleaved(blocks)| == SumOf(Lengths(blocks))
  {
    var k := MaxLength(blocks);
    RowsLength(blocks, k);
    forall r: nat | r < |blocks|
      ensures Lengths(blocks)[r] <= k
    {
      MaxLengthIsMax(blocks, r);
    }
    CountIsSum(Lengths(blocks), k);
  }

  lemma {:induction false} CountIsSum(lens: seq<nat>, k: nat)
    requires forall r: nat | r < |lens| :: lens[r] <= k
    ensures RowsCount(lens, k) == SumOf(lens)
    decreases |lens|
  {
    if lens == [] {
      NoRows(k);
    } else {
      CountIsSum(lens[..|lens| - 1], k);
      RowsCountLast(lens, k);
    }
  }

  lemma {:induction false} NoRows(k: nat)
    ensures RowsCount([], k) == 0
  {
    if k > 0 {
      NoRows(k - 1);
    }
  }

  lemma {:induction false} RowsCountLast(lens: seq<nat>, k: nat)
    requires lens != []
    ensures var n := |lens| - 1;
            RowsCount(lens, k) == RowsCount(lens[..n], k) + if lens[n] <= k then lens[n] else k
  {
    if k > 0 {
      RowsCountLast(lens, k - 1);
    }
  }

  // createBytes.

  datatype RsBlock = RsBlock(totalCount: nat, dataCount: nat)

  /** A block holds at least its data, and a number of error correction bytes the tables support. */
  predicate IsRsBlock(b: RsBlock) {
    b.dataCount <= b.totalCount <= b.dataCount + 254
  }

  predicate AllRsBlocks(rs: seq<RsBlock>) {
    forall r: nat | r < |rs| :: IsRsBlock(rs[r])
  }

  function DataCounts(rs: seq<RsBlock>): seq<nat> {
    seq(|rs|, r requires 0 <= r < |rs| => rs[r].dataCount)
  }

  /** Consecutive slices of the data, one for each block. */
  function DataBlocks(data: seq<bv8>, rs: seq<RsBlock>): (blocks: Blocks<bv8>)
    requires SumOf(DataCounts(rs)) <= |data|
    ensures |blocks| == |rs|
    decreases |rs|
  {
    if rs == [] then [] else
      var n := |rs| - 1;
      assert DataCounts(rs)[..n] == DataCounts(rs[..n]);
      var start := SumOf(DataCounts(rs[..n]));
      DataBlocks(data, rs[..n]) + [data[start..start + rs[n].dataCount]]
  }

  ghost function EcBlocks(blocks: Blocks<bv8>, rs: seq<RsBlock>): Blocks<bv8>
    requires |blocks| == |rs| && AllRsBlocks(rs)
  {
    seq(|rs|, r requires 0 <= r < |rs| => EcBytes(blocks[r], rs[r].totalCount - rs[r].dataCount))
  }

  function Flatten<T>(blocks: Blocks<T>): seq<T> {
    if blocks == [] then [] else Flatten(blocks[..|blocks| - 1]) + blocks[|blocks| - 1]
  }

  lemma {:induction false} FlattenDataBlocks(data: seq<bv8>, rs: seq<RsBlock>)
    requires SumOf(DataCounts(rs)) <= |data|
    ensures Flatten(DataBlocks(data, rs)) == data[..SumOf(DataCounts(rs))]
    ensures Lengths(DataBlocks(data, rs)) == DataCounts(rs)
    decreases |rs|
  {
    if rs != [] {
      var n := |rs| - 1;
      assert DataCounts(rs)[..n] == DataCounts(rs[..n]);
      FlattenDataBlocks(data, rs[..n]);
      var b := DataBlocks(data, rs);
      assert b[..n] == DataBlocks(data, rs[..n]);
      forall r: nat | r < |rs|
        ensures Lengths(b)[r] == DataCounts(rs)[r]
      {
        if r < n {
          assert Lengths(b[..n])[r] == DataCounts(rs[..n])[r];
        }
      }
    }
  }

  /** The codewords of a symbol: interleaved data, then interleaved error correction. */
  ghost function Codewords(data: seq<bv8>, rs: seq<RsBlock>): seq<bv8>
    requires SumOf(DataCounts(rs)) <= |data| && AllRsBlocks(rs)
  {
    var dc := DataBlocks(data, rs);
    Interleaved(dc) + Interleaved(EcBlocks(dc, rs))
  }

  /** The data a reader takes out of the codewords. */
  function DataOf(codewords: seq<bv8>, rs: seq<RsBlock>): seq<bv8>
    requires SumOf(DataCounts(rs)) <= |codewords|
  {
    Flatten(Deinterleaved(codewords, DataCounts(rs)))
  }

  /** Whatever the data and the mix of block lengths, the reader recovers the data. */
  lemma CodewordsRoundTrip(data: seq<bv8>, rs: seq<RsBlock>, rest: seq<bv8>)
    requires SumOf(DataCounts(rs)) == |data| && AllRsBlocks(rs)
    ensures SumOf(DataCounts(rs)) <= |Codewords(data, rs) + rest|
    ensures DataOf(Codewords(data, rs) + rest, rs) == data
  {
    hide EcBytes, EcBlocks, Interleaved, Deinterleaved, Lengths, DataBlocks;
    var dc := DataBlocks(data, rs);
    var tail := Interleaved(EcBlocks(dc, rs)) + rest;
    FlattenDataBlocks(data, rs);
    DeinterleaveInverts(dc, tail);
    assert Codewords(data, rs) + rest == Interleaved(dc) + tail;
    assert data[..|data|] == data;
  }

  /** The inner of the two nested loops: byte i of every block that has one. */
  method WriteRow<T>(a: array<T>, start: nat, blocks: Blocks<T>, i: nat) returns (index: nat)
    requires start + RowCount(Lengths(blocks), i) <= a.Length
    modifies a
    ensures index == start + RowCount(Lengths(blocks), i)
    ensures a[..index] == old(a[..start]) + Row(blocks, i)
  {
    hide Row, RowCount;
    ghost var lens := Lengths(blocks);
    assert lens[..|blocks|] == lens;
    EmptyRow<T>(i);
    index := start;
    for r := 0 to |blocks|
      invariant index == start + RowCount(lens[..r], i) <= a.Length
      invariant a[..index] == old(a[..start]) + Row(blocks[..r], i)
    {
      NextInRow(blocks, r, i);
      RowCountStep(lens, r + 1, |blocks|, i);
      if i < |blocks[r]| {
        a[index] := blocks[r][i];
        index := index + 1;
      }
    }
    assert blocks[..|blocks|] == blocks && lens[..|blocks|] == lens;
  }

  lemma EmptyRow<T>(i: nat)
    ensures Row<T>([], i) == [] && RowCount([], i) == 0
  {}

  lemma NextInRow<T>(blocks: Blocks<T>, r: nat, i: nat)
    requires r < |blocks|
    ensures Row(blocks[..r + 1], i) == Row(blocks[..r], i) + if i < |blocks[r]| then [blocks[r][i]] else []
    ensures RowCount(Lengths(blocks)[..r + 1], i)
            == RowCount(Lengths(blocks)[..r], i) + if i < |blocks[r]| then 1 else 0
  {
    assert blocks[..r + 1][..r] == blocks[..r] && Lengths(blocks)[..r + 1][..r] == Lengths(blocks)[..r];
  }

  /** The nested loops: write the blocks, interleaved, into the array from start on. */
  method WriteInterleaved<T>(a: array<T>, start: nat, blocks: Blocks<T>) returns (index: nat)
    requires start + SumOf(Lengths(blocks)) <= a.Length
    modifies a
    ensures index == start + SumOf(Lengths(blocks))
    ensures a[..index] == old(a[..start]) + Interleaved(blocks)
  {
    hide Row, RowCount, Lengths;
    ghost var lens := Lengths(blocks);
    var maxCount := 0;
    for r := 0 to |blocks|
      invariant maxCount == MaxLength(blocks[..r])
    {
      assert blocks[..r + 1][..r] == blocks[..r];
      maxCount := if |blocks[r]| > maxCount then |blocks[r]| else maxCount;
    }
    assert blocks[..|blocks|] == blocks;
    InterleavedLength(blocks);
    RowsLength(blocks, maxCount);
    index := start;
    for i := 0 to maxCount
      invariant index == start + RowsCount(lens, i) <= a.Length
      invariant a[..index] == old(a[..start]) + Rows(blocks, i)
    {
      RowsCountStep(lens, i, maxCount);
      index := WriteRow(a, index, blocks, i);
    }
  }

  function TotalCount(rs: seq<RsBlock>): nat {
    if rs == [] then 0 else TotalCount(rs[..|rs| - 1]) + rs[|rs| - 1].totalCount
  }

  lemma {:induction false} TotalIsSum(data: seq<bv8>, rs: seq<RsBlock>)
    requires SumOf(DataCounts(rs)) <= |data| && AllRsBlocks(rs)
    ensures var dc := DataBlocks(data, rs);
            SumOf(Lengths(dc)) + SumOf(Lengths(EcBlocks(dc, rs))) == TotalCount(rs)
    decreases |rs|
  {
    hide EcBytes, EcBlocks, DataBlocks, Lengths;
    if rs == [] {
      NoBlocks(data, rs);
      assert rs[..0] == rs;
      NoLengths();
    } else {
      var n := |rs| - 1;
      assert rs[..n + 1] == rs;
      CountsStep(data, rs, n);
      DataStep(data, rs, n);
      var start := SumOf(DataCounts(rs[..n]));
      var dc, block := DataBlocks(data, rs[..n]), data[start..start + rs[n].dataCount];
      EcStep(dc, block, rs, n);
      TotalIsSum(data, rs[..n]);
      LengthsSnoc(dc, block);
      LengthsSnoc(EcBlocks(dc, rs[..n]), EcBytes(block, rs[n].totalCount - rs[n].dataCount));
    }
  }

  lemma NoLengths()
    ensures Lengths<bv8>([]) == []
  {}

  lemma LengthsSnoc(blocks: Blocks<bv8>, b: seq<bv8>)
    ensures SumOf(Lengths(blocks + [b])) == SumOf(Lengths(blocks)) + |b|
  {
    assert Lengths(blocks + [b])[..|blocks|] == Lengths(blocks);
  }

  lemma CountsStep(data: seq<bv8>, rs: seq<RsBlock>, r: nat)
    requires SumOf(DataCounts(rs)) <= |data| && AllRsBlocks(rs) && r < |rs|
    ensures SumOf(DataCounts(rs[..r])) + rs[r].dataCount == SumOf(DataCounts(rs[..r + 1])) <= |data|
    ensures AllRsBlocks(rs[..r]) && AllRsBlocks(rs[..r + 1])
  {
    SumPrefix(rs, r + 1);
    assert rs[..r + 1][..r] == rs[..r];
    assert DataCounts(rs[..r + 1])[..r] == DataCounts(rs[..r]);
  }

  /** One turn of the first loop of createBytes: the next slice of the data. */
  lemma DataStep(data: seq<bv8>, rs: seq<RsBlock>, r: nat)
    requires SumOf(DataCounts(rs)) <= |data| && AllRsBlocks(rs) && r < |rs|
    requires SumOf(DataCounts(rs[..r])) + rs[r].dataCount == SumOf(DataCounts(rs[..r + 1])) <= |data|
    ensures var start := SumOf(DataCounts(rs[..r]));
            DataBlocks(data, rs[..r + 1]) == DataBlocks(data, rs[..r]) + [data[start..start + rs[r].dataCount]]
  {
    hide SumOf, DataCounts;
    assert rs[..r + 1][..r] == rs[..r];
  }

  /** And its error correction. */
  lemma EcStep(dc: Blocks<bv8>, block: seq<bv8>, rs: seq<RsBlock>, r: nat)
    requires r < |rs| && |dc| == r && AllRsBlocks(rs) && AllRsBlocks(rs[..r]) && AllRsBlocks(rs[..r + 1])
    ensures EcBlocks(dc + [block], rs[..r + 1]) ==
            EcBlocks(dc, rs[..r]) + [EcBytes(block, rs[r].totalCount - rs[r].dataCount)]
  {
    hide EcBytes;
  }

  method SplitBlocks(math: QRMath, buffer: seq<bv8>, rs: seq<RsBlock>)
    returns (dcdata: Blocks<bv8>, ecdata: Blocks<bv8>)
    requires math.Valid() && SumOf(DataCounts(rs)) <= |buffer| && AllRsBlocks(rs)
    ensures dcdata == DataBlocks(buffer, rs) && ecdata == EcBlocks(dcdata, rs)
  {
    hide EcBytes, EcBlocks, DataBlocks, TotalCount;
    var offset := 0;
    dcdata, ecdata := [], [];
    NoBlocks(buffer, rs);
    for r := 0 to |rs|
      invariant AllRsBlocks(rs[..r]) && offset == SumOf(DataCounts(rs[..r])) <= |buffer|
      invariant dcdata == DataBlocks(buffer, rs[..r]) && ecdata == EcBlocks(dcdata, rs[..r])
    {
      CountsStep(buffer, rs, r);
      DataStep(buffer, rs, r);
      var dcCount := rs[r].dataCount;
      var ecCount := rs[r].totalCount - dcCount;
      var block := buffer[offset..offset + dcCount];
      EcStep(dcdata, block, rs, r);
      offset := offset + dcCount;
      var ec := ErrorCorrection(math, block, ecCount);
      dcdata := dcdata + [block];
      ecdata := ecdata + [ec];
    }
    assert rs[..|rs|] == rs;
  }

  lemma NoBlocks(data: seq<bv8>, rs: seq<RsBlock>)
    ensures AllRsBlocks(rs[..0]) && SumOf(DataCounts(rs[..0])) == 0
    ensures DataBlocks(data, rs[..0]) == [] && EcBlocks([], rs[..0]) == []
  {}

  /** createBytes: split, compute the error correction, interleave. The buffer holds at least the blocks' data. */
  method CreateBytes(math: QRMath, buffer: seq<bv8>, rs: seq<RsBlock>) returns (data: seq<bv8>)
    requires math.Valid() && SumOf(DataCounts(rs)) <= |buffer| && AllRsBlocks(rs)
    ensures data == Codewords(buffer, rs)
  {
    hide EcBytes, EcBlocks, Interleaved, Lengths, DataBlocks;
    var dcdata, ecdata := SplitBlocks(math, buffer, rs);
    var total := 0;
    for r := 0 to |rs|
      invariant total == TotalCount(rs[..r])
    {
      assert rs[..r + 1][..r] == rs[..r];
      total := total + rs[r].totalCount;
    }
    assert rs[..|rs|] == rs;
    TotalIsSum(buffer, rs);
    var a := new bv8[total](_ => 0);
    var index := WriteInterleaved(a, 0, dcdata);
    index := WriteInterleaved(a, index, ecdata);
    data := a[..];
    assert a[..index] == a[..];
  }

  lemma {:induction false} SumPrefix(rs: seq<RsBlock>, r: nat)
    requires r <= |rs|
    ensures SumOf(DataCounts(rs[..r])) <= SumOf(DataCounts(rs))
    decreases |rs|
  {
    var n := |rs| - 1;
    if r < |rs| {
      SumPrefix(rs[..n], r);
      assert rs[..n][..r] == rs[..r];
      assert DataCounts(rs)[..n] == DataCounts(rs[..n]);
    } else {
      assert rs[..r] == rs;
    }
  }

  // The order of the codewords.

  /** Bytes with a lower index come first, and among those with the same index the one of the earlier block. */
  lemma {:induction false} OffsetOrder(lens: seq<nat>, r: nat, i: nat, s: nat, j: nat)
    requires r < |lens| && i < lens[r] && s < |lens| && j < lens[s]
    ensures Offset(lens, r, i) < Offset(lens, s, j) <==> i < j || (i == j && r < s)
  {
    if i < j {
      OffsetBound(lens, r, i, j);
    } else if j < i {
      OffsetBound(lens, s, j, i);
    } else if r < s {
      RowCountStep(lens, r, s, i);
    } else if s < r {
      RowCountStep(lens, s, r, i);
    }
  }

  /** Where the data of block r starts. */
  function DataStart(rs: seq<RsBlock>, r: nat): nat
    requires r <= |rs|
  {
    if r == 0 then 0 else DataStart(rs, r - 1) + rs[r - 1].dataCount
  }

  lemma {:induction false} DataStartIs(rs: seq<RsBlock>, r: nat)
    requires r <= |rs|
    ensures DataStart(rs, r) == SumOf(DataCounts(rs[..r]))
    ensures r < |rs| ==> DataStart(rs, r) + rs[r].dataCount <= SumOf(DataCounts(rs))
    decreases |rs|, r
  {
    if r > 0 {
      DataStartIs(rs, r - 1);
      assert DataCounts(rs[..r])[..r - 1] == DataCounts(rs[..r - 1]);
    }
    if r < |rs| {
      SumGrows(rs, r + 1);
      assert DataCounts(rs[..r + 1])[..r] == DataCounts(rs[..r]);
    }
  }

  lemma {:induction false} SumGrows(rs: seq<RsBlock>, r: nat)
    requires r <= |rs|
    ensures SumOf(DataCounts(rs[..r])) <= SumOf(DataCounts(rs))
    decreases |rs| - r
  {
    if r < |rs| {
      SumGrows(rs, r + 1);
      assert DataCounts(rs[..r + 1])[..r] == DataCounts(rs[..r]);
    } else {
      assert rs[..r] == rs;
    }
  }

  lemma {:induction false} DataBlockAt(data: seq<bv8>, rs: seq<RsBlock>, r: nat)
    requires SumOf(DataCounts(rs)) <= |data| && r < |rs|
    ensures DataStart(rs, r) + rs[r].dataCount <= |data|
    ensures DataBlocks(data, rs)[r] == data[DataStart(rs, r)..DataStart(rs, r) + rs[r].dataCount]
    decreases |rs|
  {
    var n := |rs| - 1;
    DataStartIs(rs, r);
    assert DataCounts(rs)[..n] == DataCounts(rs[..n]);
    if r < n {
      DataBlockAt(data, rs[..n], r);
      StartOfPrefix(rs, n, r);
    }
  }

  lemma {:induction false} StartOfPrefix(rs: seq<RsBlock>, n: nat, r: nat)
    requires r <= n <= |rs|
    ensures DataStart(rs[..n], r) == DataStart(rs, r)
  {
    if r > 0 {
      StartOfPrefix(rs, n, r - 1);
    }
  }

  function EcCounts(rs: seq<RsBlock>): seq<nat>
    requires AllRsBlocks(rs)
  {
    seq(|rs|, r requires 0 <= r < |rs| => rs[r].totalCount - rs[r].dataCount)
  }

  /** The data comes first: data byte i of block r, counted from the start of the block, is at its place among all data
      bytes; behind the data, so is error correction byte i of block r. */
  lemma {:induction false} CodewordsAt(data: seq<bv8>, rs: seq<RsBlock>, r: nat, i: nat)
    requires SumOf(DataCounts(rs)) <= |data| && AllRsBlocks(rs) && r < |rs|
    ensures i < rs[r].dataCount ==>
              && Offset(DataCounts(rs), r, i) < SumOf(DataCounts(rs)) <= |Codewords(data, rs)|
              && DataStart(rs, r) + i < |data|
              && Codewords(data, rs)[Offset(DataCounts(rs), r, i)] == data[DataStart(rs, r) + i]
    ensures i < rs[r].totalCount - rs[r].dataCount ==>
              && SumOf(DataCounts(rs)) + Offset(EcCounts(rs), r, i) < |Codewords(data, rs)|
              && |DataBlocks(data, rs)| == |rs|
              && Codewords(data, rs)[SumOf(DataCounts(rs)) + Offset(EcCounts(rs), r, i)] ==
                 EcBytes(DataBlocks(data, rs)[r], rs[r].totalCount - rs[r].dataCount)[i]
  {
    hide Rows, MaxLength, Offset, EcBytes, SumOf, DataStart, DataBlocks;
    var dc := DataBlocks(data, rs);
    var ec := EcBlocks(dc, rs);
    FlattenDataBlocks(data, rs);
    InterleavedLength(dc);
    EcLengths(dc, rs);
    if i < rs[r].dataCount {
      DataBlockAt(data, rs, r);
      MaxLengthIsMax(dc, r);
      OffsetBelowSum(DataCounts(rs), r, i);
      RowsAt(dc, r, i, MaxLength(dc));
    }
    if i < rs[r].totalCount - rs[r].dataCount {
      MaxLengthIsMax(ec, r);
      RowsAt(ec, r, i, MaxLength(ec));
    }
  }

  lemma EcLengths(blocks: Blocks<bv8>, rs: seq<RsBlock>)
    requires |blocks| == |rs| && AllRsBlocks(rs)
    ensures Lengths(EcBlocks(blocks, rs)) == EcCounts(rs)
  {
    hide EcBytes;
  }
}
