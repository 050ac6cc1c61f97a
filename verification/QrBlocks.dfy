/** Splitting a data stream into blocks, interleaving the blocks column by column, and the way back. */
module QrBlocks {
  import opened Galois

  type Block = seq<Byte>

  // -- Splitting ---------------------------------------------------------------

  function Total(sizes: seq<nat>): nat {
    if |sizes| == 0 then 0 else Total(sizes[..|sizes| - 1]) + sizes[|sizes| - 1]
  }

  /** Consecutive slices of the data, one per size. */
  function Split(sizes: seq<nat>, data: Block): (blocks: seq<Block>)
    requires Total(sizes) <= |data|
    ensures |blocks| == |sizes|
    ensures forall b | 0 <= b < |sizes| :: |blocks[b]| == sizes[b]
  {
    if |sizes| == 0 then []
    else
      var n := |sizes| - 1;
      Split(sizes[..n], data) + [data[Total(sizes[..n])..Total(sizes)]]
  }

  function Join(blocks: seq<Block>): Block {
    if |blocks| == 0 then [] else Join(blocks[..|blocks| - 1]) + blocks[|blocks| - 1]
  }

  lemma {:induction false} JoinSplit(sizes: seq<nat>, data: Block)
    requires Total(sizes) <= |data|
    ensures Join(Split(sizes, data)) == data[..Total(sizes)]
  {
    if |sizes| > 0 {
      var n := |sizes| - 1;
      JoinSplit(sizes[..n], data);
      assert Split(sizes, data)[..n] == Split(sizes[..n], data);
    }
  }

  // -- Interleaving ------------------------------------------------------------

  function Sizes(blocks: seq<Block>): (sizes: seq<nat>)
    ensures |sizes| == |blocks|
  {
    seq(|blocks|, b requires 0 <= b < |blocks| => |blocks[b]|)
  }

  function Longest(sizes: seq<nat>): (m: nat)
    ensures forall b | 0 <= b < |sizes| :: sizes[b] <= m
  {
    if |sizes| == 0 then 0
    else
      var m := Longest(sizes[..|sizes| - 1]);
      var last := sizes[|sizes| - 1];
      if last > m then last else m
  }

  /** Element i of each of the first b blocks that has one. */
  function Column(blocks: seq<Block>, i: nat, b: nat): Block
    requires b <= |blocks|
  {
    if b == 0 then []
    else Column(blocks, i, b - 1) + if i < |blocks[b - 1]| then [blocks[b - 1][i]] else []
  }

  /** The first n columns. */
  function Columns(blocks: seq<Block>, n: nat): Block {
    if n == 0 then [] else Columns(blocks, n - 1) + Column(blocks, n - 1, |blocks|)
  }

  /** How many of the first b blocks are longer than i. */
  function CountLonger(sizes: seq<nat>, i: nat, b: nat): nat
    requires b <= |sizes|
  {
    if b == 0 then 0
    else CountLonger(sizes, i, b - 1) + if i < sizes[b - 1] then 1 else 0
  }

  /** How many elements the first n columns hold. */
  function Before(sizes: seq<nat>, n: nat): nat {
    if n == 0 then 0 else Before(sizes, n - 1) + CountLonger(sizes, n - 1, |sizes|)
  }

  /** Where element i of block b stands in the interleaved stream. */
  function Position(sizes: seq<nat>, b: nat, i: nat): nat
    requires b < |sizes|
  {
    Before(sizes, i) + CountLonger(sizes, i, b)
  }

  /** A reader's way back: pick every element out of its place. */
  function Deinterleave(sizes: seq<nat>, stream: Block): (blocks: seq<Block>)
    requires Total(sizes) <= |stream|
    ensures |blocks| == |sizes|
  {
    seq(|sizes|, b requires 0 <= b < |sizes| =>
      seq(sizes[b], i requires 0 <= i < sizes[b] =>
        (PositionInRange(sizes, b, i); stream[Position(sizes, b, i)])))
  }

  lemma {:induction false} ColumnLength(blocks: seq<Block>, i: nat, b: nat)
    requires b <= |blocks|
    ensures |Column(blocks, i, b)| == CountLonger(Sizes(blocks), i, b)
  {
    if b > 0 {
      ColumnLength(blocks, i, b - 1);
    }
  }

  lemma {:induction false} ColumnsLength(blocks: seq<Block>, n: nat)
    ensures |Columns(blocks, n)| == Before(Sizes(blocks), n)
  {
    hide Column, CountLonger, Sizes;
    if n > 0 {
      ColumnsLength(blocks, n - 1);
      ColumnLength(blocks, n - 1, |blocks|);
    }
  }

  lemma {:induction false} ColumnAt(blocks: seq<Block>, i: nat, b: nat, upTo: nat)
    requires b < upTo <= |blocks| && i < |blocks[b]|
    ensures CountLonger(Sizes(blocks), i, b) < |Column(blocks, i, upTo)|
    ensures Column(blocks, i, upTo)[CountLonger(Sizes(blocks), i, b)] == blocks[b][i]
  {
    if upTo == b + 1 {
      ColumnLength(blocks, i, b);
    } else {
      ColumnAt(blocks, i, b, upTo - 1);
    }
  }

  /** Interleaving puts element i of block b exactly at its position. */
  lemma {:induction false} ColumnsAt(blocks: seq<Block>, n: nat, b: nat, i: nat)
    requires b < |blocks| && i < |blocks[b]| && i < n
    ensures Position(Sizes(blocks), b, i) < |Columns(blocks, n)|
    ensures Columns(blocks, n)[Position(Sizes(blocks), b, i)] == blocks[b][i]
  {
    hide Column, CountLonger, Sizes, Before;
    if i == n - 1 {
      ColumnsLength(blocks, n - 1);
      ColumnAt(blocks, i, b, |blocks|);
    } else {
      ColumnsAt(blocks, n - 1, b, i);
    }
  }

  // -- Nothing is lost: the columns hold every element once ---------------------

  /** The elements of the first b blocks that lie in the first n columns. */
  function Covered(sizes: seq<nat>, n: nat, b: nat): nat
    requires b <= |sizes|
  {
    if b == 0 then 0
    else Covered(sizes, n, b - 1) + if sizes[b - 1] < n then sizes[b - 1] else n
  }

  lemma {:induction false} CoveredStep(sizes: seq<nat>, n: nat, b: nat)
    requires b <= |sizes|
    ensures Covered(sizes, n + 1, b) == Covered(sizes, n, b) + CountLonger(sizes, n, b)
  {
    if b > 0 {
      CoveredStep(sizes, n, b - 1);
    }
  }

  lemma {:induction false} CoveredNone(sizes: seq<nat>, b: nat)
    requires b <= |sizes|
    ensures Covered(sizes, 0, b) == 0
  {
    if b > 0 {
      CoveredNone(sizes, b - 1);
    }
  }

  lemma {:induction false} CoveredAll(sizes: seq<nat>, n: nat, b: nat)
    requires b <= |sizes|
    requires forall k | 0 <= k < b :: sizes[k] <= n
    ensures Covered(sizes, n, b) == Total(sizes[..b])
  {
    if b > 0 {
      CoveredAll(sizes, n, b - 1);
      assert sizes[..b][..b - 1] == sizes[..b - 1];
    }
  }

  lemma {:induction false} BeforeIsCovered(sizes: seq<nat>, n: nat)
    ensures Before(sizes, n) == Covered(sizes, n, |sizes|)
  {
    if n == 0 {
      CoveredNone(sizes, |sizes|);
    } else {
      BeforeIsCovered(sizes, n - 1);
      CoveredStep(sizes, n - 1, |sizes|);
    }
  }

  /** Once every block is exhausted the stream is as long as the blocks together. */
  lemma BeforeAll(sizes: seq<nat>, n: nat)
    requires forall k | 0 <= k < |sizes| :: sizes[k] <= n
    ensures Before(sizes, n) == Total(sizes)
  {
    BeforeIsCovered(sizes, n);
    CoveredAll(sizes, n, |sizes|);
    assert sizes[..|sizes|] == sizes;
  }

  lemma {:induction false} BeforeMonotone(sizes: seq<nat>, m: nat, n: nat)
    requires m <= n
    ensures Before(sizes, m) <= Before(sizes, n)
    decreases n
  {
    if m < n {
      BeforeMonotone(sizes, m, n - 1);
    }
  }

  lemma {:induction false} CountLongerBelow(sizes: seq<nat>, i: nat, b: nat, upTo: nat)
    requires b < upTo <= |sizes| && i < sizes[b]
    ensures CountLonger(sizes, i, b) < CountLonger(sizes, i, upTo)
  {
    if upTo > b + 1 {
      CountLongerBelow(sizes, i, b, upTo - 1);
    }
  }

  lemma PositionInRange(sizes: seq<nat>, b: nat, i: nat)
    requires b < |sizes| && i < sizes[b]
    ensures Position(sizes, b, i) < Total(sizes)
  {
    CountLongerBelow(sizes, i, b, |sizes|);
    BeforeMonotone(sizes, i + 1, Longest(sizes));
    BeforeAll(sizes, Longest(sizes));
  }

  /** De-interleaving what was interleaved gives the blocks back, whatever follows in the stream. */
  lemma DeinterleaveColumns(blocks: seq<Block>, n: nat, tail: Block)
    requires forall b | 0 <= b < |blocks| :: |blocks[b]| <= n
    ensures |Columns(blocks, n)| == Total(Sizes(blocks))
    ensures Deinterleave(Sizes(blocks), Columns(blocks, n) + tail) == blocks
  {
    var sizes := Sizes(blocks);
    ColumnsLength(blocks, n);
    BeforeAll(sizes, n);
    var read := Deinterleave(sizes, Columns(blocks, n) + tail);
    hide Columns, Position, Total;
    forall b | 0 <= b < |blocks| ensures read[b] == blocks[b] {
      forall i | 0 <= i < |blocks[b]| ensures read[b][i] == blocks[b][i] {
        PositionInRange(sizes, b, i);
        ColumnsAt(blocks, n, b, i);
      }
    }
  }
}
