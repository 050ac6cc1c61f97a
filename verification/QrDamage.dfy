/** Damage to a drawn symbol: flipped modules, the codewords they spoil, and what a reader can still tell. */
module QrDamage {
  import opened Galois
  import opened ReedSolomon
  import opened QrBits
  import opened QrBlocks
  import opened QrEncode
  import opened QrWalk
  import opened QrLayout
  import opened QrSymbol

  // -- From codewords to blocks ---------------------------------------------------------------------

  lemma {:induction false} DistanceFront(p: seq<Byte>, q: seq<Byte>, n: nat)
    requires |p| == |q| && n <= |p|
    ensures Distance(p[..n], q[..n]) <= Distance(p, q)
  {
    if n < |p| {
      DistanceFront(p[..|p| - 1], q[..|q| - 1], n);
      assert p[..|p| - 1][..n] == p[..n] && q[..|q| - 1][..n] == q[..n];
    } else {
      assert p[..n] == p && q[..n] == q;
    }
  }

  /** x picks the elements of p at these rising places. */
  ghost predicate Picks(x: seq<Byte>, p: seq<Byte>, places: seq<nat>) {
    && |x| == |places| && (forall i | 0 <= i < |places| :: places[i] < |p| && x[i] == p[places[i]])
    && forall i | 0 < i < |places| :: places[i - 1] < places[i]
  }

  /** All but the last pick come from before its place. */
  lemma FrontPicks(x: seq<Byte>, p: seq<Byte>, places: seq<nat>)
    requires Picks(x, p, places) && |x| > 0
    ensures var n := |x| - 1;
      places[n] < |p| && x[n] == p[places[n]] && Picks(x[..n], p[..places[n]], places[..n])
  {
    var n := |x| - 1;
    forall i | 0 <= i < n ensures places[i] < places[n] {
      Rising(places, i, n);
    }
  }

  /** What is picked out of two words differs in no more positions than the words do. */
  lemma {:induction false} PickedDistance(x: seq<Byte>, y: seq<Byte>, p: seq<Byte>, q: seq<Byte>, places: seq<nat>)
    requires |p| == |q| && Picks(x, p, places) && Picks(y, q, places)
    ensures |x| == |y| && Distance(x, y) <= Distance(p, q)
  {
    if |x| > 0 {
      FrontPicks(x, p, places);
      FrontPicks(y, q, places);
      hide Picks;
      var n, at := |x| - 1, places[|x| - 1];
      PickedDistance(x[..n], y[..n], p[..at], q[..at], places[..n]);
      DistanceFront(p, q, at + 1);
      var p1, q1 := p[..at + 1], q[..at + 1];
      assert p1[..|p1| - 1] == p[..at] && q1[..|q1| - 1] == q[..at];
    }
  }

  lemma {:induction false} Rising(places: seq<nat>, i: nat, j: nat)
    requires i < j < |places| && forall k | 0 < k < |places| :: places[k - 1] < places[k]
    ensures places[i] < places[j]
  {
    if i + 1 < j { Rising(places, i, j - 1); }
  }

  lemma PositionRises(sizes: seq<nat>, b: nat, i: nat)
    requires b < |sizes| && i + 1 < sizes[b]
    ensures Position(sizes, b, i) < Position(sizes, b, i + 1)
  {
    CountLongerBelow(sizes, i, b, |sizes|);
  }

  /** Where the elements of one block stand in the interleaved stream. */
  ghost function Positions(sizes: seq<nat>, b: nat): (places: seq<nat>)
    requires b < |sizes|
    ensures |places| == sizes[b]
  {
    seq(sizes[b], i requires 0 <= i < sizes[b] => Position(sizes, b, i))
  }

  lemma BlockPicks(sizes: seq<nat>, stream: seq<Byte>, b: nat)
    requires b < |sizes| && Total(sizes) <= |stream|
    ensures Picks(Deinterleave(sizes, stream)[b], stream, Positions(sizes, b))
    ensures forall place | place in Positions(sizes, b) :: place < Total(sizes)
  {
    hide Position, Total;
    var places := Positions(sizes, b);
    forall i | 0 <= i < sizes[b] ensures places[i] < Total(sizes) {
      PositionInRange(sizes, b, i);
    }
    forall i | 0 < i < sizes[b] ensures places[i - 1] < places[i] {
      PositionRises(sizes, b, i - 1);
    }
  }

  /** First places in the front of a stream, then places in what follows. */
  lemma PicksJoin(x: seq<Byte>, y: seq<Byte>, stream: seq<Byte>, n: nat, first: seq<nat>, second: seq<nat>)
    requires n <= |stream| && Picks(x, stream, first) && Picks(y, stream[n..], second)
    requires forall place | place in first :: place < n
    ensures Picks(x + y, stream, first + Shifted(second, n))
  {
    var places := first + Shifted(second, n);
    forall i | 0 < i < |places| ensures places[i - 1] < places[i] {
      if i == |first| { assert first[i - 1] in first; }
    }
  }

  ghost function Shifted(places: seq<nat>, n: nat): (moved: seq<nat>)
    ensures |moved| == |places| && forall i | 0 <= i < |places| :: moved[i] == places[i] + n
  {
    seq(|places|, i requires 0 <= i < |places| => places[i] + n)
  }

  /** Where the data and check bytes of one received block stand in the stream. */
  ghost function BlockPlaces(version: nat, b: nat): seq<nat>
    requires 1 <= version <= 10 && b < BlockCount(version)
  {
    VersionTable(version);
    Positions(BlockSizes(version), b)
    + Shifted(Positions(Repeat(BlockCount(version), EcCount(version)), b), DataCodewords(version))
  }

  lemma ReadBlockPicks(version: nat, stream: seq<Byte>, b: nat)
    requires 1 <= version <= 10 && b < BlockCount(version) && |stream| == TotalCodewords(version)
    ensures Picks(ReadBlock(version, stream, b), stream, BlockPlaces(version, b))
  {
    VersionTable(version);
    var n, checks := DataCodewords(version), Repeat(BlockCount(version), EcCount(version));
    TotalRepeat([], BlockCount(version), EcCount(version));
    assert [] + checks == checks;
    hide Picks, Positions, Position, Repeat, BlockSizes, Deinterleave, Total, DataCodewords, EcCount, BlockCount;
    BlockPicks(BlockSizes(version), stream, b);
    BlockPicks(checks, stream[n..], b);
    PicksJoin(
      ReadDataBlocks(version, stream)[b], ReadCheckBlocks(version, stream)[b], stream, n,
      Positions(BlockSizes(version), b), Positions(checks, b));
  }

  /** A block differs in no more codewords than the streams. */
  lemma BlockDistance(version: nat, p: seq<Byte>, q: seq<Byte>, b: nat)
    requires 1 <= version <= 10 && b < BlockCount(version) && |p| == |q| == TotalCodewords(version)
    ensures |ReadBlock(version, p, b)| == |ReadBlock(version, q, b)|
    ensures Distance(ReadBlock(version, p, b), ReadBlock(version, q, b)) <= Distance(p, q)
  {
    hide Picks, ReadBlock, BlockPlaces, Distance;
    ReadBlockPicks(version, p, b);
    ReadBlockPicks(version, q, b);
    BlockLength(version, p, b);
    BlockLength(version, q, b);
    PickedDistance(ReadBlock(version, p, b), ReadBlock(version, q, b), p, q, BlockPlaces(version, b));
  }

  // -- From modules to codewords ------------------------------------------------------------------------

  /** In how many of the first bits two bit strings differ. */
  ghost function BitDistance(x: seq<bool>, y: seq<bool>): nat
    requires |x| == |y|
  {
    if |x| == 0 then 0
    else BitDistance(x[..|x| - 1], y[..|y| - 1]) + if x[|x| - 1] != y[|y| - 1] then 1 else 0
  }

  lemma {:induction false} BitDistanceFront(x: seq<bool>, y: seq<bool>, n: nat)
    requires |x| == |y| && n <= |x|
    ensures BitDistance(x[..n], y[..n]) <= BitDistance(x, y)
    ensures x[n..] != y[n..] ==> BitDistance(x[..n], y[..n]) < BitDistance(x, y)
  {
    if n < |x| {
      var m := |x| - 1;
      BitDistanceFront(x[..m], y[..m], n);
      assert x[..m][..n] == x[..n] && y[..m][..n] == y[..n];
      assert x[n..] == x[..m][n..] + [x[m]] && y[n..] == y[..m][n..] + [y[m]];
    } else {
      assert x[..n] == x && y[..n] == y;
    }
  }

  /** Packed into bytes, bit strings differ in no more bytes than bits. */
  lemma {:induction false} PackedDistance(x: seq<bool>, y: seq<bool>)
    requires |x| == |y| && |x| % 8 == 0
    ensures Distance(Pack(x), Pack(y)) <= BitDistance(x, y)
  {
    hide BitsByte;
    if |x| > 0 {
      var n := |x| - 8;
      PackedDistance(x[..n], y[..n]);
      BitDistanceFront(x, y, n);
      assert Pack(x)[..|Pack(x)| - 1] == Pack(x[..n]) && Pack(y)[..|Pack(y)| - 1] == Pack(y[..n]);
    }
  }

  ghost predicate FlippedAt(drawn: Grid, seen: Grid, reserved: Grid, size: nat, j: nat)
    requires Walkable(size) && Square(reserved, size) && Square(drawn, size) && Square(seen, size) && j < Steps(size)
  {
    IsFree(reserved, size, j) && At(drawn, size, WalkCell(size, j)) != At(seen, size, WalkCell(size, j))
  }

  /** The payload modules among the first k steps that differ in two drawings. */
  ghost function FlippedCells(drawn: Grid, seen: Grid, reserved: Grid, size: nat, k: nat): set<Cell>
    requires Walkable(size) && Square(reserved, size) && Square(drawn, size) && Square(seen, size) && k <= Steps(size)
  {
    set j: nat | j < k && FlippedAt(drawn, seen, reserved, size, j) :: WalkCell(size, j)
  }

  lemma FlippedMore(drawn: Grid, seen: Grid, reserved: Grid, size: nat, k: nat)
    requires Walkable(size) && Square(reserved, size) && Square(drawn, size) && Square(seen, size) && k < Steps(size)
    ensures var cells := FlippedCells(drawn, seen, reserved, size, k);
      && FlippedCells(drawn, seen, reserved, size, k + 1)
         == (if FlippedAt(drawn, seen, reserved, size, k) then cells + {WalkCell(size, k)} else cells)
      && WalkCell(size, k) !in cells
  {
    hide Steps, WalkCell, FlippedAt;
    if WalkCell(size, k) in FlippedCells(drawn, seen, reserved, size, k) {
      var j: nat :| j < k && WalkCell(size, j) == WalkCell(size, k);
      WalkInjective(size, j, k);
    }
  }

  /** The bits read along the walk differ exactly once for each flipped module. */
  lemma {:induction false} FlipsAreBits(drawn: Grid, seen: Grid, reserved: Grid, size: nat, k: nat)
    requires Walkable(size) && Square(reserved, size) && Square(drawn, size) && Square(seen, size) && k <= Steps(size)
    ensures |ReadBits(drawn, reserved, size, k)| == |ReadBits(seen, reserved, size, k)|
    ensures BitDistance(ReadBits(drawn, reserved, size, k), ReadBits(seen, reserved, size, k))
         == |FlippedCells(drawn, seen, reserved, size, k)|
  {
    assert k == 0 ==> FlippedCells(drawn, seen, reserved, size, k) == {};
    hide Steps, WalkCell, Masked, IsFree, FlippedCells, At;
    if k > 0 {
      FlipsAreBits(drawn, seen, reserved, size, k - 1);
      FlippedMore(drawn, seen, reserved, size, k - 1);
      var x, y := ReadBits(drawn, reserved, size, k - 1), ReadBits(seen, reserved, size, k - 1);
      if IsFree(reserved, size, k - 1) {
        var x1, y1 := ReadBits(drawn, reserved, size, k), ReadBits(seen, reserved, size, k);
        assert x1[..|x1| - 1] == x && y1[..|y1| - 1] == y;
      } else {
        assert ReadBits(drawn, reserved, size, k) == x && ReadBits(seen, reserved, size, k) == y;
      }
    }
  }

  /** The payload modules that differ in two drawings of one size. */
  ghost function Flipped(drawn: Grid, seen: Grid, version: nat): set<Cell>
    requires 1 <= version <= 10 && Square(drawn, SymbolSize(version)) && Square(seen, SymbolSize(version))
  {
    FlippedCells(drawn, seen, ReservedGrid(version), SymbolSize(version), Steps(SymbolSize(version)))
  }

  /** A drawing of a text's codewords at this version. */
  ghost predicate Shows(grid: Grid, version: nat, bytes: seq<Byte>)
    requires 1 <= version <= 10 && Fits(version, |bytes|)
  {
    && Square(grid, SymbolSize(version))
    && Placed(
         grid, ReservedGrid(version), SymbolSize(version), AllBits(Codewords(version,
             bytes)), Steps(SymbolSize(version)))
  }

  lemma {:induction false} ReadLength(grid: Grid, reserved: Grid, size: nat, k: nat)
    requires Walkable(size) && Square(reserved, size) && Square(grid, size) && k <= Steps(size)
    ensures |ReadBits(grid, reserved, size, k)| == Rank(reserved, size, k)
  {
    hide Steps, WalkCell, Masked, IsFree, At;
    if k > 0 { ReadLength(grid, reserved, size, k - 1); }
  }

  /** The payload bits of a symbol of this version, as far as its codewords reach. */
  ghost function BitsSeen(version: nat, grid: Grid): (bits: seq<bool>)
    requires 1 <= version <= 10 && Square(grid, SymbolSize(version))
    ensures |bits| == 8 * TotalCodewords(version)
  {
    hide ReservedGrid, ReadBits, Rank, Steps, TotalCodewords;
    var size := SymbolSize(version);
    RoomForEveryBit(version);
    ReadLength(grid, ReservedGrid(version), size, Steps(size));
    ReadBits(grid, ReservedGrid(version), size, Steps(size))[..8 * TotalCodewords(version)]
  }

  ghost function StreamSeen(version: nat, grid: Grid): (stream: seq<Byte>)
    requires 1 <= version <= 10 && Square(grid, SymbolSize(version))
    ensures |stream| == TotalCodewords(version)
  {
    Pack(BitsSeen(version, grid))
  }

  lemma ReadsTheSeen(version: nat, grid: Grid)
    requires 1 <= version <= 10 && Square(grid, SymbolSize(version))
    ensures SymbolShape(grid) && VersionOf(grid) == version
    ensures |ReadBits(grid, ReservedGrid(version), |grid|, Steps(|grid|))| >= 8 * TotalCodewords(version)
    ensures ReadStream(grid) == StreamSeen(version, grid)
  {
    hide ReservedGrid, ReadBits, Rank, Steps, TotalCodewords, Pack;
    var size := SymbolSize(version);
    RoomForEveryBit(version);
    ReadLength(grid, ReservedGrid(version), size, Steps(size));
  }

  lemma FlipsInBits(version: nat, drawn: Grid, seen: Grid)
    requires 1 <= version <= 10 && Square(drawn, SymbolSize(version)) && Square(seen, SymbolSize(version))
    ensures BitDistance(BitsSeen(version, drawn), BitsSeen(version, seen)) <= |Flipped(drawn, seen, version)|
  {
    hide ReservedGrid, ReadBits, Rank, Steps, TotalCodewords, FlippedCells;
    var size := SymbolSize(version);
    var x := ReadBits(drawn, ReservedGrid(version), size, Steps(size));
    var y := ReadBits(seen, ReservedGrid(version), size, Steps(size));
    FlipsAreBits(drawn, seen, ReservedGrid(version), size, Steps(size));
    RoomForEveryBit(version);
    ReadLength(drawn, ReservedGrid(version), size, Steps(size));
    BitDistanceFront(x, y, 8 * TotalCodewords(version));
  }

  /** How many codewords read from a symbol are not those of the text. */
  ghost function Spoiled(version: nat, bytes: seq<Byte>, seen: Grid): nat
    requires 1 <= version <= 10 && Fits(version, |bytes|) && Square(seen, SymbolSize(version))
  {
    Distance(Codewords(version, bytes), StreamSeen(version, seen))
  }

  /** Each flipped module spoils at most one of the codewords that are read. */
  lemma SpoiledCodewords(version: nat, bytes: seq<Byte>, drawn: Grid, seen: Grid)
    requires 1 <= version <= 10 && Fits(version, |bytes|) && Shows(drawn, version, bytes)
    requires Square(seen, SymbolSize(version))
    ensures Spoiled(version, bytes, seen) <= |Flipped(drawn, seen, version)|
  {
    hide AllBits, ReservedGrid, ReadBits, TotalCodewords, Steps, Pack, Placed, Codewords, Flipped, Distance, Fits,
        BitsSeen;
    ReadsTheSeen(version, drawn);
    ReadStreamBack(drawn, version, Codewords(version, bytes));
    FlipsInBits(version, drawn, seen);
    PackedDistance(BitsSeen(version, drawn), BitsSeen(version, seen));
  }

  /**
   * A damaged symbol in which no more payload modules are flipped than half the check bytes of a block can come from
   * one text only: two texts whose symbols of this version are both that close to it are the same.
   */
  lemma SymbolTolerance(version: nat, a: seq<Byte>, b: seq<Byte>, drawnA: Grid, drawnB: Grid, seen: Grid)
    requires 1 <= version <= 10 && Fits(version, |a|) && Fits(version, |b|)
    requires Shows(drawnA, version, a) && Shows(drawnB, version, b) && Square(seen, SymbolSize(version))
    requires 2 * |Flipped(drawnA, seen, version)| <= EcCount(version)
    requires 2 * |Flipped(drawnB, seen, version)| <= EcCount(version)
    ensures a == b
  {
    hide Flipped, Codewords, ReadBlock, Distance, Fits, TotalCodewords, EcCount, BlockCount, Shows, StreamSeen,
        Readable;
    var stream := StreamSeen(version, seen);
    SpoiledCodewords(version, a, drawnA, seen);
    SpoiledCodewords(version, b, drawnB, seen);
    CloseIsReadable(version, a, stream);
    CloseIsReadable(version, b, stream);
    DamageTolerance(version, a, b, stream);
  }

  lemma CloseIsReadable(version: nat, bytes: seq<Byte>, seen: seq<Byte>)
    requires 1 <= version <= 10 && Fits(version, |bytes|) && |seen| == TotalCodewords(version)
    requires 2 * Distance(Codewords(version, bytes), seen) <= EcCount(version)
    ensures Readable(version, bytes, seen)
  {
    hide Codewords, ReadBlock, Distance, TotalCodewords, EcCount, BlockCount, Fits;
    forall k | 0 <= k < BlockCount(version)
      ensures |ReadBlock(version, Codewords(version, bytes), k)| == |ReadBlock(version, seen, k)|
      ensures 2 * Distance(ReadBlock(version, Codewords(version, bytes), k), ReadBlock(version, seen,
          k)) <= EcCount(version)
    {
      BlockDistance(version, Codewords(version, bytes), seen, k);
    }
  }
}
