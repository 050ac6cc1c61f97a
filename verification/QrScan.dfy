/** What is drawn is what the standard's scanner reads: text, check codewords, padding and patterns. */
module QrScan {
  import opened Wrappers
  import opened Galois
  import opened ReedSolomon
  import opened QrBits
  import opened QrBlocks
  import opened QrEncode
  import opened QrWalk
  import opened QrLayout
  import opened QrMatrix
  import S = QrScanner

  // -- The modules without data -------------------------------------------------------------

  lemma CentredCases(version: nat, i: int, j: int)
    requires 1 <= version <= 10
    ensures var last, mid := 10 + 4 * version, 8 + 2 * version;
      S.Centred(version, i, j) <==>
        version > 1
        && ((i == last && j == last)
            || (version >= 7 && ((i == 6 && j == mid) || (i == mid && j == 6) || (i == mid && j == mid)
                                 || (i == mid && j == last) || (i == last && j == mid))))
  {
    var centres := S.Centres(version);
    assert |centres| == if version == 1 then 0 else if version < 7 then 2 else 3;
    assert version > 1 ==> centres[0] == 6 && centres[|centres| - 1] == 10 + 4 * version;
    assert version >= 7 ==> centres[1] == 8 + 2 * version;
  }

  lemma AlignsCases(version: nat, r: nat, c: nat)
    requires 1 <= version <= 10
    ensures S.Aligns(version, r, c) <==> Aligned(Centres(version), |Centres(version)|, r, c)
  {
    var last, mid := 10 + 4 * version, 8 + 2 * version;
    AlignedCases(version, r, c);
    hide Aligned, Centres;
    forall i, j ensures
      S.Centred(version, i, j) <==>
        version > 1
        && ((i == last && j == last)
            || (version >= 7 && ((i == 6 && j == mid) || (i == mid && j == 6) || (i == mid && j == mid)
                                 || (i == mid && j == last) || (i == last && j == mid))))
    {
      CentredCases(version, i, j);
    }
    hide S.Centred;
    if version > 1 {
      assert S.Centred(version, last, last);
      if version >= 7 {
        assert S.Centred(version, 6, mid) && S.Centred(version, mid, 6) && S.Centred(version, mid, mid);
        assert S.Centred(version, mid, last) && S.Centred(version, last, mid);
      }
    }
  }

  lemma FunctionalIsReserved(version: nat, r: nat, c: nat)
    requires 1 <= version <= 10 && r < SymbolSize(version) && c < SymbolSize(version)
    ensures S.Functional(version, r, c) <==> IsReserved(version, r, c)
  {
    AlignsCases(version, r, c);
    hide S.Aligns, Aligned, Centres;
  }

  // -- Along the zigzag ------------------------------------------------------------------------

  lemma BitRead(grid: Grid, version: nat, k: nat)
    requires 1 <= version <= 10 && S.Shaped(grid, version) && k < Steps(|grid|)
    ensures var size := |grid|; var cell := WalkCell(size, k);
      ReadBits(grid, ReservedGrid(version), size, k + 1)
      == ReadBits(grid, ReservedGrid(version), size, k) + S.Bit(grid, version, 0, cell.row, cell.col)
  {
    var size, reserved := |grid|, ReservedGrid(version);
    var cell := WalkCell(size, k);
    ReadsOn(grid, reserved, size, k);
    ReservedAt(version, cell);
    CellBit(grid, version, cell.row, cell.col);
    hide *;
  }

  lemma ReadsOn(grid: Grid, reserved: Grid, size: nat, k: nat)
    requires Walkable(size) && Square(reserved, size) && Square(grid, size) && k < Steps(size)
    ensures var cell := WalkCell(size, k);
      ReadBits(grid, reserved, size, k + 1)
      == ReadBits(grid, reserved, size, k)
         + if reserved[cell.row][cell.col] then [] else [grid[cell.row][cell.col] != ((cell.row + cell.col) % 2 == 0)]
  {
    hide WalkCell, Steps;
  }

  lemma CellBit(grid: Grid, version: nat, r: nat, c: nat)
    requires 1 <= version <= 10 && S.Shaped(grid, version) && r < |grid| && c < |grid|
    ensures S.Bit(grid, version, 0, r, c)
         == if IsReserved(version, r, c) then [] else [grid[r][c] != ((r + c) % 2 == 0)]
  {
    FunctionalIsReserved(version, r, c);
    hide IsReserved, S.Functional;
  }

  lemma ReservedAt(version: nat, cell: Cell)
    requires 1 <= version <= 10 && cell.row < SymbolSize(version) && cell.col < SymbolSize(version)
    ensures ReservedGrid(version)[cell.row][cell.col] == IsReserved(version, cell.row, cell.col)
  {
    ReservedGridAt(version);
  }

  lemma {:induction false} TwoColumnsRead(grid: Grid, version: nat, p: nat, n: nat)
    requires 1 <= version <= 10 && S.Shaped(grid, version) && p < (|grid| - 1) / 2 && n <= |grid|
    ensures var size := |grid|; var reserved := ReservedGrid(version);
      && 1 <= PairColumn(size, p) < size && StepOf(size, p, n, 0) <= Steps(size) && StepOf(size, p, 0, 0) <= Steps(size)
      && ReadBits(grid, reserved, size, StepOf(size, p, n, 0))
         == ReadBits(grid, reserved, size, StepOf(size, p, 0, 0))
            + S.TwoColumns(grid, version, 0, PairColumn(size, p), p % 2 == 0, n)
  {
    hide S.Bit, ReadBits, WalkCell, Steps, StepOf, ReservedGrid;
    var size := |grid|;
    if n > 0 {
      TwoColumnsRead(grid, version, p, n - 1);
      StepVisits(size, p, n - 1, 0);
      StepVisits(size, p, n - 1, 1);
      RowEnds(size, p, n - 1);
      var k := StepOf(size, p, n - 1, 0);
      BitRead(grid, version, k);
      BitRead(grid, version, k + 1);
    } else {
      StepVisits(size, p, 0, 0);
    }
  }

  lemma {:induction false} ZigzagRead(grid: Grid, version: nat, p: nat, x: int)
    requires 1 <= version <= 10 && S.Shaped(grid, version) && p <= (|grid| - 1) / 2
    requires x == if |grid| - 1 - 2 * p >= 6 then |grid| - 1 - 2 * p else |grid| - 2 - 2 * p
    ensures var size := |grid|; var reserved := ReservedGrid(version);
      && StepOf(size, p, 0, 0) <= Steps(size)
      && ReadBits(grid, reserved, size, Steps(size))
         == ReadBits(grid, reserved, size, StepOf(size, p, 0, 0)) + S.Zigzag(grid, version, 0, x, p % 2 == 0)
    decreases |grid| - p
  {
    hide S.TwoColumns, S.Zigzag, ReadBits, WalkCell, Steps, StepOf, ReservedGrid, PairColumn;
    var size, reserved := |grid|, ReservedGrid(version);
    ZigzagStep(grid, version, x, p % 2 == 0);
    if p == (size - 1) / 2 {
      WalkEnds(size, p);
    } else {
      var next := if x == 6 then 3 else x - 2;
      NextColumns(size, p, x);
      TwoColumnsRead(grid, version, p, size);
      PairEnds(size, p);
      ZigzagRead(grid, version, p + 1, next);
      ThreeJoin(
        ReadBits(grid, reserved, size, StepOf(size, p, 0, 0)),
        S.TwoColumns(grid, version, 0, next + 2, p % 2 == 0, size), S.Zigzag(grid, version, 0, next, p % 2 != 0));
    }
  }

  lemma NextColumns(size: nat, p: nat, x: int)
    requires Walkable(size) && p < (size - 1) / 2
    requires x == if size - 1 - 2 * p >= 6 then size - 1 - 2 * p else size - 2 - 2 * p
    ensures var next := if x == 6 then 3 else x - 2;
      && x > 0 && PairColumn(size, p) == next + 2 && ((p + 1) % 2 == 0 <==> p % 2 != 0)
      && next == if size - 3 - 2 * p >= 6 then size - 3 - 2 * p else size - 4 - 2 * p
  {
  }

  lemma ZigzagStep(grid: Grid, version: nat, x: int, upward: bool)
    requires 1 <= version <= 10 && S.Shaped(grid, version) && x < |grid|
    ensures var next := if x == 6 then 3 else x - 2;
      S.Zigzag(grid, version, 0, x, upward)
      == if x <= 0 then []
         else S.TwoColumns(grid, version, 0, next + 2, upward, |grid|) + S.Zigzag(grid, version, 0, next, !upward)
  {
    hide S.TwoColumns;
  }

  lemma ThreeJoin(a: seq<bool>, b: seq<bool>, c: seq<bool>)
    ensures (a + b) + c == a + (b + c)
  {
  }

  lemma ZigzagReads(grid: Grid, version: nat)
    requires 1 <= version <= 10 && S.Shaped(grid, version)
    ensures S.Zigzag(grid, version, 0, |grid| - 1, true)
         == ReadBits(grid, ReservedGrid(version), |grid|, Steps(|grid|))
  {
    hide S.Zigzag, ReadBits, ReservedGrid, Steps, StepOf, Rank;
    var size, reserved := |grid|, ReservedGrid(version);
    ZigzagRead(grid, version, 0, size - 1);
    RankStart(reserved, size);
    NothingRead(grid, reserved, size);
    hide *;
    NothingFirst(ReadBits(grid, reserved, size, 0), S.Zigzag(grid, version, 0, size - 1, true));
  }

  lemma NothingRead(grid: Grid, reserved: Grid, size: nat)
    requires Walkable(size) && Square(reserved, size) && Square(grid, size) && 0 <= Steps(size)
    ensures ReadBits(grid, reserved, size, 0) == []
  {
  }

  lemma NothingFirst(a: seq<bool>, b: seq<bool>)
    ensures a == [] ==> a + b == b
  {
  }

  // -- Format and mask ----------------------------------------------------------------------------

  /** Each number is half of the one before it. */
  ghost predicate Halved(table: seq<nat>) {
    forall k | 0 <= k < |table| - 1 :: table[k + 1] == table[k] / 2
  }

  lemma {:induction false} Halving(table: seq<nat>, j: nat, i: nat)
    requires Halved(table) && j + i < |table|
    ensures ShiftRight(table[j], i) == table[j + i]
    decreases i
  {
    if i > 0 { Halving(table, j + 1, i - 1); }
  }

  lemma FormatShows(i: nat)
    requires i < 15
    ensures FormatBit(i) == (S.FORMAT_XOR[i] == '1')
  {
    var table: seq<nat> := [21522, 10761, 5380, 2690, 1345, 672, 336, 168, 84, 42, 21, 10, 5, 2, 1];
    Halving(table, 0, 14 - i);
  }

  lemma {:induction false} NoRemainder(bits: seq<bool>)
    requires |bits| >= 10 && true !in bits
    ensures true !in S.Remainder(bits)
    decreases |bits|
  {
    if |bits| > 10 {
      NoRemainder(seq(|bits| - 1, j requires 0 <= j < |bits| - 1 =>
        bits[j + 1] != (bits[0] && j < 10 && S.FORMAT_GENERATOR[j + 1] == '1')));
    }
  }

  lemma {:induction false} NoWeight(bits: seq<bool>)
    requires true !in bits
    ensures S.Weigh(bits) == 0
  {
    if |bits| > 0 { NoWeight(bits[..|bits| - 1]); }
  }

  lemma FormatReadAs(bits: seq<bool>)
    requires |bits| == 15 && forall i | 0 <= i < 15 :: bits[i] == FormatBit(i)
    ensures S.Format(bits) == Some((0, 0))
  {
    forall i | 0 <= i < 15 ensures !S.Unmasked(bits)[i] { FormatShows(i); }
    hide FormatBit;
    var word := S.Unmasked(bits);
    NoRemainder(word);
    NoWeight(word[..2]);
    NoWeight(word[2..5]);
  }

  /** Both copies say level M and mask 0. */
  lemma FormatScans(grid: Grid, version: nat)
    requires 1 <= version <= 10 && S.Shaped(grid, version) && FormatReads(grid, |grid|)
    ensures S.Format(S.Corner(grid, version)) == Some((0, 0)) == S.Format(S.Edge(grid, version))
  {
    hide FormatBit, S.Format;
    forall i | 0 <= i < 15
      ensures S.Corner(grid, version)[i] == FormatBit(i) && S.Edge(grid, version)[i] == FormatBit(i)
    {
      assert At(grid, |grid|, FirstCopy(i)) == FormatBit(i) && At(grid, |grid|, SecondCopy(|grid|, i)) == FormatBit(i);
    }
    FormatReadAs(S.Corner(grid, version));
    FormatReadAs(S.Edge(grid, version));
  }

  // -- Codewords ------------------------------------------------------------------------------------

  lemma {:induction false} WeighIsNumber(bits: seq<bool>)
    ensures S.Weigh(bits) == Number(bits)
  {
    if |bits| > 0 { WeighIsNumber(bits[..|bits| - 1]); }
  }

  function Cut(s: seq<bool>, at: nat, n: nat): (cut: seq<bool>)
    requires at + n <= |s|
    ensures |cut| == n
  {
    s[at..at + n]
  }

  lemma CutOfCut(s: seq<bool>, a: nat, n: nat, b: nat, m: nat)
    requires a + n <= |s| && b + m <= n
    ensures Cut(Cut(s, a, n), b, m) == Cut(s, a + b, m)
  {
    var inner := s[a..a + n];
    var cut, whole := inner[b..b + m], s[a + b..a + b + m];
    forall i | 0 <= i < m ensures cut[i] == whole[i] {
      assert inner[b + i] == s[a + (b + i)];
    }
  }

  lemma CutOfFront(front: seq<bool>, s: seq<bool>, a: nat, n: nat)
    requires front <= s && a + n <= |front|
    ensures Cut(s, a, n) == Cut(front, a, n)
  {
    var rest := s[|front|..];
    assert s == front + rest;
    assert (front + rest)[a..a + n] == front[a..a + n];
  }

  lemma CutIsByte(bytes: seq<Byte>, q: nat)
    requires q < |bytes|
    ensures Cut(AllBits(bytes), 8 * q, 8) == Bits(S.Values(bytes)[q], 8)
  {
    hide AllBits, Bits;
    var cut := Cut(AllBits(bytes), 8 * q, 8);
    forall r | 0 <= r < 8 ensures cut[r] == ByteBits(bytes[q])[r] {
      AllBitsAt(bytes, q, r);
    }
  }

  lemma WordRead(bits: seq<bool>, codewords: seq<Byte>, k: nat)
    requires AllBits(codewords) <= bits && k < |codewords|
    ensures S.Word(bits, k) == S.Values(codewords)[k]
  {
    assert S.Word(bits, k) == S.Weigh(Cut(bits, 8 * k, 8));
    PowEight();
    hide AllBits, Bits, Number, S.Weigh, Cut, S.Word, Pow2;
    CutIsByte(codewords, k);
    CutOfFront(AllBits(codewords), bits, 8 * k, 8);
    var value := S.Values(codewords)[k];
    hide S.Values;
    WeighIsNumber(Bits(value, 8));
    NumberOfBits(value, 8);
  }

  lemma PowEight()
    ensures Pow2(8) == 256
  {
  }

  lemma PlanAgrees(version: nat)
    requires 1 <= version <= 10
    ensures S.Capacity(version) == (TotalCodewords(version), DataCodewords(version))
    ensures S.PlanOf(version).blocks == BlockCount(version) && S.PlanOf(version).checks == EcCount(version)
  {
  }

  lemma BitsScan(grid: Grid, version: nat, codewords: seq<Byte>)
    requires 1 <= version <= 10 && S.Shaped(grid, version)
    requires |codewords| == TotalCodewords(version)
    requires Placed(grid, ReservedGrid(version), |grid|, AllBits(codewords), Steps(|grid|))
    ensures AllBits(codewords) <= S.Zigzag(grid, version, 0, |grid| - 1, true)
  {
    ZigzagReads(grid, version);
    ReadPlaced(grid, ReservedGrid(version), |grid|, AllBits(codewords), Steps(|grid|));
    RoomForEveryBit(version);
    var read, stream := ReadBits(grid, ReservedGrid(version), |grid|, Steps(|grid|)), AllBits(codewords);
    assert |read| >= |stream| && forall i | 0 <= i < |read| :: read[i] == StreamBit(stream, i) by {
      hide ReservedGrid, AllBits, ReadBits, TotalCodewords, Steps, Placed, S.Zigzag, Rank;
    }
    hide *;
    StreamIsRead(stream, read);
  }

  lemma StreamIsRead(stream: seq<bool>, read: seq<bool>)
    requires |read| >= |stream| && forall i | 0 <= i < |read| :: read[i] == StreamBit(stream, i)
    ensures stream <= read
  {
  }

  lemma WordsScan(bits: seq<bool>, codewords: seq<Byte>)
    requires AllBits(codewords) <= bits
    ensures S.Words(bits, |codewords|) == S.Values(codewords)
  {
    hide AllBits, S.Word;
    forall k | 0 <= k < |codewords| ensures S.Words(bits, |codewords|)[k] == S.Values(codewords)[k] {
      WordRead(bits, codewords, k);
    }
  }

  /** The scanner reads every codeword that was placed. */
  lemma CodewordsScan(grid: Grid, version: nat, codewords: seq<Byte>)
    requires 1 <= version <= 10 && S.Shaped(grid, version) && FormatReads(grid, |grid|)
    requires |codewords| == TotalCodewords(version)
    requires Placed(grid, ReservedGrid(version), |grid|, AllBits(codewords), Steps(|grid|))
    ensures S.Codewords(grid, version) == Some(S.Values(codewords))
  {
    PlanAgrees(version);
    FormatScans(grid, version);
    BitsScan(grid, version, codewords);
    WordsScan(S.Zigzag(grid, version, 0, |grid| - 1, true), codewords);
    hide FormatReads, ReservedGrid, AllBits, TotalCodewords, DataCodewords, Steps, Placed, S.Zigzag, S.Words, S.Format,
        S.Capacity, S.Values;
  }

  // -- Blocks -----------------------------------------------------------------------------------------

  /** The first `short` blocks have `size` elements, the others one more. */
  ghost predicate TwoSizes(sizes: seq<nat>, short: nat, size: nat) {
    forall b | 0 <= b < |sizes| :: sizes[b] == if b < short then size else size + 1
  }

  lemma {:induction false} CountInTwo(sizes: seq<nat>, short: nat, size: nat, i: nat, b: nat)
    requires TwoSizes(sizes, short, size) && b <= |sizes| && i <= size
    ensures CountLonger(sizes, i, b) == if i < size then b else if b < short then 0 else b - short
  {
    if b > 0 { CountInTwo(sizes, short, size, i, b - 1); }
  }

  lemma {:induction false} BeforeInTwo(sizes: seq<nat>, short: nat, size: nat, i: nat)
    requires TwoSizes(sizes, short, size) && i <= size
    ensures Before(sizes, i) == i * |sizes|
  {
    hide CountLonger;
    if i > 0 {
      BeforeInTwo(sizes, short, size, i - 1);
      CountInTwo(sizes, short, size, i - 1, |sizes|);
      assert i * |sizes| == (i - 1) * |sizes| + |sizes|;
    }
  }

  lemma SizesOfOne(g: Group)
    ensures GroupSizes([g]) == Repeat(g.count, g.size)
  {
    assert [g][..0] == [];
    hide Repeat;
    assert [] + Repeat(g.count, g.size) == Repeat(g.count, g.size);
  }

  lemma SizesOfTwo(g: Group, h: Group)
    ensures GroupSizes([g, h]) == Repeat(g.count, g.size) + Repeat(h.count, h.size)
  {
    SizesOfOne(g);
    hide Repeat;
    assert [g, h][..1] == [g];
  }

  lemma RepeatTwice(short: nat, long: nat, size: nat)
    ensures TwoSizes(Repeat(short, size) + Repeat(long, size + 1), short, size)
  {
    hide Repeat;
    var sizes := Repeat(short, size) + Repeat(long, size + 1);
    forall b | 0 <= b < |sizes| ensures sizes[b] == if b < short then size else size + 1 {
      if b < short { RepeatAt(short, size, b); } else { RepeatAt(long, size + 1, b - short); }
    }
  }

  lemma PlanGroups(version: nat)
    requires 1 <= version <= 10
    ensures var plan := S.PlanOf(version);
      Groups(version) == if plan.short == plan.blocks then [Group(plan.short, plan.size)]
                         else [Group(plan.short, plan.size), Group(plan.blocks - plan.short, plan.size + 1)]
  {
  }

  lemma RepeatNone(n: nat, size: nat)
    ensures Repeat(n, size) + Repeat(0, size + 1) == Repeat(n, size) && |Repeat(n, size)| == n
  {
  }

  lemma BlockSizesAre(version: nat)
    requires 1 <= version <= 10
    ensures |BlockSizes(version)| == S.PlanOf(version).blocks
    ensures TwoSizes(BlockSizes(version), S.PlanOf(version).short, S.PlanOf(version).size)
  {
    PlanGroups(version);
    var plan := S.PlanOf(version);
    var short, long, size := plan.short, plan.blocks - plan.short, plan.size;
    hide S.PlanOf, Groups, GroupSizes, Repeat, TwoSizes;
    RepeatTwice(short, long, size);
    RepeatNone(short, size);
    RepeatNone(long, size + 1);
    if long == 0 {
      SizesOfOne(Group(short, size));
    } else {
      SizesOfTwo(Group(short, size), Group(long, size + 1));
    }
  }

  lemma PositionScan(version: nat, b: nat, i: nat)
    requires 1 <= version <= 10 && b < S.PlanOf(version).blocks && i < S.BlockLength(S.PlanOf(version), b)
    ensures |BlockSizes(version)| == S.PlanOf(version).blocks
    ensures Position(BlockSizes(version), b, i) == S.DataPlace(S.PlanOf(version), b, i)
  {
    BlockSizesAre(version);
    var plan := S.PlanOf(version);
    hide S.PlanOf, BlockSizes, Before, CountLonger;
    BeforeInTwo(BlockSizes(version), plan.short, plan.size, i);
    CountInTwo(BlockSizes(version), plan.short, plan.size, i, b);
  }

  lemma DeinterleavedAt(sizes: seq<nat>, stream: seq<Byte>, b: nat, i: nat)
    requires Total(sizes) <= |stream| && b < |sizes| && i < sizes[b]
    ensures |Deinterleave(sizes, stream)[b]| == sizes[b] && Position(sizes, b, i) < |stream|
    ensures Deinterleave(sizes, stream)[b][i] == stream[Position(sizes, b, i)]
  {
    PositionInRange(sizes, b, i);
    hide Position, Total;
  }

  lemma DataScan(version: nat, stream: seq<Byte>, b: nat)
    requires 1 <= version <= 10 && |stream| == TotalCodewords(version) && b < BlockCount(version)
    ensures |S.Values(stream)| == S.Capacity(version).0 && b < S.PlanOf(version).blocks
    ensures S.BlockData(version, S.Values(stream), b) == S.Values(ReadDataBlocks(version, stream)[b])
  {
    PlanAgrees(version);
    BlockSizesAre(version);
    VersionTable(version);
    var plan, sizes, block := S.PlanOf(version), BlockSizes(version), ReadDataBlocks(version, stream)[b];
    DeinterleavedAt(sizes, stream, b, 0);
    hide S.PlanOf, BlockSizes, Position, Total, TotalCodewords, S.DataPlace, BlockCount, GroupTotal, Deinterleave,
        DataCodewords, S.Capacity;
    forall i | 0 <= i < |block| ensures S.BlockData(version, S.Values(stream), b)[i] == block[i] as nat {
      PositionScan(version, b, i);
      DeinterleavedAt(sizes, stream, b, i);
    }
  }

  lemma CheckReceived(version: nat, stream: seq<Byte>, b: nat, i: nat)
    requires 1 <= version <= 10 && |stream| == TotalCodewords(version) && b < BlockCount(version)
    requires i < EcCount(version)
    ensures |ReadCheckBlocks(version, stream)[b]| == EcCount(version)
    ensures 0 <= DataCodewords(version) + (i * BlockCount(version) + b) < |stream|
    ensures ReadCheckBlocks(version, stream)[b][i] == stream[DataCodewords(version) + (i * BlockCount(version) + b)]
  {
    hide BlockCount, EcCount, DataCodewords;
    var n, ec, data := BlockCount(version), EcCount(version), DataCodewords(version);
    EvenBlocks(n, ec);
    assert ReadCheckBlocks(version, stream) == Deinterleave(Repeat(n, ec), stream[data..]);
    hide *;
    CheckAt(n, ec, data, stream, b, i);
  }

  lemma EvenBlocks(n: nat, ec: nat)
    ensures |Repeat(n, ec)| == n && Total(Repeat(n, ec)) == n * ec
  {
    hide Total, Repeat;
    TotalRepeat([], n, ec);
    assert [] + Repeat(n, ec) == Repeat(n, ec);
    NothingTotal();
  }

  lemma NothingTotal()
    ensures Total([]) == 0
  {
  }

  /** Check byte i of block b, where all blocks have as many. */
  lemma CheckAt(n: nat, ec: nat, data: nat, stream: seq<Byte>, b: nat, i: nat)
    requires |stream| == data + n * ec && b < n && i < ec
    ensures |Repeat(n, ec)| == n && Total(Repeat(n, ec)) <= |stream[data..]|
    ensures |Deinterleave(Repeat(n, ec), stream[data..])[b]| == ec && 0 <= data + (i * n + b) < |stream|
    ensures Deinterleave(Repeat(n, ec), stream[data..])[b][i] == stream[data + (i * n + b)]
  {
    hide *;
    EvenBlocks(n, ec);
    RepeatAt(n, ec, b);
    CheckPosition(n, ec, b, i);
    DeinterleavedAt(Repeat(n, ec), stream[data..], b, i);
  }

  lemma CheckRead(version: nat, words: seq<nat>, b: nat, i: nat)
    requires 1 <= version <= 10 && |words| == S.Capacity(version).0 && b < S.PlanOf(version).blocks
    requires i < S.PlanOf(version).checks
    ensures 0 <= S.Capacity(version).1 + (i * S.PlanOf(version).blocks + b) < |words|
    ensures S.BlockChecks(version, words, b)[i] == words[S.Capacity(version).1 + (i * S.PlanOf(version).blocks + b)]
  {
    S.ChecksFit(version, b, i);
    hide S.PlanOf, S.Capacity;
  }

  lemma ChecksScan(version: nat, stream: seq<Byte>, b: nat)
    requires 1 <= version <= 10 && |stream| == TotalCodewords(version) && b < BlockCount(version)
    ensures |S.Values(stream)| == S.Capacity(version).0 && b < S.PlanOf(version).blocks
    ensures S.BlockChecks(version, S.Values(stream), b) == S.Values(ReadCheckBlocks(version, stream)[b])
  {
    PlanAgrees(version);
    assert EcCount(version) > 0;
    CheckReceived(version, stream, b, 0);
    hide S.PlanOf, TotalCodewords, BlockCount, EcCount, DataCodewords, S.Capacity, S.BlockChecks, ReadCheckBlocks;
    var block := ReadCheckBlocks(version, stream)[b];
    forall i | 0 <= i < |block| ensures S.BlockChecks(version, S.Values(stream), b)[i] == block[i] as nat {
      OneCheck(version, stream, b, i);
    }
  }

  lemma OneCheck(version: nat, stream: seq<Byte>, b: nat, i: nat)
    requires 1 <= version <= 10 && |stream| == TotalCodewords(version) && b < BlockCount(version)
    requires i < EcCount(version)
    ensures |ReadCheckBlocks(version, stream)[b]| == EcCount(version)
    ensures |S.Values(stream)| == S.Capacity(version).0 && b < S.PlanOf(version).blocks
    ensures i < |S.BlockChecks(version, S.Values(stream), b)|
    ensures S.BlockChecks(version, S.Values(stream), b)[i] == ReadCheckBlocks(version, stream)[b][i] as nat
  {
    PlanAgrees(version);
    hide S.PlanOf, TotalCodewords, BlockCount, EcCount, DataCodewords, S.Capacity, S.BlockChecks, ReadCheckBlocks;
    CheckReceived(version, stream, b, i);
    CheckRead(version, S.Values(stream), b, i);
  }

  lemma CheckPosition(n: nat, ec: nat, b: nat, i: nat)
    requires b < n && i < ec
    ensures Position(Repeat(n, ec), b, i) == i * n + b
  {
    hide Repeat, Before, CountLonger;
    var sizes := Repeat(n, ec);
    forall k | 0 <= k < |sizes| ensures sizes[k] == ec { RepeatAt(n, ec, k); }
    BeforeInTwo(sizes, n, ec, i);
    CountInTwo(sizes, n, ec, i, b);
  }

  lemma {:induction false} JoinScan(version: nat, stream: seq<Byte>, n: nat)
    requires 1 <= version <= 10 && |stream| == TotalCodewords(version) && n <= BlockCount(version)
    ensures |S.Values(stream)| == S.Capacity(version).0 && n <= S.PlanOf(version).blocks
    ensures S.Data(version, S.Values(stream), n) == S.Values(Join(ReadDataBlocks(version, stream)[..n]))
  {
    PlanAgrees(version);
    hide S.PlanOf, S.BlockData, ReadDataBlocks, BlockCount, TotalCodewords, S.Capacity;
    var blocks := ReadDataBlocks(version, stream);
    if n > 0 {
      JoinScan(version, stream, n - 1);
      DataScan(version, stream, n - 1);
      assert blocks[..n][..n - 1] == blocks[..n - 1];
      ValuesJoin(Join(blocks[..n - 1]), blocks[n - 1]);
    }
  }

  lemma ValuesJoin(a: seq<Byte>, b: seq<Byte>)
    ensures S.Values(a + b) == S.Values(a) + S.Values(b)
  {
  }

  lemma BlocksJoin(version: nat, bytes: seq<Byte>)
    requires 1 <= version <= 10 && Fits(version, |bytes|)
    ensures var blocks := ReadDataBlocks(version, Codewords(version, bytes));
      |blocks| == BlockCount(version) && Join(blocks) == DataWords(version, bytes)
  {
    ReadBlocksBack(version, bytes);
    VersionTable(version);
    hide Codewords, DataWords, ReadDataBlocks, BlockCount, TotalCodewords, Fits, BlockSizes, Split, Join, DataCodewords,
        Total, GroupTotal, EcCount;
    JoinSplit(BlockSizes(version), DataWords(version, bytes));
    assert DataWords(version, bytes)[..DataCodewords(version)] == DataWords(version, bytes);
  }

  /** The scanner puts the data codewords of the text together again. */
  lemma DataWordsScan(version: nat, bytes: seq<Byte>)
    requires 1 <= version <= 10 && Fits(version, |bytes|)
    ensures |S.Values(Codewords(version, bytes))| == S.Capacity(version).0
    ensures S.Data(version, S.Values(Codewords(version, bytes)), S.PlanOf(version).blocks)
         == S.Values(DataWords(version, bytes))
  {
    hide *;
    PlanAgrees(version);
    BlocksJoin(version, bytes);
    var n := BlockCount(version);
    JoinScan(version, Codewords(version, bytes), n);
    var blocks := ReadDataBlocks(version, Codewords(version, bytes));
    assert blocks[..n] == blocks;
  }

  // -- Text ---------------------------------------------------------------------------------------------

  /** The upper and the lower bits of a number. */
  lemma {:induction false} BitsSplit(high: nat, low: nat, a: nat, b: nat)
    requires low < Pow2(b)
    ensures Bits(high * Pow2(b) + low, a + b) == Bits(high, a) + Bits(low, b)
    decreases b
  {
    var value := high * Pow2(b) + low;
    if b == 0 {
      assert Pow2(0) == 1;
      assert Bits(high, a) + [] == Bits(high, a);
    } else {
      BitsSplit(high, low / 2, a, b - 1);
      HalfOfParts(high, low, Pow2(b - 1));
      assert Bits(value, a + b) == Bits(value / 2, a + (b - 1)) + [value % 2 == 1];
    }
  }

  lemma HalfOfParts(high: nat, low: nat, p: nat)
    ensures (high * (2 * p) + low) / 2 == high * p + low / 2 && (high * (2 * p) + low) % 2 == low % 2
  {
    var m := high * p;
    assert high * (2 * p) == 2 * m;
  }

  lemma PowsUsed()
    ensures Pow2(4) == 16 && Pow2(8) == 256 && Pow2(16) == 65536
  {
    assert Pow2(4) == 16;
    assert Pow2(8) == 256;
    assert Pow2(12) == 4096;
  }

  lemma NumberNibbles(value: nat)
    requires value < 256
    ensures Number(Cut(Bits(value, 8), 0, 4)) == value / 16 && Number(Cut(Bits(value, 8), 4, 4)) == value % 16
  {
    var high, low := value / 16, value % 16;
    PowsUsed();
    BitsSplit(high, low, 4, 4);
    NumberOfBits(high, 4);
    NumberOfBits(low, 4);
    hide Bits, Number, Pow2;
    assert Cut(Bits(high, 4) + Bits(low, 4), 0, 4) == Bits(high, 4);
    assert Cut(Bits(high, 4) + Bits(low, 4), 4, 4) == Bits(low, 4);
  }

  lemma HalfIs(values: seq<nat>, q: nat)
    requires q < |values|
    ensures 2 * q / 2 < |values| && (2 * q + 1) / 2 < |values|
    ensures S.Half(values, 2 * q) == values[q] / 16 && S.Half(values, 2 * q + 1) == values[q] % 16
  {
  }

  lemma HalvesAt(data: seq<Byte>, q: nat)
    requires q < |data|
    ensures S.Values(data)[q] / 16 == Number(Cut(AllBits(data), 8 * q, 4))
    ensures S.Values(data)[q] % 16 == Number(Cut(AllBits(data), 8 * q + 4, 4))
  {
    hide *;
    CutIsByte(data, q);
    CutNibbles(AllBits(data), 8 * q, S.Values(data)[q]);
  }

  lemma CutNibbles(all: seq<bool>, at: nat, value: nat)
    requires at + 8 <= |all| && value < 256 && Cut(all, at, 8) == Bits(value, 8)
    ensures Number(Cut(all, at, 4)) == value / 16 && Number(Cut(all, at + 4, 4)) == value % 16
  {
    hide *;
    NumberNibbles(value);
    CutOfCut(all, at, 8, 0, 4);
    CutOfCut(all, at, 8, 4, 4);
  }

  /** Half codewords are the bits in fours. */
  lemma HalfScan(data: seq<Byte>, j: nat)
    requires 4 * j + 4 <= 8 * |data|
    ensures j / 2 < |data| && S.Half(S.Values(data), j) == Number(Cut(AllBits(data), 4 * j, 4))
  {
    hide *;
    var q := j / 2;
    if j % 2 == 0 {
      assert j == 2 * q && 4 * j == 8 * q;
      HalfIs(S.Values(data), q);
      HalvesAt(data, q);
    } else {
      assert j == 2 * q + 1 && 4 * j == 8 * q + 4;
      HalfIs(S.Values(data), q);
      HalvesAt(data, q);
    }
  }

  /** Eight bits from half j on spell a number; the two halves do. */
  lemma TwoHalves(data: seq<Byte>, j: nat, value: nat)
    requires 4 * j + 8 <= 8 * |data| && value < 256 && Cut(AllBits(data), 4 * j, 8) == Bits(value, 8)
    ensures HalfPair(S.Values(data), j, value)
  {
    hide AllBits, Bits, Number, S.Half, Cut;
    NumberNibbles(value);
    HalfScan(data, j);
    HalfScan(data, j + 1);
    CutOfCut(AllBits(data), 4 * j, 8, 0, 4);
    CutOfCut(AllBits(data), 4 * j, 8, 4, 4);
  }

  predicate HalfPair(values: seq<nat>, j: nat, value: nat) {
    j / 2 < |values| && (j + 1) / 2 < |values| && 16 * S.Half(values, j) + S.Half(values, j + 1) == value
  }

  lemma ModeScan(data: seq<Byte>)
    requires |data| > 0 && Cut(AllBits(data), 0, 4) == Bits(4, 4)
    ensures S.Half(S.Values(data), 0) == 4
  {
    PowsUsed();
    hide AllBits, Bits, Number, Pow2, S.Half, Cut;
    HalfScan(data, 0);
    NumberOfBits(4, 4);
  }

  lemma CountScan(version: nat, data: seq<Byte>, n: nat)
    requires |data| >= 3 && n < Pow2(CountBits(version))
    requires Cut(AllBits(data), 4, CountBits(version)) == Bits(n, CountBits(version))
    ensures S.Count(version, S.Values(data)) == n
  {
    PowsUsed();
    hide AllBits, Number, S.Half, Pow2, Bits, Cut;
    if version < 10 {
      PairAt(data, 1, 4, n);
    } else {
      CutBytes(AllBits(data), 4, n);
      PairAt(data, 1, 4, n / 256);
      PairAt(data, 3, 12, n % 256);
    }
  }

  lemma BytesOfCount(value: nat)
    requires value < 65536
    ensures Bits(value, 16) == Bits(value / 256, 8) + Bits(value % 256, 8)
  {
    PowsUsed();
    BitsSplit(value / 256, value % 256, 8, 8);
    hide Bits, Pow2;
  }

  lemma CutParts(all: seq<bool>, at: nat, a: seq<bool>, b: seq<bool>)
    requires at + |a| + |b| <= |all| && Cut(all, at, |a| + |b|) == a + b
    ensures Cut(all, at, |a|) == a && Cut(all, at + |a|, |b|) == b
  {
    CutOfCut(all, at, |a| + |b|, 0, |a|);
    CutOfCut(all, at, |a| + |b|, |a|, |b|);
    assert (a + b)[0..0 + |a|] == a && (a + b)[|a|..|a| + |b|] == b;
  }

  lemma CutBytes(all: seq<bool>, at: nat, value: nat)
    requires at + 16 <= |all| && value < 65536 && Cut(all, at, 16) == Bits(value, 16)
    ensures Cut(all, at, 8) == Bits(value / 256, 8) && Cut(all, at + 8, 8) == Bits(value % 256, 8)
  {
    hide *;
    BytesOfCount(value);
    CutParts(all, at, Bits(value / 256, 8), Bits(value % 256, 8));
  }

  lemma PairAt(data: seq<Byte>, j: nat, at: nat, value: nat)
    requires at == 4 * j && at + 8 <= 8 * |data| && value < 256 && Cut(AllBits(data), at, 8) == Bits(value, 8)
    ensures HalfPair(S.Values(data), j, value)
  {
    hide *;
    TwoHalves(data, j, value);
  }

  lemma InnerCut(all: seq<bool>, inner: seq<bool>, from: nat, i: nat)
    requires 4 * from + |inner| <= |all| && Cut(all, 4 * from, |inner|) == inner && 8 * i + 8 <= |inner|
    ensures 4 * (from + 2 * i) + 8 <= |all| && Cut(all, 4 * (from + 2 * i), 8) == Cut(inner, 8 * i, 8)
  {
    CutOfCut(all, 4 * from, |inner|, 8 * i, 8);
    assert 4 * from + 8 * i == 4 * (from + 2 * i);
  }

  lemma ByteInside(data: seq<Byte>, bytes: seq<Byte>, from: nat, i: nat)
    requires i < |bytes|
    requires 4 * from + 8 * |bytes| <= 8 * |data| && Cut(AllBits(data), 4 * from, 8 * |bytes|) == AllBits(bytes)
    ensures 4 * (from + 2 * i) + 8 <= 8 * |data|
    ensures Cut(AllBits(data), 4 * (from + 2 * i), 8) == Bits(S.Values(bytes)[i], 8)
  {
    hide *;
    CutIsByte(bytes, i);
    InnerCut(AllBits(data), AllBits(bytes), from, i);
  }

  lemma ByteScan(data: seq<Byte>, bytes: seq<Byte>, from: nat, i: nat)
    requires i < |bytes|
    requires 4 * from + 8 * |bytes| <= 8 * |data| && Cut(AllBits(data), 4 * from, 8 * |bytes|) == AllBits(bytes)
    ensures HalfPair(S.Values(data), from + 2 * i, S.Values(bytes)[i])
  {
    hide *;
    ByteInside(data, bytes, from, i);
    TwoHalves(data, from + 2 * i, S.Values(bytes)[i]);
  }

  lemma ThreeParts(a: seq<bool>, b: seq<bool>, c: seq<bool>, all: seq<bool>)
    requires a + b + c <= all
    ensures |a| + |b| + |c| <= |all| && Cut(all, 0, |a|) == a && Cut(all, |a|, |b|) == b
    ensures Cut(all, |a| + |b|, |c|) == c
  {
    var raw := a + b + c;
    CutOfFront(raw, all, 0, |a|);
    CutOfFront(raw, all, |a|, |b|);
    CutOfFront(raw, all, |a| + |b|, |c|);
    assert raw[0..|a|] == a && raw[|a|..|a| + |b|] == b && raw[|a| + |b|..|a| + |b| + |c|] == c;
  }

  lemma TextOf(version: nat, data: seq<Byte>, bytes: seq<Byte>)
    requires |data| >= 3 && |bytes| < Pow2(CountBits(version))
    requires var start, all := 4 + CountBits(version), AllBits(data);
      && start + 8 * |bytes| <= |all|
      && Cut(all, 0, 4) == Bits(4, 4) && Cut(all, 4, CountBits(version)) == Bits(|bytes|, CountBits(version))
      && Cut(all, start, 8 * |bytes|) == AllBits(bytes)
    ensures S.Text(version, S.Values(data)) == Some(S.Values(bytes))
  {
    hide AllBits, Bits, Pow2, S.Half, S.Count, Cut;
    ModeScan(data);
    CountScan(version, data, |bytes|);
    forall i | 0 <= i < |bytes| ensures HalfPair(S.Values(data), S.Heading(version) + 2 * i, S.Values(bytes)[i]) {
      ByteScan(data, bytes, S.Heading(version), i);
    }
    PairsAreText(version, S.Values(data), S.Values(bytes));
  }

  lemma PairsAreText(version: nat, data: seq<nat>, text: seq<nat>)
    requires |data| >= 3 && S.Half(data, 0) == 4 && S.Count(version, data) == |text|
    requires 4 * S.Heading(version) + 8 * |text| <= 8 * |data|
    requires forall i | 0 <= i < |text| :: HalfPair(data, S.Heading(version) + 2 * i, text[i])
    ensures S.Text(version, data) == Some(text)
  {
    hide S.Half, S.Count, S.Heading;
    assert S.Text(version, data).Some?;
    var read := S.Text(version, data).value;
    forall i | 0 <= i < |text| ensures read[i] == text[i] {
      assert HalfPair(data, S.Heading(version) + 2 * i, text[i]);
    }
    assert read == text;
  }

  /** The scanner reads the text out of its data codewords. */
  lemma TextScan(version: nat, bytes: seq<Byte>)
    requires 1 <= version <= 10 && Fits(version, |bytes|)
    ensures S.Text(version, S.Values(DataWords(version, bytes))) == Some(S.Values(bytes))
  {
    hide *;
    var data := DataWords(version, bytes);
    DataWordBits(version, bytes);
    CountFits(version, |bytes|);
    ManyWords(version, bytes);
    PayloadIs(version, bytes);
    ThreeParts(Bits(4, 4), Bits(|bytes|, CountBits(version)), AllBits(bytes), AllBits(data));
    TextOf(version, data, bytes);
  }

  lemma ManyWords(version: nat, bytes: seq<Byte>)
    requires 1 <= version <= 10 && Fits(version, |bytes|)
    ensures |DataWords(version, bytes)| >= 3
  {
  }

  lemma PayloadIs(version: nat, bytes: seq<Byte>)
    ensures Payload(version, bytes) == Bits(4, 4) + Bits(|bytes|, CountBits(version)) + AllBits(bytes)
    ensures |Bits(4, 4)| == 4 && |Bits(|bytes|, CountBits(version))| == CountBits(version)
    ensures |AllBits(bytes)| == 8 * |bytes|
  {
  }

  // -- Padding -----------------------------------------------------------------------------------------

  lemma {:induction false} PaddingAt(n: nat, i: nat)
    requires i < n
    ensures Padding(n)[i] == PadByte(i)
  {
    if i < n - 1 { PaddingAt(n - 1, i); }
  }

  lemma TerminatedWhole(raw: seq<bool>, words: nat, used: nat)
    requires |raw| + 4 == 8 * used && |raw| <= 8 * words
    ensures used <= words && Terminated(raw, 8 * words) == raw + Falses(4)
  {
    assert used <= words;
    assert ToByteBoundary(|raw| + 4) == 0;
    assert Falses(0) == [];
    assert raw + Falses(4) + [] == raw + Falses(4);
  }

  lemma FilledIs(raw: seq<bool>, words: nat, used: nat)
    requires |raw| + 4 == 8 * used && |raw| <= 8 * words
    ensures used <= words && |raw + Falses(4)| % 8 == 0 && |Pack(raw + Falses(4))| == used
    ensures Filled(raw, words) == Pack(raw + Falses(4)) + Padding(words - used)
  {
    hide *;
    TerminatedWhole(raw, words, used);
    FourFalses(raw);
    Eights(used);
    FilledUnfolds(raw, words, raw + Falses(4));
  }

  lemma Eights(n: nat)
    ensures 8 * n % 8 == 0 && 8 * n / 8 == n
  {
  }

  lemma FourFalses(raw: seq<bool>)
    ensures |raw + Falses(4)| == |raw| + 4
  {
  }

  lemma FilledUnfolds(raw: seq<bool>, words: nat, whole: seq<bool>)
    requires |raw| <= 8 * words && whole == Terminated(raw, 8 * words)
    ensures |whole| % 8 == 0 && |Pack(whole)| == |whole| / 8 <= words
    ensures Filled(raw, words) == Pack(whole) + Padding(words - |Pack(whole)|)
  {
    hide Terminated, Pack, Padding;
  }

  lemma FilledSpells(raw: seq<bool>, words: nat, used: nat)
    requires |raw| + 4 == 8 * used && |raw| <= 8 * words
    ensures raw + Falses(4) <= AllBits(Filled(raw, words))
  {
    hide *;
    FilledIs(raw, words, used);
    AllBitsPack(raw + Falses(4));
    AllBitsConcat(Pack(raw + Falses(4)), Padding(words - used));
  }

  lemma FilledPads(raw: seq<bool>, words: nat, used: nat, i: nat)
    requires |raw| + 4 == 8 * used && |raw| <= 8 * words && used <= i < words
    ensures Filled(raw, words)[i] == PadByte(i - used)
  {
    hide *;
    FilledIs(raw, words, used);
    PaddingAt(words - used, i - used);
  }

  lemma NumberOfFalses()
    ensures Number(Falses(4)) == 0
  {
    assert Falses(4) == [false, false, false, false];
    assert [false, false, false, false][..3] == [false, false, false] && [false, false, false][..2] == [false, false];
    assert [false, false][..1] == [false] && [false][..0] == [];
    assert Number([false]) == 0;
    assert Number([false, false]) == 0;
    assert Number([false, false, false]) == 0;
  }

  lemma CutLast(raw: seq<bool>, last: seq<bool>, all: seq<bool>)
    requires raw + last <= all
    ensures Cut(all, |raw|, |last|) == last
  {
    CutOfFront(raw + last, all, |raw|, |last|);
    assert (raw + last)[|raw|..|raw| + |last|] == last;
  }

  lemma LastHalf(data: seq<Byte>, raw: seq<bool>, q: nat)
    requires |raw| == 8 * q + 4 && q < |data| && raw + Falses(4) <= AllBits(data)
    ensures S.Values(data)[q] % 16 == 0
  {
    hide *;
    NumberOfFalses();
    HalvesAt(data, q);
    CutLast(raw, Falses(4), AllBits(data));
  }

  lemma PadIs(data: seq<Byte>, i: nat, k: nat)
    requires i < |data| && data[i] == PadByte(k)
    ensures S.Values(data)[i] == if k % 2 == 0 then 236 else 17
  {
  }

  lemma UsedCodewords(version: nat, n: nat) returns (used: nat)
    ensures used == (S.Heading(version) + 2 * n + 1) / 2 && 0 < used
    ensures 4 + CountBits(version) + 8 * n + 4 == 8 * used
  {
    used := (S.Heading(version) + 2 * n + 1) / 2;
  }

  lemma PadsScan(raw: seq<bool>, words: nat, used: nat, data: seq<Byte>)
    requires |raw| + 4 == 8 * used && 0 < used && |raw| <= 8 * words && data == Filled(raw, words)
    ensures used <= |data| && S.Values(data)[used - 1] % 16 == 0
    ensures forall i | used <= i < |data| :: S.Values(data)[i] == if (i - used) % 2 == 0 then 236 else 17
  {
    hide *;
    FilledSpells(raw, words, used);
    FilledIs(raw, words, used);
    LastHalf(data, raw, used - 1);
    forall i | used <= i < |data| ensures S.Values(data)[i] == if (i - used) % 2 == 0 then 236 else 17 {
      FilledPads(raw, words, used, i);
      PadIs(data, i, i - used);
    }
  }

  lemma PaddedMeans(version: nat, data: seq<nat>, n: nat, used: nat)
    requires used == (S.Heading(version) + 2 * n + 1) / 2 && 0 < used <= |data| && data[used - 1] % 16 == 0
    requires forall i | used <= i < |data| :: data[i] == if (i - used) % 2 == 0 then 236 else 17
    ensures S.Padded(version, data, n)
  {
  }

  lemma AsFilled(version: nat, bytes: seq<Byte>)
    requires 1 <= version <= 10 && Fits(version, |bytes|)
    ensures |Payload(version, bytes)| == 4 + CountBits(version) + 8 * |bytes| <= 8 * DataCodewords(version)
    ensures DataWords(version, bytes) == Filled(Payload(version, bytes), DataCodewords(version))
  {
  }

  /** A terminator of four zeros, then the two pad codewords in turn. */
  lemma PaddingScan(version: nat, bytes: seq<Byte>)
    requires 1 <= version <= 10 && Fits(version, |bytes|)
    ensures S.Padded(version, S.Values(DataWords(version, bytes)), |bytes|)
  {
    hide *;
    var used := UsedCodewords(version, |bytes|);
    AsFilled(version, bytes);
    PadsScan(Payload(version, bytes), DataCodewords(version), used, DataWords(version, bytes));
    PaddedMeans(version, S.Values(DataWords(version, bytes)), |bytes|, used);
  }

  // -- Check codewords ------------------------------------------------------------------------------------

  lemma ShiftIsDouble(v: Byte)
    ensures S.Shift(v) == Double(v)
  {
  }

  lemma {:induction false} ShiftedIsTimes(v: Byte, k: nat)
    ensures S.Shifted(v, k) == Times(v, Alpha(k))
  {
    if k == 0 {
      TimesCommutes(v, 1);
      TimesOne(v);
    } else {
      ShiftedIsTimes(v, k - 1);
      ShiftIsDouble(S.Shifted(v, k - 1));
      TimesCommutes(v, Alpha(k));
      TimesCommutes(v, Alpha(k - 1));
      SchoolbookDouble(Alpha(k - 1), v, 8);
    }
  }

  lemma {:induction false} SyndromeIsValue(block: seq<Byte>, k: nat)
    ensures S.Syndrome(block, k) == Eval(block, Alpha(k))
  {
    hide Times, Alpha, S.Shifted;
    if |block| > 0 {
      var n := |block| - 1;
      SyndromeIsValue(block[..n], k);
      ShiftedIsTimes(S.Syndrome(block[..n], k), k);
    }
  }

  lemma BytesAgain(block: seq<Byte>)
    ensures (forall w | w in S.Values(block) :: w < 256) && S.AsBytes(S.Values(block)) == block
  {
    forall i | 0 <= i < |block| ensures S.AsBytes(S.Values(block))[i] == block[i] {
      Again(block[i]);
    }
  }

  lemma Again(b: Byte)
    ensures (b as nat) as bv8 == b
  {
  }

  /** Every block the scanner puts together vanishes at as many powers of alpha as it has check codewords. */
  lemma BlockScan(version: nat, bytes: seq<Byte>, b: nat)
    requires 1 <= version <= 10 && Fits(version, |bytes|) && b < S.PlanOf(version).blocks
    ensures |S.Values(Codewords(version, bytes))| == S.Capacity(version).0
    ensures var words := S.Values(Codewords(version, bytes));
      var block := S.BlockData(version, words, b) + S.BlockChecks(version, words, b);
      (forall w | w in block :: w < 256) && S.Checked(S.AsBytes(block), S.PlanOf(version).checks)
  {
    PlanAgrees(version);
    var stream, data := Codewords(version, bytes), DataBlocks(version, bytes)[b];
    BlocksCarryTheirChecks(version, bytes, b);
    DataScan(version, stream, b);
    ChecksScan(version, stream, b);
    hide S.PlanOf, S.Capacity, TotalCodewords, EcCount, BlockCount, Codewords, Fits, S.BlockData, S.BlockChecks;
    hide S.Values, ReadDataBlocks, ReadCheckBlocks, DataBlocks, S.AsBytes, Ecc, S.Syndrome;
    var block := data + Ecc(data, EcCount(version));
    ValuesJoin(ReadDataBlocks(version, stream)[b], ReadCheckBlocks(version, stream)[b]);
    BytesAgain(block);
    forall k | 0 <= k < EcCount(version) ensures S.Syndrome(block, k) == 0 {
      SyndromeIsValue(block, k);
      CodewordVanishes(data, EcCount(version), k);
    }
  }

  // -- Patterns ----------------------------------------------------------------------------------------------

  /** Reserved, part of no format word, and drawn like this. */
  predicate Fixed(version: nat, r: nat, c: nat, dark: bool)
    requires 1 <= version <= 10
  {
    && IsReserved(version, r, c) && !Spelled(SymbolSize(version), r, c)
    && PatternDark(version, r, c) == dark
  }

  lemma FixedIsDrawn(grid: Grid, version: nat, r: nat, c: nat, dark: bool)
    requires 1 <= version <= 10 && S.Shaped(grid, version) && PatternsDrawn(grid, version)
    requires r < |grid| && c < |grid| && Fixed(version, r, c, dark)
    ensures grid[r][c] == dark
  {
    hide IsReserved, PatternDark, Spelled;
  }

  lemma FinderPicture(i: nat, j: nat)
    requires i < 7 && j < 7
    ensures S.Dark(S.FINDER, i, j) == FinderDark(i - 3, j - 3)
  {
    assert S.FINDER[0] == S.FINDER[6] == "#######" && S.FINDER[1] == S.FINDER[5] == "#.....#";
    assert S.FINDER[2] == S.FINDER[3] == S.FINDER[4] == "#.###.#";
  }

  lemma AlignmentPicture(i: nat, j: nat)
    requires i < 5 && j < 5
    ensures S.Dark(S.ALIGNMENT, i, j) == (Ring(i - 2, j - 2) != 1)
  {
    assert S.ALIGNMENT[0] == S.ALIGNMENT[4] == "#####" && S.ALIGNMENT[1] == S.ALIGNMENT[3] == "#...#";
    assert S.ALIGNMENT[2] == "#.#.#";
  }

  lemma FinderScan(grid: Grid, version: nat, top: nat, left: nat)
    requires 1 <= version <= 10 && S.Shaped(grid, version) && PatternsDrawn(grid, version)
    requires (top == 0 && left == 0) || (top == 0 && left == |grid| - 7) || (top == |grid| - 7 && left == 0)
    ensures S.Pictured(grid, S.FINDER, top, left)
  {
    hide S.Dark, PatternsDrawn;
    forall r: nat, c: nat | top <= r < top + 7 && left <= c < left + 7
      ensures r < |grid| && c < |grid[r]| && grid[r][c] == S.Dark(S.FINDER, r - top, c - left)
    {
      FinderModule(version, top, left, r, c);
      FixedIsDrawn(grid, version, r, c, S.Dark(S.FINDER, r - top, c - left));
    }
  }

  lemma FinderModule(version: nat, top: nat, left: nat, r: nat, c: nat)
    requires 1 <= version <= 10 && top <= r < top + 7 && left <= c < left + 7
    requires var last := SymbolSize(version) - 7;
      (top == 0 && left == 0) || (top == 0 && left == last) || (top == last && left == 0)
    ensures Fixed(version, r, c, S.Dark(S.FINDER, r - top, c - left))
  {
    FinderPicture(r - top, c - left);
    hide FinderDark, AlignedDark, Aligned, Centres, VersionDark, VersionIndex, S.Dark;
    assert InFinder(SymbolSize(version), r, c);
  }

  ghost predicate Reads(table: seq<nat>, bits: string) {
    |table| == |bits| == 18 && Halved(table) && forall k | 0 <= k < 18 :: (table[k] % 2 == 1) == (bits[17 - k] == '1')
  }

  // The numbers each version word runs through while it is halved, and the bits they show.

  function Halves7(): (table: seq<nat>)
    ensures |table| == 18
  {
    [31892, 15946, 7973, 3986, 1993, 996, 498, 249, 124, 62, 31, 15, 7, 3, 1, 0, 0, 0]
  }

  lemma Halves7Halve(k: nat)
    requires k < 17
    ensures Halves7()[k + 1] == Halves7()[k] / 2
  {
  }

  lemma Halves7Show(k: nat)
    requires k < 18
    ensures (Halves7()[k] % 2 == 1) == (S.VersionBits(7)[17 - k] == '1')
  {
    assert S.VersionBits(7) == "000111110010010100";
  }

  function Halves8(): (table: seq<nat>)
    ensures |table| == 18
  {
    [34236, 17118, 8559, 4279, 2139, 1069, 534, 267, 133, 66, 33, 16, 8, 4, 2, 1, 0, 0]
  }

  lemma Halves8Halve(k: nat)
    requires k < 17
    ensures Halves8()[k + 1] == Halves8()[k] / 2
  {
  }

  lemma Halves8Show(k: nat)
    requires k < 18
    ensures (Halves8()[k] % 2 == 1) == (S.VersionBits(8)[17 - k] == '1')
  {
    assert S.VersionBits(8) == "001000010110111100";
  }

  function Halves9(): (table: seq<nat>)
    ensures |table| == 18
  {
    [39577, 19788, 9894, 4947, 2473, 1236, 618, 309, 154, 77, 38, 19, 9, 4, 2, 1, 0, 0]
  }

  lemma Halves9Halve(k: nat)
    requires k < 17
    ensures Halves9()[k + 1] == Halves9()[k] / 2
  {
  }

  lemma Halves9Show(k: nat)
    requires k < 18
    ensures (Halves9()[k] % 2 == 1) == (S.VersionBits(9)[17 - k] == '1')
  {
    assert S.VersionBits(9) == "001001101010011001";
  }

  function Halves10(): (table: seq<nat>)
    ensures |table| == 18
  {
    [42195, 21097, 10548, 5274, 2637, 1318, 659, 329, 164, 82, 41, 20, 10, 5, 2, 1, 0, 0]
  }

  lemma Halves10Halve(k: nat)
    requires k < 17
    ensures Halves10()[k + 1] == Halves10()[k] / 2
  {
  }

  lemma Halves10Show(k: nat)
    requires k < 18
    ensures (Halves10()[k] % 2 == 1) == (S.VersionBits(10)[17 - k] == '1')
  {
    assert S.VersionBits(10) == "001010010011010011";
  }

  lemma Reads7()
    ensures Reads(Halves7(), S.VersionBits(7))
  {
    hide Halves7, S.VersionBits;
    forall k | 0 <= k < 17 ensures Halves7()[k + 1] == Halves7()[k] / 2 { Halves7Halve(k); }
    forall k | 0 <= k < 18 ensures (Halves7()[k] % 2 == 1) == (S.VersionBits(7)[17 - k] == '1') { Halves7Show(k); }
  }

  lemma Reads8()
    ensures Reads(Halves8(), S.VersionBits(8))
  {
    hide Halves8, S.VersionBits;
    forall k | 0 <= k < 17 ensures Halves8()[k + 1] == Halves8()[k] / 2 { Halves8Halve(k); }
    forall k | 0 <= k < 18 ensures (Halves8()[k] % 2 == 1) == (S.VersionBits(8)[17 - k] == '1') { Halves8Show(k); }
  }

  lemma Reads9()
    ensures Reads(Halves9(), S.VersionBits(9))
  {
    hide Halves9, S.VersionBits;
    forall k | 0 <= k < 17 ensures Halves9()[k + 1] == Halves9()[k] / 2 { Halves9Halve(k); }
    forall k | 0 <= k < 18 ensures (Halves9()[k] % 2 == 1) == (S.VersionBits(9)[17 - k] == '1') { Halves9Show(k); }
  }

  lemma Reads10()
    ensures Reads(Halves10(), S.VersionBits(10))
  {
    hide Halves10, S.VersionBits;
    forall k | 0 <= k < 17 ensures Halves10()[k + 1] == Halves10()[k] / 2 { Halves10Halve(k); }
    forall k | 0 <= k < 18 ensures (Halves10()[k] % 2 == 1) == (S.VersionBits(10)[17 - k] == '1') { Halves10Show(k); }
  }

  lemma VersionValues()
    ensures VersionBits(7) == Halves7()[0] && VersionBits(8) == Halves8()[0]
    ensures VersionBits(9) == Halves9()[0] && VersionBits(10) == Halves10()[0]
  {
    VersionWords();
    hide VersionCode;
    assert (7 as bv32) == 7 && (8 as bv32) == 8 && (9 as bv32) == 9 && (10 as bv32) == 10;
    var w7: bv32, w8: bv32, w9: bv32, w10: bv32 := 0x07C94, 0x085BC, 0x09A99, 0x0A4D3;
    assert w7 as nat == 31892 && w8 as nat == 34236 && w9 as nat == 39577 && w10 as nat == 42195;
  }

  lemma VersionShows(version: nat, i: nat)
    requires 7 <= version <= 10 && i < 18
    ensures VersionDark(version, i) == (S.VersionBits(version)[17 - i] == '1')
  {
    VersionValues();
    hide VersionBits, Reads, S.VersionBits;
    if version == 7 {
      Reads7();
      ReadsShows(Halves7(), S.VersionBits(7), i);
    } else if version == 8 {
      Reads8();
      ReadsShows(Halves8(), S.VersionBits(8), i);
    } else if version == 9 {
      Reads9();
      ReadsShows(Halves9(), S.VersionBits(9), i);
    } else {
      Reads10();
      ReadsShows(Halves10(), S.VersionBits(10), i);
    }
  }

  lemma ReadsShows(table: seq<nat>, bits: string, i: nat)
    requires Reads(table, bits) && i < 18
    ensures |table| == |bits| == 18 && (ShiftRight(table[0], i) % 2 == 1) == (bits[17 - i] == '1')
  {
    Halving(table, 0, i);
  }

  // -- Alignment patterns ------------------------------------------------------------------------------

  lemma DarkRowOfThree(centres: seq<nat>, i: nat, r: nat, c: nat)
    requires |centres| == 3 && i < 3
    ensures AlignedDarkInRow(centres, i, 3, r, c) <==>
      || (i == 1 && Rings(r, c, centres[i], centres[0])) || Rings(r, c, centres[i], centres[1])
      || (i > 0 && Rings(r, c, centres[i], centres[2]))
  {
    hide Near, Ring;
    assert !AlignedDarkInRow(centres, i, 0, r, c);
    assert AlignedDarkInRow(centres, i, 1, r, c) == (i == 1 && Rings(r, c, centres[i], centres[0]));
    assert AlignedDarkInRow(centres, i, 2, r, c)
        == (AlignedDarkInRow(centres, i, 1, r, c) || Rings(r, c, centres[i], centres[1]));
  }

  /** Dark in an alignment pattern centred at i and j. */
  predicate Rings(r: nat, c: nat, i: nat, j: nat) {
    Near(r, c, i, j, 2) && Ring(r - i, c - j) != 1
  }

  lemma AlignedDarkCases(version: nat, r: nat, c: nat)
    requires 1 <= version <= 10
    ensures var last, mid := 10 + 4 * version, 8 + 2 * version;
      AlignedDark(Centres(version), |Centres(version)|, r, c) <==>
        version > 1
        && (Rings(r, c, last, last)
            || (version >= 7 && (Rings(r, c, 6, mid) || Rings(r, c, mid, 6) || Rings(r, c, mid, mid)
                                 || Rings(r, c, mid, last) || Rings(r, c, last, mid))))
  {
    var centres := Centres(version);
    hide Near, Ring;
    if version == 1 {
    } else if version < 7 {
      assert !AlignedDarkInRow(centres, 0, 1, r, c);
      assert !AlignedDarkInRow(centres, 1, 1, r, c);
      assert !AlignedDark(centres, 1, r, c);
    } else {
      DarkRowOfThree(centres, 0, r, c);
      DarkRowOfThree(centres, 1, r, c);
      DarkRowOfThree(centres, 2, r, c);
      hide AlignedDarkInRow;
      assert AlignedDark(centres, 1, r, c) == AlignedDarkInRow(centres, 0, 3, r, c);
      assert AlignedDark(centres, 2, r, c)
          == (AlignedDark(centres, 1, r, c) || AlignedDarkInRow(centres, 1, 3, r, c));
    }
  }

  /** Inside an alignment pattern nothing else is drawn that it does not show itself. */
  lemma InsideAlignment(version: nat, i: nat, j: nat, r: nat, c: nat)
    requires 1 <= version <= 10 && S.Centred(version, i, j) && Near(r, c, i, j, 2)
    requires r < SymbolSize(version) && c < SymbolSize(version)
    ensures IsReserved(version, r, c) && !Spelled(SymbolSize(version), r, c)
    ensures PatternDark(version, r, c) == (Ring(r - i, c - j) != 1)
  {
    CentredCases(version, i, j);
    AlignedCases(version, r, c);
    AlignedDarkCases(version, r, c);
    hide Aligned, AlignedDark, S.Centred, VersionDark, VersionIndex, FinderDark, Centres;
  }

  lemma AlignmentScan(grid: Grid, version: nat, i: nat, j: nat)
    requires 1 <= version <= 10 && S.Shaped(grid, version) && PatternsDrawn(grid, version) && S.Centred(version, i, j)
    ensures S.Pictured(grid, S.ALIGNMENT, i - 2, j - 2)
  {
    CentredCases(version, i, j);
    hide IsReserved, PatternDark, Ring, S.Dark, S.Centred, Spelled;
    forall r: nat, c: nat | i - 2 <= r < i - 2 + 5 && j - 2 <= c < j - 2 + 5
      ensures r < |grid| && c < |grid[r]| && grid[r][c] == S.Dark(S.ALIGNMENT, r - (i - 2), c - (j - 2))
    {
      AlignmentPicture(r - (i - 2), c - (j - 2));
      InsideAlignment(version, i, j, r, c);
      assert Ring(r - (i - 2) - 2, c - (j - 2) - 2) == Ring(r - i, c - j);
    }
  }

  lemma SeparatorIsLight(version: nat, r: nat, c: nat)
    requires 1 <= version <= 10 && r < SymbolSize(version) && c < SymbolSize(version)
    requires S.Separates(SymbolSize(version), r, c)
    ensures Fixed(version, r, c, false)
  {
    hide Aligned, AlignedDark, VersionDark, Centres;
  }

  lemma TimingAlternates(version: nat, r: nat, c: nat)
    requires 1 <= version <= 10 && r < SymbolSize(version) && c < SymbolSize(version) && S.Times(version, r, c)
    ensures Fixed(version, r, c, (r + c) % 2 == 0)
  {
    AlignsCases(version, r, c);
    AlignedCases(version, r, c);
    AlignedDarkCases(version, r, c);
    hide Aligned, AlignedDark, VersionDark, Centres, S.Aligns, FinderDark, Ring;
  }

  lemma VersionIsShown(version: nat, r: nat, c: nat)
    requires 1 <= version <= 10 && r < SymbolSize(version) && c < SymbolSize(version)
    requires S.VersionIndex(version, r, c).Some?
    ensures var i := S.VersionIndex(version, r, c).value;
      i < 18 && Fixed(version, r, c, S.VersionBits(version)[17 - i] == '1')
  {
    hide *;
    VersionPlace(version, r, c);
    VersionAlone(version, r, c);
    VersionShows(version, VersionIndex(SymbolSize(version), r, c));
  }

  lemma VersionPlace(version: nat, r: nat, c: nat)
    requires 1 <= version <= 10 && r < SymbolSize(version) && c < SymbolSize(version)
    requires S.VersionIndex(version, r, c).Some?
    ensures version >= 7 && InVersionInfo(version, r, c)
    ensures S.VersionIndex(version, r, c).value == VersionIndex(SymbolSize(version), r, c) < 18
  {
  }

  lemma VersionAlone(version: nat, r: nat, c: nat)
    requires 7 <= version <= 10 && r < SymbolSize(version) && c < SymbolSize(version) && InVersionInfo(version, r, c)
    requires 0 <= VersionIndex(SymbolSize(version), r, c)
    ensures Fixed(version, r, c, VersionDark(version, VersionIndex(SymbolSize(version), r, c)))
  {
    AlignedDarkCases(version, r, c);
    hide Aligned, AlignedDark, VersionDark, VersionIndex, Centres, FinderDark, Ring;
  }

  lemma DarkIsDark(version: nat)
    requires 1 <= version <= 10
    ensures Fixed(version, SymbolSize(version) - 8, 8, true)
  {
    hide Aligned, AlignedDark, VersionDark, Centres, FinderDark;
  }

  /** A separator, timing, version or dark module shows what the standard says. */
  lemma PlainPattern(grid: Grid, version: nat, r: nat, c: nat)
    requires 1 <= version <= 10 && S.Shaped(grid, version) && PatternsDrawn(grid, version)
    requires r < |grid| && c < |grid|
    ensures S.Plain(version, r, c, grid[r][c])
  {
    hide PatternsDrawn, Fixed, S.Separates, S.Times, S.VersionIndex, S.VersionBits;
    if S.Separates(|grid|, r, c) {
      SeparatorIsLight(version, r, c);
      FixedIsDrawn(grid, version, r, c, false);
    }
    if S.Times(version, r, c) {
      TimingAlternates(version, r, c);
      FixedIsDrawn(grid, version, r, c, (r + c) % 2 == 0);
    }
    var i := S.VersionIndex(version, r, c);
    if i.Some? {
      VersionIsShown(version, r, c);
      FixedIsDrawn(grid, version, r, c, S.VersionBits(version)[17 - i.value] == '1');
    }
    if r + 8 == |grid| && c == 8 {
      DarkIsDark(version);
      FixedIsDrawn(grid, version, r, c, true);
    }
  }

  lemma PatternsScan(grid: Grid, version: nat)
    requires 1 <= version <= 10 && S.Shaped(grid, version) && PatternsDrawn(grid, version)
    ensures S.Patterned(grid, version)
  {
    FinderScan(grid, version, 0, 0);
    FinderScan(grid, version, 0, |grid| - 7);
    FinderScan(grid, version, |grid| - 7, 0);
    hide S.Pictured, S.Centred, S.Plain, PatternsDrawn;
    forall i, j | S.Centred(version, i, j) ensures S.Pictured(grid, S.ALIGNMENT, i - 2, j - 2) {
      CentredCases(version, i, j);
      AlignmentScan(grid, version, i, j);
    }
    forall r, c | 0 <= r < |grid| && 0 <= c < |grid| ensures S.Plain(version, r, c, grid[r][c]) {
      PlainPattern(grid, version, r, c);
    }
  }

  // -- The whole symbol --------------------------------------------------------------------------------------

  /** The codewords of the text are placed in this drawing, with format and patterns. */
  ghost predicate Carries(grid: Grid, version: nat, bytes: seq<Byte>) {
    && 1 <= version <= 10 && Fits(version, |bytes|) && S.Shaped(grid, version)
    && var size := SymbolSize(version);
    && FormatReads(grid, size) && PatternsDrawn(grid, version)
    && Placed(grid, ReservedGrid(version), size, AllBits(Codewords(version, bytes)), Steps(size))
  }

  lemma CarriedCodewords(grid: Grid, version: nat, bytes: seq<Byte>)
    requires Carries(grid, version, bytes)
    ensures S.Codewords(grid, version) == Some(S.Values(Codewords(version, bytes)))
    ensures S.Patterned(grid, version)
  {
    CodewordsScan(grid, version, Codewords(version, bytes));
    PatternsScan(grid, version);
  }

  lemma CarriedText(grid: Grid, version: nat, bytes: seq<Byte>)
    requires 1 <= version <= 10 && Fits(version, |bytes|) && S.Shaped(grid, version)
    requires S.Codewords(grid, version) == Some(S.Values(Codewords(version, bytes)))
    ensures S.Scan(grid, version) == Some(S.Values(bytes))
  {
    DataWordsScan(version, bytes);
    TextScan(version, bytes);
    hide S.PlanOf, S.Capacity, S.Codewords, S.Data, S.Text, Codewords, DataWords, Fits, S.Values;
  }

  lemma CarriedSoundly(grid: Grid, version: nat, bytes: seq<Byte>)
    requires 1 <= version <= 10 && Fits(version, |bytes|) && S.Shaped(grid, version)
    requires S.Codewords(grid, version) == Some(S.Values(Codewords(version, bytes)))
    ensures S.Sound(grid, version)
  {
    CarriedText(grid, version, bytes);
    DataWordsScan(version, bytes);
    PaddingScan(version, bytes);
    hide S.PlanOf, S.Capacity, S.Codewords, S.Data, S.Padded, S.Checked, Codewords, DataWords, Fits, TotalCodewords,
        S.BlockData, S.BlockChecks, S.AsBytes, S.Scan;
    var words := S.Values(Codewords(version, bytes));
    forall b | 0 <= b < S.PlanOf(version).blocks
      ensures
        var block := S.BlockData(version, words, b) + S.BlockChecks(version, words, b);
        (forall w | w in block :: w < 256) && S.Checked(S.AsBytes(block), S.PlanOf(version).checks)
    {
      BlockScan(version, bytes, b);
    }
  }

  /**
   * From a drawing of the codewords of a text the standard's scanner reads the text; every block checks, padding
   * follows, and all patterns are there.
   */
  lemma SymbolScans(grid: Grid, version: nat, bytes: seq<Byte>)
    requires Carries(grid, version, bytes)
    ensures S.Shaped(grid, version)
    ensures S.Scan(grid, version) == Some(S.Values(bytes)) && S.Sound(grid, version) && S.Patterned(grid, version)
  {
    CarriedCodewords(grid, version, bytes);
    hide FormatReads, PatternsDrawn, Placed, Fits, S.Codewords, S.Scan, S.Sound, S.Patterned;
    CarriedText(grid, version, bytes);
    CarriedSoundly(grid, version, bytes);
  }

  /** A drawing in the smallest version that holds the text is the symbol the standard asks for. */
  lemma SmallestShows(grid: Grid, version: nat, bytes: seq<Byte>)
    requires Carries(grid, version, bytes) && forall w | 1 <= w < version :: !Fits(w, |bytes|)
    ensures S.Shows(grid, S.Values(bytes))
  {
    SymbolScans(grid, version, bytes);
    hide Fits, S.Holds, S.Scan, S.Sound, S.Patterned, S.Shaped;
    HoldsTexts(version, |bytes|);
    forall w | 1 <= w < version ensures S.Holds(w) < |bytes| { HoldsTexts(w, |bytes|); }
    assert S.Carries(grid, version, S.Values(bytes));
  }

  /** How many bytes of text each version holds. */
  lemma HoldsTexts(version: nat, n: nat)
    requires 1 <= version <= 10
    ensures Fits(version, n) <==> n <= S.Holds(version)
  {
  }
}
