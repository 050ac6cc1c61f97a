/** Drawing the symbol: function patterns, the reservation map, the payload, the format strips. */
module QrMatrix {
  import opened Galois
  import opened QrBits
  import opened QrWalk
  import opened QrLayout

  const FORMAT_BITS: nat := 21522

  /** Bit i of the format word, most significant first. */
  predicate FormatBit(i: nat)
    requires i < 15
  {
    ShiftRight(FORMAT_BITS, 14 - i) % 2 == 1
  }

  function Abs(x: int): nat {
    if x < 0 then -x else x
  }

  /** Distance from a pattern's centre, measured in rings. */
  function Ring(dr: int, dc: int): nat {
    if Abs(dr) > Abs(dc) then Abs(dr) else Abs(dc)
  }

  predicate FinderDark(dr: int, dc: int) {
    Ring(dr, dc) != 2 && Ring(dr, dc) != 4
  }

  /** One division step of the version code: shift, and subtract the generator 0x1f25 when bit 12 appears. */
  function VersionStep(rem: bv32): bv32 {
    (rem << 1) ^ ((rem >> 11) * 0x1f25)
  }

  function VersionRem(version: bv32, i: nat): bv32 {
    if i == 0 then version else VersionStep(VersionRem(version, i - 1))
  }

  function VersionCode(version: bv32): bv32 {
    (version << 12) | VersionRem(version, 12)
  }

  function VersionBits(version: nat): nat
    requires version <= 40
  {
    VersionCode(version as bv32) as nat
  }

  predicate VersionDark(version: nat, i: nat)
    requires version <= 40
  {
    ShiftRight(VersionBits(version), i) % 2 == 1
  }

  ghost function Snapshot(a: array2<bool>): (grid: Grid)
    reads a
    ensures |grid| == a.Length0
    ensures forall r | 0 <= r < a.Length0 :: |grid[r]| == a.Length1
    ensures forall r, c | 0 <= r < a.Length0 && 0 <= c < a.Length1 :: grid[r][c] == a[r, c]
  {
    seq(a.Length0, r requires 0 <= r < a.Length0 reads a =>
      seq(a.Length1, c requires 0 <= c < a.Length1 reads a => a[r, c]))
  }

  /** Insert into an ascending list. */
  function Insert(x: int, s: seq<int>): seq<int> {
    if |s| == 0 || x <= s[0] then [x] + s else [s[0]] + Insert(x, s[1..])
  }

  function Ascending(s: seq<int>): seq<int> {
    if |s| == 0 then [] else Insert(s[0], Ascending(s[1..]))
  }

  /** The centre formula gives the centres of the layout. */
  method AlignmentCentres(version: nat) returns (centres: seq<nat>)
    requires 1 <= version <= 10
    ensures centres == Centres(version)
  {
    if version == 1 {
      return [];
    }
    var size := 17 + 4 * version;
    var count := version / 7 + 2;
    var step := (version * 8 + count * 3 + 5) / (count * 4 - 4) * 2;
    var unsorted: seq<int> := [6];
    var pos: int := size - 7;
    while |unsorted| < count
      invariant 1 <= |unsorted| <= count
      invariant pos == size - 7 - (|unsorted| - 1) * step
      invariant unsorted == [6] + seq(|unsorted| - 1, i => size - 7 - i * step)
    {
      unsorted := unsorted + [pos];
      pos := pos - step;
    }
    if version < 7 {
      assert unsorted == [6, size - 7];
      SortTwo(6, size - 7);
    } else {
      assert step == 2 * version + 2;
      assert unsorted == [6, size - 7, 8 + 2 * version];
      SortThree(6, size - 7, 8 + 2 * version);
    }
    centres := Ascending(unsorted);
  }

  lemma SortTwo(a: int, b: int)
    requires a < b
    ensures Ascending([a, b]) == [a, b]
  {
    assert [a, b][1..] == [b] && [b][1..] == [];
    assert Ascending([b]) == [b];
  }

  lemma SortThree(a: int, b: int, c: int)
    requires a < c < b
    ensures Ascending([a, b, c]) == [a, c, b]
  {
    assert [a, b, c][1..] == [b, c] && [b, c][1..] == [c] && [c][1..] == [];
    assert Ascending([c]) == [c];
    assert Insert(b, []) == [b];
    assert Ascending([b, c]) == [c, b];
  }

  /** Where ISO/IEC 18004 section 7.9 draws bit i, most significant first, of the first format copy. */
  function FirstCopy(i: nat): Cell
    requires i < 15
  {
    if i < 6 then Cell(8, i)
    else if i == 6 then Cell(8, 7)
    else if i == 7 then Cell(8, 8)
    else if i == 8 then Cell(7, 8)
    else Cell(14 - i, 8)
  }

  /** And of the second: seven bits up the left edge, eight along the top right. */
  function SecondCopy(size: nat, i: nat): Cell
    requires i < 15 && size >= 21
  {
    if i < 7 then Cell(size - 1 - i, 8) else Cell(8, size - 15 + i)
  }

  predicate InFirstStrip(r: nat, c: nat) {
    (r == 8 && (c < 6 || c == 7 || c == 8)) || (c == 8 && (r < 6 || r == 7))
  }

  /** The modules that show the format word; beside them row and column 8 hold two timing modules and the dark one. */
  predicate Spelled(size: nat, r: nat, c: nat) {
    InFirstStrip(r, c) || (c == 8 && r + 7 >= size) || (r == 8 && c + 8 >= size)
  }

  class Canvas {
    const version: nat
    const size: nat
    const modules: array2<bool>
    const reserved: array2<bool>

    ghost predicate Valid() {
      && 1 <= version <= 10 && size == SymbolSize(version)
      && modules.Length0 == modules.Length1 == size
      && reserved.Length0 == reserved.Length1 == size
      && modules != reserved
    }

    constructor (version: nat)
      requires 1 <= version <= 10
      ensures Valid() && this.version == version && fresh(modules) && fresh(reserved)
      ensures forall r, c | 0 <= r < size && 0 <= c < size :: !modules[r, c] && !reserved[r, c]
    {
      this.version := version;
      size := 17 + 4 * version;
      modules := new bool[17 + 4 * version, 17 + 4 * version]((_, _) => false);
      reserved := new bool[17 + 4 * version, 17 + 4 * version]((_, _) => false);
    }

    method Mark(row: nat, col: nat)
      requires Valid() && row < size && col < size
      modifies modules, reserved
      ensures forall r, c | 0 <= r < size && 0 <= c < size ::
        && modules[r, c] == (old(modules[r, c]) || (r == row && c == col))
        && reserved[r, c] == (old(reserved[r, c]) || (r == row && c == col))
    {
      modules[row, col] := true;
      reserved[row, col] := true;
    }

    method Reserve(row: nat, col: nat)
      requires Valid() && row < size && col < size
      modifies reserved
      ensures forall r, c | 0 <= r < size && 0 <= c < size ::
        reserved[r, c] == (old(reserved[r, c]) || (r == row && c == col))
    {
      reserved[row, col] := true;
    }

    /** A finder ring with its separator, clipped to the symbol. */
    method Finder(cx: int, cy: int)
      requires Valid()
      modifies modules, reserved
      ensures forall r, c | 0 <= r < size && 0 <= c < size ::
        && reserved[r, c] == (old(reserved[r, c]) || Near(r, c, cy, cx, 4))
        && modules[r, c] == if Near(r, c, cy, cx, 4) then FinderDark(r - cy, c - cx) else old(modules[r, c])
    {
      for row := -4 to 5
        invariant forall r, c | 0 <= r < size && 0 <= c < size ::
          var done := Near(r, c, cy, cx, 4) && r - cy < row;
          && reserved[r, c] == (old(reserved[r, c]) || done)
          && modules[r, c] == if done then FinderDark(r - cy, c - cx) else old(modules[r, c])
      {
        for col := -4 to 5
          invariant forall r, c | 0 <= r < size && 0 <= c < size ::
            var done := Near(r, c, cy, cx, 4) && (r - cy < row || (r - cy == row && c - cx < col));
            && reserved[r, c] == (old(reserved[r, c]) || done)
            && modules[r, c] == if done then FinderDark(r - cy, c - cx) else old(modules[r, c])
        {
          var r, c := cy + row, cx + col;
          if 0 <= r < size && 0 <= c < size {
            var dist := Ring(row, col);
            Mark(r, c);
            if dist == 2 || dist == 4 {
              modules[r, c] := false;
            }
          }
        }
      }
    }

    /** A 5x5 alignment pattern: the ring at distance 1 stays light. */
    method AlignmentPattern(centre: nat, other: nat)
      requires Valid() && 2 <= centre && centre + 2 < size && 2 <= other && other + 2 < size
      modifies modules, reserved
      ensures forall r, c | 0 <= r < size && 0 <= c < size ::
        && reserved[r, c] == (old(reserved[r, c]) || Near(r, c, centre, other, 2))
        && modules[r, c] == (old(modules[r, c]) || (Near(r, c, centre, other, 2) && Ring(r - centre, c - other) != 1))
    {
      for row := -2 to 3
        invariant forall r, c | 0 <= r < size && 0 <= c < size ::
          var done := Near(r, c, centre, other, 2) && r - centre < row;
          && reserved[r, c] == (old(reserved[r, c]) || done)
          && modules[r, c] == (old(modules[r, c]) || (done && Ring(r - centre, c - other) != 1))
      {
        for col := -2 to 3
          invariant forall r, c | 0 <= r < size && 0 <= c < size ::
            var done := Near(r, c, centre, other, 2) && (r - centre < row || (r - centre == row && c - other < col));
            && reserved[r, c] == (old(reserved[r, c]) || done)
            && modules[r, c] == (old(modules[r, c]) || (done && Ring(r - centre, c - other) != 1))
        {
          var ring := Ring(row, col);
          if ring != 1 {
            Mark(centre + row, other + col);
          } else {
            Reserve(centre + row, other + col);
          }
        }
      }
    }

    /** The timing lines: every even module dark. */
    method Timing()
      requires Valid()
      modifies modules, reserved
      ensures forall r, c | 0 <= r < size && 0 <= c < size ::
        && reserved[r, c] == (old(reserved[r, c]) || InTiming(size, r, c))
        && modules[r, c] == (old(modules[r, c]) || (InTiming(size, r, c) && (r + c) % 2 == 0))
    {
      for i := 8 to size - 8
        invariant forall r, c | 0 <= r < size && 0 <= c < size ::
          var done := (r == 6 && 8 <= c < i) || (c == 6 && 8 <= r < i);
          && reserved[r, c] == (old(reserved[r, c]) || done)
          && modules[r, c] == (old(modules[r, c]) || (done && (r + c) % 2 == 0))
      {
        if i % 2 == 0 {
          Mark(6, i);
          Mark(i, 6);
        } else {
          Reserve(6, i);
          Reserve(i, 6);
        }
      }
    }

    /** Keep the format strips and the dark module free of payload. */
    method ReserveFormat()
      requires Valid()
      modifies modules, reserved
      ensures forall r, c | 0 <= r < size && 0 <= c < size ::
        && reserved[r, c] == (old(reserved[r, c]) || InFormat(size, r, c))
        && modules[r, c] == (old(modules[r, c]) || (r == size - 8 && c == 8))
    {
      Mark(size - 8, 8);
      for i := 0 to 9
        invariant forall r, c | 0 <= r < size && 0 <= c < size ::
          && reserved[r, c] == (
               old(reserved[r, c]) || (r == size - 8 && c == 8) || (r == 8 && c < i) || (c == 8 && r < i))
          && modules[r, c] == (old(modules[r, c]) || (r == size - 8 && c == 8))
      {
        Reserve(8, i);
        Reserve(i, 8);
      }
      for i := 0 to 8
        invariant forall r, c | 0 <= r < size && 0 <= c < size ::
          && reserved[r, c] == (
               old(reserved[r, c]) || (r == size - 8 && c == 8) || (r == 8 && c < 9) || (c == 8 && r < 9)
               || (r == 8 && c >= size - i) || (c == 8 && r >= size - i))
          && modules[r, c] == (old(modules[r, c]) || (r == size - 8 && c == 8))
      {
        Reserve(8, size - 1 - i);
        Reserve(size - 1 - i, 8);
      }
    }

    /** Every alignment pattern but the three that would fall on a finder. */
    method Alignments()
      requires Valid()
      requires forall r, c | 0 <= r < size && 0 <= c < size :: reserved[r, c] == InFinder(size, r, c)
      modifies modules, reserved
      ensures forall r, c | 0 <= r < size && 0 <= c < size ::
        reserved[r, c] == (InFinder(size, r, c) || Aligned(Centres(version), |Centres(version)|, r, c))
      ensures forall r, c | 0 <= r < size && 0 <= c < size ::
        modules[r, c] == (old(modules[r, c]) || AlignedDark(Centres(version), |Centres(version)|, r, c))
    {
      var centres := AlignmentCentres(version);
      var count := |centres|;
      for i := 0 to count
        invariant forall r, c | 0 <= r < size && 0 <= c < size ::
          && reserved[r, c] == (InFinder(size, r, c) || Aligned(centres, i, r, c))
          && modules[r, c] == (old(modules[r, c]) || AlignedDark(centres, i, r, c))
      {
        for j := 0 to count
          invariant forall r, c | 0 <= r < size && 0 <= c < size ::
            && reserved[r, c] == (
                 InFinder(size, r, c) || Aligned(centres, i, r, c) || AlignedInRow(centres, i, j, r, c))
            && modules[r, c] == (
                 old(modules[r, c]) || AlignedDark(centres, i, r, c) || AlignedDarkInRow(centres, i, j, r, c))
        {
          CentreFree(version, i, j);
          var centre, other := centres[i], centres[j];
          if !reserved[centre, other] {
            AlignmentPattern(centre, other);
          }
        }
      }
    }

    /** The version code of versions 7 and up, drawn twice. */
    method VersionInfo()
      requires Valid()
      modifies modules, reserved
      ensures forall r, c | 0 <= r < size && 0 <= c < size ::
        && reserved[r, c] == (old(reserved[r, c]) || InVersionInfo(version, r, c))
        && modules[r, c] == (
             old(modules[r, c]) || (InVersionInfo(version, r, c) && VersionDark(version, VersionIndex(size, r, c))))
    {
      if version < 7 {
        return;
      }
      var versionBits := VersionWord(version);
      hide VersionBits, InVersionInfo, VersionIndex, ShiftRight;
      VersionRange(version);
      for i := 0 to 18
        invariant forall r, c | 0 <= r < size && 0 <= c < size ::
          var done := InVersionInfo(version, r, c) && VersionIndex(size, r, c) < i;
          && reserved[r, c] == (old(reserved[r, c]) || done)
          && modules[r, c] == (old(modules[r, c]) || (done && VersionDark(version, VersionIndex(size, r, c))))
      {
        var dark := ShiftRight(versionBits, i) % 2 == 1;
        VersionCell(version, i);
        var a := size - 11 + i % 3;
        var b := i / 3;
        if dark {
          Mark(a, b);
          Mark(b, a);
        } else {
          Reserve(a, b);
          Reserve(b, a);
        }
      }
    }

    /** The payload in the standard zigzag, skipping everything reserved, mask 0 applied. */
    method Place(codewords: seq<Byte>)
      requires Valid()
      modifies modules
      ensures Placed(Snapshot(modules), Snapshot(reserved), size, AllBits(codewords), Steps(size))
      ensures ShowsBits(Snapshot(modules), Snapshot(reserved), size, AllBits(codewords))
      ensures forall r, c | 0 <= r < size && 0 <= c < size && reserved[r, c] :: modules[r, c] == old(modules[r, c])
    {
      ghost var map0 := Snapshot(reserved);
      hide Rank, AllBits, Steps, StepOf, StreamBit, PlacedUpTo, WalkCell, RowOf, ShowsBits;
      var bit := 0;
      var pair := 0;
      var col: int := size - 1;
      RankStart(map0, size);
      NothingPlaced(map0, AllBits(codewords));
      while col > 0
        invariant pair <= (size - 1) / 2
        invariant col == if size - 1 - 2 * pair >= 6 then size - 1 - 2 * pair else size - 2 - 2 * pair
        invariant StepOf(size, pair, 0, 0) <= Steps(size)
        invariant bit == Rank(map0, size, StepOf(size, pair, 0, 0))
        invariant PlacedUpTo(map0, AllBits(codewords), StepOf(size, pair, 0, 0))
        invariant forall r, c | 0 <= r < size && 0 <= c < size && reserved[r, c] :: modules[r, c] == old(modules[r, c])
        decreases size - pair
      {
        if col == 6 {
          col := col - 1;
        }
        assert col == PairColumn(size, pair);
        bit := PlacePair(codewords, map0, pair, col, bit);
        PairEnds(size, pair);
        pair := pair + 1;
        col := col - 2;
      }
      WalkEnds(size, pair);
      AllPlaced(map0, AllBits(codewords));
      hide *;
      PlacedShows(Snapshot(modules), map0, size, AllBits(codewords));
    }

    lemma NothingPlaced(map0: Grid, stream: seq<bool>)
      requires Valid() && Square(map0, size)
      ensures PlacedUpTo(map0, stream, 0)
    {}

    lemma AllPlaced(map0: Grid, stream: seq<bool>)
      requires Valid() && Square(map0, size) && PlacedUpTo(map0, stream, Steps(size))
      ensures Placed(Snapshot(modules), map0, size, stream, Steps(size))
    {
      hide Rank, Steps, StreamBit, WalkCell;
    }

    /** One column pair, top to bottom or bottom to top. */
    method PlacePair(codewords: seq<Byte>, ghost map0: Grid, pair: nat, col: nat, start: nat) returns (bit: nat)
      requires Valid() && map0 == Snapshot(reserved)
      requires pair < (size - 1) / 2 && col == PairColumn(size, pair) && StepOf(size, pair, 0, 0) <= Steps(size)
      requires start == Rank(map0, size, StepOf(size, pair, 0, 0))
      requires PlacedUpTo(map0, AllBits(codewords), StepOf(size, pair, 0, 0))
      modifies modules
      ensures StepOf(size, pair, size, 0) <= Steps(size)
      ensures bit == Rank(map0, size, StepOf(size, pair, size, 0))
      ensures PlacedUpTo(map0, AllBits(codewords), StepOf(size, pair, size, 0))
      ensures forall r, c | 0 <= r < size && 0 <= c < size && reserved[r, c] :: modules[r, c] == old(modules[r, c])
    {
      hide Rank, AllBits, Steps, StepOf, StreamBit, PlacedUpTo, WalkCell, PairColumn;
      bit := start;
      var upward := pair % 2 == 0;
      for row := 0 to size
        invariant StepOf(size, pair, row, 0) <= Steps(size)
        invariant bit == Rank(map0, size, StepOf(size, pair, row, 0))
        invariant PlacedUpTo(map0, AllBits(codewords), StepOf(size, pair, row, 0))
        invariant forall r, c | 0 <= r < size && 0 <= c < size && reserved[r, c] :: modules[r, c] == old(modules[r, c])
      {
        var r := if upward then size - 1 - row else row;
        StepVisits(size, pair, row, 0);
        bit := PlaceModule(codewords, map0, StepOf(size, pair, row, 0), r, col, bit);
        StepVisits(size, pair, row, 1);
        bit := PlaceModule(codewords, map0, StepOf(size, pair, row, 1), r, col - 1, bit);
        RowEnds(size, pair, row);
      }
    }

    /** One module of the walk: skipped when reserved, otherwise the next payload bit under the mask. */
    method PlaceModule(codewords: seq<Byte>, ghost map0: Grid, ghost k: nat, r: nat, c: nat,
        bit: nat) returns (next: nat)
      requires Valid() && map0 == Snapshot(reserved)
      requires k < Steps(size) && WalkCell(size, k) == Cell(r, c)
      requires bit == Rank(map0, size, k) && PlacedUpTo(map0, AllBits(codewords), k)
      modifies modules
      ensures next == Rank(map0, size, k + 1) && PlacedUpTo(map0, AllBits(codewords), k + 1)
      ensures !reserved[r, c] ==> modules[r, c] == (StreamBit(AllBits(codewords), bit) != ((r + c) % 2 == 0))
      ensures forall r, c | 0 <= r < size && 0 <= c < size && reserved[r, c] :: modules[r, c] == old(modules[r, c])
    {
      hide Rank, AllBits, Steps, StreamBit, WalkCell, ShiftRight;
      next := bit;
      RankNext(map0, size, k);
      if reserved[r, c] {
        return;
      }
      var total := |codewords| * 8;
      var dark := false;
      if bit < total {
        dark := ShiftRight(codewords[bit / 8] as nat, 7 - bit % 8) % 2 == 1;
      }
      CodewordBit(codewords, bit);
      if (r + c) % 2 == 0 {
        dark := !dark;
      }
      assert dark == (StreamBit(AllBits(codewords), bit) != ((r + c) % 2 == 0));
      KeepPlaced(map0, k);
      modules[r, c] := dark;
      next := bit + 1;
      hide StreamBit, Masked;
      forall j | 0 <= j < k && IsFree(map0, size, j)
        ensures modules[WalkCell(size, j).row, WalkCell(size, j).col]
             == old(modules[WalkCell(size, j).row, WalkCell(size, j).col])
      {
        assert WalkCell(size, j) != Cell(r, c);
      }
      assert Masked(Cell(r, c)) == ((r + c) % 2 == 0);
    }

    /** The walk so far holds its stream bits: Placed, spelled over the arrays. */
    ghost predicate PlacedUpTo(map0: Grid, stream: seq<bool>, k: nat)
      requires Valid() && Square(map0, size) && k <= Steps(size)
      reads modules
    {
      forall j | 0 <= j < k && IsFree(map0, size, j) ::
        modules[WalkCell(size, j).row, WalkCell(size, j).col]
        == (StreamBit(stream, Rank(map0, size, j)) != Masked(WalkCell(size, j)))
    }

    /** Writing step k's cell disturbs no earlier step. */
    lemma KeepPlaced(map0: Grid, k: nat)
      requires Valid() && Square(map0, size) && k < Steps(size)
      ensures forall j | 0 <= j < k :: WalkCell(size, j) != WalkCell(size, k)
    {
      hide WalkCell, Steps;
      forall j | 0 <= j < k ensures WalkCell(size, j) != WalkCell(size, k) {
        if WalkCell(size, j) == WalkCell(size, k) {
          WalkInjective(size, j, k);
        }
      }
    }

    /** Everything but payload and format: the patterns drawn, the reservation map complete. */
    method FunctionPatterns()
      requires Valid()
      requires forall r, c | 0 <= r < size && 0 <= c < size :: !modules[r, c] && !reserved[r, c]
      modifies modules, reserved
      ensures forall r, c | 0 <= r < size && 0 <= c < size :: reserved[r, c] == IsReserved(version, r, c)
      ensures forall r, c | 0 <= r < size && 0 <= c < size :: modules[r, c] == PatternDark(version, r, c)
    {
      hide Aligned, AlignedDark, FinderDark, VersionDark, VersionIndex;
      Finder(3, 3);
      Finder(size - 4, 3);
      Finder(3, size - 4);
      assert forall r, c | 0 <= r < size && 0 <= c < size :: reserved[r, c] == InFinder(size, r, c);
      assert forall r, c | 0 <= r < size && 0 <= c < size ::
        modules[r, c] == (InFinder(size, r, c) && InFinderDark(size, r, c));
      Alignments();
      Timing();
      VersionInfo();
      ReserveFormat();
      forall r, c | 0 <= r < size && 0 <= c < size && InFinder(size, r, c)
        ensures !AlignedDark(Centres(version), |Centres(version)|, r, c)
      {
        AlignedElsewhere(version, r, c);
      }
    }

    /** The format strip around the upper-left finder. */
    method FirstStrip()
      requires Valid()
      modifies modules
      ensures forall i | 0 <= i < 6 :: modules[8, i] == FormatBit(i)
      ensures modules[8, 7] == FormatBit(6) && modules[8, 8] == FormatBit(7) && modules[7, 8] == FormatBit(8)
      ensures forall i | 9 <= i < 15 :: modules[14 - i, 8] == FormatBit(i)
      ensures forall r, c | 0 <= r < size && 0 <= c < size && !InFirstStrip(r, c) ::
        modules[r, c] == old(modules[r, c])
    {
      hide FormatBit;
      for i := 0 to 6
        invariant forall k | 0 <= k < i :: modules[8, k] == FormatBit(k)
        invariant forall r, c | 0 <= r < size && 0 <= c < size && !InFirstStrip(r, c) ::
          modules[r, c] == old(modules[r, c])
      {
        modules[8, i] := FormatBit(i);
      }
      modules[8, 7] := FormatBit(6);
      modules[8, 8] := FormatBit(7);
      modules[7, 8] := FormatBit(8);
      label Row:
      for i := 9 to 15
        invariant forall c | 0 <= c < size :: modules[8, c] == old@Row(modules[8, c])
        invariant modules[7, 8] == FormatBit(8)
        invariant forall k | 9 <= k < i :: modules[14 - k, 8] == FormatBit(k)
        invariant forall r, c | 0 <= r < size && 0 <= c < size && !InFirstStrip(r, c) ::
          modules[r, c] == old(modules[r, c])
      {
        modules[14 - i, 8] := FormatBit(i);
      }
    }

    /**
     * The format strip beside the other two finders, and the dark module over its bit 7; (8, size-8) is never written.
     */
    method SecondStrip()
      requires Valid()
      modifies modules
      ensures forall i | 0 <= i < 7 :: modules[size - 1 - i, 8] == FormatBit(i)
      ensures forall i | 8 <= i < 15 :: modules[8, size - 15 + i] == FormatBit(i)
      ensures modules[size - 8, 8]
      ensures forall r, c | 0 <= r < size && 0 <= c < size
                     && !(c == 8 && r >= size - 8) && !(r == 8 && c >= size - 7) ::
        modules[r, c] == old(modules[r, c])
    {
      hide FormatBit;
      for i := 0 to 8
        invariant forall k | 0 <= k < i :: modules[size - 1 - k, 8] == FormatBit(k)
        invariant forall r, c | 0 <= r < size && 0 <= c < size && !(c == 8 && r >= size - 8) ::
          modules[r, c] == old(modules[r, c])
      {
        modules[size - 1 - i, 8] := FormatBit(i);
      }
      label Column:
      for i := 8 to 15
        invariant forall r | 9 <= r < size :: modules[r, 8] == old@Column(modules[r, 8])
        invariant forall k | 8 <= k < i :: modules[8, size - 15 + k] == FormatBit(k)
        invariant forall r, c | 0 <= r < size && 0 <= c < size
                       && !(c == 8 && r >= size - 8) && !(r == 8 && c >= size - 7) ::
          modules[r, c] == old(modules[r, c])
      {
        modules[8, size - 15 + i] := FormatBit(i);
      }
      modules[size - 8, 8] := true;
    }

    method DrawFormat()
      requires Valid() && !modules[8, size - 8]
      modifies modules
      ensures FormatReads(Snapshot(modules), size)
      ensures modules[size - 8, 8]
      ensures forall r, c | 0 <= r < size && 0 <= c < size && !Spelled(size, r, c) && !(r == size - 8 && c == 8) ::
        modules[r, c] == old(modules[r, c])
    {
      hide FormatBit, FormatReads;
      FirstStrip();
      label First:
      SecondStrip();
      forall r, c | 0 <= r < size && 0 <= c < size && !Spelled(size, r, c) && !(r == size - 8 && c == 8)
        ensures modules[r, c] == old(modules[r, c])
      {
        assert modules[r, c] == old@First(modules[r, c]);
      }
      hide Spelled;
      FormatSpells();
      FormatAssembled(Snapshot(modules), size);
    }
  }

  predicate AlignedDarkInRow(centres: seq<nat>, i: nat, j: nat, r: nat, c: nat)
    requires i < |centres| && j <= |centres|
  {
    j > 0 && (AlignedDarkInRow(centres, i, j - 1, r, c)
              || (!Corner(i, j - 1, |centres|) && Near(r, c, centres[i], centres[j - 1], 2)
                  && Ring(r - centres[i], c - centres[j - 1]) != 1))
  }

  /** The dark modules of the patterns in the first i centre rows. */
  predicate AlignedDark(centres: seq<nat>, i: nat, r: nat, c: nat)
    requires i <= |centres|
  {
    i > 0 && (AlignedDark(centres, i - 1, r, c) || AlignedDarkInRow(centres, i - 1, |centres|, r, c))
  }

  /** When pattern (i, j) comes up its centre is taken exactly if it is a finder corner. */
  lemma CentreFree(version: nat, i: nat, j: nat)
    requires 1 <= version <= 10 && i < |Centres(version)| && j < |Centres(version)|
    ensures var centres := Centres(version); var size := SymbolSize(version);
      && (InFinder(size, centres[i], centres[j]) <==> Corner(i, j, |centres|))
      && !Aligned(centres, i, centres[i], centres[j])
      && !AlignedInRow(centres, i, j, centres[i], centres[j])
      && 2 <= centres[i] && centres[i] + 2 < size
  {
    var centres := Centres(version);
    FarRows(centres, i, i, centres[j]);
    FarColumns(centres, i, j, j);
  }

  lemma {:induction false} FarRows(centres: seq<nat>, i: nat, upTo: nat, c: nat)
    requires upTo <= i < |centres|
    requires forall k | 0 <= k < i :: centres[k] + 2 < centres[i]
    ensures !Aligned(centres, upTo, centres[i], c)
  {
    if upTo > 0 {
      FarRows(centres, i, upTo - 1, c);
      FarRow(centres, upTo - 1, |centres|, centres[i], c);
    }
  }

  lemma {:induction false} FarRow(centres: seq<nat>, k: nat, upTo: nat, r: nat, c: nat)
    requires k < |centres| && upTo <= |centres| && centres[k] + 2 < r
    ensures !AlignedInRow(centres, k, upTo, r, c)
  {
    if upTo > 0 {
      FarRow(centres, k, upTo - 1, r, c);
    }
  }

  lemma {:induction false} FarColumns(centres: seq<nat>, i: nat, j: nat, upTo: nat)
    requires i < |centres| && upTo <= j < |centres|
    requires forall k | 0 <= k < j :: centres[k] + 2 < centres[j]
    ensures !AlignedInRow(centres, i, upTo, centres[i], centres[j])
  {
    if upTo > 0 {
      FarColumns(centres, i, j, upTo - 1);
    }
  }

  /** The bit of the version code that a module of the version blocks shows. */
  function VersionIndex(size: nat, r: nat, c: nat): int {
    if c < 6 then 3 * c + (r - (size - 11)) else 3 * r + (c - (size - 11))
  }

  method VersionWord(version: nat) returns (bits: nat)
    requires version <= 40
    ensures bits == VersionBits(version)
  {
    hide VersionStep;
    var rem: bv32 := version as bv32;
    for i := 0 to 12
      invariant rem == VersionRem(version as bv32, i)
    {
      rem := VersionStep(rem);
    }
    bits := ((version as bv32 << 12) | rem) as nat;
  }

  lemma VersionRange(version: nat)
    requires 7 <= version <= 10
    ensures var size := SymbolSize(version);
      forall r: nat, c: nat | r < size && c < size && InVersionInfo(version, r, c) ::
      0 <= VersionIndex(size, r, c) < 18
  {}

  lemma VersionCell(version: nat, i: nat)
    requires 7 <= version <= 10 && i < 18
    ensures var size := SymbolSize(version); forall r: nat, c: nat | r < size && c < size ::
      (InVersionInfo(version, r, c) && VersionIndex(size, r, c) == i)
      <==> ((r == size - 11 + i % 3 && c == i / 3) || (r == i / 3 && c == size - 11 + i % 3))
  {
    var q, m := i / 3, i % 3;
    assert i == 3 * q + m && 0 <= m < 3 && 0 <= q < 6;
  }

  lemma RankStart(map0: Grid, size: nat)
    requires Walkable(size) && Square(map0, size)
    ensures StepOf(size, 0, 0, 0) == 0 <= Steps(size) && Rank(map0, size, 0) == 0
  {}

  lemma RankNext(map0: Grid, size: nat, k: nat)
    requires Walkable(size) && Square(map0, size) && k < Steps(size)
    ensures Rank(map0, size, k + 1) == Rank(map0, size, k) + if IsFree(map0, size, k) then 1 else 0
  {}

  /** The step of a pair, row and side is the next step of the walk, and visits that module. */
  lemma StepVisits(size: nat, pair: nat, row: nat, side: nat)
    requires Walkable(size) && pair < (size - 1) / 2 && row < size && side < 2
    ensures var k := StepOf(size, pair, row, side);
      && k < Steps(size) && StepOf(size, pair, row, side + 1) == k + 1
      && WalkCell(size, k) == Cell(RowOf(size, pair, row), PairColumn(size, pair) - side)
  {
    StepParts(size, pair, row, side);
    MulMonotone(2 * size, pair + 1, (size - 1) / 2);
    assert 2 * size * (pair + 1) == 2 * size * pair + 2 * size;
  }

  lemma RowEnds(size: nat, pair: nat, row: nat)
    ensures StepOf(size, pair, row, 2) == StepOf(size, pair, row + 1, 0)
  {}

  lemma PairEnds(size: nat, pair: nat)
    ensures StepOf(size, pair, size, 0) == StepOf(size, pair + 1, 0, 0)
  {
    assert 2 * size * (pair + 1) == 2 * size * pair + 2 * size;
  }

  lemma WalkEnds(size: nat, pair: nat)
    requires Walkable(size) && pair == (size - 1) / 2
    ensures StepOf(size, pair, 0, 0) == Steps(size)
  {}

  /** The bit the placement loop shifts out of a codeword is that bit of the stream, and a zero past its end. */
  lemma CodewordBit(codewords: seq<Byte>, bit: nat)
    ensures StreamBit(AllBits(codewords), bit) ==
      (bit < |codewords| * 8 && ShiftRight(codewords[bit / 8] as nat, 7 - bit % 8) % 2 == 1)
  {
    hide AllBits, Bits, ShiftRight, ByteBits;
    if bit < |codewords| * 8 {
      var q, r := bit / 8, bit % 8;
      assert bit == 8 * q + r;
      AllBitsAt(codewords, q, r);
      ByteBit(codewords[q], r);
    }
  }

  lemma ByteBit(b: Byte, r: nat)
    requires r < 8
    ensures ByteBits(b)[r] == (ShiftRight(b as nat, 7 - r) % 2 == 1)
  {
    BitAt(b as nat, 8, r);
    hide Bits, ShiftRight;
  }

  /** The version words of Annex D of ISO/IEC 18004 for the versions this encoder labels. */
  lemma VersionWords()
    ensures VersionCode(7) == 0x07C94 && VersionCode(8) == 0x085BC
    ensures VersionCode(9) == 0x09A99 && VersionCode(10) == 0x0A4D3
  {
    VersionWordOf7();
    VersionWordOf8();
    VersionWordOf9();
    VersionWordOf10();
  }

  lemma VersionWordOf7()
    ensures VersionCode(7) == 0x07C94
  {
    assert VersionRem(7, 2) == 0x1c;
    assert VersionRem(7, 4) == 0x70;
    assert VersionRem(7, 6) == 0x1c0;
    assert VersionRem(7, 8) == 0x700;
    assert VersionRem(7, 10) == 0x325;
  }

  lemma VersionWordOf8()
    ensures VersionCode(8) == 0x085BC
  {
    assert VersionRem(8, 2) == 0x20;
    assert VersionRem(8, 4) == 0x80;
    assert VersionRem(8, 6) == 0x200;
    assert VersionRem(8, 8) == 0x800;
    assert VersionRem(8, 10) == 0x16f;
  }

  lemma VersionWordOf9()
    ensures VersionCode(9) == 0x09A99
  {
    assert VersionRem(9, 2) == 0x24;
    assert VersionRem(9, 4) == 0x90;
    assert VersionRem(9, 6) == 0x240;
    assert VersionRem(9, 8) == 0x900;
    assert VersionRem(9, 10) == 0x56f;
  }

  lemma VersionWordOf10()
    ensures VersionCode(10) == 0x0A4D3
  {
    assert VersionRem(10, 2) == 0x28;
    assert VersionRem(10, 4) == 0xa0;
    assert VersionRem(10, 6) == 0x280;
    assert VersionRem(10, 8) == 0xa00;
    assert VersionRem(10, 10) == 0x96f;
  }

  // -- The finished symbol -------------------------------------------------------

  /** Both format copies spell the format word of level M and mask 0. */
  ghost predicate FormatReads(grid: Grid, size: nat)
    requires Square(grid, size) && size >= 21
  {
    && (forall i | 0 <= i < 15 :: At(grid, size, FirstCopy(i)) == FormatBit(i))
    && (forall i | 0 <= i < 15 :: At(grid, size, SecondCopy(size, i)) == FormatBit(i))
  }

  /** Dark in the finder that holds this module. */
  predicate InFinderDark(size: nat, r: int, c: int) {
    FinderDark(if r < 8 then r - 3 else r - (size - 4), if c < 8 then c - 3 else c - (size - 4))
  }

  /** Dark as a function pattern: finder, alignment, timing, version or the dark module. */
  predicate PatternDark(version: nat, r: nat, c: nat)
    requires 1 <= version <= 10
  {
    var size := SymbolSize(version);
    if InFinder(size, r, c) then InFinderDark(size, r, c)
    else
      || AlignedDark(Centres(version), |Centres(version)|, r, c)
      || (InTiming(size, r, c) && (r + c) % 2 == 0)
      || (InVersionInfo(version, r, c) && VersionDark(version, VersionIndex(size, r, c)))
      || (r == size - 8 && c == 8)
  }

  /** Every reserved module that spells no format bit shows its function pattern. */
  ghost predicate PatternsDrawn(grid: Grid, version: nat)
    requires 1 <= version <= 10 && Square(grid, SymbolSize(version))
  {
    forall r, c | 0 <= r < SymbolSize(version) && 0 <= c < SymbolSize(version) ::
      IsReserved(version, r, c) && !Spelled(SymbolSize(version), r, c) ==> grid[r][c] == PatternDark(version, r, c)
  }

  /** Function patterns, then payload, then format: the whole drawing. */
  method Matrix(version: nat, codewords: seq<Byte>) returns (modules: array2<bool>)
    requires 1 <= version <= 10
    ensures fresh(modules)
    ensures var size := SymbolSize(version); var grid := Snapshot(modules);
      && Square(grid, size)
      && Placed(grid, ReservedGrid(version), size, AllBits(codewords), Steps(size))
      && ShowsBits(grid, ReservedGrid(version), size, AllBits(codewords))
      && FormatReads(grid, size)
      && PatternsDrawn(grid, version)
  {
    hide IsReserved, Placed, ShowsBits, Rank, AllBits, Steps, FormatBit, PatternDark;
    var canvas := new Canvas(version);
    canvas.FunctionPatterns();
    modules := canvas.modules;
    ghost var size := canvas.size;
    ReservedGridAt(version);
    GridsEqual(Snapshot(canvas.reserved), ReservedGrid(version), size);
    PatternsAreReserved(version);
    canvas.Place(codewords);
    CornerIsLight(version);
    assert PatternsDrawn(Snapshot(modules), version) && !modules[8, size - 8];
    ghost var placed := Snapshot(modules);
    canvas.DrawFormat();
    PatternsSurvive(placed, Snapshot(modules), version);
    FormatInside(size);
    hide FormatReads, Spelled, InFormat;
    PlacedSurvives(placed, Snapshot(modules), version, AllBits(codewords));
    PlacedShows(Snapshot(modules), ReservedGrid(version), size, AllBits(codewords));
  }

  lemma FormatInside(size: nat)
    requires size >= 21
    ensures forall r: nat, c: nat | r < size && c < size && (Spelled(size, r, c) || (r == size - 8 && c == 8)) ::
      InFormat(size, r, c)
  {
  }

  /** Drawing the format leaves every function pattern, the dark module among them. */
  lemma PatternsSurvive(before: Grid, after: Grid, version: nat)
    requires 1 <= version <= 10
    requires var size := SymbolSize(version);
      && Square(before, size) && Square(after, size) && PatternsDrawn(before, version) && after[size - 8][8]
      && forall r, c | 0 <= r < size && 0 <= c < size && !Spelled(size, r, c) && !(r == size - 8 && c == 8) ::
           after[r][c] == before[r][c]
    ensures PatternsDrawn(after, version)
  {
    assert PatternDark(version, SymbolSize(version) - 8, 8);
    hide PatternDark, Spelled, IsReserved;
  }

  /** The format module that is never written is light before the format, too. */
  lemma CornerIsLight(version: nat)
    requires 1 <= version <= 10
    ensures !PatternDark(version, 8, SymbolSize(version) - 8)
  {
    hide AlignedDark, VersionDark, VersionIndex;
    AlignedElsewhere(version, 8, SymbolSize(version) - 8);
  }

  lemma PatternsAreReserved(version: nat)
    requires 1 <= version <= 10
    ensures forall r: nat, c: nat | InFinder(SymbolSize(version), r, c) || InFormat(SymbolSize(version), r, c) ::
      IsReserved(version, r, c)
  {
    hide Aligned;
  }

  lemma ReservedGridAt(version: nat)
    requires 1 <= version <= 10
    ensures forall r, c | 0 <= r < SymbolSize(version) && 0 <= c < SymbolSize(version) ::
      ReservedGrid(version)[r][c] == IsReserved(version, r, c)
  {
    hide IsReserved;
  }

  lemma GridsEqual(a: Grid, b: Grid, size: nat)
    requires Square(a, size) && Square(b, size)
    requires forall r, c | 0 <= r < size && 0 <= c < size :: a[r][c] == b[r][c]
    ensures a == b
  {
    forall r | 0 <= r < size ensures a[r] == b[r] {}
  }

  /** What the two strips hold is the format word, twice, in the standard's places. */
  lemma FormatAssembled(grid: Grid, size: nat)
    requires Square(grid, size) && size >= 21
    requires forall i | 0 <= i < 6 :: grid[8][i] == FormatBit(i)
    requires grid[8][7] == FormatBit(6) && grid[8][8] == FormatBit(7) && grid[7][8] == FormatBit(8)
    requires forall i | 9 <= i < 15 :: grid[14 - i][8] == FormatBit(i)
    requires forall i | 0 <= i < 7 :: grid[size - 1 - i][8] == FormatBit(i)
    requires forall i | 8 <= i < 15 :: grid[8][size - 15 + i] == FormatBit(i)
    requires grid[8][size - 8] == FormatBit(7)
    ensures FormatReads(grid, size)
  {
    hide FormatBit;
    forall i | 0 <= i < 15 ensures At(grid, size, FirstCopy(i)) == FormatBit(i) {}
    forall i | 0 <= i < 15 ensures At(grid, size, SecondCopy(size, i)) == FormatBit(i) {
      if i != 7 && i >= 8 {
        assert grid[8][size - 15 + i] == FormatBit(i);
      }
    }
  }

  /** Bit 7 of the format word is 0, the colour of the one strip module that is never written. */
  lemma FormatSpells()
    ensures !FormatBit(7)
  {}

  /** Writes to reserved modules do not reach the payload. */
  lemma PlacedSurvives(before: Grid, after: Grid, version: nat, stream: seq<bool>)
    requires 1 <= version <= 10
    requires var size := SymbolSize(version);
      && Square(before, size) && Square(after, size)
      && Placed(before, ReservedGrid(version), size, stream, Steps(size))
      && forall r, c | 0 <= r < size && 0 <= c < size && !InFormat(size, r, c) :: after[r][c] == before[r][c]
    ensures Placed(after, ReservedGrid(version), SymbolSize(version), stream, Steps(SymbolSize(version)))
  {
    hide Rank, Steps, WalkCell, StreamBit;
    var size := SymbolSize(version);
    forall j | 0 <= j < Steps(size) && IsFree(ReservedGrid(version), size, j)
      ensures At(after, size, WalkCell(size, j)) == At(before, size, WalkCell(size, j))
    {
      var cell := WalkCell(size, j);
      assert !IsReserved(version, cell.row, cell.col);
    }
  }

  lemma {:induction false} AlignedDarkInside(centres: seq<nat>, i: nat, r: nat, c: nat)
    requires i <= |centres| && AlignedDark(centres, i, r, c)
    ensures Aligned(centres, i, r, c)
  {
    if !AlignedDark(centres, i - 1, r, c) {
      AlignedDarkInsideRow(centres, i - 1, |centres|, r, c);
    } else {
      AlignedDarkInside(centres, i - 1, r, c);
    }
  }

  lemma {:induction false} AlignedDarkInsideRow(centres: seq<nat>, i: nat, j: nat, r: nat, c: nat)
    requires i < |centres| && j <= |centres| && AlignedDarkInRow(centres, i, j, r, c)
    ensures AlignedInRow(centres, i, j, r, c)
  {
    if AlignedDarkInRow(centres, i, j - 1, r, c) {
      AlignedDarkInsideRow(centres, i, j - 1, r, c);
    }
  }

  /** No alignment pattern reaches a finder or the unwritten format module. */
  lemma AlignedElsewhere(version: nat, r: nat, c: nat)
    requires 1 <= version <= 10 && r < SymbolSize(version) && c < SymbolSize(version)
    requires InFinder(SymbolSize(version), r, c) || (r == 8 && c == SymbolSize(version) - 8)
    ensures !AlignedDark(Centres(version), |Centres(version)|, r, c)
  {
    hide Aligned, AlignedDark, Centres;
    AlignedCases(version, r, c);
    if AlignedDark(Centres(version), |Centres(version)|, r, c) {
      AlignedDarkInside(Centres(version), |Centres(version)|, r, c);
    }
  }
}
