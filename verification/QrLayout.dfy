/** Which modules of a symbol belong to its function patterns, and how many that leaves for the payload. */
module QrLayout {
  import opened QrWalk
  import opened QrEncode

  function SymbolSize(version: nat): (size: nat)
    requires 1 <= version <= 10
    ensures Walkable(size)
  {
    17 + 4 * version
  }

  /** The alignment centres, ascending. */
  function Centres(version: nat): seq<nat>
    requires 1 <= version <= 10
  {
    var last := 10 + 4 * version;
    if version == 1 then []
    else if version < 7 then [6, last]
    else [6, 8 + 2 * version, last]
  }

  /** The three corners that hold a finder carry no alignment pattern. */
  predicate Corner(i: nat, j: nat, count: nat) {
    (i == 0 && j == 0) || (i == 0 && j == count - 1) || (i == count - 1 && j == 0)
  }

  predicate Near(r: int, c: int, row: int, col: int, distance: nat) {
    row - distance <= r <= row + distance && col - distance <= c <= col + distance
  }

  /** Covered by one of the first j patterns in the row of centre i. */
  predicate AlignedInRow(centres: seq<nat>, i: nat, j: nat, r: nat, c: nat)
    requires i < |centres| && j <= |centres|
  {
    j > 0 && (AlignedInRow(centres, i, j - 1, r, c)
              || (!Corner(i, j - 1, |centres|) && Near(r, c, centres[i], centres[j - 1], 2)))
  }

  /** Covered by a pattern of the first i centre rows. */
  predicate Aligned(centres: seq<nat>, i: nat, r: nat, c: nat)
    requires i <= |centres|
  {
    i > 0 && (Aligned(centres, i - 1, r, c) || AlignedInRow(centres, i - 1, |centres|, r, c))
  }

  /** The finders with their separators. */
  predicate InFinder(size: nat, r: nat, c: nat) {
    (r < 8 && c < 8) || (r < 8 && c + 8 >= size) || (r + 8 >= size && c < 8)
  }

  predicate InTiming(size: nat, r: nat, c: nat) {
    (r == 6 && 8 <= c && c + 8 < size) || (c == 6 && 8 <= r && r + 8 < size)
  }

  /** The two version blocks, from version 7 on. */
  predicate InVersionInfo(version: nat, r: nat, c: nat)
    requires 1 <= version <= 10
  {
    var size := SymbolSize(version);
    version >= 7 && ((size - 11 <= r < size - 8 && c < 6) || (r < 6 && size - 11 <= c < size - 8))
  }

  /** The format strips beside the finders, the dark module among them. */
  predicate InFormat(size: nat, r: nat, c: nat) {
    (r == 8 && (c < 9 || c + 8 >= size)) || (c == 8 && (r < 9 || r + 8 >= size))
  }

  predicate IsReserved(version: nat, r: nat, c: nat)
    requires 1 <= version <= 10
  {
    var size := SymbolSize(version);
    || InFinder(size, r, c)
    || Aligned(Centres(version), |Centres(version)|, r, c)
    || InTiming(size, r, c)
    || InVersionInfo(version, r, c)
    || InFormat(size, r, c)
  }

  function ReservedGrid(version: nat): (grid: Grid)
    requires 1 <= version <= 10
    ensures Square(grid, SymbolSize(version))
  {
    var size := SymbolSize(version);
    seq(size, r requires 0 <= r < size => seq(size, c requires 0 <= c < size => IsReserved(version, r, c)))
  }

  /** The alignment patterns, one by one. */
  lemma AlignedCases(version: nat, r: nat, c: nat)
    requires 1 <= version <= 10
    ensures var last := 10 + 4 * version;
      var mid := 8 + 2 * version;
      Aligned(Centres(version), |Centres(version)|, r, c) <==>
        version > 1
        && (Near(r, c, last, last, 2)
            || (version >= 7 && (Near(r, c, 6, mid, 2) || Near(r, c, mid, 6, 2) || Near(r, c, mid, mid, 2)
                                 || Near(r, c, mid, last, 2) || Near(r, c, last, mid, 2))))
  {
    var centres := Centres(version);
    if version == 1 {
    } else if version < 7 {
      AlignedTwo(centres, r, c);
    } else {
      AlignedThree(centres, r, c);
    }
  }

  lemma AlignedTwo(centres: seq<nat>, r: nat, c: nat)
    requires |centres| == 2
    ensures Aligned(centres, 2, r, c) <==> Near(r, c, centres[1], centres[1], 2)
  {
    hide Near;
    assert !AlignedInRow(centres, 0, 1, r, c);
    assert !AlignedInRow(centres, 1, 1, r, c);
    assert !Aligned(centres, 1, r, c);
  }

  lemma AlignedThree(centres: seq<nat>, r: nat, c: nat)
    requires |centres| == 3
    ensures Aligned(centres, 3, r, c) <==>
      || Near(r, c, centres[0], centres[1], 2) || Near(r, c, centres[1], centres[0], 2)
      || Near(r, c, centres[1], centres[1], 2) || Near(r, c, centres[1], centres[2], 2)
      || Near(r, c, centres[2], centres[1], 2) || Near(r, c, centres[2], centres[2], 2)
  {
    hide Near;
    RowOfThree(centres, 0, r, c);
    RowOfThree(centres, 1, r, c);
    RowOfThree(centres, 2, r, c);
    hide AlignedInRow;
    assert Aligned(centres, 1, r, c) == AlignedInRow(centres, 0, 3, r, c);
    assert Aligned(centres, 2, r, c) == (Aligned(centres, 1, r, c) || AlignedInRow(centres, 1, 3, r, c));
  }

  lemma RowOfThree(centres: seq<nat>, i: nat, r: nat, c: nat)
    requires |centres| == 3 && i < 3
    ensures AlignedInRow(centres, i, 3, r, c) <==>
      || (i == 1 && Near(r, c, centres[i], centres[0], 2))
      || Near(r, c, centres[i], centres[1], 2)
      || (i > 0 && Near(r, c, centres[i], centres[2], 2))
  {
    hide Near;
    assert !AlignedInRow(centres, i, 0, r, c);
    assert AlignedInRow(centres, i, 1, r, c) == (i == 1 && Near(r, c, centres[i], centres[0], 2));
    assert AlignedInRow(centres, i, 2, r, c)
        == (AlignedInRow(centres, i, 1, r, c) || Near(r, c, centres[i], centres[1], 2));
  }

  // -- Capacity ----------------------------------------------------------------

  function FinderRects(size: nat): seq<Rect>
    requires size >= 8
  {
    [Rect(0, 9, 0, 9), Rect(0, 9, size - 8, size), Rect(size - 8, size, 0, 9)]
  }

  function Strip(from: nat, to: nat): seq<Rect> {
    [Rect(6, 7, from, to), Rect(from, to, 6, 7)]
  }

  function Pattern(row: nat, col: nat): Rect
    requires row >= 2 && col >= 2
  {
    Rect(row - 2, row + 3, col - 2, col + 3)
  }

  /** Disjoint rectangles that cover every reserved module. */
  function Cover(version: nat): seq<Rect>
    requires 1 <= version <= 10
  {
    var size := SymbolSize(version);
    var last, mid := 10 + 4 * version, 8 + 2 * version;
    if version == 1 then
      FinderRects(size) + Strip(9, size - 8)
    else if version < 7 then
      FinderRects(size) + Strip(9, size - 8) + [Pattern(last, last)]
    else
      FinderRects(size) + Strip(9, mid - 2) + Strip(mid + 3, size - 8)
      + [Pattern(6, mid), Pattern(mid, 6)] + [Pattern(mid, mid), Pattern(mid, last)]
      + [Pattern(last, mid), Pattern(last, last)]
      + [Rect(0, 6, size - 11, size - 8), Rect(size - 11, size - 8, 0, 6)]
  }

  lemma CoverCoversSmall(version: nat, r: nat, c: nat)
    requires 1 <= version < 7
    requires r < SymbolSize(version) && c < SymbolSize(version) && (IsReserved(version, r, c) || c == 6)
    ensures exists i :: 0 <= i < |Cover(version)| && Inside(Cover(version)[i], r, c)
  {
    AlignedCases(version, r, c);
    hide Aligned;
    var cover := Cover(version);
    assert Inside(cover[0], r, c) || Inside(cover[1], r, c) || Inside(cover[2], r, c)
        || Inside(cover[3], r, c) || Inside(cover[4], r, c) || (version > 1 && Inside(cover[5], r, c));
  }

  lemma CoverCoversLarge(version: nat, r: nat, c: nat)
    requires 7 <= version <= 10
    requires r < SymbolSize(version) && c < SymbolSize(version) && (IsReserved(version, r, c) || c == 6)
    ensures exists i :: 0 <= i < |Cover(version)| && Inside(Cover(version)[i], r, c)
  {
    AlignedCases(version, r, c);
    hide Aligned;
    var cover := Cover(version);
    assert Inside(cover[0], r, c) || Inside(cover[1], r, c) || Inside(cover[2], r, c)
        || Inside(cover[3], r, c) || Inside(cover[4], r, c) || Inside(cover[5], r, c) || Inside(cover[6], r, c)
        || Inside(cover[7], r, c) || Inside(cover[8], r, c) || Inside(cover[9], r, c)
        || Inside(cover[10], r, c) || Inside(cover[11], r, c) || Inside(cover[12], r, c)
        || Inside(cover[13], r, c) || Inside(cover[14], r, c);
  }

  lemma {:induction false} AreaConcat(a: seq<Rect>, b: seq<Rect>)
    ensures Area(a + b) == Area(a) + Area(b)
  {
    if |a| == 0 {
      assert a + b == b;
    } else {
      AreaConcat(a[1..], b);
      assert (a + b)[1..] == a[1..] + b;
    }
  }

  /** The rectangles are well formed and take this many modules together. */
  ghost predicate Measures(rects: seq<Rect>, area: int) {
    WellFormed(rects) && Area(rects) == area
  }

  lemma MeasureConcat(a: seq<Rect>, m: int, b: seq<Rect>, n: int)
    requires Measures(a, m) && Measures(b, n)
    ensures Measures(a + b, m + n)
  {
    AreaConcat(a, b);
  }

  lemma MeasureOne(a: Rect)
    requires a.top <= a.bottom && a.left <= a.right
    ensures Measures([a], (a.bottom - a.top) * (a.right - a.left))
  {}

  lemma MeasureTwo(a: Rect, b: Rect)
    requires a.top <= a.bottom && a.left <= a.right && b.top <= b.bottom && b.left <= b.right
    ensures Measures([a, b], (a.bottom - a.top) * (a.right - a.left) + (b.bottom - b.top) * (b.right - b.left))
  {
    assert [a, b] == [a] + [b];
    AreaConcat([a], [b]);
  }

  lemma MeasureFinders(size: nat)
    requires size >= 8
    ensures Measures(FinderRects(size), 225)
  {
    var f := FinderRects(size);
    assert f == [f[0], f[1]] + [f[2]];
    MeasureTwo(f[0], f[1]);
    MeasureOne(f[2]);
    MeasureConcat([f[0], f[1]], 144 + 9, [f[2]], 72);
  }

  lemma MeasurePatterns(r: nat, c: nat, r': nat, c': nat)
    requires r >= 2 && c >= 2 && r' >= 2 && c' >= 2
    ensures Measures([Pattern(r, c), Pattern(r', c')], 50)
  {
    MeasureTwo(Pattern(r, c), Pattern(r', c'));
  }

  function CoverArea(version: nat): int {
    8 * version + if version == 1 then 225 else if version < 7 then 250 else 401
  }

  /** Exactly how many modules the cover takes. */
  lemma MeasureCover(version: nat)
    requires 1 <= version <= 10
    ensures Measures(Cover(version), CoverArea(version))
  {
    var size := SymbolSize(version);
    var last, mid := 10 + 4 * version, 8 + 2 * version;
    hide Measures, FinderRects, Strip;
    MeasureFinders(size);
    var a := FinderRects(size);
    if version < 7 {
      MeasureStrip(9, size - 8);
      MeasureConcat(a, 225, Strip(9, size - 8), 8 * version);
      if version > 1 {
        MeasureOne(Pattern(last, last));
        MeasureConcat(a + Strip(9, size - 8), 225 + 8 * version, [Pattern(last, last)], 25);
      }
    } else {
      MeasureLarge(version);
    }
  }

  lemma MeasureStrip(from: nat, to: nat)
    requires from <= to
    ensures Measures(Strip(from, to), 2 * (to - from))
  {
    MeasureTwo(Rect(6, 7, from, to), Rect(from, to, 6, 7));
  }

  /** The finders, and the timing lines on both sides of the centre. */
  lemma MeasureFrame(version: nat)
    requires 7 <= version <= 10
    ensures var size, mid := SymbolSize(version), 8 + 2 * version;
      Measures(FinderRects(size) + Strip(9, mid - 2) + Strip(mid + 3, size - 8), 8 * version + 215)
  {
    var size, mid := SymbolSize(version), 8 + 2 * version;
    hide Measures, FinderRects, Strip;
    var a := FinderRects(size);
    MeasureFinders(size);
    MeasureStrip(9, mid - 2);
    MeasureConcat(a, 225, Strip(9, mid - 2), 2 * (mid - 11));
    MeasureStrip(mid + 3, size - 8);
    MeasureConcat(
      a + Strip(9, mid - 2), 225 + 2 * (mid - 11), Strip(mid + 3, size - 8), 2 * (size - 8 - (mid + 3)));
  }

  lemma MeasureLarge(version: nat)
    requires 7 <= version <= 10
    ensures Measures(Cover(version), CoverArea(version))
  {
    var size := SymbolSize(version);
    var last, mid := 10 + 4 * version, 8 + 2 * version;
    hide Measures, FinderRects, Strip, Pattern;
    var c := FinderRects(size) + Strip(9, mid - 2) + Strip(mid + 3, size - 8);
    var d := c + [Pattern(6, mid), Pattern(mid, 6)];
    var e := d + [Pattern(mid, mid), Pattern(mid, last)];
    var f := e + [Pattern(last, mid), Pattern(last, last)];
    var g := [Rect(0, 6, size - 11, size - 8), Rect(size - 11, size - 8, 0, 6)];
    assert Cover(version) == f + g;
    var n := 8 * version + 215;
    assert CoverArea(version) == n + 186;
    hide Cover, CoverArea;
    MeasureFrame(version);
    MeasurePatterns(6, mid, mid, 6);
    MeasureConcat(c, n, [Pattern(6, mid), Pattern(mid, 6)], 50);
    MeasurePatterns(mid, mid, mid, last);
    MeasureConcat(d, n + 50, [Pattern(mid, mid), Pattern(mid, last)], 50);
    MeasurePatterns(last, mid, last, last);
    MeasureConcat(e, n + 100, [Pattern(last, mid), Pattern(last, last)], 50);
    MeasureTwo(Rect(0, 6, size - 11, size - 8), Rect(size - 11, size - 8, 0, 6));
    MeasureConcat(f, n + 150, g, 36);
  }

  /** No codeword bit is dropped: the walk has a free cell for every bit of every codeword. */
  lemma RoomForEveryBit(version: nat)
    requires 1 <= version <= 10
    ensures Rank(ReservedGrid(version), SymbolSize(version), Steps(SymbolSize(version))) >= 8 * TotalCodewords(version)
  {
    var size, grid := SymbolSize(version), ReservedGrid(version);
    CapacityTable(version);
    assert forall r, c | 0 <= r < size && 0 <= c < size :: grid[r][c] == IsReserved(version, r, c);
    hide IsReserved, Cover, TotalCodewords, ReservedGrid, Rank, Area, WellFormed, Steps, CoverArea;
    MeasureCover(version);
    forall r, c | 0 <= r < size && 0 <= c < size && (grid[r][c] || c == 6)
      ensures exists i :: 0 <= i < |Cover(version)| && Inside(Cover(version)[i], r, c)
    {
      if version < 7 {
        CoverCoversSmall(version, r, c);
      } else {
        CoverCoversLarge(version, r, c);
      }
    }
    FreeCount(grid, size, Cover(version));
  }

  lemma CapacityTable(version: nat)
    requires 1 <= version <= 10
    ensures SymbolSize(version) * SymbolSize(version) - CoverArea(version) >= 8 * TotalCodewords(version)
  {
    match version
    case 1 => case 2 => case 3 => case 4 => case 5 => case 6 => case 7 => case 8 => case 9 => case _ =>
  }
}
