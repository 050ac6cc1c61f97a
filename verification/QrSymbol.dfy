/** From text bytes to a drawn symbol, and a reader that gets the bytes back out of the drawing. */
module QrSymbol {
  import opened Wrappers
  import opened Galois
  import opened QrBits
  import opened QrEncode
  import opened QrEncoder
  import opened QrWalk
  import opened QrLayout
  import opened QrMatrix
  import QrScan
  import QrScanner

  predicate SymbolShape(grid: Grid) {
    && 21 <= |grid| <= 57 && |grid| % 4 == 1 && Square(grid, |grid|)
  }

  function VersionOf(grid: Grid): (version: nat)
    requires SymbolShape(grid)
    ensures 1 <= version <= 10 && SymbolSize(version) == |grid|
  {
    (|grid| - 17) / 4
  }

  /** The codewords in a drawing, read along the zigzag with the mask undone. */
  function ReadStream(grid: Grid): (stream: seq<Byte>)
    requires SymbolShape(grid)
    requires |ReadBits(grid, ReservedGrid(VersionOf(grid)), |grid|, Steps(|grid|))|
          >= 8 * TotalCodewords(VersionOf(grid))
    ensures |stream| == TotalCodewords(VersionOf(grid))
  {
    var bits := ReadBits(grid, ReservedGrid(VersionOf(grid)), |grid|, Steps(|grid|));
    Pack(bits[..8 * TotalCodewords(VersionOf(grid))])
  }

  /** A scanner without error correction: size, format, payload, codewords, text. */
  ghost function ReadSymbol(grid: Grid): Option<seq<Byte>> {
    if !SymbolShape(grid) || !FormatReads(grid, |grid|) then None
    else if |ReadBits(grid, ReservedGrid(VersionOf(grid)), |grid|, Steps(|grid|))|
          < 8 * TotalCodewords(VersionOf(grid)) then None
    else ReadCodewords(VersionOf(grid), ReadStream(grid))
  }

  /** The placed codewords are read back whole: no bit dropped, none overwritten. */
  lemma ReadStreamBack(grid: Grid, version: nat, codewords: seq<Byte>)
    requires SymbolShape(grid) && 1 <= version <= 10 && version == VersionOf(grid)
    requires |codewords| == TotalCodewords(version)
    requires Placed(grid, ReservedGrid(version), |grid|, AllBits(codewords), Steps(|grid|))
    ensures |ReadBits(grid, ReservedGrid(version), |grid|, Steps(|grid|))| >= 8 * TotalCodewords(version)
    ensures ReadStream(grid) == codewords
  {
    hide ReservedGrid, AllBits, ReadBits, TotalCodewords, Steps, Pack, Placed;
    var size := |grid|;
    var bits := ReadBits(grid, ReservedGrid(version), size, Steps(size));
    ReadPlaced(grid, ReservedGrid(version), size, AllBits(codewords), Steps(size));
    RoomForEveryBit(version);
    assert bits[..8 * TotalCodewords(version)] == AllBits(codewords);
    PackAllBits(codewords);
  }

  /** QR round trip on any drawing of a text's codewords. */
  lemma ReadSymbolBack(grid: Grid, version: nat, bytes: seq<Byte>)
    requires 1 <= version <= 10 && Fits(version, |bytes|)
    requires Square(grid, SymbolSize(version)) && FormatReads(grid, SymbolSize(version))
    requires Placed(
               grid, ReservedGrid(version), SymbolSize(version), AllBits(Codewords(version, bytes)),
               Steps(SymbolSize(version)))
    ensures ReadSymbol(grid) == Some(bytes)
  {
    hide ReservedGrid, AllBits, ReadBits, TotalCodewords, Steps, Placed, Codewords, ReadCodewords, FormatReads, Fits,
        ReadStream;
    assert VersionOf(grid) == version;
    ReadStreamBack(grid, version, Codewords(version, bytes));
    ReadCodewordsBack(version, bytes);
  }

  /** A symbol of the smallest version that holds this many bytes, with its function patterns. */
  ghost predicate SmallestSymbol(grid: Grid, length: nat) {
    && SymbolShape(grid) && PatternsDrawn(grid, VersionOf(grid))
    && Fits(VersionOf(grid), length) && forall w | 1 <= w < VersionOf(grid) :: !Fits(w, length)
  }

  /**
   * What the page draws for a text: nothing for the empty text or one longer than 213 bytes, and otherwise a
   * symbol of the smallest version from which a reader gets the same bytes; the standard's scanner, which shares no
   * definition with the drawing, gets them too, by the mask the format names, and finds no damage.
   */
  method Draw(gf: Tables, bytes: seq<Byte>) returns (r: Option<array2<bool>>)
    requires gf.Valid()
    ensures r.None? <==> |bytes| == 0 || |bytes| > 213
    ensures r.Some? ==> fresh(r.value) && ReadSymbol(Snapshot(r.value)) == Some(bytes)
    ensures r.Some? ==> SmallestSymbol(Snapshot(r.value), |bytes|)
    ensures r.Some? ==> QrScanner.Shows(Snapshot(r.value), QrScanner.Values(bytes))
  {
    if |bytes| == 0 {
      return None;
    }
    hide ReservedGrid, AllBits, TotalCodewords, Steps, Placed, Codewords, ReadSymbol, FormatReads, PatternsDrawn, Fits,
        QrScanner.Shows, QrScanner.Values, ShowsBits;
    RefusedLengths(|bytes|);
    var encoded := Encode(gf, bytes);
    if encoded.None? {
      return None;
    }
    var Encoded(version, codewords) := encoded.value;
    var modules := Matrix(version, codewords);
    ReadSymbolBack(Snapshot(modules), version, bytes);
    assert VersionOf(Snapshot(modules)) == version;
    QrScan.SmallestShows(Snapshot(modules), version, bytes);
    r := Some(modules);
  }
}
