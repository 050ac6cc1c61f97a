/**
 * A scanner for versions 1 to 10 at level M, written down from ISO/IEC 18004 on its own: it shares no definition with
 * the encoder, the drawing, or their proofs.
 */
module QrScanner {
  import opened Wrappers

  type Modules = seq<seq<bool>>

  datatype Place = Place(row: nat, col: nat)

  /** A square of one of the ten sizes. */
  predicate Shaped(grid: Modules, version: nat) {
    1 <= version <= 10 && |grid| == 17 + 4 * version && forall r | 0 <= r < |grid| :: |grid[r]| == |grid|
  }

  /** The number a bit string spells, most significant bit first. */
  function Weigh(bits: seq<bool>): nat {
    if |bits| == 0 then 0 else 2 * Weigh(bits[..|bits| - 1]) + (if bits[|bits| - 1] then 1 else 0)
  }

  /** Bytes as numbers. */
  function Values(bytes: seq<bv8>): (values: seq<nat>)
    ensures |values| == |bytes| && forall i | 0 <= i < |bytes| :: values[i] == bytes[i] as nat && values[i] < 256
  {
    seq(|bytes|, i requires 0 <= i < |bytes| => bytes[i] as nat)
  }

  // -- Format information (section 7.9) -----------------------------------------------------

  const FORMAT_XOR := "101010000010010"
  const FORMAT_GENERATOR := "10100110111"

  /** The place of bit i, most significant first, beside the upper left finder. */
  function CornerPlace(i: nat): Place {
    match i
    case 0 => Place(8, 0)
    case 1 => Place(8, 1)
    case 2 => Place(8, 2)
    case 3 => Place(8, 3)
    case 4 => Place(8, 4)
    case 5 => Place(8, 5)
    case 6 => Place(8, 7)
    case 7 => Place(8, 8)
    case 8 => Place(7, 8)
    case 9 => Place(5, 8)
    case 10 => Place(4, 8)
    case 11 => Place(3, 8)
    case 12 => Place(2, 8)
    case 13 => Place(1, 8)
    case _ => Place(0, 8)
  }

  /** Its place in the second copy: up beside the lower left finder, then rightwards below the upper right one. */
  function EdgePlace(size: nat, i: nat): Place
    requires size >= 21 && i < 15
  {
    if i < 7 then Place(size - 1 - i, 8) else Place(8, size - 8 + (i - 7))
  }

  function Corner(grid: Modules, version: nat): (bits: seq<bool>)
    requires Shaped(grid, version)
    ensures |bits| == 15
  {
    seq(15, i requires 0 <= i < 15 => grid[CornerPlace(i).row][CornerPlace(i).col])
  }

  function Edge(grid: Modules, version: nat): (bits: seq<bool>)
    requires Shaped(grid, version)
    ensures |bits| == 15
  {
    seq(15, i requires 0 <= i < 15 => grid[EdgePlace(|grid|, i).row][EdgePlace(|grid|, i).col])
  }

  function Unmasked(bits: seq<bool>): (word: seq<bool>)
    requires |bits| == 15
    ensures |word| == 15
  {
    seq(15, i requires 0 <= i < 15 => bits[i] != (FORMAT_XOR[i] == '1'))
  }

  /** What is left of a polynomial over GF(2), highest power first, after division by the generator of degree ten. */
  function Remainder(bits: seq<bool>): (rest: seq<bool>)
    requires |bits| >= 10
    ensures |rest| == 10
    decreases |bits|
  {
    if |bits| == 10 then bits
    else
      Remainder(seq(|bits| - 1, j requires 0 <= j < |bits| - 1 =>
        bits[j + 1] != (bits[0] && j < 10 && FORMAT_GENERATOR[j + 1] == '1')))
  }

  /** Level and mask number of one copy, if its check bits are right. */
  function Format(bits: seq<bool>): Option<(nat, nat)>
    requires |bits| == 15
  {
    var word := Unmasked(bits);
    if true in Remainder(word) then None else Some((Weigh(word[..2]), Weigh(word[2..5])))
  }

  // -- Masks (section 7.8) ----------------------------------------------------------------------

  /** Whether this mask turns the module at row i and column j over. */
  predicate Flips(mask: nat, i: nat, j: nat) {
    match mask
    case 0 => (i + j) % 2 == 0
    case 1 => i % 2 == 0
    case 2 => j % 3 == 0
    case 3 => (i + j) % 3 == 0
    case 4 => (i / 2 + j / 3) % 2 == 0
    case 5 => i * j % 2 + i * j % 3 == 0
    case 6 => (i * j % 2 + i * j % 3) % 2 == 0
    case _ => ((i + j) % 2 + i * j % 3) % 2 == 0
  }

  // -- Function patterns (sections 6.3 and 7.10, Annex E) ------------------------------------------

  /** Row and column coordinates of the centres of alignment patterns. */
  function Centres(version: nat): seq<nat> {
    match version
    case 2 => [6, 18]
    case 3 => [6, 22]
    case 4 => [6, 26]
    case 5 => [6, 30]
    case 6 => [6, 34]
    case 7 => [6, 22, 38]
    case 8 => [6, 24, 42]
    case 9 => [6, 26, 46]
    case 10 => [6, 28, 50]
    case _ => []
  }

  /** An alignment pattern is centred here: every pair of coordinates but the three on a finder. */
  predicate Centred(version: nat, i: int, j: int) {
    var last := 10 + 4 * version;
    && i in Centres(version) && j in Centres(version)
    && (i, j) != (6, 6) && (i, j) != (6, last) && (i, j) != (last, 6)
  }

  /** An alignment pattern, five modules wide, covers this module. */
  predicate Aligns(version: nat, r: int, c: int) {
    exists i, j | r - 2 <= i <= r + 2 && c - 2 <= j <= c + 2 :: Centred(version, i, j)
  }

  /** A module that carries no data. */
  predicate Functional(version: nat, r: nat, c: nat) {
    var size := 17 + 4 * version;
    || (r <= 8 && c <= 8) || (r <= 8 && c + 8 >= size) || (r + 8 >= size && c <= 8)
    || r == 6 || c == 6
    || (version >= 7 && ((r <= 5 && size <= c + 11 && c + 9 <= size) || (c <= 5 && size <= r + 11 && r + 9 <= size)))
    || Aligns(version, r, c)
  }

  // -- Codewords along the zigzag (section 7.7.3) ----------------------------------------------------

  function Bit(grid: Modules, version: nat, mask: nat, r: nat, c: nat): seq<bool>
    requires Shaped(grid, version) && r < |grid| && c < |grid|
  {
    if Functional(version, r, c) then [] else [grid[r][c] != Flips(mask, r, c)]
  }

  /** The first n rows of the two columns that end at x, right before left. */
  function TwoColumns(grid: Modules, version: nat, mask: nat, x: nat, upward: bool, n: nat): seq<bool>
    requires Shaped(grid, version) && 1 <= x < |grid| && n <= |grid|
  {
    if n == 0 then []
    else
      var r := if upward then |grid| - n else n - 1;
      TwoColumns(grid, version, mask, x, upward, n - 1)
      + (Bit(grid, version, mask, r, x) + Bit(grid, version, mask, r, x - 1))
  }

  /** From column x leftwards, two columns at a time, up and down in turn; column 6 is stepped over. */
  function Zigzag(grid: Modules, version: nat, mask: nat, x: int, upward: bool): seq<bool>
    requires Shaped(grid, version) && x < |grid|
    decreases if x > 0 then x else 0
  {
    if x <= 0 then []
    else if x == 6 then Zigzag(grid, version, mask, 5, upward)
    else TwoColumns(grid, version, mask, x, upward, |grid|) + Zigzag(grid, version, mask, x - 2, !upward)
  }

  // -- Blocks (section 7.5.1, level M) ------------------------------------------------------------------

  /** Check codewords of a block, all blocks, those of them that are short, and data codewords of a short one. */
  datatype Plan = Plan(checks: nat, blocks: nat, short: nat, size: nat)

  function PlanOf(version: nat): (plan: Plan)
    ensures plan.short <= plan.blocks
  {
    match version
    case 1 => Plan(10, 1, 1, 16)
    case 2 => Plan(16, 1, 1, 28)
    case 3 => Plan(26, 1, 1, 44)
    case 4 => Plan(18, 2, 2, 32)
    case 5 => Plan(24, 2, 2, 43)
    case 6 => Plan(16, 4, 4, 27)
    case 7 => Plan(18, 4, 4, 31)
    case 8 => Plan(22, 4, 2, 38)
    case 9 => Plan(22, 5, 3, 36)
    case _ => Plan(26, 5, 4, 43)
  }

  /** Codewords of a symbol, and how many of them are data. */
  function Capacity(version: nat): (nat, nat) {
    match version
    case 1 => (26, 16)
    case 2 => (44, 28)
    case 3 => (70, 44)
    case 4 => (100, 64)
    case 5 => (134, 86)
    case 6 => (172, 108)
    case 7 => (196, 124)
    case 8 => (242, 154)
    case 9 => (292, 182)
    case _ => (346, 216)
  }

  /** Bytes of text a version holds. */
  function Holds(version: nat): nat {
    match version
    case 1 => 14
    case 2 => 26
    case 3 => 42
    case 4 => 62
    case 5 => 84
    case 6 => 106
    case 7 => 122
    case 8 => 152
    case 9 => 180
    case _ => 213
  }

  function Word(bits: seq<bool>, k: nat): nat
    requires 8 * k + 8 <= |bits|
  {
    Weigh(bits[8 * k..8 * k + 8])
  }

  /** Where data codeword i of block b stands; the one more of a long block comes after all others. */
  function DataPlace(plan: Plan, b: nat, i: nat): int {
    if i < plan.size then i * plan.blocks + b else plan.size * plan.blocks + b - plan.short
  }

  /** Data codewords of block b. */
  function BlockLength(plan: Plan, b: nat): nat {
    if b < plan.short then plan.size else plan.size + 1
  }

  function BlockData(version: nat, words: seq<nat>, b: nat): (block: seq<nat>)
    requires 1 <= version <= 10 && |words| == Capacity(version).0 && b < PlanOf(version).blocks
    ensures |block| == BlockLength(PlanOf(version), b)
  {
    var plan := PlanOf(version);
    seq(BlockLength(plan, b), i requires 0 <= i < BlockLength(plan, b) =>
      (PlacesFit(version, b, i); words[DataPlace(plan, b, i)]))
  }

  function BlockChecks(version: nat, words: seq<nat>, b: nat): (block: seq<nat>)
    requires 1 <= version <= 10 && |words| == Capacity(version).0 && b < PlanOf(version).blocks
    ensures |block| == PlanOf(version).checks
  {
    var plan := PlanOf(version);
    seq(plan.checks, i requires 0 <= i < plan.checks =>
      (ChecksFit(version, b, i); words[Capacity(version).1 + i * plan.blocks + b]))
  }

  lemma PlacesFit(version: nat, b: nat, i: nat)
    requires 1 <= version <= 10 && b < PlanOf(version).blocks && i < BlockLength(PlanOf(version), b)
    ensures 0 <= DataPlace(PlanOf(version), b, i) < Capacity(version).1 < Capacity(version).0
  {
  }

  lemma ChecksFit(version: nat, b: nat, i: nat)
    requires 1 <= version <= 10 && b < PlanOf(version).blocks && i < PlanOf(version).checks
    ensures Capacity(version).1 + i * PlanOf(version).blocks + b < Capacity(version).0
  {
  }

  /** The data of the first n blocks, one after the other. */
  function Data(version: nat, words: seq<nat>, n: nat): seq<nat>
    requires 1 <= version <= 10 && |words| == Capacity(version).0 && n <= PlanOf(version).blocks
  {
    if n == 0 then [] else Data(version, words, n - 1) + BlockData(version, words, n - 1)
  }

  // -- Check codewords (section 7.5.2) --------------------------------------------------------------------

  /** A byte times alpha modulo the field polynomial 100011101. */
  function Shift(v: bv8): bv8 {
    (v << 1) ^ (if v >= 0x80 then 0x1D else 0)
  }

  function Shifted(v: bv8, k: nat): bv8 {
    if k == 0 then v else Shift(Shifted(v, k - 1))
  }

  /** The value of a block at the k-th power of alpha, the first codeword taken to the highest power. */
  function Syndrome(block: seq<bv8>, k: nat): bv8 {
    if |block| == 0 then 0 else Shifted(Syndrome(block[..|block| - 1], k), k) ^ block[|block| - 1]
  }

  /** The block vanishes at the first powers of alpha, as many as it has check codewords. */
  predicate Checked(block: seq<bv8>, checks: nat) {
    forall k | 0 <= k < checks :: Syndrome(block, k) == 0
  }

  function AsBytes(words: seq<nat>): seq<bv8>
    requires forall w | w in words :: w < 256
  {
    seq(|words|, i requires 0 <= i < |words| => assert words[i] in words; words[i] as bv8)
  }

  // -- Text (section 7.4.5) -----------------------------------------------------------------------------------

  /** Half codeword j: the upper half of a codeword comes first. */
  function Half(data: seq<nat>, j: nat): nat
    requires j / 2 < |data|
  {
    if j % 2 == 0 then data[j / 2] / 16 else data[j / 2] % 16
  }

  /** How many halves the mode and the count take. */
  function Heading(version: nat): nat {
    if version < 10 then 3 else 5
  }

  function Count(version: nat, data: seq<nat>): nat
    requires |data| >= 3
  {
    if version < 10 then 16 * Half(data, 1) + Half(data, 2)
    else 4096 * Half(data, 1) + 256 * Half(data, 2) + 16 * Half(data, 3) + Half(data, 4)
  }

  /** Byte mode only: the mode 0100, the count, and as many bytes. */
  function Text(version: nat, data: seq<nat>): Option<seq<nat>> {
    if |data| < 3 || Half(data, 0) != 4 then None
    else
      var n, from := Count(version, data), Heading(version);
      if (from + 2 * n + 1) / 2 > |data| then None
      else
        Some(seq(n, i requires 0 <= i < n =>
          16 * Half(data, from + 2 * i) + Half(data, from + 2 * i + 1)))
  }

  /** After the text come a terminator of four zeros and the pad codewords 11101100 and 00010001 in turn. */
  predicate Padded(version: nat, data: seq<nat>, n: nat) {
    var used := (Heading(version) + 2 * n + 1) / 2;
    && 0 < used <= |data| && data[used - 1] % 16 == 0
    && forall i | used <= i < |data| :: data[i] == if (i - used) % 2 == 0 then 236 else 17
  }

  // -- A whole scan ---------------------------------------------------------------------------------------------

  function Words(bits: seq<bool>, n: nat): (words: seq<nat>)
    requires 8 * n <= |bits|
    ensures |words| == n
  {
    seq(n, k requires 0 <= k < n => Word(bits, k))
  }

  /** The codewords of a symbol whose two format copies are right, agree, and name level M. */
  function Codewords(grid: Modules, version: nat): (words: Option<seq<nat>>)
    requires Shaped(grid, version)
    ensures words.Some? ==> |words.value| == Capacity(version).0
  {
    var corner, edge := Format(Corner(grid, version)), Format(Edge(grid, version));
    if corner.None? || corner != edge || corner.value.0 != 0 then None
    else
      var bits := Zigzag(grid, version, corner.value.1, |grid| - 1, true);
      var total := Capacity(version).0;
      if |bits| < 8 * total then None else Some(Words(bits, total))
  }

  /** The text of a symbol. */
  function Scan(grid: Modules, version: nat): Option<seq<nat>>
    requires Shaped(grid, version)
  {
    var words := Codewords(grid, version);
    if words.None? then None else Text(version, Data(version, words.value, PlanOf(version).blocks))
  }

  /** No codeword of the symbol is damaged: every block checks, and what follows the text is padding. */
  ghost predicate Sound(grid: Modules, version: nat)
    requires Shaped(grid, version)
  {
    var words, plan := Codewords(grid, version), PlanOf(version);
    && words.Some? && (forall w | w in words.value :: w < 256)
    && (forall b | 0 <= b < plan.blocks ::
          var block := BlockData(version, words.value, b) + BlockChecks(version, words.value, b);
          (forall w | w in block :: w < 256) && Checked(AsBytes(block), plan.checks))
    && var text := Scan(grid, version);
    text.Some? && Padded(version, Data(version, words.value, plan.blocks), |text.value|)
  }

  // -- The patterns themselves (section 6.3 and Annex D) ----------------------------------------------------------

  const FINDER: seq<string> := ["#######", "#.....#", "#.###.#", "#.###.#", "#.###.#", "#.....#", "#######"]
  const ALIGNMENT: seq<string> := ["#####", "#...#", "#.#.#", "#...#", "#####"]

  /** The picture, from this corner on; a hash is dark. */
  ghost predicate Pictured(grid: Modules, picture: seq<string>, top: int, left: int)
    requires forall row | row in picture :: |row| == |picture|
  {
    forall r: nat, c: nat | top <= r < top + |picture| && left <= c < left + |picture| ::
      r < |grid| && c < |grid[r]| && grid[r][c] == Dark(picture, r - top, c - left)
  }

  predicate Dark(picture: seq<string>, i: nat, j: nat)
    requires i < |picture| && j < |picture| && forall row | row in picture :: |row| == |picture|
  {
    assert picture[i] in picture;
    picture[i][j] == '#'
  }

  /** The light modules around the finders. */
  predicate Separates(size: nat, r: nat, c: nat) {
    || (r == 7 && (c <= 7 || c + 8 >= size)) || (c == 7 && (r <= 7 || r + 8 >= size))
    || (r + 8 == size && c <= 7) || (c + 8 == size && r <= 7)
  }

  /** Between the finders row 6 and column 6, where no alignment pattern covers them. */
  predicate Times(version: nat, r: nat, c: nat) {
    var size := 17 + 4 * version;
    !Aligns(version, r, c) && ((r == 6 && 8 <= c && c + 8 < size) || (c == 6 && 8 <= r && r + 8 < size))
  }

  /** The eighteen bits of the version, most significant first. */
  function VersionBits(version: nat): (bits: string)
    ensures |bits| == 18
  {
    match version
    case 7 => "000111110010010100"
    case 8 => "001000010110111100"
    case 9 => "001001101010011001"
    case _ => "001010010011010011"
  }

  /** The bit number, counted from the least significant, that a module of the two blocks shows from version 7 on. */
  function VersionIndex(version: nat, r: nat, c: nat): Option<nat> {
    var from := 6 + 4 * version;
    if version < 7 then None
    else if c <= 5 && from <= r < from + 3 then Some(3 * c + r - from)
    else if r <= 5 && from <= c < from + 3 then Some(3 * r + c - from)
    else None
  }

  /** What a module shows that belongs to a separator, a timing line or a version block, or is the dark module. */
  predicate Plain(version: nat, r: nat, c: nat, dark: bool) {
    var size := 17 + 4 * version;
    && (Separates(size, r, c) ==> !dark)
    && (Times(version, r, c) ==> dark == ((r + c) % 2 == 0))
    && (var i := VersionIndex(version, r, c);
        i.Some? ==> i.value < 18 && dark == (VersionBits(version)[17 - i.value] == '1'))
    && (r + 8 == size && c == 8 ==> dark)
  }

  /** All function patterns of a symbol. */
  ghost predicate Patterned(grid: Modules, version: nat)
    requires Shaped(grid, version)
  {
    && Pictured(grid, FINDER, 0, 0) && Pictured(grid, FINDER, 0, |grid| - 7) && Pictured(grid, FINDER, |grid| - 7, 0)
    && (forall i, j | Centred(version, i, j) :: Pictured(grid, ALIGNMENT, i - 2, j - 2))
    && forall r, c | 0 <= r < |grid| && 0 <= c < |grid| :: Plain(version, r, c, grid[r][c])
  }

  // -- The symbol of a text -----------------------------------------------------------------------------------------

  /** An undamaged symbol of this version with its patterns, from which this text is read. */
  ghost predicate Carries(grid: Modules, version: nat, text: seq<nat>) {
    && Shaped(grid, version) && Patterned(grid, version) && Sound(grid, version) && Scan(grid, version) == Some(text)
    && |text| <= Holds(version) && forall smaller | 1 <= smaller < version :: Holds(smaller) < |text|
  }

  /** A symbol of the smallest version that holds this text. */
  ghost predicate Shows(grid: Modules, text: seq<nat>) {
    exists version :: Carries(grid, version, text)
  }
}
