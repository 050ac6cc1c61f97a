/** Text bytes to the codeword stream of the smallest version that holds them, and back. */
module QrEncode {
  import opened Wrappers
  import opened Galois
  import opened ReedSolomon
  import opened QrBits
  import opened QrBlocks

  datatype Group = Group(count: nat, size: nat)

  /** Blocks and data codewords per block at error correction M. */
  function Groups(version: nat): seq<Group>
    requires 1 <= version <= 10
  {
    match version
    case 1 => [Group(1, 16)]
    case 2 => [Group(1, 28)]
    case 3 => [Group(1, 44)]
    case 4 => [Group(2, 32)]
    case 5 => [Group(2, 43)]
    case 6 => [Group(4, 27)]
    case 7 => [Group(4, 31)]
    case 8 => [Group(2, 38), Group(2, 39)]
    case 9 => [Group(3, 36), Group(2, 37)]
    case _ => [Group(4, 43), Group(1, 44)]
  }

  /** Check bytes per block. */
  function EcCount(version: nat): nat
    requires 1 <= version <= 10
  {
    match version
    case 1 => 10
    case 2 => 16
    case 3 => 26
    case 4 => 18
    case 5 => 24
    case 6 => 16
    case 7 => 18
    case 8 => 22
    case 9 => 22
    case _ => 26
  }

  function GroupTotal(groups: seq<Group>): nat {
    if |groups| == 0 then 0
    else GroupTotal(groups[..|groups| - 1]) + groups[|groups| - 1].count * groups[|groups| - 1].size
  }

  function Repeat(count: nat, size: nat): (sizes: seq<nat>)
    ensures |sizes| == count
  {
    if count == 0 then [] else Repeat(count - 1, size) + [size]
  }

  /** The size of every block, in the order the blocks are cut. */
  function GroupSizes(groups: seq<Group>): seq<nat> {
    if |groups| == 0 then []
    else GroupSizes(groups[..|groups| - 1]) + Repeat(groups[|groups| - 1].count, groups[|groups| - 1].size)
  }

  function BlockSizes(version: nat): seq<nat>
    requires 1 <= version <= 10
  {
    GroupSizes(Groups(version))
  }

  /** How many data codewords each version carries. */
  function DataCodewords(version: nat): nat
    requires 1 <= version <= 10
  {
    match version
    case 1 => 16
    case 2 => 28
    case 3 => 44
    case 4 => 64
    case 5 => 86
    case 6 => 108
    case 7 => 124
    case 8 => 154
    case 9 => 182
    case _ => 216
  }

  function BlockCount(version: nat): nat
    requires 1 <= version <= 10
  {
    match version
    case 1 => 1
    case 2 => 1
    case 3 => 1
    case 4 => 2
    case 5 => 2
    case 6 => 4
    case 7 => 4
    case 8 => 4
    case 9 => 5
    case _ => 5
  }

  lemma TotalAppend(sizes: seq<nat>, size: nat)
    ensures Total(sizes + [size]) == Total(sizes) + size
  {
    assert (sizes + [size])[..|sizes|] == sizes;
  }

  lemma OneMore(count: nat, size: nat)
    requires count > 0
    ensures count * size == (count - 1) * size + size
  {}

  lemma {:induction false} TotalRepeat(sizes: seq<nat>, count: nat, size: nat)
    ensures Total(sizes + Repeat(count, size)) == Total(sizes) + count * size
  {
    if count == 0 {
      assert sizes + Repeat(0, size) == sizes;
    } else {
      TotalRepeat(sizes, count - 1, size);
      hide Total;
      var front := sizes + Repeat(count - 1, size);
      assert sizes + Repeat(count, size) == front + [size];
      TotalAppend(front, size);
      OneMore(count, size);
    }
  }

  /** The blocks cut for the groups are as long together as the groups say. */
  lemma {:induction false} GroupSizesTotal(groups: seq<Group>)
    ensures Total(GroupSizes(groups)) == GroupTotal(groups)
  {
    if |groups| > 0 {
      var n := |groups| - 1;
      GroupSizesTotal(groups[..n]);
      TotalRepeat(GroupSizes(groups[..n]), groups[n].count, groups[n].size);
    }
  }

  lemma OneGroup(g: Group)
    ensures GroupTotal([g]) == g.count * g.size && |GroupSizes([g])| == g.count
  {
    assert [g][..0] == [];
  }

  lemma TwoGroups(g: Group, h: Group)
    ensures GroupTotal([g, h]) == g.count * g.size + h.count * h.size
    ensures |GroupSizes([g, h])| == g.count + h.count
  {
    OneGroup(g);
    assert [g, h][..1] == [g];
  }

  /** The table's arithmetic, version by version. */
  lemma VersionTable(version: nat)
    requires 1 <= version <= 10
    ensures GroupTotal(Groups(version)) == DataCodewords(version) == Total(BlockSizes(version))
    ensures |BlockSizes(version)| == BlockCount(version)
  {
    hide GroupTotal, GroupSizes, Total;
    var groups := Groups(version);
    GroupSizesTotal(groups);
    if |groups| == 1 {
      OneGroup(groups[0]);
      assert groups == [groups[0]];
    } else {
      TwoGroups(groups[0], groups[1]);
      assert groups == [groups[0], groups[1]];
    }
  }

  // -- The data words ----------------------------------------------------------

  function CountBits(version: nat): nat {
    if version < 10 then 8 else 16
  }

  predicate Fits(version: nat, n: nat)
    requires 1 <= version <= 10
  {
    4 + CountBits(version) + 8 * n <= 8 * DataCodewords(version)
  }

  function Falses(n: nat): (bits: seq<bool>)
    ensures |bits| == n
  {
    seq(n, _ => false)
  }

  /** Mode indicator, character count, and the bytes themselves. */
  function Payload(version: nat, bytes: seq<Byte>): (bits: seq<bool>)
    ensures |bits| == 4 + CountBits(version) + 8 * |bytes|
  {
    Bits(4, 4) + Bits(|bytes|, CountBits(version)) + AllBits(bytes)
  }

  /** The terminator: up to four zeros, as many as the capacity leaves. */
  function Terminator(capacity: nat, length: nat): nat
    requires length <= capacity
  {
    if capacity - length < 4 then capacity - length else 4
  }

  function ToByteBoundary(length: nat): nat {
    (8 - length % 8) % 8
  }

  lemma BoundaryFacts(length: nat, capacity: nat)
    requires length <= capacity && capacity % 8 == 0
    ensures (length + ToByteBoundary(length)) % 8 == 0
    ensures length + ToByteBoundary(length) <= capacity
  {
    var q, r, c := length / 8, length % 8, capacity / 8;
    assert length == 8 * q + r && capacity == 8 * c;
    if r > 0 {
      assert ToByteBoundary(length) == 8 - r;
      assert length + ToByteBoundary(length) == 8 * (q + 1);
      assert q < c;
    }
  }

  /** The payload, terminated and filled up to a whole number of bytes. */
  function Terminated(raw: seq<bool>, capacity: nat): (bits: seq<bool>)
    requires |raw| <= capacity && capacity % 8 == 0
    ensures |bits| % 8 == 0 && |raw| <= |bits| <= capacity && bits[..|raw|] == raw
  {
    var t := Terminator(capacity, |raw|);
    var b := ToByteBoundary(|raw| + t);
    BoundaryFacts(|raw| + t, capacity);
    raw + Falses(t) + Falses(b)
  }

  function PadByte(i: nat): Byte {
    if i % 2 == 0 then 0xEC else 0x11
  }

  function Padding(n: nat): (pad: seq<Byte>)
    ensures |pad| == n
  {
    if n == 0 then [] else Padding(n - 1) + [PadByte(n - 1)]
  }

  /** Terminated, packed, and padded to the given number of words. */
  function Filled(raw: seq<bool>, words: nat): (data: seq<Byte>)
    requires |raw| <= 8 * words
    ensures |data| == words
  {
    var packed := Pack(Terminated(raw, 8 * words));
    packed + Padding(words - |packed|)
  }

  function DataWords(version: nat, bytes: seq<Byte>): (data: seq<Byte>)
    requires 1 <= version <= 10 && Fits(version, |bytes|)
    ensures |data| == DataCodewords(version)
  {
    Filled(Payload(version, bytes), DataCodewords(version))
  }

  /** A reader of the data words: byte mode only, the count, then that many bytes. */
  function ReadData(version: nat, data: seq<Byte>): Option<seq<Byte>> {
    var bits := AllBits(data);
    var start := 4 + CountBits(version);
    if |bits| < start || Number(bits[..4]) != 4 then None
    else
      var n := Number(bits[4..start]);
      if |bits| < start + 8 * n then None else Some(Pack(bits[start..start + 8 * n]))
  }

  lemma CountFits(version: nat, n: nat)
    requires 1 <= version <= 10 && Fits(version, n)
    ensures n < Pow2(CountBits(version))
  {
    assert Pow2(8) == 256;
    assert Pow2(16) == 65536;
  }

  lemma DataWordBits(version: nat, bytes: seq<Byte>)
    requires 1 <= version <= 10 && Fits(version, |bytes|)
    ensures Payload(version, bytes) <= AllBits(DataWords(version, bytes))
  {
    FilledBits(Payload(version, bytes), DataCodewords(version));
  }

  lemma FilledBits(raw: seq<bool>, words: nat)
    requires |raw| <= 8 * words
    ensures raw <= AllBits(Filled(raw, words))
  {
    hide Pack, Padding, AllBits, Terminated;
    var ended := Terminated(raw, 8 * words);
    var packed := Pack(ended);
    AllBitsPack(ended);
    AllBitsConcat(packed, Padding(words - |packed|));
  }

  /** Reading the data words back returns the text bytes, however much padding follows. */
  lemma ReadDataWords(version: nat, bytes: seq<Byte>)
    requires 1 <= version <= 10 && Fits(version, |bytes|)
    ensures ReadData(version, DataWords(version, bytes)) == Some(bytes)
  {
    hide Pack, AllBits, Terminated, DataWords, Bits, Number, Pow2, DataCodewords, Fits;
    DataWordBits(version, bytes);
    var bits, raw := AllBits(DataWords(version, bytes)), Payload(version, bytes);
    var start := 4 + CountBits(version);
    assert bits[..4] == raw[..4] == Bits(4, 4);
    assert bits[4..start] == raw[4..start] == Bits(|bytes|, CountBits(version));
    assert bits[start..start + 8 * |bytes|] == raw[start..] == AllBits(bytes);
    PowFour();
    NumberOfBits(4, 4);
    CountFits(version, |bytes|);
    NumberOfBits(|bytes|, CountBits(version));
    PackAllBits(bytes);
  }

  lemma PowFour()
    ensures Pow2(4) == 16
  {}

  // -- The codeword stream -----------------------------------------------------

  /** The check bytes of every block. */
  function Checks(blocks: seq<Block>, count: nat): (ecs: seq<Block>)
    ensures |ecs| == |blocks|
    ensures forall b | 0 <= b < |blocks| :: ecs[b] == Ecc(blocks[b], count)
  {
    if |blocks| == 0 then []
    else Checks(blocks[..|blocks| - 1], count) + [Ecc(blocks[|blocks| - 1], count)]
  }

  function DataBlocks(version: nat, bytes: seq<Byte>): (blocks: seq<Block>)
    requires 1 <= version <= 10 && Fits(version, |bytes|)
    ensures |blocks| == BlockCount(version)
    ensures Sizes(blocks) == BlockSizes(version)
  {
    VersionTable(version);
    Split(BlockSizes(version), DataWords(version, bytes))
  }

  function TotalCodewords(version: nat): nat
    requires 1 <= version <= 10
  {
    DataCodewords(version) + BlockCount(version) * EcCount(version)
  }

  /** The interleaved data blocks followed by their interleaved check bytes. */
  function Stream(blocks: seq<Block>, ec: nat): seq<Byte> {
    Columns(blocks, Longest(Sizes(blocks))) + Columns(Checks(blocks, ec), ec)
  }

  /** The stream is as long as the blocks and their check bytes together. */
  lemma StreamLength(blocks: seq<Block>, ec: nat)
    ensures |Stream(blocks, ec)| == Total(Sizes(blocks)) + |blocks| * ec
    ensures Total(Repeat(|blocks|, ec)) == |blocks| * ec
    ensures |Columns(blocks, Longest(Sizes(blocks)))| == Total(Sizes(blocks))
  {
    hide Columns, Checks, Longest, Sizes, Repeat, Total, Deinterleave;
    SizesAreLengths(blocks);
    DeinterleaveColumns(blocks, Longest(Sizes(blocks)), []);
    ChecksLength(blocks, ec);
  }

  lemma ChecksLength(blocks: seq<Block>, ec: nat)
    ensures |Columns(Checks(blocks, ec), ec)| == |blocks| * ec == Total(Repeat(|blocks|, ec))
  {
    hide Columns, Checks, Longest, Sizes, Repeat, Deinterleave;
    CheckSizes(blocks, ec);
    SizesAreLengths(Checks(blocks, ec));
    CheckBlockLengths(blocks, ec);
    DeinterleaveColumns(Checks(blocks, ec), ec, []);
    TotalRepeat([], |blocks|, ec);
    assert [] + Repeat(|blocks|, ec) == Repeat(|blocks|, ec);
  }

  lemma CheckBlockLengths(blocks: seq<Block>, ec: nat)
    ensures forall b | 0 <= b < |blocks| :: |Checks(blocks, ec)[b]| == ec
  {}

  function Codewords(version: nat, bytes: seq<Byte>): (stream: seq<Byte>)
    requires 1 <= version <= 10 && Fits(version, |bytes|)
    ensures |stream| == TotalCodewords(version)
  {
    VersionTable(version);
    StreamLength(DataBlocks(version, bytes), EcCount(version));
    Stream(DataBlocks(version, bytes), EcCount(version))
  }

  /** The data blocks and the check blocks a reader picks out of the stream. */
  function ReadDataBlocks(version: nat, stream: seq<Byte>): (blocks: seq<Block>)
    requires 1 <= version <= 10 && |stream| == TotalCodewords(version)
    ensures |blocks| == BlockCount(version)
  {
    VersionTable(version);
    Deinterleave(BlockSizes(version), stream)
  }

  function ReadCheckBlocks(version: nat, stream: seq<Byte>): (blocks: seq<Block>)
    requires 1 <= version <= 10 && |stream| == TotalCodewords(version)
    ensures |blocks| == BlockCount(version)
  {
    TotalRepeat([], BlockCount(version), EcCount(version));
    assert [] + Repeat(BlockCount(version), EcCount(version)) == Repeat(BlockCount(version), EcCount(version));
    Deinterleave(Repeat(BlockCount(version), EcCount(version)), stream[DataCodewords(version)..])
  }

  /** A reader of the stream: undo the interleaving, join the blocks, parse the data words. */
  function ReadCodewords(version: nat, stream: seq<Byte>): Option<seq<Byte>>
    requires 1 <= version <= 10 && |stream| == TotalCodewords(version)
  {
    ReadData(version, Join(ReadDataBlocks(version, stream)))
  }

  /** Block b as received: its data followed by its check bytes. */
  function ReadBlock(version: nat, stream: seq<Byte>, b: nat): Block
    requires 1 <= version <= 10 && |stream| == TotalCodewords(version) && b < BlockCount(version)
  {
    ReadDataBlocks(version, stream)[b] + ReadCheckBlocks(version, stream)[b]
  }

  lemma {:induction false} RepeatAt(count: nat, size: nat, k: nat)
    requires k < count
    ensures Repeat(count, size)[k] == size
  {
    if k < count - 1 {
      RepeatAt(count - 1, size, k);
    }
  }

  lemma CheckSizes(blocks: seq<Block>, count: nat)
    ensures Sizes(Checks(blocks, count)) == Repeat(|blocks|, count)
  {
    hide Repeat, Checks, Ecc;
    forall b | 0 <= b < |blocks| ensures Sizes(Checks(blocks, count))[b] == Repeat(|blocks|, count)[b] {
      RepeatAt(|blocks|, count, b);
    }
  }

  lemma SizesAreLengths(blocks: seq<Block>)
    ensures forall b | 0 <= b < |blocks| :: |blocks[b]| == Sizes(blocks)[b]
  {}

  lemma StreamData(blocks: seq<Block>, ec: nat)
    ensures Total(Sizes(blocks)) <= |Stream(blocks, ec)|
    ensures Deinterleave(Sizes(blocks), Stream(blocks, ec)) == blocks
  {
    hide Columns, Checks, Longest, Sizes, Total, Deinterleave;
    SizesAreLengths(blocks);
    DeinterleaveColumns(blocks, Longest(Sizes(blocks)), Columns(Checks(blocks, ec), ec));
  }

  lemma StreamChecks(blocks: seq<Block>, ec: nat)
    ensures Total(Sizes(blocks)) <= |Stream(blocks, ec)|
    ensures Total(Repeat(|blocks|, ec)) <= |Stream(blocks, ec)[Total(Sizes(blocks))..]|
    ensures Deinterleave(Repeat(|blocks|, ec), Stream(blocks, ec)[Total(Sizes(blocks))..]) == Checks(blocks, ec)
  {
    StreamLength(blocks, ec);
    hide Columns, Checks, Longest, Sizes, Repeat, Total, Deinterleave;
    var checks := Checks(blocks, ec);
    CheckSizes(blocks, ec);
    SizesAreLengths(checks);
    CheckBlockLengths(blocks, ec);
    DeinterleaveColumns(checks, ec, []);
    assert Stream(blocks, ec)[Total(Sizes(blocks))..] == Columns(checks, ec) + [];
  }

  lemma ReadBlocksBack(version: nat, bytes: seq<Byte>)
    requires 1 <= version <= 10 && Fits(version, |bytes|)
    ensures ReadDataBlocks(version, Codewords(version, bytes)) == DataBlocks(version, bytes)
    ensures ReadCheckBlocks(version, Codewords(version, bytes)) == Checks(DataBlocks(version, bytes), EcCount(version))
  {
    VersionTable(version);
    var blocks, ec := DataBlocks(version, bytes), EcCount(version);
    assert |blocks| == BlockCount(version) && Sizes(blocks) == BlockSizes(version);
    hide DataCodewords, BlockCount, EcCount, Fits, DataBlocks, BlockSizes, Stream, Deinterleave, Repeat, Checks,
        Total, Sizes;
    StreamData(blocks, ec);
    StreamChecks(blocks, ec);
  }

  lemma BlocksDetermineText(version: nat, bytes: seq<Byte>)
    requires 1 <= version <= 10 && Fits(version, |bytes|)
    ensures ReadData(version, Join(DataBlocks(version, bytes))) == Some(bytes)
  {
    hide DataCodewords, Fits, DataWords, ReadData;
    VersionTable(version);
    JoinSplit(BlockSizes(version), DataWords(version, bytes));
    ReadDataWords(version, bytes);
    assert DataWords(version, bytes)[..DataCodewords(version)] == DataWords(version, bytes);
  }

  /** Stream round trip: reading the codewords back returns the text bytes. */
  lemma ReadCodewordsBack(version: nat, bytes: seq<Byte>)
    requires 1 <= version <= 10 && Fits(version, |bytes|)
    ensures ReadCodewords(version, Codewords(version, bytes)) == Some(bytes)
  {
    hide DataCodewords, BlockCount, EcCount, Fits, DataBlocks, Codewords, ReadData, Join, ReadDataBlocks;
    ReadBlocksBack(version, bytes);
    BlocksDetermineText(version, bytes);
  }

  // -- Damage ------------------------------------------------------------------

  /** Every block a reader recovers is a Reed-Solomon codeword: a data block followed by its own check bytes. */
  lemma BlocksCarryTheirChecks(version: nat, bytes: seq<Byte>, b: nat)
    requires 1 <= version <= 10 && Fits(version, |bytes|) && b < BlockCount(version)
    ensures ReadBlock(version, Codewords(version, bytes), b)
         == DataBlocks(version, bytes)[b] + Ecc(DataBlocks(version, bytes)[b], EcCount(version))
  {
    hide DataCodewords, BlockCount, EcCount, Fits, DataBlocks, Codewords, ReadDataBlocks, ReadCheckBlocks, Ecc;
    ReadBlocksBack(version, bytes);
  }

  lemma {:induction false} SizeWithinTotal(sizes: seq<nat>, k: nat)
    requires k < |sizes|
    ensures sizes[k] <= Total(sizes)
  {
    var n := |sizes| - 1;
    if k < n {
      SizeWithinTotal(sizes[..n], k);
    }
  }

  /** The length of a received block does not depend on its content, and it fits the field. */
  lemma BlockLength(version: nat, stream: seq<Byte>, b: nat)
    requires 1 <= version <= 10 && |stream| == TotalCodewords(version) && b < BlockCount(version)
    ensures |BlockSizes(version)| == BlockCount(version)
    ensures |ReadBlock(version, stream, b)| == BlockSizes(version)[b] + EcCount(version) <= 255
  {
    VersionTable(version);
    SizeWithinTotal(BlockSizes(version), b);
    hide BlockSizes, Total;
    RepeatAt(BlockCount(version), EcCount(version), b);
  }

  /** Whether `seen` differs from the text's stream in at most half of EcCount codewords of every block. */
  ghost predicate Readable(version: nat, bytes: seq<Byte>, seen: seq<Byte>)
    requires 1 <= version <= 10 && Fits(version, |bytes|) && |seen| == TotalCodewords(version)
  {
    forall k | 0 <= k < BlockCount(version) ::
      (BlockLength(version, Codewords(version, bytes), k); BlockLength(version, seen, k);
       2 * Distance(ReadBlock(version, Codewords(version, bytes), k), ReadBlock(version, seen, k)) <= EcCount(version))
  }

  /** Damage of at most half as many codewords per block as it has check bytes cannot turn one text into another. */
  lemma DamageTolerance(version: nat, a: seq<Byte>, b: seq<Byte>, seen: seq<Byte>)
    requires 1 <= version <= 10 && Fits(version, |a|) && Fits(version, |b|) && |seen| == TotalCodewords(version)
    requires Readable(version, a, seen) && Readable(version, b, seen)
    ensures a == b
  {
    hide DataCodewords, BlockCount, EcCount, Fits, Codewords, ReadBlock, DataBlocks, Ecc, Distance, BlockSizes, Sizes;
    forall k | 0 <= k < BlockCount(version) ensures DataBlocks(version, a)[k] == DataBlocks(version, b)[k] {
      BlocksCarryTheirChecks(version, a, k);
      BlocksCarryTheirChecks(version, b, k);
      BlockLength(version, Codewords(version, a), k);
      BlockLength(version, Codewords(version, b), k);
      BlockLength(version, seen, k);
      DamageIsCorrectable(
        DataBlocks(version, a)[k], DataBlocks(version, b)[k], EcCount(version), ReadBlock(version, seen, k));
    }
    assert DataBlocks(version, a) == DataBlocks(version, b);
    BlocksDetermineText(version, a);
    BlocksDetermineText(version, b);
  }
}
