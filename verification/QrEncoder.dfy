/** The encoder's loops, proved against the stream that QrEncode describes. */
module QrEncoder {
  import opened Wrappers
  import opened Galois
  import opened ReedSolomon
  import opened QrBits
  import opened QrBlocks
  import opened QrEncode

  datatype CodeBlock = CodeBlock(data: Block, ec: Block)

  datatype Encoded = Encoded(version: nat, codewords: seq<Byte>)

  method Push(bits: seq<bool>, value: nat, width: nat) returns (out: seq<bool>)
    ensures out == bits + Bits(value, width)
  {
    out := bits;
    for i := width downto 0
      invariant out == bits + Bits(value, width)[..width - i]
    {
      BitAt(value, width, width - 1 - i);
      out := out + [ShiftRight(value, i) % 2 == 1];
    }
  }

  /** Mode indicator, count and bytes. */
  method PushPayload(version: nat, bytes: seq<Byte>) returns (bits: seq<bool>)
    ensures bits == Payload(version, bytes)
  {
    hide Bits;
    bits := Push([], 4, 4);
    bits := Push(bits, |bytes|, CountBits(version));
    ghost var header := bits;
    for t := 0 to |bytes|
      invariant bits == header + AllBits(bytes[..t])
    {
      assert bytes[..t + 1][..t] == bytes[..t];
      bits := Push(bits, bytes[t] as nat, 8);
    }
    assert bytes[..|bytes|] == bytes;
  }

  /** The terminator, then zeros up to a whole number of bytes. */
  method Terminate(raw: seq<bool>, capacity: nat) returns (bits: seq<bool>)
    requires |raw| <= capacity && capacity % 8 == 0
    ensures bits == Terminated(raw, capacity)
  {
    bits := raw;
    var i := 0;
    while i < 4 && |bits| < capacity
      invariant i <= 4 && |raw| + i <= capacity
      invariant bits == raw + Falses(i)
    {
      bits := bits + [false];
      i := i + 1;
    }
    BoundaryFacts(|bits|, capacity);
    ghost var ended := bits;
    ghost var fill := ToByteBoundary(|ended|);
    ghost var k := 0;
    while |bits| % 8 != 0
      invariant k <= fill && bits == ended + Falses(k)
      decreases fill - k
    {
      FillStep(|ended|, k);
      bits := bits + [false];
      k := k + 1;
    }
    FillStep(|ended|, k);
  }

  lemma FillStep(length: nat, k: nat)
    requires k <= ToByteBoundary(length)
    ensures (length + k) % 8 == 0 <==> k == ToByteBoundary(length)
  {
    var q, r := length / 8, length % 8;
    assert length == 8 * q + r;
    if r == 0 {
      assert ToByteBoundary(length) == 0;
    } else {
      assert ToByteBoundary(length) == 8 - r;
      if k < 8 - r {
        assert (length + k) == 8 * q + (r + k);
      } else {
        assert length + k == 8 * (q + 1);
      }
    }
  }

  /** Eight bits at a time into bytes. */
  method PackBits(bits: seq<bool>) returns (data: seq<Byte>)
    requires |bits| % 8 == 0
    ensures data == Pack(bits)
  {
    data := [];
    assert bits[..0] == [];
    var i := 0;
    while i < |bits|
      invariant i <= |bits| && i % 8 == 0
      invariant data == Pack(bits[..i])
    {
      var eight := bits[i..i + 8];
      var byte: nat := 0;
      for b := 0 to 8
        invariant byte == Number(eight[..b])
      {
        assert eight[..b + 1][..b] == eight[..b];
        byte := 2 * byte + (if bits[i + b] then 1 else 0);
      }
      assert eight[..8] == eight;
      assert Pow2(8) == 256;
      PackNext(bits, i);
      data := data + [byte as Byte];
      i := i + 8;
    }
    assert bits[..|bits|] == bits;
  }

  lemma PackNext(bits: seq<bool>, i: nat)
    requires i % 8 == 0 && i + 8 <= |bits|
    ensures Pack(bits[..i + 8]) == Pack(bits[..i]) + [BitsByte(bits[i..i + 8])]
  {
    var front := bits[..i + 8];
    assert front[..|front| - 8] == bits[..i] && front[|front| - 8..] == bits[i..i + 8];
  }

  method BuildData(version: nat, bytes: seq<Byte>) returns (data: seq<Byte>)
    requires 1 <= version <= 10 && Fits(version, |bytes|)
    ensures data == DataWords(version, bytes)
  {
    hide Pack, Terminated, Payload, DataCodewords;
    var bits := PushPayload(version, bytes);
    bits := Terminate(bits, DataCodewords(version) * 8);
    var packed := PackBits(bits);
    data := Pad(packed, DataCodewords(version));
  }

  method Pad(packed: seq<Byte>, words: nat) returns (data: seq<Byte>)
    requires |packed| <= words
    ensures data == packed + Padding(words - |packed|)
  {
    data := packed;
    var i := 0;
    while |data| < words
      invariant |data| == |packed| + i <= words
      invariant data == packed + Padding(i)
    {
      data := data + [PadByte(i)];
      i := i + 1;
    }
  }

  ghost function Datas(blocks: seq<CodeBlock>): (datas: seq<Block>)
    ensures |datas| == |blocks|
  {
    if |blocks| == 0 then [] else Datas(blocks[..|blocks| - 1]) + [blocks[|blocks| - 1].data]
  }

  ghost function Ecs(blocks: seq<CodeBlock>): (ecs: seq<Block>)
    ensures |ecs| == |blocks|
  {
    if |blocks| == 0 then [] else Ecs(blocks[..|blocks| - 1]) + [blocks[|blocks| - 1].ec]
  }

  lemma {:induction false} ProjectionsAt(blocks: seq<CodeBlock>, b: nat)
    requires b < |blocks|
    ensures Datas(blocks)[b] == blocks[b].data && Ecs(blocks)[b] == blocks[b].ec
  {
    if b < |blocks| - 1 {
      ProjectionsAt(blocks[..|blocks| - 1], b);
    }
  }

  lemma ProjectAppend(blocks: seq<CodeBlock>, block: CodeBlock)
    ensures Datas(blocks + [block]) == Datas(blocks) + [block.data]
    ensures Ecs(blocks + [block]) == Ecs(blocks) + [block.ec]
  {
    assert (blocks + [block])[..|blocks|] == blocks;
  }

  lemma SplitLast(sizes: seq<nat>, front: seq<nat>, end: nat, data: Block)
    requires |sizes| > 0 && front == sizes[..|sizes| - 1] && Total(sizes) == end <= |data|
    ensures Total(front) <= end
    ensures Split(sizes, data) == Split(front, data) + [data[Total(front)..end]]
  {
    hide Total;
    assert Total(front) <= end by { TotalFront(sizes); }
  }

  lemma TotalFront(sizes: seq<nat>)
    requires |sizes| > 0
    ensures Total(sizes[..|sizes| - 1]) <= Total(sizes)
  {
  }

  lemma SplitAppend(sizes: seq<nat>, size: nat, data: Block)
    requires Total(sizes) + size <= |data|
    ensures Total(sizes + [size]) == Total(sizes) + size
    ensures Split(sizes + [size], data) == Split(sizes, data) + [data[Total(sizes)..Total(sizes) + size]]
  {
    hide Total, Split;
    TotalAppend(sizes, size);
    assert sizes == (sizes + [size])[..|sizes|];
    SplitLast(sizes + [size], sizes, Total(sizes) + size, data);
  }

  lemma ChecksAppend(blocks: seq<Block>, block: Block, count: nat)
    ensures Checks(blocks + [block], count) == Checks(blocks, count) + [Ecc(block, count)]
  {
    assert (blocks + [block])[..|blocks|] == blocks;
  }

  lemma {:induction false} TotalPrefix(sizes: seq<nat>, more: seq<nat>)
    ensures Total(sizes) <= Total(sizes + more)
  {
    if |more| == 0 {
      assert sizes + more == sizes;
    } else {
      TotalPrefix(sizes, more[..|more| - 1]);
      assert (sizes + more)[..|sizes + more| - 1] == sizes + more[..|more| - 1];
    }
  }

  lemma GroupSizesStep(groups: seq<Group>, g: nat)
    requires g < |groups|
    ensures GroupSizes(groups[..g + 1]) == GroupSizes(groups[..g]) + Repeat(groups[g].count, groups[g].size)
  {
    assert groups[..g + 1][..g] == groups[..g];
  }

  /** How the sizes cut so far continue to the whole list. */
  lemma {:induction false} GroupSizesPrefix(groups: seq<Group>, g: nat)
    requires g <= |groups|
    ensures GroupSizes(groups[..g]) <= GroupSizes(groups)
    ensures Total(GroupSizes(groups[..g])) <= Total(GroupSizes(groups))
    decreases |groups| - g
  {
    if g == |groups| {
      assert groups[..g] == groups;
    } else {
      GroupSizesPrefix(groups, g + 1);
      GroupSizesStep(groups, g);
      TotalPrefix(GroupSizes(groups[..g]), Repeat(groups[g].count, groups[g].size));
    }
  }

  lemma {:induction false} RepeatTotalMonotone(sizes: seq<nat>, i: nat, count: nat, size: nat)
    requires i < count
    ensures Total(sizes + Repeat(i, size)) + size <= Total(sizes + Repeat(count, size))
  {
    hide Total, Repeat;
    TotalRepeat(sizes, i, size);
    TotalRepeat(sizes, count, size);
    OneMoreFits(i, count, size);
  }

  lemma OneMoreFits(i: nat, count: nat, size: nat)
    requires i < count
    ensures i * size + size <= count * size
  {
    var rest := count - (i + 1);
    assert rest * size >= 0;
    assert count * size == (i + 1) * size + rest * size;
    assert (i + 1) * size == i * size + size;
  }

  /** The blocks are the data up to offset, cut into the given sizes, each with its check bytes. */
  ghost predicate IsCut(blocks: seq<CodeBlock>, sizes: seq<nat>, data: Block, ec: nat, offset: nat) {
    && offset == Total(sizes) <= |data|
    && Datas(blocks) == Split(sizes, data)
    && Ecs(blocks) == Checks(Datas(blocks), ec)
  }

  lemma CutNext(blocks: seq<CodeBlock>, sizes: seq<nat>, data: Block, ec: nat, offset: nat, size: nat)
    requires IsCut(blocks, sizes, data, ec, offset) && offset + size <= |data|
    ensures var slice := data[offset..offset + size];
      IsCut(blocks + [CodeBlock(slice, Ecc(slice, ec))], sizes + [size], data, ec, offset + size)
  {
    hide Total, Split, Ecc, Checks, Datas, Ecs;
    var slice := data[offset..offset + size];
    ProjectAppend(blocks, CodeBlock(slice, Ecc(slice, ec)));
    ChecksAppend(Datas(blocks), slice, ec);
    SplitAppend(sizes, size, data);
  }

  /** Cut one group's blocks off the data and give each its check bytes. */
  method CutGroup(
    gf: Tables, data: seq<Byte>, ec: nat, group: Group, blocks: seq<CodeBlock>, ghost cut: seq<nat>, start: nat)
    returns (out: seq<CodeBlock>, offset: nat)
    requires gf.Valid() && IsCut(blocks, cut, data, ec, start)
    requires Total(cut + Repeat(group.count, group.size)) <= |data|
    ensures IsCut(out, cut + Repeat(group.count, group.size), data, ec, offset)
  {
    hide Total, Repeat, Ecc, Split, Checks, Datas, Ecs;
    var size := group.size;
    out, offset := blocks, start;
    RepeatNone(cut, size);
    for i := 0 to group.count
      invariant IsCut(out, cut + Repeat(i, size), data, ec, offset)
      invariant gf.Valid()
    {
      RepeatTotalMonotone(cut, i, group.count, size);
      var slice := data[offset..offset + size];
      var check := ErrorCorrection(gf, slice, ec);
      CutNext(out, cut + Repeat(i, size), data, ec, offset, size);
      RepeatNext(cut, i, size);
      offset := offset + size;
      out := out + [CodeBlock(slice, check[..])];
    }
  }

  /** Cut the data into blocks, group by group. */
  method BuildBlocks(gf: Tables, version: nat, data: seq<Byte>) returns (blocks: seq<CodeBlock>)
    requires gf.Valid() && 1 <= version <= 10 && |data| == DataCodewords(version)
    ensures Total(BlockSizes(version)) == |data|
    ensures Datas(blocks) == Split(BlockSizes(version), data)
    ensures Ecs(blocks) == Checks(Datas(blocks), EcCount(version))
  {
    VersionTable(version);
    var groups := Groups(version);
    var ec := EcCount(version);
    blocks := [];
    var offset := 0;
    assert groups[..0] == [];
    assert IsCut(blocks, GroupSizes(groups[..0]), data, ec, offset);
    hide DataCodewords, Groups, EcCount, GroupTotal, BlockCount, Total, Repeat, Split, Ecc, Checks, Datas, Ecs,
        GroupSizes;
    for g := 0 to |groups|
      invariant IsCut(blocks, GroupSizes(groups[..g]), data, ec, offset)
      invariant gf.Valid()
    {
      GroupSizesStep(groups, g);
      GroupSizesPrefix(groups, g + 1);
      blocks, offset := CutGroup(gf, data, ec, groups[g], blocks, GroupSizes(groups[..g]), offset);
    }
    assert groups[..|groups|] == groups;
  }

  lemma RepeatNone(cut: seq<nat>, size: nat)
    ensures cut + Repeat(0, size) == cut
  {}

  lemma RepeatNext(cut: seq<nat>, i: nat, size: nat)
    ensures cut + Repeat(i + 1, size) == (cut + Repeat(i, size)) + [size]
  {}

  /** Column by column over the data, then over the check bytes. */
  method Interleave(blocks: seq<CodeBlock>, ec: nat) returns (codewords: seq<Byte>)
    requires forall b | 0 <= b < |blocks| :: |blocks[b].ec| == ec
    ensures codewords == Columns(Datas(blocks), Longest(Sizes(Datas(blocks)))) + Columns(Ecs(blocks), ec)
  {
    hide Datas, Ecs, Sizes;
    ghost var datas, ecs := Datas(blocks), Ecs(blocks);
    var longest := LongestBlock(blocks);
    codewords := [];
    for i := 0 to longest
      invariant codewords == Columns(datas, i)
    {
      ghost var before := codewords;
      for b := 0 to |blocks|
        invariant codewords == before + Column(datas, i, b)
      {
        ProjectionsAt(blocks, b);
        if i < |blocks[b].data| {
          codewords := codewords + [blocks[b].data[i]];
        }
      }
    }
    ghost var front := codewords;
    for i := 0 to ec
      invariant codewords == front + Columns(ecs, i)
    {
      ghost var before := codewords;
      for b := 0 to |blocks|
        invariant codewords == before + Column(ecs, i, b)
      {
        ProjectionsAt(blocks, b);
        codewords := codewords + [blocks[b].ec[i]];
      }
    }
  }

  method LongestBlock(blocks: seq<CodeBlock>) returns (longest: nat)
    ensures longest == Longest(Sizes(Datas(blocks)))
  {
    longest := 0;
    assert blocks[..0] == [];
    for b := 0 to |blocks|
      invariant longest == Longest(Sizes(Datas(blocks[..b])))
    {
      assert blocks[..b + 1][..b] == blocks[..b];
      assert Sizes(Datas(blocks[..b + 1]))[..b] == Sizes(Datas(blocks[..b]));
      if |blocks[b].data| > longest {
        longest := |blocks[b].data|;
      }
    }
    assert blocks[..|blocks|] == blocks;
  }

  /** The whole stream for a version that holds the text. */
  method EncodeFor(gf: Tables, version: nat, bytes: seq<Byte>) returns (codewords: seq<Byte>)
    requires gf.Valid() && 1 <= version <= 10 && Fits(version, |bytes|)
    ensures codewords == Codewords(version, bytes)
  {
    hide Split, Columns, Longest, Sizes, Checks, DataWords, DataCodewords, EcCount, BlockSizes, Ecc, Fits;
    var data := BuildData(version, bytes);
    var blocks := BuildBlocks(gf, version, data);
    forall b | 0 <= b < |blocks| ensures |blocks[b].ec| == EcCount(version) {
      ProjectionsAt(blocks, b);
    }
    codewords := Interleave(blocks, EcCount(version));
  }

  /** The smallest version that holds the text, or None when none of the ten does. */
  method Encode(gf: Tables, bytes: seq<Byte>) returns (r: Option<Encoded>)
    requires gf.Valid()
    ensures r.None? <==> forall v | 1 <= v <= 10 :: !Fits(v, |bytes|)
    ensures r.Some? ==>
      var v := r.value.version;
      && 1 <= v <= 10 && Fits(v, |bytes|) && (forall w | 1 <= w < v :: !Fits(w, |bytes|))
      && r.value.codewords == Codewords(v, bytes)
  {
    for version := 1 to 11
      invariant forall w | 1 <= w < version :: !Fits(w, |bytes|)
    {
      var bitsNeeded := 4 + CountBits(version) + |bytes| * 8;
      if bitsNeeded <= DataCodewords(version) * 8 {
        var codewords := EncodeFor(gf, version, bytes);
        return Some(Encoded(version, codewords));
      }
    }
    return None;
  }

  /** Exactly the texts of more than 213 bytes are refused. */
  lemma RefusedLengths(n: nat)
    ensures (forall v | 1 <= v <= 10 :: !Fits(v, n)) <==> n > 213
  {
    if n <= 213 {
      assert Fits(10, n);
    }
  }
}
