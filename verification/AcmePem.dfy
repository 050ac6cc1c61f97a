/** PEM blocks: base64 in lines of 64 characters between a BEGIN and an END line, written and read back. */
module AcmePem {
  import opened Wrappers
  import opened Octets

  const LINE := 64

  // -- Base64 ---------------------------------------------------------------------------------------

  type Sextet = n: nat | n < 64

  function Symbol(n: Sextet): char {
    if n < 26 then 'A' + n as char
    else if n < 52 then 'a' + (n - 26) as char
    else if n < 62 then '0' + (n - 52) as char
    else if n == 62 then '+'
    else '/'
  }

  function Value(c: char): Option<Sextet> {
    if 'A' <= c <= 'Z' then Some((c - 'A') as int)
    else if 'a' <= c <= 'z' then Some((c - 'a') as int + 26)
    else if '0' <= c <= '9' then Some((c - '0') as int + 52)
    else if c == '+' then Some(62)
    else if c == '/' then Some(63)
    else None
  }

  lemma SymbolValue(n: Sextet)
    ensures Value(Symbol(n)) == Some(n) && Symbol(n) != '='
  {
  }

  lemma ValueSymbol(c: char)
    ensures Value(c).Some? ==> Symbol(Value(c).value) == c
  {
  }

  /** Three bytes are four sextets. */
  function Quad(x: Byte, y: Byte, z: Byte): (Sextet, Sextet, Sextet, Sextet) {
    (x / 4, x % 4 * 16 + y / 16, y % 16 * 4 + z / 64, z % 64)
  }

  function Triple(a: Sextet, b: Sextet, c: Sextet, d: Sextet): (Byte, Byte, Byte) {
    (a * 4 + b / 16, b % 16 * 16 + c / 4, c % 4 * 64 + d)
  }

  lemma By4(q: nat, r: nat)
    requires r < 4
    ensures (q * 4 + r) / 4 == q && (q * 4 + r) % 4 == r
  {
  }

  lemma By16(q: nat, r: nat)
    requires r < 16
    ensures (q * 16 + r) / 16 == q && (q * 16 + r) % 16 == r
  {
  }

  lemma By64(q: nat, r: nat)
    requires r < 64
    ensures (q * 64 + r) / 64 == q && (q * 64 + r) % 64 == r
  {
  }

  lemma TripleQuad(x: Byte, y: Byte, z: Byte)
    ensures var q := Quad(x, y, z); Triple(q.0, q.1, q.2, q.3) == (x, y, z)
    ensures z == 0 ==> Quad(x, y, z).3 == 0
    ensures y == z == 0 ==> Quad(x, y, z).2 == 0
  {
    By16(x % 4, y / 16);
    By4(y % 16, z / 64);
  }

  lemma QuadTriple(a: Sextet, b: Sextet, c: Sextet, d: Sextet)
    ensures var t := Triple(a, b, c, d); Quad(t.0, t.1, t.2) == (a, b, c, d)
  {
    By4(a, b / 16);
    By16(b % 16, c / 4);
    By64(c % 4, d);
  }

  /** Three bytes to four symbols; one or two last bytes are padded. */
  function Encode(data: seq<Byte>): string {
    if |data| == 0 then ""
    else if |data| == 1 then
      var q := Quad(data[0], 0, 0);
      [Symbol(q.0), Symbol(q.1), '=', '=']
    else if |data| == 2 then
      var q := Quad(data[0], data[1], 0);
      [Symbol(q.0), Symbol(q.1), Symbol(q.2), '=']
    else
      var q := Quad(data[0], data[1], data[2]);
      [Symbol(q.0), Symbol(q.1), Symbol(q.2), Symbol(q.3)] + Encode(data[3..])
  }

  /** Strict decoding: whole groups, padding only at the end, and no bits left over. */
  function Decode(text: string): Option<seq<Byte>> {
    if |text| == 0 then Some([])
    else if |text| < 4 then None
    else
      var a, b, c, d := Value(text[0]), Value(text[1]), Value(text[2]), Value(text[3]);
      if a.None? || b.None? then None
      else if |text| == 4 && text[2] == '=' && text[3] == '=' then
        var t := Triple(a.value, b.value, 0, 0);
        if t.1 == 0 then Some([t.0]) else None
      else if c.None? then None
      else if |text| == 4 && text[3] == '=' then
        var t := Triple(a.value, b.value, c.value, 0);
        if t.2 == 0 then Some([t.0, t.1]) else None
      else if d.None? then None
      else
        var t := Triple(a.value, b.value, c.value, d.value);
        var rest := Decode(text[4..]);
        if rest.None? then None else Some([t.0, t.1, t.2] + rest.value)
  }

  // -- What base64 is --------------------------------------------------------------------------------

  /** Table 1 of RFC 4648, in rows of eight. */
  const ALPHABET: seq<string> := [
    "ABCDEFGH", "IJKLMNOP", "QRSTUVWX", "YZabcdef", "ghijklmn", "opqrstuv", "wxyz0123", "456789+/"]

  function Letter(n: Sextet): char {
    assert forall row | 0 <= row < 8 :: |ALPHABET[row]| == 8;
    ALPHABET[n / 8][n % 8]
  }

  lemma SymbolIs(n: Sextet)
    ensures Symbol(n) == Letter(n)
  {
    if n < 8 {
      assert ALPHABET[0] == "ABCDEFGH";
    } else if n < 16 {
      assert ALPHABET[1] == "IJKLMNOP";
    } else if n < 24 {
      assert ALPHABET[2] == "QRSTUVWX";
    } else if n < 32 {
      assert ALPHABET[3] == "YZabcdef";
    } else if n < 40 {
      assert ALPHABET[4] == "ghijklmn";
    } else if n < 48 {
      assert ALPHABET[5] == "opqrstuv";
    } else if n < 56 {
      assert ALPHABET[6] == "wxyz0123";
    } else {
      assert ALPHABET[7] == "456789+/";
    }
  }

  /** The byte at a place, and nothing past the end. */
  function ByteOr0(data: seq<Byte>, i: nat): Byte {
    if i < |data| then data[i] else 0
  }

  /** The j-th three bytes as one number of 24 bits, most significant first. */
  function Word24(data: seq<Byte>, j: nat): nat {
    65536 * ByteOr0(data, 3 * j) + 256 * ByteOr0(data, 3 * j + 1) + ByteOr0(data, 3 * j + 2)
  }

  /** Its i-th six bits. */
  function SixOf(word: nat, i: nat): Sextet {
    if i == 0 then word / 262144 % 64 else if i == 1 then word / 4096 % 64 else if i == 2 then word / 64 % 64
    else word % 64
  }

  lemma Quotient(q: nat, r: nat, m: nat)
    requires m in {64, 4096, 262144} && r < m
    ensures (q * m + r) / m == q
  {
  }

  lemma SecondSix(x: Byte, y: Byte, z: Byte)
    ensures (65536 * x + 256 * y + z) / 4096 % 64 == x % 4 * 16 + y / 16
  {
    Quotient(x * 16 + y / 16, y % 16 * 256 + z, 4096);
    By64(x / 4, x % 4 * 16 + y / 16);
  }

  lemma ThirdSix(x: Byte, y: Byte, z: Byte)
    ensures (65536 * x + 256 * y + z) / 64 % 64 == y % 16 * 4 + z / 64
  {
    Quotient(x * 1024 + y * 4 + z / 64, z % 64, 64);
    By64(x * 16 + y / 16, y % 16 * 4 + z / 64);
  }

  lemma OuterSixes(x: Byte, y: Byte, z: Byte)
    ensures (65536 * x + 256 * y + z) / 262144 % 64 == x / 4 && (65536 * x + 256 * y + z) % 64 == z % 64
  {
    Quotient(x / 4, x % 4 * 65536 + 256 * y + z, 262144);
    By64(x * 1024 + y * 4 + z / 64, z % 64);
  }

  function Part(q: (Sextet, Sextet, Sextet, Sextet), i: nat): Sextet {
    if i == 0 then q.0 else if i == 1 then q.1 else if i == 2 then q.2 else q.3
  }

  lemma QuadIsWord(x: Byte, y: Byte, z: Byte, i: nat)
    requires i < 4
    ensures SixOf(65536 * x + 256 * y + z, i) == Part(Quad(x, y, z), i)
  {
    if i == 1 {
      SecondSix(x, y, z);
    } else if i == 2 {
      ThirdSix(x, y, z);
    } else {
      OuterSixes(x, y, z);
    }
  }

  lemma EncodeHead(data: seq<Byte>, i: nat)
    requires data != [] && i < 4
    ensures |Encode(data)| == if |data| <= 3 then 4 else 4 + |Encode(data[3..])|
    ensures Encode(data)[i]
         == if i > |data| then '=' else Symbol(Part(Quad(data[0], ByteOr0(data, 1), ByteOr0(data, 2)), i))
  {
    hide Symbol, Quad;
  }

  lemma FirstWord(data: seq<Byte>)
    requires data != []
    ensures Word24(data, 0) == 65536 * data[0] + 256 * ByteOr0(data, 1) + ByteOr0(data, 2)
  {
  }

  lemma EncodeFirst(data: seq<Byte>, i: nat)
    requires data != [] && i < 4
    ensures |Encode(data)| == if |data| <= 3 then 4 else 4 + |Encode(data[3..])|
    ensures Encode(data)[i] == if i > |data| then '=' else Letter(SixOf(Word24(data, 0), i))
  {
    hide *;
    EncodeHead(data, i);
    FirstWord(data);
    QuadIsWord(data[0], ByteOr0(data, 1), ByteOr0(data, 2), i);
    SymbolIs(SixOf(Word24(data, 0), i));
  }

  lemma EncodeLater(data: seq<Byte>, k: nat)
    requires |data| > 3 && k < |Encode(data[3..])|
    ensures 4 + k < |Encode(data)| && Encode(data)[4 + k] == Encode(data[3..])[k]
  {
    hide Symbol, Quad;
  }

  lemma Thirds(n: nat)
    ensures n > 3 ==> (n + 2) / 3 == (n - 3 + 2) / 3 + 1
    ensures 0 < n <= 3 ==> (n + 2) / 3 == 1
  {
  }

  /**
   * What stands at every place of an encoding: the letter for these six bits of these three bytes, or, where no byte
   * reaches, an equals sign.
   */
  lemma {:induction false} EncodeAt(data: seq<Byte>, j: nat, i: nat)
    requires 3 * j < |data| && i < 4
    ensures |Encode(data)| == (|data| + 2) / 3 * 4 && 4 * j + i < |Encode(data)|
    ensures Encode(data)[4 * j + i] == if 3 * j + i > |data| then '=' else Letter(SixOf(Word24(data, j), i))
  {
    hide Encode, Symbol, Quad, SixOf, Letter;
    EncodeFirst(data, i);
    Thirds(|data|);
    if |data| > 3 { EncodeAt(data[3..], if j == 0 then 0 else j - 1, i); }
    if j > 0 {
      EncodeLater(data, 4 * (j - 1) + i);
      assert Word24(data, j) == Word24(data[3..], j - 1);
    }
  }

  /** Decoding undoes encoding. */
  lemma {:induction false} DecodeEncode(data: seq<Byte>)
    ensures Decode(Encode(data)) == Some(data)
  {
    hide Symbol, Value, Quad, Triple;
    if |data| > 0 {
      var x, y, z := data[0], if |data| > 1 then data[1] else 0, if |data| > 2 then data[2] else 0;
      var q := Quad(x, y, z);
      TripleQuad(x, y, z);
      SymbolValue(q.0);
      SymbolValue(q.1);
      SymbolValue(q.2);
      SymbolValue(q.3);
      if |data| > 2 {
        DecodeEncode(data[3..]);
        assert Encode(data)[4..] == Encode(data[3..]);
        assert data == [x, y, z] + data[3..];
      } else {
        assert |Encode(data)| == 4;
        assert data == if |data| == 1 then [x] else [x, y];
      }
    }
  }

  /** Only what encoding writes is decoded. */
  lemma {:induction false} EncodeDecode(text: string)
    requires Decode(text).Some?
    ensures Encode(Decode(text).value) == text
  {
    hide Symbol, Value, Quad, Triple;
    if |text| >= 4 {
      forall i | 0 <= i < 4 { ValueSymbol(text[i]); }
      var a, b, c, d := Value(text[0]), Value(text[1]), Value(text[2]), Value(text[3]);
      PaddedTriple(a.value, b.value);
      if |text| == 4 && text[2] == '=' && text[3] == '=' {
        QuadTriple(a.value, b.value, 0, 0);
        assert text == [text[0], text[1], '=', '='];
      } else if |text| == 4 && text[3] == '=' {
        QuadTriple(a.value, b.value, c.value, 0);
        assert text == [text[0], text[1], text[2], '='];
      } else {
        QuadTriple(a.value, b.value, c.value, d.value);
        EncodeDecode(text[4..]);
        var data := Decode(text).value;
        assert data[3..] == Decode(text[4..]).value;
        assert text == [text[0], text[1], text[2], text[3]] + text[4..];
      }
    }
  }

  lemma PaddedTriple(a: Sextet, b: Sextet)
    ensures Triple(a, b, 0, 0).2 == 0
  {
  }

  predicate IsSpace(c: char) {
    c == ' ' || '\t' <= c <= '\r'
  }

  /** A character base64 writes. */
  predicate InBase64(c: char) {
    c == '=' || Value(c).Some?
  }

  predicate AllBase64(text: string) {
    forall i | 0 <= i < |text| :: InBase64(text[i])
  }

  lemma {:induction false} EncodeInBase64(data: seq<Byte>)
    ensures AllBase64(Encode(data)) && (Encode(data) == "" <==> data == [])
  {
    forall n: Sextet { SymbolValue(n); }
    hide Symbol, Value, Quad;
    if |data| > 2 { EncodeInBase64(data[3..]); }
  }

  // -- Writing a block --------------------------------------------------------------------------------

  function Begin(kind: string): string {
    "-----BEGIN " + kind + "-----"
  }

  function End(kind: string): string {
    "-----END " + kind + "-----"
  }

  /** The body in lines of 64 characters. */
  function Chunked(body: string): string {
    if |body| == 0 then ""
    else if |body| <= LINE then body + "\n"
    else body[..LINE] + "\n" + Chunked(body[LINE..])
  }

  function Pem(der: seq<Byte>, kind: string): string {
    Begin(kind) + "\n" + Chunked(Encode(der)) + End(kind) + "\n"
  }

  lemma Marked(der: seq<Byte>, kind: string)
    ensures Pem(der, kind) ==
            "-----BEGIN " + kind + "-----\n" + Chunked(Encode(der)) + "-----END " + kind + "-----\n"
  {
    hide Chunked, Encode;
    assert "-----BEGIN " + kind + "-----\n" == "-----BEGIN " + kind + "-----" + "\n";
    assert "-----END " + kind + "-----\n" == "-----END " + kind + "-----" + "\n";
  }

  lemma ShortChunk(body: string, p: nat)
    requires |body| <= LINE && p < |Chunked(body)|
    ensures |Chunked(body)| == |body| + 1 == |body| + (|body| + 63) / 64 && p / 65 == 0
    ensures Chunked(body)[p] == if p == |body| then '\n' else body[p]
  {
  }

  lemma LongChunk(body: string)
    requires |body| > LINE
    ensures |Chunked(body)| == 65 + |Chunked(body[LINE..])| && |Chunked(body[LINE..])| > 0
    ensures forall p: nat | p < |Chunked(body)| ::
      Chunked(body)[p] == if p < 64 then body[p] else if p == 64 then '\n' else Chunked(body[LINE..])[p - 65]
  {
    var rest := Chunked(body[LINE..]);
    assert Chunked(body) == body[..LINE] + ("\n" + rest);
    hide Chunked;
  }

  lemma Sixty(p: nat, n: nat)
    ensures p >= 65 ==> p / 65 == (p - 65) / 65 + 1 && p % 65 == (p - 65) % 65
    ensures p < 65 ==> p / 65 == 0 && p % 65 == p
    ensures n > 64 ==> (n + 63) / 64 == (n - 64 + 63) / 64 + 1
  {
  }

  /** Where the characters of a body stand: 64 on a line, and each line ended. */
  lemma {:induction false} ChunkedAt(body: string, p: nat)
    requires p < |Chunked(body)|
    ensures |Chunked(body)| == |body| + (|body| + 63) / 64
    ensures
      if p % 65 == 64 || p == |Chunked(body)| - 1 then Chunked(body)[p] == '\n'
      else p - p / 65 < |body| && Chunked(body)[p] == body[p - p / 65]
  {
    hide Chunked;
    Sixty(p, |body|);
    if |body| > LINE {
      var rest := body[LINE..];
      LongChunk(body);
      ChunkedAt(rest, if p < 65 then 0 else p - 65);
    } else {
      ShortChunk(body, p);
    }
  }

  method PemFromDer(der: seq<Byte>, kind: string) returns (out: string)
    ensures out == Pem(der, kind)
    ensures out == "-----BEGIN " + kind + "-----\n" + Chunked(Encode(der)) + "-----END " + kind + "-----\n"
  {
    Marked(der, kind);
    hide Encode;
    var body := Encode(der);
    out := Begin(kind) + "\n";
    var at := 0;
    while at < |body|
      invariant 0 <= at <= |body|
      invariant out + Chunked(body[at..]) == Begin(kind) + "\n" + Chunked(body)
    {
      var next := if |body| - at <= LINE then |body| else at + LINE;
      assert body[at..][..next - at] == body[at..next] && (next < |body| ==> body[at..][LINE..] == body[next..]);
      assert Chunked(body[at..]) == body[at..next] + "\n" + Chunked(body[next..]);
      out := out + body[at..next] + "\n";
      at := next;
    }
    out := out + End(kind) + "\n";
  }

  // -- Reading a block by its label -----------------------------------------------------------------------

  predicate OccursAt(text: string, part: string, i: nat) {
    i + |part| <= |text| && text[i..i + |part|] == part
  }

  /** The first place where part occurs in text, from index i on. */
  function Find(text: string, part: string, i: nat): (r: Option<nat>)
    requires i <= |text|
    ensures r.Some? ==> i <= r.value && OccursAt(text, part, r.value)
    ensures r.Some? ==> forall j | i <= j < r.value :: !OccursAt(text, part, j)
    ensures r.None? ==> forall j | i <= j :: !OccursAt(text, part, j)
    decreases |text| - i
  {
    if OccursAt(text, part, i) then Some(i)
    else if i == |text| then None
    else Find(text, part, i + 1)
  }

  function Stripped(text: string): string {
    if |text| == 0 then "" else (if IsSpace(text[0]) then "" else [text[0]]) + Stripped(text[1..])
  }

  datatype PemError = NoBlock | Unterminated | NotBase64

  function PemToDer(pem: string, kind: string): Result<seq<Byte>, PemError> {
    var start := Find(pem, Begin(kind), 0);
    if start.None? then Err(NoBlock)
    else
      var rest := pem[start.value + |Begin(kind)|..];
      var stop := Find(rest, End(kind), 0);
      if stop.None? then Err(Unterminated)
      else
        var der := Decode(Stripped(rest[..stop.value]));
        if der.None? then Err(NotBase64) else Ok(der.value)
  }

  lemma {:induction false} StrippedSame(text: string, more: string)
    requires AllBase64(text)
    ensures Stripped(text + more) == text + Stripped(more)
  {
    if |text| == 0 {
      assert text + more == more;
    } else {
      assert InBase64(text[0]) && !IsSpace(text[0]);
      assert (text + more)[1..] == text[1..] + more;
      StrippedSame(text[1..], more);
    }
  }

  lemma {:induction false} StrippedChunks(body: string)
    requires AllBase64(body)
    ensures Stripped(Chunked(body)) == body
  {
    if |body| == 0 {
    } else if |body| <= LINE {
      StrippedSame(body, "\n");
      assert Stripped("\n") == "";
    } else {
      StrippedChunks(body[LINE..]);
      var more := "\n" + Chunked(body[LINE..]);
      assert Chunked(body) == body[..LINE] + more;
      StrippedSame(body[..LINE], more);
      assert more[1..] == Chunked(body[LINE..]) && IsSpace(more[0]);
      assert Stripped(more) == body[LINE..];
    }
  }

  /** No line of a body holds a dash, where a BEGIN or END line begins. */
  lemma {:induction false} NoDash(body: string)
    requires AllBase64(body)
    ensures forall i | 0 <= i < |Chunked(body)| :: Chunked(body)[i] != '-'
  {
    if |body| > LINE {
      NoDash(body[LINE..]);
    }
  }

  /** A part is found where its first character first stands, when it stands there. */
  lemma FoundFirst(before: string, part: string, after: string)
    requires part != "" && forall j | 0 <= j < |before| :: before[j] != part[0]
    ensures Find(before + part + after, part, 0) == Some(|before|)
  {
    var text := before + part + after;
    assert OccursAt(text, part, |before|);
    forall j | 0 <= j < |before| ensures !OccursAt(text, part, j) {
      assert text[j] == before[j];
    }
  }

  lemma Marks(kind: string)
    ensures Begin(kind) != "" && End(kind) != "" && End(kind)[0] == '-'
  {
  }

  /** What is between the marks is what is decoded. */
  lemma Between(kind: string, middle: string, after: string)
    requires forall j | 0 <= j < |middle| :: middle[j] != '-'
    ensures PemToDer(Begin(kind) + (middle + End(kind) + after), kind)
         == if Decode(Stripped(middle)).Some? then Ok(Decode(Stripped(middle)).value) else Err(NotBase64)
  {
    hide Begin, End, Find, Decode, Stripped;
    Marks(kind);
    var rest := middle + End(kind) + after;
    var pem := Begin(kind) + rest;
    FoundFirst("", Begin(kind), rest);
    assert "" + Begin(kind) + rest == pem;
    FoundFirst(middle, End(kind), after);
    assert pem[|Begin(kind)|..] == rest && rest[..|middle|] == middle;
  }

  lemma StripNewline(text: string)
    ensures Stripped("\n" + text) == Stripped(text)
  {
    assert ("\n" + text)[1..] == text && IsSpace('\n');
  }

  /** The lines of a block are read back as the bytes they were written for. */
  lemma LinesRead(der: seq<Byte>)
    ensures var middle := "\n" + Chunked(Encode(der));
      Decode(Stripped(middle)) == Some(der) && forall j | 0 <= j < |middle| :: middle[j] != '-'
  {
    hide *;
    var body := Encode(der);
    EncodeInBase64(der);
    NoDash(body);
    StrippedChunks(body);
    DecodeEncode(der);
    StripNewline(Chunked(body));
    forall j | 0 < j < |Chunked(body)| + 1 ensures ("\n" + Chunked(body))[j] != '-' {
      assert ("\n" + Chunked(body))[j] == Chunked(body)[j - 1];
    }
  }

  lemma Shape(der: seq<Byte>, kind: string)
    ensures Pem(der, kind) == Begin(kind) + ("\n" + Chunked(Encode(der)) + End(kind) + "\n")
  {
    hide Begin, End, Chunked, Encode;
  }

  /** What is written under a label is read back under it, whatever the label says. */
  lemma PemRoundTrip(der: seq<Byte>, kind: string)
    ensures PemToDer(Pem(der, kind), kind) == Ok(der)
  {
    hide *;
    LinesRead(der);
    Shape(der, kind);
    Between(kind, "\n" + Chunked(Encode(der)), "\n");
  }

  // -- Reading the first certificate of a chain -----------------------------------------------------------

  /** The length of the first line. */
  function FirstLine(text: string): (n: nat)
    ensures n <= |text| && (n < |text| ==> text[n] == '\n')
    ensures forall i | 0 <= i < n :: text[i] != '\n'
  {
    if |text| == 0 || text[0] == '\n' then 0 else 1 + FirstLine(text[1..])
  }

  function Lines(text: string): seq<string> {
    if |text| == 0 then []
    else
      var n := FirstLine(text);
      if n == |text| then [text] else [text[..n]] + Lines(text[n + 1..])
  }

  function TrimStart(s: string): string {
    if |s| > 0 && IsSpace(s[0]) then TrimStart(s[1..]) else s
  }

  function TrimEnd(s: string): string {
    if |s| > 0 && IsSpace(s[|s| - 1]) then TrimEnd(s[..|s| - 1]) else s
  }

  function Trim(s: string): string {
    TrimEnd(TrimStart(s))
  }

  const BEGIN_CERTIFICATE := "-----BEGIN CERTIFICATE"
  const END_CERTIFICATE := "-----END CERTIFICATE"

  /** The lines up to the first END after a BEGIN; inside says whether a BEGIN has been met. */
  function Body(lines: seq<string>, inside: bool): string {
    if |lines| == 0 then ""
    else
      var line := Trim(lines[0]);
      if BEGIN_CERTIFICATE <= line then Body(lines[1..], true)
      else if END_CERTIFICATE <= line then if inside then "" else Body(lines[1..], false)
      else (if inside then line else "") + Body(lines[1..], inside)
  }

  function FirstCertificate(pem: string): Option<seq<Byte>> {
    var body := Body(Lines(pem), false);
    if body == "" then None else Decode(body)
  }

  method FirstCertificateDer(pem: string) returns (r: Option<seq<Byte>>)
    ensures r == FirstCertificate(pem)
  {
    hide Lines, Trim, Decode;
    var lines := Lines(pem);
    var inside, body := false, "";
    var i := 0;
    while i < |lines|
      invariant 0 <= i <= |lines|
      invariant body + Body(lines[i..], inside) == Body(lines, false)
    {
      var line := Trim(lines[i]);
      assert lines[i..][1..] == lines[i + 1..];
      i := i + 1;
      if BEGIN_CERTIFICATE <= line {
        inside := true;
      } else if END_CERTIFICATE <= line {
        if inside { break; }
      } else if inside {
        body := body + line;
      }
    }
    assert body == Body(lines, false);
    r := if body == "" then None else Decode(body);
  }

  lemma {:induction false} FirstLineEnds(line: string, rest: string)
    requires forall i | 0 <= i < |line| :: line[i] != '\n'
    ensures FirstLine(line + ("\n" + rest)) == |line|
  {
    if |line| > 0 {
      assert (line + ("\n" + rest))[1..] == line[1..] + ("\n" + rest);
      FirstLineEnds(line[1..], rest);
    }
  }

  lemma LineThenRest(line: string, rest: string)
    requires forall i | 0 <= i < |line| :: line[i] != '\n'
    ensures Lines(line + ("\n" + rest)) == [line] + Lines(rest)
  {
    hide *;
    FirstLineEnds(line, rest);
    var text := line + ("\n" + rest);
    LinesStep(text);
    assert text[..|line|] == line && text[|line| + 1..] == rest;
  }

  lemma LinesStep(text: string)
    requires FirstLine(text) < |text|
    ensures Lines(text) == [text[..FirstLine(text)]] + Lines(text[FirstLine(text) + 1..])
  {
    hide FirstLine;
  }

  /** A line with no space at either end is not trimmed. */
  lemma TrimSame(line: string)
    requires line != "" && !IsSpace(line[0]) && !IsSpace(line[|line| - 1])
    ensures Trim(line) == line
  {
  }

  /** What ends a body: a line that is an END and no BEGIN. */
  predicate EndsBody(rest: string) {
    Lines(rest) != [] && END_CERTIFICATE <= Trim(Lines(rest)[0]) && !(BEGIN_CERTIFICATE <= Trim(Lines(rest)[0]))
  }

  lemma NoMore(rest: string)
    requires EndsBody(rest)
    ensures Body(Lines(Chunked("") + rest), true) == ""
  {
    assert Chunked("") + rest == rest;
  }

  lemma NextChunk(body: string, n: nat)
    requires 0 < n <= |body| && n == if |body| <= LINE then |body| else LINE
    ensures Chunked(body) == body[..n] + ("\n" + Chunked(body[n..]))
  {
  }

  lemma ChunkBase64(body: string, n: nat)
    requires AllBase64(body) && n <= |body|
    ensures AllBase64(body[..n]) && AllBase64(body[n..])
  {
  }

  lemma {:induction false} BodyOfChunks(body: string, rest: string)
    requires AllBase64(body) && EndsBody(rest)
    ensures Body(Lines(Chunked(body) + rest), true) == body
  {
    hide Body, Lines, Chunked, AllBase64, EndsBody;
    if |body| == 0 {
      NoMore(rest);
    } else {
      var n := if |body| <= LINE then |body| else LINE;
      NextChunk(body, n);
      ChunkBase64(body, n);
      var line, more := body[..n], Chunked(body[n..]) + rest;
      BodyOfChunks(body[n..], rest);
      OneChunk(line, more);
      assert Chunked(body) + rest == line + ("\n" + more);
      assert body == line + body[n..];
    }
  }

  lemma OneChunk(line: string, more: string)
    requires AllBase64(line) && line != ""
    ensures Body(Lines(line + ("\n" + more)), true) == line + Body(Lines(more), true)
  {
    assert InBase64(line[0]) && InBase64(line[|line| - 1]);
    forall i | 0 <= i < |line| ensures line[i] != '\n' {
      assert InBase64(line[i]);
    }
    LineThenRest(line, more);
    TrimSame(line);
    assert line[0] != '-';
    hide Lines, Trim;
    assert ([line] + Lines(more))[1..] == Lines(more);
  }

  lemma EndEndsBody(more: string)
    ensures EndsBody(End("CERTIFICATE") + ("\n" + more))
  {
    var end := End("CERTIFICATE");
    LineThenRest(end, more);
    TrimSame(end);
    assert BEGIN_CERTIFICATE[5] != end[5];
  }

  lemma BeginLine(more: string)
    ensures Lines(Begin("CERTIFICATE") + ("\n" + more)) == [Begin("CERTIFICATE")] + Lines(more)
    ensures BEGIN_CERTIFICATE <= Trim(Begin("CERTIFICATE"))
  {
    var begin := Begin("CERTIFICATE");
    assert begin == "-----BEGIN CERTIFICATE-----";
    hide Begin, Lines, Trim;
    LineThenRest(begin, more);
    TrimSame(begin);
  }

  lemma BeginBegins(more: string)
    ensures Body(Lines(Begin("CERTIFICATE") + ("\n" + more)), false) == Body(Lines(more), true)
  {
    hide Lines, Trim, Begin;
    BeginLine(more);
    assert ([Begin("CERTIFICATE")] + Lines(more))[1..] == Lines(more);
  }

  lemma ChainShape(der: seq<Byte>, more: string)
    ensures Pem(der, "CERTIFICATE") + more ==
            Begin("CERTIFICATE") + ("\n" + (Chunked(Encode(der)) + (End("CERTIFICATE") + ("\n" + more))))
  {
    hide Begin, End, Chunked, Encode;
  }

  /** The first certificate of a chain is the leaf, whatever follows; an empty block holds none. */
  lemma LeafComesFirst(der: seq<Byte>, more: string)
    ensures FirstCertificate(Pem(der, "CERTIFICATE") + more) == if der == [] then None else Some(der)
  {
    hide Lines, Trim, Chunked, Encode, Decode, Begin, End, Pem, Body;
    var rest := End("CERTIFICATE") + ("\n" + more);
    EncodeInBase64(der);
    DecodeEncode(der);
    EndEndsBody(more);
    BodyOfChunks(Encode(der), rest);
    BeginBegins(Chunked(Encode(der)) + rest);
    ChainShape(der, more);
  }
}
