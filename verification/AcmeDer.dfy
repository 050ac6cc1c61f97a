/** Reading notAfter out of a DER certificate by walking tag-length-value triples, and an encoder it inverts. */
module AcmeDer {

  import opened Wrappers
  import opened Octets

  /** A reading finds a time, finds none, or stops the program. */
  datatype Outcome<+T> = Found(time: T) | Missing | Aborts

  datatype Piece = Piece(tag: Byte, contents: seq<Byte>, next: nat)

  // -- The TLV reader ------------------------------------------------------------

  function BigEndian(bytes: seq<Byte>): nat {
    if |bytes| == 0 then 0 else BigEndian(bytes[..|bytes| - 1]) * 256 + bytes[|bytes| - 1]
  }

  /** One DER length and how many bytes it took. */
  function Length(bytes: seq<Byte>): (r: Option<(nat, nat)>)
    ensures r.Some? ==> 1 <= r.value.1 <= |bytes|
  {
    if |bytes| == 0 then None
    else if bytes[0] < 0x80 then Some((bytes[0], 1))
    else
      var count := bytes[0] - 0x80;
      if count == 0 || count > 4 || |bytes| < count + 1 then None
      else Some((BigEndian(bytes[1..count + 1]), count + 1))
  }

  /** The triple at an offset; every part of it lies inside the input. */
  function Tlv(bytes: seq<Byte>, at: nat): (r: Option<Piece>)
    ensures r.Some? ==> at + 2 <= r.value.next <= |bytes|
    ensures r.Some? ==> |r.value.contents| <= r.value.next - at - 2
                        && r.value.contents == bytes[r.value.next - |r.value.contents|..r.value.next]
  {
    if at >= |bytes| then None
    else
      var len := Length(bytes[at + 1..]);
      if len.None? then None
      else
        var start := at + 1 + len.value.1;
        var end := start + len.value.0;
        if end > |bytes| then None else Some(Piece(bytes[at], bytes[start..end], end))
  }

  // -- Times -----------------------------------------------------------------------

  predicate Continuation(b: Byte) {
    0x80 <= b < 0xC0
  }

  /** How many bytes the UTF-8 character at the front takes; 0 when there is none. */
  function CharLength(s: seq<Byte>): (n: nat)
    ensures n <= |s|
  {
    if |s| == 0 then 0
    else if s[0] < 0x80 then 1
    else if 0xC2 <= s[0] < 0xE0 then
      if |s| >= 2 && Continuation(s[1]) then 2 else 0
    else if 0xE0 <= s[0] < 0xF0 then
      if |s| >= 3 && Continuation(s[1]) && Continuation(s[2])
        && (s[0] == 0xE0 ==> s[1] >= 0xA0) && (s[0] == 0xED ==> s[1] < 0xA0) then 3 else 0
    else if 0xF0 <= s[0] < 0xF5 then
      if |s| >= 4 && Continuation(s[1]) && Continuation(s[2]) && Continuation(s[3])
        && (s[0] == 0xF0 ==> s[1] >= 0x90) && (s[0] == 0xF4 ==> s[1] < 0x90) then 4 else 0
    else 0
  }

  predicate ValidUtf8(s: seq<Byte>) {
    |s| == 0 || (CharLength(s) > 0 && ValidUtf8(s[CharLength(s)..]))
  }

  predicate IsDigit(b: Byte) {
    0x30 <= b <= 0x39
  }

  /** Two characters read as a signed decimal, the way the library's integer parser does. */
  function TwoDigits(a: Byte, b: Byte): Option<int> {
    if !IsDigit(b) then None
    else if IsDigit(a) then Some((a - 0x30) * 10 + (b - 0x30))
    else if a == 0x2B then Some(b - 0x30)
    else if a == 0x2D then Some(-(b - 0x30))
    else None
  }

  function FourDigits(year: int): (s: seq<Byte>)
    requires 0 <= year < 10000
  {
    [0x30 + year / 1000, 0x30 + year / 100 % 10, 0x30 + year / 10 % 10, 0x30 + year % 10]
  }

  /** The century rule of section 4.1.2.5 of RFC 5280. */
  function FullYear(yy: int): int {
    if yy >= 50 then yy + 1900 else yy + 2000
  }

  const UTC_TIME: Byte := 0x17
  const GENERALIZED_TIME: Byte := 0x18
  const SEQUENCE: Byte := 0x30

  /**
   * One Time value. `parse` reads the fifteen-character form YYYYMMDDHHMMSSZ. Cutting a UTCTime after its second
   * byte stops the program when that is not a character boundary.
   */
  function TimeOf<T>(parse: seq<Byte> -> Option<T>, tag: Byte, contents: seq<Byte>): Outcome<T> {
    if !ValidUtf8(contents) then Missing
    else if tag == UTC_TIME then
      if |contents| < 11 then Missing
      else if Continuation(contents[2]) then Aborts
      else
        var yy := TwoDigits(contents[0], contents[1]);
        if yy.None? then Missing
        else Parsed(parse(FourDigits(FullYear(yy.value)) + contents[2..]))
    else if tag == GENERALIZED_TIME then Parsed(parse(contents))
    else Missing
  }

  function Parsed<T>(r: Option<T>): Outcome<T> {
    if r.Some? then Found(r.value) else Missing
  }

  predicate IsTime(tag: Byte) {
    tag == UTC_TIME || tag == GENERALIZED_TIME
  }

  // -- The walk ----------------------------------------------------------------------

  /** The last time among at most three members from an offset on. */
  function LastTime<T>(
    parse: seq<Byte> -> Option<T>, contents: seq<Byte>, inner: nat, inside: nat, found: Outcome<T>): Outcome<T>
    requires inner <= |contents|
    decreases |contents| - inner
  {
    var piece := Tlv(contents, inner);
    if piece.None? then found
    else
      var seen := if IsTime(piece.value.tag) then TimeOf(parse, piece.value.tag, piece.value.contents) else found;
      if seen.Aborts? then Aborts
      else if inside + 1 > 2 then seen
      else LastTime(parse, contents, piece.value.next, inside + 1, seen)
  }

  /** The first SEQUENCE of the certificate body whose members end in a time. */
  function Walk<T>(parse: seq<Byte> -> Option<T>, tbs: seq<Byte>, at: nat, sawVersion: bool): Outcome<T>
    requires at <= |tbs|
    decreases |tbs| - at
  {
    var piece := Tlv(tbs, at);
    if piece.None? then Missing
    else
      var Piece(tag, contents, next) := piece.value;
      if tag == 0xA0 && !sawVersion then Walk(parse, tbs, next, true)
      else
        var found := if tag == SEQUENCE then LastTime(parse, contents, 0, 0, Missing) else Missing;
        if !found.Missing? then found
        else if next >= |tbs| then Missing
        else Walk(parse, tbs, next, sawVersion)
  }

  function NotAfter<T>(parse: seq<Byte> -> Option<T>, der: seq<Byte>): Outcome<T> {
    var outer := Tlv(der, 0);
    if outer.None? || outer.value.tag != SEQUENCE then Missing
    else
      var tbs := Tlv(outer.value.contents, 0);
      if tbs.None? || tbs.value.tag != SEQUENCE then Missing
      else Walk(parse, tbs.value.contents, 0, false)
  }

  /** The members loop. */
  method ScanMembers<T>(parse: seq<Byte> -> Option<T>, contents: seq<Byte>) returns (found: Outcome<T>)
    ensures found == LastTime(parse, contents, 0, 0, Missing)
  {
    var inside, inner := 0, 0;
    found := Missing;
    while true
      invariant inner <= |contents| && !found.Aborts?
      invariant LastTime(parse, contents, inner, inside, found) == LastTime(parse, contents, 0, 0, Missing)
      decreases |contents| - inner
    {
      var piece := Tlv(contents, inner);
      if piece.None? {
        return;
      }
      if IsTime(piece.value.tag) {
        found := TimeOf(parse, piece.value.tag, piece.value.contents);
        if found.Aborts? {
          return;
        }
      }
      inside := inside + 1;
      inner := piece.value.next;
      if inside > 2 {
        return;
      }
    }
  }

  /** The whole reader, with its loop over the certificate body. */
  method NotAfterFromDer<T>(parse: seq<Byte> -> Option<T>, der: seq<Byte>) returns (r: Outcome<T>)
    ensures r == NotAfter(parse, der)
  {
    var outer := Tlv(der, 0);
    if outer.None? || outer.value.tag != SEQUENCE {
      return Missing;
    }
    var body := Tlv(outer.value.contents, 0);
    if body.None? || body.value.tag != SEQUENCE {
      return Missing;
    }
    var tbs := body.value.contents;
    var at := 0;
    var sawVersion := false;
    while true
      invariant at <= |tbs|
      invariant Walk(parse, tbs, at, sawVersion) == NotAfter(parse, der)
      decreases |tbs| - at
    {
      var piece := Tlv(tbs, at);
      if piece.None? {
        return Missing;
      }
      var Piece(tag, contents, next) := piece.value;
      if tag == 0xA0 && !sawVersion {
        sawVersion := true;
        at := next;
        continue;
      }
      if tag == SEQUENCE {
        var found := ScanMembers(parse, contents);
        if !found.Missing? {
          return found;
        }
      }
      at := next;
      if at >= |tbs| {
        return Missing;
      }
    }
  }

  // -- The encoder ----------------------------------------------------------------------

  const MAX_LENGTH: nat := 0x1_0000_0000

  function LengthBytes(n: nat): (s: seq<Byte>)
    requires n < MAX_LENGTH
    ensures 1 <= |s| <= 4
  {
    if n < 0x100 then [n]
    else if n < 0x1_0000 then [n / 0x100, n % 0x100]
    else if n < 0x100_0000 then [n / 0x1_0000, n / 0x100 % 0x100, n % 0x100]
    else [n / 0x100_0000, n / 0x1_0000 % 0x100, n / 0x100 % 0x100, n % 0x100]
  }

  /**
   * The definite length of section 10.1 of X.690: one byte below 128, otherwise a count and as few bytes as hold it.
   */
  function EncodeLength(n: nat): (s: seq<Byte>)
    requires n < MAX_LENGTH
  {
    if n < 0x80 then [n] else [0x80 + |LengthBytes(n)|] + LengthBytes(n)
  }

  function EncodeTlv(tag: Byte, contents: seq<Byte>): seq<Byte>
    requires |contents| < MAX_LENGTH
  {
    [tag] + EncodeLength(|contents|) + contents
  }

  datatype Member = Member(tag: Byte, contents: seq<Byte>)

  function EncodeMembers(members: seq<Member>): seq<Byte>
    requires forall m | m in members :: |m.contents| < MAX_LENGTH
  {
    if |members| == 0 then []
    else
      assert members[0] in members;
      EncodeTlv(members[0].tag, members[0].contents) + EncodeMembers(members[1..])
  }

  /** The part of a certificate the reader walks through; `rest` and `tail` are whatever follows. */
  datatype Skeleton = Skeleton(
    version: Option<seq<Byte>>,
    serial: Member,
    signature: seq<Member>,
    issuer: seq<Member>,
    notBefore: Member,
    notAfter: Member,
    rest: seq<Byte>,
    tail: seq<Byte>)

  ghost predicate Small(members: seq<Member>) {
    (forall m | m in members :: |m.contents| < MAX_LENGTH) && |EncodeMembers(members)| < MAX_LENGTH
  }

  ghost predicate NoTimes(members: seq<Member>) {
    forall m | m in members :: m.tag != 0x17 && m.tag != 0x18
  }

  /** Sizes a four-byte length can name, no Time directly inside signature or issuer, and two Times in validity. */
  ghost predicate Encodable(s: Skeleton) {
    && (s.version.Some? ==> |s.version.value| < MAX_LENGTH)
    && |s.serial.contents| < MAX_LENGTH && s.serial.tag == 0x02
    && Small(s.signature) && NoTimes(s.signature)
    && Small(s.issuer) && NoTimes(s.issuer)
    && Small([s.notBefore, s.notAfter]) && s.notBefore.tag in {0x17, 0x18} && s.notAfter.tag in {0x17, 0x18}
  }

  ghost function EncodeBody(s: Skeleton): seq<Byte>
    requires Encodable(s)
  {
    (if s.version.Some? then EncodeTlv(0xA0, s.version.value) else [])
    + (EncodeTlv(s.serial.tag, s.serial.contents)
       + (EncodeTlv(0x30, EncodeMembers(s.signature))
          + (EncodeTlv(0x30, EncodeMembers(s.issuer))
             + (EncodeTlv(0x30, EncodeMembers([s.notBefore, s.notAfter])) + s.rest))))
  }

  ghost predicate CertificateFits(s: Skeleton) {
    && Encodable(s)
    && |EncodeBody(s)| < MAX_LENGTH
    && |EncodeTlv(0x30, EncodeBody(s)) + s.tail| < MAX_LENGTH
  }

  ghost function EncodeCertificate(s: Skeleton): seq<Byte>
    requires CertificateFits(s)
  {
    EncodeTlv(0x30, EncodeTlv(0x30, EncodeBody(s)) + s.tail)
  }

  // -- Reading back what was encoded -------------------------------------------------------

  lemma LengthBytesValue(n: nat)
    requires n < MAX_LENGTH
    ensures BigEndian(LengthBytes(n)) == n
  {
    var s := LengthBytes(n);
    if n < 0x100 {
      assert s[..0] == [];
    } else if n < 0x1_0000 {
      assert s[..1] == [n / 0x100] && s[..1][..0] == [];
      assert BigEndian(s[..1]) == n / 0x100;
    } else if n < 0x100_0000 {
      assert s[..2] == [n / 0x1_0000, n / 0x100 % 0x100] && s[..2][..1] == [n / 0x1_0000] && s[..2][..1][..0] == [];
      assert BigEndian(s[..2][..1]) == n / 0x1_0000;
      assert n / 0x1_0000 * 256 + n / 0x100 % 0x100 == n / 0x100;
      assert BigEndian(s[..2]) == n / 0x100;
    } else {
      assert s[..3] == [n / 0x100_0000, n / 0x1_0000 % 0x100, n / 0x100 % 0x100];
      assert s[..3][..2] == [n / 0x100_0000, n / 0x1_0000 % 0x100] && s[..3][..2][..1] == [n / 0x100_0000];
      assert s[..3][..2][..1][..0] == [];
      assert BigEndian(s[..3][..2][..1]) == n / 0x100_0000;
      assert n / 0x100_0000 * 256 + n / 0x1_0000 % 0x100 == n / 0x1_0000;
      assert BigEndian(s[..3][..2]) == n / 0x1_0000;
      assert n / 0x1_0000 * 256 + n / 0x100 % 0x100 == n / 0x100;
    }
  }

  lemma LengthInverse(n: nat, more: seq<Byte>)
    requires n < MAX_LENGTH
    ensures Length(EncodeLength(n) + more) == Some((n, |EncodeLength(n)|))
  {
    if n >= 0x80 {
      var s := LengthBytes(n);
      LengthBytesValue(n);
      hide LengthBytes, BigEndian;
      var all := EncodeLength(n) + more;
      assert all[0] == 0x80 + |s|;
      assert all[1..|s| + 1] == s;
    }
  }

  /** Four octets as a number, most significant first. */
  function Weighed(a: nat, b: nat, c: nat, d: nat): nat {
    16777216 * a + 65536 * b + 256 * c + d
  }

  /** A length is read exactly from one byte below 128, or from one to four bytes of which there are enough. */
  lemma LengthMeans(bytes: seq<Byte>)
    ensures Length(bytes) ==
            if |bytes| >= 1 && bytes[0] <= 127 then Some((bytes[0], 1))
            else if |bytes| >= 2 && bytes[0] == 129 then Some((Weighed(0, 0, 0, bytes[1]), 2))
            else if |bytes| >= 3 && bytes[0] == 130 then Some((Weighed(0, 0, bytes[1], bytes[2]), 3))
            else if |bytes| >= 4 && bytes[0] == 131 then Some((Weighed(0, bytes[1], bytes[2], bytes[3]), 4))
            else if |bytes| >= 5 && bytes[0] == 132 then
              Some((Weighed(bytes[1], bytes[2], bytes[3], bytes[4]), 5))
            else None
  {
    if |bytes| > 0 && 129 <= bytes[0] <= 132 && |bytes| > bytes[0] - 128 {
      var s := bytes[1..bytes[0] - 127];
      assert |s| == bytes[0] - 128 && forall i | 0 <= i < |s| :: s[i] == bytes[1 + i];
      Weights(s);
      hide BigEndian, Weighed;
    }
  }

  lemma Weights(s: seq<Byte>)
    requires 1 <= |s| <= 4
    ensures BigEndian(s) ==
            if |s| == 1 then Weighed(0, 0, 0, s[0]) else if |s| == 2 then Weighed(0, 0, s[0], s[1])
            else if |s| == 3 then Weighed(0, s[0], s[1], s[2]) else Weighed(s[0], s[1], s[2], s[3])
  {
    if |s| == 1 {
      assert s[..0] == [];
    } else {
      Weights(s[..|s| - 1]);
      assert BigEndian(s) == BigEndian(s[..|s| - 1]) * 256 + s[|s| - 1];
    }
  }

  /** An encoded triple is read back from any place in any input. */
  lemma TlvInverse(before: seq<Byte>, tag: Byte, contents: seq<Byte>, more: seq<Byte>)
    requires |contents| < MAX_LENGTH
    ensures var e := EncodeTlv(tag, contents);
      Tlv(before + e + more, |before|) == Some(Piece(tag, contents, |before| + |e|))
  {
    hide EncodeLength, Length;
    var e := EncodeTlv(tag, contents);
    var all := before + e + more;
    LengthInverse(|contents|, contents + more);
    assert all[|before|] == tag;
    assert all[|before| + 1..] == EncodeLength(|contents|) + (contents + more);
    var start := |before| + 1 + |EncodeLength(|contents|)|;
    assert all[start..start + |contents|] == contents;
  }

  /** Members without times leave the scan where it was. */
  lemma {:induction false} ScanNoTimes<T>(
    parse: seq<Byte> -> Option<T>, before: seq<Byte>, members: seq<Member>, inside: nat)
    requires (forall m | m in members :: |m.contents| < MAX_LENGTH) && NoTimes(members)
    ensures LastTime(parse, before + EncodeMembers(members), |before|, inside, Missing) == Missing
    decreases |members|
  {
    hide EncodeTlv, TimeOf;
    var all := before + EncodeMembers(members);
    if |members| == 0 {
      assert all == before;
    } else {
      var m := members[0];
      assert m in members;
      var e := EncodeTlv(m.tag, m.contents);
      TlvInverse(before, m.tag, m.contents, EncodeMembers(members[1..]));
      assert all == before + e + EncodeMembers(members[1..]);
      ScanNoTimes(parse, before + e, members[1..], inside + 1);
    }
  }

  lemma TlvFirst(tag: Byte, contents: seq<Byte>, more: seq<Byte>)
    requires |contents| < MAX_LENGTH
    ensures var e := EncodeTlv(tag, contents);
      Tlv(e + more, 0) == Some(Piece(tag, contents, |e|))
  {
    hide EncodeTlv, Tlv;
    TlvInverse([], tag, contents, more);
    assert [] + EncodeTlv(tag, contents) + more == EncodeTlv(tag, contents) + more;
  }

  lemma TlvLast(before: seq<Byte>, tag: Byte, contents: seq<Byte>)
    requires |contents| < MAX_LENGTH
    ensures var e := EncodeTlv(tag, contents);
      Tlv(before + e, |before|) == Some(Piece(tag, contents, |before + e|))
  {
    hide EncodeTlv, Tlv;
    TlvInverse(before, tag, contents, []);
    assert before + EncodeTlv(tag, contents) + [] == before + EncodeTlv(tag, contents);
  }

  /** Of two times the second is the one kept, unless the first stops the program. */
  lemma ScanValidity<T>(parse: seq<Byte> -> Option<T>, a: Member, b: Member)
    requires |a.contents| < MAX_LENGTH && |b.contents| < MAX_LENGTH && IsTime(a.tag) && IsTime(b.tag)
    ensures var first := TimeOf(parse, a.tag, a.contents);
      LastTime(parse, EncodeMembers([a, b]), 0, 0, Missing)
      == if first.Aborts? then Aborts else TimeOf(parse, b.tag, b.contents)
  {
    var all := EncodeMembers([a, b]);
    assert Tlv(all, |all|) == None;
    hide EncodeTlv, TimeOf, Tlv;
    var ea, eb := EncodeTlv(a.tag, a.contents), EncodeTlv(b.tag, b.contents);
    TwoMembers(a, b);
    TlvFirst(a.tag, a.contents, eb);
    TlvLast(ea, b.tag, b.contents);
    var ta, tb := TimeOf(parse, a.tag, a.contents), TimeOf(parse, b.tag, b.contents);
    assert LastTime(parse, all, |all|, 2, tb) == tb;
    assert LastTime(parse, all, |ea|, 1, ta) == tb;
  }

  lemma TwoMembers(a: Member, b: Member)
    requires |a.contents| < MAX_LENGTH && |b.contents| < MAX_LENGTH
    ensures EncodeMembers([a, b]) == EncodeTlv(a.tag, a.contents) + EncodeTlv(b.tag, b.contents)
  {
    hide EncodeTlv;
    assert [a, b][1..] == [b] && [b][1..] == [];
    assert EncodeMembers([b]) == EncodeTlv(b.tag, b.contents) + [];
  }

  /** The walk passes over a triple that holds no time. */
  lemma WalkPasses<T>(
    parse: seq<Byte> -> Option<T>, before: seq<Byte>, tag: Byte, contents: seq<Byte>, more: seq<Byte>, saw: bool)
    requires |contents| < MAX_LENGTH && |more| > 0
    requires tag == 0xA0 ==> !saw
    requires tag == 0x30 ==> LastTime(parse, contents, 0, 0, Missing) == Missing
    ensures var e := EncodeTlv(tag, contents);
      Walk(parse, before + (e + more), |before|, saw)
      == Walk(parse, (before + e) + more, |before + e|, saw || tag == 0xA0)
  {
    hide EncodeTlv, LastTime, Tlv;
    var e := EncodeTlv(tag, contents);
    TlvInverse(before, tag, contents, more);
    assert before + (e + more) == before + e + more;
  }

  /** What the validity of a certificate reads as: its notAfter, unless its notBefore stops the program. */
  function Validity<T>(parse: seq<Byte> -> Option<T>, s: Skeleton): Outcome<T> {
    if TimeOf(parse, s.notBefore.tag, s.notBefore.contents).Aborts? then Aborts
    else TimeOf(parse, s.notAfter.tag, s.notAfter.contents)
  }

  /** For every skeleton the reader answers what the validity reads as; only when that is no time it walks on. */
  lemma DerReads<T>(parse: seq<Byte> -> Option<T>, s: Skeleton)
    requires CertificateFits(s)
    ensures NotAfter(parse, EncodeCertificate(s))
         == if Validity(parse, s).Missing? then Walk(parse, s.rest, 0, s.version.Some?) else Validity(parse, s)
  {
    BodyWalk(parse, s);
    hide EncodeTlv, Tlv, EncodeBody, Walk, TimeOf, Encodable, Validity;
    NestedTlv(EncodeBody(s), s.tail);
  }

  /** The reader inverts the encoder: every skeleton's bytes give back what its notAfter reads as. */
  lemma DerInverse<T>(parse: seq<Byte> -> Option<T>, s: Skeleton)
    requires CertificateFits(s)
    requires !TimeOf(parse, s.notBefore.tag, s.notBefore.contents).Aborts?
    requires !TimeOf(parse, s.notAfter.tag, s.notAfter.contents).Missing?
    ensures NotAfter(parse, EncodeCertificate(s)) == TimeOf(parse, s.notAfter.tag, s.notAfter.contents)
  {
    DerReads(parse, s);
  }

  lemma NestedTlv(body: seq<Byte>, tail: seq<Byte>)
    requires |body| < MAX_LENGTH && |EncodeTlv(0x30, body) + tail| < MAX_LENGTH
    ensures var inner := EncodeTlv(0x30, body) + tail; var outer := EncodeTlv(0x30, inner);
      && Tlv(outer, 0) == Some(Piece(0x30, inner, |outer|))
      && Tlv(inner, 0) == Some(Piece(0x30, body, |EncodeTlv(0x30, body)|))
  {
    hide EncodeTlv, Tlv;
    var inner := EncodeTlv(0x30, body) + tail;
    var outer := EncodeTlv(0x30, inner);
    TlvFirst(0x30, inner, []);
    assert outer + [] == outer;
    TlvFirst(0x30, body, tail);
  }

  lemma BodyWalk<T>(parse: seq<Byte> -> Option<T>, s: Skeleton)
    requires Encodable(s)
    ensures Walk(parse, EncodeBody(s), 0, false)
         == if Validity(parse, s).Missing? then Walk(parse, s.rest, 0, s.version.Some?) else Validity(parse, s)
  {
    hide EncodeTlv, Tlv, Walk, LastTime, TimeOf, EncodeMembers, Validity;
    var validity := EncodeTlv(0x30, EncodeMembers([s.notBefore, s.notAfter])) + s.rest;
    var issuer := EncodeTlv(0x30, EncodeMembers(s.issuer)) + validity;
    var signature := EncodeTlv(0x30, EncodeMembers(s.signature)) + issuer;
    var serial := EncodeTlv(s.serial.tag, s.serial.contents) + signature;
    TlvNonempty(0x30, EncodeMembers([s.notBefore, s.notAfter]));
    var saw := s.version.Some?;
    var v := if s.version.Some? then EncodeTlv(0xA0, s.version.value) else [];
    assert EncodeBody(s) == v + serial;
    if s.version.Some? {
      WalkPasses(parse, [], 0xA0, s.version.value, serial, false);
      assert [] + (v + serial) == v + serial && [] + v == v;
    }
    assert Walk(parse, EncodeBody(s), 0, false) == Walk(parse, v + serial, |v|, saw);
    WalkPasses(parse, v, s.serial.tag, s.serial.contents, signature, saw);
    var w := v + EncodeTlv(s.serial.tag, s.serial.contents);
    ScanNoTimes(parse, [], s.signature, 0);
    assert [] + EncodeMembers(s.signature) == EncodeMembers(s.signature);
    WalkPasses(parse, w, 0x30, EncodeMembers(s.signature), issuer, saw);
    var x := w + EncodeTlv(0x30, EncodeMembers(s.signature));
    ScanNoTimes(parse, [], s.issuer, 0);
    assert [] + EncodeMembers(s.issuer) == EncodeMembers(s.issuer);
    WalkPasses(parse, x, 0x30, EncodeMembers(s.issuer), validity, saw);
    var y := x + EncodeTlv(0x30, EncodeMembers(s.issuer));
    WalkValidity(parse, y, s, saw);
  }

  lemma TlvNonempty(tag: Byte, contents: seq<Byte>)
    requires |contents| < MAX_LENGTH
    ensures |EncodeTlv(tag, contents)| > 0
  {}

  /** The triples from an offset on, up to the end or to what is no triple. */
  function Triples(bytes: seq<Byte>, at: nat): seq<Piece>
    decreases |bytes| - at
  {
    var piece := Tlv(bytes, at);
    if piece.None? then [] else [piece.value] + Triples(bytes, piece.value.next)
  }

  /** The walk looks into a SEQUENCE, and goes on when it finds nothing there. */
  function FoundIn<T>(parse: seq<Byte> -> Option<T>, piece: Piece): Outcome<T> {
    if piece.tag == 0x30 then LastTime(parse, piece.contents, 0, 0, Missing) else Missing
  }

  lemma WalkEnds<T>(parse: seq<Byte> -> Option<T>, tbs: seq<Byte>, at: nat, saw: bool)
    requires at <= |tbs| && Tlv(tbs, at).None?
    ensures Walk(parse, tbs, at, saw) == Missing && Triples(tbs, at) == []
  {
    hide Tlv;
  }

  lemma WalkStep<T>(parse: seq<Byte> -> Option<T>, tbs: seq<Byte>, at: nat, saw: bool)
    requires at <= |tbs| && Tlv(tbs, at).Some?
    ensures var piece := Tlv(tbs, at).value; var saw2 := saw || piece.tag == 0xA0;
      && at < piece.next <= |tbs| && Triples(tbs, at) == [piece] + Triples(tbs, piece.next)
      && Walk(parse, tbs, at, saw)
         == if FoundIn(parse, piece).Missing? then Walk(parse, tbs, piece.next, saw2) else FoundIn(parse, piece)
  {
    hide LastTime;
    assert Tlv(tbs, |tbs|).None?;
    hide Tlv;
  }

  /** The walk at a SEQUENCE. */
  lemma WalkAtSequence<T>(
    parse: seq<Byte> -> Option<T>, tbs: seq<Byte>, at: nat, saw: bool, contents: seq<Byte>, next: nat)
    requires at <= |tbs| && Tlv(tbs, at) == Some(Piece(0x30, contents, next))
    ensures next <= |tbs|
    ensures var found := LastTime(parse, contents, 0, 0, Missing);
      Walk(parse, tbs, at, saw)
      == if !found.Missing? then found else if next == |tbs| then Missing else Walk(parse, tbs, next, saw)
  {
    hide Tlv, LastTime;
  }

  lemma WalkNowhere<T>(parse: seq<Byte> -> Option<T>, saw: bool)
    ensures Walk(parse, [], 0, saw) == Missing
  {
  }

  lemma TimesFit(s: Skeleton)
    requires Encodable(s)
    ensures |s.notBefore.contents| < MAX_LENGTH && |s.notAfter.contents| < MAX_LENGTH
    ensures |EncodeMembers([s.notBefore, s.notAfter])| < MAX_LENGTH && IsTime(s.notBefore.tag) && IsTime(s.notAfter.tag)
  {
    hide EncodeTlv;
    assert s.notBefore in [s.notBefore, s.notAfter] && s.notAfter in [s.notBefore, s.notAfter];
  }

  lemma ScansValidity<T>(parse: seq<Byte> -> Option<T>, s: Skeleton)
    requires Encodable(s)
    ensures |s.notBefore.contents| < MAX_LENGTH && |s.notAfter.contents| < MAX_LENGTH
    ensures LastTime(parse, EncodeMembers([s.notBefore, s.notAfter]), 0, 0, Missing) == Validity(parse, s)
  {
    TimesFit(s);
    hide LastTime, EncodeMembers, TimeOf, Encodable;
    ScanValidity(parse, s.notBefore, s.notAfter);
  }

  lemma WalkValidity<T>(parse: seq<Byte> -> Option<T>, before: seq<Byte>, s: Skeleton, saw: bool)
    requires Encodable(s)
    ensures Walk(
              parse, before + (EncodeTlv(0x30, EncodeMembers([s.notBefore, s.notAfter])) + s.rest), |before|, saw)
         == if Validity(parse, s).Missing? then Walk(parse, s.rest, 0, saw) else Validity(parse, s)
  {
    hide *;
    TimesFit(s);
    var contents := EncodeMembers([s.notBefore, s.notAfter]);
    var e := EncodeTlv(0x30, contents);
    var all := before + e + s.rest;
    assert before + (e + s.rest) == all && |before + e| + 0 == |before + e|;
    TlvInverse(before, 0x30, contents, s.rest);
    WalkAtSequence(parse, all, |before|, saw, contents, |before + e|);
    ScansValidity(parse, s);
    WalkSuffix(parse, before + e, s.rest, 0, saw);
    WalkNowhere(parse, saw);
  }

  /** What stands before a triple does not matter. */
  lemma TlvSuffix(before: seq<Byte>, bytes: seq<Byte>, at: nat)
    ensures var piece, all := Tlv(bytes, at), Tlv(before + bytes, |before| + at);
      && (piece.None? <==> all.None?)
      && (piece.Some? ==> all == Some(piece.value.(next := |before| + piece.value.next)))
  {
    hide Length;
    if at < |bytes| {
      var all := before + bytes;
      assert all[|before| + at + 1..] == bytes[at + 1..] && all[|before| + at] == bytes[at];
      var len := Length(bytes[at + 1..]);
      if len.Some? {
        var start := at + 1 + len.value.1;
        var end := start + len.value.0;
        if end <= |bytes| { assert all[|before| + start..|before| + end] == bytes[start..end]; }
      }
    }
  }

  lemma {:induction false} WalkSuffix<T>(
    parse: seq<Byte> -> Option<T>, before: seq<Byte>, bytes: seq<Byte>, at: nat, saw: bool)
    requires at <= |bytes|
    ensures Walk(parse, before + bytes, |before| + at, saw) == Walk(parse, bytes, at, saw)
    decreases |bytes| - at
  {
    hide *;
    TlvSuffix(before, bytes, at);
    var all, there := before + bytes, |before| + at;
    if Tlv(bytes, at).None? {
      WalkEnds(parse, bytes, at, saw);
      WalkEnds(parse, all, there, saw);
    } else {
      var piece := Tlv(bytes, at).value;
      WalkStep(parse, bytes, at, saw);
      WalkStep(parse, all, there, saw);
      SameFound(parse, piece, Tlv(all, there).value);
      WalkSuffix(parse, before, bytes, piece.next, saw || piece.tag == 0xA0);
    }
  }

  lemma SameFound<T>(parse: seq<Byte> -> Option<T>, a: Piece, b: Piece)
    requires a.tag == b.tag && a.contents == b.contents
    ensures FoundIn(parse, a) == FoundIn(parse, b)
  {
  }

  // -- What a time reads as --------------------------------------------------------------------

  lemma {:induction false} AsciiIsUtf8(s: seq<Byte>)
    requires forall i | 0 <= i < |s| :: s[i] < 0x80
    ensures ValidUtf8(s)
  {
    if |s| > 0 {
      AsciiIsUtf8(s[1..]);
    }
  }

  /** A character of Unicode. */
  predicate Scalar(c: nat) {
    c < 0xD800 || 0xE000 <= c < 0x11_0000
  }

  /** The octets of a character, from section 3 of RFC 3629. */
  function Utf8(c: nat): (s: seq<Byte>)
    requires Scalar(c)
    ensures 1 <= |s| <= 4
  {
    if c < 0x80 then [c]
    else if c < 0x800 then [0xC0 + c / 64, 0x80 + c % 64]
    else if c < 0x1_0000 then [0xE0 + c / 4096, 0x80 + c / 64 % 64, 0x80 + c % 64]
    else [0xF0 + c / 262144, 0x80 + c / 4096 % 64, 0x80 + c / 64 % 64, 0x80 + c % 64]
  }

  /** These are the octets of these characters. */
  predicate Spells(chars: seq<nat>, s: seq<Byte>) {
    if |chars| == 0 then s == []
    else Scalar(chars[0]) && Utf8(chars[0]) <= s && Spells(chars[1..], s[|Utf8(chars[0])|..])
  }

  lemma CharRead(c: nat, s: seq<Byte>)
    requires Scalar(c) && Utf8(c) <= s
    ensures CharLength(s) == |Utf8(c)|
  {
    var u := Utf8(c);
    assert s[0] == u[0] && (|u| > 1 ==> s[1] == u[1]) && (|u| > 2 ==> s[2] == u[2]) && (|u| > 3 ==> s[3] == u[3]);
    SixBits(c);
    SixBits(c / 64);
    SixBits(c / 4096);
  }

  lemma SixBits(c: nat)
    ensures c == c / 64 * 64 + c % 64 && c / 64 / 64 == c / 4096 && c / 4096 / 64 == c / 262144
  {
  }

  lemma CharFound(s: seq<Byte>) returns (c: nat)
    requires CharLength(s) > 0
    ensures Scalar(c) && Utf8(c) == s[..CharLength(s)]
  {
    var n := CharLength(s);
    if n == 1 {
      c := s[0];
    } else if n == 2 {
      c := TwoOctets(s);
    } else if n == 3 {
      c := ThreeOctets(s);
    } else {
      c := FourOctets(s);
    }
  }

  lemma TwoOctets(s: seq<Byte>) returns (c: nat)
    requires CharLength(s) == 2
    ensures Scalar(c) && Utf8(c) == s[..2]
  {
    c := FromBits(s[0] - 0xC0, s[1] - 0x80);
  }

  lemma ThreeOctets(s: seq<Byte>) returns (c: nat)
    requires CharLength(s) == 3
    ensures Scalar(c) && Utf8(c) == s[..3]
  {
    var high := FromBits(s[0] - 0xE0, s[1] - 0x80);
    c := FromBits(high, s[2] - 0x80);
    SixBits(c);
  }

  lemma FourOctets(s: seq<Byte>) returns (c: nat)
    requires CharLength(s) == 4
    ensures Scalar(c) && Utf8(c) == s[..4]
  {
    var high := FromBits(s[0] - 0xF0, s[1] - 0x80);
    var middle := FromBits(high, s[2] - 0x80);
    c := FromBits(middle, s[3] - 0x80);
    SixBits(c);
    SixBits(c / 64);
  }

  lemma FromBits(high: nat, low: nat) returns (c: nat)
    requires low < 64
    ensures c == high * 64 + low && c / 64 == high && c % 64 == low
  {
    c := high * 64 + low;
  }

  lemma {:induction false} SpelledIsText(chars: seq<nat>, s: seq<Byte>)
    requires Spells(chars, s)
    ensures ValidUtf8(s)
  {
    hide CharLength, Utf8, Scalar;
    if |chars| > 0 {
      CharRead(chars[0], s);
      SpelledIsText(chars[1..], s[CharLength(s)..]);
    }
  }

  lemma {:induction false} TextIsSpelled(s: seq<Byte>) returns (chars: seq<nat>)
    requires ValidUtf8(s)
    ensures Spells(chars, s)
  {
    hide CharLength, Utf8, Scalar;
    chars := [];
    if |s| > 0 {
      var c := CharFound(s);
      var more := TextIsSpelled(s[CharLength(s)..]);
      chars := [c] + more;
      assert chars[1..] == more;
    }
  }

  /** What passes for text is what some characters are written as. */
  lemma Utf8Means(s: seq<Byte>)
    ensures ValidUtf8(s) <==> exists chars :: Spells(chars, s)
  {
    if ValidUtf8(s) {
      var chars := TextIsSpelled(s);
    }
    if chars :| Spells(chars, s) { SpelledIsText(chars, s); }
  }

  /** The ASCII codes of these digits. */
  predicate AllDigits(s: seq<Byte>) {
    forall i | 0 <= i < |s| :: 0x30 <= s[i] <= 0x39
  }

  lemma FourOf(a: nat, b: nat, century: nat)
    requires a < 10 && b < 10 && century in {19, 20}
    ensures FourDigits(century * 100 + a * 10 + b) == [0x30 + century / 10, 0x30 + century % 10, 0x30 + a, 0x30 + b]
  {
  }

  /** A UTCTime YYMMDDHHMMSSZ reads as 19YY from 50 up and as 20YY below. */
  lemma UtcTimeCentury<T>(parse: seq<Byte> -> Option<T>, digits: seq<Byte>)
    requires |digits| == 12 && AllDigits(digits)
    ensures TimeOf(parse, 0x17, digits + [0x5A])
         == Parsed(parse((if digits[0] >= 0x35 then [0x31, 0x39] else [0x32, 0x30]) + digits + [0x5A]))
  {
    var s := digits + [0x5A];
    AsciiIsUtf8(s);
    var century := if digits[0] >= 0x35 then 19 else 20;
    var a: nat, b: nat := digits[0] - 0x30, digits[1] - 0x30;
    var yy := a * 10 + b;
    assert !Continuation(s[2]) && |s| == 13 && TwoDigits(s[0], s[1]) == Some(yy);
    assert FullYear(yy) == century * 100 + a * 10 + b;
    FourOf(a, b, century);
    hide ValidUtf8, FourDigits, Parsed;
    Dated(if digits[0] >= 0x35 then [0x31, 0x39] else [0x32, 0x30], digits);
  }

  lemma Dated(front: seq<Byte>, digits: seq<Byte>)
    requires |front| == 2 && |digits| == 12
    ensures front + digits + [0x5A] == [front[0], front[1], digits[0], digits[1]] + (digits + [0x5A])[2..]
  {
    assert digits == [digits[0], digits[1]] + digits[2..];
    assert (digits + [0x5A])[2..] == digits[2..] + [0x5A];
  }

  /** A UTCTime may begin with a sign and one digit: +D reads as 200D and -D as the year D before 2000. */
  lemma SignedYear<T>(parse: seq<Byte> -> Option<T>, plus: bool, digit: Byte, rest: seq<Byte>)
    requires 0x31 <= digit <= 0x39 && |rest| >= 9 && forall i | 0 <= i < |rest| :: rest[i] < 0x80
    ensures TimeOf(parse, 0x17, [if plus then 0x2B else 0x2D, digit] + rest)
         == Parsed(parse((if plus then [0x32, 0x30, 0x30, digit] else [0x31, 0x39, 0x39, 0x6A - digit]) + rest))
  {
    var s := [if plus then 0x2B else 0x2D, digit] + rest;
    AsciiIsUtf8(s);
    var d: nat := digit - 0x30;
    var year: int := if plus then d else 0 - d;
    assert !Continuation(s[2]) && |s| >= 11 && TwoDigits(s[0], s[1]) == Some(year);
    if plus { FourOf(0, d, 20); } else { FourOf(9, 10 - d, 19); }
    hide ValidUtf8, FourDigits, Parsed;
    assert s[2..] == rest;
  }

  /** A GeneralizedTime is read as it stands; nothing else is a time, and what is no text is none. */
  lemma OtherTimes<T>(parse: seq<Byte> -> Option<T>, tag: Byte, contents: seq<Byte>)
    ensures tag == 0x18 && ValidUtf8(contents) ==> TimeOf(parse, tag, contents) == Parsed(parse(contents))
    ensures (tag != 0x17 && tag != 0x18) || !ValidUtf8(contents) ==> TimeOf(parse, tag, contents) == Missing
    ensures tag == 0x17 && |contents| < 11 ==> TimeOf(parse, tag, contents) == Missing
  {
    hide ValidUtf8;
  }

  /**
   * A time stops the program exactly when it is a UTCTime of at least 11 bytes of UTF-8 whose third byte continues a
   * character.
   */
  lemma WhenTimeAborts<T>(parse: seq<Byte> -> Option<T>, tag: Byte, contents: seq<Byte>)
    ensures TimeOf(parse, tag, contents).Aborts?
      <==> tag == 0x17 && |contents| >= 11 && ValidUtf8(contents) && Continuation(contents[2])
  {
    hide ValidUtf8;
  }

  /** A UTCTime of at least 11 bytes of UTF-8 whose third byte continues a character. */
  predicate Unreadable(m: Member) {
    m.tag == 0x17 && |m.contents| >= 11 && ValidUtf8(m.contents) && Continuation(m.contents[2])
  }

  function First(pieces: seq<Piece>, n: nat): seq<Piece> {
    if |pieces| <= n then pieces else pieces[..n]
  }

  predicate UnreadableIn(pieces: seq<Piece>) {
    exists i | 0 <= i < |pieces| :: Unreadable(Member(pieces[i].tag, pieces[i].contents))
  }

  predicate TimeIn(pieces: seq<Piece>) {
    exists i | 0 <= i < |pieces| :: pieces[i].tag in {0x17, 0x18}
  }

  /** The last piece tagged as a time cannot be read as one. */
  predicate LastIsNone<T>(parse: seq<Byte> -> Option<T>, pieces: seq<Piece>) {
    exists i | 0 <= i < |pieces| :: NoneFrom(parse, pieces, i)
  }

  predicate NoneFrom<T>(parse: seq<Byte> -> Option<T>, pieces: seq<Piece>, i: nat)
    requires i < |pieces|
  {
    && pieces[i].tag in {0x17, 0x18} && TimeOf(parse, pieces[i].tag, pieces[i].contents).Missing?
    && forall j | i < j < |pieces| :: pieces[j].tag !in {0x17, 0x18}
  }

  /** The walk passes by what is no SEQUENCE, and one whose first three members hold nothing unreadable and no time. */
  predicate PassedBy<T>(parse: seq<Byte> -> Option<T>, piece: Piece) {
    var members := First(Triples(piece.contents, 0), 3);
    piece.tag == 0x30 ==> !UnreadableIn(members) && (TimeIn(members) ==> LastIsNone(parse, members))
  }

  /** A SEQUENCE with something unreadable among its first three members, after pieces that are passed by. */
  predicate Stops<T>(parse: seq<Byte> -> Option<T>, pieces: seq<Piece>) {
    exists k | 0 <= k < |pieces| ::
      StopsIn(pieces[k]) && forall j | 0 <= j < k :: PassedBy(parse, pieces[j])
  }

  predicate StopsIn(piece: Piece) {
    piece.tag == 0x30 && UnreadableIn(First(Triples(piece.contents, 0), 3))
  }

  lemma ConsTells<T>(parse: seq<Byte> -> Option<T>, piece: Piece, more: seq<Piece>)
    ensures var all := [piece] + more;
      && (UnreadableIn(all) <==> Unreadable(Member(piece.tag, piece.contents)) || UnreadableIn(more))
      && (TimeIn(all) <==> IsTime(piece.tag) || TimeIn(more))
      && (LastIsNone(parse, all) <==>
            if TimeIn(more) then LastIsNone(parse, more)
            else IsTime(piece.tag) && TimeOf(parse, piece.tag, piece.contents).Missing?)
  {
    var all := [piece] + more;
    assert UnreadableIn(all) <==> Unreadable(Member(piece.tag, piece.contents)) || UnreadableIn(more) by {
      hide TimeIn, LastIsNone, TimeOf, Unreadable;
      Shifted(piece, more);
    }
    assert TimeIn(all) <==> IsTime(piece.tag) || TimeIn(more) by {
      hide UnreadableIn, LastIsNone, TimeOf;
      Shifted(piece, more);
    }
    LastTells(parse, piece, more);
    hide *;
  }

  lemma Shifted(piece: Piece, more: seq<Piece>)
    ensures var all := [piece] + more;
      && all[0] == piece && (forall i | 0 <= i < |more| :: all[i + 1] == more[i])
      && forall i | 0 < i < |all| :: all[i] == more[i - 1]
  {
  }

  lemma NoneShifted<T>(parse: seq<Byte> -> Option<T>, piece: Piece, more: seq<Piece>, i: nat)
    requires i < |more|
    ensures NoneFrom(parse, [piece] + more, i + 1) <==> NoneFrom(parse, more, i)
  {
    hide TimeOf;
    Shifted(piece, more);
  }

  lemma NoneFirst<T>(parse: seq<Byte> -> Option<T>, piece: Piece, more: seq<Piece>)
    ensures NoneFrom(parse, [piece] + more, 0) <==>
            IsTime(piece.tag) && TimeOf(parse, piece.tag, piece.contents).Missing? && !TimeIn(more)
  {
    hide TimeOf;
    Shifted(piece, more);
  }

  lemma NoneIsTime<T>(parse: seq<Byte> -> Option<T>, pieces: seq<Piece>, i: nat)
    requires i < |pieces|
    ensures NoneFrom(parse, pieces, i) ==> TimeIn(pieces)
  {
    hide TimeOf;
  }

  lemma LastTells<T>(parse: seq<Byte> -> Option<T>, piece: Piece, more: seq<Piece>)
    ensures LastIsNone(parse, [piece] + more) <==>
            if TimeIn(more) then LastIsNone(parse, more)
            else IsTime(piece.tag) && TimeOf(parse, piece.tag, piece.contents).Missing?
  {
    hide TimeOf, NoneFrom, TimeIn, IsTime;
    var all := [piece] + more;
    NoneFirst(parse, piece, more);
    if i :| 0 <= i < |all| && NoneFrom(parse, all, i) && i > 0 {
      NoneShifted(parse, piece, more, i - 1);
      NoneIsTime(parse, more, i - 1);
    }
    if i :| 0 <= i < |more| && NoneFrom(parse, more, i) {
      NoneShifted(parse, piece, more, i);
    }
  }

  lemma FirstStep(bytes: seq<Byte>, at: nat, n: nat)
    requires Tlv(bytes, at).Some? && n > 0
    ensures var piece := Tlv(bytes, at).value; var more := First(Triples(bytes, piece.next), n - 1);
      First(Triples(bytes, at), n) == [piece] + more && (n == 1 ==> more == [])
  {
    hide Tlv;
  }

  /** What a scan over members comes to that starts with what was found before. */
  predicate Summed<T>(parse: seq<Byte> -> Option<T>, pieces: seq<Piece>, found: Outcome<T>, last: Outcome<T>) {
    && (last.Aborts? <==> UnreadableIn(pieces))
    && (last.Missing? <==>
          !UnreadableIn(pieces) && if TimeIn(pieces) then LastIsNone(parse, pieces) else found.Missing?)
  }

  function Seen<T>(parse: seq<Byte> -> Option<T>, piece: Piece, found: Outcome<T>): Outcome<T> {
    if IsTime(piece.tag) then TimeOf(parse, piece.tag, piece.contents) else found
  }

  lemma SumStep<T>(
    parse: seq<Byte> -> Option<T>, piece: Piece, more: seq<Piece>, found: Outcome<T>, last: Outcome<T>)
    requires !found.Aborts?
    requires var seen := Seen(parse, piece, found);
      if seen.Aborts? then last.Aborts? else Summed(parse, more, seen, last)
    ensures Summed(parse, [piece] + more, found, last)
  {
    ConsTells(parse, piece, more);
    WhenTimeAborts(parse, piece.tag, piece.contents);
    hide UnreadableIn, TimeIn, LastIsNone, TimeOf, ValidUtf8;
  }

  lemma NothingIn<T>(parse: seq<Byte> -> Option<T>, found: Outcome<T>)
    requires !found.Aborts?
    ensures Summed(parse, [], found, found)
  {
  }

  lemma ScanStep<T>(parse: seq<Byte> -> Option<T>, bytes: seq<Byte>, at: nat, inside: nat, found: Outcome<T>)
    requires at <= |bytes| && Tlv(bytes, at).Some?
    ensures var piece := Tlv(bytes, at).value; var seen := Seen(parse, piece, found);
      && piece.next <= |bytes|
      && LastTime(parse, bytes, at, inside, found)
         == if seen.Aborts? then Aborts else if inside >= 2 then seen
            else LastTime(parse, bytes, piece.next, inside + 1, seen)
  {
    hide Tlv, TimeOf, IsTime;
  }

  lemma {:induction false} ScanTells<T>(
    parse: seq<Byte> -> Option<T>, bytes: seq<Byte>, at: nat, inside: nat, found: Outcome<T>)
    requires at <= |bytes| && inside <= 2 && !found.Aborts?
    ensures
      Summed(parse, First(Triples(bytes, at), 3 - inside), found, LastTime(parse, bytes, at, inside, found))
    decreases 3 - inside
  {
    if Tlv(bytes, at).None? {
      NothingIn(parse, found);
    } else {
      ScanStep(parse, bytes, at, inside, found);
      FirstStep(bytes, at, 3 - inside);
      hide *;
      var piece := Tlv(bytes, at).value;
      var seen := Seen(parse, piece, found);
      if seen.Aborts? {
      } else if inside < 2 {
        ScanTells(parse, bytes, piece.next, inside + 1, seen);
      } else {
        NothingIn(parse, seen);
      }
      var more := First(Triples(bytes, piece.next), 2 - inside);
      SumStep(parse, piece, more, found, LastTime(parse, bytes, at, inside, found));
    }
  }

  lemma StopsTells<T>(parse: seq<Byte> -> Option<T>, piece: Piece, more: seq<Piece>)
    ensures Stops(parse, [piece] + more) <==> StopsIn(piece) || (PassedBy(parse, piece) && Stops(parse, more))
  {
    hide StopsIn, PassedBy;
    var all := [piece] + more;
    assert all[0] == piece;
    forall i | 0 <= i < |more| ensures all[i + 1] == more[i] {
    }
    forall i | 0 < i < |all| ensures all[i] == more[i - 1] {
    }
  }

  lemma PieceTells<T>(parse: seq<Byte> -> Option<T>, piece: Piece)
    ensures FoundIn(parse, piece).Aborts? <==> StopsIn(piece)
    ensures FoundIn(parse, piece).Missing? <==> PassedBy(parse, piece)
  {
    ScanTells(parse, piece.contents, 0, 0, Missing);
    hide LastTime, UnreadableIn, TimeIn, LastIsNone, First, Triples;
  }

  /** For any bytes: when the walk over a certificate body stops the program. */
  lemma {:induction false} WhenWalkAborts<T>(parse: seq<Byte> -> Option<T>, tbs: seq<Byte>, at: nat, saw: bool)
    requires at <= |tbs|
    ensures Walk(parse, tbs, at, saw).Aborts? <==> Stops(parse, Triples(tbs, at))
    decreases |tbs| - at
  {
    if Tlv(tbs, at).None? {
      WalkEnds(parse, tbs, at, saw);
      assert !Stops(parse, []);
    } else {
      WalkStep(parse, tbs, at, saw);
      hide *;
      var piece := Tlv(tbs, at).value;
      PieceTells(parse, piece);
      StopsTells(parse, piece, Triples(tbs, piece.next));
      WhenWalkAborts(parse, tbs, piece.next, saw || piece.tag == 0xA0);
    }
  }

  /**
   * Promised to answer None for anything it does not recognise, the reader stops the program on some bytes. For any
   * bytes: exactly when they are a SEQUENCE that starts with a SEQUENCE, in which a SEQUENCE holds an unreadable time
   * among its first three members and nothing before it holds a time there.
   */
  lemma WhenAborts<T>(parse: seq<Byte> -> Option<T>, der: seq<Byte>)
    ensures NotAfter(parse, der).Aborts? <==>
      var outer := Tlv(der, 0);
      && outer.Some? && outer.value.tag == 0x30
      && var body := Tlv(outer.value.contents, 0);
      && body.Some? && body.value.tag == 0x30 && Stops(parse, Triples(body.value.contents, 0))
  {
    hide Walk, Stops, Tlv;
    var outer := Tlv(der, 0);
    if outer.Some? {
      var body := Tlv(outer.value.contents, 0);
      if body.Some? {
        WhenWalkAborts(parse, body.value.contents, 0, false);
      }
    }
  }

  /** For a certificate: one of its two times is unreadable, or its notAfter is no time and what follows stops. */
  lemma WhenCertificateAborts<T>(parse: seq<Byte> -> Option<T>, s: Skeleton)
    requires CertificateFits(s)
    ensures NotAfter(parse, EncodeCertificate(s)).Aborts? <==>
      || Unreadable(s.notBefore) || Unreadable(s.notAfter)
      || (TimeOf(parse, s.notAfter.tag, s.notAfter.contents).Missing? && Stops(parse, Triples(s.rest, 0)))
  {
    DerReads(parse, s);
    WhenTimeAborts(parse, s.notBefore.tag, s.notBefore.contents);
    WhenTimeAborts(parse, s.notAfter.tag, s.notAfter.contents);
    WhenWalkAborts(parse, s.rest, 0, s.version.Some?);
    hide Stops, Walk, TimeOf, CertificateFits, EncodeCertificate, NotAfter;
  }

  /** A euro sign and eight zeros. */
  const EURO_TIME: seq<Byte> := [0xE2, 0x82, 0xAC, 0x30, 0x30, 0x30, 0x30, 0x30, 0x30, 0x30, 0x30]

  lemma EuroTimeAborts<T>(parse: seq<Byte> -> Option<T>)
    ensures TimeOf(parse, 0x17, EURO_TIME) == Aborts
  {
    var s := EURO_TIME;
    AsciiIsUtf8(s[3..]);
    assert CharLength(s) == 3;
    WhenTimeAborts(parse, 0x17, s);
  }

  /** Four nested triples, the innermost that time. */
  const EURO_CERTIFICATE: seq<Byte> := [0x30, 17, 0x30, 15, 0x30, 13, 0x17, 11] + EURO_TIME

  lemma ShortTlv(bytes: seq<Byte>)
    requires |bytes| >= 2 && bytes[1] < 0x80 && |bytes| == bytes[1] + 2
    ensures Tlv(bytes, 0) == Some(Piece(bytes[0], bytes[2..], |bytes|))
  {
    assert bytes[0 + 1..][0] == bytes[1] && bytes[2..|bytes|] == bytes[2..];
  }

  lemma EuroWalkAborts<T>(parse: seq<Byte> -> Option<T>, tbs: seq<Byte>)
    requires tbs == [0x30, 13, 0x17, 11] + EURO_TIME
    ensures Walk(parse, tbs, 0, false) == Aborts
  {
    var time := tbs[2..];
    ShortTlv(tbs);
    ShortTlv(time);
    assert time[2..] == EURO_TIME;
    EuroTimeAborts(parse);
    hide Tlv, TimeOf, Walk;
    WalkAtSequence(parse, tbs, 0, false, time, |tbs|);
  }

  /** Nineteen bytes on which the reader stops the program. */
  lemma EuroCertificateAborts<T>(parse: seq<Byte> -> Option<T>)
    ensures NotAfter(parse, EURO_CERTIFICATE) == Aborts
  {
    var outer := EURO_CERTIFICATE;
    var body, tbs := outer[2..], outer[4..];
    assert body[2..] == tbs;
    ShortTlv(outer);
    ShortTlv(body);
    EuroWalkAborts(parse, tbs);
    hide Tlv, Walk;
  }
}
