/** The backup archive: its manifest, writing it from a plan, and extracting it with every member verified. */
module BackupArchive {
  import opened Wrappers
  import opened Octets

  type Bytes = seq<Byte>

  /** A place on disk: its components from the root. */
  type Path = seq<string>

  /**
   * A path as an archive states it: the pieces between its slashes. A leading slash shows as an empty first piece, and
   * pieces may be empty, `.` or `..`.
   */
  type Name = seq<string>

  const ARCHIVE_FORMAT := "ferroma-archive"
  const ARCHIVE_FORMAT_VERSION := 1
  const MANIFEST_PATH: Name := ["manifest.json"]
  const DUMP_PATH: Name := ["postgres", "dump"]

  datatype Member = Member(path: Name, size: nat, sha256: string)

  datatype Manifest = Manifest(
    format: string, version: nat, producer: string, pgDumpMajor: nat, live: bool, members: seq<Member>)

  datatype Planned = Planned(archivePath: Name, source: Path)

  /** One tar entry: the size its header states and the bytes that can be read from it. */
  datatype Entry = Entry(path: Name, size: nat, data: Bytes)

  /** JSON as an opaque pair of writer and reader. */
  datatype Codec = Codec(encode: Manifest -> Bytes, decode: Bytes -> Option<Manifest>)

  datatype Refusal =
    | WrongFormat | WrongVersion | NoDumpVersion | NoProducer | BlankMember | SelfMember | TwiceListed
    | NoManifest | Unparsed | Unlisted | WrongSize | WrongHash | Absent | Unwritable | StepFailed

  // -- Paths ----------------------------------------------------------------------------------

  predicate Inside(root: Path, p: Path) {
    root <= p && |root| < |p|
  }

  predicate Related(p: Path, q: Path) {
    p <= q || q <= p
  }

  /** No two different paths of which one would have to be a directory of the other. */
  ghost predicate Apart(paths: set<Path>) {
    [] !in paths && forall p, q | p in paths && q in paths :: !Inside(p, q)
  }

  // -- The manifest -----------------------------------------------------------------------------

  /** The characters Unicode counts as white space. */
  predicate WhiteSpace(c: char) {
    || c == ' ' || '\t' <= c <= '\r' || c == '\U{85}' || c == '\U{A0}' || c == '\U{1680}'
    || '\U{2000}' <= c <= '\U{200A}'
    || c == '\U{2028}' || c == '\U{2029}' || c == '\U{202F}' || c == '\U{205F}' || c == '\U{3000}'
  }

  predicate BlankText(s: string) {
    forall c | c in s :: WhiteSpace(c)
  }

  predicate BlankPath(p: Name) {
    p == [] || (|p| == 1 && BlankText(p[0]))
  }

  ghost predicate DistinctMembers(members: seq<Member>) {
    forall i, j | 0 <= i < j < |members| :: members[i].path != members[j].path
  }

  predicate GoodHeader(m: Manifest) {
    m.format == ARCHIVE_FORMAT && m.version == ARCHIVE_FORMAT_VERSION && m.pgDumpMajor != 0 && !BlankText(m.producer)
  }

  ghost predicate GoodMembers(members: seq<Member>) {
    && DistinctMembers(members)
    && (forall m | m in members :: !BlankPath(m.path) && m.path != MANIFEST_PATH)
  }

  ghost function Paths(members: seq<Member>): set<Name> {
    set m | m in members :: m.path
  }

  /** Accepts exactly the manifests with this format and version, a named producer, and members listed once each. */
  method Validate(m: Manifest) returns (r: Option<Refusal>)
    ensures r.None? <==> GoodHeader(m) && GoodMembers(m.members)
    ensures r.None? <==>
      && m.format == "ferroma-archive" && m.version == 1 && m.pgDumpMajor >= 1 && !BlankText(m.producer)
      && (forall k | k in m.members :: k.path != ["manifest.json"] && !BlankPath(k.path))
      && forall i, j | 0 <= i < j < |m.members| :: m.members[i].path != m.members[j].path
    ensures r.Some? ==> r.value != NoManifest
    ensures m.format != ARCHIVE_FORMAT <==> r == Some(WrongFormat)
    ensures r == Some(WrongVersion) ==> m.version != ARCHIVE_FORMAT_VERSION
    ensures r == Some(NoDumpVersion) ==> m.pgDumpMajor == 0
    ensures r == Some(NoProducer) ==> BlankText(m.producer)
    ensures r == Some(BlankMember) ==> exists k :: k in m.members && BlankPath(k.path)
    ensures r == Some(SelfMember) ==> MANIFEST_PATH in Paths(m.members)
    ensures r == Some(TwiceListed) ==> !DistinctMembers(m.members)
  {
    if m.format != ARCHIVE_FORMAT { return Some(WrongFormat); }
    if m.version != ARCHIVE_FORMAT_VERSION { return Some(WrongVersion); }
    if m.pgDumpMajor == 0 { return Some(NoDumpVersion); }
    if BlankText(m.producer) { return Some(NoProducer); }
    var seen: set<Name> := {};
    for i := 0 to |m.members|
      invariant seen == Paths(m.members[..i])
      invariant GoodMembers(m.members[..i])
    {
      var member := m.members[i];
      assert member in m.members;
      assert m.members[..i + 1] == m.members[..i] + [member];
      if BlankPath(member.path) { return Some(BlankMember); }
      if member.path == MANIFEST_PATH { return Some(SelfMember); }
      if member.path in seen {
        var j :| 0 <= j < i && m.members[j].path == member.path;
        return Some(TwiceListed);
      }
      seen := seen + {member.path};
    }
    assert m.members[..|m.members|] == m.members;
    r := None;
  }

  // -- Hashing ------------------------------------------------------------------------------------

  /** A hash that is fed piece by piece; what it comes to is the hash of all the pieces joined. */
  class Hasher {
    const hash: Bytes -> string
    var absorbed: Bytes

    constructor (hash: Bytes -> string)
      ensures this.hash == hash && absorbed == []
    {
      this.hash, absorbed := hash, [];
    }

    method Update(piece: Bytes)
      modifies this
      ensures absorbed == old(absorbed) + piece
    {
      absorbed := absorbed + piece;
    }

    method Finalize() returns (digest: string)
      ensures digest == hash(absorbed)
    {
      digest := hash(absorbed);
    }
  }

  const BUFFER := 0x10_0000

  /** One read: at least one byte while any is left, at most a buffer of them. */
  method Read(data: Bytes, at: nat) returns (piece: Bytes)
    requires at <= |data|
    ensures |piece| <= BUFFER && at + |piece| <= |data| && piece == data[at..at + |piece|]
    ensures piece == [] <==> at == |data|
  {
    if at == |data| {
      piece := [];
    } else {
      var n :| 0 < n <= BUFFER && at + n <= |data|;
      piece := data[at..at + n];
    }
  }

  /** Hashes and copies data piece by piece, however the reads cut it. */
  method HashAndCopy(data: Bytes, hash: Bytes -> string) returns (digest: string, copy: Bytes)
    ensures digest == hash(data) && copy == data
  {
    var hasher := new Hasher(hash);
    copy := [];
    while true
      invariant |copy| <= |data| && copy == data[..|copy|] == hasher.absorbed
      decreases |data| - |copy|
    {
      var piece := Read(data, |copy|);
      if piece == [] { break; }
      hasher.Update(piece);
      copy := copy + piece;
    }
    assert data[..|data|] == data;
    digest := hasher.Finalize();
  }

  // -- Writing an archive -------------------------------------------------------------------------

  /** What hashing and measuring this plan finds in files. */
  ghost function Members(planned: seq<Planned>, files: map<Path, Bytes>, hash: Bytes -> string): (m: seq<Member>)
    requires Readable(planned, files)
    ensures |m| == |planned|
  {
    seq(|planned|, i requires 0 <= i < |planned| =>
      Member(planned[i].archivePath, |files[planned[i].source]|, hash(files[planned[i].source])))
  }

  ghost predicate Readable(planned: seq<Planned>, files: map<Path, Bytes>) {
    forall i | 0 <= i < |planned| :: planned[i].source in files
  }

  /** The archive of this plan, when files hold these bytes. */
  ghost function Archive(
    manifest: Manifest, planned: seq<Planned>, files: map<Path, Bytes>, codec: Codec): (a: seq<Entry>)
    requires Readable(planned, files)
    ensures |a| == |planned| + 1
  {
    [Entry(MANIFEST_PATH, |codec.encode(manifest)|, codec.encode(manifest))]
    + seq(|planned|, i requires 0 <= i < |planned| => FileEntry(planned[i].archivePath, files[planned[i].source]))
  }

  function FileEntry(path: Name, data: Bytes): Entry {
    Entry(path, |data|, data)
  }

  method MembersFromPlanned(planned: seq<Planned>, files: map<Path, Bytes>, hash: Bytes -> string)
    returns (r: Result<seq<Member>, Refusal>)
    ensures r.Ok? <==> Readable(planned, files)
    ensures r.Ok? ==> r.value == Members(planned, files, hash)
  {
    var members: seq<Member> := [];
    for i := 0 to |planned|
      invariant Readable(planned[..i], files)
      invariant |members| == i
      invariant forall j | 0 <= j < i :: members[j] == Members(planned[..i], files, hash)[j]
    {
      var item := planned[i];
      if item.source !in files { return Err(StepFailed); }
      var digest, _ := HashAndCopy(files[item.source], hash);
      members := members + [Member(item.archivePath, |files[item.source]|, digest)];
    }
    r := Ok(members);
  }

  method BuildArchive(manifest: Manifest, planned: seq<Planned>, files: map<Path, Bytes>, codec: Codec)
    returns (r: Result<seq<Entry>, Refusal>)
    ensures r.Ok? <==> Readable(planned, files)
    ensures r.Ok? ==> r.value == Archive(manifest, planned, files, codec)
  {
    var json := codec.encode(manifest);
    var entries := [Entry(MANIFEST_PATH, |json|, json)];
    for i := 0 to |planned|
      invariant Readable(planned[..i], files)
      invariant entries == Archive(manifest, planned[..i], files, codec)
    {
      if planned[i].source !in files { return Err(StepFailed); }
      entries := entries + [FileEntry(planned[i].archivePath, files[planned[i].source])];
    }
    assert planned[..|planned|] == planned;
    r := Ok(entries);
  }

  // -- Reading the manifest -------------------------------------------------------------------------

  /** Names the manifest when read as a path, where a trailing slash or dot makes no difference. */
  predicate ReadsAsManifest(name: Name) {
    name != [] && name[0] == MANIFEST_PATH[0] && forall i | 0 < i < |name| :: name[i] == "" || name[i] == "."
  }

  /** Where the first manifest stands, or the end. */
  ghost function ManifestAt(entries: seq<Entry>): (i: nat)
    ensures i <= |entries|
    ensures i < |entries| ==> ReadsAsManifest(entries[i].path)
    ensures forall j | 0 <= j < i :: !ReadsAsManifest(entries[j].path)
  {
    if |entries| == 0 || ReadsAsManifest(entries[0].path) then 0 else 1 + ManifestAt(entries[1..])
  }

  /** The first manifest decides: it is accepted exactly when it parses and validates. */
  method ReadManifest(entries: seq<Entry>, codec: Codec) returns (r: Result<Manifest, Refusal>)
    ensures var i := ManifestAt(entries);
      r.Ok? <==> (
        && i < |entries| && codec.decode(entries[i].data).Some?
        && GoodHeader(codec.decode(entries[i].data).value) && GoodMembers(codec.decode(entries[i].data).value.members))
    ensures r.Ok? ==> codec.decode(entries[ManifestAt(entries)].data) == Some(r.value)
    ensures r == Err(NoManifest) <==> forall e | e in entries :: !ReadsAsManifest(e.path)
  {
    for i := 0 to |entries|
      invariant forall j | 0 <= j < i :: !ReadsAsManifest(entries[j].path)
    {
      if ReadsAsManifest(entries[i].path) {
        assert ManifestAt(entries) == i;
        assert entries[i] in entries;
        var parsed := codec.decode(entries[i].data);
        if parsed.None? { return Err(Unparsed); }
        var refusal := Validate(parsed.value);
        return if refusal.None? then Ok(parsed.value) else Err(refusal.value);
      }
    }
    r := Err(NoManifest);
  }

  // -- Extracting with verification -----------------------------------------------------------------

  /** The member wanted under each name; of two members with one name the later counts. */
  function Wanted(members: seq<Member>): (w: map<Name, Member>)
    ensures forall p | p in w :: w[p] in members && w[p].path == p
    ensures forall m | m in members :: m.path in w
  {
    if |members| == 0 then map[]
    else
      var last := members[|members| - 1];
      assert members == members[..|members| - 1] + [last];
      Wanted(members[..|members| - 1])[last.path := last]
  }

  /** The bytes stated under each name: of two entries with one name the later counts. */
  ghost function Contents(entries: seq<Entry>): map<Name, Bytes> {
    if |entries| == 0 then map[]
    else
      var last := entries[|entries| - 1];
      var front := Contents(entries[..|entries| - 1]);
      if last.path == MANIFEST_PATH then front else front[last.path := last.data]
  }

  /** An entry that is the manifest by its text, or states a wanted member with the listed size. */
  predicate Listed(e: Entry, wanted: map<Name, Member>) {
    e.path == MANIFEST_PATH || (e.path in wanted && e.size == wanted[e.path].size)
  }

  /** Such an entry whose bytes have the listed hash. */
  predicate Matches(e: Entry, wanted: map<Name, Member>, hash: Bytes -> string) {
    Listed(e, wanted) && (e.path == MANIFEST_PATH || hash(e.data) == wanted[e.path].sha256)
  }

  ghost predicate Acceptable(entries: seq<Entry>, wanted: map<Name, Member>, hash: Bytes -> string) {
    && (forall e | e in entries :: Matches(e, wanted, hash))
    && (forall p | p in wanted :: p in Contents(entries))
  }

  lemma ContentsGrow(entries: seq<Entry>, e: Entry)
    ensures Contents(entries + [e]) ==
            if e.path == MANIFEST_PATH then Contents(entries) else Contents(entries)[e.path := e.data]
  {
    assert (entries + [e])[..|entries|] == entries;
  }

  lemma {:induction false} ContentsFrom(entries: seq<Entry>, p: Name)
    requires p in Contents(entries)
    ensures p != MANIFEST_PATH && exists e :: e in entries && e.path == p && e.data == Contents(entries)[p]
  {
    var n := |entries| - 1;
    assert entries == entries[..n] + [entries[n]];
    if entries[n].path == MANIFEST_PATH || entries[n].path != p {
      ContentsFrom(entries[..n], p);
      var e :| e in entries[..n] && e.path == p && e.data == Contents(entries[..n])[p];
      assert e in entries;
    } else {
      assert entries[n] in entries;
    }
  }

  // -- What is written can be read back ---------------------------------------------------------------

  ghost predicate DistinctPlan(planned: seq<Planned>) {
    && (forall i, j | 0 <= i < j < |planned| :: planned[i].archivePath != planned[j].archivePath)
    && (forall i | 0 <= i < |planned| :: !BlankPath(planned[i].archivePath) && planned[i].archivePath != MANIFEST_PATH)
  }

  ghost predicate Inverse(codec: Codec) {
    forall m :: codec.decode(codec.encode(m)) == Some(m)
  }

  /** The bytes each archive path stands for. */
  ghost predicate Holds(content: map<Path, Bytes>, planned: seq<Planned>, files: map<Path, Bytes>)
    requires Readable(planned, files)
  {
    && content.Keys == (set i | 0 <= i < |planned| :: planned[i].archivePath)
    && forall i | 0 <= i < |planned| :: content[planned[i].archivePath] == files[planned[i].source]
  }

  lemma OneMorePlanned(manifest: Manifest, front: seq<Planned>, last: Planned, files: map<Path, Bytes>, codec: Codec)
    requires Readable(front + [last], files)
    ensures Readable(front, files) && last.source in files
    ensures Archive(manifest, front + [last], files, codec) ==
            Archive(manifest, front, files, codec) + [FileEntry(last.archivePath, files[last.source])]
  {
    var all := front + [last];
    assert all[|front|] == last && forall i | 0 <= i < |front| :: all[i] == front[i];
  }

  lemma HoldsMore(content: map<Path, Bytes>, front: seq<Planned>, last: Planned, files: map<Path, Bytes>)
    requires Readable(front + [last], files) && Readable(front, files) && last.source in files
    requires Holds(content, front, files)
    requires DistinctPlan(front + [last])
    ensures Holds(content[last.archivePath := files[last.source]], front + [last], files)
  {
    var all := front + [last];
    assert all[|front|] == last && forall i | 0 <= i < |front| :: all[i] == front[i];
  }

  lemma {:induction false} ArchiveContents(
    manifest: Manifest, planned: seq<Planned>, files: map<Path, Bytes>, codec: Codec)
    requires Readable(planned, files) && DistinctPlan(planned)
    ensures Holds(Contents(Archive(manifest, planned, files, codec)), planned, files)
  {
    if |planned| == 0 {
      assert Archive(manifest, planned, files, codec)[..0] == [];
    } else {
      var front, last := planned[..|planned| - 1], planned[|planned| - 1];
      assert planned == front + [last];
      hide Archive, Holds, Contents;
      OneMorePlanned(manifest, front, last, files, codec);
      ArchiveContents(manifest, front, files, codec);
      ContentsGrow(Archive(manifest, front, files, codec), FileEntry(last.archivePath, files[last.source]));
      HoldsMore(Contents(Archive(manifest, front, files, codec)), front, last, files);
    }
  }

  lemma {:induction false} WantedAt(members: seq<Member>, i: nat)
    requires DistinctMembers(members) && i < |members|
    ensures Wanted(members)[members[i].path] == members[i]
  {
    if i < |members| - 1 { WantedAt(members[..|members| - 1], i); }
  }

  /** The file planned at i still had its listed size and hash when it was archived. */
  ghost predicate Unchanged(
    planned: seq<Planned>, listed: map<Path, Bytes>, archived: map<Path, Bytes>, hash: Bytes -> string, i: nat)
    requires Readable(planned, listed) && Readable(planned, archived) && i < |planned|
  {
    && |archived[planned[i].source]| == |listed[planned[i].source]|
    && hash(archived[planned[i].source]) == hash(listed[planned[i].source])
  }

  /** The entry written for plan i matches what is wanted exactly when the file was unchanged. */
  lemma EntryMatches(
    manifest: Manifest, planned: seq<Planned>, listed: map<Path, Bytes>, archived: map<Path, Bytes>,
    codec: Codec, hash: Bytes -> string, i: nat)
    requires Readable(planned, listed) && Readable(planned, archived) && DistinctPlan(planned) && i < |planned|
    requires manifest.members == Members(planned, listed, hash)
    ensures var a := Archive(manifest, planned, archived, codec);
      Matches(a[i + 1], Wanted(manifest.members), hash) <==> Unchanged(planned, listed, archived, hash, i)
  {
    WantedAt(manifest.members, i);
    hide Wanted;
  }

  /**
   * An archive whose members were listed from some files and written from maybe later ones is accepted exactly when
   * each file kept its size and hash in between; and what it holds are the files as they were written.
   */
  lemma WrittenIsAccepted(
    manifest: Manifest, planned: seq<Planned>, listed: map<Path, Bytes>, archived: map<Path, Bytes>,
    codec: Codec, hash: Bytes -> string)
    requires Readable(planned, listed) && Readable(planned, archived) && DistinctPlan(planned)
    requires manifest.members == Members(planned, listed, hash)
    ensures var a := Archive(manifest, planned, archived, codec);
      && Holds(Contents(a), planned, archived)
      && (Acceptable(a, Wanted(manifest.members), hash) <==>
            forall i | 0 <= i < |planned| :: Unchanged(planned, listed, archived, hash, i))
  {
    var a, w := Archive(manifest, planned, archived, codec), Wanted(manifest.members);
    ArchiveContents(manifest, planned, archived, codec);
    assert a[0].path == MANIFEST_PATH && Matches(a[0], w, hash);
    forall p | p in w ensures p in Contents(a) {
      var i :| 0 <= i < |planned| && manifest.members[i] == w[p];
    }
    hide Archive, Wanted, Contents, Matches, Unchanged, DistinctPlan, Members, Holds;
    forall i | 0 <= i < |planned|
      ensures a[i + 1] in a && (Matches(a[i + 1], w, hash) <==> Unchanged(planned, listed, archived, hash, i))
    {
      EntryMatches(manifest, planned, listed, archived, codec, hash, i);
    }
    forall e | e in a && (forall i | 0 <= i < |planned| :: Unchanged(planned, listed, archived, hash, i))
      ensures Matches(e, w, hash)
    {
      var k :| 0 <= k < |a| && a[k] == e;
      if k > 0 { assert Unchanged(planned, listed, archived, hash, k - 1) && a[(k - 1) + 1] == e; }
    }
  }

  /** The manifest of a written archive is the first entry and is read back and accepted as it was. */
  lemma ManifestIsReadBack(
    manifest: Manifest, planned: seq<Planned>, listed: map<Path, Bytes>, archived: map<Path, Bytes>,
    codec: Codec, hash: Bytes -> string)
    requires Readable(planned, listed) && Readable(planned, archived) && DistinctPlan(planned) && Inverse(codec)
    requires GoodHeader(manifest) && manifest.members == Members(planned, listed, hash)
    ensures var a := Archive(manifest, planned, archived, codec);
      ManifestAt(a) == 0 && codec.decode(a[0].data) == Some(manifest) && GoodMembers(manifest.members)
  {
    forall m | m in manifest.members ensures !BlankPath(m.path) && m.path != MANIFEST_PATH {
      var i :| 0 <= i < |planned| && manifest.members[i] == m;
    }
  }
}
