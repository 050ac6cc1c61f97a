/** Whole runs: an export imported again, and two imports in which what is promised does not hold. */
module BackupRuns {
  import opened Wrappers
  import opened BackupArchive
  import opened BackupLayout
  import opened BackupPlaces
  import opened BackupHost
  import opened BackupExport
  import opened BackupExtract
  import opened BackupInstall
  import opened BackupImport

  // -- An export imported again ------------------------------------------------------------------------------

  /** As on any disk, every component of a path is a file name. */
  ghost predicate Named(files: Files) {
    forall p, piece | p in files && piece in p :: Ordinary(piece)
  }

  lemma PlanIsPlain(planned: seq<Planned>, files: Files, cfg: Config, dumpPath: Path, i: nat)
    requires Named(files) && PlanOf(planned, files, cfg, dumpPath) && i < |planned|
    ensures Plain(planned[i].archivePath)
  {
    if planned[i].archivePath != DUMP_PATH {
      OfAPlan(planned, files, cfg, dumpPath, i);
      var k: Section :| Covers(cfg, k, planned[i].source) && planned[i] == Item(cfg, k, planned[i].source);
      var rel := planned[i].source[|Dest(cfg, k)|..];
      assert Ordinary(SECTIONS[k]);
      forall piece | piece in At(k, rel) ensures Ordinary(piece) {
        if piece in rel { assert piece in planned[i].source; }
      }
    } else {
      assert Ordinary("postgres") && Ordinary("dump");
    }
  }

  lemma ArchiveIsPlain(
    planned: seq<Planned>, files: Files, cfg: Config, dumpPath: Path, manifest: Manifest, read: Files, codec: Codec)
    requires Named(files) && PlanOf(planned, files, cfg, dumpPath) && Readable(planned, read)
    ensures PlainNames(Archive(manifest, planned, read, codec))
  {
    hide PlanOf, Named;
    var a := Archive(manifest, planned, read, codec);
    forall e | e in a && e.path != MANIFEST_PATH ensures Plain(e.path) {
      var i :| 0 <= i < |a| && a[i] == e;
      PlanIsPlain(planned, files, cfg, dumpPath, i - 1);
    }
  }

  /** The roots are empty or may be replaced, all those in use can be listed, and no file is at or above one. */
  ghost predicate Welcoming(disk: Disk, unlistable: set<Path>, cfg: Config, replace: bool) {
    && Clearable(disk.files, RootsOf(cfg))
    && forall root | root in RootsOf(cfg) && disk.NonEmpty(root) :: replace && root !in unlistable
  }

  lemma RootAbove(cfg: Config, k: Section) returns (root: Path)
    ensures root in RootsOf(cfg) && root <= Dest(cfg, k)
  {
    RootsCover(cfg);
    hide RootsOf;
    assert UnderDest(cfg, Dest(cfg, k));
    root :| root in RootsOf(cfg) && root <= Dest(cfg, k);
  }

  lemma NothingRelated(files: Files, root: Path, d: Path, p: Path)
    requires root <= d && p in files && root !in files && !Blocked(files, root) && !(root <= p)
    ensures !Related(p, d)
  {
    PrefixesRelated(p, root, d);
    assert p in files.Keys;
  }

  /** Such a place has room for every section, and no directory in the way. */
  lemma WelcomingHasRoom(disk: Disk, unlistable: set<Path>, cfg: Config, replace: bool)
    requires Welcoming(disk, unlistable, cfg, replace)
    ensures Room(Cleared(disk, unlistable, cfg), cfg)
    ensures Cleared(disk, unlistable, cfg) == WithoutAll(disk.files, RootsOf(cfg))
    ensures !Seen(disk, unlistable, RootsOf(cfg)) ==> NoDirInTheWay(disk.dirs, cfg)
  {
    hide RootsOf, Dest, Blocked;
    var roots := RootsOf(cfg);
    if !Seen(disk, unlistable, roots) {
      forall p, root | p in disk.files && root in roots ensures !(root <= p) {
        assert root <= p ==> p == root || Inside(root, p);
        assert p in disk.files.Keys;
        assert !disk.NonEmpty(root);
      }
      assert forall i | 0 <= i < |roots| :: roots[i] in roots;
      forall d, k: Section | d in disk.dirs && k >= DIRECTORIES ensures !(Dest(cfg, k) <= d) {
        DataDirEmpty(disk, cfg, k, d);
      }
    }
    var files := WithoutAll(disk.files, roots);
    assert Cleared(disk, unlistable, cfg) == files;
    forall p, k: Section | p in files ensures !Related(p, Dest(cfg, k)) {
      var root := RootAbove(cfg, k);
      var i :| 0 <= i < |roots| && roots[i] == root;
      NothingRelated(disk.files, root, Dest(cfg, k), p);
    }
  }

  lemma DataDirEmpty(disk: Disk, cfg: Config, k: Section, d: Path)
    requires k >= DIRECTORIES && d in disk.dirs && forall root | root in RootsOf(cfg) :: !disk.NonEmpty(root)
    ensures !(Dest(cfg, k) <= d)
  {
    RootsApart(cfg);
    assert cfg.dataDir in RootsOf(cfg);
    hide RootsOf;
    assert Dest(cfg, k) <= d ==> Inside(cfg.dataDir, d);
  }

  lemma ExportIsWellStaged(content: Files, dirs: set<Path>, source: Files, cfg: Config)
    requires Tree(source) && Exports(content, source, cfg) && forall d | d in dirs :: IsDir(content, d)
    ensures WellStaged(content, dirs)
  {
    ExportsApart(content, source, cfg);
    hide Exports;
    forall k: Section | k < DIRECTORIES ensures [SECTIONS[k]] !in content {
      DirectoryExported(source, content, cfg, k);
    }
  }

  /** What was exported can be installed wherever the roots welcome it, and restores the source. */
  lemma ExportIsInstallable(
    source: Files, content: Files, cfg: Config, c: Checked, disk: Disk, unlistable: set<Path>, replace: bool)
    requires Tree(source) && Exports(content, source, cfg) && Welcoming(disk, unlistable, cfg, replace)
    requires c.staged == content && forall d | d in c.dirs :: IsDir(content, d)
    ensures Installable(disk, unlistable, cfg, replace, c)
    ensures var target := WithoutAll(disk.files, RootsOf(cfg));
      && Installed(Cleared(disk, unlistable, cfg), c.staged, c.dirs, cfg, 5).Some?
      && Restores(Installed(Cleared(disk, unlistable, cfg), c.staged, c.dirs, cfg, 5).value, target, source, cfg, 5)
  {
    hide RootsOf, Exports, Tree, Installed, Restores, WellStaged, Room, Clearable, NoDirInTheWay;
    WelcomingHasRoom(disk, unlistable, cfg, replace);
    ExportIsWellStaged(content, c.dirs, source, cfg);
    SameLayout(WithoutAll(disk.files, RootsOf(cfg)), source, content, cfg, 5);
    SolidInstalls(Cleared(disk, unlistable, cfg), content, c.dirs, cfg, 5);
  }

  /**
   * An import of what an export wrote succeeds whenever no step fails, the dump can be loaded, and the roots are empty
   * or may be replaced: the database holds the dump, every file of every section is back at its own path with its
   * bytes, and nothing else is there but what was outside the roots.
   */
  method ExportAndImport(
    source: Files, cfg: Config, dumpPath: Path, dump: Bytes, header: Manifest, codec: Codec, hash: Bytes -> string,
    host: Host, stage: Path, replace: bool, load: Bytes -> Option<set<string>>)
    returns (r: Result<Checked, ImportError>)
    requires Tree(source) && Named(source) && dumpPath !in source
    requires GoodHeader(header) && Inverse(codec) && load(dump).Some?
    requires host.trace == [] && Quiet(host.answers) && Fresh(host.State(), stage)
    requires Welcoming(host.State(), host.unlistable, cfg, replace) && (replace || Accounts(host.database) == {})
    modifies host
    ensures r.Ok? && host.database == Tables(load(dump).value)
    ensures Restores(host.files, WithoutAll(old(host.files), RootsOf(cfg)), source, cfg, 5)
    ensures Recovered(old(host.files), host.files, source, cfg)
    ensures InOrder(host.trace, stage, replace || Accounts(old(host.database)) == {})
  {
    hide Quiet, Tree, Named, Fresh, Welcoming, PlanOf, Members, Archive, Restores, Exports, Installed, Acceptable,
        Wanted;
    hide Stays, Sound, CheckedOf, Around, PutAll, RootsOf, WithoutAll, Cleared, Installable, Contents, ManifestAt,
        InOrder;
    hide Inverse, Apart, Lists, Recovered, Moved, Moves;
    ghost var disk, files := host.State(), host.files;
    var exported, planned := Export(source, source, cfg, dumpPath, dump, header, codec, hash);
    PlanReadable(planned, source, cfg, dumpPath, dump);
    var manifest, a := exported.value.manifest, exported.value.entries;
    ArchiveReads(source, cfg, planned, dumpPath, dump, manifest, codec, hash);
    PlainArchive(disk, stage, a, codec, hash);
    ExportIsInstallable(
      source, Contents(a), cfg, CheckedOf(disk, stage, a, codec), disk, host.unlistable, replace);
    assert Ready(disk, host.unlistable, host.database, stage, cfg, replace, a, codec, hash, header.pgDumpMajor, load);
    r := Import(host, stage, cfg, replace, false, a, codec, hash, header.pgDumpMajor, load);
    OutsideRoots(files, cfg);
    RestoresRecovers(files, WithoutAll(files, RootsOf(cfg)), host.files, source, cfg);
  }

  lemma OutsideRoots(files: Files, cfg: Config)
    ensures var outside := WithoutAll(files, RootsOf(cfg));
      forall p :: if InRoots(cfg, p) then p !in outside else Same(outside, p, files, p)
  {
    RootsAreThese(cfg);
    var roots := RootsOf(cfg);
    hide RootsOf, InRoots;
    forall p
      ensures
        if InRoots(cfg, p) then p !in WithoutAll(files, roots) else Same(WithoutAll(files, roots), p, files, p)
    {
      CoveredAt(roots, p);
    }
  }

  lemma CoveredAt(roots: seq<Path>, p: Path)
    ensures Covered(roots, p) <==> exists i :: 0 <= i < |roots| && roots[i] <= p
  {
    if Covered(roots, p) {
      var root :| root in roots && root <= p;
      var i :| 0 <= i < |roots| && roots[i] == root;
    }
    assert forall i | 0 <= i < |roots| :: roots[i] in roots;
  }

  /** The archive of an export reads back as what was exported. */
  lemma ArchiveReads(
    source: Files, cfg: Config, planned: seq<Planned>, dumpPath: Path, dump: Bytes, manifest: Manifest,
    codec: Codec, hash: Bytes -> string)
    requires Tree(source) && Named(source) && dumpPath !in source && PlanOf(planned, source, cfg, dumpPath)
    requires Readable(planned, source[dumpPath := dump])
    requires GoodHeader(manifest) && Inverse(codec)
    requires manifest.members == Members(planned, source[dumpPath := dump], hash)
    ensures var a := Archive(manifest, planned, source[dumpPath := dump], codec);
      && Stated(a, codec) == Some(manifest) && Acceptable(a, Wanted(manifest.members), hash)
      && PlainNames(a) && Apart(Contents(a).Keys) && Exports(Contents(a), source, cfg)
      && DUMP_PATH in Contents(a) && Contents(a)[DUMP_PATH] == dump
  {
    var read := source[dumpPath := dump];
    ArchiveIsPlain(planned, source, cfg, dumpPath, manifest, read, codec);
    assert DistinctPlan(planned);
    ManifestIsReadBack(manifest, planned, read, read, codec, hash);
    WrittenIsAccepted(manifest, planned, read, read, codec, hash);
    hide Archive, Members, Acceptable, Exports, PlanOf, Wanted, Named, PlainNames;
    var a := Archive(manifest, planned, read, codec);
    PlanExports(planned, source, cfg, dumpPath, dump, Contents(a));
    ExportsApart(Contents(a), source, cfg);
  }

  // -- Mail lost without replace ------------------------------------------------------------------------------

  const NEW_MAIL: Name := ["mail", "b"]

  /** Lists one empty mail file and a dump. */
  function OneMail(dump: Bytes, hash: Bytes -> string): seq<Member> {
    [Member(NEW_MAIL, 0, hash([])), Member(DUMP_PATH, |dump|, hash(dump))]
  }

  function OneMailEntries(manifest: Manifest, dump: Bytes, codec: Codec): seq<Entry> {
    [FileEntry(MANIFEST_PATH, codec.encode(manifest)), FileEntry(NEW_MAIL, []), FileEntry(DUMP_PATH, dump)]
  }

  lemma OneMailStated(manifest: Manifest, dump: Bytes, codec: Codec, hash: Bytes -> string)
    requires GoodHeader(manifest) && Inverse(codec) && manifest.members == OneMail(dump, hash)
    ensures Stated(OneMailEntries(manifest, dump, codec), codec) == Some(manifest)
  {
    assert NEW_MAIL[0] != MANIFEST_PATH[0] && DUMP_PATH[0] != MANIFEST_PATH[0] && NEW_MAIL[0] != DUMP_PATH[0];
    assert !BlankPath(NEW_MAIL) && !BlankPath(DUMP_PATH);
    assert ManifestAt(OneMailEntries(manifest, dump, codec)) == 0;
  }

  lemma OneMailContents(manifest: Manifest, dump: Bytes, codec: Codec)
    ensures Contents(OneMailEntries(manifest, dump, codec)) == map[NEW_MAIL := [], DUMP_PATH := dump]
    ensures PlainNames(OneMailEntries(manifest, dump, codec))
  {
    var a := OneMailEntries(manifest, dump, codec);
    assert NEW_MAIL[0] != MANIFEST_PATH[0] && DUMP_PATH[0] != MANIFEST_PATH[0];
    assert a == [a[0]] + [a[1]] + [a[2]] && [] + [a[0]] == [a[0]];
    assert Ordinary("mail") && Ordinary("b") && Ordinary("postgres") && Ordinary("dump");
    hide Ordinary;
    ContentsGrow([], a[0]);
    ContentsGrow([a[0]], a[1]);
    ContentsGrow([a[0]] + [a[1]], a[2]);
  }

  lemma OneMailReads(manifest: Manifest, dump: Bytes, codec: Codec, hash: Bytes -> string)
    requires GoodHeader(manifest) && Inverse(codec) && manifest.members == OneMail(dump, hash)
    ensures var a := OneMailEntries(manifest, dump, codec);
      && Stated(a, codec) == Some(manifest) && Acceptable(a, Wanted(manifest.members), hash) && PlainNames(a)
      && Contents(a) == map[NEW_MAIL := [], DUMP_PATH := dump]
  {
    var a, m := OneMailEntries(manifest, dump, codec), manifest.members;
    OneMailStated(manifest, dump, codec, hash);
    OneMailContents(manifest, dump, codec);
    assert DistinctMembers(m);
    WantedAt(m, 0);
    WantedAt(m, 1);
    hide Contents, PlainNames, Stated, Wanted;
    forall p | p in Wanted(m) ensures p == NEW_MAIL || p == DUMP_PATH {
      assert Wanted(m)[p] in m;
    }
  }

  /** With only mail staged, installing is replacing what is under the Maildir root. */
  lemma OnlyMailInstalled(files: Files, staged: Files, cfg: Config)
    requires staged.Keys == {NEW_MAIL, DUMP_PATH}
    requires cfg.maildirRoot !in files && !Blocked(files, cfg.maildirRoot)
    ensures Installed(files, staged, {}, cfg, 5) == Some(Replaced(files, staged, ["mail"], cfg.maildirRoot))
  {
    assert Inside(["mail"], NEW_MAIL) && IsDir(staged, ["mail"]);
    forall k: Section | k > 0 ensures Unstaged(staged, k) {
      SectionNames(0, k);
      assert NEW_MAIL[0] == SECTIONS[0] && DUMP_PATH[0] != SECTIONS[k];
    }
    CopiesDirectory(files, staged, ["mail"], cfg.maildirRoot);
    hide Copied, Replaced, IsDir, Unstaged;
    assert Installed(files, staged, {}, cfg, 0) == Some(files);
    InstallStep(files, files, staged, cfg, 0);
    Skips(files, staged, cfg, 1, 5);
  }

  lemma OneMailInstallable(disk: Disk, unlistable: set<Path>, cfg: Config, c: Checked, dump: Bytes)
    requires !Seen(disk, unlistable, RootsOf(cfg)) && NoDirInTheWay(disk.dirs, cfg)
    requires cfg.maildirRoot !in disk.files && !Blocked(disk.files, cfg.maildirRoot)
    requires c.staged == map[NEW_MAIL := [], DUMP_PATH := dump] && forall d | d in c.dirs :: IsDir(c.staged, d)
    ensures Installable(disk, unlistable, cfg, false, c)
    ensures Cleared(disk, unlistable, cfg) == disk.files
    ensures Installed(disk.files, c.staged, c.dirs, cfg, 5)
         == Some(Replaced(disk.files, c.staged, ["mail"], cfg.maildirRoot))
  {
    hide RootsOf, Seen, NoDirInTheWay, Installed, Replaced, Blocked;
    OnlyMailInstalled(disk.files, c.staged, cfg);
    SolidInstalls(disk.files, c.staged, c.dirs, cfg, 5);
    assert c.staged.Keys == {NEW_MAIL, DUMP_PATH} && NEW_MAIL[0] != DUMP_PATH[0];
  }

  /**
   * When of the steps of an import only the listing of the roots in use fails, an archive with one mail file, imported
   * without replace, succeeds and takes away every other file under the Maildir root.
   */
  method MisreadingLosesMail(
    host: Host, stage: Path, cfg: Config, header: Manifest, dump: Bytes, codec: Codec, hash: Bytes -> string,
    load: Bytes -> Option<set<string>>, p: Path)
    returns (r: Result<Checked, ImportError>)
    requires host.trace == [] && Quiet(host.answers) && Fresh(host.State(), stage)
    requires forall root | root in RootsOf(cfg) && host.NonEmpty(root) :: root in host.unlistable
    requires GoodHeader(header) && Inverse(codec) && load(dump).Some? && Accounts(host.database) == {}
    requires cfg.maildirRoot !in host.files && !Blocked(host.files, cfg.maildirRoot) && NoDirInTheWay(host.dirs, cfg)
    requires p in host.files && Inside(cfg.maildirRoot, p) && p != cfg.maildirRoot + ["b"]
    modifies host
    ensures r.Ok? && p !in host.files
    ensures p !in RootsOf(cfg) ==> !Kept(old(host.files), host.files, RootsOf(cfg))
  {
    hide Quiet, Fresh, RootsOf, Cleared, Installed, Acceptable, Wanted, Stays, Sound, CheckedOf, Around, PutAll,
        Contents;
    hide InOrder, Inverse, ManifestAt, Blocked, NoDirInTheWay, Accounts, Installable, Replaced;
    ghost var disk, files := host.State(), host.files;
    var manifest := header.(members := OneMail(dump, hash));
    var a := OneMailEntries(manifest, dump, codec);
    OneMailReads(manifest, dump, codec, hash);
    assert NEW_MAIL[0] != DUMP_PATH[0];
    PlainArchive(disk, stage, a, codec, hash);
    ghost var c := CheckedOf(disk, stage, a, codec);
    OneMailInstallable(disk, host.unlistable, cfg, c, dump);
    assert Ready(disk, host.unlistable, host.database, stage, cfg, false, a, codec, hash, header.pgDumpMajor, load);
    r := Import(host, stage, cfg, false, false, a, codec, hash, header.pgDumpMajor, load);
    NotLanded(files, c.staged, cfg, p);
  }

  lemma NotLanded(files: Files, staged: Files, cfg: Config, p: Path)
    requires staged.Keys == {NEW_MAIL, DUMP_PATH} && Inside(cfg.maildirRoot, p) && p != cfg.maildirRoot + ["b"]
    ensures p !in Replaced(files, staged, ["mail"], cfg.maildirRoot)
  {
    var rel := p[|cfg.maildirRoot|..];
    assert p == cfg.maildirRoot + rel;
    assert (["mail"] + rel)[1..] == rel && NEW_MAIL[1..] == ["b"];
    assert (["mail"] + rel)[0] != DUMP_PATH[0];
  }

  // -- A write before anything is verified ----------------------------------------------------------------------

  /** Above a place with no file on the way every directory can be made. */
  lemma {:induction false} AbsoluteWay(disk: Disk, stage: Path, q: Path, n: nat)
    requires Plain(q) && n < |q| && !Blocked(disk.files, q)
    ensures Way(disk, stage, [""] + q, n + 1).Some?
    ensures var way := Way(disk, stage, [""] + q, n + 1).value;
      way.files == disk.files && forall d | d in way.dirs :: d in disk.dirs || Inside(d, q)
  {
    hide Blocked;
    var name := [""] + q;
    AbsoluteOn(stage, q, n);
    FreeInFront(disk.files, q, n);
    var before := disk;
    if n > 0 {
      AbsoluteWay(disk, stage, q, n - 1);
      before := Way(disk, stage, name, n).value;
    } else {
      RootIsThere(disk);
      assert name[..0] == [];
      assert Way(disk, stage, name, 0) == Some(disk);
    }
    OnTheWay(before, q[..n]);
    assert Inside(q[..n], q);
    assert MakeDir(before, q[..n]).Some?;
    forall d | d <= q[..n] ensures Inside(d, q) {
    }
  }

  lemma FreeInFront(files: Files, q: Path, n: nat)
    requires n < |q| && !Blocked(files, q)
    ensures q[..n] !in files && !Blocked(files, q[..n])
  {
    assert Inside(q[..n], q) && forall x | Inside(x, q[..n]) :: Inside(x, q);
    assert forall x | x in files :: x in files.Keys;
  }

  lemma RootIsThere(disk: Disk)
    requires [] !in disk.files
    ensures MakeDir(disk, []) == Some(disk)
  {
    DirectoriesThere(disk, []);
  }

  lemma {:induction false} LeadingSlash(pieces: seq<string>)
    ensures Follow([], [""] + pieces) == Follow([], pieces)
  {
    var all := [""] + pieces;
    if |pieces| > 0 {
      LeadingSlash(pieces[..|pieces| - 1]);
      assert all[..|all| - 1] == [""] + pieces[..|pieces| - 1];
    } else {
      assert all[..0] == [];
    }
  }

  lemma AbsoluteOn(stage: Path, q: Path, n: nat)
    requires Plain(q) && n <= |q|
    ensures Absolute([""] + q) && On(stage, [""] + q, n + 1) == q[..n] && Nameable([""] + q)
  {
    assert ([""] + q)[..n + 1] == [""] + q[..n];
    LeadingSlash(q[..n]);
    PlainFollow([], q[..n]);
    assert [] + q[..n] == q[..n] && q[|q| - 1] in q;
  }

  /** Storing under an absolute name writes that place, wherever the staging directory is. */
  lemma PutAbsolute(disk: Disk, stage: Path, q: Path, data: Bytes)
    requires Plain(q) && !Blocked(disk.files, q) && !disk.Directory(q)
    ensures var put := Put(disk, stage, [""] + q, data);
      put.Some? && put.value.files == disk.files[q := data]
  {
    var name, n := [""] + q, |q| - 1;
    AbsoluteWay(disk, stage, q, n);
    AbsoluteOn(stage, q, |q|);
    NameableLead(name);
    assert name[..|name|] == name && q[..|q|] == q;
    hide Way, Follow, Blocked;
    var way := Way(disk, stage, name, n + 1).value;
    assert !way.Directory(q);
  }

  function StrayMember(q: Path, data: Bytes, sha: string): Member {
    Member([""] + q, |data|, sha)
  }

  function StrayEntries(manifest: Manifest, q: Path, data: Bytes, codec: Codec): seq<Entry> {
    [FileEntry(MANIFEST_PATH, codec.encode(manifest)), FileEntry([""] + q, data)]
  }

  lemma StrayReads(manifest: Manifest, q: Path, data: Bytes, sha: string, codec: Codec, hash: Bytes -> string)
    requires GoodHeader(manifest) && Inverse(codec) && manifest.members == [StrayMember(q, data, sha)]
    requires Plain(q) && hash(data) != sha
    ensures var a := StrayEntries(manifest, q, data, codec);
      && Stated(a, codec) == Some(manifest) && !Acceptable(a, Wanted(manifest.members), hash)
      && Reached(a, Wanted(manifest.members), hash) == 2
  {
    var a, m := StrayEntries(manifest, q, data, codec), manifest.members;
    assert ([""] + q)[0] == "" && !BlankPath([""] + q);
    assert ManifestAt(a) == 0;
    WantedAt(m, 0);
    assert a[1] in a && Listed(a[1], Wanted(m)) && !Matches(a[1], Wanted(m), hash);
    assert ReachedFrom(a, Wanted(m), hash, 1) == 2;
  }

  lemma StrayPuts(disk: Disk, stage: Path, manifest: Manifest, q: Path, data: Bytes, codec: Codec)
    requires Plain(q) && !Blocked(disk.files, q) && !disk.Directory(q)
    ensures var put := PutAll(disk, stage, StrayEntries(manifest, q, data, codec)[..2]);
      put.Some? && put.value.files == disk.files[q := data]
  {
    var a := StrayEntries(manifest, q, data, codec);
    PutAbsolute(disk, stage, q, data);
    assert ([""] + q)[0] == "" && a[1].path != MANIFEST_PATH && a[0].path == MANIFEST_PATH;
    assert a[..2] == a && a[..1] == [a[0]] && [a[0]][..0] == [];
    assert PutAll(disk, stage, []) == Some(disk);
    hide Put;
    assert PutAll(disk, stage, [a[0]]) == Some(disk);
  }

  /**
   * An archive that lists one absolute name, with a hash that is not that of its bytes, is refused; but by then its
   * bytes are written to the place the name leads to, wherever that is.
   */
  method StrayingArchive(
    host: Host, stage: Path, cfg: Config, replace: bool, header: Manifest, q: Path, data: Bytes, sha: string,
    codec: Codec, hash: Bytes -> string, serverMajor: nat, load: Bytes -> Option<set<string>>)
    returns (r: Result<Checked, ImportError>)
    requires host.trace == [] && Quiet(host.answers) && Fresh(host.State(), stage)
    requires GoodHeader(header) && Inverse(codec) && hash(data) != sha
    requires Plain(q) && !(stage <= q) && !Blocked(host.files, q) && !host.State().Directory(q)
    modifies host
    ensures r.Err? && Verified !in host.trace
    ensures q in host.files && host.files[q] == data
  {
    hide Quiet, Fresh, Acceptable, Wanted, Reached, Stays, InOrder, Inverse, PutAll, ManifestAt, Blocked, Plain;
    ghost var disk := host.State();
    var manifest := header.(members := [StrayMember(q, data, sha)]);
    var a := StrayEntries(manifest, q, data, codec);
    StrayReads(manifest, q, data, sha, codec, hash);
    StrayPuts(disk, stage, manifest, q, data, codec);
    r := Import(host, stage, cfg, replace, false, a, codec, hash, serverMajor, load);
  }
}
