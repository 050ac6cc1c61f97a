/** Importing an archive: verified first, then the database, and the files last. */
module BackupImport {
  import opened Wrappers
  import opened BackupArchive
  import opened BackupLayout
  import opened BackupPlaces
  import opened BackupHost
  import opened BackupExtract
  import opened BackupInstall

  // -- The database ------------------------------------------------------------------------------------

  datatype ImportError = Running | Stopped | BadArchive(refusal: Refusal) | OtherVersion | AccountsThere | FilesThere

  /** From before to now only the database was written, and wiped only when that was allowed. */
  ghost predicate OnlyDatabase(before: seq<Event>, now: seq<Event>, mayWipe: bool) {
    before <= now && forall i | |before| <= i < |now| ::
      now[i].DatabaseCreated? || (now[i].SchemaWiped? && mayWipe) || now[i].DumpLoaded? || now[i].DumpBroken?
  }

  /** A dump of the server's own version goes into a database without accounts, or one that may be replaced. */
  predicate Loadable(manifest: Manifest, serverMajor: nat, database: Database, replace: bool) {
    manifest.pgDumpMajor == serverMajor && (replace || Accounts(database) == {})
  }

  method RestoreDatabase(
    host: Host, manifest: Manifest, dump: Option<Bytes>, replace: bool, serverMajor: nat,
    load: Bytes -> Option<set<string>>)
    returns (error: Option<ImportError>)
    modifies host`answers, host`database, host`trace
    ensures OnlyDatabase(old(host.trace), host.trace, replace || Accounts(old(host.database)) == {})
    ensures !replace ==> Accounts(old(host.database)) <= Accounts(host.database)
    ensures !replace && Accounts(old(host.database)) != {} ==> host.database == old(host.database) && error.Some?
    ensures error.None? ==>
      && Loadable(manifest, serverMajor, old(host.database), replace)
      && manifest.pgDumpMajor == serverMajor && (replace || Accounts(old(host.database)) == {})
    ensures error.None? ==> dump.Some? && load(dump.value).Some? && host.database == Tables(load(dump.value).value)
    ensures error.None? ==> |old(host.trace)| < |host.trace| && Last(host.trace) == DumpLoaded
    ensures error == Some(OtherVersion) ==> manifest.pgDumpMajor != serverMajor
    ensures error == Some(AccountsThere) ==> !replace && Accounts(old(host.database)) != {}
    ensures Quiet(old(host.answers)) ==> Quiet(host.answers)
    ensures (
      && Quiet(old(host.answers)) && Loadable(manifest, serverMajor, old(host.database), replace)
      && dump.Some? && load(dump.value).Some?) ==> error.None?
  {
    hide Quiet;
    var ok := host.CreateDatabaseIfMissing();
    if !ok { return Some(Stopped); }
    ok := host.Step();
    if !ok { return Some(Stopped); }
    ok := host.Step();
    if !ok { return Some(Stopped); }
    if manifest.pgDumpMajor != serverMajor { return Some(OtherVersion); }
    ok := host.Step();
    if !ok { return Some(Stopped); }
    if Accounts(host.database) != {} && !replace { return Some(AccountsThere); }
    if host.database.Tables? {
      ok := host.WipeSchema();
      if !ok { return Some(Stopped); }
    }
    ok := host.Step();
    if !ok { return Some(Stopped); }
    ok := host.Restore(dump, load);
    error := if ok then None else Some(Stopped);
  }

  // -- Which files survive ---------------------------------------------------------------------------------

  /** Every file is as it was, except where a root itself is a file. */
  ghost predicate Kept(a: Files, b: Files, roots: seq<Path>) {
    forall p | p in a && p !in roots :: p in b && b[p] == a[p]
  }

  /** An installed section takes the place p: one at or inside its directory, or its single file. */
  predicate Takes(staged: Files, dirs: set<Path>, cfg: Config, k: Section, p: Path) {
    && Installs(staged, dirs, k)
    && if StagedDir(staged, dirs, [SECTIONS[k]]) then Dest(cfg, k) <= p
       else [SECTIONS[k]] in staged && p == Dest(cfg, k)
  }

  predicate LastToTake(staged: Files, dirs: set<Path>, cfg: Config, n: nat, k: Section, p: Path) {
    k < n && Takes(staged, dirs, cfg, k, p) && forall j: Section | k < j < n :: !Takes(staged, dirs, cfg, j, p)
  }

  /** What such a section puts there, if anything. */
  function Brings(staged: Files, dirs: set<Path>, cfg: Config, k: Section, p: Path): Option<Bytes>
    requires Takes(staged, dirs, cfg, k, p)
  {
    var a := [SECTIONS[k]] + p[|Dest(cfg, k)|..];
    if StagedDir(staged, dirs, [SECTIONS[k]]) then
      if Inside(Dest(cfg, k), p) && a in staged then Some(staged[a]) else None
    else Some(staged[[SECTIONS[k]]])
  }

  /** Whatever section is the last to take the place of a file brings that file's bytes. */
  ghost predicate Spared(files: Files, staged: Files, dirs: set<Path>, cfg: Config) {
    forall p, k: Section | p in files && p !in RootsOf(cfg) && LastToTake(staged, dirs, cfg, 5, k, p) ::
      Brings(staged, dirs, cfg, k, p) == Some(files[p])
  }

  function Found(files: Files, p: Path): Option<Bytes> {
    if p in files then Some(files[p]) else None
  }

  /** After n sections a place holds what the last section that took it brought, or what it held before. */
  lemma {:induction false} HoldsAfter(
    files: Files, g: Files, staged: Files, dirs: set<Path>, cfg: Config, n: nat, p: Path)
    requires n <= 5 && Installed(files, staged, dirs, cfg, n) == Some(g)
    ensures forall k: Section | LastToTake(staged, dirs, cfg, n, k, p) :: Found(g, p) == Brings(staged, dirs, cfg, k, p)
    ensures (forall k: Section | k < n :: !Takes(staged, dirs, cfg, k, p)) ==> Found(g, p) == Found(files, p)
    decreases n
  {
    hide Replaced, Landing, Dest;
    if n > 0 {
      var i: Section := n - 1;
      var f := Installed(files, staged, dirs, cfg, i).value;
      HoldsAfter(files, f, staged, dirs, cfg, i, p);
      OneSectionTakes(f, g, staged, dirs, cfg, i, p);
      forall k: Section | LastToTake(staged, dirs, cfg, n, k, p)
        ensures Found(g, p) == Brings(staged, dirs, cfg, k, p)
      {
        if k < i { assert LastToTake(staged, dirs, cfg, i, k, p); }
      }
    }
  }

  lemma OneSectionTakes(f: Files, g: Files, staged: Files, dirs: set<Path>, cfg: Config, i: Section, p: Path)
    requires if Installs(staged, dirs, i) then Copied(f, staged, dirs, [SECTIONS[i]], Dest(cfg, i)) == Some(g)
             else g == f
    ensures if Takes(staged, dirs, cfg, i, p) then Found(g, p) == Brings(staged, dirs, cfg, i, p)
            else Found(g, p) == Found(f, p)
  {
  }

  lemma {:induction false} SomeLast(staged: Files, dirs: set<Path>, cfg: Config, n: nat, p: Path)
    requires n <= 5 && exists k: Section :: k < n && Takes(staged, dirs, cfg, k, p)
    ensures exists k: Section :: LastToTake(staged, dirs, cfg, n, k, p)
    decreases n
  {
    hide Takes;
    var i: Section := n - 1;
    if Takes(staged, dirs, cfg, i, p) {
      assert LastToTake(staged, dirs, cfg, n, i, p);
    } else {
      SomeLast(staged, dirs, cfg, i, p);
      var k: Section :| LastToTake(staged, dirs, cfg, i, k, p);
      assert LastToTake(staged, dirs, cfg, n, k, p);
    }
  }

  /** Installing over files keeps them all exactly when each is brought back by the last section to take its place. */
  lemma KeptExactly(files: Files, g: Files, staged: Files, dirs: set<Path>, cfg: Config)
    requires Installed(files, staged, dirs, cfg, 5) == Some(g)
    ensures Kept(files, g, RootsOf(cfg)) <==> Spared(files, staged, dirs, cfg)
  {
    hide RootsOf, Takes, Brings, Installed;
    forall p | p in files && p !in RootsOf(cfg)
      ensures Found(g, p) == Some(files[p]) <==>
              forall k: Section | LastToTake(staged, dirs, cfg, 5, k, p) ::
                Brings(staged, dirs, cfg, k, p) == Some(files[p])
    {
      HoldsAfter(files, g, staged, dirs, cfg, 5, p);
      if exists k: Section :: k < 5 && Takes(staged, dirs, cfg, k, p) { SomeLast(staged, dirs, cfg, 5, p); }
    }
  }

  lemma KeptWhenEmpty(a: Files, b: Files, roots: seq<Path>)
    requires SameOutside(a, b, roots) && forall root | root in roots :: !IsDir(a, root)
    ensures Kept(a, b, roots)
  {
    forall p | p in a && p !in roots ensures p in b && b[p] == a[p] {
      forall root | root in roots ensures !(root <= p) {
        assert p in a.Keys;
        assert root <= p ==> root == p || Inside(root, p);
      }
      assert Covered(roots, p) || SameAt(a, b, p);
    }
  }

  lemma AllKept(a: Files, roots: seq<Path>)
    ensures Kept(a, a, roots)
  {
  }

  // -- Clearing and installing -----------------------------------------------------------------------------

  /** An archive proven good: its manifest, and the files and directories that were staged from it. */
  datatype Checked = Checked(manifest: Manifest, staged: Files, dirs: set<Path>)

  /** The files that sections are installed over: all, or those outside the roots when one was seen to be in use. */
  ghost function Cleared(disk: Disk, unlistable: set<Path>, cfg: Config): Files {
    if Seen(disk, unlistable, RootsOf(cfg)) then WithoutAll(disk.files, RootsOf(cfg)) else disk.files
  }

  /** Every section finds its place free once the roots in use are cleared. */
  ghost predicate Installable(disk: Disk, unlistable: set<Path>, cfg: Config, replace: bool, c: Checked) {
    && WellStaged(c.staged, c.dirs)
    && Installed(Cleared(disk, unlistable, cfg), c.staged, c.dirs, cfg, 5).Some?
    && if Seen(disk, unlistable, RootsOf(cfg)) then replace && Clearable(disk.files, RootsOf(cfg))
       else NoDirInTheWay(disk.dirs, cfg)
  }

  lemma OutsideBoth(a: Files, b: Files, c: Files, cfg: Config)
    requires SameOutside(a, b, RootsOf(cfg)) && SameOutsideDests(b, c, cfg)
    ensures SameOutside(a, c, RootsOf(cfg))
  {
    hide RootsOf, Covered, UnderDest;
    RootsCover(cfg);
  }

  /** Clears the roots and installs what was staged. */
  method RestoreFiles(host: Host, c: Checked, cfg: Config, replace: bool) returns (error: Option<ImportError>)
    modifies host`answers, host`files, host`dirs, host`trace
    ensures OnlyFiles(old(host.trace), host.trace)
    ensures SameOutside(old(host.files), host.files, RootsOf(cfg))
    ensures error == Some(FilesThere) <==> !replace && old(Seen(host.State(), host.unlistable, RootsOf(cfg)))
    ensures error == Some(FilesThere) ==> host.State() == old(host.State())
    ensures error.Some? ==> error.value.FilesThere? || error.value.Stopped?
    ensures error.None? ==>
      && Installed(old(Cleared(host.State(), host.unlistable, cfg)), c.staged, c.dirs, cfg, 5) == Some(host.files)
      && Moved(Moves(cfg), old(Cleared(host.State(), host.unlistable, cfg)), host.files, c.staged, c.dirs)
    ensures !replace && (forall root | root in RootsOf(cfg) && old(host.NonEmpty(root)) :: root !in host.unlistable) ==>
      Kept(old(host.files), host.files, RootsOf(cfg))
    ensures Quiet(old(host.answers)) && error == Some(Stopped) ==> host.trace != [] && Last(host.trace).Obstructed?
    ensures Quiet(old(host.answers)) && old(Installable(host.State(), host.unlistable, cfg, replace, c)) ==> error.None?
  {
    hide Quiet, RootsOf, WithoutAll, SameOutside, SameOutsideDests, Installed, Kept, Seen, Clearable, WellStaged;
    hide NoDirInTheWay, OnlyFiles, Moved, Moves, Placed, Empty, PlacesApart, Known;
    ghost var before, files, events, roots := host.State(), host.files, host.trace, RootsOf(cfg);
    var verdict := CheckAndClearDataDirs(host, cfg, replace);
    ghost var cleared, so := host.files, host.trace;
    SameAsItself(cleared, cfg);
    OnlyFilesJoin(events, so, so);
    AllKept(files, roots);
    if verdict.Fine? {
      var ok := InstallStaging(host, c.staged, c.dirs, cfg);
      OnlyFilesJoin(events, so, host.trace);
      error := if ok then None else Some(Stopped);
    } else {
      error := Some(if verdict.NotEmpty? then FilesThere else Stopped);
    }
    OutsideBoth(files, cleared, host.files, cfg);
    if
      && !Seen(before, host.unlistable, roots)
      && forall root | root in roots && before.NonEmpty(root) :: root !in host.unlistable
    {
      NothingSeen(before, host.unlistable, roots);
      KeptWhenEmpty(files, host.files, roots);
    }
  }

  lemma NothingSeen(disk: Disk, unlistable: set<Path>, roots: seq<Path>)
    requires !Seen(disk, unlistable, roots)
    requires forall root | root in roots && disk.NonEmpty(root) :: root !in unlistable
    ensures forall root | root in roots :: !IsDir(disk.files, root)
  {
  }

  // -- Verifying before anything else ------------------------------------------------------------------------

  /** The manifest an archive is read to have. */
  ghost function Stated(entries: seq<Entry>, codec: Codec): (m: Option<Manifest>)
    ensures m.Some? ==> GoodHeader(m.value) && GoodMembers(m.value.members)
  {
    var i := ManifestAt(entries);
    if i == |entries| then None
    else
      var m := codec.decode(entries[i].data);
      if m.Some? && GoodHeader(m.value) && GoodMembers(m.value.members) then m else None
  }

  /** No entry that extraction would reach leads out of the staging directory. */
  ghost predicate Stays(disk: Disk, stage: Path, entries: seq<Entry>, codec: Codec, hash: Bytes -> string) {
    Stated(entries, codec).Some? ==>
      StaysInside(disk, stage, entries, Wanted(Stated(entries, codec).value.members), hash)
  }

  /** Every entry that extraction would reach finds its way free. */
  ghost predicate FindsRoom(disk: Disk, stage: Path, entries: seq<Entry>, codec: Codec, hash: Bytes -> string) {
    Stated(entries, codec).Some? ==> Fits(disk, stage, entries, Wanted(Stated(entries, codec).value.members), hash)
  }

  /** When every step works, unpacking touches something beyond the staging directory. */
  ghost predicate Errs(disk: Disk, stage: Path, entries: seq<Entry>, codec: Codec, hash: Bytes -> string) {
    && Stated(entries, codec).Some?
    && GoesAstray(disk, stage, entries, Wanted(Stated(entries, codec).value.members), hash)
  }

  /** The disk after the reached entries are stored. */
  ghost function Unpacked(disk: Disk, stage: Path, entries: seq<Entry>, codec: Codec, hash: Bytes -> string): Disk
    requires Stated(entries, codec).Some? && FindsRoom(disk, stage, entries, codec, hash)
  {
    PutAll(disk, stage, entries[..Reached(entries, Wanted(Stated(entries, codec).value.members), hash)]).value
  }

  /** The archive is what its manifest says, and all of it can be stored. */
  ghost predicate Sound(disk: Disk, stage: Path, entries: seq<Entry>, codec: Codec, hash: Bytes -> string) {
    && Stated(entries, codec).Some?
    && Acceptable(entries, Wanted(Stated(entries, codec).value.members), hash)
    && PutAll(disk, stage, entries).Some?
  }

  ghost function CheckedOf(disk: Disk, stage: Path, entries: seq<Entry>, codec: Codec): Checked
    requires Stated(entries, codec).Some? && PutAll(disk, stage, entries).Some?
  {
    var after := PutAll(disk, stage, entries).value;
    Checked(Stated(entries, codec).value, StagedFiles(after.files, stage), StagedDirs(after.dirs, stage))
  }

  /** The disk without the staging directory. */
  ghost function Around(disk: Disk, stage: Path): Disk {
    Disk(Without(disk.files, stage), set d | d in disk.dirs && !(stage <= d))
  }

  lemma AroundSame(before: Disk, now: Disk, stage: Path)
    requires SameBeyond(before, now, stage) && Fresh(before, stage)
    ensures Around(now, stage) == before
  {
  }

  /**
   * Everything an import does before the database: the server stopped, the archive fetched, and every byte proven
   * good. Nothing beyond the staging directory is touched if no entry strays; otherwise something is.
   */
  method Verify(
    host: Host, stage: Path, listening: bool, entries: seq<Entry>, codec: Codec, hash: Bytes -> string)
    returns (r: Result<Checked, ImportError>)
    requires Fresh(host.State(), stage)
    modifies host`answers, host`files, host`dirs, host`trace
    ensures r.Ok? ==> !listening && Sound(old(host.State()), stage, entries, codec, hash)
    ensures r.Ok? ==> r.value == CheckedOf(old(host.State()), stage, entries, codec)
    ensures r.Ok? ==> host.State() == Around(PutAll(old(host.State()), stage, entries).value, stage)
    ensures r.Ok? ==> host.trace != [] && Last(host.trace) == Verified
    ensures r.Ok? ==> OnlyFiles(old(host.trace), host.trace[..|host.trace| - 1])
    ensures r.Err? ==> OnlyFiles(old(host.trace), host.trace)
    ensures Stays(old(host.State()), stage, entries, codec, hash) ==>
      host.State() == old(host.State()) && !Wandered(old(host.trace), host.trace, stage)
    ensures (
      || r.Ok?
      || (Quiet(old(host.answers)) && !listening && FindsRoom(old(host.State()), stage, entries, codec, hash))) ==>
      (Wandered(old(host.trace), host.trace, stage) <==> !Stays(old(host.State()), stage, entries, codec, hash))
    ensures Quiet(old(host.answers)) && !listening ==>
      (Wandered(old(host.trace), host.trace, stage) <==> Errs(old(host.State()), stage, entries, codec, hash))
    ensures !Wandered(old(host.trace), host.trace, stage) ==> host.State() == old(host.State())
    ensures Quiet(old(host.answers)) ==> Quiet(host.answers)
    ensures Quiet(old(host.answers)) && !listening && Sound(old(host.State()), stage, entries, codec, hash) ==> r.Ok?
    ensures (
      && Quiet(old(host.answers)) && !listening && Stated(entries, codec).Some?
      && FindsRoom(old(host.State()), stage, entries, codec, hash)) ==>
      host.State() == Around(Unpacked(old(host.State()), stage, entries, codec, hash), stage)
  {
    hide Quiet, Acceptable, Wanted, GoodHeader, GoodMembers, SameBeyond, Wandered, StaysInside, Fits, PutAll, OnlyFiles,
        GoesAstray;
    ghost var before, events := host.State(), host.trace;
    Nowhere(before, events, stage);
    if listening { return Err(Running); }
    var ok := host.Step();
    if !ok { return Err(Stopped); }
    var manifest := ReadManifest(entries, codec);
    if manifest.Err? { return Err(BadArchive(manifest.error)); }
    assert Stated(entries, codec) == Some(manifest.value);
    var extracted := ExtractAndVerify(host, stage, entries, manifest.value.members, hash);
    var checked := Checked(manifest.value, StagedFiles(host.files, stage), StagedDirs(host.dirs, stage));
    ghost var after, so := host.State(), host.trace;
    host.Drop(stage);
    assert host.State() == Around(after, stage);
    if SameBeyond(before, after, stage) { AroundSame(before, after, stage); }
    if extracted.Err? { return Err(BadArchive(extracted.error)); }
    host.Confirm();
    Confirmed(events, so, stage);
    assert so + [Verified] == host.trace && host.trace[..|host.trace| - 1] == so;
    r := Ok(checked);
  }

  lemma Nowhere(disk: Disk, events: seq<Event>, stage: Path)
    ensures !Wandered(events, events, stage) && OnlyFiles(events, events)
  {
  }

  lemma Confirmed(events: seq<Event>, so: seq<Event>, stage: Path)
    requires OnlyFiles(events, so)
    ensures Wandered(events, so + [Verified], stage) <==> Wandered(events, so, stage)
  {
    if Wandered(events, so + [Verified], stage) {
      var i :| |events| <= i < |so + [Verified]| && Beyond((so + [Verified])[i], stage);
      assert so[i] == (so + [Verified])[i];
    }
    if Wandered(events, so, stage) {
      var i :| |events| <= i < |so| && Beyond(so[i], stage);
      assert so[i] == (so + [Verified])[i];
    }
  }

  // -- The whole import ----------------------------------------------------------------------------------

  /**
   * Nothing beyond the staging directory is touched before the archive is verified, nor any file there before the dump
   * is loaded; and the schema is wiped only where that is allowed.
   */
  ghost predicate InOrder(t: seq<Event>, stage: Path, mayWipe: bool) {
    forall i | 0 <= i < |t| ::
      && (t[i] == Verified || Verified in t[..i] || (!Beyond(t[i], stage) && (TouchesFiles(t[i]) || t[i].Obstructed?)))
      && (Beyond(t[i], stage) ==> DumpLoaded in t[..i])
      && (t[i].SchemaWiped? ==> mayWipe)
  }

  lemma OrderWhileVerifying(t: seq<Event>, stage: Path, mayWipe: bool)
    requires OnlyFiles([], t)
    ensures InOrder(t, stage, mayWipe) <==> !Wandered([], t, stage)
    ensures Verified !in t
  {
    if Wandered([], t, stage) {
      var i :| 0 <= i < |t| && Beyond(t[i], stage);
      assert DumpLoaded !in t[..i];
    }
  }

  lemma OrderVerified(t: seq<Event>, stage: Path, mayWipe: bool)
    requires t != [] && Last(t) == Verified && OnlyFiles([], t[..|t| - 1])
    ensures InOrder(t, stage, mayWipe) <==> !Wandered([], t, stage)
    ensures Verified in t && DumpLoaded !in t
  {
    var so := t[..|t| - 1];
    assert t == so + [Verified];
    Confirmed([], so, stage);
    OrderWhileVerifying(so, stage, mayWipe);
    forall i | 0 <= i < |so| ensures t[i] == so[i] && t[..i] == so[..i] {
    }
    assert t[|so|] == Verified;
  }

  lemma OrderGrows(t: seq<Event>, all: seq<Event>, stage: Path, mayWipe: bool)
    requires t <= all && Verified in t
    requires forall i | |t| <= i < |all| ::
               (Beyond(all[i], stage) ==> DumpLoaded in t) && (all[i].SchemaWiped? ==> mayWipe)
    ensures InOrder(all, stage, mayWipe) <==> InOrder(t, stage, mayWipe)
  {
    forall i | 0 <= i < |t| ensures all[i] == t[i] && all[..i] == t[..i] {
    }
    forall i | |t| <= i < |all| ensures Verified in all[..i] && (DumpLoaded in t ==> DumpLoaded in all[..i]) {
      assert all[..i] == t + all[|t|..i];
    }
    if InOrder(all, stage, mayWipe) {
      forall i | 0 <= i < |t|
        ensures
          t[i] == Verified || Verified in t[..i] || (!Beyond(t[i], stage) && (TouchesFiles(t[i]) || t[i].Obstructed?))
        ensures Beyond(t[i], stage) ==> DumpLoaded in t[..i]
        ensures t[i].SchemaWiped? ==> mayWipe
      {
        assert all[i] == t[i] && all[..i] == t[..i];
      }
    }
  }

  function Dump(staged: Files): Option<Bytes> {
    if DUMP_PATH in staged then Some(staged[DUMP_PATH]) else None
  }

  /** The dump went into the database, and the members over these files. */
  ghost predicate Imported(
    c: Checked, cfg: Config, load: Bytes -> Option<set<string>>, database: Database, over: Files, after: Files)
  {
    && Dump(c.staged).Some? && load(Dump(c.staged).value).Some?
    && database == Tables(load(Dump(c.staged).value).value)
    && Installed(over, c.staged, c.dirs, cfg, 5) == Some(after)
  }

  /** All that an import needs besides steps that work: a sound archive, a database that takes its dump, and room. */
  ghost predicate Ready(
    disk: Disk, unlistable: set<Path>, database: Database, stage: Path, cfg: Config, replace: bool,
    entries: seq<Entry>, codec: Codec, hash: Bytes -> string, serverMajor: nat, load: Bytes -> Option<set<string>>)
  {
    && Sound(disk, stage, entries, codec, hash)
    && var c := CheckedOf(disk, stage, entries, codec);
    && Loadable(c.manifest, serverMajor, database, replace)
    && Dump(c.staged).Some? && load(Dump(c.staged).value).Some?
    && Installable(Around(PutAll(disk, stage, entries).value, stage), unlistable, cfg, replace, c)
  }

  /**
   * A whole import of any archive, with any step failing. If no entry that extraction reaches strays, nothing is
   * touched before the archive is verified, no file before the dump is loaded, none outside the roots ever, and without
   * replace no account and, when the roots in use can be listed, no file is lost; when they cannot, exactly those files
   * are lost that no section brings back. If one strays, the order is broken as soon as the import succeeds, or just
   * no step fails. And with no failing step an import that is ready succeeds.
   */
  method Import(
    host: Host, stage: Path, cfg: Config, replace: bool, listening: bool, entries: seq<Entry>,
    codec: Codec, hash: Bytes -> string, serverMajor: nat, load: Bytes -> Option<set<string>>)
    returns (r: Result<Checked, ImportError>)
    requires host.trace == [] && Fresh(host.State(), stage)
    modifies host
    ensures Stays(old(host.State()), stage, entries, codec, hash) ==>
      InOrder(host.trace, stage, replace || Accounts(old(host.database)) == {})
    ensures (
      || r.Ok?
      || (Quiet(old(host.answers)) && !listening && FindsRoom(old(host.State()), stage, entries, codec, hash))) ==>
      (InOrder(host.trace, stage, replace || Accounts(old(host.database)) == {})
       <==> Stays(old(host.State()), stage, entries, codec, hash))
    ensures Quiet(old(host.answers)) && !listening ==>
      (InOrder(host.trace, stage, replace || Accounts(old(host.database)) == {})
       <==> !Errs(old(host.State()), stage, entries, codec, hash))
    ensures Stays(old(host.State()), stage, entries, codec, hash) && Verified !in host.trace ==>
      r.Err? && host.State() == old(host.State()) && host.database == old(host.database)
    ensures InOrder(host.trace, stage, replace || Accounts(old(host.database)) == {}) && Verified !in host.trace ==>
      r.Err? && host.State() == old(host.State()) && host.database == old(host.database)
    ensures Stays(old(host.State()), stage, entries, codec, hash) && DumpLoaded !in host.trace ==>
      r.Err? && host.State() == old(host.State())
    ensures Verified in host.trace ==> Sound(old(host.State()), stage, entries, codec, hash)
    ensures (
      && Verified !in host.trace && Quiet(old(host.answers)) && !listening && Stated(entries, codec).Some?
      && FindsRoom(old(host.State()), stage, entries, codec, hash)) ==>
      host.State() == Around(Unpacked(old(host.State()), stage, entries, codec, hash), stage)
    ensures !replace ==> Accounts(old(host.database)) <= Accounts(host.database)
    ensures !replace && Accounts(old(host.database)) != {} ==> r.Err? && host.database == old(host.database)
    ensures Stays(old(host.State()), stage, entries, codec, hash) ==>
      SameOutside(old(host.files), host.files, RootsOf(cfg))
    ensures (
      && Stays(old(host.State()), stage, entries, codec, hash) && !replace
      && forall root | root in RootsOf(cfg) && old(host.NonEmpty(root)) :: root !in host.unlistable) ==>
      Kept(old(host.files), host.files, RootsOf(cfg))
    ensures Stays(old(host.State()), stage, entries, codec, hash) && !replace && r.Ok? ==>
      (Kept(old(host.files), host.files, RootsOf(cfg)) <==> Spared(old(host.files), r.value.staged, r.value.dirs, cfg))
    ensures r.Ok? ==> !listening && Sound(old(host.State()), stage, entries, codec, hash)
    ensures r.Ok? ==> r.value == CheckedOf(old(host.State()), stage, entries, codec)
    ensures r.Ok? ==>
      && Loadable(r.value.manifest, serverMajor, old(host.database), replace)
      && r.value.manifest.pgDumpMajor == serverMajor && (replace || Accounts(old(host.database)) == {})
    ensures r.Ok? ==>
      var around := Around(PutAll(old(host.State()), stage, entries).value, stage);
      && Imported(r.value, cfg, load, host.database, Cleared(around, host.unlistable, cfg), host.files)
      && Moved(Moves(cfg), Cleared(around, host.unlistable, cfg), host.files, r.value.staged, r.value.dirs)
      && (Seen(around, host.unlistable, RootsOf(cfg)) ==> replace)
    ensures (
      && Quiet(old(host.answers)) && !listening
      && Ready(
           old(host.State()), host.unlistable, old(host.database), stage, cfg, replace, entries, codec, hash,
           serverMajor, load)) ==> r.Ok?
  {
    hide Quiet, RootsOf, WithoutAll, SameOutside, Kept, Installed, Unpacked, Stays, FindsRoom, Sound, CheckedOf,
        Around, PutAll;
    hide Fresh, Seen, Loadable, InOrder, Errs, OnlyDatabase, OnlyFiles, Accounts, Installable, Wandered, Spared, Moved,
        Moves;
    ghost var before, files, mayWipe := host.State(), host.files, replace || Accounts(host.database) == {};
    AsBefore(files, RootsOf(cfg));
    AllKept(files, RootsOf(cfg));
    var checked := Verify(host, stage, listening, entries, codec, hash);
    ghost var verified, around := host.trace, host.State();
    if checked.Err? {
      OrderWhileVerifying(verified, stage, mayWipe);
      return Err(checked.error);
    }
    OrderVerified(verified, stage, mayWipe);
    var error := RestoreDatabase(host, checked.value.manifest, Dump(checked.value.staged), replace, serverMajor, load);
    ghost var loaded := host.trace;
    OrderInDatabase(verified, loaded, stage, mayWipe);
    if error.Some? {
      return Err(error.value);
    }
    error := RestoreFiles(host, checked.value, cfg, replace);
    OrderInFiles(loaded, host.trace, stage, mayWipe);
    if error.Some? {
      return Err(error.value);
    }
    if !replace { KeptExactly(around.files, host.files, checked.value.staged, checked.value.dirs, cfg); }
    r := Ok(checked.value);
  }

  lemma OrderInDatabase(t: seq<Event>, now: seq<Event>, stage: Path, mayWipe: bool)
    requires OnlyDatabase(t, now, mayWipe) && Verified in t
    ensures InOrder(now, stage, mayWipe) <==> InOrder(t, stage, mayWipe)
    ensures Verified in now && (|t| < |now| && Last(now) == DumpLoaded ==> DumpLoaded in now)
  {
    OrderGrows(t, now, stage, mayWipe);
    assert forall e | e in t :: e in now;
  }

  lemma OrderInFiles(t: seq<Event>, now: seq<Event>, stage: Path, mayWipe: bool)
    requires OnlyFiles(t, now) && Verified in t && DumpLoaded in t
    ensures InOrder(now, stage, mayWipe) <==> InOrder(t, stage, mayWipe)
    ensures Verified in now && DumpLoaded in now
  {
    OrderGrows(t, now, stage, mayWipe);
    assert forall e | e in t :: e in now;
  }

  // -- Archives with plain names --------------------------------------------------------------------------

  lemma PlainDoesNotStray(disk: Disk, stage: Path, name: Name)
    requires Plain(name)
    ensures !Strays(disk, stage, name)
  {
    PlainPlace(stage, name);
  }

  /** An archive whose names are plain and fit into one tree stays inside, and stages what it states. */
  lemma PlainArchive(disk: Disk, stage: Path, entries: seq<Entry>, codec: Codec, hash: Bytes -> string)
    requires Fresh(disk, stage) && Stated(entries, codec).Some?
    requires Acceptable(entries, Wanted(Stated(entries, codec).value.members), hash)
    requires PlainNames(entries) && Apart(Contents(entries).Keys)
    ensures Stays(disk, stage, entries, codec, hash) && Sound(disk, stage, entries, codec, hash)
    ensures PutAll(disk, stage, entries).Some?
    ensures var c := CheckedOf(disk, stage, entries, codec);
      && c.manifest == Stated(entries, codec).value && c.staged == Contents(entries)
      && forall d | d in c.dirs :: IsDir(c.staged, d)
    ensures Around(PutAll(disk, stage, entries).value, stage) == disk
  {
    PlainFits(disk, stage, entries);
    hide PutAll, Fresh, Mirrors, Acceptable, Apart, SameBeyond, Around, Strays, Contents, ManifestAt;
    var after := PutAll(disk, stage, entries).value;
    MirrorsStaged(disk, after, stage, Contents(entries));
    MirrorsMeans(disk, after, stage, Contents(entries));
    AroundSame(disk, after, stage);
    forall i | 0 <= i < |entries| && entries[i].path != MANIFEST_PATH ensures !Strays(disk, stage, entries[i].path) {
      assert entries[i] in entries;
      PlainDoesNotStray(disk, stage, entries[i].path);
    }
  }

  lemma {:induction false} SolidInstalls(files: Files, staged: Files, dirs: set<Path>, cfg: Config, n: nat)
    requires n <= 5 && forall d | d in dirs :: IsDir(staged, d)
    ensures Installed(files, staged, dirs, cfg, n) == Installed(files, staged, {}, cfg, n)
  {
    hide IsDir;
    if n > 0 { SolidInstalls(files, staged, dirs, cfg, n - 1); }
  }
}
