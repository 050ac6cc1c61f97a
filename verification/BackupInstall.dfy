/** Putting a staged tree into its final places: clearing the roots, and copying section by section. */
module BackupInstall {
  import opened Wrappers
  import opened BackupArchive
  import opened BackupLayout
  import opened BackupPlaces
  import opened BackupHost

  // -- Copying into place -------------------------------------------------------------------------

  /** Makes the directory above p, if there is one. */
  method MakeParent(host: Host, p: Path) returns (ok: bool)
    modifies host`answers, host`dirs, host`trace
    ensures OnlyFiles(old(host.trace), host.trace)
    ensures ok ==> !Blocked(host.files, p) && (p != [] ==> host.State().Directory(Parent(p)))
    ensures forall d | d in host.dirs :: d in old(host.dirs) || Inside(d, p)
    ensures old(host.dirs) <= host.dirs
    ensures Quiet(old(host.answers)) ==>
      Quiet(host.answers) && (!ok ==> host.trace != [] && Last(host.trace).Obstructed?)
    ensures Quiet(old(host.answers)) && !Blocked(host.files, p) ==> ok
  {
    ok := true;
    if p != [] {
      AboveParent(host.files, p);
      AboveInside(p);
      ok := host.CreateDirAll(Parent(p));
    }
  }

  lemma AboveInside(p: Path)
    requires p != []
    ensures forall q | q in Ancestors(Parent(p)) :: Inside(q, p)
  {
    forall q | q in Ancestors(Parent(p)) ensures Inside(q, p) {
      var i :| 0 <= i <= |Parent(p)| && q == Parent(p)[..i];
      assert q == p[..i];
    }
  }

  /** Makes the parent and writes the file; a failure leaves the file as it was, or cut short. */
  method CopyInto(host: Host, p: Path, data: Bytes) returns (ok: bool)
    modifies host`answers, host`files, host`dirs, host`trace
    ensures OnlyFiles(old(host.trace), host.trace)
    ensures ok ==>
      host.files == old(host.files)[p := data] && !IsDir(old(host.files), p) && !Blocked(old(host.files), p)
    ensures !ok ==> host.files == old(host.files) || host.files == old(host.files)[p := []]
    ensures forall d | d in host.dirs :: d in old(host.dirs) || Inside(d, p)
    ensures Quiet(old(host.answers)) ==>
      Quiet(host.answers) && (!ok ==> host.trace != [] && Last(host.trace).Obstructed?)
    ensures (
      && Quiet(old(host.answers)) && p != []
      && !old(host.State()).Directory(p) && !Blocked(old(host.files), p)) ==> ok
  {
    ok := MakeParent(host, p);
    assert forall d | d in host.dirs && p <= d :: d in old(host.dirs);
    if ok { ok := host.CopyFile(p, data); }
  }

  /** base, with the files in done already landed. */
  ghost predicate Partly(files: Files, base: Files, staged: Files, from: Path, to: Path, done: set<Path>) {
    && (forall q :: q in files <==> q in base || (Inside(to, q) && from + q[|to|..] in done))
    && (forall q | q in base :: q in files && files[q] == base[q])
    && (forall q | Inside(to, q) && from + q[|to|..] in done ::
          q in files && from + q[|to|..] in staged && files[q] == staged[from + q[|to|..]])
  }

  lemma OneMoreFile(files: Files, base: Files, staged: Files, from: Path, to: Path, done: set<Path>, p: Path)
    requires Partly(files, base, staged, from, to, done) && forall q | q in base :: !(to <= q)
    requires p in staged && Inside(from, p)
    ensures Partly(files[to + p[|from|..] := staged[p]], base, staged, from, to, done + {p})
  {
    var destination := to + p[|from|..];
    assert from + destination[|to|..] == p;
    forall q | Inside(to, q) && from + q[|to|..] == p ensures q == destination {
      assert q[|to|..] == p[|from|..];
      assert q == to + q[|to|..];
    }
  }

  lemma AllFiles(files: Files, base: Files, before: Files, staged: Files, from: Path, to: Path, done: set<Path>)
    requires base == Without(before, to) && Partly(files, base, staged, from, to, done)
    requires forall p :: p in staged && Inside(from, p) <==> p in done
    ensures files == Replaced(before, staged, from, to)
  {
    forall q | Inside(to, q) ensures from + q[|to|..] in done <==> q in Landing(staged, from, to) {
    }
  }

  /** Whatever was done so far, only places inside to differ from base, and only landings are there. */
  ghost predicate Within(files: Files, base: Files, staged: Files, from: Path, to: Path) {
    && Without(files, to) == base
    && (forall q | q in files && to <= q :: q in Landing(staged, from, to))
  }

  lemma PartlyWithin(files: Files, base: Files, staged: Files, from: Path, to: Path, done: set<Path>, p: Path)
    requires Partly(files, base, staged, from, to, done) && forall q | q in base :: !(to <= q)
    requires (forall q | q in done :: q in staged && Inside(from, q)) && Inside(from, p)
    ensures Within(files, base, staged, from, to)
    ensures p in staged ==> Within(files[to + p[|from|..] := []], base, staged, from, to)
  {
    var destination := to + p[|from|..];
    assert from + destination[|to|..] == p;
  }

  /** A staging that fits into one tree, with no section of files that is a file itself and no empty directory. */
  ghost predicate WellStaged(staged: Files, dirs: set<Path>) {
    && Tree(staged) && (forall d | d in dirs :: IsDir(staged, d))
    && forall k: Section | k < DIRECTORIES :: [SECTIONS[k]] !in staged
  }

  /** Directories at or inside to stand only where the staged tree has directories. */
  ghost predicate OnlyStagedDirs(dirs: set<Path>, staged: Files, from: Path, to: Path) {
    forall d | d in dirs && to <= d :: d == to || IsDir(staged, from + d[|to|..])
  }

  /** Nothing in the half copied tree is in the way of the next file. */
  lemma NextFits(
    disk: Disk, base: Files, staged: Files, dirs: set<Path>, from: Path, to: Path, done: set<Path>, p: Path)
    requires WellStaged(staged, dirs) && Partly(disk.files, base, staged, from, to, done)
    requires forall q | q in base :: !(to <= q)
    requires done <= staged.Keys && OnlyStagedDirs(disk.dirs, staged, from, to) && !Blocked(base, to)
    requires Inside(from, p) && (p in staged || p in dirs)
    ensures var q := to + p[|from|..];
      !Blocked(disk.files, q) && (p in staged ==> !disk.Directory(q)) && (p in dirs ==> q !in disk.files)
  {
    var q := to + p[|from|..];
    assert from + q[|to|..] == p;
    forall x | x in disk.files ensures !Inside(x, q) {
      if Inside(x, q) { AboveLanding(disk.files, base, staged, dirs, from, to, done, p, x); }
    }
    if p in staged {
      forall x | q <= x ensures (x in disk.files ==> x == q) && x !in disk.dirs {
        InsideLanding(disk, base, staged, from, to, done, p, x);
      }
    }
    assert p in dirs ==> IsDir(staged, p);
  }

  lemma AboveLanding(
    files: Files, base: Files, staged: Files, dirs: set<Path>, from: Path, to: Path, done: set<Path>, p: Path, x: Path)
    requires WellStaged(staged, dirs) && Partly(files, base, staged, from, to, done) && done <= staged.Keys
    requires Inside(from, p) && (p in staged || p in dirs) && !Blocked(base, to)
    requires forall q | q in base :: !(to <= q)
    requires x in files
    ensures !Inside(x, to + p[|from|..])
  {
    var q := to + p[|from|..];
    PrefixesRelated(x, to, q);
    if to < x && x <= q {
      var y := from + x[|to|..];
      assert x[|to|..] == q[..|x|][|to|..] == p[|from|..][..|x| - |to|];
      assert y == p[..|y|];
      assert y in staged && forall z | Inside(p, z) :: Inside(y, z);
    }
  }

  lemma InsideLanding(
    disk: Disk, base: Files, staged: Files, from: Path, to: Path, done: set<Path>, p: Path, x: Path)
    requires Tree(staged) && Partly(disk.files, base, staged, from, to, done) && done <= staged.Keys
    requires OnlyStagedDirs(disk.dirs, staged, from, to) && (forall q | q in base :: !(to <= q))
    requires Inside(from, p) && p in staged && to + p[|from|..] <= x
    ensures (x in disk.files ==> x == to + p[|from|..]) && x !in disk.dirs
  {
    var q := to + p[|from|..];
    var y := from + x[|to|..];
    assert to <= x && Inside(to, q);
    assert q[|to|..] == p[|from|..] && x[..|q|] == q;
    assert y[..|p|] == p;
    assert x in disk.files ==> y in staged;
    assert forall z | Inside(y, z) :: Inside(p, z);
  }

  lemma StagedDirsGrow(before: set<Path>, now: set<Path>, staged: Files, dirs: set<Path>, from: Path, to: Path, p: Path)
    requires OnlyStagedDirs(before, staged, from, to) && WellStaged(staged, dirs)
    requires Inside(from, p) && (p in staged || p in dirs)
    requires forall d | d in now :: d in before || Inside(d, to + p[|from|..]) || (d == to + p[|from|..] && p in dirs)
    ensures OnlyStagedDirs(now, staged, from, to)
  {
    var q := to + p[|from|..];
    forall d | d in now && to <= d ensures d == to || IsDir(staged, from + d[|to|..]) {
      if d !in before && d != to {
        var y := from + d[|to|..];
        assert d[|to|..] == q[..|d|][|to|..] == p[|from|..][..|d| - |to|];
        assert y == p[..|y|];
        if p in staged {
          assert p in staged.Keys && Inside(y, p);
        } else {
          var z :| z in staged.Keys && Inside(p, z);
          assert Inside(y, z);
        }
      }
    }
  }

  /** The next file or directory of a staged directory. */
  method CopyNext(
    host: Host, staged: Files, dirs: set<Path>, from: Path, to: Path, p: Path, ghost base: Files, ghost done: set<Path>)
    returns (ok: bool)
    requires Inside(from, p) && (p in staged || p in dirs)
    requires Partly(host.files, base, staged, from, to, done) && forall q | q in base :: !(to <= q)
    requires forall q | q in done :: q in staged && Inside(from, q)
    modifies host`answers, host`files, host`dirs, host`trace
    ensures OnlyFiles(old(host.trace), host.trace)
    ensures ok ==> Partly(host.files, base, staged, from, to, if p in staged then done + {p} else done)
    ensures !ok ==> Within(host.files, base, staged, from, to)
    ensures forall d | d in host.dirs :: d in old(host.dirs) || Related(d, to)
    ensures WellStaged(staged, dirs) && OnlyStagedDirs(old(host.dirs), staged, from, to) ==>
      OnlyStagedDirs(host.dirs, staged, from, to)
    ensures Quiet(old(host.answers)) ==>
      Quiet(host.answers) && (!ok ==> host.trace != [] && Last(host.trace).Obstructed?)
    ensures (
      && Quiet(old(host.answers)) && WellStaged(staged, dirs) && OnlyStagedDirs(old(host.dirs), staged, from, to)
      && !Blocked(base, to)) ==> ok
  {
    hide Partly, Within, Without, Quiet, WellStaged, OnlyStagedDirs, Blocked;
    var q := to + p[|from|..];
    ghost var well := WellStaged(staged, dirs) && OnlyStagedDirs(host.dirs, staged, from, to);
    ghost var made := host.dirs;
    if well && !Blocked(base, to) { NextFits(host.State(), base, staged, dirs, from, to, done, p); }
    PartlyWithin(host.files, base, staged, from, to, done, p);
    if p in staged {
      OneMoreFile(host.files, base, staged, from, to, done, p);
      ok := CopyInto(host, q, staged[p]);
    } else {
      OnTheWay(host.State(), q);
      ok := host.CreateDirAll(q);
    }
    forall d | d in host.dirs && d <= q ensures Related(d, to) { PrefixesRelated(d, to, q); }
    if well { StagedDirsGrow(made, host.dirs, staged, dirs, from, to, p); }
  }

  /** One directory's files and directories, one after the other in any order, into a directory that is empty. */
  method CopyFiles(host: Host, staged: Files, dirs: set<Path>, from: Path, to: Path, ghost before: Files)
    returns (ok: bool)
    requires host.files == Without(before, to) && StagedDir(staged, dirs, from)
    modifies host`answers, host`files, host`dirs, host`trace
    ensures OnlyFiles(old(host.trace), host.trace)
    ensures !ok ==> Within(host.files, Without(before, to), staged, from, to)
    ensures ok ==> host.files == Replaced(before, staged, from, to)
    ensures Quiet(old(host.answers)) ==>
      Quiet(host.answers) && (!ok ==> host.trace != [] && Last(host.trace).Obstructed?)
    ensures (
      && Quiet(old(host.answers)) && WellStaged(staged, dirs) && OnlyStagedDirs(old(host.dirs), staged, from, to)
      && !Blocked(before, to)) ==> ok
    ensures WellStaged(staged, dirs) && OnlyStagedDirs(old(host.dirs), staged, from, to) ==>
      OnlyStagedDirs(host.dirs, staged, from, to)
    ensures forall d | d in host.dirs :: d in old(host.dirs) || Related(d, to)
  {
    ghost var base := host.files;
    assert forall q | q in base :: !(to <= q);
    var todo := set p | p in staged.Keys + dirs && Inside(from, p);
    ghost var done: set<Path> := {};
    ghost var well := WellStaged(staged, dirs) && OnlyStagedDirs(host.dirs, staged, from, to);
    assert Partly(base, base, staged, from, to, done);
    BlockedWithout(before, to);
    hide Partly, Within, Without, Quiet, WellStaged, OnlyStagedDirs, Blocked, Inside, Related;
    while todo != {}
      invariant OnlyFiles(old(host.trace), host.trace)
      invariant forall p | p in todo :: Inside(from, p) && p in staged.Keys + dirs
      invariant forall p :: p in staged && Inside(from, p) <==> (p in todo && p in staged) || p in done
      invariant Partly(host.files, base, staged, from, to, done)
      invariant Quiet(old(host.answers)) ==> Quiet(host.answers)
      invariant well ==> OnlyStagedDirs(host.dirs, staged, from, to)
      invariant forall d | d in host.dirs :: d in old(host.dirs) || Related(d, to)
      decreases |todo|
    {
      var p :| p in todo;
      ok := CopyNext(host, staged, dirs, from, to, p, base, done);
      if !ok { return; }
      todo, done := todo - {p}, if p in staged then done + {p} else done;
    }
    AllFiles(host.files, base, before, staged, from, to, done);
    ok := true;
  }

  lemma OnTheWay(disk: Disk, p: Path)
    ensures forall d | d in Ancestors(p) :: d <= p
  {
  }

  lemma NothingThere(files: Files, to: Path)
    requires to !in files && !IsDir(files, to)
    ensures Without(files, to) == files
  {
    forall p | p in files ensures !(to <= p) {
      assert to <= p ==> to == p || Inside(to, p);
    }
  }

  lemma BlockedWithout(files: Files, to: Path)
    ensures Blocked(Without(files, to), to) <==> Blocked(files, to)
    ensures to !in Without(files, to) && Without(Without(files, to), to) == Without(files, to)
  {
    if Blocked(files, to) {
      var q :| q in files && Inside(q, to);
      assert q in Without(files, to);
    }
  }

  /** An empty directory at to, with whatever was there removed. */
  method ClearTarget(host: Host, to: Path) returns (ok: bool)
    modifies host`answers, host`files, host`dirs, host`trace
    ensures OnlyFiles(old(host.trace), host.trace)
    ensures Without(host.files, to) == Without(old(host.files), to)
    ensures ok ==> host.files == Without(old(host.files), to) && to !in old(host.files) && !Blocked(old(host.files), to)
    ensures ok ==> forall d | d in host.dirs :: d <= to || (d in old(host.dirs) && !(to <= d))
    ensures Quiet(old(host.answers)) ==>
      Quiet(host.answers) && (!ok ==> host.trace != [] && Last(host.trace).Obstructed?)
    ensures Quiet(old(host.answers)) && !Blocked(old(host.files), to) && to !in old(host.files) ==> ok
  {
    hide Quiet, Without, Blocked;
    ghost var before := host.files;
    BlockedWithout(before, to);
    ok := MakeParent(host, to);
    if !ok { return; }
    if host.Exists(to) {
      ok := host.RemoveTree(to);
      if !ok { return; }
    } else {
      NothingThere(before, to);
      assert forall d | d in host.dirs && to <= d :: d == to || Inside(to, d);
    }
    OnTheWay(host.State(), to);
    ok := host.CreateDirAll(to);
  }

  lemma ReplacedWithin(files: Files, staged: Files, from: Path, to: Path)
    ensures Within(Replaced(files, staged, from, to), Without(files, to), staged, from, to)
  {
  }

  lemma WrittenWithout(files: Files, to: Path, data: Bytes)
    ensures Without(files[to := data], to) == Without(files, to)
  {
  }

  /** A directory replaces what is at its target; a file is written over; what is not staged changes nothing. */
  method CopyTree(host: Host, staged: Files, dirs: set<Path>, from: Path, to: Path) returns (ok: bool)
    modifies host`answers, host`files, host`dirs, host`trace
    ensures OnlyFiles(old(host.trace), host.trace)
    ensures Without(host.files, to) == Without(old(host.files), to)
    ensures ok ==> Copied(old(host.files), staged, dirs, from, to) == Some(host.files)
    ensures ok && WellStaged(staged, dirs) ==> DirsExplained(host.dirs, old(host.dirs), old(host.files), host.files)
    ensures Quiet(old(host.answers)) ==>
      Quiet(host.answers) && (!ok ==> host.trace != [] && Last(host.trace).Obstructed?)
    ensures (
      && Quiet(old(host.answers)) && WellStaged(staged, dirs)
      && Copied(old(host.files), staged, dirs, from, to).Some?
      && (from in staged ==> to != [] && !old(host.State()).Directory(to))) ==> ok
  {
    hide Quiet, Without, Blocked, IsDir, Replaced, Landing, WellStaged, OnlyStagedDirs, DirsExplained;
    ghost var before, made := host.files, host.dirs;
    BlockedWithout(before, to);
    if StagedDir(staged, dirs, from) {
      if WellStaged(staged, dirs) { DirIsNoFile(staged, dirs, from); }
      ok := ClearTarget(host, to);
      if ok {
        NothingStagedYet(host.dirs, staged, from, to);
        ok := CopyFiles(host, staged, dirs, from, to, before);
        ReplacedWithin(before, staged, from, to);
        if WellStaged(staged, dirs) { DirectoryExplains(host.dirs, made, before, staged, dirs, from, to); }
      }
    } else if from in staged {
      ok := CopyInto(host, to, staged[from]);
      WrittenWithout(before, to, staged[from]);
      WrittenWithout(before, to, []);
      FileExplains(host.dirs, made, before, to, staged[from]);
    } else {
      ok := true;
      NothingToExplain(made, before);
    }
  }

  /** Each directory was there with as much inside, or holds a file now. */
  ghost predicate DirsExplained(now: set<Path>, before: set<Path>, files: Files, after: Files) {
    && (forall d | d in now :: d in before || IsDir(after, d))
    && (forall d | d in now && IsDir(files, d) :: IsDir(after, d))
  }

  lemma NothingToExplain(dirs: set<Path>, files: Files)
    ensures DirsExplained(dirs, dirs, files, files)
  {
  }

  lemma NothingStagedYet(dirs: set<Path>, staged: Files, from: Path, to: Path)
    requires forall d | d in dirs && to <= d :: d <= to
    ensures OnlyStagedDirs(dirs, staged, from, to)
  {
  }

  lemma DirIsNoFile(staged: Files, dirs: set<Path>, from: Path)
    requires WellStaged(staged, dirs) && StagedDir(staged, dirs, from)
    ensures from !in staged && IsDir(staged, from)
  {
    var x :| x in staged.Keys && Inside(from, x);
    assert x in staged;
  }

  lemma DirectoryExplains(
    now: set<Path>, before: set<Path>, files: Files, staged: Files, dirs: set<Path>, from: Path, to: Path)
    requires WellStaged(staged, dirs) && StagedDir(staged, dirs, from)
    requires OnlyStagedDirs(now, staged, from, to)
    requires forall d | d in now :: d <= to || to <= d || d in before
    ensures DirsExplained(now, before, files, Replaced(files, staged, from, to))
  {
    var after := Replaced(files, staged, from, to);
    DirIsNoFile(staged, dirs, from);
    forall d | d in now && (d <= to || to <= d) ensures IsDir(after, d) {
      var y := if to <= d && d != to then from + d[|to|..] else from;
      var x :| x in staged.Keys && Inside(y, x);
      assert x[..|from|] == from;
      var q := to + x[|from|..];
      assert from + q[|to|..] == x;
      assert q in after.Keys && Inside(d, q);
    }
    forall d | d in now && IsDir(files, d) && !(d <= to || to <= d) ensures IsDir(after, d) {
      var x :| x in files.Keys && Inside(d, x);
      PrefixesRelated(d, to, x);
      assert x in after.Keys;
    }
  }

  lemma FileExplains(now: set<Path>, before: set<Path>, files: Files, to: Path, data: Bytes)
    requires forall d | d in now :: d in before || Inside(d, to)
    ensures DirsExplained(now, before, files, files[to := data])
  {
    var after := files[to := data];
    assert to in after.Keys;
    forall d | d in now && IsDir(files, d) ensures IsDir(after, d) {
      var x :| x in files.Keys && Inside(d, x);
      assert x in after.Keys;
    }
  }

  // -- Installing ------------------------------------------------------------------------------------

  /** The file at p is the same in both: absent, or with the same bytes. */
  predicate SameAt(a: Files, b: Files, p: Path) {
    (p in a <==> p in b) && (p in a ==> a[p] == b[p])
  }

  ghost predicate UnderDest(cfg: Config, p: Path) {
    exists k: Section :: Dest(cfg, k) <= p
  }

  ghost predicate SameOutsideDests(a: Files, b: Files, cfg: Config) {
    forall p :: UnderDest(cfg, p) || SameAt(a, b, p)
  }

  lemma WithoutIsSame(a: Files, b: Files, c: Files, cfg: Config, k: Section)
    requires SameOutsideDests(a, b, cfg) && Without(c, Dest(cfg, k)) == Without(b, Dest(cfg, k))
    ensures SameOutsideDests(a, c, cfg)
  {
    forall p ensures UnderDest(cfg, p) || SameAt(a, c, p) {
      if !(Dest(cfg, k) <= p) {
        assert p in Without(c, Dest(cfg, k)) <==> p in c;
        assert p in Without(b, Dest(cfg, k)) <==> p in b;
      }
    }
  }

  /** Installs one section, if it is staged. */
  method InstallSection(host: Host, staged: Files, dirs: set<Path>, cfg: Config, k: Section) returns (ok: bool)
    modifies host`answers, host`files, host`dirs, host`trace
    ensures OnlyFiles(old(host.trace), host.trace)
    ensures Without(host.files, Dest(cfg, k)) == Without(old(host.files), Dest(cfg, k))
    ensures ok && Installs(staged, dirs, k) ==>
      Copied(old(host.files), staged, dirs, [SECTIONS[k]], Dest(cfg, k)) == Some(host.files)
    ensures ok && !Installs(staged, dirs, k) ==> host.files == old(host.files)
    ensures Quiet(old(host.answers)) ==>
      Quiet(host.answers) && (!ok ==> host.trace != [] && Last(host.trace).Obstructed?)
    ensures ok && WellStaged(staged, dirs) ==>
      (forall d | d in host.dirs :: d in old(host.dirs) || IsDir(host.files, d) || d <= cfg.dataDir)
      && (forall d | d in host.dirs && IsDir(old(host.files), d) :: IsDir(host.files, d))
    ensures (
      && Quiet(old(host.answers)) && WellStaged(staged, dirs)
      && (Installs(staged, dirs, k) ==>
            && Copied(old(host.files), staged, dirs, [SECTIONS[k]], Dest(cfg, k)).Some?
            && (k >= DIRECTORIES ==> forall d | d in old(host.dirs) :: !(Dest(cfg, k) <= d)))) ==> ok
  {
    assert WellStaged(staged, dirs) && k < DIRECTORIES ==> [SECTIONS[k]] !in staged;
    hide Quiet, Without, Landing, Blocked, IsDir, Copied, WellStaged;
    ok := true;
    if Installs(staged, dirs, k) {
      if k >= DIRECTORIES {
        OnTheWay(host.State(), cfg.dataDir);
        DataDirIsFree(host.files, staged, dirs, cfg, k);
        ok := host.CreateDirAll(cfg.dataDir);
        if !ok { return; }
        assert forall d | d in host.dirs && Dest(cfg, k) <= d :: d in old(host.dirs);
      }
      ok := CopyTree(host, staged, dirs, [SECTIONS[k]], Dest(cfg, k));
    }
  }

  lemma DataDirIsFree(files: Files, staged: Files, dirs: set<Path>, cfg: Config, k: Section)
    requires k >= DIRECTORIES && Installs(staged, dirs, k)
    ensures Copied(files, staged, dirs, [SECTIONS[k]], Dest(cfg, k)).Some? ==>
      cfg.dataDir !in files && !Blocked(files, cfg.dataDir) && !IsDir(files, Dest(cfg, k))
  {
    AboveParent(files, Dest(cfg, k));
    assert Parent(Dest(cfg, k)) == cfg.dataDir;
  }

  /** Every directory was there at first, or holds a file, or is on the way to the data directory. */
  ghost predicate DirsSince(now: set<Path>, before: set<Path>, files: Files, cfg: Config) {
    forall d | d in now :: d in before || IsDir(files, d) || d <= cfg.dataDir
  }

  /** No directory stands where a single file is to be written. */
  ghost predicate NoDirInTheWay(dirs: set<Path>, cfg: Config) {
    forall d, k: Section | d in dirs && k >= DIRECTORIES :: !(Dest(cfg, k) <= d)
  }

  lemma StillNoDir(
    now: set<Path>, before: set<Path>, files: Files, staged: Files, dirs: set<Path>, cfg: Config, k: Section)
    requires DirsSince(now, before, files, cfg) && NoDirInTheWay(before, cfg)
    requires k >= DIRECTORIES && Installs(staged, dirs, k)
    requires Copied(files, staged, dirs, [SECTIONS[k]], Dest(cfg, k)).Some?
    ensures forall d | d in now :: !(Dest(cfg, k) <= d)
  {
    DataDirIsFree(files, staged, dirs, cfg, k);
    forall d | d in now && IsDir(files, d) ensures !(Dest(cfg, k) <= d) {
      var x :| x in files.Keys && Inside(d, x);
      assert !Inside(Dest(cfg, k), x);
    }
  }

  lemma {:induction false} InstalledFront(files: Files, staged: Files, dirs: set<Path>, cfg: Config, m: nat, n: nat)
    requires m <= n <= 5 && Installed(files, staged, dirs, cfg, n).Some?
    ensures Installed(files, staged, dirs, cfg, m).Some?
  {
    if m < n { InstalledFront(files, staged, dirs, cfg, m, n - 1); }
  }

  /** Installs the sections in order, up to the first failure. */
  method InstallStaging(host: Host, staged: Files, dirs: set<Path>, cfg: Config) returns (ok: bool)
    modifies host`answers, host`files, host`dirs, host`trace
    ensures OnlyFiles(old(host.trace), host.trace)
    ensures SameOutsideDests(old(host.files), host.files, cfg)
    ensures ok ==> Installed(old(host.files), staged, dirs, cfg, 5) == Some(host.files)
    ensures ok ==> Moved(Moves(cfg), old(host.files), host.files, staged, dirs)
    ensures ok && Empty(old(host.files), cfg) && PlacesApart(cfg) && Known(staged, dirs) ==>
      Placed(old(host.files), host.files, staged, cfg)
    ensures Quiet(old(host.answers)) ==>
      Quiet(host.answers) && (!ok ==> host.trace != [] && Last(host.trace).Obstructed?)
    ensures (
      && Quiet(old(host.answers)) && WellStaged(staged, dirs) && NoDirInTheWay(old(host.dirs), cfg)
      && Installed(old(host.files), staged, dirs, cfg, 5).Some?) ==> ok
  {
    hide Quiet, Without, Copied, Installs, SameOutsideDests, Dest, WellStaged, NoDirInTheWay, IsDir, Moved, Moves,
        Empty, PlacesApart, Known, Placed;
    ghost var before, made := host.files, host.dirs;
    ghost var well := WellStaged(staged, dirs) && NoDirInTheWay(made, cfg)
                      && Installed(before, staged, dirs, cfg, 5).Some?;
    SameAsItself(before, cfg);
    for k := 0 to 5
      invariant OnlyFiles(old(host.trace), host.trace)
      invariant SameOutsideDests(before, host.files, cfg)
      invariant Installed(before, staged, dirs, cfg, k) == Some(host.files)
      invariant Quiet(old(host.answers)) ==> Quiet(host.answers)
      invariant well ==> DirsSince(host.dirs, made, host.files, cfg)
    {
      ghost var files := host.files;
      if well {
        InstalledFront(before, staged, dirs, cfg, k + 1, 5);
        if k >= DIRECTORIES && Installs(staged, dirs, k) {
          StillNoDir(host.dirs, made, files, staged, dirs, cfg, k);
        }
      }
      ok := InstallSection(host, staged, dirs, cfg, k);
      WithoutIsSame(before, files, host.files, cfg, k);
      if !ok { return; }
    }
    ok := true;
    InstalledMoves(before, staged, dirs, cfg, 5);
    assert Moves(cfg)[..5] == Moves(cfg);
    if Empty(before, cfg) && PlacesApart(cfg) && Known(staged, dirs) {
      MovedPlaces(before, host.files, staged, dirs, cfg);
    }
  }

  lemma SameAsItself(a: Files, cfg: Config)
    ensures SameOutsideDests(a, a, cfg)
  {
  }

  // -- The roots -------------------------------------------------------------------------------------

  ghost predicate Covered(roots: seq<Path>, p: Path) {
    exists root | root in roots :: root <= p
  }

  function WithRoot(roots: seq<Path>, extra: Path): seq<Path> {
    if exists i | 0 <= i < |roots| :: roots[i] <= extra then roots else roots + [extra]
  }

  /**
   * What is cleared: the data directory, and the other two roots unless they are inside one that is cleared already.
   */
  function RootsOf(cfg: Config): seq<Path> {
    WithRoot(WithRoot([cfg.dataDir], cfg.maildirRoot), cfg.attachmentRoot)
  }

  lemma WithRootLists(roots: seq<Path>, extra: Path)
    ensures forall root :: root in WithRoot(roots, extra) <==>
      root in roots || (root == extra && forall r | r in roots :: !(r <= extra))
  {
    assert forall i | 0 <= i < |roots| :: roots[i] in roots;
  }

  lemma RootsListed(cfg: Config)
    ensures forall root :: root in RootsOf(cfg) <==>
      || root == cfg.dataDir
      || (root == cfg.maildirRoot && !(cfg.dataDir <= root))
      || (root == cfg.attachmentRoot && !(cfg.dataDir <= root)
          && (!(cfg.maildirRoot <= root) || root == cfg.maildirRoot))
  {
    hide WithRoot;
    var two := WithRoot([cfg.dataDir], cfg.maildirRoot);
    WithRootLists([cfg.dataDir], cfg.maildirRoot);
    assert cfg.dataDir in [cfg.dataDir];
    assert forall root :: root in two <==> root == cfg.dataDir || (root == cfg.maildirRoot && !(cfg.dataDir <= root));
    WithRootLists(two, cfg.attachmentRoot);
    var at := cfg.attachmentRoot;
    assert (forall r | r in two :: !(r <= at)) <==> !(cfg.dataDir <= at) && !(cfg.maildirRoot <= at) by {
      Deeper(cfg.dataDir, cfg.maildirRoot, at);
      assert cfg.dataDir in two && (cfg.maildirRoot in two || cfg.dataDir <= cfg.maildirRoot);
    }
  }

  /** What is cleared is what stands at or below one of the three places the configuration names. */
  lemma RootsAreThese(cfg: Config)
    ensures forall p :: Covered(RootsOf(cfg), p) <==> InRoots(cfg, p)
    ensures forall root :: root in RootsOf(cfg) <==>
      || root == cfg.dataDir
      || (root == cfg.maildirRoot && !(cfg.dataDir <= root))
      || (root == cfg.attachmentRoot && !(cfg.dataDir <= root)
          && (!(cfg.maildirRoot <= root) || root == cfg.maildirRoot))
  {
    PlacesCovered(cfg);
    RootsListed(cfg);
    hide RootsOf;
    forall p ensures Covered(RootsOf(cfg), p) <==> InRoots(cfg, p) {
      if InRoots(cfg, p) {
        var at := if cfg.dataDir <= p then cfg.dataDir else if cfg.maildirRoot <= p then cfg.maildirRoot
        else cfg.attachmentRoot;
        CoveredInside(RootsOf(cfg), at, p);
      }
    }
  }

  method ImportRoots(cfg: Config) returns (roots: seq<Path>)
    ensures roots == RootsOf(cfg)
    ensures forall p :: Covered(roots, p) <==> InRoots(cfg, p)
    ensures forall root :: root in roots <==>
      || root == cfg.dataDir
      || (root == cfg.maildirRoot && !(cfg.dataDir <= root))
      || (root == cfg.attachmentRoot && !(cfg.dataDir <= root)
          && (!(cfg.maildirRoot <= root) || root == cfg.maildirRoot))
  {
    RootsAreThese(cfg);
    hide Covered, InRoots;
    roots := [cfg.dataDir];
    var extras := [cfg.maildirRoot, cfg.attachmentRoot];
    for i := 0 to 2
      invariant i == 0 ==> roots == [cfg.dataDir]
      invariant i == 1 ==> roots == WithRoot([cfg.dataDir], cfg.maildirRoot)
      invariant i == 2 ==> roots == RootsOf(cfg)
    {
      var covered := exists j | 0 <= j < |roots| :: roots[j] <= extras[i];
      if !covered { roots := roots + [extras[i]]; }
    }
  }

  lemma WithRootCovers(roots: seq<Path>, extra: Path)
    ensures Covered(WithRoot(roots, extra), extra)
    ensures forall p | Covered(roots, p) :: Covered(WithRoot(roots, extra), p)
  {
    var more := WithRoot(roots, extra);
    assert forall root | root in roots :: root in more;
    if more == roots {
      var i :| 0 <= i < |roots| && roots[i] <= extra;
      assert roots[i] in roots;
    } else {
      assert more[|more| - 1] == extra && extra in more && extra <= extra;
    }
  }

  /** Each of the three places an import writes to is at or inside a root that is cleared. */
  lemma PlacesCovered(cfg: Config)
    ensures Covered(RootsOf(cfg), cfg.dataDir)
    ensures Covered(RootsOf(cfg), cfg.maildirRoot) && Covered(RootsOf(cfg), cfg.attachmentRoot)
  {
    assert Covered([cfg.dataDir], cfg.dataDir) by { assert cfg.dataDir in [cfg.dataDir]; }
    hide WithRoot, Covered;
    WithRootCovers([cfg.dataDir], cfg.maildirRoot);
    WithRootCovers(WithRoot([cfg.dataDir], cfg.maildirRoot), cfg.attachmentRoot);
  }

  lemma CoveredInside(roots: seq<Path>, at: Path, p: Path)
    requires Covered(roots, at) && at <= p
    ensures Covered(roots, p)
  {
    var root :| root in roots && root <= at;
    assert root <= p;
  }

  /** No root is inside one that is listed before it. */
  lemma RootsApart(cfg: Config)
    ensures forall i, j | 0 <= i < j < |RootsOf(cfg)| :: !(RootsOf(cfg)[i] <= RootsOf(cfg)[j])
    ensures RootsOf(cfg) != [] && RootsOf(cfg)[0] == cfg.dataDir
  {
  }

  /** Every destination is at or inside a root that is cleared. */
  lemma RootsCover(cfg: Config)
    ensures forall p | UnderDest(cfg, p) :: Covered(RootsOf(cfg), p)
  {
    hide RootsOf, Covered;
    PlacesCovered(cfg);
    forall p | UnderDest(cfg, p) ensures Covered(RootsOf(cfg), p) {
      var k: Section :| Dest(cfg, k) <= p;
      var at := if k == 0 then cfg.maildirRoot else if k == 1 then cfg.attachmentRoot else cfg.dataDir;
      assert at <= Dest(cfg, k);
      CoveredInside(RootsOf(cfg), at, Dest(cfg, k));
      CoveredInside(RootsOf(cfg), Dest(cfg, k), p);
    }
  }

  /** Removes a root's tree, if there is one, and makes it an empty directory. */
  method ClearDir(host: Host, root: Path) returns (ok: bool)
    modifies host`answers, host`files, host`dirs, host`trace
    ensures OnlyFiles(old(host.trace), host.trace)
    ensures Without(host.files, root) == Without(old(host.files), root)
    ensures ok ==> host.files == Without(old(host.files), root)
    ensures ok ==> forall d | d in host.dirs :: d <= root || (d in old(host.dirs) && !(root <= d))
    ensures Quiet(old(host.answers)) ==>
      Quiet(host.answers) && (!ok ==> host.trace != [] && Last(host.trace).Obstructed?)
    ensures Quiet(old(host.answers)) && root !in old(host.files) && !Blocked(old(host.files), root) ==> ok
  {
    hide Quiet;
    if host.Exists(root) {
      ok := host.RemoveTree(root);
      if !ok { return; }
    } else {
      NothingThere(host.files, root);
      assert forall d | d in host.dirs && root <= d :: d == root || Inside(root, d);
    }
    BlockedWithout(old(host.files), root);
    OnTheWay(host.State(), root);
    ok := host.CreateDirAll(root);
  }

  function WithoutAll(files: Files, roots: seq<Path>): Files {
    map p | p in files && (forall i | 0 <= i < |roots| :: !(roots[i] <= p)) :: files[p]
  }

  ghost predicate SameOutside(a: Files, b: Files, roots: seq<Path>) {
    forall p :: Covered(roots, p) || SameAt(a, b, p)
  }

  lemma ClearOne(a: Files, b: Files, c: Files, roots: seq<Path>, root: Path)
    requires SameOutside(a, b, roots) && Without(c, root) == Without(b, root) && root in roots
    ensures SameOutside(a, c, roots)
  {
    forall p ensures Covered(roots, p) || SameAt(a, c, p) {
      if !(root <= p) {
        assert p in Without(c, root) <==> p in c;
        assert p in Without(b, root) <==> p in b;
      }
    }
  }

  lemma WithoutMore(files: Files, roots: seq<Path>, i: nat)
    requires i < |roots|
    ensures WithoutAll(files, roots[i..]) == Without(WithoutAll(files, roots[i + 1..]), roots[i])
  {
    var rest, more := roots[i + 1..], roots[i..];
    assert more == [roots[i]] + rest;
    forall p | p in files
      ensures p in WithoutAll(files, more) <==> p in WithoutAll(files, rest) && !(roots[i] <= p)
    {
      if p in WithoutAll(files, more) {
        forall m | 0 <= m < |rest| ensures !(rest[m] <= p) { assert more[m + 1] == rest[m]; }
        assert more[0] == roots[i];
      }
    }
  }

  /** Of the roots from i on nothing is left but directories on the way to a root. */
  ghost predicate DirsCleared(now: set<Path>, before: set<Path>, roots: seq<Path>, i: nat) {
    forall d | d in now ::
      || (exists root :: root in roots && d <= root)
      || (d in before && forall j | i <= j < |roots| :: !(roots[j] <= d))
  }

  lemma NothingClearedYet(dirs: set<Path>, roots: seq<Path>)
    ensures DirsCleared(dirs, dirs, roots, |roots|)
  {
  }

  lemma DirsClearedMore(now: set<Path>, made: set<Path>, before: set<Path>, roots: seq<Path>, i: nat)
    requires i < |roots| && DirsCleared(made, before, roots, i + 1)
    requires forall d | d in now :: d <= roots[i] || (d in made && !(roots[i] <= d))
    ensures DirsCleared(now, before, roots, i)
  {
    assert roots[i] in roots;
  }

  /** Clears the roots from the last to the first, which is the data directory. */
  method ClearAll(host: Host, roots: seq<Path>) returns (ok: bool)
    modifies host`answers, host`files, host`dirs, host`trace
    ensures OnlyFiles(old(host.trace), host.trace)
    ensures SameOutside(old(host.files), host.files, roots)
    ensures ok ==> host.files == WithoutAll(old(host.files), roots)
    ensures ok ==> DirsCleared(host.dirs, old(host.dirs), roots, 0)
    ensures Quiet(old(host.answers)) ==>
      Quiet(host.answers) && (!ok ==> host.trace != [] && Last(host.trace).Obstructed?)
    ensures Quiet(old(host.answers)) && Clearable(old(host.files), roots) ==> ok
  {
    hide Quiet, Without, WithoutAll, SameOutside, Blocked, DirsCleared;
    ghost var before, made := host.files, host.dirs;
    AsBefore(before, roots);
    NothingClearedYet(made, roots);
    var i := |roots|;
    while i > 0
      invariant 0 <= i <= |roots|
      invariant OnlyFiles(old(host.trace), host.trace)
      invariant SameOutside(before, host.files, roots)
      invariant host.files == WithoutAll(before, roots[i..])
      invariant DirsCleared(host.dirs, made, roots, i)
      invariant Quiet(old(host.answers)) ==> Quiet(host.answers)
    {
      i := i - 1;
      ghost var files, dirs := host.files, host.dirs;
      WithoutMore(before, roots, i);
      StillClearable(before, roots, roots[i + 1..], i);
      ok := ClearDir(host, roots[i]);
      ClearOne(before, files, host.files, roots, roots[i]);
      if !ok { return; }
      DirsClearedMore(host.dirs, dirs, made, roots, i);
    }
    assert roots[0..] == roots;
    ok := true;
  }

  /** No file is at or above a root. */
  predicate Clearable(files: Files, roots: seq<Path>) {
    forall root | root in roots :: root !in files && !Blocked(files, root)
  }

  lemma StillClearable(files: Files, roots: seq<Path>, gone: seq<Path>, i: nat)
    requires i < |roots|
    ensures Clearable(files, roots) ==>
      roots[i] !in WithoutAll(files, gone) && !Blocked(WithoutAll(files, gone), roots[i])
  {
    assert roots[i] in roots;
    assert forall q | q in WithoutAll(files, gone).Keys :: q in files.Keys;
  }

  lemma AsBefore(files: Files, roots: seq<Path>)
    ensures SameOutside(files, files, roots) && WithoutAll(files, []) == files
    ensures roots[|roots|..] == []
  {
  }

  datatype Verdict = Fine | NotEmpty | Failed

  /** Some root is seen to have entries. */
  predicate Seen(disk: Disk, unlistable: set<Path>, roots: seq<Path>) {
    exists root | root in roots :: disk.NonEmpty(root) && root !in unlistable
  }

  method AnyNonEmpty(host: Host, roots: seq<Path>) returns (seen: bool)
    ensures seen <==> Seen(host.State(), host.unlistable, roots)
  {
    seen := false;
    for i := 0 to |roots|
      invariant seen <==> Seen(host.State(), host.unlistable, roots[..i])
    {
      assert roots[..i + 1] == roots[..i] + [roots[i]];
      var nonEmpty := host.DirIsNonEmpty(roots[i]);
      seen := seen || nonEmpty;
    }
    assert roots[..|roots|] == roots;
  }

  lemma ClearedOfDirs(now: set<Path>, before: set<Path>, cfg: Config)
    requires DirsCleared(now, before, RootsOf(cfg), 0)
    ensures NoDirInTheWay(now, cfg)
  {
    hide RootsOf;
    forall d, k: Section | d in now && k >= DIRECTORIES ensures !(Dest(cfg, k) <= d) {
      if Dest(cfg, k) <= d { NoRootBelow(cfg, k, d); }
    }
  }

  /** Below the data directory there is no other root. */
  lemma NoRootBelow(cfg: Config, k: Section, d: Path)
    requires k >= DIRECTORIES && Dest(cfg, k) <= d
    ensures RootsOf(cfg) != [] && RootsOf(cfg)[0] <= d && forall root | root in RootsOf(cfg) :: !(d <= root)
  {
    RootsApart(cfg);
    hide RootsOf;
    forall i | 0 <= i < |RootsOf(cfg)| ensures !(d <= RootsOf(cfg)[i]) {
      assert |cfg.dataDir| < |d|;
    }
  }

  /** Refuses roots seen to have entries, or clears all roots when replacing. */
  method CheckAndClearDataDirs(host: Host, cfg: Config, replace: bool) returns (r: Verdict)
    modifies host`answers, host`files, host`dirs, host`trace
    ensures OnlyFiles(old(host.trace), host.trace)
    ensures SameOutside(old(host.files), host.files, RootsOf(cfg))
    ensures !replace || !old(Seen(host.State(), host.unlistable, RootsOf(cfg))) ==>
      host.State() == old(host.State()) && host.trace == old(host.trace)
    ensures r.NotEmpty? <==> !replace && old(Seen(host.State(), host.unlistable, RootsOf(cfg)))
    ensures r.Failed? ==> replace && old(Seen(host.State(), host.unlistable, RootsOf(cfg)))
    ensures r.Fine? && old(Seen(host.State(), host.unlistable, RootsOf(cfg))) ==>
      host.files == WithoutAll(old(host.files), RootsOf(cfg)) && NoDirInTheWay(host.dirs, cfg)
    ensures Quiet(old(host.answers)) ==> Quiet(host.answers)
    ensures Quiet(old(host.answers)) && r.Failed? ==> host.trace != [] && Last(host.trace).Obstructed?
    ensures Quiet(old(host.answers)) && replace && Clearable(old(host.files), RootsOf(cfg)) ==> r.Fine?
  {
    hide Quiet, RootsOf, WithoutAll, SameOutside, Seen, Clearable, NoDirInTheWay, DirsCleared;
    var roots := ImportRoots(cfg);
    AsBefore(host.files, roots);
    var seen := AnyNonEmpty(host, roots);
    r := Fine;
    if seen {
      if !replace { return NotEmpty; }
      ghost var made := host.dirs;
      var ok := ClearAll(host, roots);
      if !ok { return Failed; }
      ClearedOfDirs(host.dirs, made, cfg);
    }
  }
}
