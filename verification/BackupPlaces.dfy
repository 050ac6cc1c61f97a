/**
 * Which place on disk belongs to which archive path, written out with the fields of the configuration and the names
 * in an archive.
 */
module BackupPlaces {
  import opened Wrappers
  import opened BackupArchive
  import opened BackupLayout

  // -- Exporting ------------------------------------------------------------------------------------

  /** The archive has at a, inside the directory of this name, what stands at p below root. */
  predicate Below(name: string, root: Path, a: Path, p: Path) {
    |a| > 1 && a[0] == name && p == root + a[1..]
  }

  /** What stands at p is exported as a. */
  predicate Belongs(cfg: Config, a: Path, p: Path) {
    || Below("mail", cfg.maildirRoot, a, p)
    || Below("attachments", cfg.attachmentRoot, a, p)
    || Below("dkim", cfg.dataDir + ["dkim"], a, p)
    || (a == ["database.json"] && p == cfg.dataDir + ["database.json"])
    || (a == ["jwt_secret"] && p == cfg.dataDir + ["jwt_secret"])
  }

  /** Every file of the server is listed as what it belongs to, the dump as well, nothing else, and nothing twice. */
  ghost predicate Lists(planned: seq<Planned>, files: Files, cfg: Config, dumpPath: Path) {
    && (forall a, p | p in files && Belongs(cfg, a, p) :: Planned(a, p) in planned)
    && Planned(["postgres", "dump"], dumpPath) in planned
    && (forall i | 0 <= i < |planned| ::
          planned[i] == Planned(["postgres", "dump"], dumpPath)
          || (planned[i].source in files && Belongs(cfg, planned[i].archivePath, planned[i].source)))
    && (forall i, j | 0 <= i < j < |planned| :: planned[i].archivePath != planned[j].archivePath)
  }

  lemma CoversBelongs(cfg: Config, k: Section, p: Path)
    requires Covers(cfg, k, p)
    ensures Belongs(cfg, At(k, p[|Dest(cfg, k)|..]), p)
  {
    var rel := p[|Dest(cfg, k)|..];
    assert At(k, rel)[1..] == rel && p == Dest(cfg, k) + rel;
  }

  lemma BelongsCovers(cfg: Config, a: Path, p: Path) returns (k: Section)
    requires Belongs(cfg, a, p)
    ensures Covers(cfg, k, p) && At(k, p[|Dest(cfg, k)|..]) == a
  {
    assert a == [a[0]] + a[1..];
    k := if a[0] == "mail" then 0 else if a[0] == "attachments" then 1 else if a[0] == "dkim" then 2
    else if a[0] == "database.json" then 3 else 4;
    assert p == Dest(cfg, k) + a[1..];
  }

  // -- Installing -----------------------------------------------------------------------------------

  /** What becomes of one name of an archive: to where, and whether only as a directory or only as a file. */
  datatype Move = Move(name: string, to: Path, asDirectory: bool, asFile: bool)

  function Moves(cfg: Config): (moves: seq<Move>)
    ensures |moves| == 5
  {
    [
      Move("mail", cfg.maildirRoot, true, true),
      Move("attachments", cfg.attachmentRoot, true, true),
      Move("dkim", cfg.dataDir + ["dkim"], true, false),
      Move("database.json", cfg.dataDir + ["database.json"], false, true),
      Move("jwt_secret", cfg.dataDir + ["jwt_secret"], false, true)
    ]
  }

  /** The name is staged as a directory. */
  predicate HasDirectory(staged: Files, dirs: set<Path>, name: string) {
    [name] in dirs || exists a | a in staged.Keys :: |a| > 1 && a[0] == name
  }

  /** The move decides what is at p afterwards. */
  predicate Takes(m: Move, staged: Files, dirs: set<Path>, p: Path) {
    if HasDirectory(staged, dirs, m.name) then m.asDirectory && m.to <= p
    else m.asFile && [m.name] in staged && p == m.to
  }

  /** None of these moves takes p. */
  predicate Untaken(moves: seq<Move>, staged: Files, dirs: set<Path>, p: Path) {
    forall m | m in moves :: !Takes(m, staged, dirs, p)
  }

  predicate Same(f: Files, p: Path, g: Files, q: Path) {
    (p in f <==> q in g) && (p in f && q in g ==> f[p] == g[q])
  }

  /** What the move leaves at a place that it takes. */
  predicate Settles(m: Move, after: Files, staged: Files, dirs: set<Path>, p: Path)
  {
    && m.to <= p
    && var a := [m.name] + p[|m.to|..];
    && (p in after <==> a in staged && (HasDirectory(staged, dirs, m.name) ==> p != m.to))
    && (p in after && a in staged ==> after[p] == staged[a])
  }

  /**
   * After these moves a place none of them takes is as it was, and any other holds what the last one that takes it has
   * staged for it, or nothing.
   */
  ghost predicate Moved(moves: seq<Move>, before: Files, after: Files, staged: Files, dirs: set<Path>) {
    && (forall p | Untaken(moves, staged, dirs, p) :: Same(after, p, before, p))
    && forall i, p | 0 <= i < |moves| && Takes(moves[i], staged, dirs, p) && Untaken(moves[i + 1..], staged, dirs, p) ::
         Settles(moves[i], after, staged, dirs, p)
  }

  lemma StagedDirIs(staged: Files, dirs: set<Path>, name: string)
    ensures StagedDir(staged, dirs, [name]) <==> HasDirectory(staged, dirs, name)
  {
    forall q ensures Inside([name], q) <==> |q| > 1 && q[0] == name {
    }
  }

  lemma MoveOf(cfg: Config, k: Section)
    ensures var m := Moves(cfg)[k];
      m.name == SECTIONS[k] && m.to == Dest(cfg, k) && m.asDirectory == (k < DIRECTORIES) && m.asFile == (k != 2)
  {
  }

  predicate Does(m: Move, f: Files, g: Files, staged: Files, dirs: set<Path>, p: Path) {
    if Takes(m, staged, dirs, p) then Settles(m, g, staged, dirs, p) else Same(g, p, f, p)
  }

  lemma DirectoryMove(f: Files, staged: Files, dirs: set<Path>, m: Move, p: Path)
    requires HasDirectory(staged, dirs, m.name) && m.asDirectory
    ensures Does(m, f, Replaced(f, staged, [m.name], m.to), staged, dirs, p)
  {
    hide HasDirectory;
    assert p in Landing(staged, [m.name], m.to) <==> Inside(m.to, p) && [m.name] + p[|m.to|..] in staged;
    assert m.to <= p ==> p == m.to || Inside(m.to, p);
  }

  lemma FileMove(f: Files, staged: Files, dirs: set<Path>, m: Move, p: Path)
    requires !HasDirectory(staged, dirs, m.name) && m.asFile && [m.name] in staged
    ensures Does(m, f, f[m.to := staged[[m.name]]], staged, dirs, p)
  {
    assert m.to[|m.to|..] == [] && [m.name] + [] == [m.name];
  }

  lemma NoMove(f: Files, staged: Files, dirs: set<Path>, m: Move, p: Path)
    requires if HasDirectory(staged, dirs, m.name) then !m.asDirectory else !(m.asFile && [m.name] in staged)
    ensures Does(m, f, f, staged, dirs, p)
  {
  }

  /** One section more, seen at one place. */
  lemma OneMove(f: Files, g: Files, staged: Files, dirs: set<Path>, cfg: Config, k: Section, p: Path)
    requires
      if Installs(staged, dirs, k) then Copied(f, staged, dirs, [SECTIONS[k]], Dest(cfg, k)) == Some(g) else f == g
    ensures Does(Moves(cfg)[k], f, g, staged, dirs, p)
  {
    MoveOf(cfg, k);
    StagedDirIs(staged, dirs, SECTIONS[k]);
    var m := Moves(cfg)[k];
    hide StagedDir, HasDirectory, IsDir, Blocked, Dest, Without, Replaced, Does, Moves;
    if HasDirectory(staged, dirs, m.name) && m.asDirectory {
      DirectoryMove(f, staged, dirs, m, p);
    } else if !HasDirectory(staged, dirs, m.name) && m.asFile && [m.name] in staged {
      FileMove(f, staged, dirs, m, p);
    } else {
      NoMove(f, staged, dirs, m, p);
    }
  }

  lemma UntakenMore(moves: seq<Move>, m: Move, staged: Files, dirs: set<Path>, p: Path)
    ensures Untaken(moves + [m], staged, dirs, p) <==> Untaken(moves, staged, dirs, p) && !Takes(m, staged, dirs, p)
  {
    hide Takes;
    assert m in moves + [m];
    assert forall x | x in moves :: x in moves + [m];
  }

  lemma MovedMore(
    moves: seq<Move>, m: Move, before: Files, f: Files, g: Files, staged: Files, dirs: set<Path>)
    requires Moved(moves, before, f, staged, dirs) && forall p :: Does(m, f, g, staged, dirs, p)
    ensures Moved(moves + [m], before, g, staged, dirs)
  {
    hide Takes, Settles, Same, Untaken;
    var more := moves + [m];
    forall p | Untaken(more, staged, dirs, p) ensures Same(g, p, before, p) {
      UntakenMore(moves, m, staged, dirs, p);
      assert Does(m, f, g, staged, dirs, p);
      SameChain(g, f, before, p);
    }
    forall i, p | 0 <= i < |more| && Takes(more[i], staged, dirs, p) && Untaken(more[i + 1..], staged, dirs, p)
      ensures Settles(more[i], g, staged, dirs, p)
    {
      assert Does(m, f, g, staged, dirs, p);
      if i < |moves| {
        assert more[i + 1..] == moves[i + 1..] + [m];
        UntakenMore(moves[i + 1..], m, staged, dirs, p);
        SettledStays(moves[i], f, g, staged, dirs, p);
      }
    }
  }

  lemma SameChain(a: Files, b: Files, c: Files, p: Path)
    ensures Same(a, p, b, p) && Same(b, p, c, p) ==> Same(a, p, c, p)
  {
  }

  lemma SettledStays(m: Move, f: Files, g: Files, staged: Files, dirs: set<Path>, p: Path)
    ensures Settles(m, f, staged, dirs, p) && Same(g, p, f, p) ==> Settles(m, g, staged, dirs, p)
  {
  }

  /** Installing is moving. */
  lemma {:induction false} InstalledMoves(before: Files, staged: Files, dirs: set<Path>, cfg: Config, n: nat)
    requires n <= 5 && Installed(before, staged, dirs, cfg, n).Some?
    ensures Moved(Moves(cfg)[..n], before, Installed(before, staged, dirs, cfg, n).value, staged, dirs)
  {
    hide Copied, Installs, Moved, Does, Dest;
    if n > 0 {
      InstalledMoves(before, staged, dirs, cfg, n - 1);
      var f, g := Installed(before, staged, dirs, cfg, n - 1).value, Installed(before, staged, dirs, cfg, n).value;
      var m := Moves(cfg)[n - 1];
      forall p ensures Does(m, f, g, staged, dirs, p) {
        OneMove(f, g, staged, dirs, cfg, n - 1, p);
      }
      MovedMore(Moves(cfg)[..n - 1], m, before, f, g, staged, dirs);
      assert Moves(cfg)[..n] == Moves(cfg)[..n - 1] + [Moves(cfg)[n - 1]];
    } else {
      NothingMoved(before, staged, dirs);
      assert Moves(cfg)[..0] == [];
    }
  }

  lemma NothingMoved(before: Files, staged: Files, dirs: set<Path>)
    ensures Moved([], before, before, staged, dirs)
  {
  }

  /** Nothing stands at or below a place that something is moved to. */
  ghost predicate Empty(before: Files, cfg: Config) {
    forall p, m | p in before && m in Moves(cfg) :: !(m.to <= p)
  }

  /** None of the five places is at, inside or above another. */
  predicate PlacesApart(cfg: Config) {
    forall i, j | 0 <= i < j < 5 ::
      !(Moves(cfg)[i].to <= Moves(cfg)[j].to) && !(Moves(cfg)[j].to <= Moves(cfg)[i].to)
  }

  /** Only what an archive has: files in three directories, two single files, and the dump. */
  predicate Known(staged: Files, dirs: set<Path>) {
    && (forall a | a in staged.Keys ::
          || a == ["postgres", "dump"] || a == ["database.json"] || a == ["jwt_secret"]
          || (|a| > 1 && a[0] in {"mail", "attachments", "dkim"}))
    && ["database.json"] !in dirs && ["jwt_secret"] !in dirs
  }

  lemma BelongsToMove(cfg: Config, a: Path, p: Path) returns (i: nat)
    requires Belongs(cfg, a, p)
    ensures i < 5 && Moves(cfg)[i].to <= p && a == [Moves(cfg)[i].name] + p[|Moves(cfg)[i].to|..]
    ensures if p == Moves(cfg)[i].to then Moves(cfg)[i].asFile && i >= 3 else Moves(cfg)[i].asDirectory
  {
    assert a == [a[0]] + a[1..];
    i := if a[0] == "mail" then 0 else if a[0] == "attachments" then 1 else if a[0] == "dkim" then 2
    else if a[0] == "database.json" then 3 else 4;
  }

  lemma AlonePlace(cfg: Config, i: nat, p: Path, j: nat)
    requires PlacesApart(cfg) && i < 5 && j < 5 && Moves(cfg)[i].to <= p && Moves(cfg)[j].to <= p
    ensures i == j
  {
    hide Moves;
    PrefixesRelated(Moves(cfg)[i].to, Moves(cfg)[j].to, p);
  }

  lemma DirectoryFilled(
    before: Files, after: Files, staged: Files, dirs: set<Path>, m: Move, a: Path, p: Path)
    requires Known(staged, dirs) && m.name in {"mail", "attachments", "dkim"} && m.asDirectory && p !in before
    requires m.to <= p && a == [m.name] + p[|m.to|..]
    requires if Takes(m, staged, dirs, p) then Settles(m, after, staged, dirs, p) else Same(after, p, before, p)
    ensures Same(after, p, staged, a)
  {
    assert a[0] == m.name;
    assert |a| == 1 ==> a == [m.name];
    assert [m.name] !in staged;
    assert a in staged ==> |a| > 1 && a in staged.Keys;
  }

  lemma FileFilled(
    before: Files, after: Files, staged: Files, dirs: set<Path>, m: Move, a: Path, p: Path)
    requires Known(staged, dirs) && m.name in {"database.json", "jwt_secret"} && m.asFile && p !in before
    requires m.to <= p && a == [m.name] + p[|m.to|..]
    requires if Takes(m, staged, dirs, p) then Settles(m, after, staged, dirs, p) else Same(after, p, before, p)
    ensures Same(after, p, staged, a)
  {
    assert a[0] == m.name;
    assert !HasDirectory(staged, dirs, m.name);
    assert p == m.to <==> |a| == 1;
    assert |a| == 1 ==> a == [m.name];
  }

  lemma LastTaker(
    before: Files, after: Files, staged: Files, dirs: set<Path>, cfg: Config, i: nat, p: Path)
    requires Moved(Moves(cfg), before, after, staged, dirs) && PlacesApart(cfg)
    requires i < 5 && Moves(cfg)[i].to <= p
    ensures var m := Moves(cfg)[i];
      if Takes(m, staged, dirs, p) then Settles(m, after, staged, dirs, p) else Same(after, p, before, p)
  {
    hide Moves, Settles, Same, HasDirectory, PlacesApart;
    var ms := Moves(cfg);
    forall j | 0 <= j < 5 && j != i ensures !Takes(ms[j], staged, dirs, p) {
      if ms[j].to <= p { AlonePlace(cfg, i, p, j); }
    }
    if Takes(ms[i], staged, dirs, p) {
      assert Untaken(ms[i + 1..], staged, dirs, p);
    } else {
      assert Untaken(ms, staged, dirs, p);
    }
  }

  /** A place that an archive path belongs to holds what was staged for it. */
  lemma PlaceFilled(before: Files, after: Files, staged: Files, dirs: set<Path>, cfg: Config, a: Path, p: Path)
    requires Moved(Moves(cfg), before, after, staged, dirs) && Empty(before, cfg) && PlacesApart(cfg)
    requires Known(staged, dirs) && Belongs(cfg, a, p)
    ensures Same(after, p, staged, a)
  {
    var i := BelongsToMove(cfg, a, p);
    var m := Moves(cfg)[i];
    assert m in Moves(cfg);
    LastTaker(before, after, staged, dirs, cfg, i, p);
    hide Moved, Belongs, Known, Takes, Settles, Same;
    if i < 3 {
      DirectoryFilled(before, after, staged, dirs, m, a, p);
    } else {
      FileFilled(before, after, staged, dirs, m, a, p);
    }
  }

  lemma TakenBelongs(staged: Files, dirs: set<Path>, cfg: Config, i: nat, p: Path)
    requires Known(staged, dirs) && i < 5 && Takes(Moves(cfg)[i], staged, dirs, p)
    ensures var m := Moves(cfg)[i];
      Belongs(cfg, [m.name] + p[|m.to|..], p) || (HasDirectory(staged, dirs, m.name) && p == m.to)
  {
    var m := Moves(cfg)[i];
    hide HasDirectory, Known, Belongs;
    if HasDirectory(staged, dirs, m.name) {
      if p != m.to { DirectoryBelongs(cfg, i, p); }
    } else {
      NoSingleDirectory(staged, dirs, m.name);
      FileBelongs(cfg, i);
      assert p[|p|..] == [] && [m.name] + [] == [m.name];
    }
  }

  lemma NoSingleDirectory(staged: Files, dirs: set<Path>, name: string)
    requires Known(staged, dirs) && [name] in staged
    ensures name == "database.json" || name == "jwt_secret"
  {
    assert |[name]| == 1 && [name][0] == name;
  }

  lemma DirectoryBelongs(cfg: Config, i: nat, p: Path)
    requires i < 5 && Moves(cfg)[i].asDirectory && Inside(Moves(cfg)[i].to, p)
    ensures Belongs(cfg, [Moves(cfg)[i].name] + p[|Moves(cfg)[i].to|..], p)
  {
    var m := Moves(cfg)[i];
    var rel := p[|m.to|..];
    assert p == m.to + rel && ([m.name] + rel)[1..] == rel;
  }

  lemma FileBelongs(cfg: Config, i: nat)
    requires i < 5 && Moves(cfg)[i].name in {"database.json", "jwt_secret"}
    ensures Belongs(cfg, [Moves(cfg)[i].name], Moves(cfg)[i].to)
  {
    assert "database.json"[0] == 'd' && "database.json"[1] == 'a' && "jwt_secret"[0] == 'j';
    assert "mail"[0] == 'm' && "attachments"[0] == 'a' && "dkim"[1] == 'k';
  }

  /** A place that no archive path belongs to is as it was. */
  lemma PlaceLeft(before: Files, after: Files, staged: Files, dirs: set<Path>, cfg: Config, p: Path)
    requires Moved(Moves(cfg), before, after, staged, dirs) && Empty(before, cfg) && PlacesApart(cfg)
    requires Known(staged, dirs) && forall a :: !Belongs(cfg, a, p)
    ensures Same(after, p, before, p)
  {
    var ms := Moves(cfg);
    hide Moves, Known, Belongs, PlacesApart, HasDirectory;
    if i :| 0 <= i < 5 && Takes(ms[i], staged, dirs, p) {
      LastTaker(before, after, staged, dirs, cfg, i, p);
      TakenBelongs(staged, dirs, cfg, i, p);
      assert ms[i] in Moves(cfg) && p !in before;
    } else {
      assert Untaken(ms, staged, dirs, p);
    }
  }

  /**
   * Into empty places that are apart everything is put where it belongs, and nothing else is there that was not there
   * before.
   */
  ghost predicate Placed(before: Files, after: Files, staged: Files, cfg: Config) {
    && (forall a, p | Belongs(cfg, a, p) :: Same(after, p, staged, a))
    && (forall p | forall a :: !Belongs(cfg, a, p) :: Same(after, p, before, p))
  }

  lemma MovedPlaces(before: Files, after: Files, staged: Files, dirs: set<Path>, cfg: Config)
    requires Moved(Moves(cfg), before, after, staged, dirs) && Empty(before, cfg) && PlacesApart(cfg)
    requires Known(staged, dirs)
    ensures Placed(before, after, staged, cfg)
  {
    hide *;
    forall a, p | Belongs(cfg, a, p) ensures Same(after, p, staged, a) {
      PlaceFilled(before, after, staged, dirs, cfg, a, p);
    }
    forall p | forall a :: !Belongs(cfg, a, p) ensures Same(after, p, before, p) {
      PlaceLeft(before, after, staged, dirs, cfg, p);
    }
    PlacedMeans(before, after, staged, cfg);
  }

  lemma PlacedMeans(before: Files, after: Files, staged: Files, cfg: Config)
    requires forall a, p | Belongs(cfg, a, p) :: Same(after, p, staged, a)
    requires forall p | forall a :: !Belongs(cfg, a, p) :: Same(after, p, before, p)
    ensures Placed(before, after, staged, cfg)
  {
    hide Belongs, Same;
  }

  // -- There and back -------------------------------------------------------------------------------

  /** A file that an export takes. */
  predicate OfServer(cfg: Config, p: Path) {
    || Inside(cfg.maildirRoot, p) || Inside(cfg.attachmentRoot, p) || Inside(cfg.dataDir + ["dkim"], p)
    || p == cfg.dataDir + ["database.json"] || p == cfg.dataDir + ["jwt_secret"]
  }

  predicate InRoots(cfg: Config, p: Path) {
    cfg.dataDir <= p || cfg.maildirRoot <= p || cfg.attachmentRoot <= p
  }

  /** The server's files of source are all back, and besides them there is what stood outside the roots before. */
  ghost predicate Recovered(before: Files, after: Files, source: Files, cfg: Config) {
    forall p ::
      if OfServer(cfg, p) then Same(after, p, source, p)
      else if InRoots(cfg, p) then p !in after
      else Same(after, p, before, p)
  }

  lemma OfServerCovered(cfg: Config, p: Path)
    ensures OfServer(cfg, p) <==> CoveredBy(cfg, 5, p)
  {
    assert Covers(cfg, 0, p) == Inside(cfg.maildirRoot, p) && Covers(cfg, 1, p) == Inside(cfg.attachmentRoot, p);
    assert Covers(cfg, 2, p) == Inside(cfg.dataDir + ["dkim"], p);
    assert Covers(cfg, 3, p) == (p == cfg.dataDir + ["database.json"]);
    assert Covers(cfg, 4, p) == (p == cfg.dataDir + ["jwt_secret"]);
    hide Covers;
    if CoveredBy(cfg, 5, p) {
      var k: Section :| k < 5 && Covers(cfg, k, p);
      assert k == 0 || k == 1 || k == 2 || k == 3 || k == 4;
    }
  }

  lemma ServerInRoots(cfg: Config, p: Path)
    ensures OfServer(cfg, p) ==> InRoots(cfg, p)
  {
    assert cfg.dataDir <= cfg.dataDir + ["dkim"];
    Deeper(cfg.dataDir, cfg.dataDir + ["dkim"], p);
  }

  lemma Deeper(a: Path, b: Path, p: Path)
    ensures a <= b && b <= p ==> a <= p
  {
  }

  lemma RestoresRecovers(before: Files, outside: Files, after: Files, source: Files, cfg: Config)
    requires forall p :: if InRoots(cfg, p) then p !in outside else Same(outside, p, before, p)
    requires Restores(after, outside, source, cfg, 5)
    ensures Recovered(before, after, source, cfg)
  {
    hide OfServer, InRoots, CoveredBy;
    forall p
      ensures
        if OfServer(cfg, p) then Same(after, p, source, p)
        else if InRoots(cfg, p) then p !in after
        else Same(after, p, before, p)
    {
      OfServerCovered(cfg, p);
      ServerInRoots(cfg, p);
    }
  }
}
