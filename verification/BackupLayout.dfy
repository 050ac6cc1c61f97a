/**
 * Where archive sections live on disk: collecting them for an export, and installing them where an import puts them.
 */
module BackupLayout {
  import opened Wrappers
  import opened BackupArchive

  type Files = map<Path, Bytes>

  datatype Config = Config(dataDir: Path, maildirRoot: Path, attachmentRoot: Path)

  /** The sections in the order they are installed: three directories, then two single files. */
  const SECTIONS: seq<string> := ["mail", "attachments", "dkim", "database.json", "jwt_secret"]

  const DIRECTORIES := 3

  type Section = k: nat | k < 5

  function Dest(cfg: Config, k: Section): Path {
    if k == 0 then cfg.maildirRoot
    else if k == 1 then cfg.attachmentRoot
    else cfg.dataDir + [SECTIONS[k]]
  }

  /** The archive path of rel in section k; a single file has rel == []. */
  function At(k: Section, rel: Path): Path {
    [SECTIONS[k]] + rel
  }

  predicate InSection(a: Path, k: Section) {
    a != [] && a[0] == SECTIONS[k] && (k < DIRECTORIES <==> |a| > 1)
  }

  predicate Exportable(a: Path) {
    exists k: Section :: InSection(a, k)
  }

  function Home(cfg: Config, a: Path, k: Section): Path
    requires InSection(a, k)
  {
    Dest(cfg, k) + a[1..]
  }

  /** The file p belongs to section k of this layout. */
  predicate Covers(cfg: Config, k: Section, p: Path) {
    if k < DIRECTORIES then Inside(Dest(cfg, k), p) else p == Dest(cfg, k)
  }

  /** No file is inside another file. */
  ghost predicate Tree(files: Files) {
    Apart(files.Keys)
  }

  lemma SectionsDiffer(a: Path, j: Section, k: Section)
    requires InSection(a, j) && InSection(a, k)
    ensures j == k
  {
  }

  /** Reading a path of section k as an archive path and back. */
  lemma HomeCovers(cfg: Config, k: Section, p: Path)
    requires Covers(cfg, k, p)
    ensures InSection(At(k, p[|Dest(cfg, k)|..]), k) && Home(cfg, At(k, p[|Dest(cfg, k)|..]), k) == p
  {
  }

  lemma CoversHome(cfg: Config, k: Section, a: Path)
    requires InSection(a, k)
    ensures Covers(cfg, k, Home(cfg, a, k)) && At(k, Home(cfg, a, k)[|Dest(cfg, k)|..]) == a
  {
    assert a == [a[0]] + a[1..];
  }

  lemma PrefixesRelated(d: Path, e: Path, p: Path)
    ensures d <= p && e <= p ==> Related(d, e)
  {
    if d <= p && e <= p {
      if |d| <= |e| { assert d == e[..|d|]; } else { assert e == d[..|e|]; }
    }
  }

  // -- Exporting ----------------------------------------------------------------------------------

  /** The content of an export: each file of each section under its archive path, and nothing else but the dump. */
  ghost predicate Exports(content: Files, files: Files, cfg: Config) {
    && (forall a | a in content :: a == DUMP_PATH || Exportable(a))
    && (forall a, k: Section | InSection(a, k) ::
          && (a in content <==> Home(cfg, a, k) in files)
          && (a in content ==> content[a] == files[Home(cfg, a, k)]))
  }

  // -- Installing ---------------------------------------------------------------------------------

  predicate IsDir(staged: Files, from: Path) {
    exists q | q in staged.Keys :: Inside(from, q)
  }

  /** Some file is where a directory above path would have to be. */
  predicate Blocked(files: Files, path: Path) {
    exists q | q in files.Keys :: Inside(q, path)
  }

  function Without(files: Files, root: Path): Files {
    map p | p in files && !(root <= p) :: files[p]
  }

  /** Where the files inside from land when from becomes to. */
  function Landing(staged: Files, from: Path, to: Path): (r: set<Path>)
    ensures forall q :: q in r <==> Inside(to, q) && from + q[|to|..] in staged
  {
    var r := set p | p in staged.Keys && Inside(from, p) :: to + p[|from|..];
    assert forall p | p in staged.Keys && Inside(from, p) :: from + (to + p[|from|..])[|to|..] == p;
    assert forall q | Inside(to, q) && from + q[|to|..] in staged :: to + (from + q[|to|..])[|from|..] == q;
    r
  }

  /** What was at or inside to is gone, and what was inside from is there instead. */
  function Replaced(files: Files, staged: Files, from: Path, to: Path): (g: Files)
    ensures forall p :: p in g <==> (p in files && !(to <= p)) || p in Landing(staged, from, to)
    ensures forall p | p in Landing(staged, from, to) :: g[p] == staged[from + p[|to|..]]
    ensures forall p | p in files && !(to <= p) :: g[p] == files[p]
  {
    Without(files, to) + map q | q in Landing(staged, from, to) :: staged[from + q[|to|..]]
  }

  /** from is staged as a directory, with files inside or as one of these directories. */
  predicate StagedDir(staged: Files, dirs: set<Path>, from: Path) {
    from in dirs || IsDir(staged, from)
  }

  /** A directory replaces what was at its target; a file needs a place that is no directory. */
  function Copied(files: Files, staged: Files, dirs: set<Path>, from: Path, to: Path): Option<Files> {
    if StagedDir(staged, dirs, from) then
      if to in files || Blocked(Without(files, to), to) then None else Some(Replaced(files, staged, from, to))
    else if from in staged then
      if Blocked(files, to) || IsDir(files, to) then None else Some(files[to := staged[from]])
    else Some(files)
  }

  /** A section is installed when it is staged as what it should be; mail and attachments may be either. */
  predicate Installs(staged: Files, dirs: set<Path>, k: Section) {
    if k == 2 then StagedDir(staged, dirs, [SECTIONS[k]])
    else if k < 2 then true
    else [SECTIONS[k]] in staged && !StagedDir(staged, dirs, [SECTIONS[k]])
  }

  /** The files after the first n sections have been installed. */
  function Installed(files: Files, staged: Files, dirs: set<Path>, cfg: Config, n: nat): Option<Files>
    requires n <= 5
  {
    if n == 0 then Some(files)
    else
      var before := Installed(files, staged, dirs, cfg, n - 1);
      if before.None? || !Installs(staged, dirs, n - 1) then before
      else Copied(before.value, staged, dirs, [SECTIONS[n - 1]], Dest(cfg, n - 1))
  }

  /** Staged by an export: only sections and the dump, all in one tree. */
  ghost predicate Staged(staged: Files) {
    && Tree(staged)
    && (forall a | a in staged :: a == DUMP_PATH || Exportable(a))
  }

  // -- Back to the same layout ----------------------------------------------------------------------

  /** Nothing stands at, inside or above a destination. */
  ghost predicate Room(target: Files, cfg: Config) {
    forall p, k: Section | p in target :: !Related(p, Dest(cfg, k))
  }

  ghost predicate CoveredBy(cfg: Config, n: nat, p: Path) {
    exists k: Section :: k < n && Covers(cfg, k, p)
  }

  /** Exactly the target's own files and the source's files of the first n sections, all with their bytes. */
  ghost predicate Restores(f: Files, target: Files, source: Files, cfg: Config, n: nat) {
    && (forall p :: p in f <==> p in target || (p in source && CoveredBy(cfg, n, p)))
    && (forall p | p in target :: p in f ==> f[p] == target[p])
    && (forall p | p in source && CoveredBy(cfg, n, p) :: p in f ==> f[p] == source[p])
  }

  lemma CoveredMore(cfg: Config, k: Section, p: Path)
    ensures CoveredBy(cfg, k + 1, p) <==> CoveredBy(cfg, k, p) || Covers(cfg, k, p)
  {
  }

  lemma CoveredIsNotRoom(target: Files, cfg: Config, n: nat, p: Path)
    requires Room(target, cfg) && CoveredBy(cfg, n, p)
    ensures p !in target
  {
    var k: Section :| k < n && Covers(cfg, k, p);
  }

  /** What a section of an export holds is what the source holds there. */
  lemma ExportedAt(source: Files, staged: Files, cfg: Config, k: Section, p: Path)
    requires Exports(staged, source, cfg) && Covers(cfg, k, p)
    ensures var a := At(k, p[|Dest(cfg, k)|..]);
      (a in staged <==> p in source) && (a in staged ==> staged[a] == source[p])
  {
    HomeCovers(cfg, k, p);
  }

  lemma DirectoryExported(source: Files, staged: Files, cfg: Config, k: Section)
    requires Exports(staged, source, cfg) && k < DIRECTORIES
    ensures IsDir(staged, [SECTIONS[k]]) <==> IsDir(source, Dest(cfg, k))
    ensures [SECTIONS[k]] !in staged
  {
    if [SECTIONS[k]] in staged { SectionLength([SECTIONS[k]], k); }
    hide Exports;
    if IsDir(staged, [SECTIONS[k]]) {
      var q :| q in staged && Inside([SECTIONS[k]], q);
      CoversHome(cfg, k, q);
      ExportedAt(source, staged, cfg, k, Home(cfg, q, k));
    }
    if IsDir(source, Dest(cfg, k)) {
      var p :| p in source && Inside(Dest(cfg, k), p);
      ExportedAt(source, staged, cfg, k, p);
      assert Inside([SECTIONS[k]], At(k, p[|Dest(cfg, k)|..]));
    }
  }

  /** The first component tells how long an exported path is. */
  lemma SectionLength(a: Path, k: Section)
    requires a != [] && a[0] == SECTIONS[k] && (a == DUMP_PATH || Exportable(a))
    ensures k < DIRECTORIES <==> |a| > 1
  {
  }

  lemma FileExported(source: Files, staged: Files, cfg: Config, k: Section)
    requires Exports(staged, source, cfg) && k >= DIRECTORIES
    ensures [SECTIONS[k]] in staged <==> Dest(cfg, k) in source
    ensures [SECTIONS[k]] in staged ==> staged[[SECTIONS[k]]] == source[Dest(cfg, k)]
    ensures !IsDir(staged, [SECTIONS[k]])
  {
    assert Dest(cfg, k)[|Dest(cfg, k)|..] == [] && At(k, []) == [SECTIONS[k]];
    ExportedAt(source, staged, cfg, k, Dest(cfg, k));
    forall q | q in staged && Inside([SECTIONS[k]], q) ensures false {
      SectionLength(q, k);
    }
  }

  lemma Nested(q: Path, root: Path, p: Path)
    requires root <= p
    ensures Inside(q, root) ==> Inside(q, p)
  {
  }

  lemma NothingBlocks(f: Files, target: Files, source: Files, cfg: Config, k: Section)
    requires Tree(source) && Room(target, cfg) && Restores(f, target, source, cfg, k)
    requires exists p :: p in source && Dest(cfg, k) <= p
    ensures !Blocked(f, Dest(cfg, k))
    ensures Dest(cfg, k) in source ==> !IsDir(f, Dest(cfg, k))
  {
    hide CoveredBy;
    var known :| known in source && Dest(cfg, k) <= known;
    forall q | q in f ensures !Inside(q, Dest(cfg, k)) {
      Nested(q, Dest(cfg, k), known);
    }
    if Dest(cfg, k) in source {
      forall q | q in f ensures !Inside(Dest(cfg, k), q) {
      }
    }
  }

  /** What lands in a section's directory is what the source holds there. */
  lemma LandsBack(source: Files, staged: Files, cfg: Config, k: Section, p: Path)
    requires Exports(staged, source, cfg) && k < DIRECTORIES
    ensures p in Landing(staged, [SECTIONS[k]], Dest(cfg, k)) <==> p in source && Covers(cfg, k, p)
    ensures p in source && Covers(cfg, k, p) ==> staged[[SECTIONS[k]] + p[|Dest(cfg, k)|..]] == source[p]
  {
    if Covers(cfg, k, p) { ExportedAt(source, staged, cfg, k, p); }
  }

  /** One path after a directory section was put back. */
  lemma PutBack(f: Files, target: Files, source: Files, staged: Files, cfg: Config, k: Section, p: Path)
    requires Room(target, cfg) && Exports(staged, source, cfg)
    requires k < DIRECTORIES && Restores(f, target, source, cfg, k) && Dest(cfg, k) !in source
    ensures var g := Replaced(f, staged, [SECTIONS[k]], Dest(cfg, k));
      && (p in g <==> p in target || (p in source && CoveredBy(cfg, k + 1, p)))
      && (p in g && p in target ==> g[p] == target[p])
      && (p in g && p in source && CoveredBy(cfg, k + 1, p) ==> g[p] == source[p])
  {
    hide Exports, CoveredBy, Replaced, Landing, Dest;
    assert Dest(cfg, k) <= p ==> Inside(Dest(cfg, k), p) || p == Dest(cfg, k);
    LandsBack(source, staged, cfg, k, p);
    CoveredMore(cfg, k, p);
    if p in target { assert !Related(p, Dest(cfg, k)); }
    if CoveredBy(cfg, k, p) { CoveredIsNotRoom(target, cfg, k, p); }
  }

  lemma CopiesDirectory(files: Files, staged: Files, from: Path, to: Path)
    requires IsDir(staged, from) && !Blocked(files, to) && to !in files
    ensures Copied(files, staged, {}, from, to) == Some(Replaced(files, staged, from, to))
  {
    hide Replaced;
    assert forall q | q in Without(files, to) :: q in files;
  }

  lemma NotThere(f: Files, target: Files, source: Files, cfg: Config, k: Section)
    requires Room(target, cfg) && Restores(f, target, source, cfg, k) && Dest(cfg, k) !in source
    ensures Dest(cfg, k) !in f
  {
    hide CoveredBy;
  }

  lemma Replaces(f: Files, target: Files, source: Files, staged: Files, cfg: Config, k: Section)
    requires Room(target, cfg) && Exports(staged, source, cfg)
    requires k < DIRECTORIES && Restores(f, target, source, cfg, k) && Dest(cfg, k) !in source
    ensures Restores(Replaced(f, staged, [SECTIONS[k]], Dest(cfg, k)), target, source, cfg, k + 1)
  {
    hide Exports, CoveredBy, Replaced, Room, Dest, Landing;
    forall p
      ensures var g := Replaced(f, staged, [SECTIONS[k]], Dest(cfg, k));
        && (p in g <==> p in target || (p in source && CoveredBy(cfg, k + 1, p)))
        && (p in g && p in target ==> g[p] == target[p])
        && (p in g && p in source && CoveredBy(cfg, k + 1, p) ==> g[p] == source[p])
    {
      PutBack(f, target, source, staged, cfg, k, p);
    }
  }

  /** One directory section goes back where it came from, over whatever was already put back there. */
  lemma DirectoryRestored(f: Files, target: Files, source: Files, staged: Files, cfg: Config, k: Section)
    requires Tree(source) && Room(target, cfg) && Exports(staged, source, cfg)
    requires k < DIRECTORIES && Restores(f, target, source, cfg, k) && IsDir(staged, [SECTIONS[k]])
    ensures Copied(f, staged, {}, [SECTIONS[k]], Dest(cfg, k)).Some?
    ensures Restores(Copied(f, staged, {}, [SECTIONS[k]], Dest(cfg, k)).value, target, source, cfg, k + 1)
  {
    hide Exports, Tree, Room, Restores, Copied, Dest;
    DirectoryExported(source, staged, cfg, k);
    NothingBlocks(f, target, source, cfg, k);
    NoFileAt(source, Dest(cfg, k));
    NotThere(f, target, source, cfg, k);
    CopiesDirectory(f, staged, [SECTIONS[k]], Dest(cfg, k));
    Replaces(f, target, source, staged, cfg, k);
  }

  lemma NoFileAt(source: Files, root: Path)
    requires Tree(source) && IsDir(source, root)
    ensures root !in source
  {
  }

  /** A single file written back to its place. */
  lemma WritesBack(f: Files, target: Files, source: Files, cfg: Config, k: Section)
    requires Room(target, cfg) && k >= DIRECTORIES && Restores(f, target, source, cfg, k) && Dest(cfg, k) in source
    ensures Restores(f[Dest(cfg, k) := source[Dest(cfg, k)]], target, source, cfg, k + 1)
  {
    assert Dest(cfg, k) !in target by { assert Related(Dest(cfg, k), Dest(cfg, k)); }
    hide CoveredBy, Room, Dest;
    var g := f[Dest(cfg, k) := source[Dest(cfg, k)]];
    forall p
      ensures p in g <==> p in target || (p in source && CoveredBy(cfg, k + 1, p))
      ensures p in source && CoveredBy(cfg, k + 1, p) ==> g[p] == source[p]
    {
      CoveredMore(cfg, k, p);
    }
  }

  lemma FileRestored(f: Files, target: Files, source: Files, staged: Files, cfg: Config, k: Section)
    requires Tree(source) && Room(target, cfg) && Exports(staged, source, cfg)
    requires k >= DIRECTORIES && Restores(f, target, source, cfg, k) && [SECTIONS[k]] in staged
    ensures Copied(f, staged, {}, [SECTIONS[k]], Dest(cfg, k)).Some?
    ensures Restores(Copied(f, staged, {}, [SECTIONS[k]], Dest(cfg, k)).value, target, source, cfg, k + 1)
  {
    hide Exports, Tree, Room, Restores, Dest;
    FileExported(source, staged, cfg, k);
    NothingBlocks(f, target, source, cfg, k);
    WritesBack(f, target, source, cfg, k);
  }

  /** A section that was not exported has nothing at home either. */
  lemma AbsentRestored(f: Files, target: Files, source: Files, staged: Files, cfg: Config, k: Section)
    requires Exports(staged, source, cfg) && Restores(f, target, source, cfg, k)
    requires if k < DIRECTORIES then !IsDir(staged, [SECTIONS[k]]) else [SECTIONS[k]] !in staged
    ensures Restores(f, target, source, cfg, k + 1)
  {
    if k < DIRECTORIES {
      DirectoryExported(source, staged, cfg, k);
    } else {
      FileExported(source, staged, cfg, k);
    }
    hide Exports, CoveredBy;
    forall p | p in source ensures CoveredBy(cfg, k + 1, p) <==> CoveredBy(cfg, k, p) {
      CoveredMore(cfg, k, p);
    }
  }

  /**
   * What one layout exported, the same layout gets back: every file of every section at its own path with its bytes,
   * and nothing else; however the roots are nested, since each overlap is exported with both sections.
   */
  lemma {:induction false} SameLayout(
    target: Files, source: Files, staged: Files, cfg: Config, n: nat)
    requires n <= 5
    requires Tree(source) && Room(target, cfg) && Exports(staged, source, cfg)
    ensures Installed(target, staged, {}, cfg, n).Some?
    ensures Restores(Installed(target, staged, {}, cfg, n).value, target, source, cfg, n)
  {
    if n > 0 {
      var k: Section := n - 1;
      SameLayout(target, source, staged, cfg, k);
      var f := Installed(target, staged, {}, cfg, k).value;
      if k < DIRECTORIES {
        DirectoryExported(source, staged, cfg, k);
        if IsDir(staged, [SECTIONS[k]]) {
          DirectoryRestored(f, target, source, staged, cfg, k);
        } else {
          AbsentRestored(f, target, source, staged, cfg, k);
        }
      } else {
        FileExported(source, staged, cfg, k);
        if [SECTIONS[k]] in staged {
          FileRestored(f, target, source, staged, cfg, k);
        } else {
          AbsentRestored(f, target, source, staged, cfg, k);
        }
      }
    }
  }

  // -- Into another layout --------------------------------------------------------------------------

  /** No destination is at, inside or above another. */
  ghost predicate Separate(cfg: Config) {
    forall j: Section, k: Section | j < k :: !Related(Dest(cfg, j), Dest(cfg, k))
  }

  /** Every staged file of a section is at its home with its bytes, and nothing else is there. */
  ghost predicate Faithful(f: Option<Files>, staged: Files, cfg: Config) {
    && f.Some?
    && (forall a, k: Section | InSection(a, k) && a in staged ::
          Home(cfg, a, k) in f.value && f.value[Home(cfg, a, k)] == staged[a])
    && (forall p | p in f.value :: exists a, k: Section :: InSection(a, k) && a in staged && Home(cfg, a, k) == p)
  }

  lemma OneSection(cfg: Config, j: Section, k: Section, p: Path)
    requires Separate(cfg) && Dest(cfg, j) <= p && Dest(cfg, k) <= p
    ensures j == k
  {
    hide Dest, Related;
    PrefixesRelated(Dest(cfg, j), Dest(cfg, k), p);
    PrefixesRelated(Dest(cfg, k), Dest(cfg, j), p);
  }

  /** Where the file at p came from. */
  ghost function Origin(cfg: Config, p: Path): Path
    requires exists k: Section :: Covers(cfg, k, p)
  {
    var k: Section :| Covers(cfg, k, p);
    At(k, p[|Dest(cfg, k)|..])
  }

  ghost function Homes(staged: Files, cfg: Config): set<Path> {
    set a, k: Section | a in staged && InSection(a, k) :: Home(cfg, a, k)
  }

  /** The disk these sections would have come from under this layout. */
  ghost function Spread(staged: Files, cfg: Config): Files
    requires forall p | p in Homes(staged, cfg) :: (exists k: Section :: Covers(cfg, k, p)) && Origin(cfg, p) in staged
  {
    map p | p in Homes(staged, cfg) :: staged[Origin(cfg, p)]
  }

  lemma OriginOfHome(cfg: Config, a: Path, k: Section)
    requires Separate(cfg) && InSection(a, k)
    ensures Covers(cfg, k, Home(cfg, a, k)) && Origin(cfg, Home(cfg, a, k)) == a
  {
    CoversHome(cfg, k, a);
    var p := Home(cfg, a, k);
    forall j: Section | Covers(cfg, j, p) ensures j == k {
      OneSection(cfg, j, k, p);
    }
  }

  lemma SpreadDefined(staged: Files, cfg: Config)
    requires Separate(cfg)
    ensures forall p | p in Homes(staged, cfg) :: (exists k: Section :: Covers(cfg, k, p)) && Origin(cfg, p) in staged
  {
    forall p | p in Homes(staged, cfg) ensures (exists k: Section :: Covers(cfg, k, p)) && Origin(cfg, p) in staged {
      var a, k: Section :| a in staged && InSection(a, k) && Home(cfg, a, k) == p;
      OriginOfHome(cfg, a, k);
    }
  }

  lemma SpreadExports(staged: Files, cfg: Config)
    requires Separate(cfg) && Staged(staged)
    ensures (forall p | p in Homes(staged, cfg) :: (exists k: Section :: Covers(cfg, k, p)) && Origin(cfg, p) in staged)
    ensures Exports(staged, Spread(staged, cfg), cfg)
  {
    SpreadDefined(staged, cfg);
    forall a, k: Section | InSection(a, k)
      ensures a in staged <==> Home(cfg, a, k) in Homes(staged, cfg)
      ensures a in staged ==> Origin(cfg, Home(cfg, a, k)) == a
    {
      OriginOfHome(cfg, a, k);
      if Home(cfg, a, k) in Homes(staged, cfg) {
        var b, j: Section :| b in staged && InSection(b, j) && Home(cfg, b, j) == Home(cfg, a, k);
        OriginOfHome(cfg, b, j);
      }
    }
  }

  lemma SpreadTree(staged: Files, cfg: Config)
    requires Separate(cfg) && Staged(staged)
    ensures Apart(Homes(staged, cfg))
  {
    forall p, q | p in Homes(staged, cfg) && q in Homes(staged, cfg) ensures !Inside(p, q) {
      var a, j: Section :| a in staged && InSection(a, j) && Home(cfg, a, j) == p;
      var b, k: Section :| b in staged && InSection(b, k) && Home(cfg, b, k) == q;
      if Inside(p, q) {
        NestedHomes(cfg, a, j, b, k);
      }
    }
  }

  /** Of two nested files of a separate layout one came from inside the other. */
  lemma NestedHomes(cfg: Config, a: Path, j: Section, b: Path, k: Section)
    requires Separate(cfg) && InSection(a, j) && InSection(b, k) && Inside(Home(cfg, a, j), Home(cfg, b, k))
    ensures Inside(a, b)
  {
    var p, q := Home(cfg, a, j), Home(cfg, b, k);
    assert Dest(cfg, j) == p[..|Dest(cfg, j)|] == q[..|Dest(cfg, j)|];
    OneSection(cfg, j, k, q);
    assert a == [SECTIONS[j]] + p[|Dest(cfg, j)|..] && b == [SECTIONS[j]] + q[|Dest(cfg, j)|..];
  }

  /** A disk restored from what was spread holds each staged file at its home, and nothing else. */
  lemma RestoredIsFaithful(f: Files, staged: Files, cfg: Config)
    requires forall p | p in Homes(staged, cfg) :: (exists k: Section :: Covers(cfg, k, p)) && Origin(cfg, p) in staged
    requires Exports(staged, Spread(staged, cfg), cfg) && Restores(f, map[], Spread(staged, cfg), cfg, 5)
    ensures Faithful(Some(f), staged, cfg)
  {
    hide Covers, Dest, Origin, Exportable;
    var source := Spread(staged, cfg);
    forall a, k: Section | InSection(a, k) && a in staged
      ensures Home(cfg, a, k) in f && f[Home(cfg, a, k)] == staged[a]
    {
      CoversHome(cfg, k, a);
      assert CoveredBy(cfg, 5, Home(cfg, a, k));
      assert Home(cfg, a, k) in source;
    }
    forall p | p in f ensures exists a, k: Section :: InSection(a, k) && a in staged && Home(cfg, a, k) == p {
      assert p in Homes(staged, cfg);
    }
  }

  lemma SeparateIsFaithful(staged: Files, cfg: Config)
    requires Separate(cfg) && Staged(staged)
    ensures Faithful(Installed(map[], staged, {}, cfg, 5), staged, cfg)
  {
    hide Exports, Separate, Installed, Restores, Faithful, Staged, Homes;
    SpreadExports(staged, cfg);
    SpreadTree(staged, cfg);
    var source := Spread(staged, cfg);
    assert source.Keys == Homes(staged, cfg);
    assert Room(map[], cfg);
    SameLayout(map[], source, staged, cfg, 5);
    RestoredIsFaithful(Installed(map[], staged, {}, cfg, 5).value, staged, cfg);
  }

  /** Nothing of section k is staged. */
  predicate Unstaged(staged: Files, k: Section) {
    !IsDir(staged, [SECTIONS[k]]) && [SECTIONS[k]] !in staged
  }

  /** Sections that are not staged change nothing. */
  lemma {:induction false} Skips(files: Files, staged: Files, cfg: Config, m: nat, n: nat)
    requires m <= n <= 5 && forall k: Section | m <= k < n :: Unstaged(staged, k)
    ensures Installed(files, staged, {}, cfg, n) == Installed(files, staged, {}, cfg, m)
  {
    if m < n {
      Skips(files, staged, cfg, m, n - 1);
      var k: Section := n - 1;
      assert Unstaged(staged, k);
    }
  }

  /** A staging of two files, in two sections. */
  function Pair(j: Section, r: Path, k: Section, t: Path): Files {
    map[At(j, r) := [0], At(k, t) := [1]]
  }

  lemma SectionNames(i: Section, j: Section)
    ensures SECTIONS[i] == SECTIONS[j] <==> i == j
  {
  }

  lemma PairSection(j: Section, r: Path, k: Section, t: Path, i: Section)
    requires j < k && j < DIRECTORIES && r != [] && (t == [] <==> k >= DIRECTORIES)
    ensures var s := Pair(j, r, k, t);
      && (IsDir(s, [SECTIONS[i]]) <==> i == j || (i == k && k < DIRECTORIES))
      && ([SECTIONS[i]] in s <==> i == k && k >= DIRECTORIES)
  {
    var s := Pair(j, r, k, t);
    SectionNames(i, j);
    SectionNames(i, k);
    SectionNames(j, k);
    assert At(j, r) in s && At(k, t) in s && forall q | q in s :: q == At(j, r) || q == At(k, t);
    assert Inside([SECTIONS[j]], At(j, r)) && At(j, r)[0] == SECTIONS[j] && At(k, t)[0] == SECTIONS[k];
    if k < DIRECTORIES {
      assert Inside([SECTIONS[k]], At(k, t));
    } else {
      assert At(k, t) == [SECTIONS[k]];
    }
  }

  lemma PairStaged(j: Section, r: Path, k: Section, t: Path)
    requires j < k && j < DIRECTORIES && r != [] && (t == [] <==> k >= DIRECTORIES)
    ensures Staged(Pair(j, r, k, t)) && InSection(At(j, r), j) && InSection(At(k, t), k)
  {
    var s := Pair(j, r, k, t);
    SectionNames(j, k);
    assert At(j, r)[0] == SECTIONS[j] && At(k, t)[0] == SECTIONS[k];
    assert InSection(At(j, r), j) && InSection(At(k, t), k);
  }

  lemma InstallStep(files: Files, f: Files, staged: Files, cfg: Config, k: Section)
    requires Installed(files, staged, {}, cfg, k) == Some(f) && Installs(staged, {}, k)
    ensures Installed(files, staged, {}, cfg, k + 1) == Copied(f, staged, {}, [SECTIONS[k]], Dest(cfg, k))
  {
  }

  /** Installing such a pair is the first section into nothing, and then the second. */
  lemma PairInstalled(j: Section, r: Path, k: Section, t: Path, cfg: Config)
    requires j < k && j < DIRECTORIES && r != [] && (t == [] <==> k >= DIRECTORIES)
    ensures var s := Pair(j, r, k, t);
      Installed(map[], s, {}, cfg, 5)
      == Copied(Replaced(map[], s, [SECTIONS[j]], Dest(cfg, j)), s, {}, [SECTIONS[k]], Dest(cfg, k))
  {
    var s := Pair(j, r, k, t);
    forall i: Section ensures (i == j || i == k) != Unstaged(s, i) && (Installs(s, {}, i) || Unstaged(s, i)) {
      PairSection(j, r, k, t, i);
    }
    PairSection(j, r, k, t, j);
    CopiesDirectory(map[], s, [SECTIONS[j]], Dest(cfg, j));
    hide Copied, Replaced, IsDir, Pair, Unstaged, Dest;
    var first := Replaced(map[], s, [SECTIONS[j]], Dest(cfg, j));
    Skips(map[], s, cfg, 0, j);
    InstallStep(map[], map[], s, cfg, j);
    Skips(map[], s, cfg, j + 1, k);
    InstallStep(map[], first, s, cfg, k);
    Skips(map[], s, cfg, k + 1, 5);
  }

  lemma WipedFrom(files: Files, staged: Files, from: Path, to: Path, p: Path)
    requires IsDir(staged, from) && to <= p && from + p[|to|..] !in staged
    ensures var f := Copied(files, staged, {}, from, to); f.None? || p !in f.value
  {
  }

  lemma Elsewhere(j: Section, r: Path, k: Section, e: Path, p: Path)
    requires j < k && e <= p && p != [] && p[|p| - 1] == "x"
    ensures At(k, p[|e|..]) !in Pair(j, r, k, ["y"])
  {
    SectionNames(j, k);
    assert At(k, p[|e|..])[0] == SECTIONS[k] && At(j, r)[0] == SECTIONS[j];
    if |e| < |p| {
      assert p[|e|..][|p| - |e| - 1] == "x";
      assert At(k, p[|e|..])[|p| - |e|] == "x" && At(k, ["y"])[1] == "y";
    }
  }

  /** A file inside a later directory section is wiped when that section has some other file. */
  lemma Wiped(cfg: Config, j: Section, r: Path, k: Section)
    requires j < k < DIRECTORIES && r != [] && r[|r| - 1] == "x" && Dest(cfg, k) <= Dest(cfg, j) + r
    ensures !Faithful(Installed(map[], Pair(j, r, k, ["y"]), {}, cfg, 5), Pair(j, r, k, ["y"]), cfg)
  {
    var s := Pair(j, r, k, ["y"]);
    var e, p := Dest(cfg, k), Dest(cfg, j) + r;
    PairStaged(j, r, k, ["y"]);
    PairSection(j, r, k, ["y"], k);
    PairInstalled(j, r, k, ["y"], cfg);
    assert Home(cfg, At(j, r), j) == p && At(j, r) in s;
    Elsewhere(j, r, k, e, p);
    hide Copied, Replaced, Installed, Landing, IsDir, Pair, Staged, Dest;
    WipedFrom(Replaced(map[], s, [SECTIONS[j]], Dest(cfg, j)), s, [SECTIONS[k]], e, p);
  }

  /** A single file either takes the place of a file of an earlier section or finds a directory there. */
  lemma Displaced(cfg: Config, j: Section, r: Path, k: Section)
    requires j < DIRECTORIES <= k && r != [] && Dest(cfg, k) <= Dest(cfg, j) + r
    ensures !Faithful(Installed(map[], Pair(j, r, k, []), {}, cfg, 5), Pair(j, r, k, []), cfg)
  {
    var s := Pair(j, r, k, []);
    var d, e, p := Dest(cfg, j), Dest(cfg, k), Dest(cfg, j) + r;
    PairStaged(j, r, k, []);
    PairSection(j, r, k, [], k);
    PairInstalled(j, r, k, [], cfg);
    assert Home(cfg, At(j, r), j) == p;
    var first := Replaced(map[], s, [SECTIONS[j]], d);
    assert [SECTIONS[j]] + p[|d|..] == At(j, r);
    assert p in first;
    SectionNames(j, k);
    if e == p {
      assert s[At(j, r)] == [0] && s[[SECTIONS[k]]] == [1] by { assert At(k, []) == [SECTIONS[k]]; }
    } else {
      assert Inside(e, p);
    }
  }

  lemma OwnNames(cfg: Config, j: Section, k: Section)
    requires 2 <= j < k
    ensures !Related(Dest(cfg, j), Dest(cfg, k))
  {
    SectionNames(j, k);
    assert Dest(cfg, j)[|cfg.dataDir|] == SECTIONS[j] && Dest(cfg, k)[|cfg.dataDir|] == SECTIONS[k];
  }

  /** Where two destinations meet, some export of another layout cannot be installed whole. */
  lemma RelatedIsUnfaithful(cfg: Config, j: Section, k: Section)
    requires j < k && Related(Dest(cfg, j), Dest(cfg, k))
    ensures exists staged :: Staged(staged) && !Faithful(Installed(map[], staged, {}, cfg, 5), staged, cfg)
  {
    hide Faithful, Installed, Staged;
    var d, e := Dest(cfg, j), Dest(cfg, k);
    if j >= 2 { OwnNames(cfg, j, k); }
    var below := if d <= e then e[|d|..] else [];
    assert e <= d + below + ["x"] && (d <= e ==> e == d + below);
    if k < DIRECTORIES {
      assert d + (below + ["x"]) == d + below + ["x"];
      Wiped(cfg, j, below + ["x"], k);
      PairStaged(j, below + ["x"], k, ["y"]);
    } else {
      var r := if below == [] then ["x"] else below;
      Displaced(cfg, j, r, k);
      PairStaged(j, r, k, []);
    }
  }

  /** Exports of any layout are installed whole into this one exactly when its five destinations are separate. */
  lemma AnyLayout(cfg: Config)
    ensures Separate(cfg) <==>
            forall staged | Staged(staged) :: Faithful(Installed(map[], staged, {}, cfg, 5), staged, cfg)
  {
    hide Faithful, Staged, Installed;
    if Separate(cfg) {
      forall staged | Staged(staged) ensures Faithful(Installed(map[], staged, {}, cfg, 5), staged, cfg) {
        SeparateIsFaithful(staged, cfg);
      }
    } else {
      var j: Section, k: Section :| j < k && Related(Dest(cfg, j), Dest(cfg, k));
      RelatedIsUnfaithful(cfg, j, k);
    }
  }

  /** The layout a server has when nothing else is configured. */
  lemma DefaultIsSeparate(dataDir: Path)
    ensures Separate(Config(dataDir, dataDir + ["mail"], dataDir + ["attachments"]))
  {
    var cfg := Config(dataDir, dataDir + ["mail"], dataDir + ["attachments"]);
    forall j: Section, k: Section | j < k ensures !Related(Dest(cfg, j), Dest(cfg, k)) {
      SectionNames(j, k);
      assert Dest(cfg, j) == dataDir + [SECTIONS[j]] && Dest(cfg, k) == dataDir + [SECTIONS[k]];
      assert Dest(cfg, j)[|dataDir|] == SECTIONS[j] && Dest(cfg, k)[|dataDir|] == SECTIONS[k];
    }
  }
}
