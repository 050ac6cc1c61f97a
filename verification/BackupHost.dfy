/** The machine an import writes to: its files, its database, and any step of it failing at any time. */
module BackupHost {
  import opened Wrappers
  import opened BackupArchive
  import opened BackupLayout

  /** Missing, without tables, or with the accounts its users table lists. */
  datatype Database = Missing | Bare | Tables(accounts: set<string>)

  /** A failing step may still have done part of its work: removed some files, or loaded some accounts. */
  datatype Answer = Done | Fails(lost: set<Path>, loaded: set<string>)

  datatype Event =
    | Verified
    | DatabaseCreated | SchemaWiped | DumpLoaded | DumpBroken
    | Obstructed(path: Path) | MadeDir(path: Path) | Removed(path: Path) | Wrote(path: Path)

  function Accounts(d: Database): set<string> {
    if d.Tables? then d.accounts else {}
  }

  predicate Quiet(answers: seq<Answer>) {
    forall i | 0 <= i < |answers| :: answers[i].Done?
  }

  function Parent(p: Path): Path
    requires p != []
  {
    p[..|p| - 1]
  }

  lemma AboveParent(files: Files, p: Path)
    requires p != []
    ensures Blocked(files, p) <==> Parent(p) in files || Blocked(files, Parent(p))
  {
    forall q | Inside(q, p) ensures q == Parent(p) || Inside(q, Parent(p)) {
      assert Parent(p)[..|q|] == q;
      if |q| == |Parent(p)| { assert q == Parent(p); }
    }
    if Parent(p) in files { assert Inside(Parent(p), p); }
    forall q | Inside(q, Parent(p)) ensures Inside(q, p) {
    }
  }

  function Ancestors(p: Path): set<Path> {
    set i | 0 <= i <= |p| :: p[..i]
  }

  /** Files with their bytes, and directories; a directory with something inside need not be listed. */
  datatype Disk = Disk(files: Files, dirs: set<Path>) {
    predicate NonEmpty(root: Path) {
      IsDir(files, root) || exists d | d in dirs :: Inside(root, d)
    }

    predicate Directory(p: Path) {
      p == [] || p in dirs || NonEmpty(p)
    }

    /** The directories that making p makes. */
    function Missing(p: Path): set<Path> {
      set q | q in Ancestors(p) && !Directory(q)
    }
  }

  function Last(t: seq<Event>): Event
    requires t != []
  {
    t[|t| - 1]
  }

  /** Events that write files or directories. */
  predicate TouchesFiles(e: Event) {
    e.MadeDir? || e.Removed? || e.Wrote?
  }

  /** From before to now only files were touched, or something stood in the way. */
  ghost predicate OnlyFiles(before: seq<Event>, now: seq<Event>) {
    before <= now && forall i | |before| <= i < |now| :: TouchesFiles(now[i]) || now[i].Obstructed?
  }

  lemma OnlyFilesJoin(a: seq<Event>, b: seq<Event>, c: seq<Event>)
    requires OnlyFiles(a, b) && (OnlyFiles(b, c) || b == c)
    ensures OnlyFiles(a, c) && a <= b <= c && OnlyFiles(a, a)
  {
  }

  class Host {
    var answers: seq<Answer>
    var files: Files
    var dirs: set<Path>
    /** Directories whose listing fails. */
    const unlistable: set<Path>
    var database: Database
    ghost var trace: seq<Event>

    constructor (answers: seq<Answer>, files: Files, dirs: set<Path>, unlistable: set<Path>, database: Database)
      ensures this.answers == answers && this.files == files && this.dirs == dirs && this.unlistable == unlistable
      ensures this.database == database && trace == []
    {
      this.answers, this.files, this.dirs, this.unlistable, this.database := answers, files, dirs, unlistable, database;
      trace := [];
    }

    function State(): Disk
      reads this`files, this`dirs
    {
      Disk(files, dirs)
    }

    predicate NonEmpty(root: Path)
      reads this`files, this`dirs
    {
      State().NonEmpty(root)
    }

    predicate Exists(p: Path)
      reads this`files, this`dirs
    {
      p in files || p in dirs || NonEmpty(p)
    }

    /** The next step does its work, or fails; past the last answer every step works. */
    method Next() returns (a: Answer)
      modifies this`answers
      ensures Quiet(old(answers)) ==> a.Done? && Quiet(answers)
      ensures old(answers) != [] ==> a == old(answers)[0] && answers == old(answers)[1..]
      ensures old(answers) == [] ==> a.Done? && answers == []
    {
      a := Done;
      if answers != [] { a, answers := answers[0], answers[1..]; }
    }

    /** A step that changes nothing here. */
    method Step() returns (ok: bool)
      modifies this`answers
      ensures Quiet(old(answers)) ==> ok && Quiet(answers)
    {
      var a := Next();
      ok := a.Done?;
    }

    /** Puts on record that the archive is verified. */
    ghost method Confirm()
      modifies this`trace
      ensures trace == old(trace) + [Verified]
    {
      trace := trace + [Verified];
    }

    // -- The database -----------------------------------------------------------------------------

    method CreateDatabaseIfMissing() returns (ok: bool)
      modifies this`answers, this`database, this`trace
      ensures database == if ok && old(database).Missing? then Bare else old(database)
      ensures trace == if ok && old(database).Missing? then old(trace) + [DatabaseCreated] else old(trace)
      ensures Quiet(old(answers)) ==> ok && Quiet(answers)
    {
      ok := Step();
      if ok && database.Missing? {
        database := Bare;
        trace := trace + [DatabaseCreated];
      }
    }

    /** Drops the schema with all its rows, and makes an empty one. */
    method WipeSchema() returns (ok: bool)
      modifies this`answers, this`database, this`trace
      ensures (database == Bare && trace == old(trace) + [SchemaWiped])
           || (!ok && database == old(database) && trace == old(trace))
      ensures Quiet(old(answers)) ==> ok && Quiet(answers)
    {
      ok := Step();
      if ok {
        database := Bare;
        trace := trace + [SchemaWiped];
        ok := Step();
      }
    }

    /** Loads the dump into a database without tables; when it stops half way some accounts may be there. */
    method Restore(dump: Option<Bytes>, load: Bytes -> Option<set<string>>) returns (ok: bool)
      modifies this`answers, this`database, this`trace
      ensures ok ==> dump.Some? && load(dump.value).Some? && database == Tables(load(dump.value).value)
      ensures ok ==> old(database).Bare? && trace == old(trace) + [DumpLoaded]
      ensures !ok ==> trace == old(trace) + [DumpBroken] && (old(database) != Bare ==> database == old(database))
      ensures Quiet(old(answers)) ==> Quiet(answers)
      ensures Quiet(old(answers)) && dump.Some? && load(dump.value).Some? && old(database).Bare? ==> ok
    {
      var a := Next();
      ok := a.Done? && dump.Some? && load(dump.value).Some? && database.Bare?;
      if ok {
        database := Tables(load(dump.value).value);
        trace := trace + [DumpLoaded];
      } else {
        if a.Fails? && database.Bare? { database := Tables(a.loaded); }
        trace := trace + [DumpBroken];
      }
    }

    // -- Files ------------------------------------------------------------------------------------

    /** Whether a directory has entries; one that cannot be listed counts as having none. */
    method DirIsNonEmpty(root: Path) returns (r: bool)
      ensures r <==> NonEmpty(root) && root !in unlistable
    {
      r := root !in unlistable && NonEmpty(root);
    }

    /** Removes a directory tree; a failure may have removed some of its files. */
    method RemoveTree(root: Path) returns (ok: bool)
      modifies this`answers, this`files, this`dirs, this`trace
      ensures Without(files, root) == Without(old(files), root)
      ensures ok ==> files == Without(old(files), root) && root !in old(files)
      ensures ok ==> trace == old(trace) + [Removed(root)] && forall d :: d in dirs <==> d in old(dirs) && !(root <= d)
      ensures !ok ==> trace == old(trace) + [Removed(root)] || trace == old(trace) + [Obstructed(root)]
      ensures !ok ==> dirs == old(dirs)
      ensures Quiet(old(answers)) ==> Quiet(answers) && (!ok ==> root in old(files) && Last(trace) == Obstructed(root))
    {
      var a := Next();
      if root in files {
        trace := trace + [Obstructed(root)];
        ok := false;
      } else if a.Done? {
        files := Without(files, root);
        dirs := set d | d in dirs && !(root <= d);
        trace := trace + [Removed(root)];
        ok := true;
      } else {
        files := map p | p in files && !(root <= p && p in a.lost) :: files[p];
        trace := trace + [Removed(root)];
        ok := false;
      }
    }

    /** Makes a directory and those above it that are missing, unless a file is in the way. */
    method CreateDirAll(p: Path) returns (ok: bool)
      modifies this`answers, this`dirs, this`trace
      ensures ok ==> dirs == old(dirs) + old(State().Missing(p)) && p !in files && !Blocked(files, p)
      ensures ok ==> trace == if old(State().Directory(p)) then old(trace) else old(trace) + [MadeDir(p)]
      ensures ok ==> State().Directory(p)
      ensures !ok ==> dirs == old(dirs) && (trace == old(trace) || trace == old(trace) + [Obstructed(p)])
      ensures Quiet(old(answers)) ==> Quiet(answers) && (!ok ==> trace == old(trace) + [Obstructed(p)])
      ensures Quiet(old(answers)) ==> (ok <==> p !in files && !Blocked(files, p))
    {
      var a := Next();
      ok := false;
      if p in files || Blocked(files, p) {
        trace := trace + [Obstructed(p)];
      } else if a.Done? {
        if !State().Directory(p) { trace := trace + [MadeDir(p)]; }
        assert p in Ancestors(p) by { assert p[..|p|] == p; }
        dirs := dirs + State().Missing(p);
        ok := true;
      }
    }

    /** Writes one file where no directory is; a failure may leave it cut short. */
    method CopyFile(p: Path, data: Bytes) returns (ok: bool)
      modifies this`answers, this`files, this`trace
      ensures ok ==> files == old(files)[p := data] && trace == old(trace) + [Wrote(p)]
      ensures ok ==> !old(State().Directory(p)) && !Blocked(old(files), p)
      ensures !ok ==> files == old(files) || files == old(files)[p := []]
      ensures !ok ==> trace == old(trace) || trace == old(trace) + [Wrote(p)] || trace == old(trace) + [Obstructed(p)]
      ensures !ok && trace != old(trace) + [Wrote(p)] ==> files == old(files)
      ensures Quiet(old(answers)) ==> Quiet(answers) && (!ok ==> trace == old(trace) + [Obstructed(p)])
      ensures Quiet(old(answers)) && p != [] ==>
        (ok <==> !old(State().Directory(p)) && !Blocked(old(files), p) && old(State().Directory(Parent(p))))
    {
      var a := Next();
      ok := false;
      if p == [] || State().Directory(p) || Blocked(files, p) || !State().Directory(Parent(p)) {
        trace := trace + [Obstructed(p)];
      } else if a.Done? {
        files := files[p := data];
        trace := trace + [Wrote(p)];
        ok := true;
      } else if p in a.lost {
        files := files[p := []];
        trace := trace + [Wrote(p)];
      }
    }

    /** Lets go of everything at or inside a directory of the program's own. */
    method Drop(place: Path)
      modifies this`files, this`dirs
      ensures files == Without(old(files), place)
      ensures forall d :: d in dirs <==> d in old(dirs) && !(place <= d)
    {
      files := Without(files, place);
      dirs := set d | d in dirs && !(place <= d);
    }
  }
}
