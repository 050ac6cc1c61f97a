/** Extracting an archive with every member verified, to wherever its stated names lead from the staging directory. */
module BackupExtract {
  import opened Wrappers
  import opened BackupArchive
  import opened BackupLayout
  import opened BackupHost

  // -- Where a name leads ------------------------------------------------------------------------

  predicate Ordinary(piece: string) {
    piece != "" && piece != "." && piece != ".."
  }

  /** A name made of file names only. */
  predicate Plain(name: Name) {
    name != [] && forall piece | piece in name :: Ordinary(piece)
  }

  function Step(at: Path, piece: string): Path {
    if piece == "" || piece == "." then at
    else if piece == ".." then if at == [] then [] else Parent(at)
    else at + [piece]
  }

  function Follow(at: Path, pieces: seq<string>): Path {
    if |pieces| == 0 then at else Step(Follow(at, pieces[..|pieces| - 1]), pieces[|pieces| - 1])
  }

  predicate Absolute(name: Name) {
    |name| > 1 && name[0] == ""
  }

  /** Joining puts a name behind the staging directory, except that an absolute name takes its place. */
  function Start(stage: Path, name: Name): Path {
    if Absolute(name) then [] else stage
  }

  function Place(stage: Path, name: Name): Path {
    Follow(Start(stage, name), name)
  }

  /** Where the first n pieces lead. */
  function On(stage: Path, name: Name, n: nat): Path
    requires n <= |name|
  {
    Follow(Start(stage, name), name[..n])
  }

  /** How many pieces name the parent directory: those before the last one that is not empty or a dot. */
  function Lead(name: Name): (n: nat)
    ensures n <= |name| && (name != [] ==> n < |name|)
  {
    if |name| == 0 then 0
    else if name[|name| - 1] == "" || name[|name| - 1] == "." then Lead(name[..|name| - 1])
    else |name| - 1
  }

  /** A file can have this name: it ends in a file name. */
  predicate Nameable(name: Name) {
    name != [] && Ordinary(name[|name| - 1])
  }

  lemma NameableLead(name: Name)
    requires Nameable(name)
    ensures Lead(name) == |name| - 1
    ensures forall stage :: Place(stage, name) == On(stage, name, |name| - 1) + [name[|name| - 1]]
  {
  }

  lemma {:induction false} PlainFollow(at: Path, pieces: seq<string>)
    requires forall piece | piece in pieces :: Ordinary(piece)
    ensures Follow(at, pieces) == at + pieces
  {
    if |pieces| > 0 {
      var n := |pieces| - 1;
      assert pieces[n] in pieces;
      PlainFollow(at, pieces[..n]);
      assert pieces == pieces[..n] + [pieces[n]];
    } else {
      assert at + pieces == at;
    }
  }

  lemma {:induction false} FollowOn(at: Path, pieces: seq<string>, more: seq<string>)
    ensures Follow(at, pieces + more) == Follow(Follow(at, pieces), more)
  {
    var all := pieces + more;
    if |more| == 0 {
      assert all == pieces;
    } else {
      var n := |more| - 1;
      FollowOn(at, pieces, more[..n]);
      assert all[..|all| - 1] == pieces + more[..n];
    }
  }

  lemma OneStep(at: Path, piece: string)
    ensures Follow(at, [piece]) == Step(at, piece)
  {
    assert [piece][..0] == [];
  }

  lemma TwoSteps(at: Path, first: string, second: string)
    ensures Follow(at, [first, second]) == Step(Step(at, first), second)
  {
    assert [first, second] == [first] + [second];
    FollowOn(at, [first], [second]);
    OneStep(at, first);
    OneStep(Step(at, first), second);
  }

  /** Inside a name an empty piece or a dot leads nowhere, and two dots take back the file name before them. */
  lemma NameShortens(stage: Path, front: Name, piece: string, name: string, rest: Name)
    requires front != [] && (front != [""] || rest != []) && (piece == "" || piece == ".")
    requires name != "" && name != "." && name != ".."
    ensures Place(stage, front + [piece] + rest) == Place(stage, front + rest)
    ensures Place(stage, front + [name, ".."] + rest) == Place(stage, front + rest)
  {
    var start := Start(stage, front + rest);
    assert Start(stage, front + [piece] + rest) == start == Start(stage, front + [name, ".."] + rest);
    hide Follow, Start;
    FollowOn(start, front, rest);
    FollowOn(start, front + [piece], rest);
    FollowOn(start, front, [piece]);
    OneStep(Follow(start, front), piece);
    FollowOn(start, front + [name, ".."], rest);
    FollowOn(start, front, [name, ".."]);
    TwoSteps(Follow(start, front), name, "..");
  }

  /** From the root on when a slash comes first; two dots at the front leave the directory the name starts from. */
  lemma NameLeaves(at: Path, name: string, rest: Name)
    requires rest != []
    ensures Place(at, [""] + rest) == Place([], rest)
    ensures Place(at + [name], [".."] + rest) == Follow(at, rest) && Place([], [".."] + rest) == Follow([], rest)
  {
    FollowOn([], [""], rest);
    OneStep([], "");
    FollowOn(at + [name], [".."], rest);
    OneStep(at + [name], "..");
    FollowOn([], [".."], rest);
    OneStep([], "..");
    assert Start([], rest) == [];
  }

  /** A plain name leads straight into the staging directory. */
  lemma PlainPlace(stage: Path, name: Name)
    requires Plain(name)
    ensures Place(stage, name) == stage + name && Start(stage, name) == stage
    ensures forall n | 0 <= n <= |name| :: On(stage, name, n) == stage + name[..n]
    ensures Nameable(name)
  {
    assert name[0] in name && name[|name| - 1] in name;
    PlainFollow(stage, name);
    forall n | 0 <= n <= |name| ensures On(stage, name, n) == stage + name[..n] {
      PlainFollow(stage, name[..n]);
    }
  }

  // -- What storing does to a disk -----------------------------------------------------------------

  function MakeDir(disk: Disk, p: Path): Option<Disk> {
    if p in disk.files || Blocked(disk.files, p) then None
    else Some(disk.(dirs := disk.dirs + disk.Missing(p)))
  }

  /** The directories on the way made, one after the other. */
  function Way(disk: Disk, stage: Path, name: Name, n: nat): Option<Disk>
    requires n <= |name|
  {
    if n == 0 then MakeDir(disk, Start(stage, name))
    else
      var before := Way(disk, stage, name, n - 1);
      if before.None? then None else MakeDir(before.value, On(stage, name, n))
  }

  /** The disk after the bytes are stored under this name, if its way is free and no directory is at its place. */
  function Put(disk: Disk, stage: Path, name: Name, data: Bytes): Option<Disk> {
    var way := Way(disk, stage, name, Lead(name));
    if way.None? || !Nameable(name) || way.value.Directory(Place(stage, name)) then None
    else Some(way.value.(files := way.value.files[Place(stage, name) := data]))
  }

  function PutEntry(disk: Disk, stage: Path, e: Entry): Option<Disk> {
    if e.path == MANIFEST_PATH then Some(disk) else Put(disk, stage, e.path, e.data)
  }

  function PutAll(disk: Disk, stage: Path, entries: seq<Entry>): Option<Disk> {
    if |entries| == 0 then Some(disk)
    else
      var before := PutAll(disk, stage, entries[..|entries| - 1]);
      if before.None? then None else PutEntry(before.value, stage, entries[|entries| - 1])
  }

  lemma PutOneMore(disk: Disk, stage: Path, entries: seq<Entry>, i: nat)
    requires i < |entries|
    ensures var before := PutAll(disk, stage, entries[..i]);
      PutAll(disk, stage, entries[..i + 1]) == if before.None? then None else PutEntry(before.value, stage, entries[i])
  {
    assert entries[..i + 1][..i] == entries[..i];
  }

  lemma {:induction false} PutFront(disk: Disk, stage: Path, entries: seq<Entry>, i: nat)
    requires i <= |entries| && PutAll(disk, stage, entries).Some?
    ensures PutAll(disk, stage, entries[..i]).Some?
  {
    if i < |entries| {
      PutFront(disk, stage, entries[..|entries| - 1], i);
      assert entries[..|entries| - 1][..i] == entries[..i];
    } else {
      assert entries[..i] == entries;
    }
  }

  // -- Staying inside --------------------------------------------------------------------------------

  /** Every directory above the staging directory exists. */
  ghost predicate Anchored(disk: Disk, stage: Path) {
    forall q | q in Ancestors(stage) && q != stage && q != [] :: q in disk.dirs
  }

  /** The same files and directories except at and inside the staging directory. */
  ghost predicate SameBeyond(a: Disk, b: Disk, stage: Path) {
    forall q | !(stage <= q) ::
      && (q in a.files <==> q in b.files) && (q in a.files ==> a.files[q] == b.files[q])
      && (q in a.dirs <==> q in b.dirs)
  }

  /** Between before and now something was made, removed or written beyond the staging directory. */
  ghost predicate Wandered(before: seq<Event>, now: seq<Event>, stage: Path) {
    exists i | |before| <= i < |now| :: Beyond(now[i], stage)
  }

  predicate Beyond(e: Event, stage: Path) {
    TouchesFiles(e) && !(stage <= e.path)
  }

  /** Some of the first n directories of the way is beyond the staging directory and missing. */
  ghost predicate StraysEarly(disk: Disk, stage: Path, name: Name, n: nat)
    requires n <= |name|
  {
    exists m | 0 < m <= n :: !(stage <= On(stage, name, m)) && !disk.Directory(On(stage, name, m))
  }

  /** How many of the first n pieces of the way can be followed before something stands in it. */
  function Passed(disk: Disk, stage: Path, name: Name, n: nat): (m: nat)
    requires n <= |name|
    ensures m <= n
  {
    if n == 0 || Way(disk, stage, name, n).Some? then n else Passed(disk, stage, name, n - 1)
  }

  /** A directory beyond the staging directory is missing on the way, before what stands in it. */
  ghost predicate StraysFirst(disk: Disk, stage: Path, name: Name) {
    StraysEarly(disk, stage, name, Passed(disk, stage, name, Lead(name)))
  }

  lemma PassedAll(disk: Disk, stage: Path, name: Name)
    requires Way(disk, stage, name, Lead(name)).Some?
    ensures StraysFirst(disk, stage, name) <==> StraysEarly(disk, stage, name, Lead(name))
  {
  }

  lemma {:induction false} PassedUpTo(disk: Disk, stage: Path, name: Name, m: nat, n: nat)
    requires m <= n <= |name| && (m == 0 || Way(disk, stage, name, m).Some?)
    requires m < n ==> Way(disk, stage, name, m + 1).None?
    ensures Passed(disk, stage, name, n) == m
    decreases n
  {
    if m < n {
      WayFront(disk, stage, name, m + 1, n);
      PassedUpTo(disk, stage, name, m, n - 1);
    }
  }

  /** The name leads out of the staging directory, or its way needs a directory out there that is missing. */
  ghost predicate Strays(disk: Disk, stage: Path, name: Name) {
    !(stage <= Place(stage, name)) || StraysEarly(disk, stage, name, Lead(name))
  }

  lemma WanderedSplit(a: seq<Event>, b: seq<Event>, c: seq<Event>, stage: Path)
    requires a <= b <= c
    ensures Wandered(a, c, stage) <==> Wandered(a, b, stage) || Wandered(b, c, stage)
  {
    if Wandered(a, b, stage) {
      var i :| |a| <= i < |b| && Beyond(b[i], stage);
      assert Beyond(c[i], stage);
    }
    if Wandered(a, c, stage) {
      var i :| |a| <= i < |c| && Beyond(c[i], stage);
      if i < |b| { assert Beyond(b[i], stage); }
    }
  }

  lemma SameDirectory(a: Disk, b: Disk, stage: Path, q: Path)
    requires SameBeyond(a, b, stage) && Anchored(a, stage) && !(stage <= q)
    ensures a.Directory(q) <==> b.Directory(q)
  {
    if q <= stage {
      assert stage[..|q|] == q;
      assert q in Ancestors(stage);
    } else {
      forall x | Inside(q, x) ensures !(stage <= x) {
        PrefixesRelated(stage, q, x);
      }
    }
  }

  lemma StraysSame(a: Disk, b: Disk, stage: Path, name: Name)
    requires SameBeyond(a, b, stage) && Anchored(a, stage)
    ensures Strays(a, stage, name) <==> Strays(b, stage, name)
  {
    forall q | !(stage <= q) ensures a.Directory(q) <==> b.Directory(q) {
      SameDirectory(a, b, stage, q);
    }
  }

  lemma MissingInside(disk: Disk, stage: Path, p: Path)
    requires Anchored(disk, stage) && stage <= p
    ensures forall q | q in disk.Missing(p) :: stage <= q
  {
    forall i | 0 <= i < |stage| ensures disk.Directory(p[..i]) {
      assert p[..i] == stage[..i];
      assert stage[..i] in Ancestors(stage);
    }
    forall q | q in disk.Missing(p) ensures stage <= q {
      var i :| 0 <= i <= |p| && q == p[..i];
      if i >= |stage| { assert p[..i][..|stage|] == p[..|stage|]; }
    }
  }

  lemma NothingMissing(disk: Disk, p: Path)
    requires disk.Directory(p)
    ensures disk.Missing(p) == {}
  {
    forall q | q in Ancestors(p) ensures disk.Directory(q) {
      var i :| 0 <= i <= |p| && q == p[..i];
      if q != p && q != [] {
        assert Inside(q, p);
        if p !in disk.dirs {
          assert forall x | Inside(p, x) :: Inside(q, x);
        }
      }
    }
  }

  /** Makes one directory of the way. */
  method Enter(host: Host, p: Path, stage: Path) returns (ok: bool)
    requires Anchored(host.State(), stage)
    modifies host`answers, host`dirs, host`trace
    ensures Anchored(host.State(), stage) && OnlyFiles(old(host.trace), host.trace)
    ensures ok ==> MakeDir(old(host.State()), p) == Some(host.State())
    ensures Quiet(old(host.answers)) ==> Quiet(host.answers) && (ok <==> MakeDir(old(host.State()), p).Some?)
    ensures !ok || stage <= p || old(host.State()).Directory(p) ==>
      SameBeyond(old(host.State()), host.State(), stage) && !Wandered(old(host.trace), host.trace, stage)
    ensures ok && !(stage <= p) && !old(host.State()).Directory(p) ==> Wandered(old(host.trace), host.trace, stage)
  {
    ghost var before, events := host.State(), host.trace;
    ok := host.CreateDirAll(p);
    if before.Directory(p) { NothingMissing(before, p); }
    if stage <= p { MissingInside(before, stage, p); }
    if ok && !(stage <= p) && !before.Directory(p) { assert Beyond(host.trace[|events|], stage); }
  }

  lemma WayFront(disk: Disk, stage: Path, name: Name, m: nat, n: nat)
    requires m <= n <= |name| && Way(disk, stage, name, m).None?
    ensures Way(disk, stage, name, n).None?
  {
  }

  lemma StraysStep(a: Disk, b: Disk, stage: Path, name: Name, n: nat)
    requires SameBeyond(a, b, stage) && Anchored(a, stage) && 0 < n <= |name|
    ensures StraysEarly(a, stage, name, n) <==>
            StraysEarly(a, stage, name, n - 1) || (!(stage <= On(stage, name, n)) && !b.Directory(On(stage, name, n)))
  {
    var q := On(stage, name, n);
    if !(stage <= q) { SameDirectory(a, b, stage, q); }
  }

  lemma SameTwice(a: Disk, b: Disk, c: Disk, stage: Path)
    requires SameBeyond(a, b, stage) && SameBeyond(b, c, stage)
    ensures SameBeyond(a, c, stage)
  {
  }

  lemma WayStarts(stage: Path, name: Name)
    ensures On(stage, name, 0) == Start(stage, name) && (stage <= Start(stage, name) || Start(stage, name) == [])
  {
  }

  /** Makes the directories of the way, as far as it is free. */
  method MakeWay(host: Host, stage: Path, name: Name) returns (ok: bool)
    requires Anchored(host.State(), stage)
    modifies host`answers, host`dirs, host`trace
    ensures Anchored(host.State(), stage) && OnlyFiles(old(host.trace), host.trace)
    ensures ok ==> Way(old(host.State()), stage, name, Lead(name)) == Some(host.State())
    ensures Quiet(old(host.answers)) ==>
      Quiet(host.answers) && (ok <==> Way(old(host.State()), stage, name, Lead(name)).Some?)
    ensures !StraysEarly(old(host.State()), stage, name, Lead(name)) ==>
      SameBeyond(old(host.State()), host.State(), stage) && !Wandered(old(host.trace), host.trace, stage)
    ensures ok && StraysEarly(old(host.State()), stage, name, Lead(name)) ==>
      Wandered(old(host.trace), host.trace, stage)
    ensures Quiet(old(host.answers)) ==>
      (Wandered(old(host.trace), host.trace, stage) <==> StraysFirst(old(host.State()), stage, name))
    ensures !Wandered(old(host.trace), host.trace, stage) ==> SameBeyond(old(host.State()), host.State(), stage)
  {
    WayStarts(stage, name);
    hide Quiet, Anchored, SameBeyond, Wandered, MakeDir, Place, Follow;
    ghost var before, events := host.State(), host.trace;
    ok := Enter(host, Start(stage, name), stage);
    ghost var lead := Lead(name);
    if !ok {
      if Way(before, stage, name, 0).None? {
        WayFront(before, stage, name, 0, lead);
        if lead > 0 { WayFront(before, stage, name, 0, 1); }
        PassedUpTo(before, stage, name, 0, lead);
      }
      return;
    }
    for n := 0 to Lead(name)
      invariant Anchored(host.State(), stage) && OnlyFiles(events, host.trace)
      invariant Way(before, stage, name, n) == Some(host.State())
      invariant Quiet(old(host.answers)) ==> Quiet(host.answers)
      invariant Wandered(events, host.trace, stage) <==> StraysEarly(before, stage, name, n)
      invariant !Wandered(events, host.trace, stage) ==> SameBeyond(before, host.State(), stage)
    {
      ghost var middle, so := host.State(), host.trace;
      ok := Enter(host, On(stage, name, n + 1), stage);
      WanderedSplit(events, so, host.trace, stage);
      if !Wandered(events, so, stage) {
        StraysStep(before, middle, stage, name, n + 1);
        if !Wandered(so, host.trace, stage) { SameTwice(before, middle, host.State(), stage); }
      }
      if !ok {
        if Way(before, stage, name, n + 1).None? {
          WayFront(before, stage, name, n + 1, lead);
          PassedUpTo(before, stage, name, n, lead);
        }
        return;
      }
    }
    PassedAll(before, stage, name);
    ok := true;
  }

  lemma {:induction false} WayEnds(disk: Disk, stage: Path, name: Name, n: nat)
    requires n <= |name| && Way(disk, stage, name, n).Some?
    ensures var way, q := Way(disk, stage, name, n).value, On(stage, name, n);
      way.files == disk.files && way.Directory(q) && q !in way.files && !Blocked(way.files, q)
  {
    hide Blocked;
    if n > 0 { WayEnds(disk, stage, name, n - 1); }
    var before := if n == 0 then disk else Way(disk, stage, name, n - 1).value;
    var q := On(stage, name, n);
    assert q in Ancestors(q) by { assert q[..|q|] == q; }
  }

  /** Where a file is to be written: beside a directory that is there, with nothing in the way. */
  lemma ReadyToWrite(disk: Disk, stage: Path, name: Name)
    requires Nameable(name) && Way(disk, stage, name, Lead(name)).Some?
    ensures var way, p := Way(disk, stage, name, Lead(name)).value, Place(stage, name);
      p != [] && way.Directory(Parent(p)) && !Blocked(way.files, p) && way.files == disk.files
  {
    WayEnds(disk, stage, name, Lead(name));
    NameableLead(name);
    var p := Place(stage, name);
    assert Parent(p) == On(stage, name, Lead(name));
    AboveParent(disk.files, p);
  }

  /** Writes the file itself. */
  method WriteAt(host: Host, p: Path, data: Bytes, stage: Path) returns (ok: bool)
    requires Anchored(host.State(), stage)
    modifies host`answers, host`files, host`trace
    ensures OnlyFiles(old(host.trace), host.trace)
    ensures ok ==> !old(host.State()).Directory(p) && host.files == old(host.files)[p := data]
    ensures Quiet(old(host.answers)) ==> Quiet(host.answers)
    ensures (
      && Quiet(old(host.answers)) && p != [] && !Blocked(old(host.files), p)
      && old(host.State()).Directory(Parent(p))) ==>
      (ok <==> !old(host.State()).Directory(p))
    ensures stage <= p ==>
      SameBeyond(old(host.State()), host.State(), stage) && !Wandered(old(host.trace), host.trace, stage)
    ensures ok && !(stage <= p) ==> Wandered(old(host.trace), host.trace, stage)
    ensures Quiet(old(host.answers)) && !ok ==> !Wandered(old(host.trace), host.trace, stage)
    ensures !Wandered(old(host.trace), host.trace, stage) ==> SameBeyond(old(host.State()), host.State(), stage)
  {
    ghost var events := host.trace;
    ok := host.CopyFile(p, data);
    if !(stage <= p) && host.trace == events + [Wrote(p)] { assert Beyond(host.trace[|events|], stage); }
  }

  /** Makes the way and the file, and fills it; a failure may leave it cut short. */
  method Store(host: Host, stage: Path, name: Name, data: Bytes) returns (ok: bool)
    requires Anchored(host.State(), stage)
    modifies host`answers, host`files, host`dirs, host`trace
    ensures Anchored(host.State(), stage) && OnlyFiles(old(host.trace), host.trace)
    ensures ok ==> Put(old(host.State()), stage, name, data) == Some(host.State())
    ensures Quiet(old(host.answers)) ==>
      Quiet(host.answers) && (ok <==> Put(old(host.State()), stage, name, data).Some?)
    ensures !Strays(old(host.State()), stage, name) ==>
      SameBeyond(old(host.State()), host.State(), stage) && !Wandered(old(host.trace), host.trace, stage)
    ensures ok && Strays(old(host.State()), stage, name) ==> Wandered(old(host.trace), host.trace, stage)
    ensures Quiet(old(host.answers)) && !ok ==>
      (Wandered(old(host.trace), host.trace, stage) <==> StraysFirst(old(host.State()), stage, name))
    ensures !Wandered(old(host.trace), host.trace, stage) ==> SameBeyond(old(host.State()), host.State(), stage)
  {
    hide Quiet, Way, Place, StraysEarly, StraysFirst, Lead, Ordinary, SameBeyond, Wandered, Blocked, OnlyFiles;
    ghost var before, events := host.State(), host.trace;
    ok := MakeWay(host, stage, name);
    if !ok { return; }
    ghost var way, so := host.State(), host.trace;
    if !Nameable(name) { return false; }
    ReadyToWrite(before, stage, name);
    ok := WriteAt(host, Place(stage, name), data, stage);
    OnlyFilesJoin(events, so, host.trace);
    WanderedSplit(events, so, host.trace, stage);
    if SameBeyond(before, way, stage) && SameBeyond(way, host.State(), stage) {
      SameTwice(before, way, host.State(), stage);
    }
  }

  /** One entry: checked against what is listed under its name, and stored where that leads before its hash is known. */
  method ExtractEntry(host: Host, stage: Path, entry: Entry, wanted: map<Name, Member>, hash: Bytes -> string)
    returns (refusal: Option<Refusal>)
    requires Anchored(host.State(), stage)
    modifies host`answers, host`files, host`dirs, host`trace
    ensures Anchored(host.State(), stage) && OnlyFiles(old(host.trace), host.trace)
    ensures refusal.None? ==> Matches(entry, wanted, hash)
    ensures refusal.None? ==> PutEntry(old(host.State()), stage, entry) == Some(host.State())
    ensures !Listed(entry, wanted) ==> host.State() == old(host.State()) && host.trace == old(host.trace)
    ensures Quiet(old(host.answers)) ==> Quiet(host.answers)
    ensures Quiet(old(host.answers)) && Listed(entry, wanted) && PutEntry(old(host.State()), stage, entry).Some? ==>
      && PutEntry(old(host.State()), stage, entry) == Some(host.State())
      && (refusal.None? <==> Matches(entry, wanted, hash))
    ensures entry.path == MANIFEST_PATH || !Strays(old(host.State()), stage, entry.path) ==>
      SameBeyond(old(host.State()), host.State(), stage) && !Wandered(old(host.trace), host.trace, stage)
    ensures entry.path != MANIFEST_PATH && Strays(old(host.State()), stage, entry.path) && refusal.None? ==>
      Wandered(old(host.trace), host.trace, stage)
    ensures (
      && entry.path != MANIFEST_PATH && Strays(old(host.State()), stage, entry.path) && Listed(entry, wanted)
      && Quiet(old(host.answers)) && PutEntry(old(host.State()), stage, entry).Some?) ==>
      Wandered(old(host.trace), host.trace, stage)
    ensures Quiet(old(host.answers)) && Listed(entry, wanted) && PutEntry(old(host.State()), stage, entry).None? ==>
      && refusal.Some?
      && (Wandered(old(host.trace), host.trace, stage) <==> StraysFirst(old(host.State()), stage, entry.path))
    ensures !Wandered(old(host.trace), host.trace, stage) ==> SameBeyond(old(host.State()), host.State(), stage)
  {
    hide Quiet, Put, Strays, StraysFirst, Anchored;
    if entry.path == MANIFEST_PATH { return None; }
    if entry.path !in wanted { return Some(Unlisted); }
    if entry.size != wanted[entry.path].size { return Some(WrongSize); }
    var digest, copy := HashAndCopy(entry.data, hash);
    var stored := Store(host, stage, entry.path, copy);
    if !stored { return Some(Unwritable); }
    refusal := if digest != wanted[entry.path].sha256 then Some(WrongHash) else None;
  }

  // -- A whole archive ---------------------------------------------------------------------------------

  /** The entries up to the first that is not listed, or to the first with a wrong hash and that one, from i on. */
  function ReachedFrom(entries: seq<Entry>, wanted: map<Name, Member>, hash: Bytes -> string, i: nat): (n: nat)
    requires i <= |entries|
    ensures i <= n <= |entries|
    decreases |entries| - i
  {
    if i == |entries| || !Listed(entries[i], wanted) then i
    else if !Matches(entries[i], wanted, hash) then i + 1
    else ReachedFrom(entries, wanted, hash, i + 1)
  }

  /** How many entries are stored, or skipped as the manifest, when every step works. */
  function Reached(entries: seq<Entry>, wanted: map<Name, Member>, hash: Bytes -> string): (n: nat)
    ensures n <= |entries|
  {
    ReachedFrom(entries, wanted, hash, 0)
  }

  /** Some of the first n entries strays. */
  ghost predicate SomeStray(disk: Disk, stage: Path, entries: seq<Entry>, n: nat)
    requires n <= |entries|
  {
    exists i | 0 <= i < n :: entries[i].path != MANIFEST_PATH && Strays(disk, stage, entries[i].path)
  }

  /** No entry that extraction reaches leads out of the staging directory. */
  ghost predicate StaysInside(
    disk: Disk, stage: Path, entries: seq<Entry>, wanted: map<Name, Member>, hash: Bytes -> string)
  {
    !SomeStray(disk, stage, entries, Reached(entries, wanted, hash))
  }

  /** Every entry that extraction reaches finds its way free. */
  ghost predicate Fits(disk: Disk, stage: Path, entries: seq<Entry>, wanted: map<Name, Member>, hash: Bytes -> string) {
    PutAll(disk, stage, entries[..Reached(entries, wanted, hash)]).Some?
  }

  /** How many of the first n entries find their ways free, one after the other. */
  function Stored(disk: Disk, stage: Path, entries: seq<Entry>, n: nat): (k: nat)
    requires n <= |entries|
    ensures k <= n && PutAll(disk, stage, entries[..k]).Some?
  {
    if n == 0 || PutAll(disk, stage, entries[..n]).Some? then n else Stored(disk, stage, entries, n - 1)
  }

  /**
   * Of the entries that are reached some strays that finds its way free; or the first that does not needs a missing
   * directory out there before it comes to what stands in its way.
   */
  ghost predicate GoesAstray(
    disk: Disk, stage: Path, entries: seq<Entry>, wanted: map<Name, Member>, hash: Bytes -> string)
  {
    var reached := Reached(entries, wanted, hash);
    var k := Stored(disk, stage, entries, reached);
    || SomeStray(disk, stage, entries, k)
    || (k < reached && StraysFirst(PutAll(disk, stage, entries[..k]).value, stage, entries[k].path))
  }

  lemma StoredWhenFits(disk: Disk, stage: Path, entries: seq<Entry>, wanted: map<Name, Member>, hash: Bytes -> string)
    requires Fits(disk, stage, entries, wanted, hash)
    ensures GoesAstray(disk, stage, entries, wanted, hash) <==> !StaysInside(disk, stage, entries, wanted, hash)
  {
  }

  lemma {:induction false} StoredUpTo(disk: Disk, stage: Path, entries: seq<Entry>, k: nat, n: nat)
    requires k <= n <= |entries| && PutAll(disk, stage, entries[..k]).Some?
    requires k < n ==> PutAll(disk, stage, entries[..k + 1]).None?
    ensures Stored(disk, stage, entries, n) == k
    decreases n
  {
    if k < n {
      assert entries[..n][..k + 1] == entries[..k + 1];
      if PutAll(disk, stage, entries[..n]).Some? { PutFront(disk, stage, entries[..n], k + 1); }
      StoredUpTo(disk, stage, entries, k, n - 1);
    }
  }

  lemma {:induction false} AllReached(entries: seq<Entry>, wanted: map<Name, Member>, hash: Bytes -> string, i: nat)
    requires i <= |entries| && forall e | e in entries :: Matches(e, wanted, hash)
    ensures ReachedFrom(entries, wanted, hash, i) == |entries|
    decreases |entries| - i
  {
    if i < |entries| {
      assert Matches(entries[i], wanted, hash);
      AllReached(entries, wanted, hash, i + 1);
    }
  }

  lemma ReachedStep(entries: seq<Entry>, wanted: map<Name, Member>, hash: Bytes -> string, i: nat)
    requires i < |entries|
    ensures var n := ReachedFrom(entries, wanted, hash, i);
      && (!Listed(entries[i], wanted) ==> n == i)
      && (Listed(entries[i], wanted) ==> n > i)
      && (Listed(entries[i], wanted) && !Matches(entries[i], wanted, hash) ==> n == i + 1)
      && (Matches(entries[i], wanted, hash) ==>
            Listed(entries[i], wanted) && n == ReachedFrom(entries, wanted, hash, i + 1))
  {
  }

  /** Whether some listed member was not seen. */
  method AnyAbsent(members: seq<Member>, seen: set<Name>) returns (absent: bool)
    ensures absent <==> exists m :: m in members && m.path !in seen
  {
    for i := 0 to |members|
      invariant forall m | m in members[..i] :: m.path in seen
    {
      assert members[i] in members;
      if members[i].path !in seen { return true; }
      assert members[..i + 1] == members[..i] + [members[i]];
    }
    assert members[..|members|] == members;
    absent := false;
  }

  /** After n entries something beyond staging was touched exactly if one strays, and otherwise all is the same. */
  ghost predicate Trail(
    before: Disk, now: Disk, events: seq<Event>, trace: seq<Event>, stage: Path, entries: seq<Entry>, n: nat)
    requires n <= |entries|
  {
    && events <= trace
    && (Wandered(events, trace, stage) <==> SomeStray(before, stage, entries, n))
    && (!Wandered(events, trace, stage) ==> SameBeyond(before, now, stage))
  }

  lemma TrailGrows(
    before: Disk, middle: Disk, now: Disk, events: seq<Event>, so: seq<Event>, trace: seq<Event>,
    stage: Path, entries: seq<Entry>, i: nat, stored: bool)
    requires i < |entries| && Anchored(middle, stage) && so <= trace
    requires Trail(before, middle, events, so, stage, entries, i)
    requires entries[i].path == MANIFEST_PATH || !Strays(middle, stage, entries[i].path) ==>
      SameBeyond(middle, now, stage) && !Wandered(so, trace, stage)
    requires entries[i].path != MANIFEST_PATH && Strays(middle, stage, entries[i].path) && stored ==>
      Wandered(so, trace, stage)
    requires !Wandered(so, trace, stage) ==> SameBeyond(middle, now, stage)
    ensures !Wandered(events, trace, stage) ==> SameBeyond(before, now, stage)
    ensures stored ==> Trail(before, now, events, trace, stage, entries, i + 1)
    ensures !SomeStray(before, stage, entries, i + 1) ==>
      SameBeyond(before, now, stage) && !Wandered(events, trace, stage)
  {
    hide Anchored, SameBeyond, Strays, Wandered;
    WanderedSplit(events, so, trace, stage);
    if !Wandered(events, so, stage) {
      StraysBackwards(before, middle, stage, entries[i].path);
      if SameBeyond(middle, now, stage) { SameTwice(before, middle, now, stage); }
    }
  }

  /** Where a run without failing steps stops at an entry, something beyond was touched exactly if it goes astray. */
  lemma StopsAstray(
    before: Disk, middle: Disk, now: Disk, events: seq<Event>, so: seq<Event>, trace: seq<Event>,
    stage: Path, entries: seq<Entry>, wanted: map<Name, Member>, hash: Bytes -> string, i: nat)
    requires i < |entries| && so <= trace && Trail(before, middle, events, so, stage, entries, i)
    requires PutAll(before, stage, entries[..i]) == Some(middle)
    requires var n, put := Reached(entries, wanted, hash), PutEntry(middle, stage, entries[i]);
      if !Listed(entries[i], wanted) then n == i && trace == so
      else if put.Some? then n == i + 1 && Trail(before, now, events, trace, stage, entries, n)
      else n > i && (Wandered(so, trace, stage) <==> StraysFirst(middle, stage, entries[i].path))
    ensures Wandered(events, trace, stage) <==> GoesAstray(before, stage, entries, wanted, hash)
  {
    hide Wandered, SomeStray, StraysFirst, PutEntry, SameBeyond, Listed;
    PutOneMore(before, stage, entries, i);
    var n := Reached(entries, wanted, hash);
    WanderedSplit(events, so, trace, stage);
    var all := Listed(entries[i], wanted) && PutEntry(middle, stage, entries[i]).Some?;
    StoredUpTo(before, stage, entries, if all then n else i, n);
  }

  lemma FewerStray(disk: Disk, stage: Path, entries: seq<Entry>, m: nat, n: nat)
    requires m <= n <= |entries|
    ensures SomeStray(disk, stage, entries, m) ==> SomeStray(disk, stage, entries, n)
  {
  }

  /**
   * Extraction succeeds only when every entry is listed with its size and hash, every listed member appears, and every
   * way is free; with no failing step, whenever they are. Nothing beyond the staging directory is touched, whatever
   * fails, when no entry that is reached strays, and otherwise something is when extraction succeeds. With no failing
   * step something is exactly when the archive goes astray, whether or not it is refused and its ways are free.
   */
  method ExtractAndVerify(host: Host, stage: Path, entries: seq<Entry>, members: seq<Member>, hash: Bytes -> string)
    returns (r: Result<(), Refusal>)
    requires Anchored(host.State(), stage)
    modifies host`answers, host`files, host`dirs, host`trace
    ensures OnlyFiles(old(host.trace), host.trace)
    ensures r.Ok? ==> Acceptable(entries, Wanted(members), hash)
    ensures r.Ok? ==> PutAll(old(host.State()), stage, entries) == Some(host.State())
    ensures Quiet(old(host.answers)) ==> Quiet(host.answers)
    ensures (
      && Quiet(old(host.answers)) && Acceptable(entries, Wanted(members), hash)
      && PutAll(old(host.State()), stage, entries).Some?) ==> r.Ok?
    ensures Quiet(old(host.answers)) && Fits(old(host.State()), stage, entries, Wanted(members), hash) ==>
      PutAll(old(host.State()), stage, entries[..Reached(entries, Wanted(members), hash)]) == Some(host.State())
    ensures StaysInside(old(host.State()), stage, entries, Wanted(members), hash) ==>
      SameBeyond(old(host.State()), host.State(), stage) && !Wandered(old(host.trace), host.trace, stage)
    ensures r.Ok? || (Quiet(old(host.answers)) && Fits(old(host.State()), stage, entries, Wanted(members), hash)) ==>
      (Wandered(old(host.trace), host.trace, stage)
       <==> !StaysInside(old(host.State()), stage, entries, Wanted(members), hash))
    ensures Quiet(old(host.answers)) ==>
      (Wandered(old(host.trace), host.trace, stage)
       <==> GoesAstray(old(host.State()), stage, entries, Wanted(members), hash))
    ensures !Wandered(old(host.trace), host.trace, stage) ==> SameBeyond(old(host.State()), host.State(), stage)
  {
    hide *;
    ghost var before, events := host.State(), host.trace;
    var wanted, seen := Wanted(members), {};
    ghost var reached := Reached(entries, wanted, hash);
    TrailStarts(before, events, stage, entries);
    NothingPut(before, stage, entries, wanted, hash);
    for i := 0 to |entries|
      invariant Anchored(host.State(), stage)
      invariant PutAll(before, stage, entries[..i]) == Some(host.State())
      invariant forall e | e in entries[..i] :: Matches(e, wanted, hash)
      invariant seen == Contents(entries[..i]).Keys
      invariant i <= reached == ReachedFrom(entries, wanted, hash, i)
      invariant Quiet(old(host.answers)) ==> Quiet(host.answers)
      invariant OnlyFiles(events, host.trace) && Trail(before, host.State(), events, host.trace, stage, entries, i)
    {
      var e := entries[i];
      ghost var middle, so := host.State(), host.trace;
      ghost var stored := Listed(e, wanted) && Quiet(host.answers) && PutEntry(middle, stage, e).Some?;
      assert entries[..i + 1] == entries[..i] + [e];
      ContentsGrow(entries[..i], e);
      PutOneMore(before, stage, entries, i);
      ReachedStep(entries, wanted, hash, i);
      var refusal := ExtractEntry(host, stage, e, wanted, hash);
      OnlyFilesJoin(events, so, host.trace);
      TrailGrows(before, middle, host.State(), events, so, host.trace, stage, entries, i, stored || refusal.None?);
      if refusal.Some? {
        if Listed(e, wanted) { FewerStray(before, stage, entries, i + 1, reached); }
        FitsFront(before, stage, entries, wanted, hash, i);
        if Quiet(old(host.answers)) {
          StopsAstray(before, middle, host.State(), events, so, host.trace, stage, entries, wanted, hash, i);
        }
        NotAccepted(before, stage, entries, wanted, hash, i);
        TrailMeans(before, host.State(), events, host.trace, stage, entries, wanted, hash);
        return Err(refusal.value);
      }
      if e.path != MANIFEST_PATH { seen := seen + {e.path}; }
    }
    assert entries[..|entries|] == entries;
    FitsAll(before, stage, entries, wanted, hash);
    StoredWhenFits(before, stage, entries, wanted, hash);
    TrailMeans(before, host.State(), events, host.trace, stage, entries, wanted, hash);
    var absent := AnyAbsent(members, seen);
    AbsentDecides(entries, members, hash);
    r := if absent then Err(Absent) else Ok(());
  }

  lemma NothingPut(disk: Disk, stage: Path, entries: seq<Entry>, wanted: map<Name, Member>, hash: Bytes -> string)
    ensures entries[..0] == [] && PutAll(disk, stage, entries[..0]) == Some(disk) && Contents(entries[..0]) == map[]
    ensures Reached(entries, wanted, hash) == ReachedFrom(entries, wanted, hash, 0)
  {
  }

  /** When the ways of all reached entries are free, so are those up to one of them. */
  lemma FitsFront(
    disk: Disk, stage: Path, entries: seq<Entry>, wanted: map<Name, Member>, hash: Bytes -> string, i: nat)
    requires i < |entries| && i <= Reached(entries, wanted, hash)
    ensures Fits(disk, stage, entries, wanted, hash) <==>
            PutAll(disk, stage, entries[..Reached(entries, wanted, hash)]).Some?
    ensures Fits(disk, stage, entries, wanted, hash) && i < Reached(entries, wanted, hash) ==>
      PutAll(disk, stage, entries[..i + 1]).Some?
  {
    var n := Reached(entries, wanted, hash);
    if Fits(disk, stage, entries, wanted, hash) && i < n {
      PutFront(disk, stage, entries[..n], i + 1);
      assert entries[..n][..i + 1] == entries[..i + 1];
    }
  }

  lemma FitsAll(disk: Disk, stage: Path, entries: seq<Entry>, wanted: map<Name, Member>, hash: Bytes -> string)
    requires Reached(entries, wanted, hash) == |entries| && PutAll(disk, stage, entries).Some?
    ensures Fits(disk, stage, entries, wanted, hash)
  {
    assert entries[..|entries|] == entries;
  }

  lemma NotAccepted(
    disk: Disk, stage: Path, entries: seq<Entry>, wanted: map<Name, Member>, hash: Bytes -> string, i: nat)
    requires i < |entries|
    ensures !Matches(entries[i], wanted, hash) ==> !Acceptable(entries, wanted, hash)
    ensures PutAll(disk, stage, entries[..i + 1]).None? ==> PutAll(disk, stage, entries).None?
  {
    assert entries[i] in entries;
    if PutAll(disk, stage, entries).Some? { PutFront(disk, stage, entries, i + 1); }
  }

  lemma AbsentDecides(entries: seq<Entry>, members: seq<Member>, hash: Bytes -> string)
    requires forall e | e in entries :: Matches(e, Wanted(members), hash)
    ensures Acceptable(entries, Wanted(members), hash) <==>
            !exists m :: m in members && m.path !in Contents(entries).Keys
  {
    hide Matches;
  }

  lemma TrailStarts(disk: Disk, events: seq<Event>, stage: Path, entries: seq<Entry>)
    ensures Trail(disk, disk, events, events, stage, entries, 0) && OnlyFiles(events, events)
  {
  }

  lemma TrailMeans(
    before: Disk, now: Disk, events: seq<Event>, trace: seq<Event>, stage: Path, entries: seq<Entry>,
    wanted: map<Name, Member>, hash: Bytes -> string)
    ensures StaysInside(before, stage, entries, wanted, hash) <==>
            !SomeStray(before, stage, entries, Reached(entries, wanted, hash))
    ensures Trail(before, now, events, trace, stage, entries, Reached(entries, wanted, hash)) ==>
      && (Wandered(events, trace, stage) <==> !StaysInside(before, stage, entries, wanted, hash))
      && (StaysInside(before, stage, entries, wanted, hash) ==> SameBeyond(before, now, stage))
  {
  }

  lemma StraysBackwards(a: Disk, b: Disk, stage: Path, name: Name)
    requires SameBeyond(a, b, stage) && Anchored(b, stage)
    ensures Strays(a, stage, name) <==> Strays(b, stage, name)
  {
    assert SameBeyond(b, a, stage);
    StraysSame(b, a, stage, name);
  }

  // -- What extraction leaves ------------------------------------------------------------------------------

  predicate LandsAt(e: Entry, stage: Path, q: Path) {
    e.path != MANIFEST_PATH && Place(stage, e.path) == q
  }

  lemma {:induction false} WayKeepsFiles(disk: Disk, stage: Path, name: Name, n: nat)
    requires n <= |name| && Way(disk, stage, name, n).Some?
    ensures Way(disk, stage, name, n).value.files == disk.files
  {
    if n > 0 { WayKeepsFiles(disk, stage, name, n - 1); }
  }

  /** A place that entries lead to holds the bytes of one of them; all other files are as they were. */
  lemma {:induction false} Leaves(disk: Disk, stage: Path, entries: seq<Entry>, q: Path)
    requires PutAll(disk, stage, entries).Some?
    ensures var after := PutAll(disk, stage, entries).value;
      && (q in after.files <==> q in disk.files || exists e :: e in entries && LandsAt(e, stage, q))
      && ((exists e :: e in entries && LandsAt(e, stage, q)) ==>
            exists e :: e in entries && LandsAt(e, stage, q) && after.files[q] == e.data)
      && (q in after.files && !(exists e :: e in entries && LandsAt(e, stage, q)) ==> after.files[q] == disk.files[q])
  {
    hide Way, Place, Lead;
    if |entries| > 0 {
      var n := |entries| - 1;
      var front, last := entries[..n], entries[n];
      assert entries == front + [last];
      Leaves(disk, stage, front, q);
      var before := PutAll(disk, stage, front).value;
      if last.path != MANIFEST_PATH { WayKeepsFiles(before, stage, last.path, Lead(last.path)); }
      assert last in entries && forall e | e in front :: e in entries;
      if LandsAt(last, stage, q) {
        assert PutAll(disk, stage, entries).value.files[q] == last.data;
      }
    }
  }

  /** No two listed names lead to one place. */
  ghost predicate DistinctPlaces(members: seq<Member>, stage: Path) {
    forall i, j | 0 <= i < j < |members| :: Place(stage, members[i].path) != Place(stage, members[j].path)
  }

  /** Members whose names lead to one place list one hash. */
  ghost predicate AgreeOnShared(members: seq<Member>, stage: Path) {
    forall m, n | m in members && n in members && Place(stage, m.path) == Place(stage, n.path) :: m.sha256 == n.sha256
  }

  ghost predicate HoldsListed(files: Files, stage: Path, m: Member, hash: Bytes -> string) {
    Place(stage, m.path) in files && hash(files[Place(stage, m.path)]) == m.sha256
  }

  /** The place holds the bytes of an entry stated under this name, whose header has the listed size. */
  ghost predicate HoldsOwn(files: Files, stage: Path, entries: seq<Entry>, m: Member) {
    && Place(stage, m.path) in files
    && exists e :: e in entries && e.path == m.path && e.size == m.size && files[Place(stage, m.path)] == e.data
  }

  lemma {:induction false} MemberWanted(members: seq<Member>, m: Member)
    requires DistinctMembers(members) && m in members
    ensures Wanted(members)[m.path] == m
  {
    var i :| 0 <= i < |members| && members[i] == m;
    WantedAt(members, i);
  }

  /** A listed place holds the bytes of an entry stated for a member with that place, with its size and hash. */
  lemma HeldAt(disk: Disk, stage: Path, entries: seq<Entry>, members: seq<Member>, hash: Bytes -> string, m: Member)
    returns (e: Entry, n: Member)
    requires DistinctMembers(members) && Acceptable(entries, Wanted(members), hash) && m in members
    requires PutAll(disk, stage, entries).Some?
    ensures var after := PutAll(disk, stage, entries).value;
      && n in members && Place(stage, n.path) == Place(stage, m.path)
      && Place(stage, m.path) in after.files && after.files[Place(stage, m.path)] == e.data
      && e in entries && e.path == n.path && e.size == n.size && hash(e.data) == n.sha256
  {
    hide PutAll, Place, DistinctMembers, Wanted;
    var q := Place(stage, m.path);
    MemberWanted(members, m);
    ContentsFrom(entries, m.path);
    var own :| own in entries && own.path == m.path;
    assert LandsAt(own, stage, q);
    Leaves(disk, stage, entries, q);
    e :| e in entries && LandsAt(e, stage, q) && PutAll(disk, stage, entries).value.files[q] == e.data;
    assert Matches(e, Wanted(members), hash);
    n := Wanted(members)[e.path];
  }

  /**
   * After an accepted extraction exactly the places of listed members have been written. Each holds bytes with the
   * hash listed for it if and only if members that share a place agree on the hash; and when no two share one, each
   * holds the bytes stated under its own name, whose header has the listed size.
   */
  lemma AcceptedIsListed(disk: Disk, stage: Path, entries: seq<Entry>, members: seq<Member>, hash: Bytes -> string)
    requires DistinctMembers(members) && Acceptable(entries, Wanted(members), hash)
    requires PutAll(disk, stage, entries).Some?
    ensures var after := PutAll(disk, stage, entries).value;
      && (forall q :: q in after.files <==> q in disk.files || exists m :: m in members && Place(stage, m.path) == q)
      && (forall q | q in after.files && !(exists m :: m in members && Place(stage, m.path) == q) ::
            q in disk.files && after.files[q] == disk.files[q])
      && ((forall m | m in members :: HoldsListed(after.files, stage, m, hash)) <==> AgreeOnShared(members, stage))
      && (DistinctPlaces(members, stage) ==>
            forall m | m in members ::
              HoldsListed(after.files, stage, m, hash) && HoldsOwn(after.files, stage, entries, m))
  {
    hide PutAll, Place, Wanted, Contents;
    var after := PutAll(disk, stage, entries).value;
    forall q
      ensures q in after.files <==> q in disk.files || exists m :: m in members && Place(stage, m.path) == q
      ensures q in after.files && !(exists m :: m in members && Place(stage, m.path) == q) ==>
                q in disk.files && after.files[q] == disk.files[q]
    {
      Leaves(disk, stage, entries, q);
      forall e | e in entries && LandsAt(e, stage, q) ensures exists m :: m in members && Place(stage, m.path) == q {
        assert Matches(e, Wanted(members), hash);
        assert Wanted(members)[e.path] in members;
      }
      forall m | m in members && Place(stage, m.path) == q ensures q in after.files {
        var e, n := HeldAt(disk, stage, entries, members, hash, m);
      }
    }
    forall m | m in members
      ensures AgreeOnShared(members, stage) ==> HoldsListed(after.files, stage, m, hash)
      ensures DistinctPlaces(members, stage) ==>
        HoldsListed(after.files, stage, m, hash) && HoldsOwn(after.files, stage, entries, m)
    {
      var e, n := HeldAt(disk, stage, entries, members, hash, m);
      if DistinctPlaces(members, stage) { assert n == m; }
    }
  }

  // -- Plain names ------------------------------------------------------------------------------------------

  /** A directory that is not there yet, but can be made. */
  ghost predicate Fresh(disk: Disk, stage: Path) {
    && Anchored(disk, stage) && !Blocked(disk.files, stage)
    && (forall p | p in disk.files :: !(stage <= p)) && (forall d | d in disk.dirs :: !(stage <= d))
  }

  ghost predicate PlainNames(entries: seq<Entry>) {
    forall e | e in entries && e.path != MANIFEST_PATH :: Plain(e.path)
  }

  /** Under the staging directory is this content, each directory holds some of it, and all else is the same. */
  ghost predicate Mirrors(disk: Disk, now: Disk, stage: Path, content: Files) {
    && SameBeyond(disk, now, stage)
    && (forall r: Path :: stage + r in now.files <==> r in content)
    && (forall r | r in content :: now.files[stage + r] == content[r])
    && (forall r: Path :: stage + r in now.dirs ==> IsDir(content, r))
  }

  lemma NothingMirrors(disk: Disk, stage: Path)
    requires Fresh(disk, stage)
    ensures Mirrors(disk, disk, stage, map[])
  {
    forall r: Path ensures stage + r !in disk.files && stage + r !in disk.dirs {
      assert stage <= stage + r;
    }
  }

  lemma FreeAbove(disk: Disk, now: Disk, stage: Path, content: Files, r: Path)
    requires Fresh(disk, stage) && Mirrors(disk, now, stage, content)
    requires r !in content && forall x | x in content :: !Inside(x, r)
    ensures stage + r !in now.files && !Blocked(now.files, stage + r)
  {
    forall q | q in now.files ensures !Inside(q, stage + r) {
      if Inside(q, stage + r) { AboveShifted(stage, q, r); }
    }
  }

  lemma AboveShifted(stage: Path, q: Path, r: Path)
    requires Inside(q, stage + r)
    ensures if stage <= q then q == stage + q[|stage|..] && Inside(q[|stage|..], r) else Inside(q, stage)
  {
    PrefixesRelated(stage, q, stage + r);
    if stage <= q { assert q[|stage|..] == (stage + r)[..|q|][|stage|..] == r[..|q| - |stage|]; }
  }

  lemma MirrorsMeans(disk: Disk, now: Disk, stage: Path, content: Files)
    requires Mirrors(disk, now, stage, content)
    ensures SameBeyond(disk, now, stage) && forall r: Path :: stage + r in now.files <==> r in content
    ensures forall r: Path :: stage + r in now.dirs ==> IsDir(content, r)
  {
  }

  lemma MoreInside(disk: Disk, before: Disk, way: Disk, stage: Path)
    requires SameBeyond(disk, before, stage) && way.files == before.files && before.dirs <= way.dirs
    requires forall q | q in way.dirs && q !in before.dirs :: stage <= q
    ensures SameBeyond(disk, way, stage)
  {
  }

  lemma {:induction false} WayOfPlain(disk: Disk, now: Disk, stage: Path, content: Files, name: Name, n: nat)
    requires Fresh(disk, stage) && Mirrors(disk, now, stage, content)
    requires Plain(name) && n < |name| && Apart(content.Keys + {name})
    ensures Way(now, stage, name, n).Some?
    ensures var way := Way(now, stage, name, n).value;
      && way.files == now.files && SameBeyond(disk, way, stage) && Anchored(way, stage)
      && forall r: Path :: stage + r in way.dirs ==> IsDir(content, r) || r <= name[..n]
  {
    hide Mirrors, Blocked, Apart, Follow, Anchored, SameBeyond, IsDir;
    PlainPlace(stage, name);
    var at := stage + name[..n];
    assert On(stage, name, n) == at && Start(stage, name) == stage == stage + name[..0];
    var before := now;
    if n > 0 {
      WayOfPlain(disk, now, stage, content, name, n - 1);
      before := Way(now, stage, name, n - 1).value;
    }
    MirrorsMeans(disk, now, stage, content);
    AnchoredSame(disk, before, stage);
    FrontIsFree(content, name, n);
    FreeAbove(disk, now, stage, content, name[..n]);
    MissingInside(before, stage, at);
    var way := before.(dirs := before.dirs + before.Missing(at));
    assert MakeDir(before, at) == Some(way);
    MoreInside(disk, before, way, stage);
    AnchoredSame(disk, way, stage);
    forall r: Path | stage + r in way.dirs ensures IsDir(content, r) || r <= name[..n] {
      if stage + r in before.dirs {
        assert n > 0 && r <= name[..n - 1] ==> r <= name[..n];
      } else {
        var i :| 0 <= i <= |at| && stage + r == at[..i];
        assert r == at[..i][|stage|..] == name[..n][..|r|];
      }
    }
  }

  lemma AnchoredSame(a: Disk, b: Disk, stage: Path)
    requires Anchored(a, stage) && SameBeyond(a, b, stage)
    ensures Anchored(b, stage)
  {
    forall q | q in Ancestors(stage) && q != stage ensures !(stage <= q) {
    }
  }

  lemma FrontIsFree(content: Files, name: Name, n: nat)
    requires n < |name| && Apart(content.Keys + {name})
    ensures name[..n] !in content && forall x | x in content :: !Inside(x, name[..n])
  {
    assert Inside(name[..n], name);
    forall x | x in content ensures !Inside(x, name[..n]) {
      assert Inside(x, name[..n]) ==> Inside(x, name);
    }
  }

  lemma PutPlain(disk: Disk, now: Disk, stage: Path, content: Files, name: Name, data: Bytes)
    requires Fresh(disk, stage) && Mirrors(disk, now, stage, content)
    requires Plain(name) && Apart(content.Keys + {name})
    ensures Put(now, stage, name, data).Some?
    ensures Mirrors(disk, Put(now, stage, name, data).value, stage, content[name := data])
  {
    var n := |name| - 1;
    PlainPlace(stage, name);
    NameableLead(name);
    WayOfPlain(disk, now, stage, content, name, n);
    hide Way, Follow, Anchored, Blocked, SameBeyond, Mirrors, Apart;
    var way := Way(now, stage, name, n).value;
    MirrorsMeans(disk, now, stage, content);
    NoDirectoryAt(now, way, stage, content, name);
    MirrorsMore(disk, now, way, stage, content, name, data);
  }

  lemma MirrorsMore(disk: Disk, now: Disk, way: Disk, stage: Path, content: Files, name: Name, data: Bytes)
    requires Mirrors(disk, now, stage, content) && name != []
    requires way.files == now.files && SameBeyond(disk, way, stage)
    requires forall r: Path :: stage + r in way.dirs ==> IsDir(content, r) || r <= name[..|name| - 1]
    ensures Mirrors(disk, way.(files := way.files[stage + name := data]), stage, content[name := data])
  {
    var after := way.(files := way.files[stage + name := data]);
    forall r: Path
      ensures stage + r in after.files <==> r in content[name := data]
      ensures r in content[name := data] ==> after.files[stage + r] == content[name := data][r]
    {
      assert (stage + r)[|stage|..] == r && (stage + name)[|stage|..] == name;
    }
    forall r: Path | stage + r in after.dirs ensures IsDir(content[name := data], r) {
      if IsDir(content, r) {
        var x :| x in content.Keys && Inside(r, x);
        assert x in content[name := data].Keys;
      } else {
        assert Inside(r, name);
      }
    }
  }

  lemma NoDirectoryAt(now: Disk, way: Disk, stage: Path, content: Files, name: Name)
    requires forall r: Path :: stage + r in now.files <==> r in content
    requires way.files == now.files && name != [] && Apart(content.Keys + {name})
    requires forall r: Path :: stage + r in way.dirs ==> IsDir(content, r) || r <= name[..|name| - 1]
    ensures !way.Directory(stage + name)
  {
    forall q | stage + name <= q ensures q !in way.dirs && (Inside(stage + name, q) ==> q !in way.files) {
      var r := q[|stage|..];
      assert q == stage + r && name <= r;
      assert forall x | Inside(r, x) :: Inside(name, x);
    }
  }

  /** Plain names that fit into one tree find their ways free, and put the content under the staging directory. */
  lemma {:induction false} PlainFits(disk: Disk, stage: Path, entries: seq<Entry>)
    requires Fresh(disk, stage) && PlainNames(entries) && Apart(Contents(entries).Keys)
    ensures PutAll(disk, stage, entries).Some?
    ensures Mirrors(disk, PutAll(disk, stage, entries).value, stage, Contents(entries))
  {
    hide Mirrors, Fresh, Put;
    if |entries| == 0 {
      NothingMirrors(disk, stage);
    } else {
      var n := |entries| - 1;
      var front, last := entries[..n], entries[n];
      assert entries == front + [last] && last in entries;
      ContentsGrow(front, last);
      PlainFits(disk, stage, front);
      if last.path != MANIFEST_PATH {
        assert Contents(front).Keys + {last.path} == Contents(entries).Keys;
        PutPlain(disk, PutAll(disk, stage, front).value, stage, Contents(front), last.path, last.data);
      }
    }
  }

  /** What is under the staging directory, as seen from there. */
  function StagedFiles(files: Files, stage: Path): (staged: Files)
    ensures forall r: Path :: r in staged <==> stage + r in files
    ensures forall r | r in staged :: staged[r] == files[stage + r]
  {
    var rels := set p | p in files.Keys && stage <= p :: p[|stage|..];
    assert forall p | p in files.Keys && stage <= p :: stage + p[|stage|..] == p;
    assert forall r: Path | stage + r in files.Keys :: (stage + r)[|stage|..] == r;
    map r | r in rels :: files[stage + r]
  }

  function StagedDirs(dirs: set<Path>, stage: Path): (staged: set<Path>)
    ensures forall r: Path :: r in staged <==> stage + r in dirs
  {
    assert forall p | p in dirs && stage <= p :: stage + p[|stage|..] == p;
    assert forall r: Path | stage + r in dirs :: (stage + r)[|stage|..] == r;
    set d | d in dirs && stage <= d :: d[|stage|..]
  }

  lemma MirrorsStaged(disk: Disk, now: Disk, stage: Path, content: Files)
    requires Mirrors(disk, now, stage, content)
    ensures StagedFiles(now.files, stage) == content
    ensures forall d | d in StagedDirs(now.dirs, stage) :: IsDir(content, d)
  {
  }

  // -- Two names for one file ---------------------------------------------------------------------------------

  const DIRECT: Name := ["mail", "a"]
  const DOTTED: Name := ["mail", ".", "a"]

  /** Lists mail/a and mail/./a with the right sizes and hashes. */
  function TwoNames(first: Bytes, second: Bytes, hash: Bytes -> string): seq<Member> {
    [Member(DIRECT, |first|, hash(first)), Member(DOTTED, |second|, hash(second))]
  }

  lemma DottedLeads(stage: Path)
    ensures Lead(DOTTED) == 2 && Nameable(DOTTED) && !Absolute(DOTTED)
    ensures On(stage, DOTTED, 0) == stage && On(stage, DOTTED, 1) == On(stage, DOTTED, 2) == stage + ["mail"]
    ensures Place(stage, DOTTED) == stage + DIRECT
  {
    assert DOTTED[..1] == ["mail"] && DOTTED[..2] == ["mail", "."] && DOTTED[..0] == [];
    assert ["mail"][..0] == [] && ["mail", "."][..1] == ["mail"];
    assert stage + ["mail"] + ["a"] == stage + DIRECT;
  }

  lemma DirectoriesThere(disk: Disk, p: Path)
    requires disk.Directory(p) && p !in disk.files && !Blocked(disk.files, p)
    ensures MakeDir(disk, p) == Some(disk)
  {
    NothingMissing(disk, p);
    assert disk.dirs + {} == disk.dirs;
  }

  lemma PutDotted(disk: Disk, now: Disk, stage: Path, content: Files, data: Bytes)
    requires Fresh(disk, stage) && Mirrors(disk, now, stage, content) && content.Keys == {DIRECT}
    ensures Put(now, stage, DOTTED, data) == Some(now.(files := now.files[stage + DIRECT := data]))
  {
    DottedLeads(stage);
    var box := stage + ["mail"];
    assert stage + DIRECT in now.files && Inside(box, stage + DIRECT) && Inside(stage, stage + DIRECT);
    assert stage + [] == stage;
    FreeAbove(disk, now, stage, content, []);
    FreeAbove(disk, now, stage, content, ["mail"]);
    NothingIn(now, stage, content, DIRECT);
    hide Mirrors, Fresh, Blocked, MakeDir, Follow;
    assert now.Directory(stage) && now.Directory(box);
    DirectoriesThere(now, stage);
    DirectoriesThere(now, box);
    assert Way(now, stage, DOTTED, 0) == Some(now);
    assert Way(now, stage, DOTTED, 1) == Some(now);
    assert Way(now, stage, DOTTED, 2) == Some(now);
  }

  lemma NothingIn(now: Disk, stage: Path, content: Files, name: Name)
    requires forall r: Path :: stage + r in now.files ==> r in content
    requires forall r: Path :: stage + r in now.dirs ==> IsDir(content, r)
    requires name != [] && forall x | x in content :: !Inside(name, x)
    ensures !now.Directory(stage + name)
  {
    forall q | stage + name <= q ensures q !in now.dirs && (Inside(stage + name, q) ==> q !in now.files) {
      var r := q[|stage|..];
      assert q == stage + r && name <= r;
      assert forall x | Inside(r, x) :: Inside(name, x);
    }
  }

  /**
   * An archive that states one file under two names is accepted with every size and hash right, and leaves the second
   * one's bytes, which are not what is listed for the first.
   */
  lemma SharedPlace(disk: Disk, stage: Path, first: Bytes, second: Bytes, hash: Bytes -> string)
    requires Fresh(disk, stage) && hash(first) != hash(second)
    ensures var members := TwoNames(first, second, hash);
      var entries := [FileEntry(DIRECT, first), FileEntry(DOTTED, second)];
      && GoodMembers(members) && Acceptable(entries, Wanted(members), hash)
      && PutAll(disk, stage, entries).Some?
      && !HoldsListed(PutAll(disk, stage, entries).value.files, stage, members[0], hash)
  {
    var members := TwoNames(first, second, hash);
    var entries := [FileEntry(DIRECT, first), FileEntry(DOTTED, second)];
    TwoNamesListed(first, second, hash);
    hide Fresh, Mirrors, Put, Place, Acceptable, GoodMembers, HoldsListed;
    NothingMirrors(disk, stage);
    PutPlain(disk, disk, stage, map[], DIRECT, first);
    var now := Put(disk, stage, DIRECT, first).value;
    PutDotted(disk, now, stage, map[][DIRECT := first], second);
    assert entries[..1] == [entries[0]] && entries[..1][..0] == [];
    assert PutAll(disk, stage, entries[..1]) == Some(now);
    var after := now.(files := now.files[stage + DIRECT := second]);
    assert PutAll(disk, stage, entries) == Some(after);
    HoldsTheSecond(after.files, stage, first, second, hash);
  }

  lemma HoldsTheSecond(files: Files, stage: Path, first: Bytes, second: Bytes, hash: Bytes -> string)
    requires stage + DIRECT in files && files[stage + DIRECT] == second && hash(first) != hash(second)
    ensures !HoldsListed(files, stage, TwoNames(first, second, hash)[0], hash)
  {
    PlainPlace(stage, DIRECT);
    hide Place;
  }

  lemma TwoNamesListed(first: Bytes, second: Bytes, hash: Bytes -> string)
    ensures var members := TwoNames(first, second, hash);
      var entries := [FileEntry(DIRECT, first), FileEntry(DOTTED, second)];
      GoodMembers(members) && Acceptable(entries, Wanted(members), hash)
  {
    var members := TwoNames(first, second, hash);
    var entries := [FileEntry(DIRECT, first), FileEntry(DOTTED, second)];
    assert DIRECT[0] != MANIFEST_PATH[0] && DIRECT != DOTTED;
    assert !BlankPath(DIRECT) && !BlankPath(DOTTED) && |DIRECT| != |DOTTED|;
    assert DistinctMembers(members);
    WantedAt(members, 0);
    WantedAt(members, 1);
    assert entries == [entries[0]] + [entries[1]];
    ContentsGrow([entries[0]], entries[1]);
    ContentsGrow([], entries[0]);
    assert [] + [entries[0]] == [entries[0]];
    forall p | p in Wanted(members) ensures p == DIRECT || p == DOTTED {
      assert Wanted(members)[p] in members;
    }
  }
}
