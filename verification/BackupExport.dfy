/** Planning and writing an export, and what an import of it brings back. */
module BackupExport {
  import opened Wrappers
  import opened BackupArchive
  import opened BackupLayout
  import opened BackupPlaces

  function Item(cfg: Config, k: Section, p: Path): Planned
    requires Covers(cfg, k, p)
  {
    Planned(At(k, p[|Dest(cfg, k)|..]), p)
  }

  /** What a plan has to list for a section. */
  ghost function SectionItems(files: Files, cfg: Config, k: Section): set<Planned> {
    set p | p in files.Keys && Covers(cfg, k, p) :: Item(cfg, k, p)
  }

  ghost function ItemsBelow(files: Files, cfg: Config, n: nat): set<Planned>
    requires n <= 5
  {
    if n == 0 then {} else ItemsBelow(files, cfg, n - 1) + SectionItems(files, cfg, n - 1)
  }

  ghost function Items(planned: seq<Planned>): set<Planned> {
    set i | 0 <= i < |planned| :: planned[i]
  }

  lemma AddItem(planned: seq<Planned>, item: Planned)
    requires DistinctPlan(planned) && !BlankPath(item.archivePath) && item.archivePath != MANIFEST_PATH
    requires forall x | x in Items(planned) :: x.archivePath != item.archivePath
    ensures DistinctPlan(planned + [item]) && Items(planned + [item]) == Items(planned) + {item}
  {
    forall i | 0 <= i < |planned| ensures planned[i].archivePath != item.archivePath {
      assert planned[i] in Items(planned);
    }
    var all := planned + [item];
    assert forall x | x in Items(planned) + {item} :: x in Items(all) by {
      assert all[|planned|] == item;
      forall x | x in Items(planned) ensures x in Items(all) {
        var i :| 0 <= i < |planned| && planned[i] == x;
        assert all[i] == x;
      }
    }
  }

  lemma {:induction false} ItemSection(files: Files, cfg: Config, n: nat, x: Planned)
    requires n <= 5 && x in ItemsBelow(files, cfg, n)
    ensures exists k: Section :: k < n && Covers(cfg, k, x.source) && x == Item(cfg, k, x.source) && x.source in files
  {
    if x !in SectionItems(files, cfg, n - 1) {
      ItemSection(files, cfg, n - 1, x);
    } else {
      var k: Section := n - 1;
      assert Covers(cfg, k, x.source);
    }
  }

  /** Archive paths of section items are fit for a plan and differ from those of other sections and other files. */
  lemma ItemIsNew(files: Files, cfg: Config, k: Section, p: Path, x: Planned)
    requires Covers(cfg, k, p)
    requires x in ItemsBelow(files, cfg, k) || exists q :: q != p && Covers(cfg, k, q) && x == Item(cfg, k, q)
    ensures x.archivePath != Item(cfg, k, p).archivePath
  {
    if x in ItemsBelow(files, cfg, k) {
      ItemSection(files, cfg, k, x);
      var j: Section :| j < k && Covers(cfg, j, x.source) && x == Item(cfg, j, x.source);
      SectionNames(j, k);
      assert x.archivePath[0] == SECTIONS[j];
    } else {
      var q :| q != p && Covers(cfg, k, q) && x == Item(cfg, k, q);
      HomeCovers(cfg, k, p);
      HomeCovers(cfg, k, q);
    }
  }

  lemma ItemIsFit(cfg: Config, k: Section, p: Path)
    requires Covers(cfg, k, p)
    ensures !BlankPath(Item(cfg, k, p).archivePath) && Item(cfg, k, p).archivePath != MANIFEST_PATH
  {
    var a := Item(cfg, k, p).archivePath;
    assert a[0] == SECTIONS[k] && SECTIONS[k] != "manifest.json";
    assert SECTIONS[k][1] == 'a' || SECTIONS[k][1] == 't' || SECTIONS[k][1] == 'k' || SECTIONS[k][1] == 'w';
    var c := SECTIONS[k][1];
    assert c in SECTIONS[k];
  }

  /** Adds every file inside a section's directory, in whatever order the walk meets them. */
  method CollectDir(files: Files, cfg: Config, k: Section, planned: seq<Planned>) returns (more: seq<Planned>)
    requires k < DIRECTORIES && DistinctPlan(planned) && Items(planned) == ItemsBelow(files, cfg, k)
    ensures DistinctPlan(more) && Items(more) == ItemsBelow(files, cfg, k + 1)
  {
    hide DistinctPlan, Items, ItemsBelow, BlankPath;
    var root := Dest(cfg, k);
    var todo := set p | p in files.Keys && Inside(root, p);
    ghost var done: set<Path> := {};
    more := planned;
    while todo != {}
      invariant forall p :: p in files && Inside(root, p) <==> p in todo || p in done
      invariant todo !! done
      invariant DistinctPlan(more)
      invariant Items(more) == ItemsBelow(files, cfg, k) + set p | p in done && Covers(cfg, k, p) :: Item(cfg, k, p)
      decreases |todo|
    {
      var p :| p in todo;
      var item := Planned(At(k, p[|root|..]), p);
      assert item == Item(cfg, k, p);
      ItemIsFit(cfg, k, p);
      forall x | x in Items(more) ensures x.archivePath != item.archivePath {
        ItemIsNew(files, cfg, k, p, x);
      }
      AddItem(more, item);
      more := more + [item];
      done := done + {p};
      todo := todo - {p};
    }
    assert done == set p | p in files.Keys && Covers(cfg, k, p);
    OneMoreSection(files, cfg, k);
  }

  lemma OneMoreSection(files: Files, cfg: Config, k: Section)
    ensures ItemsBelow(files, cfg, k + 1) == ItemsBelow(files, cfg, k) + SectionItems(files, cfg, k)
  {
  }

  /** Adds the one file of a section when it exists. */
  method CollectOptionalFile(files: Files, cfg: Config, k: Section, planned: seq<Planned>) returns (more: seq<Planned>)
    requires k >= DIRECTORIES && DistinctPlan(planned) && Items(planned) == ItemsBelow(files, cfg, k)
    ensures DistinctPlan(more) && Items(more) == ItemsBelow(files, cfg, k + 1)
  {
    hide DistinctPlan, Items, ItemsBelow, BlankPath;
    var p := Dest(cfg, k);
    more := planned;
    if p in files {
      var item := Planned([SECTIONS[k]], p);
      assert p[|p|..] == [] && At(k, []) == [SECTIONS[k]];
      assert item == Item(cfg, k, p);
      ItemIsFit(cfg, k, p);
      forall x | x in Items(more) ensures x.archivePath != item.archivePath {
        ItemIsNew(files, cfg, k, p, x);
      }
      AddItem(more, item);
      more := more + [item];
      assert SectionItems(files, cfg, k) == {item};
    } else {
      assert SectionItems(files, cfg, k) == {};
    }
    OneMoreSection(files, cfg, k);
  }

  /** A whole plan: all the sections, and the dump where it was written. */
  ghost predicate PlanOf(planned: seq<Planned>, files: Files, cfg: Config, dumpPath: Path) {
    DistinctPlan(planned) && Items(planned) == ItemsBelow(files, cfg, 5) + {Planned(DUMP_PATH, dumpPath)}
  }

  lemma PlanLists(planned: seq<Planned>, files: Files, cfg: Config, dumpPath: Path)
    requires PlanOf(planned, files, cfg, dumpPath)
    ensures Lists(planned, files, cfg, dumpPath)
  {
    hide ItemsBelow, Belongs, Covers, Dest, At;
    forall a, p | p in files && Belongs(cfg, a, p) ensures Planned(a, p) in planned {
      var k := BelongsCovers(cfg, a, p);
      ListsEachFile(files, cfg, 5, k, p);
      assert Planned(a, p) in Items(planned);
    }
    assert Planned(DUMP_PATH, dumpPath) in Items(planned);
    forall i | 0 <= i < |planned| && planned[i] != Planned(DUMP_PATH, dumpPath)
      ensures planned[i].source in files && Belongs(cfg, planned[i].archivePath, planned[i].source)
    {
      assert planned[i] in Items(planned);
      ItemSection(files, cfg, 5, planned[i]);
      var k: Section :| Covers(cfg, k, planned[i].source) && planned[i] == Item(cfg, k, planned[i].source);
      CoversBelongs(cfg, k, planned[i].source);
    }
  }

  /** Plans the files of the five sections and the dump. */
  method Plan(files: Files, cfg: Config, dumpPath: Path) returns (planned: seq<Planned>)
    ensures PlanOf(planned, files, cfg, dumpPath)
    ensures Lists(planned, files, cfg, dumpPath)
  {
    hide ItemsBelow, BlankPath, Lists;
    assert Items([]) == {} == ItemsBelow(files, cfg, 0) by { NothingBelow(files, cfg); }
    hide Items, DistinctPlan;
    NothingPlanned();
    planned := CollectDir(files, cfg, 0, []);
    planned := CollectDir(files, cfg, 1, planned);
    planned := CollectDir(files, cfg, 2, planned);
    planned := CollectOptionalFile(files, cfg, 3, planned);
    planned := CollectOptionalFile(files, cfg, 4, planned);
    forall x | x in Items(planned) ensures x.archivePath != DUMP_PATH {
      ItemSection(files, cfg, 5, x);
      var k: Section :| Covers(cfg, k, x.source) && x == Item(cfg, k, x.source);
      assert x.archivePath[0] == SECTIONS[k];
    }
    DumpIsFit();
    AddItem(planned, Planned(DUMP_PATH, dumpPath));
    planned := planned + [Planned(DUMP_PATH, dumpPath)];
    PlanLists(planned, files, cfg, dumpPath);
  }

  lemma NothingBelow(files: Files, cfg: Config)
    ensures ItemsBelow(files, cfg, 0) == {}
  {
  }

  lemma NothingPlanned()
    ensures DistinctPlan([])
  {
  }

  lemma DumpIsFit()
    ensures !BlankPath(DUMP_PATH) && DUMP_PATH != MANIFEST_PATH
  {
    assert DUMP_PATH[0] != MANIFEST_PATH[0];
  }

  lemma {:induction false} ListsEachFile(files: Files, cfg: Config, n: nat, k: Section, p: Path)
    requires k < n <= 5 && p in files && Covers(cfg, k, p)
    ensures Item(cfg, k, p) in ItemsBelow(files, cfg, n)
  {
    if k < n - 1 { ListsEachFile(files, cfg, n - 1, k, p); }
  }

  /** What is read for a plan is exactly an export of those files, and the dump. */
  lemma PlanExports(planned: seq<Planned>, files: Files, cfg: Config, dumpPath: Path, dump: Bytes, content: Files)
    requires PlanOf(planned, files, cfg, dumpPath) && dumpPath !in files
    requires Readable(planned, files[dumpPath := dump]) && Holds(content, planned, files[dumpPath := dump])
    ensures Exports(content, files, cfg) && DUMP_PATH in content && content[DUMP_PATH] == dump
  {
    hide ItemsBelow, DistinctPlan;
    assert Planned(DUMP_PATH, dumpPath) in Items(planned);
    forall a | a in content && a != DUMP_PATH ensures Exportable(a) {
      var i :| 0 <= i < |planned| && planned[i].archivePath == a;
      OfAPlan(planned, files, cfg, dumpPath, i);
    }
    forall a, k: Section | InSection(a, k)
      ensures a in content <==> Home(cfg, a, k) in files
      ensures a in content ==> content[a] == files[Home(cfg, a, k)]
    {
      CoversHome(cfg, k, a);
      var p := Home(cfg, a, k);
      if p in files {
        ListsEachFile(files, cfg, 5, k, p);
        assert Item(cfg, k, p) in Items(planned);
        var i :| 0 <= i < |planned| && planned[i] == Item(cfg, k, p);
        assert content[planned[i].archivePath] == files[p];
      }
      if a in content {
        assert a[0] == SECTIONS[k] && DUMP_PATH[0] != SECTIONS[k];
        var i :| 0 <= i < |planned| && planned[i].archivePath == a;
        OfAPlan(planned, files, cfg, dumpPath, i);
        var j: Section :| Covers(cfg, j, planned[i].source) && planned[i] == Item(cfg, j, planned[i].source);
        HomeCovers(cfg, j, planned[i].source);
        SectionsDiffer(a, j, k);
      }
    }
  }

  /** Each entry of a plan is the dump or a file of a section. */
  lemma OfAPlan(planned: seq<Planned>, files: Files, cfg: Config, dumpPath: Path, i: nat)
    requires PlanOf(planned, files, cfg, dumpPath) && i < |planned| && planned[i].archivePath != DUMP_PATH
    ensures exists k: Section :: Covers(cfg, k, planned[i].source) && planned[i] == Item(cfg, k, planned[i].source)
    ensures planned[i].source in files && Exportable(planned[i].archivePath)
  {
    assert planned[i] in Items(planned);
    ItemSection(files, cfg, 5, planned[i]);
    var k: Section :| Covers(cfg, k, planned[i].source) && planned[i] == Item(cfg, k, planned[i].source);
    HomeCovers(cfg, k, planned[i].source);
  }

  lemma PlanReadable(planned: seq<Planned>, files: Files, cfg: Config, dumpPath: Path, dump: Bytes)
    requires PlanOf(planned, files, cfg, dumpPath)
    ensures Readable(planned, files[dumpPath := dump])
  {
    forall i | 0 <= i < |planned| ensures planned[i].source in files[dumpPath := dump] {
      assert planned[i] in Items(planned);
      if planned[i].archivePath != DUMP_PATH {
        OfAPlan(planned, files, cfg, dumpPath, i);
      }
    }
  }

  /** What was exported from one tree fits into one tree. */
  lemma ExportsApart(content: Files, files: Files, cfg: Config)
    requires Tree(files) && Exports(content, files, cfg)
    ensures Staged(content)
  {
    forall a, b | a in content && b in content ensures !Inside(a, b) {
      if Inside(a, b) {
        if b != DUMP_PATH {
          var k: Section :| InSection(b, k);
          assert a != [] && a != DUMP_PATH;
          var j: Section :| InSection(a, j);
          SectionNames(j, k);
          assert Inside(Home(cfg, a, k), Home(cfg, b, k));
        }
      }
    }
  }

  // -- There and back ---------------------------------------------------------------------------------

  datatype Exported = Exported(manifest: Manifest, entries: seq<Entry>)

  /** Plans, hashes and writes an archive; archived are the files as they are by the time they are written. */
  method Export(
    files: Files, archived: Files, cfg: Config, dumpPath: Path, dump: Bytes, header: Manifest,
    codec: Codec, hash: Bytes -> string)
    returns (r: Result<Exported, Refusal>, planned: seq<Planned>)
    ensures PlanOf(planned, files, cfg, dumpPath)
    ensures Lists(planned, files, cfg, dumpPath)
    ensures r.Ok? <==> Readable(planned, archived[dumpPath := dump])
    ensures r.Ok? ==>
      && Readable(planned, files[dumpPath := dump])
      && r.value.manifest == header.(members := Members(planned, files[dumpPath := dump], hash))
      && r.value.entries == Archive(r.value.manifest, planned, archived[dumpPath := dump], codec)
    ensures r.Ok? ==>
      && |r.value.entries| == |planned| + 1 && r.value.entries[0].path == ["manifest.json"]
      && forall i | 0 <= i < |planned| ::
           && r.value.entries[i + 1].path == planned[i].archivePath
           && r.value.entries[i + 1].data == archived[dumpPath := dump][planned[i].source]
  {
    hide PlanOf, Members, Lists;
    planned := Plan(files, cfg, dumpPath);
    PlanReadable(planned, files, cfg, dumpPath, dump);
    var members := MembersFromPlanned(planned, files[dumpPath := dump], hash);
    var manifest := header.(members := members.value);
    var entries := BuildArchive(manifest, planned, archived[dumpPath := dump], codec);
    r := if entries.Ok? then Ok(Exported(manifest, entries.value)) else Err(entries.error);
  }

  /**
   * An export of files that keep still is accepted by every import, and installing it under the same layout into a
   * place with room brings back every file of every section at its own path, with its bytes, and nothing else.
   */
  lemma ExportThenImport(
    source: Files, cfg: Config, planned: seq<Planned>, dumpPath: Path, dump: Bytes, manifest: Manifest,
    codec: Codec, hash: Bytes -> string, target: Files)
    requires Tree(source) && dumpPath !in source && PlanOf(planned, source, cfg, dumpPath)
    requires Readable(planned, source[dumpPath := dump])
    requires GoodHeader(manifest) && Inverse(codec) && Room(target, cfg)
    requires manifest.members == Members(planned, source[dumpPath := dump], hash)
    ensures var a := Archive(manifest, planned, source[dumpPath := dump], codec);
      && ManifestAt(a) == 0 && codec.decode(a[0].data) == Some(manifest) && GoodMembers(manifest.members)
      && Acceptable(a, Wanted(manifest.members), hash) && Apart(Contents(a).Keys)
      && DUMP_PATH in Contents(a) && Contents(a)[DUMP_PATH] == dump
      && Installed(target, Contents(a), {}, cfg, 5).Some?
      && Restores(Installed(target, Contents(a), {}, cfg, 5).value, target, source, cfg, 5)
  {
    var files := source[dumpPath := dump];
    var a := Archive(manifest, planned, files, codec);
    assert DistinctPlan(planned);
    ManifestIsReadBack(manifest, planned, files, files, codec, hash);
    WrittenIsAccepted(manifest, planned, files, files, codec, hash);
    hide Archive, Members, Restores, Acceptable, Exports, PlanOf;
    PlanExports(planned, source, cfg, dumpPath, dump, Contents(a));
    ExportsApart(Contents(a), source, cfg);
    SameLayout(target, source, Contents(a), cfg, 5);
  }
}
