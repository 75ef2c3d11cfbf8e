// The changelog directory over any history of runs: versions, directories and
// the databases they were generated from.

module History {
  import opened Text
  import opened Catalogue
  import opened Changelog
  import opened Convergence
  import opened ReadBack
  import opened References
  import opened Runs
  import opened Versions

  // The directory: one folder and one XML file for each version with changes.
  datatype Repo = Repo(folders: map<string, Folder>, files: seq<string>)

  const EMPTY := Repo(map[], [])

  // A listing of the folders, in any order.
  ghost predicate Listing(r: Repo, paths: seq<Folder>) {
    forall f :: f in paths <==> exists v | v in r.folders :: r.folders[v] == f
  }

  // What a run leaves behind: nothing new, or one more version.
  function After(r: Repo, out: Tables): Outcome<Repo> {
    var version :- NextVersion(r.files);
    if NothingNew(out) then Ok(r)
    else
      var found := if version in r.folders then r.folders[version] else map[];
      Ok(Repo(r.folders[version := found + Render(out)], r.files + [version + ".xml"]))
  }

  ghost predicate StepBy(r: Repo, db: Database, r2: Repo, paths: seq<Folder>, o: Orders) {
    Listing(r, paths) && Fit(ReadCatalogue(paths), DbCatalogue(db), o) &&
    RunTables(paths, db, o).Ok? && After(r, RunTables(paths, db, o).value) == Ok(r2)
  }

  // One run on a database, whatever the orders in which Python lists things.
  ghost predicate Step(r: Repo, db: Database, r2: Repo) {
    exists paths, o :: StepBy(r, db, r2, paths, o)
  }

  // Versions are numbers of one width, each with its folder, and the folders
  // hold a consistent and unambiguous catalogue however they are listed.
  ghost predicate Kept(r: Repo, width: nat) {
    Counted(r.files, width) &&
    (forall v | v in r.folders :: v + ".xml" in r.files) &&
    forall paths | Listing(r, paths) :: Clear(paths)
  }

  lemma EmptyIsKept()
    ensures Kept(EMPTY, 4)
  {
    forall paths | Listing(EMPTY, paths) ensures paths == [] {
      if paths != [] {
        SomeMember(paths);
      }
    }
    assert TablesOf([]) == Ok(Tables([], [], [], []));
  }

  // The database lists an element type or no property type, or the changelogs
  // already list an element type.
  ghost predicate Grounded(r: Repo, db: Database) {
    Sound(db) && forall paths | Listing(r, paths) && ReadCatalogue(paths).Ok? ::
      DbCatalogue(db).Ok? ==> Listed(paths, db)
  }

  lemma StepKeeps(r: Repo, db: Database, r2: Repo, width: nat)
    requires Kept(r, width) && Grounded(r, db) && Step(r, db, r2)
    requires AllDigits(Current(r.files)) && Value(Current(r.files)) + 1 < Pow10(width)
    ensures Kept(r2, width)
    ensures AllDigits(Current(r2.files)) && Value(Current(r2.files)) <= Value(Current(r.files)) + 1
  {
    hide Greatest, Digits, Value, NextVersion, Clear, Sound, ReadCatalogue, DbCatalogue, RunTables, Render, Stems,
         Current, Counted, Listing, Usable, Fit, Listed, Pow10;
    var paths, o :| StepBy(r, db, r2, paths, o);
    IsUsable(r, db, paths, width);
    UsableReads(paths, db);
    NextIsFresh(r.files, width);
    if r2 != r {
      VersionIsAdded(r, RunTables(paths, db, o).value, r2);
      NewFolderKeeps(r, db, r2, paths, o, NextVersion(r.files).value);
    }
  }

  lemma VersionIsAdded(r: Repo, out: Tables, r2: Repo)
    requires After(r, out) == Ok(r2) && r2 != r
    requires NextVersion(r.files).Ok? && NextVersion(r.files).value + ".xml" !in r.files
    requires forall v | v in r.folders :: v + ".xml" in r.files
    ensures NextVersion(r.files).value !in r.folders
    ensures r2 == Repo(r.folders[NextVersion(r.files).value := Render(out)], WithNext(r.files))
    ensures forall v | v in r2.folders :: v + ".xml" in r2.files
  {
    hide NextVersion, Render;
    assert map[] + Render(out) == Render(out);
  }

  lemma NewFolderKeeps(r: Repo, db: Database, r2: Repo, paths: seq<Folder>, o: Orders, version: string)
    requires Clear(paths) && Sound(db) && Listing(r, paths) && ReadCatalogue(paths).Ok? && DbCatalogue(db).Ok?
    requires Fit(ReadCatalogue(paths), DbCatalogue(db), o) && RunTables(paths, db, o).Ok? && Listed(paths, db)
    requires version !in r.folders && r2.folders == r.folders[version := Render(RunTables(paths, db, o).value)]
    ensures forall paths2 | Listing(r2, paths2) :: Clear(paths2)
  {
    hide TablesOf, Clear, Sound, ReadCatalogue, DbCatalogue, RunTables, Render, Fit, Listed, Listing;
    var out := RunTables(paths, db, o).value;
    forall paths2 | Listing(r2, paths2) ensures Clear(paths2) {
      ListingGrows(r, paths, version, Render(out), r2, paths2);
      RunKeepsClear(paths, db, o, paths2);
    }
  }

  lemma ListingGrows(r: Repo, paths: seq<Folder>, version: string, folder: Folder, r2: Repo, paths2: seq<Folder>)
    requires Listing(r, paths) && version !in r.folders
    requires r2.folders == r.folders[version := folder] && Listing(r2, paths2)
    ensures forall f :: f in paths2 <==> f in paths || f == folder
  {
    assert version in r2.folders && r2.folders[version] == folder;
    forall f | f in paths ensures f in paths2 {
      var v :| v in r.folders && r.folders[v] == f;
      assert v in r2.folders && r2.folders[v] == f;
    }
  }

  // A directory without files adds no rows.
  lemma EmptyFolderAddsNothing(paths: seq<Folder>)
    ensures TablesOf(paths + [map[]]) == TablesOf(paths)
    ensures ReadCatalogue(paths + [map[]]) == ReadCatalogue(paths)
  {
    assert (paths + [map[]])[..|paths|] == paths;
  }

  lemma RenderNothing()
    ensures Render(Tables([], [], [], [])) == map[]
  {
  }

  // After a run, no listing of the directory leaves anything to write.
  lemma NothingLeft(r: Repo, db: Database, r2: Repo, paths: seq<Folder>, o: Orders, paths2: seq<Folder>)
    requires StepBy(r, db, r2, paths, o) && Listing(r2, paths2) && Usable(paths, db)
    requires ReadCatalogue(paths).Ok? && DbCatalogue(db).Ok? && Listed(paths, db)
    requires NextVersion(r.files).Ok? && NextVersion(r.files).value !in r.folders
    ensures WritesNothing(paths2, db)
  {
    hide NextVersion, TablesOf, ReadCatalogue, DbCatalogue, RunTables, Render, Usable, Fit, Listed;
    var out := RunTables(paths, db, o).value;
    if NothingNew(out) {
      RenderNothing();
      EmptyFolderAddsNothing(paths2);
      SecondRunWritesNothing(paths, db, o, paths2 + [map[]]);
      SameWrites(paths2, paths2 + [map[]], db);
    } else {
      var version := NextVersion(r.files).value;
      assert map[] + Render(out) == Render(out);
      ListingGrows(r, paths, version, Render(out), r2, paths2);
      SecondRunWritesNothing(paths, db, o, paths2);
    }
  }

  lemma SameWrites(paths: seq<Folder>, others: seq<Folder>, db: Database)
    requires ReadCatalogue(paths) == ReadCatalogue(others) && WritesNothing(others, db)
    ensures WritesNothing(paths, db)
  {
    hide ReadCatalogue, DbCatalogue, Fit, Generate;
    forall o | Fit(ReadCatalogue(paths), DbCatalogue(db), o)
      ensures RunTables(paths, db, o) == RunTables(others, db, o)
    {
    }
  }

  // Running again on the same database changes nothing.
  lemma SecondStepIsIdle(r: Repo, db: Database, r2: Repo, r3: Repo, width: nat)
    requires Kept(r, width) && Grounded(r, db) && Step(r, db, r2) && Step(r2, db, r3)
    requires AllDigits(Current(r.files)) && Value(Current(r.files)) + 1 < Pow10(width)
    ensures r3 == r2
  {
    hide Greatest, Digits, Value, NextVersion, TablesOf, ReadCatalogue, DbCatalogue, RunTables, Render, Stems,
         Current, Counted, Usable, Fit, Listed;
    var paths, o :| StepBy(r, db, r2, paths, o);
    var paths2, o2 :| StepBy(r2, db, r3, paths2, o2);
    NextIsFresh(r.files, width);
    IsUsable(r, db, paths, width);
    UsableReads(paths, db);
    NothingLeft(r, db, r2, paths, o, paths2);
  }

  lemma IsUsable(r: Repo, db: Database, paths: seq<Folder>, width: nat)
    requires Kept(r, width) && Grounded(r, db) && Listing(r, paths)
    ensures Usable(paths, db) && Clear(paths) && Sound(db)
  {
  }

  // The next number still fits the width of the names.
  ghost predicate HasRoom(r: Repo, width: nat) {
    AllDigits(Current(r.files)) && Value(Current(r.files)) + 1 < Pow10(width)
  }

  // Any run of the script on changing databases, from a directory that is kept;
  // whenever a run finds changes there is room for its version.
  ghost predicate History(repos: seq<Repo>, dbs: seq<Database>, width: nat) {
    |repos| == |dbs| + 1 && Kept(repos[0], width) &&
    forall i | 0 <= i < |dbs| ::
      Grounded(repos[i], dbs[i]) && Step(repos[i], dbs[i], repos[i + 1]) &&
      (repos[i + 1] != repos[i] ==> HasRoom(repos[i], width))
  }

  // Over any history every directory on the way is kept.
  lemma {:induction false} HistoryIsKept(repos: seq<Repo>, dbs: seq<Database>, width: nat, k: nat)
    requires History(repos, dbs, width) && k <= |dbs|
    ensures Kept(repos[k], width)
  {
    hide Kept, Grounded, Step, Current, Value, Pow10;
    if k > 0 {
      HistoryIsKept(repos, dbs, width, k - 1);
      var r2 := repos[k - 1 + 1];
      if r2 != repos[k - 1] {
        StepKeeps(repos[k - 1], dbs[k - 1], r2, width);
      }
    }
  }

  // From an empty directory there is room for 9999 runs.
  lemma {:induction false} RoomForRuns(repos: seq<Repo>, dbs: seq<Database>, k: nat)
    requires |repos| == |dbs| + 1 && repos[0] == EMPTY && k <= |dbs| <= 9999
    requires forall i | 0 <= i < |dbs| :: Grounded(repos[i], dbs[i]) && Step(repos[i], dbs[i], repos[i + 1])
    ensures History(repos[..k + 1], dbs[..k], 4)
    ensures Kept(repos[k], 4) && AllDigits(Current(repos[k].files)) && Value(Current(repos[k].files)) <= k
  {
    hide Kept, Grounded, Step, Current, Value, Digits;
    if k == 0 {
      EmptyIsKept();
      NoneYet();
    } else {
      RoomForRuns(repos, dbs, k - 1);
      Pow10Of4();
      var r, db, r2 := repos[k - 1], dbs[k - 1], repos[k - 1 + 1];
      StepKeeps(r, db, r2, 4);
      HistoryGrows(repos[..k], dbs[..k - 1], db, r2, 4);
      assert repos[..k + 1] == repos[..k] + [r2] && dbs[..k] == dbs[..k - 1] + [db];
    }
  }

  lemma HistoryGrows(repos: seq<Repo>, dbs: seq<Database>, db: Database, r2: Repo, width: nat)
    requires History(repos, dbs, width) && HasRoom(repos[|dbs|], width)
    requires Grounded(repos[|dbs|], db) && Step(repos[|dbs|], db, r2)
    ensures History(repos + [r2], dbs + [db], width)
  {
    hide Kept, Grounded, Step, HasRoom;
  }

  // Folders are never changed or removed on the way.
  lemma {:induction false} FoldersStay(repos: seq<Repo>, dbs: seq<Database>, width: nat, i: nat, j: nat)
    requires History(repos, dbs, width) && i <= j <= |dbs|
    ensures forall v | v in repos[i].folders :: v in repos[j].folders && repos[j].folders[v] == repos[i].folders[v]
  {
    hide Kept, Grounded, Step, Current, Value, Pow10;
    if i < j {
      FoldersStay(repos, dbs, width, i, j - 1);
      HistoryIsKept(repos, dbs, width, j - 1);
      var r2 := repos[j - 1 + 1];
      if r2 != repos[j - 1] {
        StepKeepsFolders(repos[j - 1], dbs[j - 1], r2, width);
      }
    }
  }

  lemma StepKeepsFolders(r: Repo, db: Database, r2: Repo, width: nat)
    requires Kept(r, width) && Step(r, db, r2)
    requires AllDigits(Current(r.files)) && Value(Current(r.files)) + 1 < Pow10(width)
    ensures forall v | v in r.folders :: v in r2.folders && r2.folders[v] == r.folders[v]
  {
    hide Digits, Value, NextVersion, Clear, ReadCatalogue, DbCatalogue, RunTables, Render, Current, Counted, Listing,
         Fit, Pow10;
    var paths, o :| StepBy(r, db, r2, paths, o);
    NextIsFresh(r.files, width);
    if r2 != r {
      VersionIsAdded(r, RunTables(paths, db, o).value, r2);
    }
  }

  lemma ListingStays(r: Repo, r2: Repo, paths: seq<Folder>, paths2: seq<Folder>)
    requires Listing(r, paths) && Listing(r2, paths2)
    requires forall v | v in r.folders :: v in r2.folders && r2.folders[v] == r.folders[v]
    ensures forall f | f in paths :: f in paths2
  {
    forall f | f in paths ensures f in paths2 {
      var v :| v in r.folders && r.folders[v] == f;
      assert v in r2.folders && r2.folders[v] == f;
    }
  }

  // Over any history, a name keeps the id and a reference the child that it was
  // first read with, in every later directory and every listing of it.
  lemma HistoryKeepsReferences(repos: seq<Repo>, dbs: seq<Database>, width: nat, i: nat, j: nat,
                               paths: seq<Folder>, paths2: seq<Folder>, n: string, k: string)
    requires History(repos, dbs, width) && i <= j <= |dbs|
    requires Listing(repos[i], paths) && Listing(repos[j], paths2)
    ensures ReadCatalogue(paths).Ok? && ReadCatalogue(paths2).Ok?
    ensures KeepsName(ReadCatalogue(paths).value.et, ReadCatalogue(paths2).value.et, n)
    ensures KeepsReference(ReadCatalogue(paths).value.et, ReadCatalogue(paths2).value.et, n, k)
  {
    hide Grounded, Step, Current, Value, Digits, Counted, Listing, ReadCatalogue, Clear, KeepsName, KeepsReference;
    HistoryIsKept(repos, dbs, width, i);
    HistoryIsKept(repos, dbs, width, j);
    FoldersStay(repos, dbs, width, i, j);
    ListingStays(repos[i], repos[j], paths, paths2);
    MoreDirectoriesKeep(paths, paths2, n, k);
  }

  // A reference that a run finds new is written for its parent, key and child,
  // and every later directory of the history reads it back as these.
  lemma WrittenReferenceReadsBack(repos: seq<Repo>, dbs: seq<Database>, width: nat, i: nat, j: nat,
                                  paths: seq<Folder>, paths2: seq<Folder>, n: string, k: string)
    requires History(repos, dbs, width) && i < j <= |dbs|
    requires Listing(repos[i], paths) && Listing(repos[j], paths2)
    requires DbCatalogue(dbs[i]).Ok? && ReadCatalogue(paths).Ok?
    requires n in DbCatalogue(dbs[i]).value.et.id && k in DbCatalogue(dbs[i]).value.et.info[n].at
    requires var et0 := ReadCatalogue(paths).value.et; !(n in et0.id && k in et0.info[n].at)
    ensures ReadCatalogue(paths2).Ok?
    ensures
      var et1, et2 := DbCatalogue(dbs[i]).value.et, ReadCatalogue(paths2).value.et;
      n in et2.id && k in et2.info[n].at && et2.info[n].at[k] == et1.info[n].at[k]
  {
    hide Grounded, Current, Value, Digits, Counted, Listing, ReadCatalogue, DbCatalogue, Clear, KeepsName, StepBy;
    var r, db, r2 := repos[i], dbs[i], repos[i + 1];
    assert Step(r, db, r2);
    var own, o :| StepBy(r, db, r2, own, o);
    var next := SomeListing(r2);
    StepLists(r, db, r2, own, o);
    HistoryKeepsReferences(repos, dbs, width, i, i, own, paths, n, k);
    HistoryIsKept(repos, dbs, width, i);
    StepReadsReference(r, db, r2, own, o, next, n, k, width);
    HistoryKeepsReferences(repos, dbs, width, i + 1, j, next, paths2, n, k);
  }

  lemma StepLists(r: Repo, db: Database, r2: Repo, paths: seq<Folder>, o: Orders)
    requires StepBy(r, db, r2, paths, o)
    ensures Listing(r, paths)
  {
    hide Listing, ReadCatalogue, DbCatalogue, After, RunTables, Fit;
  }

  lemma SomeListing(r: Repo) returns (paths: seq<Folder>)
    ensures Listing(r, paths)
  {
    paths := ListingOf(r.folders, r.folders.Keys);
  }

  lemma {:induction false} ListingOf(folders: map<string, Folder>, vs: set<string>) returns (paths: seq<Folder>)
    requires vs <= folders.Keys
    ensures forall f :: f in paths <==> exists v | v in vs :: folders[v] == f
  {
    if vs == {} {
      paths := [];
    } else {
      var v :| v in vs;
      var rest := ListingOf(folders, vs - {v});
      paths := rest + [folders[v]];
    }
  }

  // The child that one run writes for a new reference is read after it.
  lemma StepReadsReference(r: Repo, db: Database, r2: Repo, paths: seq<Folder>, o: Orders, paths2: seq<Folder>,
                           n: string, k: string, width: nat)
    requires Kept(r, width) && Grounded(r, db) && StepBy(r, db, r2, paths, o) && Listing(r2, paths2)
    requires r2 != r ==> HasRoom(r, width)
    requires DbCatalogue(db).Ok? && ReadCatalogue(paths).Ok?
    requires n in DbCatalogue(db).value.et.id && k in DbCatalogue(db).value.et.info[n].at
    requires var et0 := ReadCatalogue(paths).value.et; !(n in et0.id && k in et0.info[n].at)
    ensures ReadCatalogue(paths2).Ok?
    ensures
      var et1, et2 := DbCatalogue(db).value.et, ReadCatalogue(paths2).value.et;
      n in et2.id && k in et2.info[n].at && et2.info[n].at[k] == et1.info[n].at[k]
  {
    hide Greatest, Digits, Value, NextVersion, TablesOf, ReadCatalogue, DbCatalogue, RunTables, Render, Current,
         Counted, Usable, Fit, Listed, Clear, Sound, Pow10;
    IsUsable(r, db, paths, width);
    var out := RunTables(paths, db, o).value;
    if NothingNew(out) {
      RenderNothing();
      EmptyFolderAddsNothing(paths2);
      RunReadsReferences(paths, db, o, paths2 + [map[]], n, k);
    } else {
      assert |r2.files| == |r.files| + 1;
      NextIsFresh(r.files, width);
      var version := NextVersion(r.files).value;
      assert map[] + Render(out) == Render(out);
      ListingGrows(r, paths, version, Render(out), r2, paths2);
      RunReadsReferences(paths, db, o, paths2, n, k);
    }
  }

  lemma NoneYet()
    ensures Current([]) == "0000" && AllDigits("0000") && Value("0000") == 0
  {
    ValueOfZeros(4, "");
    assert Zeros(4) + "" == "0000";
  }

  lemma Pow10Of4()
    ensures Pow10(4) == 10000
  {
  }
}
