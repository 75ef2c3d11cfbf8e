// Whole runs of the changelog generator, from the directories it finds to the
// directory it adds, and what holds over any history of runs.

module Runs {
  import opened Text
  import opened Catalogue
  import opened Changelog
  import opened Convergence
  import opened ReadBack

  datatype Both = Both(et: ElementTypes, pt: PropertyTypes)

  function ReadCatalogue(paths: seq<Folder>): (c: Outcome<Both>)
    ensures c.Ok? ==> c.value.et.Valid() && c.value.pt.Valid()
  {
    var t :- TablesOf(paths);
    var et :- ElementTypesOf(t);
    var pt :- PropertyTypesOf(et, t);
    Ok(Both(et, pt))
  }

  function DbCatalogue(db: Database): (c: Outcome<Both>)
    ensures c.Ok? ==> c.value.et.Valid() && c.value.pt.Valid()
  {
    var et :- DbElementTypes(db);
    Ok(Both(et, DbPropertyTypes(et, db)))
  }

  ghost predicate Fit(files: Outcome<Both>, db: Outcome<Both>, o: Orders) {
    files.Ok? && db.Ok? ==> OrdersFit(files.value.et, files.value.pt, db.value.et, db.value.pt, o)
  }

  // The rows that a run on these directories and this database writes.
  function RunTables(paths: seq<Folder>, db: Database, o: Orders): Outcome<Tables>
    requires Fit(ReadCatalogue(paths), DbCatalogue(db), o)
  {
    var c0 :- ReadCatalogue(paths);
    var c1 :- DbCatalogue(db);
    Generate(c0.et, c0.pt, c1.et, c1.pt, o)
  }

  // The main script up to the new directory; no files stand for no changes.
  method Run(paths: seq<Folder>, db: Database, o: Orders) returns (files: Outcome<Folder>)
    requires Fit(ReadCatalogue(paths), DbCatalogue(db), o)
    ensures RunTables(paths, db, o).Raises? <==> files.Raises?
    ensures files.Ok? ==> files.value == Render(RunTables(paths, db, o).value)
  {
    hide ElementTable, ReferenceTable, PropertyTable, PairTable, AddReferences, AddPairs, OrdersFit, Generate,
         DbElementTypes, DbPropertyTypes;
    var et0 := ReadElementTypes(paths);
    if et0.Raises? {
      return Raises;
    }
    var et1 := BuildDbElementTypes(db);
    if et1.Raises? {
      return Raises;
    }
    var pt0 := ReadPropertyTypes(et0.value, paths);
    if pt0.Raises? {
      return Raises;
    }
    var pt1 := BuildDbPropertyTypes(et1.value, db);
    files := WriteFiles(et0.value, pt0.value, et1.value, pt1, o);
  }

  // Sound databases, and changelogs with the care of the generator.
  ghost predicate Usable(paths: seq<Folder>, db: Database) {
    TablesOf(paths).Ok? && Consistent(TablesOf(paths).value) && Sound(db)
  }

  lemma UsableReads(paths: seq<Folder>, db: Database)
    requires Usable(paths, db)
    ensures ReadCatalogue(paths).Ok? && DbCatalogue(db).Ok?
    ensures
      var c0, c1 := ReadCatalogue(paths).value, DbCatalogue(db).value;
      Reflects(TablesOf(paths).value, c0.et, c0.pt) && DistinctIds(c0.et) && DistinctIds(c0.pt) && Closed(c1.et, c1.pt)
  {
    hide Reflects, Closed, DistinctIds, TablesOf, ElementTypesOf, PropertyTypesOf;
    ConsistentReads(TablesOf(paths).value);
    SoundReads(db);
  }

  // Whether the database or the changelogs list an element type, or there is
  // no property type either.
  predicate Listed(paths: seq<Folder>, db: Database)
    requires ReadCatalogue(paths).Ok? && DbCatalogue(db).Ok?
  {
    HasElements(ReadCatalogue(paths).value.et, DbCatalogue(db).value.et, DbCatalogue(db).value.pt)
  }

  ghost predicate WritesNothing(paths: seq<Folder>, db: Database) {
    ReadCatalogue(paths).Ok? && DbCatalogue(db).Ok? &&
    forall o | Fit(ReadCatalogue(paths), DbCatalogue(db), o) :: RunTables(paths, db, o) == Ok(Tables([], [], [], []))
  }

  // A usable run never raises, and what it writes fits the CSV fields.
  lemma RunSucceeds(paths: seq<Folder>, db: Database, o: Orders)
    requires Usable(paths, db) && Fit(ReadCatalogue(paths), DbCatalogue(db), o)
    ensures ReadCatalogue(paths).Ok? && DbCatalogue(db).Ok?
    ensures RunTables(paths, db, o).Ok? && CleanTables(RunTables(paths, db, o).value)
  {
    hide Reflects, Closed, OrdersFit, Generate, ReadCatalogue, DbCatalogue;
    UsableReads(paths, db);
    var c0, c1 := ReadCatalogue(paths).value, DbCatalogue(db).value;
    WhatIsWritten(TablesOf(paths).value, c0.et, c0.pt, c1.et, c1.pt, o);
    WrittenClean(TablesOf(paths).value, c0.et, c0.pt, c1.et, c1.pt, o);
  }

  // The catalogue after a run, whatever the order and number in which the old
  // directories and the new one are listed.
  lemma RunKeepsConsistency(paths: seq<Folder>, db: Database, o: Orders, paths2: seq<Folder>)
    requires Usable(paths, db) && Fit(ReadCatalogue(paths), DbCatalogue(db), o)
    requires ReadCatalogue(paths).Ok? && DbCatalogue(db).Ok? && Listed(paths, db)
    requires RunTables(paths, db, o).Ok?
    requires forall f :: f in paths2 <==> f in paths || f == Render(RunTables(paths, db, o).value)
    ensures TablesOf(paths2).Ok? && Consistent(TablesOf(paths2).value)
    ensures Merged(TablesOf(paths2).value, TablesOf(paths).value, RunTables(paths, db, o).value)
  {
    hide Reflects, Closed, OrdersFit, Generate, ReadCatalogue, DbCatalogue, TablesOf, Consistent, Merged, Sound;
    RunSucceeds(paths, db, o);
    UsableReads(paths, db);
    TablesMerge(paths, RunTables(paths, db, o).value, paths2);
    var c0, c1 := ReadCatalogue(paths).value, DbCatalogue(db).value;
    NextConsistent(TablesOf(paths).value, c0.et, c0.pt, c1.et, c1.pt, o, TablesOf(paths2).value);
  }

  // The next run on the same database has nothing left to write.
  lemma RunCoversDatabase(t0: Tables, et0: ElementTypes, pt0: PropertyTypes, et1: ElementTypes, pt1: PropertyTypes,
                          o: Orders, t2: Tables, et2: ElementTypes, pt2: PropertyTypes)
    requires Situation(t0, et0, pt0, et1, pt1, o) && Generate(et0, pt0, et1, pt1, o).Ok?
    requires Merged(t2, t0, Generate(et0, pt0, et1, pt1, o).value)
    requires Consistent(t2) && Reflects(t2, et2, pt2) && DistinctIds(et2)
    ensures et1.Valid() && pt1.Valid() && Covered(et2, pt2, et1, pt1)
  {
    hide Generate, Ran, Merged, Consistent, DistinctIds, OrdersFit, Closed;
    var out := Generate(et0, pt0, et1, pt1, o).value;
    RunRan(t0, et0, pt0, et1, pt1, o);
    Fits(t0, et0, pt0, et1, pt1, o);
    ElementIdsReadBack(t0, et0, pt0, et1, pt1, o, out, t2, et2, pt2);
    PropertyIdsReadBack(t0, et0, pt0, et1, pt1, o, out, t2, et2, pt2);
    forall n, k | n in et1.id && k in et1.info[n].at ensures n in et2.id && k in et2.info[n].at {
      ReferenceReadsBack(t0, et0, pt0, et1, pt1, o, out, t2, et2, pt2, n, k);
    }
    forall p, e | p in pt1.id && e in pt1.info[p].elements ensures p in pt2.id && e in pt2.info[p].elements && e != "" {
      PairReadsBack(t0, et0, pt0, et1, pt1, o, out, t2, et2, pt2, p, e);
    }
  }

  lemma SecondRunWritesNothing(paths: seq<Folder>, db: Database, o: Orders, paths2: seq<Folder>)
    requires Usable(paths, db) && Fit(ReadCatalogue(paths), DbCatalogue(db), o)
    requires ReadCatalogue(paths).Ok? && DbCatalogue(db).Ok? && Listed(paths, db)
    requires RunTables(paths, db, o).Ok?
    requires forall f :: f in paths2 <==> f in paths || f == Render(RunTables(paths, db, o).value)
    ensures Usable(paths2, db) && WritesNothing(paths2, db)
  {
    hide Reflects, Closed, OrdersFit, Generate, ReadCatalogue, DbCatalogue, TablesOf, Consistent, Sound, Covered,
         DistinctIds;
    UsableReads(paths, db);
    RunKeepsConsistency(paths, db, o, paths2);
    UsableReads(paths2, db);
    var c0, c1, c2 := ReadCatalogue(paths).value, DbCatalogue(db).value, ReadCatalogue(paths2).value;
    var t0, t2 := TablesOf(paths).value, TablesOf(paths2).value;
    RunCoversDatabase(t0, c0.et, c0.pt, c1.et, c1.pt, o, t2, c2.et, c2.pt);
    StillListed(t0, c0.et, c0.pt, c1.et, c1.pt, t2, c2.et, c2.pt);
    forall o2 | Fit(ReadCatalogue(paths2), DbCatalogue(db), o2)
      ensures RunTables(paths2, db, o2) == Ok(Tables([], [], [], []))
    {
      CoveredWritesNothing(c2.et, c2.pt, c1.et, c1.pt, o2);
    }
  }

  lemma StillListed(t0: Tables, et0: ElementTypes, pt0: PropertyTypes, et1: ElementTypes, pt1: PropertyTypes,
                    t2: Tables, et2: ElementTypes, pt2: PropertyTypes)
    requires HasElements(et0, et1, pt1) && et0.Valid() && et1.Valid() && pt1.Valid() && et2.Valid() && pt2.Valid()
    requires Reflects(t0, et0, pt0) && Reflects(t2, et2, pt2) && forall r | r in t0.elements :: r in t2.elements
    requires Covered(et2, pt2, et1, pt1)
    ensures et2.names != [] || pt1.names == []
  {
    if et1.names != [] {
      assert et1.names[0] in et2.id;
      assert et1.names[0] in et2.names;
    } else if et0.names != [] {
      var n := et0.names[0];
      assert n in et0.id;
      var r :| r in t0.elements && r.name == n;
      assert n in et2.names;
    }
  }

  // Without any element type the property types are written again and again:
  // the next run finds no element type either and lists them all once more.
  lemma ElementlessRunRepeats(paths: seq<Folder>, db: Database, o: Orders, paths2: seq<Folder>)
    requires Usable(paths, db) && Fit(ReadCatalogue(paths), DbCatalogue(db), o)
    requires ReadCatalogue(paths).Ok? && DbCatalogue(db).Ok? && !Listed(paths, db)
    requires RunTables(paths, db, o).Ok?
    requires forall f :: f in paths2 <==> f in paths || f == Render(RunTables(paths, db, o).value)
    ensures !WritesNothing(paths2, db)
  {
    hide Reflects, Closed, OrdersFit, Generate, ReadCatalogue, DbCatalogue, TablesOf, Consistent, Sound;
    UsableReads(paths, db);
    RunSucceeds(paths, db, o);
    var c0, c1 := ReadCatalogue(paths).value, DbCatalogue(db).value;
    var out := RunTables(paths, db, o).value;
    TablesMerge(paths, out, paths2);
    ElementlessTables(TablesOf(paths).value, c0.et, c0.pt, c1.et, c1.pt, o, TablesOf(paths2).value);
    ElementlessReads(paths2);
    var c2 := ReadCatalogue(paths2).value;
    ElementlessOrders(TablesOf(paths).value, c0.et, c0.pt, c1.et, c1.pt, o, c2.et, c2.pt);
    assert Fit(ReadCatalogue(paths2), DbCatalogue(db), o);
  }

  // The tables after such a run: property types and references to nothing.
  lemma ElementlessTables(t0: Tables, et0: ElementTypes, pt0: PropertyTypes, et1: ElementTypes, pt1: PropertyTypes,
                          o: Orders, t2: Tables)
    requires Situation(t0, et0, pt0, et1, pt1, o) && !HasElements(et0, et1, pt1)
    requires Generate(et0, pt0, et1, pt1, o).Ok? && Merged(t2, t0, Generate(et0, pt0, et1, pt1, o).value)
    ensures t2.elements == [] && t2.pairs == []
  {
    hide Generate, Assigned, LastId, WrittenReferences, WrittenProperties;
    NoElements(t0, et0, pt0);
    WhatIsWritten(t0, et0, pt0, et1, pt1, o);
    NewNames(t0, et0, pt0, et1, pt1, o);
    PairOrder(t0, et0, pt0, et1, pt1, o);
    assert forall n :: n !in et1.names && n !in et1.id;
    if t2.elements != [] {
      SomeMember(t2.elements);
    }
    assert forall c :: c !in t0.pairs;
    assert forall pair :: pair !in o.pairs;
    if t2.pairs != [] {
      SomeMember(t2.pairs);
    }
  }

  lemma ElementlessReads(paths: seq<Folder>)
    requires TablesOf(paths).Ok? && TablesOf(paths).value.elements == [] && TablesOf(paths).value.pairs == []
    ensures ReadCatalogue(paths).Ok? && ReadCatalogue(paths).value.et.names == []
    ensures ReadCatalogue(paths).value.pt == PropertiesOf(TablesOf(paths).value.properties)
  {
    hide TablesOf, PropertiesOf;
    ReferencesRaise(ElementsOf([]), TablesOf(paths).value.references);
  }

  lemma ElementlessOrders(t0: Tables, et0: ElementTypes, pt0: PropertyTypes, et1: ElementTypes, pt1: PropertyTypes,
                          o: Orders, et2: ElementTypes, pt2: PropertyTypes)
    requires Situation(t0, et0, pt0, et1, pt1, o) && !HasElements(et0, et1, pt1)
    requires et2.Valid() && pt2.Valid() && et2.names == []
    requires forall p | p in pt2.id :: pt2.info[p].elements == []
    ensures OrdersFit(et2, pt2, et1, pt1, o)
    ensures Generate(et2, pt2, et1, pt1, o).Ok? ==> Generate(et2, pt2, et1, pt1, o).value.properties != []
  {
    hide Generate, LastId, NewProperties, Reflects;
    ElementlessFit(t0, et0, pt0, et1, pt1, o, et2, pt2);
    if Generate(et2, pt2, et1, pt1, o).Ok? {
      PropertiesWritten(et2, pt2, et1, pt1, o);
      NewPropertiesAt(o.properties, LastId(pt2.names, pt2.id), pt1);
      assert pt1.names[0] in pt1.id;
    }
  }

  lemma ElementlessFit(t0: Tables, et0: ElementTypes, pt0: PropertyTypes, et1: ElementTypes, pt1: PropertyTypes,
                       o: Orders, et2: ElementTypes, pt2: PropertyTypes)
    requires Situation(t0, et0, pt0, et1, pt1, o) && !HasElements(et0, et1, pt1)
    requires et2.Valid() && pt2.Valid() && et2.names == []
    ensures OrdersFit(et2, pt2, et1, pt1, o) && forall p :: p in pt1.id <==> p in o.properties
  {
    hide Reflects, Closed, PairsOf;
    Fits(t0, et0, pt0, et1, pt1, o);
    ElementlessPairs(et1, pt1);
  }

  lemma ElementlessPairs(et1: ElementTypes, pt1: PropertyTypes)
    requires et1.Valid() && pt1.Valid() && ElementsClosed(et1, pt1) && et1.names == []
    ensures PairsOf(pt1) == {}
  {
    forall pair | pair in PairsOf(pt1) ensures pair.1 in et1.names {
    }
  }

  // On usable input, one run settles the changelogs exactly when an element type
  // is listed, or there is no property type.
  lemma SettlesExactly(paths: seq<Folder>, db: Database, o: Orders, paths2: seq<Folder>)
    requires Usable(paths, db) && Fit(ReadCatalogue(paths), DbCatalogue(db), o)
    requires RunTables(paths, db, o).Ok? ==>
      forall f :: f in paths2 <==> f in paths || f == Render(RunTables(paths, db, o).value)
    ensures ReadCatalogue(paths).Ok? && DbCatalogue(db).Ok? && RunTables(paths, db, o).Ok?
    ensures WritesNothing(paths2, db) <==> Listed(paths, db)
  {
    hide Reflects, Closed, OrdersFit, Generate, ReadCatalogue, DbCatalogue, TablesOf, Consistent, Sound,
         WritesNothing, Listed;
    RunSucceeds(paths, db, o);
    if Listed(paths, db) {
      SecondRunWritesNothing(paths, db, o, paths2);
    } else {
      ElementlessRunRepeats(paths, db, o, paths2);
    }
  }

  // One property type and no element type: written again by every run.
  const LONE := Database([], [], [PropertyRow(1, "p", "k", "u")], [])

  lemma LonePropertyType(o: Orders, paths2: seq<Folder>)
    requires Fit(ReadCatalogue([]), DbCatalogue(LONE), o)
    requires RunTables([], LONE, o).Ok? ==> forall f :: f in paths2 <==> f == Render(RunTables([], LONE, o).value)
    ensures !WritesNothing(paths2, LONE)
  {
    hide OrdersFit, Generate, ReadCatalogue, DbCatalogue, Usable, WritesNothing, Listed, Fit;
    LoneIsUsable();
    SettlesExactly([], LONE, o, paths2);
  }

  lemma LoneIsUsable()
    ensures Usable([], LONE) && ReadCatalogue([]).Ok? && DbCatalogue(LONE).Ok? && !Listed([], LONE)
  {
    hide ReadCatalogue, DbCatalogue, Sound, Consistent, TablesOf;
    NoChangelogs();
    LoneCatalogue();
    LoneIsSound();
  }

  lemma NoChangelogs()
    ensures TablesOf([]) == Ok(Tables([], [], [], [])) && Consistent(Tables([], [], [], []))
    ensures ReadCatalogue([]).Ok? && ReadCatalogue([]).value.et.names == []
  {
  }

  lemma LoneProperty()
    ensures PropertiesOf(LONE.properties).names == ["p"] && ElementsOf([]) == Types([], map[], map[])
  {
    assert LONE.properties[..0] == [];
  }

  lemma LoneCatalogue()
    ensures DbCatalogue(LONE).Ok? && DbCatalogue(LONE).value.et.names == [] && DbCatalogue(LONE).value.pt.names == ["p"]
  {
    hide PropertiesOf, ElementsOf;
    LoneProperty();
  }

  lemma LoneIsSound()
    ensures Sound(LONE)
  {
    hide PropertiesOf, ElementsOf, FindTypeById;
  }
}
