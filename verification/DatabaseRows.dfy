// What the rows of the database mean: the references of an element type, the
// element types of a property type, and the ids that a run writes for them.

module DatabaseRows {
  import opened Text
  import opened Catalogue
  import opened Changelog
  import opened Convergence
  import opened ReadBack
  import opened References
  import opened Runs
  import H = History

  // -------------------------------------------------------- the references

  // Element types have one id each, and property types too.
  ghost predicate Keyed(db: Database) {
    Sound(db) && OneIdPerName(db.elements) && OneIdPerProperty(db.properties)
  }

  ghost predicate Names(ref: DbReference, parent: int, key: string) {
    ref.parent == parent && ref.key == key
  }

  // Row i is the last one of a parent and a key.
  ghost predicate Decides(refs: seq<DbReference>, i: nat, parent: int, key: string) {
    i < |refs| && Names(refs[i], parent, key) && forall j | i < j < |refs| :: !Names(refs[j], parent, key)
  }

  lemma AddDbReferenceAt(t: ElementTypes, ref: DbReference, name: string, key: string)
    requires t.Valid() && AddDbReference(t, ref).Ok? && name in t.id
    ensures
      var at := AddDbReference(t, ref).value.info[name].at;
      if ref.key == key && FindTypeById(t.names, t.id, ref.parent) == name then
        key in at && at[key] == FindTypeById(t.names, t.id, ref.child)
      else (key in at <==> key in t.info[name].at) && (key in at ==> at[key] == t.info[name].at[key])
  {
    hide FindTypeById;
  }

  // Keys and children as the rows give them: a key is known exactly if a row has
  // it, and leads to the child of the last such row.
  ghost predicate Follows(at: map<string, string>, elements: seq<ElementRow>, refs: seq<DbReference>, parent: int,
                          key: string) {
    (key in at <==> exists i: nat :: Decides(refs, i, parent, key)) &&
    forall i: nat | Decides(refs, i, parent, key) :: key in at && ElementRow(refs[i].child, at[key]) in elements
  }

  lemma {:induction false} DbReferencesAt(t: ElementTypes, elements: seq<ElementRow>, refs: seq<DbReference>,
                                          name: string, key: string)
    requires t.Valid() && DistinctIds(t) && AddDbReferences(t, refs).Ok? && name in t.id && name != ""
    requires key !in t.info[name].at
    requires forall r | r in refs :: ElementRow(r.child, FindTypeById(t.names, t.id, r.child)) in elements
    ensures Follows(AddDbReferences(t, refs).value.info[name].at, elements, refs, t.id[name], key)
  {
    hide AddDbReference, FindTypeById, DistinctIds;
    if refs == [] {
      NothingDecides(t.id[name], key);
    } else {
      var n := |refs| - 1;
      DbReferencesAt(t, elements, refs[..n], name, key);
      var u := AddDbReferences(t, refs[..n]).value;
      AddDbReferenceAt(u, refs[n], name, key);
      FindExactly(t, refs[n].parent, name);
      assert refs[n] in refs;
      FollowsSnoc(u.info[name].at, AddDbReference(u, refs[n]).value.info[name].at, elements, refs, t.id[name], key);
    }
  }

  lemma NothingDecides(parent: int, key: string)
    ensures forall i: nat :: !Decides([], i, parent, key)
  {
  }

  lemma FollowsSnoc(at: map<string, string>, more: map<string, string>, elements: seq<ElementRow>,
                    refs: seq<DbReference>, parent: int, key: string)
    requires refs != [] && Follows(at, elements, refs[..|refs| - 1], parent, key)
    requires
      var last := refs[|refs| - 1];
      if Names(last, parent, key) then key in more && ElementRow(last.child, more[key]) in elements
      else (key in more <==> key in at) && (key in more ==> more[key] == at[key])
    ensures Follows(more, elements, refs, parent, key)
  {
    hide Decides;
    var n := |refs| - 1;
    DecidesSnoc(refs, parent, key);
    if Names(refs[n], parent, key) {
      assert Decides(refs, n, parent, key);
    } else {
      if key in more {
        var i: nat :| Decides(refs[..n], i, parent, key);
        assert Decides(refs, i, parent, key);
      }
      forall i: nat | Decides(refs, i, parent, key)
        ensures key in more && ElementRow(refs[i].child, more[key]) in elements
      {
        assert Decides(refs[..n], i, parent, key) && refs[..n][i] == refs[i];
      }
    }
  }

  lemma DecidesSnoc(refs: seq<DbReference>, parent: int, key: string)
    requires refs != []
    ensures
      var n := |refs| - 1;
      if Names(refs[n], parent, key) then
        Decides(refs, n, parent, key) && forall i: nat | Decides(refs, i, parent, key) :: i == n
      else
        forall i: nat ::
          (Decides(refs, i, parent, key) <==> Decides(refs[..n], i, parent, key)) &&
          (Decides(refs, i, parent, key) ==> i < n)
  {
  }

  // The references of the catalogue are the rows of the database.
  lemma DbReferencesExactly(db: Database, n: string, k: string)
    requires Keyed(db)
    ensures DbCatalogue(db).Ok?
    ensures
      var et := DbCatalogue(db).value.et;
      (n in et.id <==> exists i :: ElementRow(i, n) in db.elements) &&
      (n in et.id ==>
        ElementRow(et.id[n], n) in db.elements &&
        Follows(et.info[n].at, db.elements, db.references, et.id[n], k))
  {
    hide AddDbReferences, AddDbPairs, ElementsOf, PropertiesOf, FindTypeById, Follows, DistinctIds;
    var t := ElementsOf(db.elements);
    ElementIds(db.elements);
    SoundReads(db);
    ListedNames(db, n);
    if n in t.id {
      ChildrenListed(db);
      DbReferencesAt(t, db.elements, db.references, n, k);
    }
  }

  lemma ListedNames(db: Database, n: string)
    requires Keyed(db)
    ensures
      var t := ElementsOf(db.elements);
      (n in t.id <==> exists i :: ElementRow(i, n) in db.elements) &&
      (n in t.id ==> n != "" && ElementRow(t.id[n], n) in db.elements && t.info[n] == NOTHING)
  {
    var t := ElementsOf(db.elements);
    if i :| ElementRow(i, n) in db.elements {
      assert ElementRow(i, n).name == n;
    }
  }

  lemma ChildrenListed(db: Database)
    requires Keyed(db)
    ensures
      var t := ElementsOf(db.elements);
      forall r | r in db.references :: ElementRow(r.child, FindTypeById(t.names, t.id, r.child)) in db.elements
  {
    var t := ElementsOf(db.elements);
    forall r | r in db.references ensures ElementRow(r.child, FindTypeById(t.names, t.id, r.child)) in db.elements {
      var c := FindTypeById(t.names, t.id, r.child);
      assert c in t.names && t.id[c] == r.child;
    }
  }

  // ------------------------------------------------ property types and pairs

  lemma {:induction false} DbPairsAt(et: ElementTypes, t: PropertyTypes, pairs: seq<PairRow>, p: string, e: string)
    requires et.Valid() && t.Valid() && DistinctIds(et) && DistinctIds(t)
    requires p in t.id && e in et.id && e != "" && p != ""
    ensures
      e in AddDbPairs(et, t, pairs).info[p].elements <==>
      e in t.info[p].elements || PairRow(et.id[e], t.id[p]) in pairs
  {
    hide FindTypeById, DistinctIds, AddPair;
    if pairs != [] {
      var n := |pairs| - 1;
      DbPairsAt(et, t, pairs[..n], p, e);
      InSnoc(pairs, PairRow(et.id[e], t.id[p]));
      OnePairAt(et, t, AddDbPairs(et, t, pairs[..n]), pairs[n], p, e);
    }
  }

  lemma InSnoc(pairs: seq<PairRow>, c: PairRow)
    requires pairs != []
    ensures
      var n := |pairs| - 1;
      c in pairs <==> c in pairs[..n] || c == pairs[n]
  {
    assert pairs == pairs[..|pairs| - 1] + [pairs[|pairs| - 1]];
  }

  lemma OnePairAt(et: ElementTypes, t: PropertyTypes, u: PropertyTypes, c: PairRow, p: string, e: string)
    requires et.Valid() && t.Valid() && u.Valid() && u.names == t.names && u.id == t.id
    requires DistinctIds(et) && DistinctIds(t) && p in t.id && e in et.id && e != "" && p != ""
    ensures
      var added := AddPair(et, u, c);
      var v := if added.Raises? then u else added.value;
      e in v.info[p].elements <==> e in u.info[p].elements || c == PairRow(et.id[e], t.id[p])
  {
    hide FindTypeById, DistinctIds, AddPair, Attaches;
    PairRowAttaches(et, t, c, p, e);
    SameAttachment(et, t, u, c, p, e);
    if AddPair(et, u, c).Ok? {
      AddPairElements(et, u, c, p, e);
    } else {
      NothingAttached(et, u, c, p, e);
    }
  }

  lemma PairRowAttaches(et: ElementTypes, t: PropertyTypes, c: PairRow, p: string, e: string)
    requires et.Valid() && t.Valid() && DistinctIds(et) && DistinctIds(t)
    requires p in t.id && e in et.id && e != "" && p != ""
    ensures Attaches(et, t, c, p, e) <==> c == PairRow(et.id[e], t.id[p])
  {
    hide FindTypeById, DistinctIds;
    FindExactly(t, c.property, p);
    FindExactly(et, c.element, e);
  }

  lemma NothingAttached(et: ElementTypes, t: PropertyTypes, c: PairRow, p: string, e: string)
    requires et.Valid() && t.Valid() && p in t.id && AddPair(et, t, c).Raises?
    ensures !Attaches(et, t, c, p, e)
  {
    hide FindTypeById;
  }

  lemma {:induction false} DbPairsKeepKinds(et: ElementTypes, t: PropertyTypes, pairs: seq<PairRow>, p: string)
    requires et.Valid() && t.Valid() && p in t.id
    ensures
      var u := AddDbPairs(et, t, pairs);
      u.info[p].kind == t.info[p].kind && u.info[p].unit == t.info[p].unit
  {
    hide AddPair;
    if pairs != [] {
      var n := |pairs| - 1;
      DbPairsKeepKinds(et, t, pairs[..n], p);
      PairKeepsKind(et, AddDbPairs(et, t, pairs[..n]), pairs[n], p);
    }
  }

  lemma PairKeepsKind(et: ElementTypes, t: PropertyTypes, c: PairRow, p: string)
    requires et.Valid() && t.Valid() && p in t.id
    ensures AddPair(et, t, c).Ok? ==>
      var u := AddPair(et, t, c).value;
      p in u.id && u.info[p].kind == t.info[p].kind && u.info[p].unit == t.info[p].unit
  {
    hide FindTypeById;
  }

  // Kind and unit come from one row of the database.
  lemma {:induction false} KindFromRow(rows: seq<PropertyRow>, p: string)
    requires p in PropertiesOf(rows).id
    ensures
      var t := PropertiesOf(rows);
      PropertyRow(t.id[p], p, t.info[p].kind, t.info[p].unit) in rows
  {
    hide PropertiesOf;
    NoProperties();
    assert rows != [];
    var n := |rows| - 1;
    PropertiesSnoc(rows, n);
    assert rows[..n + 1] == rows;
    if p != rows[n].name {
      KindFromRow(rows[..n], p);
    }
  }

  lemma NoProperties()
    ensures PropertiesOf([]).id == map[]
  {
  }

  // The property types of the catalogue, and what is attached to them, are the
  // rows of the database.
  lemma DbPropertiesExactly(db: Database, p: string, e: string)
    requires Keyed(db)
    ensures DbCatalogue(db).Ok?
    ensures
      var (et, pt) := (DbCatalogue(db).value.et, DbCatalogue(db).value.pt);
      (p in pt.id <==> exists r | r in db.properties :: r.name == p) &&
      (p in pt.id ==> PropertyRow(pt.id[p], p, pt.info[p].kind, pt.info[p].unit) in db.properties) &&
      (p in pt.id && p != "" && e in et.id ==>
        (e in pt.info[p].elements <==> PairRow(et.id[e], pt.id[p]) in db.pairs))
  {
    hide AddDbReferences, AddDbPairs, ElementsOf, PropertiesOf, FindTypeById, Sound;
    SoundReads(db);
    PropertiesOfRows(db, p);
    if p in PropertiesOf(db.properties).id && p != "" {
      var et := DbElementTypes(db).value;
      if e in et.id {
        AttachedByRows(db, et, p, e);
      }
    }
  }

  lemma PropertiesOfRows(db: Database, p: string)
    requires DbElementTypes(db).Ok?
    ensures
      var pt := DbPropertyTypes(DbElementTypes(db).value, db);
      (p in pt.id <==> exists r | r in db.properties :: r.name == p) &&
      (p in pt.id ==> PropertyRow(pt.id[p], p, pt.info[p].kind, pt.info[p].unit) in db.properties)
  {
    hide AddDbReferences, AddDbPairs;
    var t := PropertiesOf(db.properties);
    if p in t.id {
      KindFromRow(db.properties, p);
      DbPairsKeepKinds(DbElementTypes(db).value, t, db.pairs, p);
    }
  }

  lemma AttachedByRows(db: Database, et: ElementTypes, p: string, e: string)
    requires Keyed(db) && DbElementTypes(db) == Ok(et) && p in PropertiesOf(db.properties).id && p != "" && e in et.id
    ensures
      var pt := DbPropertyTypes(et, db);
      p in pt.id && (e in pt.info[p].elements <==> PairRow(et.id[e], pt.id[p]) in db.pairs)
  {
    hide AddDbReferences, AddDbPairs, ElementsOf, PropertiesOf, FindTypeById, DistinctIds, Sound;
    var t := PropertiesOf(db.properties);
    ElementIds(db.elements);
    PropertyIds(db.properties);
    SameDistinct(ElementsOf(db.elements), et);
    ListedNames(db, e);
    NothingAttachedYet(db.properties, p);
    DbPairsAt(et, t, db.pairs, p, e);
  }

  lemma NothingAttachedYet(rows: seq<PropertyRow>, p: string)
    requires p in PropertiesOf(rows).id
    ensures PropertiesOf(rows).info[p].elements == []
  {
  }

  lemma SameDistinct(t: ElementTypes, u: ElementTypes)
    requires t.Valid() && u.Valid() && t.names == u.names && t.id == u.id && DistinctIds(t)
    ensures DistinctIds(u)
  {
  }

  // ----------------------------------------------------- what a run numbers

  // The greatest of the ids, or 0 if there is none.
  ghost predicate Greatest(ids: set<int>, last: int) {
    if ids == {} then last == 0 else last in ids && forall i | i in ids :: i <= last
  }

  ghost function ElementIdsIn(t: Tables): set<int> {
    set r | r in t.elements :: r.id
  }

  ghost function PropertyIdsIn(t: Tables): set<int> {
    set r | r in t.properties :: r.id
  }

  lemma LastElementId(t: Tables, et: ElementTypes, pt: PropertyTypes, last: int)
    requires Reflects(t, et, pt) && Greatest(ElementIdsIn(t), last)
    ensures LastId(et.names, et.id) == last
  {
    hide LastId, FindTypeById;
    LastIdIs(et.names, et.id);
    forall r | r in t.elements ensures r.name in et.names {
      assert r.name in et.id;
    }
    if et.names != [] {
      var n :| n in et.names && et.id[n] == LastId(et.names, et.id);
      var r :| r in t.elements && r.name == n;
      assert r.id in ElementIdsIn(t);
      var m :| m in t.elements && m.id == last;
      assert m.name in et.names;
    }
  }

  lemma LastPropertyId(t: Tables, et: ElementTypes, pt: PropertyTypes, last: int)
    requires Reflects(t, et, pt) && Greatest(PropertyIdsIn(t), last)
    ensures LastId(pt.names, pt.id) == last
  {
    hide LastId, FindTypeById;
    LastIdIs(pt.names, pt.id);
    forall r | r in t.properties ensures r.name in pt.names {
      assert r.name in pt.id;
    }
    if pt.names != [] {
      var n :| n in pt.names && pt.id[n] == LastId(pt.names, pt.id);
      var r :| r in t.properties && r.name == n;
      assert r.id in PropertyIdsIn(t);
      var m :| m in t.properties && m.id == last;
      assert m.name in pt.names;
    }
  }

  // A run writes the element types that the changelogs lack, numbered from the
  // greatest id on, or from 1, in the order in which it lists them; and property
  // types likewise, with kind and unit as in the database.
  lemma RunNumbersOn(paths: seq<Folder>, db: Database, o: Orders, last: int, lastProperty: int)
    requires Usable(paths, db) && Keyed(db) && Fit(ReadCatalogue(paths), DbCatalogue(db), o)
    requires
      var t := TablesOf(paths).value;
      Greatest(ElementIdsIn(t), last) && Greatest(PropertyIdsIn(t), lastProperty)
    ensures RunTables(paths, db, o).Ok?
    ensures
      var t, out := TablesOf(paths).value, RunTables(paths, db, o).value;
      (forall n :: n in o.elements <==> IsMissing(db, t, n)) && |out.elements| == |o.elements| &&
      (forall i | 0 <= i < |o.elements| :: out.elements[i] == ElementRow(last + 1 + i, o.elements[i])) &&
      |out.properties| == |o.properties| &&
      forall i | 0 <= i < |o.properties| ::
        out.properties[i].id == lastProperty + 1 + i && out.properties[i].name == o.properties[i] &&
        IsTyped(db, out.properties[i])
  {
    hide Reflects, Closed, OrdersFit, Generate, ReadCatalogue, DbCatalogue, TablesOf, Sound, LastId, Greatest,
         ElementIdsIn, PropertyIdsIn, IsTyped, IsMissing, Consistent;
    RunSucceeds(paths, db, o);
    UsableReads(paths, db);
    var c0, c1, t := ReadCatalogue(paths).value, DbCatalogue(db).value, TablesOf(paths).value;
    LastElementId(t, c0.et, c0.pt, last);
    LastPropertyId(t, c0.et, c0.pt, lastProperty);
    RowsOfRun(c0, c1, o);
    NewElementsAt(o.elements, last);
    NewPropertiesAt(o.properties, lastProperty, c1.pt);
    forall n ensures n in o.elements <==> IsMissing(db, t, n) {
      MissingAreNew(t, c0, db, c1, o, n);
    }
    forall i | 0 <= i < |o.properties| ensures IsTyped(db, RunTables(paths, db, o).value.properties[i]) {
      TypedAsInDatabase(db, c1.pt, o.properties[i], lastProperty + 1 + i);
    }
  }

  // An element type of the database that no changelog row names.
  ghost predicate IsMissing(db: Database, t: Tables, n: string) {
    (exists i :: ElementRow(i, n) in db.elements) && forall r | r in t.elements :: r.name != n
  }

  lemma MissingAreNew(t: Tables, c0: Both, db: Database, c1: Both, o: Orders, n: string)
    requires Keyed(db) && DbCatalogue(db) == Ok(c1) && Situation(t, c0.et, c0.pt, c1.et, c1.pt, o)
    ensures n in o.elements <==> IsMissing(db, t, n)
  {
    hide DbCatalogue, Sound, Reflects, Closed, OrdersFit, Consistent, DistinctIds;
    NewNames(t, c0.et, c0.pt, c1.et, c1.pt, o);
    DbReferencesExactly(db, n, "");
    Fits(t, c0.et, c0.pt, c1.et, c1.pt, o);
    KnownFromRows(t, c0.et, c0.pt, n);
  }

  ghost predicate IsTyped(db: Database, r: PropertyRow) {
    exists x | x in db.properties :: x.name == r.name && x.kind == r.kind && x.unit == r.unit
  }

  lemma TypedAsInDatabase(db: Database, pt: PropertyTypes, p: string, i: int)
    requires Keyed(db) && DbCatalogue(db).Ok? && pt == DbCatalogue(db).value.pt && p in pt.id
    ensures IsTyped(db, PropertyRow(i, p, pt.info[p].kind, pt.info[p].unit))
  {
    hide DbCatalogue, Sound;
    DbPropertiesExactly(db, p, "");
    var x := PropertyRow(pt.id[p], p, pt.info[p].kind, pt.info[p].unit);
    assert x in db.properties;
  }

  lemma KnownFromRows(t: Tables, et: ElementTypes, pt: PropertyTypes, n: string)
    requires Reflects(t, et, pt)
    ensures n in et.id <==> !(forall r | r in t.elements :: r.name != n)
  {
    hide FindTypeById;
  }

  lemma RowsOfRun(c0: Both, c1: Both, o: Orders)
    requires OrdersFit(c0.et, c0.pt, c1.et, c1.pt, o) && Generate(c0.et, c0.pt, c1.et, c1.pt, o).Ok?
    ensures forall n | n in o.properties :: n in c1.pt.id
    ensures
      var out := Generate(c0.et, c0.pt, c1.et, c1.pt, o).value;
      out.elements == NewElements(o.elements, LastId(c0.et.names, c0.et.id)) &&
      out.properties == NewProperties(o.properties, LastId(c0.pt.names, c0.pt.id), c1.pt)
  {
    hide RowsOfTypes, NewPairs, NewElements, NewProperties, Assigned, LastId, WellKept;
  }

  // ------------------------------------------------- rows that read back

  // After a run the reference of a database row is read under its parent and
  // key, and with its child exactly if the key was new or had that child.
  lemma RowReadsBack(paths: seq<Folder>, db: Database, o: Orders, paths2: seq<Folder>, n: string, c: string, k: string,
                     i: nat)
    requires Clear(paths) && Keyed(db) && Fit(ReadCatalogue(paths), DbCatalogue(db), o)
    requires ReadCatalogue(paths).Ok? && DbCatalogue(db).Ok? && Listed(paths, db) && RunTables(paths, db, o).Ok?
    requires forall f :: f in paths2 <==> f in paths || f == Render(RunTables(paths, db, o).value)
    requires IsReference(db, n, k, c, i)
    ensures ReadCatalogue(paths2).Ok?
    ensures
      var et0, et2 := ReadCatalogue(paths).value.et, ReadCatalogue(paths2).value.et;
      n in et2.id && k in et2.info[n].at &&
      (et2.info[n].at[k] == c <==> !(n in et0.id && k in et0.info[n].at) || et0.info[n].at[k] == c)
  {
    hide Sound, ReadCatalogue, DbCatalogue, RunTables, Render, Fit, Listed, Clear, OneIdPerProperty;
    RowIsReference(db, n, k, c, i);
    RunReadsReferences(paths, db, o, paths2, n, k);
  }

  // Row i of the database leads, as the last one of its parent and key, from n to c.
  ghost predicate IsReference(db: Database, n: string, k: string, c: string, i: nat) {
    i < |db.references| && Decides(db.references, i, db.references[i].parent, k) &&
    ElementRow(db.references[i].parent, n) in db.elements && ElementRow(db.references[i].child, c) in db.elements
  }

  lemma RowIsReference(db: Database, n: string, k: string, c: string, i: nat)
    requires Keyed(db) && IsReference(db, n, k, c, i)
    ensures DbCatalogue(db).Ok?
    ensures
      var et := DbCatalogue(db).value.et;
      n in et.id && k in et.info[n].at && et.info[n].at[k] == c
  {
    hide Sound, DbCatalogue, OneIdPerProperty;
    DbReferencesExactly(db, n, k);
    var et := DbCatalogue(db).value.et;
    var parent := ElementRow(db.references[i].parent, n);
    assert ElementRow(et.id[n], n).name == parent.name;
    var child := ElementRow(db.references[i].child, et.info[n].at[k]);
    assert child in db.elements && child.id == ElementRow(db.references[i].child, c).id;
  }

  // Over any history, a row of the database under a new key reads back as its
  // parent, key and child in every later directory.
  lemma RowReadsBackLater(repos: seq<H.Repo>, dbs: seq<Database>, width: nat, from: nat, to: nat,
                          paths: seq<Folder>, paths2: seq<Folder>, n: string, c: string, k: string, i: nat)
    requires H.History(repos, dbs, width) && from < to <= |dbs|
    requires H.Listing(repos[from], paths) && H.Listing(repos[to], paths2)
    requires Keyed(dbs[from]) && IsReference(dbs[from], n, k, c, i) && ReadCatalogue(paths).Ok?
    requires var et0 := ReadCatalogue(paths).value.et; !(n in et0.id && k in et0.info[n].at)
    ensures ReadCatalogue(paths2).Ok?
    ensures
      var et2 := ReadCatalogue(paths2).value.et;
      n in et2.id && k in et2.info[n].at && et2.info[n].at[k] == c
  {
    hide Sound, ReadCatalogue, DbCatalogue, H.Listing, H.History, OneIdPerProperty;
    RowIsReference(dbs[from], n, k, c, i);
    H.WrittenReferenceReadsBack(repos, dbs, width, from, to, paths, paths2, n, k);
  }
}
