// What repeated runs of the changelog generator keep: fresh distinct ids, rows
// that read back as the names they were written for, and a second run on the
// same database that writes nothing.

module Convergence {
  import opened Text
  import opened Catalogue
  import opened Changelog

  // ------------------------------------------------- consistent changelogs

  ghost predicate OneIdPerName(rows: seq<ElementRow>) {
    forall x, y | x in rows && y in rows :: x.id == y.id <==> x.name == y.name
  }

  ghost predicate OneIdPerProperty(rows: seq<PropertyRow>) {
    forall x, y | x in rows && y in rows :: x.id == y.id <==> x.name == y.name
  }

  // Changelogs that the generator wrote, or that were written with its care.
  ghost predicate Consistent(t: Tables) {
    OneIdPerName(t.elements) && OneIdPerProperty(t.properties) &&
    (forall r | r in t.elements :: r.name != "") &&
    (forall r | r in t.references :: ParseInt(r.child).Some?) &&
    (forall c | c in t.pairs :: exists p | p in t.properties :: p.id == c.property) &&
    (t.properties != [] ==> t.elements != [])
  }

  // The catalogue of consistent changelogs, row by row.
  ghost predicate Reflects(t: Tables, et: ElementTypes, pt: PropertyTypes) {
    et.Valid() && pt.Valid() &&
    (forall n :: n in et.id <==> exists r | r in t.elements :: r.name == n) &&
    (forall r | r in t.elements :: et.id[r.name] == r.id) &&
    (forall n :: n in pt.id <==> exists r | r in t.properties :: r.name == n) &&
    (forall r | r in t.properties :: pt.id[r.name] == r.id) &&
    (forall n, k | n in et.id ::
       k in et.info[n].at <==> exists r | r in t.references :: r.key == k && r.parent == et.id[n]) &&
    (forall p, e | p in pt.id :: e in pt.info[p].elements <==>
      exists c | c in t.pairs :: c.property == pt.id[p] && FindTypeById(et.names, et.id, c.element) == e)
  }

  ghost predicate DistinctIds<V>(t: Types<V>)
    requires t.Valid()
  {
    forall m, n | m in t.id && n in t.id && t.id[m] == t.id[n] :: m == n
  }

  lemma ElementIds(rows: seq<ElementRow>)
    requires OneIdPerName(rows)
    ensures forall r | r in rows :: ElementsOf(rows).id[r.name] == r.id
    ensures DistinctIds(ElementsOf(rows))
  {
    var t := ElementsOf(rows);
    forall r | r in rows ensures t.id[r.name] == r.id {
      assert ElementRow(t.id[r.name], r.name) in rows;
    }
    forall m, n | m in t.id && n in t.id && t.id[m] == t.id[n] ensures m == n {
      assert ElementRow(t.id[m], m) in rows && ElementRow(t.id[n], n) in rows;
    }
  }

  lemma PropertyIds(rows: seq<PropertyRow>)
    requires OneIdPerProperty(rows)
    ensures forall r | r in rows :: PropertiesOf(rows).id[r.name] == r.id
    ensures DistinctIds(PropertiesOf(rows))
  {
    var t := PropertiesOf(rows);
    forall r | r in rows ensures t.id[r.name] == r.id {
      assert exists x | x in rows :: x.name == r.name && x.id == t.id[r.name];
    }
    forall m, n | m in t.id && n in t.id && t.id[m] == t.id[n] ensures m == n {
      assert exists x | x in rows :: x.name == m && x.id == t.id[m];
      assert exists x | x in rows :: x.name == n && x.id == t.id[n];
    }
  }

  // With distinct ids, looking a number up finds a name exactly when it is its id.
  lemma FindExactly<V>(t: Types<V>, i: int, name: string)
    requires t.Valid() && DistinctIds(t) && name in t.id
    ensures FindTypeById(t.names, t.id, i) == name && name != "" ==> t.id[name] == i
    ensures t.id[name] == i ==> FindTypeById(t.names, t.id, i) == name
  {
    FindIsInverse(t.names, t.id, name);
  }

  // Consistent changelogs are read without an exception.
  lemma ConsistentReads(t: Tables)
    requires Consistent(t)
    ensures ElementTypesOf(t).Ok? && DistinctIds(ElementTypesOf(t).value)
    ensures PropertyTypesOf(ElementTypesOf(t).value, t).Ok? &&
      DistinctIds(PropertyTypesOf(ElementTypesOf(t).value, t).value)
    ensures Reflects(t, ElementTypesOf(t).value, PropertyTypesOf(ElementTypesOf(t).value, t).value)
  {
    hide AddReferences, AddPairs, ElementsOf, PropertiesOf, FindTypeById, Consistent;
    var e, p := ElementsOf(t.elements), PropertiesOf(t.properties);
    ConsistentIds(t);
    ReferencesRaise(e, t.references);
    PairsResolve(t);
    var et := ElementTypesOf(t).value;
    PairsRaise(et, p, t.pairs);
    var pt := PropertyTypesOf(et, t).value;
    ReferencesReflected(t, e);
    PairsReflected(t, et, p);
  }

  lemma ReferencesReflected(t: Tables, e: ElementTypes)
    requires Consistent(t) && e == ElementsOf(t.elements) && DistinctIds(e)
    requires AddReferences(e, t.references).Ok?
    ensures
      var et := AddReferences(e, t.references).value;
      forall n, k | n in et.id ::
        k in et.info[n].at <==> exists r | r in t.references :: r.key == k && r.parent == et.id[n]
  {
    hide AddReferences, ElementsOf, DistinctIds, Consistent;
    var et := AddReferences(e, t.references).value;
    forall n, k | n in et.id
      ensures k in et.info[n].at <==> exists r | r in t.references :: r.key == k && r.parent == et.id[n]
    {
      ReferencesExactly(t, e, n, k);
    }
  }

  lemma PairsReflected(t: Tables, et: ElementTypes, p: PropertyTypes)
    requires Consistent(t) && et.Valid() && p == PropertiesOf(t.properties) && DistinctIds(p)
    requires AddPairs(et, p, t.pairs).Ok?
    requires forall c | c in t.pairs :: exists r | r in t.properties :: r.id == c.property
    ensures
      var pt := AddPairs(et, p, t.pairs).value;
      forall q, x | q in pt.id :: x in pt.info[q].elements <==>
        exists c | c in t.pairs :: c.property == pt.id[q] && FindTypeById(et.names, et.id, c.element) == x
  {
    hide AddPairs, PropertiesOf, FindTypeById, DistinctIds, Consistent;
    var pt := AddPairs(et, p, t.pairs).value;
    forall q, x | q in pt.id
      ensures x in pt.info[q].elements <==>
              exists c | c in t.pairs :: c.property == pt.id[q] && FindTypeById(et.names, et.id, c.element) == x
    {
      PairsExactly(t, et, p, q, x);
    }
  }

  lemma ConsistentIds(t: Tables)
    requires Consistent(t)
    ensures forall r | r in t.elements :: ElementsOf(t.elements).id[r.name] == r.id
    ensures forall r | r in t.properties :: PropertiesOf(t.properties).id[r.name] == r.id
    ensures DistinctIds(ElementsOf(t.elements)) && DistinctIds(PropertiesOf(t.properties))
    ensures forall r | r in t.references :: ParseInt(r.child).Some?
    ensures forall c | c in t.pairs :: exists p | p in t.properties :: p.id == c.property
  {
    hide ElementsOf, PropertiesOf, DistinctIds;
    ElementIds(t.elements);
    PropertyIds(t.properties);
  }

  lemma PairsResolve(t: Tables)
    requires Consistent(t)
    ensures
      var p := PropertiesOf(t.properties);
      forall c | c in t.pairs :: FindTypeById(p.names, p.id, c.property) in p.id
  {
    hide PropertiesOf, FindTypeById, DistinctIds;
    var p := PropertiesOf(t.properties);
    ConsistentIds(t);
    forall c | c in t.pairs ensures FindTypeById(p.names, p.id, c.property) in p.id {
      var row :| row in t.properties && row.id == c.property;
      FindExactly(p, c.property, row.name);
    }
  }

  lemma ReferencesExactly(t: Tables, e: ElementTypes, n: string, k: string)
    requires Consistent(t) && e == ElementsOf(t.elements) && DistinctIds(e) && n in e.id
    requires AddReferences(e, t.references).Ok?
    ensures k in AddReferences(e, t.references).value.info[n].at <==>
      exists r | r in t.references :: r.key == k && r.parent == e.id[n]
  {
    hide AddReferences, FindTypeById;
    ReferenceKeys(e, t.references, n, k);
    assert ElementRow(e.id[n], n) in t.elements && n != "";
    forall r | r in t.references ensures RefersTo(e, r, n, k) <==> r.key == k && r.parent == e.id[n] {
      FindExactly(e, r.parent, n);
    }
  }

  lemma PairsExactly(t: Tables, et: ElementTypes, p: PropertyTypes, q: string, x: string)
    requires Consistent(t) && et.Valid() && p == PropertiesOf(t.properties) && DistinctIds(p) && q in p.id
    requires AddPairs(et, p, t.pairs).Ok?
    requires forall c | c in t.pairs :: exists r | r in t.properties :: r.id == c.property
    ensures
      x in AddPairs(et, p, t.pairs).value.info[q].elements <==>
      exists c | c in t.pairs :: c.property == p.id[q] && FindTypeById(et.names, et.id, c.element) == x
  {
    hide AddPairs, FindTypeById;
    PairElements(et, p, t.pairs, q, x);
    PropertyIds(t.properties);
    forall c | c in t.pairs
      ensures Attaches(et, p, c, q, x) <==> c.property == p.id[q] && FindTypeById(et.names, et.id, c.element) == x
    {
      var row :| row in t.properties && row.id == c.property;
      FindExactly(p, c.property, row.name);
      FindExactly(p, c.property, q);
    }
  }

  // ---------------------------------------------------- the database side

  predicate CleanField(s: string) {
    ',' !in s && '\n' !in s && '\r' !in s
  }

  // A database whose ids resolve and whose texts fit a CSV field.
  ghost predicate Sound(db: Database) {
    var t := ElementsOf(db.elements);
    var p := PropertiesOf(db.properties);
    (forall r | r in db.elements :: r.name != "" && CleanField(r.name)) &&
    (forall r | r in db.references ::
       FindTypeById(t.names, t.id, r.parent) != "" && FindTypeById(t.names, t.id, r.child) != "" &&
       CleanField(r.key)) &&
    (forall r | r in db.properties :: CleanField(r.name) && CleanField(r.kind) && CleanField(r.unit)) &&
    (forall c | c in db.pairs ::
       FindTypeById(p.names, p.id, c.property) in p.id ==> FindTypeById(t.names, t.id, c.element) != "")
  }

  // The references of a type lead to types, under clean keys.
  ghost predicate ReferencesClosed(et: ElementTypes)
    requires et.Valid()
  {
    forall n, k | n in et.id && k in et.info[n].at :: et.info[n].at[k] in et.id && CleanField(k)
  }

  ghost predicate ElementsClosed(et: ElementTypes, pt: PropertyTypes)
    requires et.Valid() && pt.Valid()
  {
    forall p, e | p in pt.id && e in pt.info[p].elements :: e in et.id && e != ""
  }

  ghost predicate CleanInfo(pt: PropertyTypes)
    requires pt.Valid()
  {
    forall p | p in pt.id :: CleanField(p) && CleanField(pt.info[p].kind) && CleanField(pt.info[p].unit)
  }

  lemma {:induction false} DbReferencesClosed(t: ElementTypes, refs: seq<DbReference>)
    requires t.Valid() && WellKept(t) && ReferencesClosed(t)
    requires forall r | r in refs ::
      FindTypeById(t.names, t.id, r.parent) != "" && FindTypeById(t.names, t.id, r.child) != "" && CleanField(r.key)
    ensures AddDbReferences(t, refs).Ok?
    ensures WellKept(AddDbReferences(t, refs).value) && ReferencesClosed(AddDbReferences(t, refs).value)
  {
    hide FindTypeById, PutReference, WellKept, ReferencesClosed;
    if refs != [] {
      var n := |refs| - 1;
      DbReferencesClosed(t, refs[..n]);
      var u := AddDbReferences(t, refs[..n]).value;
      PutReferenceCloses(u, FindTypeById(u.names, u.id, refs[n].parent), refs[n].key,
                         FindTypeById(u.names, u.id, refs[n].child));
    }
  }

  lemma PutReferenceCloses(t: ElementTypes, parent: string, key: string, child: string)
    requires t.Valid() && WellKept(t) && ReferencesClosed(t)
    requires parent in t.id && child in t.id && CleanField(key)
    ensures WellKept(PutReference(t, parent, key, child)) && ReferencesClosed(PutReference(t, parent, key, child))
  {
  }

  lemma {:induction false} DbPairsClosed(et: ElementTypes, t: PropertyTypes, pairs: seq<PairRow>)
    requires et.Valid() && t.Valid() && ElementsClosed(et, t) && CleanInfo(t)
    requires forall c | c in pairs ::
      FindTypeById(t.names, t.id, c.property) in t.id ==> FindTypeById(et.names, et.id, c.element) != ""
    ensures ElementsClosed(et, AddDbPairs(et, t, pairs)) && CleanInfo(AddDbPairs(et, t, pairs))
  {
    hide FindTypeById, PutElement, ElementsClosed, CleanInfo;
    if pairs != [] {
      var n := |pairs| - 1;
      DbPairsClosed(et, t, pairs[..n]);
      var u := AddDbPairs(et, t, pairs[..n]);
      var p, e := FindTypeById(u.names, u.id, pairs[n].property), FindTypeById(et.names, et.id, pairs[n].element);
      if p in u.id {
        PutElementCloses(et, u, p, e);
      }
    }
  }

  lemma PutElementCloses(et: ElementTypes, t: PropertyTypes, p: string, e: string)
    requires et.Valid() && t.Valid() && ElementsClosed(et, t) && CleanInfo(t)
    requires p in t.id && e in et.id && e != ""
    ensures ElementsClosed(et, PutElement(t, p, e)) && CleanInfo(PutElement(t, p, e))
  {
  }

  lemma {:induction false} PropertiesClean(rows: seq<PropertyRow>)
    requires forall r | r in rows :: CleanField(r.name) && CleanField(r.kind) && CleanField(r.unit)
    ensures CleanInfo(PropertiesOf(rows))
  {
    if rows != [] {
      PropertiesClean(rows[..|rows| - 1]);
    }
  }

  // A sound database is read without an exception, and its catalogue is closed.
  ghost predicate Closed(et: ElementTypes, pt: PropertyTypes) {
    et.Valid() && pt.Valid() && WellKept(et) && ReferencesClosed(et) && ElementsClosed(et, pt) && CleanInfo(pt) &&
    forall n | n in et.id :: n != "" && CleanField(n)
  }

  lemma SoundReads(db: Database)
    requires Sound(db)
    ensures DbElementTypes(db).Ok?
    ensures Closed(DbElementTypes(db).value, DbPropertyTypes(DbElementTypes(db).value, db))
  {
    hide AddDbReferences, AddDbPairs, FindTypeById;
    var t := ElementsOf(db.elements);
    DbReferencesClosed(t, db.references);
    var et := DbElementTypes(db).value;
    PropertiesClean(db.properties);
    DbPairsClosed(et, PropertiesOf(db.properties), db.pairs);
    forall n | n in et.id ensures n != "" && CleanField(n) {
      assert ElementRow(t.id[n], n) in db.elements;
    }
  }

  // -------------------------------------------------------- the new rows

  lemma {:induction false} NewElementsAt(order: seq<string>, last: int)
    ensures |NewElements(order, last)| == |order|
    ensures forall i | 0 <= i < |order| :: NewElements(order, last)[i] == ElementRow(last + 1 + i, order[i])
  {
    if order != [] {
      NewElementsAt(order[..|order| - 1], last);
    }
  }

  lemma {:induction false} NewPropertiesAt(order: seq<string>, last: int, pt1: PropertyTypes)
    requires pt1.Valid() && forall n | n in order :: n in pt1.id
    ensures |NewProperties(order, last, pt1)| == |order|
    ensures forall i | 0 <= i < |order| ::
      NewProperties(order, last, pt1)[i] ==
        PropertyRow(last + 1 + i, order[i], pt1.info[order[i]].kind, pt1.info[order[i]].unit)
  {
    if order != [] {
      NewPropertiesAt(order[..|order| - 1], last, pt1);
    }
  }

  // Assigned ids count up from the last one, in the order of the names.
  lemma {:induction false} AssignedAt(order: seq<string>, last: int)
    requires forall i, j | 0 <= i < j < |order| :: order[i] != order[j]
    ensures Assigned(order, last).Keys == (set n | n in order)
    ensures forall i | 0 <= i < |order| :: Assigned(order, last)[order[i]] == last + 1 + i
  {
    if order != [] {
      var n := |order| - 1;
      AssignedAt(order[..n], last);
      assert order == order[..n] + [order[n]];
    }
  }

  predicate Knows(known: map<string, int>, etmap: map<string, int>, name: string) {
    name in known || name in etmap
  }

  function IdIn(known: map<string, int>, etmap: map<string, int>, name: string): (i: int)
    requires Knows(known, etmap, name)
    ensures IdOf(name, known, etmap) == Ok(i)
  {
    if name in known then known[name] else etmap[name]
  }

  function ReferenceFor(known: map<string, int>, etmap: map<string, int>, name: string, key: string,
                        child: string): ReferenceRow
    requires Knows(known, etmap, name) && Knows(known, etmap, child)
  {
    ReferenceRow(IdIn(known, etmap, name), Str(IdIn(known, etmap, child)), key)
  }

  lemma {:induction false} TypeRows(name: string, keys: seq<string>, child: map<string, string>, skip: set<string>,
                                    known: map<string, int>, etmap: map<string, int>)
    requires forall k | k in keys :: k in child && Knows(known, etmap, child[k])
    requires Knows(known, etmap, name)
    ensures RowsOfType(name, keys, child, skip, known, etmap).Ok?
    ensures forall r :: r in RowsOfType(name, keys, child, skip, known, etmap).value <==>
      r.key in keys && r.key !in skip && r == ReferenceFor(known, etmap, name, r.key, child[r.key])
  {
    hide IdOf, ReferenceFor;
    if keys != [] {
      var n := |keys| - 1;
      TypeRows(name, keys[..n], child, skip, known, etmap);
      assert keys == keys[..n] + [keys[n]];
      if keys[n] !in skip {
        RowFor(known, etmap, name, keys[n], child[keys[n]]);
      }
    }
  }

  lemma RowFor(known: map<string, int>, etmap: map<string, int>, name: string, key: string, child: string)
    requires Knows(known, etmap, name) && Knows(known, etmap, child)
    ensures IdOf(name, known, etmap).Ok? && IdOf(child, known, etmap).Ok?
    ensures ReferenceFor(known, etmap, name, key, child) ==
            ReferenceRow(IdOf(name, known, etmap).value, Str(IdOf(child, known, etmap).value), key)
    ensures ReferenceFor(known, etmap, name, key, child).key == key
  {
  }

  // The row that a run writes for the reference of a type under a key.
  ghost predicate WrittenFor(r: ReferenceRow, name: string, added: bool, et0: ElementTypes, et1: ElementTypes,
                             etmap: map<string, int>)
    requires et0.Valid() && et1.Valid() && name in et1.id && AllKnown(et0, et1, etmap) && ReferencesClosed(et1)
  {
    r.key in et1.info[name].at && (added || r.key !in KnownKeys(et0, name)) &&
    r == ReferenceFor(et0.id, etmap, name, r.key, et1.info[name].at[r.key])
  }

  ghost predicate AllKnown(et0: ElementTypes, et1: ElementTypes, etmap: map<string, int>) {
    forall n | n in et1.id :: Knows(et0.id, etmap, n)
  }

  lemma {:induction false} TypesRows(order: seq<string>, added: bool, et0: ElementTypes, et1: ElementTypes,
                                     etmap: map<string, int>)
    requires et0.Valid() && et1.Valid() && WellKept(et1) && ReferencesClosed(et1) && AllKnown(et0, et1, etmap)
    requires forall n | n in order :: n in et1.id && (added || n in et0.id)
    ensures RowsOfTypes(order, added, et0, et1, etmap).Ok?
    ensures forall r :: r in RowsOfTypes(order, added, et0, et1, etmap).value <==>
      exists n | n in order :: WrittenFor(r, n, added, et0, et1, etmap)
  {
    hide RowsOfType, KnownKeys, WrittenFor, WellKept, ReferencesClosed, AllKnown;
    if order != [] {
      var n := |order| - 1;
      assert order == order[..n] + [order[n]];
      TypesRows(order[..n], added, et0, et1, etmap);
      OneTypeRows(order[n], added, et0, et1, etmap);
      var before := RowsOfTypes(order[..n], added, et0, et1, etmap).value;
      var rows := RowsOfTypes(order, added, et0, et1, etmap).value;
      forall r
        ensures r in rows <==> r in before || WrittenFor(r, order[n], added, et0, et1, etmap)
      {
      }
    }
  }

  lemma OneTypeRows(name: string, added: bool, et0: ElementTypes, et1: ElementTypes, etmap: map<string, int>)
    requires et0.Valid() && et1.Valid() && WellKept(et1) && ReferencesClosed(et1) && AllKnown(et0, et1, etmap)
    requires name in et1.id
    ensures
      var refs := et1.info[name];
      var rows := RowsOfType(name, refs.keys, refs.at, if added then {} else KnownKeys(et0, name), et0.id, etmap);
      rows.Ok? && forall r :: r in rows.value <==> WrittenFor(r, name, added, et0, et1, etmap)
  {
    hide RowsOfType, ReferenceFor, KnownKeys;
    var refs := et1.info[name];
    TypeRows(name, refs.keys, refs.at, if added then {} else KnownKeys(et0, name), et0.id, etmap);
  }

  lemma {:induction false} PairRows(order: seq<(string, string)>, properties: map<string, int>, ptmap: map<string, int>,
                                    elements: map<string, int>, etmap: map<string, int>)
    requires forall pair | pair in order :: Knows(properties, ptmap, pair.0) && Knows(elements, etmap, pair.1)
    ensures NewPairs(order, properties, ptmap, elements, etmap).Ok?
    ensures forall r :: r in NewPairs(order, properties, ptmap, elements, etmap).value <==>
      exists pair | pair in order :: r == PairRow(IdIn(elements, etmap, pair.1), IdIn(properties, ptmap, pair.0))
  {
    hide IdOf, IdIn;
    if order != [] {
      var n := |order| - 1;
      assert order == order[..n] + [order[n]];
      var p, e := IdIn(properties, ptmap, order[n].0), IdIn(elements, etmap, order[n].1);
      PairRows(order[..n], properties, ptmap, elements, etmap);
    }
  }

  // ------------------------------------------------------------- one run

  // A run on consistent changelogs t0 and a sound database.
  ghost predicate Situation(t0: Tables, et0: ElementTypes, pt0: PropertyTypes, et1: ElementTypes, pt1: PropertyTypes,
                            o: Orders) {
    Consistent(t0) && Reflects(t0, et0, pt0) && DistinctIds(et0) && DistinctIds(pt0) &&
    Closed(et1, pt1) && OrdersFit(et0, pt0, et1, pt1, o)
  }

  function ElementIdsOf(et0: ElementTypes, o: Orders): map<string, int>
    requires et0.Valid()
  {
    Assigned(o.elements, LastId(et0.names, et0.id))
  }

  function PropertyIdsOf(pt0: PropertyTypes, o: Orders): map<string, int>
    requires pt0.Valid()
  {
    Assigned(o.properties, LastId(pt0.names, pt0.id))
  }

  lemma NoElements(t0: Tables, et0: ElementTypes, pt0: PropertyTypes)
    requires Consistent(t0) && Reflects(t0, et0, pt0) && et0.names == []
    ensures t0.elements == [] && t0.properties == []
  {
    assert forall r | r in t0.elements :: r.name in et0.names;
    if t0.elements != [] {
      SomeMember(t0.elements);
    }
  }

  lemma SomeMember<T(!new)>(s: seq<T>)
    requires s != []
    ensures exists x :: x in s
  {
    assert s[0] in s;
  }

  // The new names are exactly the missing ones, and their ids are new.
  lemma NewNames(t0: Tables, et0: ElementTypes, pt0: PropertyTypes, et1: ElementTypes, pt1: PropertyTypes, o: Orders)
    requires Situation(t0, et0, pt0, et1, pt1, o)
    ensures forall n :: n in o.elements <==> n in et1.id && n !in et0.id
    ensures forall n :: n in o.others <==> n in et1.id && n in et0.id
    ensures forall n :: n in o.properties <==> n in pt1.id && n !in pt0.id
    ensures ElementIdsOf(et0, o).Keys == (set n | n in o.elements)
    ensures PropertyIdsOf(pt0, o).Keys == (set n | n in o.properties)
    ensures AllKnown(et0, et1, ElementIdsOf(et0, o))
    ensures forall p | p in pt1.id :: Knows(pt0.id, PropertyIdsOf(pt0, o), p)
  {
    AssignedAt(o.elements, LastId(et0.names, et0.id));
    AssignedAt(o.properties, LastId(pt0.names, pt0.id));
    if et0.names == [] {
      assert forall n :: n in et0.names <==> n in et0.id;
      NoElements(t0, et0, pt0);
    }
  }

  // ------------------------------------------------------- the next changelogs

  // The tables of the changelogs together with the rows of one more run.
  ghost predicate Merged(t2: Tables, t0: Tables, out: Tables) {
    (forall r :: r in t2.elements <==> r in t0.elements || r in out.elements) &&
    (forall r :: r in t2.references <==> r in t0.references || r in out.references) &&
    (forall r :: r in t2.properties <==> r in t0.properties || r in out.properties) &&
    (forall r :: r in t2.pairs <==> r in t0.pairs || r in out.pairs)
  }

  // Whether the diff is taken against a list of element types at all.
  predicate HasElements(et0: ElementTypes, et1: ElementTypes, pt1: PropertyTypes) {
    et0.names != [] || et1.names != [] || pt1.names == []
  }

  // The rows of a run by membership.
  ghost predicate Written(out: Tables, et0: ElementTypes, pt0: PropertyTypes, et1: ElementTypes, pt1: PropertyTypes,
                          o: Orders)
    requires Ready(et0, pt0, et1, pt1, o)
  {
    var etmap, ptmap := ElementIdsOf(et0, o), PropertyIdsOf(pt0, o);
    WrittenElements(out.elements, etmap) &&
    WrittenReferences(out.references, et0, et1, o, etmap) &&
    WrittenProperties(out.properties, ptmap) &&
    WrittenPairs(out.pairs, o.pairs, et0.id, etmap, pt0.id, ptmap)
  }

  ghost predicate Ready(et0: ElementTypes, pt0: PropertyTypes, et1: ElementTypes, pt1: PropertyTypes, o: Orders) {
    et0.Valid() && pt0.Valid() && et1.Valid() && pt1.Valid() && ReferencesClosed(et1) &&
    AllKnown(et0, et1, ElementIdsOf(et0, o)) &&
    (forall p | p in pt1.id :: Knows(pt0.id, PropertyIdsOf(pt0, o), p)) &&
    (forall n | n in o.elements || n in o.others :: n in et1.id) &&
    (forall pair | pair in o.pairs :: pair.0 in pt1.id && pair.1 in et1.id)
  }

  ghost predicate WrittenElements(rows: seq<ElementRow>, etmap: map<string, int>) {
    forall r :: r in rows <==> r.name in etmap && etmap[r.name] == r.id
  }

  ghost predicate WrittenProperties(rows: seq<PropertyRow>, ptmap: map<string, int>) {
    (forall r | r in rows :: r.name in ptmap && ptmap[r.name] == r.id) &&
    (forall n | n in ptmap :: exists r | r in rows :: r.name == n)
  }

  ghost predicate WrittenReferences(rows: seq<ReferenceRow>, et0: ElementTypes, et1: ElementTypes, o: Orders,
                                    etmap: map<string, int>)
    requires et0.Valid() && et1.Valid() && AllKnown(et0, et1, etmap) && ReferencesClosed(et1)
    requires forall n | n in o.elements || n in o.others :: n in et1.id
  {
    forall r :: r in rows <==>
      (exists n | n in o.elements :: WrittenFor(r, n, true, et0, et1, etmap)) ||
      (exists n | n in o.others :: WrittenFor(r, n, false, et0, et1, etmap))
  }

  ghost predicate WrittenPairs(rows: seq<PairRow>, pairs: seq<(string, string)>, elements: map<string, int>,
                               etmap: map<string, int>, properties: map<string, int>, ptmap: map<string, int>)
    requires forall pair | pair in pairs :: Knows(properties, ptmap, pair.0) && Knows(elements, etmap, pair.1)
  {
    forall r :: r in rows <==>
      exists pair | pair in pairs :: r == PairRow(IdIn(elements, etmap, pair.1), IdIn(properties, ptmap, pair.0))
  }

  lemma PairOrder(t0: Tables, et0: ElementTypes, pt0: PropertyTypes, et1: ElementTypes, pt1: PropertyTypes, o: Orders)
    requires Situation(t0, et0, pt0, et1, pt1, o)
    ensures forall pair :: pair in o.pairs <==>
      pair.0 in pt1.id && pair.1 in pt1.info[pair.0].elements &&
      !(pair.0 in pt0.id && pair.1 in pt0.info[pair.0].elements)
    ensures forall pair | pair in o.pairs :: pair.1 in et1.id && pair.1 != ""
  {
    hide Reflects, DistinctIds, Consistent, ReferencesClosed, CleanInfo, PairsOf, WellKept;
    PairMembers(pt0);
    PairMembers(pt1);
    assert forall pair | pair in PairsOf(pt1) :: pair.1 in et1.id && pair.1 != "";
    assert forall pair :: pair in o.pairs <==> pair in PairsOf(pt1) && pair !in KnownPairsOf(pt0);
  }

  lemma PairMembers(pt: PropertyTypes)
    requires pt.Valid()
    ensures forall pair :: pair in PairsOf(pt) <==> pair.0 in pt.id && pair.1 in pt.info[pair.0].elements
  {
    forall pair: (string, string)
      ensures pair in PairsOf(pt) <==> pair.0 in pt.id && pair.1 in pt.info[pair.0].elements
    {
      assert pair == (pair.0, pair.1);
    }
  }

  lemma IsReady(t0: Tables, et0: ElementTypes, pt0: PropertyTypes, et1: ElementTypes, pt1: PropertyTypes, o: Orders)
    requires Situation(t0, et0, pt0, et1, pt1, o)
    ensures Ready(et0, pt0, et1, pt1, o) && WellKept(et1)
    ensures forall n | n in o.others :: n in et0.id
    ensures forall n | n in o.properties :: n in pt1.id
    ensures forall i, j | 0 <= i < j < |o.elements| :: o.elements[i] != o.elements[j]
    ensures forall i, j | 0 <= i < j < |o.properties| :: o.properties[i] != o.properties[j]
  {
    NewNames(t0, et0, pt0, et1, pt1, o);
    PairOrder(t0, et0, pt0, et1, pt1, o);
  }

  lemma ReferencesAreWritten(et0: ElementTypes, pt0: PropertyTypes, et1: ElementTypes, pt1: PropertyTypes, o: Orders)
    requires Ready(et0, pt0, et1, pt1, o) && WellKept(et1)
    requires forall n | n in o.others :: n in et0.id
    ensures
      var etmap := ElementIdsOf(et0, o);
      var added := RowsOfTypes(o.elements, true, et0, et1, etmap);
      var missing := RowsOfTypes(o.others, false, et0, et1, etmap);
      added.Ok? && missing.Ok? && WrittenReferences(added.value + missing.value, et0, et1, o, etmap)
  {
    hide RowsOfTypes, WrittenFor, Assigned, LastId;
    var etmap := ElementIdsOf(et0, o);
    TypesRows(o.elements, true, et0, et1, etmap);
    TypesRows(o.others, false, et0, et1, etmap);
  }

  lemma WhatIsWritten(t0: Tables, et0: ElementTypes, pt0: PropertyTypes, et1: ElementTypes, pt1: PropertyTypes,
                      o: Orders)
    requires Situation(t0, et0, pt0, et1, pt1, o)
    ensures Generate(et0, pt0, et1, pt1, o).Ok? && Ready(et0, pt0, et1, pt1, o)
    ensures Written(Generate(et0, pt0, et1, pt1, o).value, et0, pt0, et1, pt1, o)
  {
    hide OrdersFit, Closed, Reflects, RowsOfTypes, NewPairs, Assigned, NewElements, NewProperties, WrittenReferences,
         LastId;
    IsReady(t0, et0, pt0, et1, pt1, o);
    ReferencesAreWritten(et0, pt0, et1, pt1, o);
    PairRows(o.pairs, pt0.id, PropertyIdsOf(pt0, o), et0.id, ElementIdsOf(et0, o));
    ElementMembers(o.elements, LastId(et0.names, et0.id));
    PropertyMembers(o.properties, LastId(pt0.names, pt0.id), pt1);
  }

  lemma ElementMembers(order: seq<string>, last: int)
    requires forall i, j | 0 <= i < j < |order| :: order[i] != order[j]
    ensures forall r ::
      r in NewElements(order, last) <==> r.name in Assigned(order, last) && Assigned(order, last)[r.name] == r.id
  {
    hide Assigned, NewElements;
    AssignedAt(order, last);
    NewElementsAt(order, last);
    var rows := NewElements(order, last);
    forall r ensures r in rows <==> r.name in Assigned(order, last) && Assigned(order, last)[r.name] == r.id {
      if r.name in order {
        var i :| 0 <= i < |order| && order[i] == r.name;
        assert rows[i].name == r.name;
      }
    }
  }

  lemma PropertyMembers(order: seq<string>, last: int, pt1: PropertyTypes)
    requires pt1.Valid() && forall n | n in order :: n in pt1.id
    requires forall i, j | 0 <= i < j < |order| :: order[i] != order[j]
    ensures forall r | r in NewProperties(order, last, pt1) ::
      r.name in Assigned(order, last) && Assigned(order, last)[r.name] == r.id
    ensures forall n | n in Assigned(order, last) :: exists r | r in NewProperties(order, last, pt1) :: r.name == n
  {
    hide Assigned, NewProperties;
    AssignedAt(order, last);
    NewPropertiesAt(order, last, pt1);
    var rows := NewProperties(order, last, pt1);
    forall n | n in Assigned(order, last) ensures exists r | r in rows :: r.name == n {
      var i :| 0 <= i < |order| && order[i] == n;
      assert rows[i].name == n;
    }
  }

  // -------------------------------------- consistency is kept by every run

  // Ids assigned above `last` are new and belong to one name each.
  lemma AssignedFresh(order: seq<string>, last: int)
    requires forall i, j | 0 <= i < j < |order| :: order[i] != order[j]
    ensures forall n | n in Assigned(order, last) :: Assigned(order, last)[n] > last
    ensures forall m, n |
      m in Assigned(order, last) && n in Assigned(order, last) &&
      Assigned(order, last)[m] == Assigned(order, last)[n] ::
      m == n
  {
    hide Assigned;
    AssignedAt(order, last);
    var ids := Assigned(order, last);
    forall n | n in ids ensures exists i | 0 <= i < |order| :: n == order[i] && ids[n] == last + 1 + i {
      var i :| 0 <= i < |order| && order[i] == n;
    }
  }

  lemma ElementsStayUnique(t0: Tables, et0: ElementTypes, pt0: PropertyTypes, et1: ElementTypes, pt1: PropertyTypes,
                           o: Orders, rows: seq<ElementRow>, etmap: map<string, int>)
    requires Situation(t0, et0, pt0, et1, pt1, o) && etmap == ElementIdsOf(et0, o)
    requires forall r :: r in rows <==> r in t0.elements || (r.name in etmap && etmap[r.name] == r.id)
    ensures OneIdPerName(rows) && forall r | r in rows :: r.name != ""
  {
    hide Assigned, LastId, OneIdPerName, OrdersFit, DistinctIds, Ready;
    IsReady(t0, et0, pt0, et1, pt1, o);
    NewNames(t0, et0, pt0, et1, pt1, o);
    AssignedFresh(o.elements, LastId(et0.names, et0.id));
    forall r | r in t0.elements ensures r.name !in etmap && r.id <= LastId(et0.names, et0.id) {
      assert r.name in et0.names;
    }
    NewIdsStayUnique(t0.elements, LastId(et0.names, et0.id), etmap, rows);
  }

  lemma NewIdsStayUnique(before: seq<ElementRow>, last: int, ids: map<string, int>, rows: seq<ElementRow>)
    requires OneIdPerName(before) && forall r | r in before :: r.name !in ids && r.id <= last
    requires forall n | n in ids :: ids[n] > last
    requires forall m, n | m in ids && n in ids && ids[m] == ids[n] :: m == n
    requires forall r :: r in rows <==> r in before || (r.name in ids && ids[r.name] == r.id)
    ensures OneIdPerName(rows)
  {
  }

  lemma PropertiesStayUnique(t0: Tables, et0: ElementTypes, pt0: PropertyTypes, et1: ElementTypes, pt1: PropertyTypes,
                             o: Orders, rows: seq<PropertyRow>, ptmap: map<string, int>)
    requires Situation(t0, et0, pt0, et1, pt1, o) && ptmap == PropertyIdsOf(pt0, o)
    requires forall r | r in rows :: r in t0.properties || (r.name in ptmap && ptmap[r.name] == r.id)
    ensures OneIdPerProperty(rows)
  {
    hide Assigned, LastId, OneIdPerProperty, OrdersFit, DistinctIds, Ready;
    IsReady(t0, et0, pt0, et1, pt1, o);
    NewNames(t0, et0, pt0, et1, pt1, o);
    AssignedFresh(o.properties, LastId(pt0.names, pt0.id));
    forall r | r in t0.properties ensures r.name !in ptmap && r.id <= LastId(pt0.names, pt0.id) {
      assert r.name in pt0.names;
    }
    NewPropertyIdsStayUnique(t0.properties, LastId(pt0.names, pt0.id), ptmap, rows);
  }

  lemma NewPropertyIdsStayUnique(before: seq<PropertyRow>, last: int, ids: map<string, int>, rows: seq<PropertyRow>)
    requires OneIdPerProperty(before) && forall r | r in before :: r.name !in ids && r.id <= last
    requires forall n | n in ids :: ids[n] > last
    requires forall m, n | m in ids && n in ids && ids[m] == ids[n] :: m == n
    requires forall r | r in rows :: r in before || (r.name in ids && ids[r.name] == r.id)
    ensures OneIdPerProperty(rows)
  {
  }

  // The directory a run adds to consistent changelogs leaves them consistent,
  // unless it lists property types without any element type.
  lemma NextConsistent(t0: Tables, et0: ElementTypes, pt0: PropertyTypes, et1: ElementTypes, pt1: PropertyTypes,
                       o: Orders, t2: Tables)
    requires Situation(t0, et0, pt0, et1, pt1, o) && Generate(et0, pt0, et1, pt1, o).Ok?
    requires Merged(t2, t0, Generate(et0, pt0, et1, pt1, o).value) && HasElements(et0, et1, pt1)
    ensures Consistent(t2)
  {
    hide Generate, Assigned, LastId, OrdersFit, WrittenFor;
    var out := Generate(et0, pt0, et1, pt1, o).value;
    WhatIsWritten(t0, et0, pt0, et1, pt1, o);
    NewNames(t0, et0, pt0, et1, pt1, o);
    var etmap, ptmap := ElementIdsOf(et0, o), PropertyIdsOf(pt0, o);
    ElementsStayUnique(t0, et0, pt0, et1, pt1, o, t2.elements, etmap);
    PropertiesStayUnique(t0, et0, pt0, et1, pt1, o, t2.properties, ptmap);
    NewChildrenParse(out.references, et0, et1, o, etmap);
    forall c | c in t2.pairs ensures exists p | p in t2.properties :: p.id == c.property {
      if c !in t0.pairs {
        var pair :| pair in o.pairs && c == PairRow(IdIn(et0.id, etmap, pair.1), IdIn(pt0.id, ptmap, pair.0));
        PropertyHasRow(t0, et0, pt0, pair.0, ptmap, out.properties);
      }
    }
    StaysPopulated(t0, et0, pt0, et1, pt1, o, t2);
  }

  lemma NewChildrenParse(rows: seq<ReferenceRow>, et0: ElementTypes, et1: ElementTypes, o: Orders,
                         etmap: map<string, int>)
    requires et0.Valid() && et1.Valid() && AllKnown(et0, et1, etmap) && ReferencesClosed(et1)
    requires forall n | n in o.elements || n in o.others :: n in et1.id
    requires WrittenReferences(rows, et0, et1, o, etmap)
    ensures forall r | r in rows :: ParseInt(r.child).Some?
  {
    hide WrittenFor, ParseInt;
    forall r | r in rows ensures ParseInt(r.child).Some? {
      if n :| n in o.elements && WrittenFor(r, n, true, et0, et1, etmap) {
        NewChildParses(r, n, true, et0, et1, etmap);
      } else {
        var n :| n in o.others && WrittenFor(r, n, false, et0, et1, etmap);
        NewChildParses(r, n, false, et0, et1, etmap);
      }
    }
  }

  lemma NewChildParses(r: ReferenceRow, n: string, added: bool, et0: ElementTypes, et1: ElementTypes,
                       etmap: map<string, int>)
    requires et0.Valid() && et1.Valid() && n in et1.id && AllKnown(et0, et1, etmap) && ReferencesClosed(et1)
    requires WrittenFor(r, n, added, et0, et1, etmap)
    ensures ParseInt(r.child).Some?
  {
    hide ParseInt;
    ParseStr(IdIn(et0.id, etmap, et1.info[n].at[r.key]));
  }

  lemma PropertyHasRow(t0: Tables, et0: ElementTypes, pt0: PropertyTypes, p: string, ptmap: map<string, int>,
                       rows: seq<PropertyRow>)
    requires Reflects(t0, et0, pt0) && Knows(pt0.id, ptmap, p) && WrittenProperties(rows, ptmap)
    ensures exists r | r in t0.properties + rows :: r.name == p && r.id == IdIn(pt0.id, ptmap, p)
  {
    if p in pt0.id {
      var r :| r in t0.properties && r.name == p;
      assert r in t0.properties + rows;
    } else {
      var r :| r in rows && r.name == p;
      assert r in t0.properties + rows;
    }
  }

  lemma StaysPopulated(t0: Tables, et0: ElementTypes, pt0: PropertyTypes, et1: ElementTypes, pt1: PropertyTypes,
                       o: Orders, t2: Tables)
    requires Situation(t0, et0, pt0, et1, pt1, o) && Generate(et0, pt0, et1, pt1, o).Ok?
    requires Merged(t2, t0, Generate(et0, pt0, et1, pt1, o).value) && HasElements(et0, et1, pt1)
    ensures t2.properties != [] ==> t2.elements != []
  {
    hide Generate, Assigned, LastId, OrdersFit, DistinctIds, WrittenReferences, WrittenPairs, Reflects, Closed,
         Consistent;
    WhatIsWritten(t0, et0, pt0, et1, pt1, o);
    NewNames(t0, et0, pt0, et1, pt1, o);
    var out := Generate(et0, pt0, et1, pt1, o).value;
    if et0.names != [] {
      ElementHasRow(t0, et0, pt0);
    } else if et1.names != [] {
      assert et1.names[0] in et1.names;
      var r := ElementRow(ElementIdsOf(et0, o)[et1.names[0]], et1.names[0]);
      assert r in t2.elements;
    } else {
      NoElements(t0, et0, pt0);
      assert forall n :: n !in pt1.names && n !in pt1.id;
      if t2.properties != [] {
        SomeMember(t2.properties);
      }
    }
  }

  lemma ElementHasRow(t: Tables, et: ElementTypes, pt: PropertyTypes)
    requires Reflects(t, et, pt) && et.names != []
    ensures exists r :: r in t.elements
  {
    assert et.names[0] in et.names;
  }

  // ------------------------------------------ the second run writes nothing

  // What the proofs below use of a run: the rows it writes, by membership, and
  // which names it writes them for.
  ghost predicate Ran(t0: Tables, et0: ElementTypes, pt0: PropertyTypes, et1: ElementTypes, pt1: PropertyTypes,
                      o: Orders, out: Tables) {
    Reflects(t0, et0, pt0) && Ready(et0, pt0, et1, pt1, o) && Written(out, et0, pt0, et1, pt1, o) &&
    (forall n :: n in ElementIdsOf(et0, o) <==> n in o.elements) &&
    (forall n :: n in o.elements <==> n in et1.id && n !in et0.id) &&
    (forall n :: n in o.others <==> n in et1.id && n in et0.id) &&
    (forall p :: p in PropertyIdsOf(pt0, o) <==> p in pt1.id && p !in pt0.id) &&
    (forall p, e | p in pt1.id && e in pt1.info[p].elements ::
       e in et1.id && e != "" && ((p, e) in o.pairs || (p in pt0.id && e in pt0.info[p].elements)))
  }

  lemma RunRan(t0: Tables, et0: ElementTypes, pt0: PropertyTypes, et1: ElementTypes, pt1: PropertyTypes, o: Orders)
    requires Situation(t0, et0, pt0, et1, pt1, o)
    ensures Generate(et0, pt0, et1, pt1, o).Ok?
    ensures Ran(t0, et0, pt0, et1, pt1, o, Generate(et0, pt0, et1, pt1, o).value)
  {
    hide Situation, Generate, Assigned, LastId, OrdersFit, Written, Reflects, Ready, ReferencesClosed;
    WhatIsWritten(t0, et0, pt0, et1, pt1, o);
    NewNames(t0, et0, pt0, et1, pt1, o);
    PairOrder(t0, et0, pt0, et1, pt1, o);
    Fits(t0, et0, pt0, et1, pt1, o);
  }

  lemma Fits(t0: Tables, et0: ElementTypes, pt0: PropertyTypes, et1: ElementTypes, pt1: PropertyTypes, o: Orders)
    requires Situation(t0, et0, pt0, et1, pt1, o)
    ensures et0.Valid() && pt0.Valid() && et1.Valid() && pt1.Valid() && ElementsClosed(et1, pt1) &&
      Reflects(t0, et0, pt0)
  {
  }

  // Names keep their ids, and new ones read back with the id they were given.
  lemma ElementIdsReadBack(t0: Tables, et0: ElementTypes, pt0: PropertyTypes, et1: ElementTypes, pt1: PropertyTypes,
                           o: Orders, out: Tables, t2: Tables, et2: ElementTypes, pt2: PropertyTypes)
    requires Ran(t0, et0, pt0, et1, pt1, o, out) && Merged(t2, t0, out) && Reflects(t2, et2, pt2)
    ensures forall n | n in et0.id :: n in et2.id && et2.id[n] == et0.id[n]
    ensures forall n | n in et1.id :: n in et2.id && et2.id[n] == IdIn(et0.id, ElementIdsOf(et0, o), n)
  {
    hide Assigned, LastId, WrittenReferences, WrittenPairs, WrittenProperties, ReferencesClosed, Reflects;
    var etmap := ElementIdsOf(et0, o);
    forall n | n in et0.id ensures n in et2.id && et2.id[n] == et0.id[n] {
      ElementIsRead(t0, et0, pt0, n);
      ElementIsRead(t2, et2, pt2, n);
    }
    forall n | n in etmap ensures n in et2.id && et2.id[n] == etmap[n] {
      assert ElementRow(etmap[n], n) in t2.elements;
      ElementIsRead(t2, et2, pt2, n);
    }
  }

  lemma ElementIsRead(t: Tables, et: ElementTypes, pt: PropertyTypes, n: string)
    requires Reflects(t, et, pt)
    ensures forall i :: ElementRow(i, n) in t.elements ==> n in et.id && et.id[n] == i
    ensures n in et.id ==> ElementRow(et.id[n], n) in t.elements
  {
    if n in et.id {
      var r :| r in t.elements && r.name == n;
      assert r == ElementRow(et.id[n], n);
    }
  }

  lemma PropertyIdsReadBack(t0: Tables, et0: ElementTypes, pt0: PropertyTypes, et1: ElementTypes, pt1: PropertyTypes,
                            o: Orders, out: Tables, t2: Tables, et2: ElementTypes, pt2: PropertyTypes)
    requires Ran(t0, et0, pt0, et1, pt1, o, out) && Merged(t2, t0, out) && Reflects(t2, et2, pt2)
    ensures forall p | p in pt0.id :: p in pt2.id && pt2.id[p] == pt0.id[p]
    ensures forall p | p in pt1.id :: p in pt2.id && pt2.id[p] == IdIn(pt0.id, PropertyIdsOf(pt0, o), p)
  {
    hide Assigned, LastId, WrittenReferences, WrittenPairs, WrittenElements, ReferencesClosed;
    var ptmap := PropertyIdsOf(pt0, o);
    forall p | p in pt0.id ensures p in pt2.id && pt2.id[p] == pt0.id[p] {
      var r :| r in t0.properties && r.name == p;
      assert r in t2.properties;
    }
    forall p | p in ptmap ensures p in pt2.id && pt2.id[p] == ptmap[p] {
      var r :| r in out.properties && r.name == p;
      assert r in t2.properties;
    }
  }

  // Every reference of the database is then known under its type.
  lemma ReferenceReadsBack(t0: Tables, et0: ElementTypes, pt0: PropertyTypes, et1: ElementTypes, pt1: PropertyTypes,
                           o: Orders,
                           out: Tables, t2: Tables, et2: ElementTypes, pt2: PropertyTypes, n: string, k: string)
    requires Ran(t0, et0, pt0, et1, pt1, o, out) && Merged(t2, t0, out) && Reflects(t2, et2, pt2)
    requires n in et1.id && k in et1.info[n].at
    ensures n in et2.id && k in et2.info[n].at
  {
    hide Assigned, LastId, WrittenPairs, WrittenProperties, WrittenReferences, ReferencesClosed, Reflects;
    ElementIdsReadBack(t0, et0, pt0, et1, pt1, o, out, t2, et2, pt2);
    AreValid(t0, et0, pt0);
    if n in et0.id && k in et0.info[n].at {
      var r := RowOf(t0, et0, pt0, n, k);
      RowIsRead(t2, et2, pt2, r, n);
    } else {
      var r := NewRowOf(t0, et0, pt0, et1, pt1, o, out, n, k);
      RowIsRead(t2, et2, pt2, r, n);
    }
  }

  lemma RowOf(t: Tables, et: ElementTypes, pt: PropertyTypes, n: string, k: string) returns (r: ReferenceRow)
    requires Reflects(t, et, pt) && n in et.id && k in et.info[n].at
    ensures r in t.references && r.key == k && r.parent == et.id[n]
  {
    hide FindTypeById;
    r :| r in t.references && r.key == k && r.parent == et.id[n];
  }

  lemma RowIsRead(t: Tables, et: ElementTypes, pt: PropertyTypes, r: ReferenceRow, n: string)
    requires Reflects(t, et, pt) && n in et.id && r in t.references && r.parent == et.id[n]
    ensures r.key in et.info[n].at
  {
    hide FindTypeById;
  }

  lemma NewRowOf(t0: Tables, et0: ElementTypes, pt0: PropertyTypes, et1: ElementTypes, pt1: PropertyTypes, o: Orders,
                 out: Tables, n: string, k: string) returns (r: ReferenceRow)
    requires Ran(t0, et0, pt0, et1, pt1, o, out)
    requires n in et1.id && k in et1.info[n].at && !(n in et0.id && k in et0.info[n].at)
    ensures r in out.references && r.key == k && r.parent == IdIn(et0.id, ElementIdsOf(et0, o), n)
  {
    hide Assigned, LastId, WrittenPairs, WrittenProperties, Reflects;
    var etmap := ElementIdsOf(et0, o);
    r := ReferenceFor(et0.id, etmap, n, k, et1.info[n].at[k]);
    assert WrittenFor(r, n, n in o.elements, et0, et1, etmap);
  }

  lemma PairReadsBack(t0: Tables, et0: ElementTypes, pt0: PropertyTypes, et1: ElementTypes, pt1: PropertyTypes,
                      o: Orders, out: Tables, t2: Tables, et2: ElementTypes, pt2: PropertyTypes, p: string, e: string)
    requires Ran(t0, et0, pt0, et1, pt1, o, out) && Merged(t2, t0, out) && Reflects(t2, et2, pt2) && DistinctIds(et2)
    requires p in pt1.id && e in pt1.info[p].elements
    ensures p in pt2.id && e in pt2.info[p].elements && e != ""
  {
    hide Assigned, LastId, WrittenReferences, WrittenProperties, WrittenPairs, WrittenElements, ReferencesClosed,
         Reflects, DistinctIds;
    ElementIdsReadBack(t0, et0, pt0, et1, pt1, o, out, t2, et2, pt2);
    PropertyIdsReadBack(t0, et0, pt0, et1, pt1, o, out, t2, et2, pt2);
    if (p, e) in o.pairs {
      var c := PairRow(IdIn(et0.id, ElementIdsOf(et0, o), e), IdIn(pt0.id, PropertyIdsOf(pt0, o), p));
      PairIsWritten(out.pairs, o.pairs, et0.id, ElementIdsOf(et0, o), pt0.id, PropertyIdsOf(pt0, o), (p, e));
      NewPairIsRead(t2, et2, pt2, c, p, e);
    } else {
      OldPairIsRead(t0, et0, pt0, t2, et2, pt2, p, e);
    }
  }

  lemma PairIsWritten(rows: seq<PairRow>, pairs: seq<(string, string)>, elements: map<string, int>,
                      etmap: map<string, int>,
                      properties: map<string, int>, ptmap: map<string, int>, pair: (string, string))
    requires forall x | x in pairs :: Knows(properties, ptmap, x.0) && Knows(elements, etmap, x.1)
    requires WrittenPairs(rows, pairs, elements, etmap, properties, ptmap) && pair in pairs
    ensures PairRow(IdIn(elements, etmap, pair.1), IdIn(properties, ptmap, pair.0)) in rows
  {
  }

  lemma NewPairIsRead(t2: Tables, et2: ElementTypes, pt2: PropertyTypes, c: PairRow, p: string, e: string)
    requires Reflects(t2, et2, pt2) && DistinctIds(et2) && c in t2.pairs
    requires p in pt2.id && e in et2.id && c.property == pt2.id[p] && c.element == et2.id[e]
    ensures e in pt2.info[p].elements
  {
    FindIsInverse(et2.names, et2.id, e);
  }

  lemma OldPairIsRead(t0: Tables, et0: ElementTypes, pt0: PropertyTypes, t2: Tables, et2: ElementTypes,
                      pt2: PropertyTypes, p: string, e: string)
    requires Reflects(t0, et0, pt0) && p in pt0.id && e in pt0.info[p].elements && e != ""
    requires Reflects(t2, et2, pt2) && DistinctIds(et2)
    requires forall c | c in t0.pairs :: c in t2.pairs
    requires forall n | n in et0.id :: n in et2.id && et2.id[n] == et0.id[n]
    requires p in pt2.id && pt2.id[p] == pt0.id[p]
    ensures e in pt2.info[p].elements
  {
    hide Reflects, DistinctIds;
    AreValid(t0, et0, pt0);
    AreValid(t2, et2, pt2);
    var c := PairIsRead(t0, et0, pt0, p, e);
    NewPairIsRead(t2, et2, pt2, c, p, e);
  }

  lemma AreValid(t: Tables, et: ElementTypes, pt: PropertyTypes)
    requires Reflects(t, et, pt)
    ensures et.Valid() && pt.Valid()
  {
  }

  lemma PairIsRead(t: Tables, et: ElementTypes, pt: PropertyTypes, p: string, e: string) returns (c: PairRow)
    requires Reflects(t, et, pt) && p in pt.id && e in pt.info[p].elements && e != ""
    ensures c in t.pairs && c.property == pt.id[p] && e in et.id && et.id[e] == c.element
  {
    hide FindTypeById;
    c :| c in t.pairs && c.property == pt.id[p] && FindTypeById(et.names, et.id, c.element) == e;
  }

  // Nothing is missing when every key is known.
  lemma {:induction false} NothingMissing(order: seq<string>, et0: ElementTypes, et1: ElementTypes,
                                          etmap: map<string, int>)
    requires et0.Valid() && et1.Valid() && WellKept(et1)
    requires forall n | n in order :: n in et1.id && n in et0.id
    requires forall n, k | n in order && k in et1.info[n].at :: k in et0.info[n].at
    ensures RowsOfTypes(order, false, et0, et1, etmap) == Ok([])
  {
    if order != [] {
      var n := |order| - 1;
      NothingMissing(order[..n], et0, et1, etmap);
      var refs := et1.info[order[n]];
      AllSkipped(order[n], refs.keys, refs.at, KnownKeys(et0, order[n]), et0.id, etmap);
      var none: seq<ReferenceRow> := [];
      assert none + none == none;
    }
  }

  lemma {:induction false} AllSkipped(name: string, keys: seq<string>, child: map<string, string>, skip: set<string>,
                                      known: map<string, int>, etmap: map<string, int>)
    requires forall k | k in keys :: k in child && k in skip
    ensures RowsOfType(name, keys, child, skip, known, etmap) == Ok([])
  {
    if keys != [] {
      AllSkipped(name, keys[..|keys| - 1], child, skip, known, etmap);
    }
  }

  // Covered: every name, key and pair of the database is in the changelogs.
  ghost predicate Covered(et0: ElementTypes, pt0: PropertyTypes, et1: ElementTypes, pt1: PropertyTypes)
    requires et0.Valid() && pt0.Valid() && et1.Valid() && pt1.Valid()
  {
    (forall n | n in et1.id :: n in et0.id) &&
    (forall n, k | n in et1.id && k in et1.info[n].at :: n in et0.id && k in et0.info[n].at) &&
    (forall p | p in pt1.id :: p in pt0.id) &&
    (forall p, e | p in pt1.id && e in pt1.info[p].elements :: p in pt0.id && e in pt0.info[p].elements && e != "")
  }

  lemma CoveredWritesNothing(et0: ElementTypes, pt0: PropertyTypes, et1: ElementTypes, pt1: PropertyTypes, o: Orders)
    requires OrdersFit(et0, pt0, et1, pt1, o) && Covered(et0, pt0, et1, pt1)
    requires et0.names != [] || pt1.names == []
    ensures Generate(et0, pt0, et1, pt1, o).Ok? && NothingNew(Generate(et0, pt0, et1, pt1, o).value)
  {
    hide LastId;
    assert o.elements == [] by {
      if et0.names == [] {
        assert forall n :: n !in et0.id && n !in et1.id && n !in et1.names;
      }
      if o.elements != [] {
        SomeMember(o.elements);
      }
    }
    NothingMissing(o.others, et0, et1, ElementIdsOf(et0, o));
    if o.properties != [] {
      SomeMember(o.properties);
    }
    if o.pairs != [] {
      SomeMember(o.pairs);
    }
  }

  // ---------------------------------------------------------- clean output

  lemma NewReferenceClean(r: ReferenceRow, n: string, added: bool, et0: ElementTypes, et1: ElementTypes,
                          etmap: map<string, int>)
    requires et0.Valid() && et1.Valid() && n in et1.id && AllKnown(et0, et1, etmap) && ReferencesClosed(et1)
    requires WrittenFor(r, n, added, et0, et1, etmap)
    ensures CleanField(r.child) && CleanField(r.key)
  {
    hide CleanField;
    NumberClean(IdIn(et0.id, etmap, et1.info[n].at[r.key]));
  }

  lemma NumberClean(i: int)
    ensures CleanField(Str(i))
  {
    hide Str;
    ParseStr(i);
  }

  lemma NewPropertyClean(order: seq<string>, last: int, pt1: PropertyTypes)
    requires pt1.Valid() && CleanInfo(pt1) && forall n | n in order :: n in pt1.id
    ensures forall r | r in NewProperties(order, last, pt1) ::
      CleanField(r.name) && CleanField(r.kind) && CleanField(r.unit)
  {
    hide NewProperties, CleanField;
    NewPropertiesAt(order, last, pt1);
  }

  lemma ReferencesClean(rows: seq<ReferenceRow>, et0: ElementTypes, et1: ElementTypes, o: Orders,
                        etmap: map<string, int>)
    requires et0.Valid() && et1.Valid() && AllKnown(et0, et1, etmap) && ReferencesClosed(et1)
    requires forall n | n in o.elements || n in o.others :: n in et1.id
    requires WrittenReferences(rows, et0, et1, o, etmap)
    ensures forall r | r in rows :: CleanField(r.child) && CleanField(r.key)
  {
    hide WrittenFor, CleanField;
    forall r | r in rows ensures CleanField(r.child) && CleanField(r.key) {
      if n :| n in o.elements && WrittenFor(r, n, true, et0, et1, etmap) {
        NewReferenceClean(r, n, true, et0, et1, etmap);
      } else {
        var n :| n in o.others && WrittenFor(r, n, false, et0, et1, etmap);
        NewReferenceClean(r, n, false, et0, et1, etmap);
      }
    }
  }

  // The new rows of a run hold only texts that fit a CSV field.
  ghost predicate CleanTables(t: Tables) {
    (forall r | r in t.elements :: CleanField(r.name)) &&
    (forall r | r in t.references :: CleanField(r.child) && CleanField(r.key)) &&
    (forall r | r in t.properties :: CleanField(r.name) && CleanField(r.kind) && CleanField(r.unit))
  }

  lemma WrittenClean(t0: Tables, et0: ElementTypes, pt0: PropertyTypes, et1: ElementTypes, pt1: PropertyTypes,
                     o: Orders)
    requires Situation(t0, et0, pt0, et1, pt1, o)
    ensures Generate(et0, pt0, et1, pt1, o).Ok? && CleanTables(Generate(et0, pt0, et1, pt1, o).value)
  {
    hide CleanField, Generate, Assigned, LastId, WrittenReferences, WrittenPairs, Reflects, OrdersFit;
    WhatIsWritten(t0, et0, pt0, et1, pt1, o);
    NewNames(t0, et0, pt0, et1, pt1, o);
    var out := Generate(et0, pt0, et1, pt1, o).value;
    ReferencesClean(out.references, et0, et1, o, ElementIdsOf(et0, o));
    PropertiesWritten(et0, pt0, et1, pt1, o);
    NewPropertyClean(o.properties, LastId(pt0.names, pt0.id), pt1);
  }

  lemma PropertiesWritten(et0: ElementTypes, pt0: PropertyTypes, et1: ElementTypes, pt1: PropertyTypes, o: Orders)
    requires OrdersFit(et0, pt0, et1, pt1, o) && Generate(et0, pt0, et1, pt1, o).Ok?
    ensures forall n | n in o.properties :: n in pt1.id
    ensures Generate(et0, pt0, et1, pt1, o).value.properties ==
      NewProperties(o.properties, LastId(pt0.names, pt0.id), pt1)
  {
    hide RowsOfTypes, NewPairs, NewElements, NewProperties, Assigned, LastId, WellKept;
  }
}
