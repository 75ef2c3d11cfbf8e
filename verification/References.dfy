// Which type a reference leads to: every reference that a run writes reads back
// as the parent, the key and the child that it was written for.

module References {
  import opened Text
  import opened Catalogue
  import opened Changelog
  import opened Convergence
  import opened ReadBack
  import opened Runs

  // References lead from listed types to listed types, to one type under each
  // key, and every property type has one row.
  ghost predicate Unambiguous(t: Tables) {
    (forall r | r in t.references :: HasId(t.elements, r.parent)) &&
    (forall r | r in t.references :: ParseInt(r.child).Some? && HasId(t.elements, ParseInt(r.child).value)) &&
    (forall x, y | x in t.references && y in t.references && x.parent == y.parent && x.key == y.key ::
       ParseInt(x.child) == ParseInt(y.child)) &&
    (forall x, y | x in t.properties && y in t.properties && x.name == y.name :: x == y)
  }

  ghost predicate HasId(rows: seq<ElementRow>, id: int) {
    exists e :: e in rows && e.id == id
  }

  // The catalogue holds the child of every reference row, and the kind and the
  // unit of every property row.
  ghost predicate Leads(t: Tables, et: ElementTypes, pt: PropertyTypes) {
    Reflects(t, et, pt) &&
    (forall r, n, c |
       r in t.references && n in et.id && c in et.id && et.id[n] == r.parent && ParseInt(r.child) == Some(et.id[c]) ::
       r.key in et.info[n].at && et.info[n].at[r.key] == c) &&
    (forall r | r in t.properties :: pt.info[r.name].kind == r.kind && pt.info[r.name].unit == r.unit)
  }

  // --------------------------------------------------------------- reading

  lemma AddReferenceAt(t: ElementTypes, row: ReferenceRow, name: string, key: string)
    requires t.Valid() && AddReference(t, row).Ok? && name in t.id && name != ""
    ensures
      var at := AddReference(t, row).value.info[name].at;
      if RefersTo(t, row, name, key) then
        ParseInt(row.child).Some? && key in at && at[key] == FindTypeById(t.names, t.id, ParseInt(row.child).value)
      else (key in at <==> key in t.info[name].at) && (key in at ==> at[key] == t.info[name].at[key])
  {
    hide FindTypeById, ParseInt;
  }

  // If all rows of a type and key name one child, that child is read.
  lemma {:induction false} ChildIsRead(t: ElementTypes, rows: seq<ReferenceRow>, name: string, key: string,
                                       child: string)
    requires t.Valid() && AddReferences(t, rows).Ok? && name in t.id && name != "" && key !in t.info[name].at
    requires forall r | r in rows && RefersTo(t, r, name, key) ::
      ParseInt(r.child).Some? && FindTypeById(t.names, t.id, ParseInt(r.child).value) == child
    ensures
      var at := AddReferences(t, rows).value.info[name].at;
      key in at ==> at[key] == child
  {
    hide AddReference, RefersTo, FindTypeById, ParseInt;
    if rows != [] {
      var n := |rows| - 1;
      assert rows == rows[..n] + [rows[n]];
      ChildIsRead(t, rows[..n], name, key, child);
      var u := AddReferences(t, rows[..n]).value;
      AddReferenceAt(u, rows[n], name, key);
      SameReference(t, u, rows[n], name, key);
    }
  }

  lemma {:induction false} KindIsRead(rows: seq<PropertyRow>, r: PropertyRow)
    requires r in rows && forall x, y | x in rows && y in rows && x.name == y.name :: x == y
    ensures PropertiesOf(rows).info[r.name] == PropertyInfo(r.unit, r.kind, [])
  {
    var n := |rows| - 1;
    assert rows == rows[..n] + [rows[n]];
    if r.name != rows[n].name {
      KindIsRead(rows[..n], r);
    }
  }

  lemma {:induction false} PairsKeepKinds(et: ElementTypes, t: PropertyTypes, rows: seq<PairRow>, p: string)
    requires et.Valid() && t.Valid() && AddPairs(et, t, rows).Ok? && p in t.id
    ensures
      var u := AddPairs(et, t, rows).value;
      u.info[p].kind == t.info[p].kind && u.info[p].unit == t.info[p].unit
  {
    hide FindTypeById;
    if rows != [] {
      PairsKeepKinds(et, t, rows[..|rows| - 1], p);
    }
  }

  // Unambiguous changelogs are read with every child, kind and unit.
  lemma UnambiguousReads(t: Tables)
    requires Consistent(t) && Unambiguous(t)
    ensures ElementTypesOf(t).Ok? && PropertyTypesOf(ElementTypesOf(t).value, t).Ok?
    ensures Leads(t, ElementTypesOf(t).value, PropertyTypesOf(ElementTypesOf(t).value, t).value)
  {
    hide Reflects, Consistent, AddReferences, AddPairs, ElementsOf, PropertiesOf, DistinctIds, ParseInt, Unambiguous;
    ConsistentReads(t);
    var et := ElementTypesOf(t).value;
    var pt := PropertyTypesOf(et, t).value;
    AreValid(t, et, pt);
    forall r, n, c |
      r in t.references && n in et.id && c in et.id && et.id[n] == r.parent && ParseInt(r.child) == Some(et.id[c])
      ensures r.key in et.info[n].at && et.info[n].at[r.key] == c
    {
      ReferenceLeads(t, et, pt, r, n, c);
    }
    forall r | r in t.properties ensures pt.info[r.name].kind == r.kind && pt.info[r.name].unit == r.unit {
      PropertyLeads(t, et, r);
    }
  }

  lemma PropertyLeads(t: Tables, et: ElementTypes, r: PropertyRow)
    requires et.Valid() && PropertyTypesOf(et, t).Ok? && Unambiguous(t) && r in t.properties
    ensures
      var pt := PropertyTypesOf(et, t).value;
      r.name in pt.id && pt.info[r.name].kind == r.kind && pt.info[r.name].unit == r.unit
  {
    hide AddPairs, ParseInt;
    KindIsRead(t.properties, r);
    PairsKeepKinds(et, PropertiesOf(t.properties), t.pairs, r.name);
  }

  lemma ReferenceLeads(t: Tables, et: ElementTypes, pt: PropertyTypes, r: ReferenceRow, n: string, c: string)
    requires Consistent(t) && Unambiguous(t) && ElementTypesOf(t) == Ok(et) && Reflects(t, et, pt) && DistinctIds(et)
    requires r in t.references && n in et.id && c in et.id && et.id[n] == r.parent &&
      ParseInt(r.child) == Some(et.id[c])
    ensures r.key in et.info[n].at && et.info[n].at[r.key] == c
  {
    hide AddReferences, ElementsOf, FindTypeById, ParseInt, DistinctIds;
    var e := ElementsOf(t.elements);
    ConsistentIds(t);
    assert ElementRow(e.id[n], n) in t.elements && n != "";
    forall x | x in t.references && RefersTo(e, x, n, r.key)
      ensures ParseInt(x.child).Some? && FindTypeById(e.names, e.id, ParseInt(x.child).value) == c
    {
      FindExactly(e, x.parent, n);
      FindExactly(e, et.id[c], c);
    }
    ChildIsRead(e, t.references, n, r.key, c);
  }

  // ------------------------------------------------------ more rows to read

  ghost predicate Within(t: Tables, t2: Tables) {
    (forall r | r in t.elements :: r in t2.elements) && (forall r | r in t.references :: r in t2.references) &&
    (forall r | r in t.properties :: r in t2.properties) && (forall r | r in t.pairs :: r in t2.pairs)
  }

  // A name that keeps its id, and a reference that keeps its child.
  ghost predicate KeepsName(et: ElementTypes, et2: ElementTypes, n: string)
    requires et.Valid() && et2.Valid()
  {
    n in et.id ==> n in et2.id && et2.id[n] == et.id[n]
  }

  ghost predicate KeepsReference(et: ElementTypes, et2: ElementTypes, n: string, k: string)
    requires et.Valid() && et2.Valid()
  {
    n in et.id && k in et.info[n].at ==> n in et2.id && k in et2.info[n].at && et2.info[n].at[k] == et.info[n].at[k]
  }

  lemma NamesStay(t: Tables, et: ElementTypes, pt: PropertyTypes, t2: Tables, et2: ElementTypes, pt2: PropertyTypes,
                  n: string)
    requires Reflects(t, et, pt) && Reflects(t2, et2, pt2) && Within(t, t2)
    ensures et.Valid() && et2.Valid() && KeepsName(et, et2, n)
  {
    hide Reflects;
    AreValid(t, et, pt);
    AreValid(t2, et2, pt2);
    ElementIsRead(t, et, pt, n);
    ElementIsRead(t2, et2, pt2, n);
  }

  // The row behind a reference that was read, and its child.
  lemma RowOfReference(t: Tables, et: ElementTypes, pt: PropertyTypes, n: string, k: string)
    returns (r: ReferenceRow, c: string)
    requires Leads(t, et, pt) && Unambiguous(t) && n in et.id && k in et.info[n].at
    ensures r in t.references && r.key == k && r.parent == et.id[n]
    ensures c in et.id && ParseInt(r.child) == Some(et.id[c]) && et.info[n].at[k] == c
  {
    hide ParseInt;
    r :| r in t.references && r.key == k && r.parent == et.id[n];
    var e :| e in t.elements && e.id == ParseInt(r.child).value;
    c := e.name;
  }

  lemma ReferencesStay(t: Tables, et: ElementTypes, pt: PropertyTypes, t2: Tables, et2: ElementTypes,
                       pt2: PropertyTypes, n: string, k: string)
    requires Leads(t, et, pt) && Leads(t2, et2, pt2) && Unambiguous(t) && Within(t, t2)
    ensures et.Valid() && et2.Valid() && KeepsReference(et, et2, n, k)
  {
    hide Reflects, Unambiguous, ParseInt;
    AreValid(t, et, pt);
    AreValid(t2, et2, pt2);
    if n in et.id && k in et.info[n].at {
      var r, c := RowOfReference(t, et, pt, n, k);
      NamesStay(t, et, pt, t2, et2, pt2, n);
      NamesStay(t, et, pt, t2, et2, pt2, c);
    }
  }

  // ------------------------------------------------------ one run keeps it

  // Known ids and new ids never meet, so an id stands for one name.
  lemma IdsTell(et0: ElementTypes, o: Orders, etmap: map<string, int>, m: string, n: string)
    requires et0.Valid() && DistinctIds(et0) && etmap == ElementIdsOf(et0, o)
    requires forall i, j | 0 <= i < j < |o.elements| :: o.elements[i] != o.elements[j]
    requires Knows(et0.id, etmap, m) && Knows(et0.id, etmap, n) && IdIn(et0.id, etmap, m) == IdIn(et0.id, etmap, n)
    ensures m == n
  {
    hide Assigned, LastId;
    AssignedFresh(o.elements, LastId(et0.names, et0.id));
    assert m in et0.id ==> m in et0.names;
    assert n in et0.id ==> n in et0.names;
  }

  // Only a known name has an id that the changelogs list.
  lemma ListedIsKnown(t0: Tables, et0: ElementTypes, pt0: PropertyTypes, o: Orders, etmap: map<string, int>, n: string)
    requires Reflects(t0, et0, pt0) && etmap == ElementIdsOf(et0, o) && Knows(et0.id, etmap, n)
    requires forall i, j | 0 <= i < j < |o.elements| :: o.elements[i] != o.elements[j]
    requires HasId(t0.elements, IdIn(et0.id, etmap, n))
    ensures n in et0.id
  {
    hide Assigned, LastId, Reflects;
    AreValid(t0, et0, pt0);
    AssignedFresh(o.elements, LastId(et0.names, et0.id));
    var e :| e in t0.elements && e.id == IdIn(et0.id, etmap, n);
    ElementIsRead(t0, et0, pt0, e.name);
    assert e == ElementRow(e.id, e.name) && e.name in et0.names;
  }

  lemma NameHasId(t0: Tables, et0: ElementTypes, pt0: PropertyTypes, etmap: map<string, int>, rows: seq<ElementRow>,
                  t2: Tables, n: string)
    requires Reflects(t0, et0, pt0) && Knows(et0.id, etmap, n) && WrittenElements(rows, etmap)
    requires forall r :: r in t2.elements <==> r in t0.elements || r in rows
    ensures HasId(t2.elements, IdIn(et0.id, etmap, n))
  {
    hide Reflects;
    ElementIsRead(t0, et0, pt0, n);
    var e := ElementRow(IdIn(et0.id, etmap, n), n);
    assert e in t2.elements;
  }

  // What the proofs below use of a new reference row.
  ghost predicate NewReference(r: ReferenceRow, n: string, k: string, et0: ElementTypes, et1: ElementTypes,
                               etmap: map<string, int>)
    requires et0.Valid() && et1.Valid() && AllKnown(et0, et1, etmap) && ReferencesClosed(et1)
  {
    n in et1.id && k in et1.info[n].at && (n in et0.id ==> k !in et0.info[n].at) &&
    r == ReferenceFor(et0.id, etmap, n, k, et1.info[n].at[k])
  }

  lemma NewReferenceIs(t0: Tables, et0: ElementTypes, pt0: PropertyTypes, et1: ElementTypes, pt1: PropertyTypes,
                       o: Orders, out: Tables, r: ReferenceRow) returns (n: string)
    requires Ran(t0, et0, pt0, et1, pt1, o, out) && r in out.references
    ensures NewReference(r, n, r.key, et0, et1, ElementIdsOf(et0, o))
  {
    hide Assigned, LastId, WrittenPairs, WrittenProperties, WrittenElements, Reflects, ReferencesClosed, AllKnown,
         ReferenceFor;
    var etmap := ElementIdsOf(et0, o);
    if m :| m in o.elements && WrittenFor(r, m, true, et0, et1, etmap) {
      n := m;
    } else {
      n :| n in o.others && WrittenFor(r, n, false, et0, et1, etmap);
    }
  }

  lemma NewReferenceIsWritten(t0: Tables, et0: ElementTypes, pt0: PropertyTypes, et1: ElementTypes, pt1: PropertyTypes,
                              o: Orders, out: Tables, r: ReferenceRow, n: string, k: string)
    requires Ran(t0, et0, pt0, et1, pt1, o, out) && NewReference(r, n, k, et0, et1, ElementIdsOf(et0, o))
    ensures r in out.references
  {
    hide Assigned, LastId, WrittenPairs, WrittenProperties, WrittenElements, Reflects, ReferencesClosed, AllKnown;
    assert WrittenFor(r, n, n in o.elements, et0, et1, ElementIdsOf(et0, o));
  }

  lemma ReferenceParts(r: ReferenceRow, n: string, k: string, et0: ElementTypes, et1: ElementTypes,
                       etmap: map<string, int>)
    requires et0.Valid() && et1.Valid() && AllKnown(et0, et1, etmap) && ReferencesClosed(et1)
    requires NewReference(r, n, k, et0, et1, etmap)
    ensures
      var c := et1.info[n].at[k];
      c in et1.id && Knows(et0.id, etmap, n) && Knows(et0.id, etmap, c) &&
      r.key == k && r.parent == IdIn(et0.id, etmap, n) && ParseInt(r.child) == Some(IdIn(et0.id, etmap, c))
  {
    hide ParseInt, Str;
    ParseStr(IdIn(et0.id, etmap, et1.info[n].at[k]));
  }

  lemma NewReferenceListed(t0: Tables, et0: ElementTypes, pt0: PropertyTypes, et1: ElementTypes, pt1: PropertyTypes,
                           o: Orders, out: Tables, t2: Tables, r: ReferenceRow)
    requires Ran(t0, et0, pt0, et1, pt1, o, out) && Merged(t2, t0, out) && r in out.references
    ensures HasId(t2.elements, r.parent) && ParseInt(r.child).Some? && HasId(t2.elements, ParseInt(r.child).value)
  {
    hide Assigned, LastId, WrittenPairs, WrittenProperties, WrittenReferences, WrittenElements, Reflects,
         ReferencesClosed, ReferenceFor, ParseInt, HasId, NewReference;
    var etmap := ElementIdsOf(et0, o);
    var n := NewReferenceIs(t0, et0, pt0, et1, pt1, o, out, r);
    ReferenceParts(r, n, r.key, et0, et1, etmap);
    NewReferenceMeans(r, n, r.key, et0, et1, etmap);
    NameHasId(t0, et0, pt0, etmap, out.elements, t2, n);
    NameHasId(t0, et0, pt0, etmap, out.elements, t2, et1.info[n].at[r.key]);
  }

  lemma NewReferenceMeans(r: ReferenceRow, n: string, k: string, et0: ElementTypes, et1: ElementTypes,
                          etmap: map<string, int>)
    requires et0.Valid() && et1.Valid() && AllKnown(et0, et1, etmap) && ReferencesClosed(et1)
    requires NewReference(r, n, k, et0, et1, etmap)
    ensures n in et1.id && k in et1.info[n].at && (n in et0.id ==> k !in et0.info[n].at)
    ensures Knows(et0.id, etmap, n) && r == ReferenceFor(et0.id, etmap, n, k, et1.info[n].at[k])
  {
  }

  // Two rows of one parent and key, at least one of them new, are the same.
  lemma OneRowForKey(t0: Tables, et0: ElementTypes, pt0: PropertyTypes, et1: ElementTypes, pt1: PropertyTypes,
                     o: Orders, out: Tables, x: ReferenceRow, y: ReferenceRow)
    requires Ran(t0, et0, pt0, et1, pt1, o, out) && DistinctIds(et0)
    requires forall i, j | 0 <= i < j < |o.elements| :: o.elements[i] != o.elements[j]
    requires forall r | r in t0.references :: HasId(t0.elements, r.parent)
    requires y in out.references && (x in out.references || x in t0.references) && x.parent == y.parent &&
      x.key == y.key
    ensures x in out.references && x == y
  {
    hide Assigned, LastId, WrittenPairs, WrittenProperties, WrittenReferences, WrittenElements, Reflects,
         ReferencesClosed, DistinctIds, HasId, NewReference, ReferenceFor, ParseInt, AllKnown;
    var etmap := ElementIdsOf(et0, o);
    var n := NewReferenceIs(t0, et0, pt0, et1, pt1, o, out, y);
    ReferenceParts(y, n, y.key, et0, et1, etmap);
    NewReferenceMeans(y, n, y.key, et0, et1, etmap);
    if x in out.references {
      var m := NewReferenceIs(t0, et0, pt0, et1, pt1, o, out, x);
      ReferenceParts(x, m, x.key, et0, et1, etmap);
      NewReferenceMeans(x, m, x.key, et0, et1, etmap);
      IdsTell(et0, o, etmap, m, n);
    } else {
      ListedIsKnown(t0, et0, pt0, o, etmap, n);
      KeyIsKnown(t0, et0, pt0, x, n);
      assert false;
    }
  }

  lemma KeyIsKnown(t0: Tables, et0: ElementTypes, pt0: PropertyTypes, x: ReferenceRow, n: string)
    requires Reflects(t0, et0, pt0) && x in t0.references && n in et0.id && x.parent == et0.id[n]
    ensures x.key in et0.info[n].at
  {
  }

  // Property types get one row each.
  lemma OneRowForProperty(t0: Tables, et0: ElementTypes, pt0: PropertyTypes, pt1: PropertyTypes, order: seq<string>,
                          last: int, x: PropertyRow, y: PropertyRow)
    requires Reflects(t0, et0, pt0) && pt1.Valid() && forall n | n in order :: n in pt1.id && n !in pt0.id
    requires forall i, j | 0 <= i < j < |order| :: order[i] != order[j]
    requires y in NewProperties(order, last, pt1) && (x in NewProperties(order, last, pt1) || x in t0.properties)
    requires x.name == y.name
    ensures x == y
  {
    hide NewProperties;
    NewPropertiesAt(order, last, pt1);
    var rows := NewProperties(order, last, pt1);
    var j :| 0 <= j < |rows| && rows[j] == y;
    assert y.name == order[j] && y.name in order;
    if x in rows {
      var i :| 0 <= i < |rows| && rows[i] == x;
      assert order[i] == order[j];
    }
  }

  // The changelogs stay unambiguous with the rows of one more run.
  lemma NextUnambiguous(t0: Tables, et0: ElementTypes, pt0: PropertyTypes, et1: ElementTypes, pt1: PropertyTypes,
                        o: Orders, t2: Tables)
    requires Situation(t0, et0, pt0, et1, pt1, o) && Generate(et0, pt0, et1, pt1, o).Ok? && Unambiguous(t0)
    requires Merged(t2, t0, Generate(et0, pt0, et1, pt1, o).value)
    ensures Unambiguous(t2)
  {
    hide Situation, Generate, Ran, HasId, ParseInt, Reflects, OrdersFit, DistinctIds;
    OrdersDistinct(t0, et0, pt0, et1, pt1, o);
    RunRan(t0, et0, pt0, et1, pt1, o);
    var out := Generate(et0, pt0, et1, pt1, o).value;
    PropertiesWritten(et0, pt0, et1, pt1, o);
    forall r | r in t2.references
      ensures HasId(t2.elements, r.parent) && ParseInt(r.child).Some? && HasId(t2.elements, ParseInt(r.child).value)
    {
      if r in t0.references {
        IdStaysListed(t0.elements, t2.elements, r.parent);
        IdStaysListed(t0.elements, t2.elements, ParseInt(r.child).value);
      } else {
        NewReferenceListed(t0, et0, pt0, et1, pt1, o, out, t2, r);
      }
    }
    forall x, y | x in t2.references && y in t2.references && x.parent == y.parent && x.key == y.key
      ensures ParseInt(x.child) == ParseInt(y.child)
    {
      if y in out.references {
        OneRowForKey(t0, et0, pt0, et1, pt1, o, out, x, y);
      } else if x in out.references {
        OneRowForKey(t0, et0, pt0, et1, pt1, o, out, y, x);
      }
    }
    forall x, y | x in t2.properties && y in t2.properties && x.name == y.name ensures x == y {
      if y in out.properties {
        OneRowForProperty(t0, et0, pt0, pt1, o.properties, LastId(pt0.names, pt0.id), x, y);
      } else if x in out.properties {
        OneRowForProperty(t0, et0, pt0, pt1, o.properties, LastId(pt0.names, pt0.id), y, x);
      }
    }
  }

  lemma IdStaysListed(rows: seq<ElementRow>, more: seq<ElementRow>, id: int)
    requires HasId(rows, id) && forall r | r in rows :: r in more
    ensures HasId(more, id)
  {
  }

  lemma OrdersDistinct(t0: Tables, et0: ElementTypes, pt0: PropertyTypes, et1: ElementTypes, pt1: PropertyTypes,
                       o: Orders)
    requires Situation(t0, et0, pt0, et1, pt1, o)
    ensures Reflects(t0, et0, pt0) && et0.Valid() && DistinctIds(et0) && OrdersFit(et0, pt0, et1, pt1, o)
    ensures pt0.Valid() && et1.Valid() && pt1.Valid()
    ensures forall i, j | 0 <= i < j < |o.elements| :: o.elements[i] != o.elements[j]
    ensures forall i, j | 0 <= i < j < |o.properties| :: o.properties[i] != o.properties[j]
    ensures forall n | n in o.properties :: n in pt1.id && n !in pt0.id
  {
    hide Generate, OrdersFit, Closed, Ready;
    IsReady(t0, et0, pt0, et1, pt1, o);
    NewNames(t0, et0, pt0, et1, pt1, o);
  }

  // A new reference reads back as the child that the database gave it.
  lemma NewReferenceReadsBack(t0: Tables, et0: ElementTypes, pt0: PropertyTypes, et1: ElementTypes, pt1: PropertyTypes,
                              o: Orders, out: Tables, t2: Tables, et2: ElementTypes, pt2: PropertyTypes, n: string,
                              k: string)
    requires Ran(t0, et0, pt0, et1, pt1, o, out) && Merged(t2, t0, out) && Leads(t2, et2, pt2)
    requires n in et1.id && k in et1.info[n].at && (n in et0.id ==> k !in et0.info[n].at)
    ensures n in et2.id && k in et2.info[n].at && et2.info[n].at[k] == et1.info[n].at[k]
  {
    hide Ran, Reflects, ParseInt, NewReference, ReferenceFor, Assigned, LastId;
    RanValid(t0, et0, pt0, et1, pt1, o, out);
    var etmap := ElementIdsOf(et0, o);
    var c := et1.info[n].at[k];
    KnownParts(et0, et1, etmap, n, k);
    var r := ReferenceFor(et0.id, etmap, n, k, c);
    NewReferenceFrom(et0, et1, etmap, n, k);
    NewReferenceIsWritten(t0, et0, pt0, et1, pt1, o, out, r, n, k);
    ReferenceParts(r, n, k, et0, et1, etmap);
    ElementIdsReadBack(t0, et0, pt0, et1, pt1, o, out, t2, et2, pt2);
  }

  lemma RanValid(t0: Tables, et0: ElementTypes, pt0: PropertyTypes, et1: ElementTypes, pt1: PropertyTypes, o: Orders,
                 out: Tables)
    requires Ran(t0, et0, pt0, et1, pt1, o, out)
    ensures Reflects(t0, et0, pt0) && et0.Valid() && et1.Valid() && pt1.Valid() && ReferencesClosed(et1)
    ensures AllKnown(et0, et1, ElementIdsOf(et0, o))
  {
    hide Reflects, ReferencesClosed, AllKnown, Written, Assigned, LastId;
  }

  lemma KnownParts(et0: ElementTypes, et1: ElementTypes, etmap: map<string, int>, n: string, k: string)
    requires et0.Valid() && et1.Valid() && AllKnown(et0, et1, etmap) && ReferencesClosed(et1)
    requires n in et1.id && k in et1.info[n].at
    ensures Knows(et0.id, etmap, n) && et1.info[n].at[k] in et1.id && Knows(et0.id, etmap, et1.info[n].at[k])
  {
  }

  lemma NewReferenceFrom(et0: ElementTypes, et1: ElementTypes, etmap: map<string, int>, n: string, k: string)
    requires et0.Valid() && et1.Valid() && AllKnown(et0, et1, etmap) && ReferencesClosed(et1)
    requires n in et1.id && k in et1.info[n].at && (n in et0.id ==> k !in et0.info[n].at)
    requires Knows(et0.id, etmap, n) && Knows(et0.id, etmap, et1.info[n].at[k])
    ensures NewReference(ReferenceFor(et0.id, etmap, n, k, et1.info[n].at[k]), n, k, et0, et1, etmap)
  {
  }

  // Every reference of the database reads back, with its child exactly if the
  // key was new or the changelogs had that child already: children of known
  // keys are never compared.
  lemma ChildReadsBackExactly(t0: Tables, et0: ElementTypes, pt0: PropertyTypes, et1: ElementTypes, pt1: PropertyTypes,
                              o: Orders, t2: Tables, et2: ElementTypes, pt2: PropertyTypes, n: string, k: string)
    requires Situation(t0, et0, pt0, et1, pt1, o) && Generate(et0, pt0, et1, pt1, o).Ok? && Unambiguous(t0) &&
      Leads(t0, et0, pt0)
    requires Merged(t2, t0, Generate(et0, pt0, et1, pt1, o).value) && Leads(t2, et2, pt2)
    requires et1.Valid() && n in et1.id && k in et1.info[n].at
    ensures et0.Valid() && et2.Valid() && n in et2.id && k in et2.info[n].at
    ensures
      et2.info[n].at[k] == et1.info[n].at[k] <==>
      !(n in et0.id && k in et0.info[n].at) || et0.info[n].at[k] == et1.info[n].at[k]
  {
    hide Situation, Generate, Ran, Reflects, Unambiguous, Leads, OrdersFit, ReferencesClosed, AllKnown, DistinctIds;
    OrdersDistinct(t0, et0, pt0, et1, pt1, o);
    RunRan(t0, et0, pt0, et1, pt1, o);
    var out := Generate(et0, pt0, et1, pt1, o).value;
    RanValid(t0, et0, pt0, et1, pt1, o, out);
    if n in et0.id && k in et0.info[n].at {
      ReferencesStay(t0, et0, pt0, t2, et2, pt2, n, k);
    } else {
      LeadsReflects(t2, et2, pt2);
      NewReferenceReadsBack(t0, et0, pt0, et1, pt1, o, out, t2, et2, pt2, n, k);
    }
  }

  lemma LeadsReflects(t: Tables, et: ElementTypes, pt: PropertyTypes)
    requires Leads(t, et, pt)
    ensures et.Valid() && pt.Valid() && Reflects(t, et, pt)
  {
  }

  // ----------------------------------------------------------- whole runs

  // Directories whose changelogs are consistent and unambiguous.
  ghost predicate Clear(paths: seq<Folder>) {
    TablesOf(paths).Ok? && Consistent(TablesOf(paths).value) && Unambiguous(TablesOf(paths).value)
  }

  lemma ClearReads(paths: seq<Folder>)
    requires Clear(paths)
    ensures ReadCatalogue(paths).Ok?
    ensures Leads(TablesOf(paths).value, ReadCatalogue(paths).value.et, ReadCatalogue(paths).value.pt)
  {
    hide TablesOf, Consistent, Unambiguous, Leads, ElementTypesOf, PropertyTypesOf;
    UnambiguousReads(TablesOf(paths).value);
  }

  lemma SituationOf(paths: seq<Folder>, db: Database, o: Orders)
    requires Clear(paths) && Sound(db) && Fit(ReadCatalogue(paths), DbCatalogue(db), o)
    ensures ReadCatalogue(paths).Ok? && DbCatalogue(db).Ok?
    ensures
      var c0, c1 := ReadCatalogue(paths).value, DbCatalogue(db).value;
      Situation(TablesOf(paths).value, c0.et, c0.pt, c1.et, c1.pt, o)
  {
    hide Reflects, Closed, DistinctIds, TablesOf, ReadCatalogue, DbCatalogue, Consistent, Sound, OrdersFit;
    UsableReads(paths, db);
  }

  // Runs keep the changelogs unambiguous.
  lemma RunKeepsClear(paths: seq<Folder>, db: Database, o: Orders, paths2: seq<Folder>)
    requires Clear(paths) && Sound(db) && Fit(ReadCatalogue(paths), DbCatalogue(db), o)
    requires ReadCatalogue(paths).Ok? && DbCatalogue(db).Ok? && Listed(paths, db)
    requires RunTables(paths, db, o).Ok?
    requires forall f :: f in paths2 <==> f in paths || f == Render(RunTables(paths, db, o).value)
    ensures Clear(paths2) && Merged(TablesOf(paths2).value, TablesOf(paths).value, RunTables(paths, db, o).value)
  {
    hide Situation, Generate, ReadCatalogue, DbCatalogue, TablesOf, Consistent, Merged, Sound, Unambiguous, Render,
         Listed;
    SituationOf(paths, db, o);
    RunKeepsConsistency(paths, db, o, paths2);
    var c0, c1 := ReadCatalogue(paths).value, DbCatalogue(db).value;
    NextUnambiguous(TablesOf(paths).value, c0.et, c0.pt, c1.et, c1.pt, o, TablesOf(paths2).value);
  }

  // After a run every reference of the database is read, under its parent and
  // key, and with its child exactly if the key was new or had that child.
  lemma RunReadsReferences(paths: seq<Folder>, db: Database, o: Orders, paths2: seq<Folder>, n: string, k: string)
    requires Clear(paths) && Sound(db) && Fit(ReadCatalogue(paths), DbCatalogue(db), o)
    requires ReadCatalogue(paths).Ok? && DbCatalogue(db).Ok? && Listed(paths, db)
    requires RunTables(paths, db, o).Ok?
    requires forall f :: f in paths2 <==> f in paths || f == Render(RunTables(paths, db, o).value)
    requires n in DbCatalogue(db).value.et.id && k in DbCatalogue(db).value.et.info[n].at
    ensures ReadCatalogue(paths2).Ok?
    ensures
      var et0, et1, et2 := ReadCatalogue(paths).value.et, DbCatalogue(db).value.et, ReadCatalogue(paths2).value.et;
      n in et2.id && k in et2.info[n].at &&
      (et2.info[n].at[k] == et1.info[n].at[k] <==>
       !(n in et0.id && k in et0.info[n].at) || et0.info[n].at[k] == et1.info[n].at[k])
  {
    hide Situation, Generate, ReadCatalogue, DbCatalogue, TablesOf, Merged, Sound, Leads, Render, Listed;
    SituationOf(paths, db, o);
    RunKeepsClear(paths, db, o, paths2);
    ClearReads(paths);
    ClearReads(paths2);
    var c0, c1, c2 := ReadCatalogue(paths).value, DbCatalogue(db).value, ReadCatalogue(paths2).value;
    ChildReadsBackExactly(TablesOf(paths).value, c0.et, c0.pt, c1.et, c1.pt, o, TablesOf(paths2).value, c2.et, c2.pt, n,
                          k);
  }

  // More directories hold the rows of fewer.
  lemma MoreDirectories(paths: seq<Folder>, paths2: seq<Folder>)
    requires (forall f | f in paths :: f in paths2) && TablesOf(paths2).Ok?
    ensures TablesOf(paths).Ok? && Within(TablesOf(paths).value, TablesOf(paths2).value)
  {
    hide TableOf, FolderTable;
    TableByFolder(paths, ELEMENTS, ["ID", "NAME"], ToElementRow);
    TableByFolder(paths2, ELEMENTS, ["ID", "NAME"], ToElementRow);
    TableByFolder(paths, REFERENCES, ["ELEMENT_TYPE_ID", "REFERENCES_ID", "REFERENCES_KEY"], ToReferenceRow);
    TableByFolder(paths2, REFERENCES, ["ELEMENT_TYPE_ID", "REFERENCES_ID", "REFERENCES_KEY"], ToReferenceRow);
    TableByFolder(paths, PROPERTIES, ["ID", "NAME", "TYPE", "UNIT"], ToPropertyRow);
    TableByFolder(paths2, PROPERTIES, ["ID", "NAME", "TYPE", "UNIT"], ToPropertyRow);
    TableByFolder(paths, PAIRS, ["ELEMENT_TYPE_ID", "PROPERTY_TYPES_ID"], ToPairRow);
    TableByFolder(paths2, PAIRS, ["ELEMENT_TYPE_ID", "PROPERTY_TYPES_ID"], ToPairRow);
  }

  // What was read from fewer directories is read from more: the same id for a
  // name, and the same child for a reference.
  lemma MoreDirectoriesKeep(paths: seq<Folder>, paths2: seq<Folder>, n: string, k: string)
    requires Clear(paths) && Clear(paths2) && forall f | f in paths :: f in paths2
    ensures ReadCatalogue(paths).Ok? && ReadCatalogue(paths2).Ok?
    ensures KeepsName(ReadCatalogue(paths).value.et, ReadCatalogue(paths2).value.et, n)
    ensures KeepsReference(ReadCatalogue(paths).value.et, ReadCatalogue(paths2).value.et, n, k)
  {
    hide TablesOf, ReadCatalogue, Leads, Consistent, Unambiguous, Within, KeepsName, KeepsReference;
    ClearReads(paths);
    ClearReads(paths2);
    MoreDirectories(paths, paths2);
    var c, c2 := ReadCatalogue(paths).value, ReadCatalogue(paths2).value;
    LeadsReflects(TablesOf(paths).value, c.et, c.pt);
    LeadsReflects(TablesOf(paths2).value, c2.et, c2.pt);
    NamesStay(TablesOf(paths).value, c.et, c.pt, TablesOf(paths2).value, c2.et, c2.pt, n);
    ReferencesStay(TablesOf(paths).value, c.et, c.pt, TablesOf(paths2).value, c2.et, c2.pt, n, k);
  }
}
