// The type catalogue of scripts/create-changelogs.py: Python dictionaries of
// element and property types, and how they are read back from CSV changelogs
// or built from the database.

module Catalogue {
  import opened Text

  // A value, or the exception that ends the script.
  datatype Outcome<+T> = Raises | Ok(value: T) {
    predicate IsFailure() {
      Raises?
    }

    function PropagateFailure<U>(): Outcome<U>
      requires Raises?
    {
      Raises
    }

    function Extract(): T
      requires Ok?
    {
      value
    }
  }

  // A dictionary in insertion order.
  datatype Dict<V> = Dict(keys: seq<string>, at: map<string, V>) {
    ghost predicate Valid() {
      (forall k :: k in keys <==> k in at) &&
      forall i, j | 0 <= i < j < |keys| :: keys[i] != keys[j]
    }

    function Put(k: string, v: V): (d: Dict<V>)
      ensures Valid() ==> d.Valid()
    {
      Dict(if k in at then keys else keys + [k], at[k := v])
    }
  }

  // The types by name: their ids, and the rest of each entry.
  datatype Types<V> = Types(names: seq<string>, id: map<string, int>, info: map<string, V>) {
    ghost predicate Valid() {
      (forall n :: n in names <==> n in id) && id.Keys == info.Keys &&
      forall i, j | 0 <= i < j < |names| :: names[i] != names[j]
    }

    function Put(name: string, i: int, v: V): (t: Types<V>)
      ensures Valid() ==> t.Valid()
    {
      Types(if name in id then names else names + [name], id[name := i], info[name := v])
    }
  }

  // A known name keeps its place among the names, a new one comes last.
  lemma PutKeepsOrder<V>(t: Types<V>, name: string, i: int, v: V)
    requires t.Valid()
    ensures
      var u := t.Put(name, i, v);
      u.Valid() && u.id[name] == i && u.info[name] == v &&
      (if name in t.names then u.names == t.names else u.names == t.names + [name]) &&
      forall n | n in t.id && n != name :: n in u.id && u.id[n] == t.id[n] && u.info[n] == t.info[n]
  {
  }

  datatype PropertyInfo = PropertyInfo(unit: string, kind: string, elements: seq<string>)

  type ElementTypes = Types<Dict<string>>  // the references of a type: key to child name
  type PropertyTypes = Types<PropertyInfo>

  // The first name with the given id, or the empty string.
  function FindTypeById(names: seq<string>, id: map<string, int>, i: int): (name: string)
    requires forall n | n in names :: n in id
    ensures name != "" ==> name in names && id[name] == i
    ensures name == "" ==> ("" in names && id[""] == i) || forall n | n in names :: id[n] != i
  {
    if names == [] then ""
    else if id[names[0]] == i then names[0]
    else FindTypeById(names[1..], id, i)
  }

  method SearchTypeById<V>(t: Types<V>, i: int) returns (name: string)
    requires t.Valid()
    ensures name == FindTypeById(t.names, t.id, i)
  {
    var k := 0;
    while k < |t.names|
      invariant k <= |t.names|
      invariant FindTypeById(t.names[k..], t.id, i) == FindTypeById(t.names, t.id, i)
    {
      if i == t.id[t.names[k]] {
        return t.names[k];
      }
      assert t.names[k..][1..] == t.names[k + 1..];
      k := k + 1;
    }
    return "";
  }

  // With distinct ids the lookup is the inverse of the map from names to ids.
  lemma {:induction false} FindIsInverse(names: seq<string>, id: map<string, int>, name: string)
    requires forall n | n in names :: n in id
    requires forall m, n | m in names && n in names && id[m] == id[n] :: m == n
    requires name in names
    ensures FindTypeById(names, id, id[name]) == name
  {
    if id[names[0]] != id[name] {
      FindIsInverse(names[1..], id, name);
    }
  }

  // If an id is shared, the name that was put in first is found.
  lemma {:induction false} FindIsFirst(names: seq<string>, id: map<string, int>, k: nat)
    requires k < |names| && forall n | n in names :: n in id
    requires forall j | 0 <= j < k :: id[names[j]] != id[names[k]]
    ensures FindTypeById(names, id, id[names[k]]) == names[k]
  {
    if k > 0 {
      FindIsFirst(names[1..], id, k - 1);
    }
  }

  // ------------------------------------------------------------ CSV tables

  type Folder = map<string, string>  // file name to text

  type Row = seq<string>

  // header.index(column) for each column.
  function Columns(header: seq<string>, columns: seq<string>): Outcome<seq<nat>> {
    if columns == [] then Ok([])
    else if columns[0] !in header then Raises
    else
      var rest :- Columns(header, columns[1..]);
      Ok([IndexOf(header, columns[0])] + rest)
  }

  function IndexOf(header: seq<string>, column: string): (i: nat)
    requires column in header
    ensures i < |header| && header[i] == column
    ensures forall j | 0 <= j < i :: header[j] != column
  {
    if header[0] == column then 0 else 1 + IndexOf(header[1..], column)
  }

  // The chosen fields of a line, up to the first one that it lacks.
  function Fields(line: seq<string>, columns: seq<nat>): Row {
    if columns == [] || columns[0] >= |line| then []
    else [line[columns[0]]] + Fields(line, columns[1..])
  }

  // The chosen fields of the non-empty lines.
  function LineRows(lines: seq<string>, columns: seq<nat>): seq<Row> {
    if lines == [] then []
    else
      var n := |lines| - 1;
      var rows := LineRows(lines[..n], columns);
      if lines[n] == "" then rows else rows + [Fields(Split(lines[n], ','), columns)]
  }

  function TextRows(text: string, columns: seq<string>): Outcome<seq<Row>> {
    var lines := Split(UniversalNewlines(text), '\n');
    var indexes :- Columns(Split(lines[0], ','), columns);
    Ok(LineRows(lines[1..], indexes))
  }

  // A text reads alike with line feeds, carriage returns, or both at its line ends.
  lemma LineEndsDoNotMatter(text: string, newline: string, columns: seq<string>)
    requires '\r' !in text && (newline == "\r\n" || newline == "\r" || newline == "\n")
    ensures TextRows(WithReturns(text, newline), columns) == TextRows(text, columns)
  {
    hide UniversalNewlines, Split, Columns, LineRows;
    ReturnsAreRead(text, newline);
    NoCarriageReturn(text);
  }

  // The rows of one table over all changelog directories that hold its file.
  function TableRows(paths: seq<Folder>, file: string, columns: seq<string>): Outcome<seq<Row>> {
    if paths == [] then Ok([])
    else
      var n := |paths| - 1;
      var rows :- TableRows(paths[..n], file, columns);
      if file !in paths[n] then Ok(rows)
      else
        var more :- TextRows(paths[n][file], columns);
        Ok(rows + more)
  }

  method ReadTable(paths: seq<Folder>, file: string, columns: seq<string>) returns (rows: Outcome<seq<Row>>)
    ensures rows == TableRows(paths, file, columns)
  {
    var all := [];
    for p := 0 to |paths|
      invariant TableRows(paths[..p], file, columns) == Ok(all)
    {
      assert paths[..p + 1][..p] == paths[..p];
      if file !in paths[p] {
        continue;
      }
      var more := ReadText(paths[p][file], columns);
      if more.Raises? {
        RaisesForGood(paths, p + 1, file, columns);
        return Raises;
      }
      all := all + more.value;
    }
    assert paths[..|paths|] == paths;
    return Ok(all);
  }

  lemma {:induction false} RaisesForGood(paths: seq<Folder>, p: nat, file: string, columns: seq<string>)
    requires p <= |paths| && TableRows(paths[..p], file, columns).Raises?
    ensures TableRows(paths, file, columns).Raises?
    decreases |paths| - p
  {
    if p == |paths| {
      assert paths[..p] == paths;
    } else {
      assert paths[..p + 1][..p] == paths[..p];
      RaisesForGood(paths, p + 1, file, columns);
    }
  }

  method ReadText(text: string, columns: seq<string>) returns (rows: Outcome<seq<Row>>)
    ensures rows == TextRows(text, columns)
  {
    var lines := Split(UniversalNewlines(text), '\n');
    var indexes := Columns(Split(lines[0], ','), columns);
    if indexes.Raises? {
      return Raises;
    }
    var all := [];
    var body := lines[1..];
    for k := 0 to |body|
      invariant all == LineRows(body[..k], indexes.value)
    {
      assert body[..k + 1][..k] == body[..k];
      if body[k] != "" {
        all := all + [Fields(Split(body[k], ','), indexes.value)];
      }
    }
    assert body[..|body|] == body;
    return Ok(all);
  }

  // ------------------------------------------------------- element types

  datatype ElementRow = ElementRow(id: int, name: string)
  // The child id stays text: it is only parsed when the parent is known.
  datatype ReferenceRow = ReferenceRow(parent: int, child: string, key: string)
  datatype PropertyRow = PropertyRow(id: int, name: string, kind: string, unit: string)
  datatype PairRow = PairRow(element: int, property: int)

  function ToElementRow(row: Row): Outcome<ElementRow> {
    if |row| != 2 || ParseInt(row[0]).None? then Raises
    else Ok(ElementRow(ParseInt(row[0]).value, row[1]))
  }

  // A row without its later fields is only found to be short when its parent is
  // known: it then fails like one with an unreadable child id.
  function ToReferenceRow(row: Row): Outcome<ReferenceRow> {
    if row == [] || ParseInt(row[0]).None? then Raises
    else if |row| < 3 then Ok(ReferenceRow(ParseInt(row[0]).value, "", ""))
    else Ok(ReferenceRow(ParseInt(row[0]).value, row[1], row[2]))
  }

  function ToPropertyRow(row: Row): Outcome<PropertyRow> {
    if |row| != 4 || ParseInt(row[0]).None? then Raises
    else Ok(PropertyRow(ParseInt(row[0]).value, row[1], row[2], row[3]))
  }

  function ToPairRow(row: Row): Outcome<PairRow> {
    if |row| != 2 || ParseInt(row[0]).None? || ParseInt(row[1]).None? then Raises
    else Ok(PairRow(ParseInt(row[0]).value, ParseInt(row[1]).value))
  }

  function MapRows<R>(rows: seq<Row>, to: Row -> Outcome<R>): Outcome<seq<R>> {
    if rows == [] then Ok([])
    else
      var n := |rows| - 1;
      var done :- MapRows(rows[..n], to);
      var row :- to(rows[n]);
      Ok(done + [row])
  }

  const NOTHING: Dict<string> := Dict([], map[])

  function ElementsOf(rows: seq<ElementRow>): (t: ElementTypes)
    ensures t.Valid()
    ensures forall n :: n in t.id <==> exists r | r in rows :: r.name == n
    ensures forall n | n in t.id :: ElementRow(t.id[n], n) in rows && t.info[n] == NOTHING
  {
    if rows == [] then Types([], map[], map[])
    else
      var last := rows[|rows| - 1];
      assert rows == rows[..|rows| - 1] + [last];
      ElementsOf(rows[..|rows| - 1]).Put(last.name, last.id, NOTHING)
  }

  function PutReference(t: ElementTypes, parent: string, key: string, child: string): (u: ElementTypes)
    requires t.Valid() && parent in t.id
    ensures u.Valid() && u.names == t.names && u.id == t.id
  {
    t.(info := t.info[parent := t.info[parent].Put(key, child)])
  }

  function AddReference(t: ElementTypes, row: ReferenceRow): (u: Outcome<ElementTypes>)
    requires t.Valid()
    ensures u.Ok? ==> u.value.Valid() && u.value.names == t.names && u.value.id == t.id
  {
    var parent := FindTypeById(t.names, t.id, row.parent);
    if parent == "" then Ok(t)
    else if ParseInt(row.child).None? then Raises
    else Ok(PutReference(t, parent, row.key, FindTypeById(t.names, t.id, ParseInt(row.child).value)))
  }

  function AddReferences(t: ElementTypes, rows: seq<ReferenceRow>): (u: Outcome<ElementTypes>)
    requires t.Valid()
    ensures u.Ok? ==> u.value.Valid() && u.value.names == t.names && u.value.id == t.id
  {
    if rows == [] then Ok(t)
    else
      var n := |rows| - 1;
      var u :- AddReferences(t, rows[..n]);
      AddReference(u, rows[n])
  }

  // Whether a row gives a type a reference under a key.
  predicate RefersTo(t: ElementTypes, r: ReferenceRow, name: string, key: string)
    requires t.Valid()
  {
    r.key == key && name != "" && FindTypeById(t.names, t.id, r.parent) == name
  }

  lemma AddReferenceKeys(t: ElementTypes, row: ReferenceRow, name: string, key: string)
    requires t.Valid() && AddReference(t, row).Ok? && name in t.id
    ensures key in AddReference(t, row).value.info[name].at <==> key in t.info[name].at || RefersTo(t, row, name, key)
  {
  }

  // The keys of a type are its old ones and those of the rows that name it.
  lemma {:induction false} ReferenceKeys(t: ElementTypes, rows: seq<ReferenceRow>, name: string, key: string)
    requires t.Valid() && AddReferences(t, rows).Ok? && name in t.id
    ensures
      key in AddReferences(t, rows).value.info[name].at <==>
      key in t.info[name].at || exists r | r in rows :: RefersTo(t, r, name, key)
  {
    hide AddReference, RefersTo;
    SomeRefers(t, rows, name, key);
    if rows != [] {
      var n := |rows| - 1;
      ReferenceKeys(t, rows[..n], name, key);
      var u := AddReferences(t, rows[..n]).value;
      AddReferenceKeys(u, rows[n], name, key);
      SameReference(t, u, rows[n], name, key);
    }
  }

  lemma SomeRefers(t: ElementTypes, rows: seq<ReferenceRow>, name: string, key: string)
    requires t.Valid()
    ensures rows != [] ==>
      var n := |rows| - 1;
      ((exists r | r in rows :: RefersTo(t, r, name, key)) <==>
       (exists r | r in rows[..n] :: RefersTo(t, r, name, key)) || RefersTo(t, rows[n], name, key))
  {
    hide RefersTo;
    if rows != [] {
      assert rows == rows[..|rows| - 1] + [rows[|rows| - 1]];
    }
  }

  lemma SameReference(t: ElementTypes, u: ElementTypes, r: ReferenceRow, name: string, key: string)
    requires t.Valid() && u.Valid() && t.names == u.names && t.id == u.id
    ensures RefersTo(t, r, name, key) == RefersTo(u, r, name, key)
  {
  }

  // Only an unreadable child id of a known parent raises.
  lemma {:induction false} ReferencesRaise(t: ElementTypes, rows: seq<ReferenceRow>)
    requires t.Valid()
    ensures
      AddReferences(t, rows).Ok? <==>
      forall r | r in rows && FindTypeById(t.names, t.id, r.parent) != "" :: ParseInt(r.child).Some?
  {
    if rows != [] {
      var n := |rows| - 1;
      ReferencesRaise(t, rows[..n]);
      assert rows == rows[..n] + [rows[n]];
    }
  }

  // ------------------------------------------------------ property types

  ghost predicate HoldsProperties(t: PropertyTypes, rows: seq<PropertyRow>) {
    t.Valid() && (forall n :: n in t.id <==> exists r | r in rows :: r.name == n) &&
    forall n | n in t.id :: (exists r | r in rows :: r.name == n && r.id == t.id[n]) && t.info[n].elements == []
  }

  lemma PutProperty(t: PropertyTypes, rows: seq<PropertyRow>, last: PropertyRow, more: seq<PropertyRow>)
    requires HoldsProperties(t, rows) && more == rows + [last]
    ensures HoldsProperties(t.Put(last.name, last.id, PropertyInfo(last.unit, last.kind, [])), more)
  {
    var u := t.Put(last.name, last.id, PropertyInfo(last.unit, last.kind, []));
    assert last in more;
    forall n ensures n in u.id <==> exists r | r in more :: r.name == n {
      if n != last.name && n in t.id {
        var r :| r in rows && r.name == n;
        assert r in more;
      }
    }
    forall n | n in u.id ensures (exists r | r in more :: r.name == n && r.id == u.id[n]) && u.info[n].elements == [] {
      if n != last.name {
        var r :| r in rows && r.name == n && r.id == t.id[n];
        assert r in more;
      }
    }
  }

  function PropertiesOf(rows: seq<PropertyRow>): (t: PropertyTypes)
    ensures t.Valid() && HoldsProperties(t, rows)
  {
    if rows == [] then Types([], map[], map[])
    else
      var front, last := rows[..|rows| - 1], rows[|rows| - 1];
      PutProperty(PropertiesOf(front), front, last, rows);
      PropertiesOf(front).Put(last.name, last.id, PropertyInfo(last.unit, last.kind, []))
  }

  lemma PropertiesSnoc(rows: seq<PropertyRow>, k: nat)
    requires k < |rows|
    ensures PropertiesOf(rows[..k + 1]) ==
      PropertiesOf(rows[..k]).Put(rows[k].name, rows[k].id, PropertyInfo(rows[k].unit, rows[k].kind, []))
  {
    assert rows[..k + 1][..k] == rows[..k];
  }

  function PutElement(t: PropertyTypes, property: string, element: string): (u: PropertyTypes)
    requires t.Valid() && property in t.id
    ensures u.Valid() && u.names == t.names && u.id == t.id
  {
    var p := t.info[property];
    t.(info := t.info[property := p.(elements := p.elements + [element])])
  }

  function AddPair(et: ElementTypes, t: PropertyTypes, row: PairRow): (u: Outcome<PropertyTypes>)
    requires et.Valid() && t.Valid()
    ensures u.Ok? ==> u.value.Valid() && u.value.names == t.names && u.value.id == t.id
  {
    var property := FindTypeById(t.names, t.id, row.property);
    if property !in t.id then Raises
    else Ok(PutElement(t, property, FindTypeById(et.names, et.id, row.element)))
  }

  function AddPairs(et: ElementTypes, t: PropertyTypes, rows: seq<PairRow>): (u: Outcome<PropertyTypes>)
    requires et.Valid() && t.Valid()
    ensures u.Ok? ==> u.value.Valid() && u.value.names == t.names && u.value.id == t.id
  {
    if rows == [] then Ok(t)
    else
      var n := |rows| - 1;
      var u :- AddPairs(et, t, rows[..n]);
      AddPair(et, u, rows[n])
  }

  // Whether a row attaches a property type to an element type.
  predicate Attaches(et: ElementTypes, t: PropertyTypes, r: PairRow, property: string, element: string)
    requires et.Valid() && t.Valid()
  {
    FindTypeById(t.names, t.id, r.property) == property && FindTypeById(et.names, et.id, r.element) == element
  }

  lemma AddPairElements(et: ElementTypes, t: PropertyTypes, row: PairRow, property: string, element: string)
    requires et.Valid() && t.Valid() && AddPair(et, t, row).Ok? && property in t.id
    ensures
      element in AddPair(et, t, row).value.info[property].elements <==>
      element in t.info[property].elements || Attaches(et, t, row, property, element)
  {
  }

  lemma SameAttachment(et: ElementTypes, t: PropertyTypes, u: PropertyTypes, r: PairRow, property: string,
                       element: string)
    requires et.Valid() && t.Valid() && u.Valid() && t.names == u.names && t.id == u.id
    ensures Attaches(et, t, r, property, element) == Attaches(et, u, r, property, element)
  {
  }

  lemma {:induction false} PairElements(et: ElementTypes, t: PropertyTypes, rows: seq<PairRow>, property: string,
                                        element: string)
    requires et.Valid() && t.Valid() && AddPairs(et, t, rows).Ok? && property in t.id
    ensures
      element in AddPairs(et, t, rows).value.info[property].elements <==>
      element in t.info[property].elements || exists r | r in rows :: Attaches(et, t, r, property, element)
  {
    hide AddPair, Attaches, FindTypeById;
    SomeAttaches(et, t, rows, property, element);
    if rows != [] {
      var n := |rows| - 1;
      PairElements(et, t, rows[..n], property, element);
      var u := AddPairs(et, t, rows[..n]).value;
      AddPairElements(et, u, rows[n], property, element);
      SameAttachment(et, t, u, rows[n], property, element);
    }
  }

  lemma SomeAttaches(et: ElementTypes, t: PropertyTypes, rows: seq<PairRow>, property: string, element: string)
    requires et.Valid() && t.Valid()
    ensures rows != [] ==>
      var n := |rows| - 1;
      ((exists r | r in rows :: Attaches(et, t, r, property, element)) <==>
       (exists r | r in rows[..n] :: Attaches(et, t, r, property, element)) ||
       Attaches(et, t, rows[n], property, element))
  {
    hide Attaches;
    if rows != [] {
      assert rows == rows[..|rows| - 1] + [rows[|rows| - 1]];
    }
  }

  lemma {:induction false} PairsRaise(et: ElementTypes, t: PropertyTypes, rows: seq<PairRow>)
    requires et.Valid() && t.Valid()
    ensures AddPairs(et, t, rows).Ok? <==> forall r | r in rows :: FindTypeById(t.names, t.id, r.property) in t.id
  {
    hide FindTypeById, AddPairs;
    PairsRaiseAt(et, t, rows);
    if rows != [] {
      var n := |rows| - 1;
      PairsRaise(et, t, rows[..n]);
      assert rows == rows[..n] + [rows[n]];
    }
  }

  lemma PairsRaiseAt(et: ElementTypes, t: PropertyTypes, rows: seq<PairRow>)
    requires et.Valid() && t.Valid()
    ensures rows == [] ==> AddPairs(et, t, rows).Ok?
    ensures rows != [] ==>
      var n := |rows| - 1;
      (AddPairs(et, t, rows).Ok? <==>
       AddPairs(et, t, rows[..n]).Ok? && FindTypeById(t.names, t.id, rows[n].property) in t.id)
  {
    hide FindTypeById, PutElement;
  }

  // ---------------------------------------------- reading the changelogs

  const ELEMENTS := "element_types.csv"
  const REFERENCES := "element_type_references.csv"
  const PROPERTIES := "property_types.csv"
  const PAIRS := "element_types_property_types.csv"

  // What the four tables of a list of changelog directories hold.
  datatype Tables = Tables(elements: seq<ElementRow>, references: seq<ReferenceRow>,
                           properties: seq<PropertyRow>, pairs: seq<PairRow>)

  function TableOf<R>(paths: seq<Folder>, file: string, columns: seq<string>, to: Row -> Outcome<R>): Outcome<seq<R>> {
    var rows :- TableRows(paths, file, columns);
    MapRows(rows, to)
  }

  function ElementTable(paths: seq<Folder>): Outcome<seq<ElementRow>> {
    TableOf(paths, ELEMENTS, ["ID", "NAME"], ToElementRow)
  }

  function ReferenceTable(paths: seq<Folder>): Outcome<seq<ReferenceRow>> {
    TableOf(paths, REFERENCES, ["ELEMENT_TYPE_ID", "REFERENCES_ID", "REFERENCES_KEY"], ToReferenceRow)
  }

  function PropertyTable(paths: seq<Folder>): Outcome<seq<PropertyRow>> {
    TableOf(paths, PROPERTIES, ["ID", "NAME", "TYPE", "UNIT"], ToPropertyRow)
  }

  function PairTable(paths: seq<Folder>): Outcome<seq<PairRow>> {
    TableOf(paths, PAIRS, ["ELEMENT_TYPE_ID", "PROPERTY_TYPES_ID"], ToPairRow)
  }

  function TablesOf(paths: seq<Folder>): Outcome<Tables> {
    var e :- ElementTable(paths);
    var r :- ReferenceTable(paths);
    var p :- PropertyTable(paths);
    var c :- PairTable(paths);
    Ok(Tables(e, r, p, c))
  }

  function ElementTypesOf(t: Tables): (et: Outcome<ElementTypes>)
    ensures et.Ok? ==> et.value.Valid()
  {
    AddReferences(ElementsOf(t.elements), t.references)
  }

  function PropertyTypesOf(et: ElementTypes, t: Tables): (pt: Outcome<PropertyTypes>)
    requires et.Valid()
    ensures pt.Ok? ==> pt.value.Valid()
  {
    AddPairs(et, PropertiesOf(t.properties), t.pairs)
  }

  method ReadElementTypes(paths: seq<Folder>) returns (et: Outcome<ElementTypes>)
    ensures
      ElementTable(paths).Ok? && ReferenceTable(paths).Ok? ==>
      et == AddReferences(ElementsOf(ElementTable(paths).value), ReferenceTable(paths).value)
    ensures ElementTable(paths).Raises? || ReferenceTable(paths).Raises? ==> et.Raises?
  {
    var rows := ReadTable(paths, ELEMENTS, ["ID", "NAME"]);
    if rows.Raises? {
      return Raises;
    }
    var t := Types([], map[], map[]);
    ghost var read: seq<ElementRow> := [];
    for k := 0 to |rows.value|
      invariant MapRows(rows.value[..k], ToElementRow) == Ok(read) && t == ElementsOf(read)
    {
      assert rows.value[..k + 1][..k] == rows.value[..k];
      var row := ToElementRow(rows.value[k]);
      if row.Raises? {
        MapRaisesForGood(rows.value, k + 1, ToElementRow);
        return Raises;
      }
      t := t.Put(row.value.name, row.value.id, NOTHING);
      assert (read + [row.value])[..|read|] == read;
      read := read + [row.value];
    }
    assert rows.value[..|rows.value|] == rows.value;
    rows := ReadTable(paths, REFERENCES, ["ELEMENT_TYPE_ID", "REFERENCES_ID", "REFERENCES_KEY"]);
    if rows.Raises? {
      return Raises;
    }
    et := FillReferences(t, rows.value);
  }

  method FillReferences(t: ElementTypes, rows: seq<Row>) returns (et: Outcome<ElementTypes>)
    requires t.Valid()
    ensures MapRows(rows, ToReferenceRow).Ok? ==> et == AddReferences(t, MapRows(rows, ToReferenceRow).value)
    ensures MapRows(rows, ToReferenceRow).Raises? ==> et.Raises?
  {
    hide FindTypeById, PutReference, ParseInt;
    et := Ok(t);
    ghost var read: seq<ReferenceRow> := [];
    for k := 0 to |rows|
      invariant et.Ok? && et.value.Valid()
      invariant MapRows(rows[..k], ToReferenceRow) == Ok(read) && et == AddReferences(t, read)
    {
      assert rows[..k + 1][..k] == rows[..k];
      var row := ToReferenceRow(rows[k]);
      if row.Raises? {
        MapRaisesForGood(rows, k + 1, ToReferenceRow);
        return Raises;
      }
      assert (read + [row.value])[..|read|] == read;
      read := read + [row.value];
      var parent := SearchTypeById(et.value, row.value.parent);
      if parent != "" {
        var child := ParseInt(row.value.child);
        if child.None? {
          ReferencesRaiseForGood(t, rows, k + 1, read);
          return Raises;
        }
        var name := SearchTypeById(et.value, child.value);
        et := Ok(PutReference(et.value, parent, row.value.key, name));
      }
    }
    assert rows[..|rows|] == rows;
  }

  lemma {:induction false} MapRaisesForGood<R>(rows: seq<Row>, k: nat, to: Row -> Outcome<R>)
    requires k <= |rows| && MapRows(rows[..k], to).Raises?
    ensures MapRows(rows, to).Raises?
    decreases |rows| - k
  {
    if k == |rows| {
      assert rows[..k] == rows;
    } else {
      assert rows[..k + 1][..k] == rows[..k];
      MapRaisesForGood(rows, k + 1, to);
    }
  }

  // The rows read so far raise, so however the rest reads the fold raises.
  lemma {:induction false} ReferencesRaiseForGood(t: ElementTypes, rows: seq<Row>, k: nat, read: seq<ReferenceRow>)
    requires t.Valid() && k <= |rows|
    requires MapRows(rows[..k], ToReferenceRow) == Ok(read) && AddReferences(t, read).Raises?
    ensures MapRows(rows, ToReferenceRow).Ok? ==> AddReferences(t, MapRows(rows, ToReferenceRow).value).Raises?
    decreases |rows| - k
  {
    if k == |rows| {
      assert rows[..k] == rows;
    } else {
      assert rows[..k + 1][..k] == rows[..k];
      var row := ToReferenceRow(rows[k]);
      if row.Raises? {
        MapRaisesForGood(rows, k + 1, ToReferenceRow);
      } else {
        assert (read + [row.value])[..|read|] == read;
        ReferencesRaiseForGood(t, rows, k + 1, read + [row.value]);
      }
    }
  }

  method ReadPropertyTypes(et: ElementTypes, paths: seq<Folder>) returns (pt: Outcome<PropertyTypes>)
    requires et.Valid()
    ensures
      PropertyTable(paths).Ok? && PairTable(paths).Ok? ==>
      pt == AddPairs(et, PropertiesOf(PropertyTable(paths).value), PairTable(paths).value)
    ensures PropertyTable(paths).Raises? || PairTable(paths).Raises? ==> pt.Raises?
  {
    var rows := ReadTable(paths, PROPERTIES, ["ID", "NAME", "TYPE", "UNIT"]);
    if rows.Raises? {
      return Raises;
    }
    var t: PropertyTypes := Types([], map[], map[]);
    ghost var read: seq<PropertyRow> := [];
    for k := 0 to |rows.value|
      invariant MapRows(rows.value[..k], ToPropertyRow) == Ok(read) && t == PropertiesOf(read)
    {
      assert rows.value[..k + 1][..k] == rows.value[..k];
      var row := ToPropertyRow(rows.value[k]);
      if row.Raises? {
        MapRaisesForGood(rows.value, k + 1, ToPropertyRow);
        return Raises;
      }
      t := t.Put(row.value.name, row.value.id, PropertyInfo(row.value.unit, row.value.kind, []));
      assert (read + [row.value])[..|read|] == read;
      read := read + [row.value];
    }
    assert rows.value[..|rows.value|] == rows.value;
    rows := ReadTable(paths, PAIRS, ["ELEMENT_TYPE_ID", "PROPERTY_TYPES_ID"]);
    if rows.Raises? {
      return Raises;
    }
    pt := FillPairs(et, t, rows.value);
  }

  method FillPairs(et: ElementTypes, t: PropertyTypes, rows: seq<Row>) returns (pt: Outcome<PropertyTypes>)
    requires et.Valid() && t.Valid()
    ensures MapRows(rows, ToPairRow).Ok? ==> pt == AddPairs(et, t, MapRows(rows, ToPairRow).value)
    ensures MapRows(rows, ToPairRow).Raises? ==> pt.Raises?
  {
    hide FindTypeById, PutElement;
    pt := Ok(t);
    ghost var read: seq<PairRow> := [];
    for k := 0 to |rows|
      invariant pt.Ok? && pt.value.Valid()
      invariant MapRows(rows[..k], ToPairRow) == Ok(read) && pt == AddPairs(et, t, read)
    {
      assert rows[..k + 1][..k] == rows[..k];
      var row := ToPairRow(rows[k]);
      if row.Raises? {
        MapRaisesForGood(rows, k + 1, ToPairRow);
        return Raises;
      }
      assert (read + [row.value])[..|read|] == read;
      read := read + [row.value];
      var element := SearchTypeById(et, row.value.element);
      var property := SearchTypeById(pt.value, row.value.property);
      if property !in pt.value.id {
        PairsRaiseForGood(et, t, rows, k + 1, read);
        return Raises;
      }
      pt := Ok(PutElement(pt.value, property, element));
    }
    assert rows[..|rows|] == rows;
  }

  lemma {:induction false} PairsRaiseForGood(et: ElementTypes, t: PropertyTypes, rows: seq<Row>, k: nat,
                                             read: seq<PairRow>)
    requires et.Valid() && t.Valid() && k <= |rows|
    requires MapRows(rows[..k], ToPairRow) == Ok(read) && AddPairs(et, t, read).Raises?
    ensures MapRows(rows, ToPairRow).Ok? ==> AddPairs(et, t, MapRows(rows, ToPairRow).value).Raises?
    decreases |rows| - k
  {
    if k == |rows| {
      assert rows[..k] == rows;
    } else {
      assert rows[..k + 1][..k] == rows[..k];
      var row := ToPairRow(rows[k]);
      if row.Raises? {
        MapRaisesForGood(rows, k + 1, ToPairRow);
      } else {
        assert (read + [row.value])[..|read|] == read;
        PairsRaiseForGood(et, t, rows, k + 1, read + [row.value]);
      }
    }
  }

  // --------------------------------------------------------- the database

  datatype DbReference = DbReference(parent: int, key: string, child: int)

  datatype Database = Database(elements: seq<ElementRow>, references: seq<DbReference>,
                               properties: seq<PropertyRow>, pairs: seq<PairRow>)

  function AddDbReferences(t: ElementTypes, refs: seq<DbReference>): (u: Outcome<ElementTypes>)
    requires t.Valid()
    ensures u.Ok? ==> u.value.Valid() && u.value.names == t.names && u.value.id == t.id
  {
    if refs == [] then Ok(t)
    else
      var n := |refs| - 1;
      var u :- AddDbReferences(t, refs[..n]);
      AddDbReference(u, refs[n])
  }

  function AddDbReference(t: ElementTypes, ref: DbReference): (u: Outcome<ElementTypes>)
    requires t.Valid()
    ensures u.Ok? ==> u.value.Valid() && u.value.names == t.names && u.value.id == t.id
  {
    var parent := FindTypeById(t.names, t.id, ref.parent);
    if parent !in t.id then Raises
    else Ok(PutReference(t, parent, ref.key, FindTypeById(t.names, t.id, ref.child)))
  }

  // A pair of an unknown property type is logged and skipped.
  function AddDbPairs(et: ElementTypes, t: PropertyTypes, pairs: seq<PairRow>): (u: PropertyTypes)
    requires et.Valid() && t.Valid()
    ensures u.Valid() && u.names == t.names && u.id == t.id
  {
    if pairs == [] then t
    else
      var n := |pairs| - 1;
      var u := AddDbPairs(et, t, pairs[..n]);
      var added := AddPair(et, u, pairs[n]);
      if added.Raises? then u else added.value
  }

  function DbElementTypes(db: Database): (et: Outcome<ElementTypes>)
    ensures et.Ok? ==> et.value.Valid()
  {
    AddDbReferences(ElementsOf(db.elements), db.references)
  }

  function DbPropertyTypes(et: ElementTypes, db: Database): (pt: PropertyTypes)
    requires et.Valid()
    ensures pt.Valid()
  {
    AddDbPairs(et, PropertiesOf(db.properties), db.pairs)
  }

  method BuildDbElementTypes(db: Database) returns (et: Outcome<ElementTypes>)
    ensures et == DbElementTypes(db)
  {
    var t := Types([], map[], map[]);
    for k := 0 to |db.elements|
      invariant t == ElementsOf(db.elements[..k])
    {
      assert db.elements[..k + 1][..k] == db.elements[..k];
      t := t.Put(db.elements[k].name, db.elements[k].id, NOTHING);
    }
    assert db.elements[..|db.elements|] == db.elements;
    et := FillDbReferences(t, db.references);
  }

  method FillDbReferences(t: ElementTypes, refs: seq<DbReference>) returns (et: Outcome<ElementTypes>)
    requires t.Valid()
    ensures et == AddDbReferences(t, refs)
  {
    hide PutReference;
    var u := t;
    for k := 0 to |refs|
      invariant u.Valid() && AddDbReferences(t, refs[..k]) == Ok(u)
    {
      assert refs[..k + 1][..k] == refs[..k];
      ghost var step := AddDbReference(u, refs[k]);
      assert AddDbReferences(t, refs[..k + 1]) == step;
      var parent := SearchTypeById(u, refs[k].parent);
      if parent !in u.id {
        DbReferencesRaiseForGood(t, refs, k + 1);
        return Raises;
      }
      var child := SearchTypeById(u, refs[k].child);
      u := PutReference(u, parent, refs[k].key, child);
      assert step == Ok(u);
    }
    assert refs[..|refs|] == refs;
    return Ok(u);
  }

  lemma {:induction false} DbReferencesRaiseForGood(t: ElementTypes, refs: seq<DbReference>, k: nat)
    requires t.Valid() && k <= |refs| && AddDbReferences(t, refs[..k]).Raises?
    ensures AddDbReferences(t, refs).Raises?
    decreases |refs| - k
  {
    if k == |refs| {
      assert refs[..k] == refs;
    } else {
      assert refs[..k + 1][..k] == refs[..k];
      DbReferencesRaiseForGood(t, refs, k + 1);
    }
  }

  method BuildDbPropertyTypes(et: ElementTypes, db: Database) returns (pt: PropertyTypes)
    requires et.Valid()
    ensures pt == DbPropertyTypes(et, db)
  {
    var t := FillProperties(db.properties);
    pt := FillDbPairs(et, t, db.pairs);
  }

  method FillProperties(rows: seq<PropertyRow>) returns (t: PropertyTypes)
    ensures t == PropertiesOf(rows)
  {
    t := Types([], map[], map[]);
    assert t == PropertiesOf(rows[..0]);
    for k := 0 to |rows|
      invariant t == PropertiesOf(rows[..k])
    {
      PropertiesSnoc(rows, k);
      t := t.Put(rows[k].name, rows[k].id, PropertyInfo(rows[k].unit, rows[k].kind, []));
    }
    assert rows[..|rows|] == rows;
  }

  lemma DbPairsSnoc(et: ElementTypes, t: PropertyTypes, pairs: seq<PairRow>, k: nat)
    requires et.Valid() && t.Valid() && k < |pairs|
    ensures
      var u := AddDbPairs(et, t, pairs[..k]);
      var property := FindTypeById(u.names, u.id, pairs[k].property);
      AddDbPairs(et, t, pairs[..k + 1]) ==
      if property in u.id then PutElement(u, property, FindTypeById(et.names, et.id, pairs[k].element)) else u
  {
    hide FindTypeById, PutElement;
    assert pairs[..k + 1][..k] == pairs[..k];
  }

  method FillDbPairs(et: ElementTypes, t: PropertyTypes, pairs: seq<PairRow>) returns (pt: PropertyTypes)
    requires et.Valid() && t.Valid()
    ensures pt == AddDbPairs(et, t, pairs)
  {
    hide AddDbPairs, FindTypeById, PutElement;
    pt := t;
    NoDbPairs(et, t, pairs[..0]);
    for k := 0 to |pairs|
      invariant pt.Valid() && pt == AddDbPairs(et, t, pairs[..k])
    {
      DbPairsSnoc(et, t, pairs, k);
      var property := SearchTypeById(pt, pairs[k].property);
      if property in pt.id {
        var element := SearchTypeById(et, pairs[k].element);
        pt := PutElement(pt, property, element);
      }
    }
    assert pairs[..|pairs|] == pairs;
  }

  lemma NoDbPairs(et: ElementTypes, t: PropertyTypes, pairs: seq<PairRow>)
    requires et.Valid() && t.Valid() && pairs == []
    ensures AddDbPairs(et, t, pairs) == t
  {
  }
}
