// What a run writes is what the next run reads: the text of the four tables.

module ReadBack {
  import opened Text
  import opened Catalogue
  import opened Changelog
  import opened Convergence

  // ---------------------------------------------------------- one CSV file

  // The rows of a rendered file, when every line reads back as its row.
  lemma {:induction false} LinesReadBack<R>(rows: seq<R>, line: R -> string, columns: seq<nat>, fields: R -> Row)
    requires forall r | r in rows :: line(r) != "" && FieldsAre(Split(line(r), ','), columns, fields(r))
    ensures |LineRows(LinesOf(rows, line), columns)| == |rows|
    ensures forall i | 0 <= i < |rows| :: LineRows(LinesOf(rows, line), columns)[i] == fields(rows[i])
  {
    if rows != [] {
      var n := |rows| - 1;
      LinesReadBack(rows[..n], line, columns, fields);
      assert LinesOf(rows, line)[..n] == LinesOf(rows[..n], line);
    }
  }

  lemma {:induction false} MapReadBack<R>(texts: seq<Row>, to: Row -> Outcome<R>, rows: seq<R>)
    requires |texts| == |rows| && forall i | 0 <= i < |rows| :: to(texts[i]) == Ok(rows[i])
    ensures MapRows(texts, to) == Ok(rows)
  {
    if rows != [] {
      var n := |rows| - 1;
      MapReadBack(texts[..n], to, rows[..n]);
      assert rows == rows[..n] + [rows[n]];
    }
  }

  predicate CleanLine(s: string) {
    '\n' !in s && '\r' !in s
  }

  lemma {:induction false} LinesClean<R>(rows: seq<R>, line: R -> string)
    requires forall r | r in rows :: CleanLine(line(r))
    ensures forall l | l in LinesOf(rows, line) :: CleanLine(l)
  {
    if rows != [] {
      LinesClean(rows[..|rows| - 1], line);
    }
  }

  lemma FileReadsBack<R>(header: string, names: seq<string>, indexes: seq<nat>, rows: seq<R>, line: R -> string,
                         fields: R -> Row, to: Row -> Outcome<R>)
    requires CleanLine(header) && ColumnsAre(Split(header, ','), names, indexes)
    requires forall r | r in rows ::
      CleanLine(line(r)) && line(r) != "" && FieldsAre(Split(line(r), ','), indexes, fields(r)) &&
      to(fields(r)) == Ok(r)
    ensures
      var texts := TextRows(Join([header] + LinesOf(rows, line), '\n'), names);
      texts.Ok? && MapRows(texts.value, to) == Ok(rows)
  {
    hide Split, Join, Columns, Fields, LinesOf, LineRows, MapRows;
    var lines := [header] + LinesOf(rows, line);
    LinesClean(rows, line);
    JoinChars(lines, '\n', '\r');
    NoCarriageReturn(Join(lines, '\n'));
    SplitJoin(lines, '\n');
    LinesReadBack(rows, line, indexes, fields);
    MapReadBack(LineRows(LinesOf(rows, line), indexes), to, rows);
    assert lines[1..] == LinesOf(rows, line);
  }

  // -------------------------------------------------------- the four headers

  lemma Join2(a: string, b: string)
    ensures Join([a, b], ',') == a + "," + b
  {
    assert [a, b][1..] == [b];
  }

  lemma Join3(a: string, b: string, c: string)
    ensures Join([a, b, c], ',') == a + "," + b + "," + c
  {
    Join2(b, c);
    assert [a, b, c][1..] == [b, c];
  }

  lemma Join4(a: string, b: string, c: string, d: string)
    ensures Join([a, b, c, d], ',') == a + "," + b + "," + c + "," + d
  {
    Join3(b, c, d);
    assert [a, b, c, d][1..] == [b, c, d];
  }

  predicate ColumnsAre(header: seq<string>, columns: seq<string>, indexes: seq<nat>) {
    Columns(header, columns).Ok? && Columns(header, columns).value == indexes
  }

  // Column i of the header in front of columns that are known already.
  lemma OneColumn(header: seq<string>, i: nat, rest: seq<string>, later: seq<nat>, columns: seq<string>,
                  indexes: seq<nat>)
    requires i < |header| && forall j | 0 <= j < i :: header[j] != header[i]
    requires ColumnsAre(header, rest, later)
    requires columns == [header[i]] + rest && indexes == [i] + later
    ensures ColumnsAre(header, columns, indexes)
  {
    assert columns[1..] == rest && columns[0] == header[i];
    assert IndexOf(header, columns[0]) == i;
  }

  lemma ElementHeader()
    ensures CleanLine(ELEMENT_HEADER) && ColumnsAre(Split(ELEMENT_HEADER, ','), ["ID", "NAME"], [0, 3])
  {
    hide Split, Join, ColumnsAre;
    var parts := ["ID", "BEAN_ID", "BEAN_VERSION_ID", "NAME"];
    Join4(parts[0], parts[1], parts[2], parts[3]);
    JoinChars(parts, ',', '\n');
    JoinChars(parts, ',', '\r');
    SplitJoin(parts, ',');
    NoColumns(parts);
    OneColumn(parts, 3, [], [], ["NAME"], [3]);
    OneColumn(parts, 0, ["NAME"], [3], ["ID", "NAME"], [0, 3]);
  }

  lemma NoColumns(header: seq<string>)
    ensures ColumnsAre(header, [], [])
  {
  }

  lemma ReferenceHeaderClean()
    ensures CleanLine(REFERENCE_HEADER)
  {
    hide Join;
    var parts := ["ELEMENT_TYPE_ID", "REFERENCES_ID", "REFERENCES_KEY"];
    Join3(parts[0], parts[1], parts[2]);
    JoinChars(parts, ',', '\n');
    JoinChars(parts, ',', '\r');
  }

  lemma ReferenceHeader()
    ensures CleanLine(REFERENCE_HEADER)
    ensures ColumnsAre(Split(REFERENCE_HEADER, ','), ["ELEMENT_TYPE_ID", "REFERENCES_ID", "REFERENCES_KEY"], [0, 1, 2])
  {
    hide Split, Join, ColumnsAre, CleanLine;
    var parts := ["ELEMENT_TYPE_ID", "REFERENCES_ID", "REFERENCES_KEY"];
    ReferenceHeaderClean();
    Join3(parts[0], parts[1], parts[2]);
    SplitJoin(parts, ',');
    NoColumns(parts);
    OneColumn(parts, 2, [], [], ["REFERENCES_KEY"], [2]);
    OneColumn(parts, 1, ["REFERENCES_KEY"], [2], ["REFERENCES_ID", "REFERENCES_KEY"], [1, 2]);
    OneColumn(parts, 0, ["REFERENCES_ID", "REFERENCES_KEY"], [1, 2], parts, [0, 1, 2]);
  }

  lemma PropertyHeader()
    ensures CleanLine(PROPERTY_HEADER)
    ensures ColumnsAre(Split(PROPERTY_HEADER, ','), ["ID", "NAME", "TYPE", "UNIT"], [0, 1, 2, 3])
  {
    hide Split, Join, ColumnsAre;
    var parts := ["ID", "NAME", "TYPE", "UNIT"];
    Join4(parts[0], parts[1], parts[2], parts[3]);
    JoinChars(parts, ',', '\n');
    JoinChars(parts, ',', '\r');
    SplitJoin(parts, ',');
    NoColumns(parts);
    OneColumn(parts, 3, [], [], ["UNIT"], [3]);
    OneColumn(parts, 2, ["UNIT"], [3], ["TYPE", "UNIT"], [2, 3]);
    OneColumn(parts, 1, ["TYPE", "UNIT"], [2, 3], ["NAME", "TYPE", "UNIT"], [1, 2, 3]);
    OneColumn(parts, 0, ["NAME", "TYPE", "UNIT"], [1, 2, 3], parts, [0, 1, 2, 3]);
  }

  lemma PairHeaderClean()
    ensures CleanLine(PAIR_HEADER)
  {
    hide Join;
    var parts := ["ELEMENT_TYPE_ID", "PROPERTY_TYPES_ID"];
    Join2(parts[0], parts[1]);
    JoinChars(parts, ',', '\n');
    JoinChars(parts, ',', '\r');
  }

  lemma PairHeader()
    ensures CleanLine(PAIR_HEADER)
    ensures ColumnsAre(Split(PAIR_HEADER, ','), ["ELEMENT_TYPE_ID", "PROPERTY_TYPES_ID"], [0, 1])
  {
    hide Split, Join, ColumnsAre, CleanLine;
    var parts := ["ELEMENT_TYPE_ID", "PROPERTY_TYPES_ID"];
    PairHeaderClean();
    Join2(parts[0], parts[1]);
    SplitJoin(parts, ',');
    NoColumns(parts);
    OneColumn(parts, 1, [], [], ["PROPERTY_TYPES_ID"], [1]);
    OneColumn(parts, 0, ["PROPERTY_TYPES_ID"], [1], parts, [0, 1]);
  }

  // -------------------------------------------------------- the four lines

  function ElementFields(r: ElementRow): Row {
    [Str(r.id), r.name]
  }

  function ReferenceFields(r: ReferenceRow): Row {
    [Str(r.parent), r.child, r.key]
  }

  function PropertyFields(r: PropertyRow): Row {
    [Str(r.id), r.name, r.kind, r.unit]
  }

  function PairFields(r: PairRow): Row {
    [Str(r.element), Str(r.property)]
  }

  predicate FieldsAre(line: seq<string>, columns: seq<nat>, fields: Row) {
    Fields(line, columns) == fields
  }

  lemma FieldsFrom(line: seq<string>, i: nat, rest: seq<nat>, later: Row, columns: seq<nat>, fields: Row)
    requires i < |line| && FieldsAre(line, rest, later)
    requires columns == [i] + rest && fields == [line[i]] + later
    ensures FieldsAre(line, columns, fields)
  {
    assert columns[1..] == rest;
  }

  lemma NoFields(line: seq<string>)
    ensures FieldsAre(line, [], [])
  {
  }

  lemma StrClean(n: int)
    ensures CleanField(Str(n)) && Str(n) != ""
  {
    ParseStr(n);
  }

  lemma ElementLineReadsBack(r: ElementRow)
    requires CleanField(r.name)
    ensures CleanLine(ElementLine(r)) && ElementLine(r) != ""
    ensures FieldsAre(Split(ElementLine(r), ','), [0, 3], ElementFields(r))
    ensures ToElementRow(ElementFields(r)) == Ok(r)
  {
    hide Split, Join, Str, ParseInt, FieldsAre;
    StrClean(r.id);
    ParseStr(r.id);
    var parts := [Str(r.id), "id", "version", r.name];
    Join4(parts[0], parts[1], parts[2], parts[3]);
    assert ElementLine(r) == parts[0] + "," + parts[1] + "," + parts[2] + "," + parts[3];
    SplitJoin(parts, ',');
    NoFields(parts);
    FieldsFrom(parts, 3, [], [], [3], [parts[3]]);
    FieldsFrom(parts, 0, [3], [r.name], [0, 3], [parts[0], r.name]);
  }

  lemma ReferenceLineReadsBack(r: ReferenceRow)
    requires CleanField(r.child) && CleanField(r.key)
    ensures CleanLine(ReferenceLine(r)) && ReferenceLine(r) != ""
    ensures FieldsAre(Split(ReferenceLine(r), ','), [0, 1, 2], ReferenceFields(r))
    ensures ToReferenceRow(ReferenceFields(r)) == Ok(r)
  {
    hide Split, Join, Str, ParseInt, FieldsAre;
    StrClean(r.parent);
    ParseStr(r.parent);
    var parts := [Str(r.parent), r.child, r.key];
    Join3(parts[0], parts[1], parts[2]);
    SplitJoin(parts, ',');
    NoFields(parts);
    FieldsFrom(parts, 2, [], [], [2], [parts[2]]);
    FieldsFrom(parts, 1, [2], [r.key], [1, 2], [parts[1], r.key]);
    FieldsFrom(parts, 0, [1, 2], [r.child, r.key], [0, 1, 2], [parts[0], r.child, r.key]);
  }

  lemma PropertyLineReadsBack(r: PropertyRow)
    requires CleanField(r.name) && CleanField(r.kind) && CleanField(r.unit)
    ensures CleanLine(PropertyLine(r)) && PropertyLine(r) != ""
    ensures FieldsAre(Split(PropertyLine(r), ','), [0, 1, 2, 3], PropertyFields(r))
    ensures ToPropertyRow(PropertyFields(r)) == Ok(r)
  {
    hide Split, Join, Str, ParseInt, FieldsAre;
    StrClean(r.id);
    ParseStr(r.id);
    var parts := [Str(r.id), r.name, r.kind, r.unit];
    Join4(parts[0], parts[1], parts[2], parts[3]);
    SplitJoin(parts, ',');
    NoFields(parts);
    FieldsFrom(parts, 3, [], [], [3], [parts[3]]);
    FieldsFrom(parts, 2, [3], [r.unit], [2, 3], [parts[2], r.unit]);
    FieldsFrom(parts, 1, [2, 3], [r.kind, r.unit], [1, 2, 3], [parts[1], r.kind, r.unit]);
    FieldsFrom(parts, 0, [1, 2, 3], [r.name, r.kind, r.unit], [0, 1, 2, 3], [parts[0], r.name, r.kind, r.unit]);
  }

  lemma PairLineReadsBack(r: PairRow)
    ensures CleanLine(PairLine(r)) && PairLine(r) != ""
    ensures FieldsAre(Split(PairLine(r), ','), [0, 1], PairFields(r))
    ensures ToPairRow(PairFields(r)) == Ok(r)
  {
    hide Split, Join, Str, ParseInt, FieldsAre;
    StrClean(r.element);
    StrClean(r.property);
    ParseStr(r.element);
    ParseStr(r.property);
    var parts := [Str(r.element), Str(r.property)];
    Join2(parts[0], parts[1]);
    SplitJoin(parts, ',');
    NoFields(parts);
    FieldsFrom(parts, 1, [], [], [1], [parts[1]]);
    FieldsFrom(parts, 0, [1], [parts[1]], [0, 1], [parts[0], parts[1]]);
  }

  // ------------------------------------------------- tables of many folders

  // The rows of one directory.
  function FolderRows(folder: Folder, file: string, columns: seq<string>): Outcome<seq<Row>> {
    if file in folder then TextRows(folder[file], columns) else Ok([])
  }

  lemma {:induction false} TableRowsByFolder(paths: seq<Folder>, file: string, columns: seq<string>)
    ensures TableRows(paths, file, columns).Ok? <==> forall f | f in paths :: FolderRows(f, file, columns).Ok?
    ensures TableRows(paths, file, columns).Ok? ==>
      forall r ::
        r in TableRows(paths, file, columns).value <==> exists f | f in paths :: r in FolderRows(f, file, columns).value
  {
    hide TextRows;
    if paths != [] {
      var n := |paths| - 1;
      TableRowsByFolder(paths[..n], file, columns);
      assert paths == paths[..n] + [paths[n]];
      var before, last := TableRows(paths[..n], file, columns), FolderRows(paths[n], file, columns);
      if before.Ok? && last.Ok? {
        assert TableRows(paths, file, columns).value == before.value + last.value;
      }
    }
  }

  lemma {:induction false} MapRowsByRow<R(!new)>(rows: seq<Row>, to: Row -> Outcome<R>)
    ensures MapRows(rows, to).Ok? <==> forall r | r in rows :: to(r).Ok?
    ensures MapRows(rows, to).Ok? ==>
      forall x :: x in MapRows(rows, to).value <==> exists r | r in rows :: to(r) == Ok(x)
  {
    if rows != [] {
      var n := |rows| - 1;
      MapRowsByRow(rows[..n], to);
      assert rows == rows[..n] + [rows[n]];
    }
  }

  function FolderTable<R>(folder: Folder, file: string, columns: seq<string>, to: Row -> Outcome<R>): Outcome<seq<R>> {
    var rows :- FolderRows(folder, file, columns);
    MapRows(rows, to)
  }

  // A table is read when every directory can be read, and holds their rows.
  lemma TableByFolder<R(!new)>(paths: seq<Folder>, file: string, columns: seq<string>, to: Row -> Outcome<R>)
    ensures TableOf(paths, file, columns, to).Ok? <==> forall f | f in paths :: FolderTable(f, file, columns, to).Ok?
    ensures TableOf(paths, file, columns, to).Ok? ==>
      forall x ::
        x in TableOf(paths, file, columns, to).value <==>
        exists f | f in paths :: x in FolderTable(f, file, columns, to).value
  {
    hide FolderRows, TableRows, MapRows;
    TableRowsByFolder(paths, file, columns);
    forall f: Folder | FolderRows(f, file, columns).Ok?
      ensures FolderTable(f, file, columns, to).Ok? <==> forall r | r in FolderRows(f, file, columns).value :: to(r).Ok?
      ensures FolderTable(f, file, columns, to).Ok? ==>
        forall x ::
          x in FolderTable(f, file, columns, to).value <==>
          exists r | r in FolderRows(f, file, columns).value :: to(r) == Ok(x)
    {
      MapRowsByRow(FolderRows(f, file, columns).value, to);
    }
    if TableRows(paths, file, columns).Ok? {
      MapRowsByRow(TableRows(paths, file, columns).value, to);
    }
  }

  // ------------------------------------------------ the table that was written

  lemma FileFolderTable<R(!new)>(folder: Folder, name: string, header: string, names: seq<string>, indexes: seq<nat>,
                                 rows: seq<R>, line: R -> string, fields: R -> Row, to: Row -> Outcome<R>)
    requires CleanLine(header) && ColumnsAre(Split(header, ','), names, indexes)
    requires forall r | r in rows ::
      CleanLine(line(r)) && line(r) != "" && FieldsAre(Split(line(r), ','), indexes, fields(r)) &&
      to(fields(r)) == Ok(r)
    requires name in folder <==> rows != []
    requires rows != [] ==> folder[name] == Join([header] + LinesOf(rows, line), '\n')
    ensures FolderTable(folder, name, names, to) == Ok(rows)
  {
    hide Split, Join, ColumnsAre, FieldsAre, LinesOf, TextRows;
    FileReadsBack(header, names, indexes, rows, line, fields, to);
  }

  lemma RenderFiles(t: Tables)
    ensures ELEMENTS in Render(t) <==> t.elements != []
    ensures t.elements != [] ==> Render(t)[ELEMENTS] == Join([ELEMENT_HEADER] + LinesOf(t.elements, ElementLine), '\n')
    ensures REFERENCES in Render(t) <==> t.references != []
    ensures t.references != [] ==>
      Render(t)[REFERENCES] == Join([REFERENCE_HEADER] + LinesOf(t.references, ReferenceLine), '\n')
    ensures PROPERTIES in Render(t) <==> t.properties != []
    ensures t.properties != [] ==>
      Render(t)[PROPERTIES] == Join([PROPERTY_HEADER] + LinesOf(t.properties, PropertyLine), '\n')
    ensures PAIRS in Render(t) <==> t.pairs != []
    ensures t.pairs != [] ==> Render(t)[PAIRS] == Join([PAIR_HEADER] + LinesOf(t.pairs, PairLine), '\n')
  {
    hide Join, LinesOf, ElementLine, ReferenceLine, PropertyLine, PairLine;
    assert |ELEMENTS| == 17 && |REFERENCES| == 27 && |PROPERTIES| == 18 && |PAIRS| == 32;
  }

  lemma RenderReadsBack(t: Tables)
    requires CleanTables(t)
    ensures FolderTable(Render(t), ELEMENTS, ["ID", "NAME"], ToElementRow) == Ok(t.elements)
    ensures FolderTable(Render(t), REFERENCES, ["ELEMENT_TYPE_ID", "REFERENCES_ID", "REFERENCES_KEY"],
                        ToReferenceRow) == Ok(t.references)
    ensures FolderTable(Render(t), PROPERTIES, ["ID", "NAME", "TYPE", "UNIT"], ToPropertyRow) == Ok(t.properties)
    ensures FolderTable(Render(t), PAIRS, ["ELEMENT_TYPE_ID", "PROPERTY_TYPES_ID"], ToPairRow) == Ok(t.pairs)
  {
    hide Split, Join, ColumnsAre, FieldsAre, LinesOf, FolderTable, Render, CleanLine,
         ElementLine, ReferenceLine, PropertyLine, PairLine, ToElementRow, ToReferenceRow, ToPropertyRow, ToPairRow;
    RenderFiles(t);
    ElementHeader();
    ReferenceHeader();
    PropertyHeader();
    PairHeader();
    forall r | r in t.elements { ElementLineReadsBack(r); }
    forall r | r in t.references { ReferenceLineReadsBack(r); }
    forall r | r in t.properties { PropertyLineReadsBack(r); }
    forall r | r in t.pairs { PairLineReadsBack(r); }
    FileFolderTable(Render(t), ELEMENTS, ELEMENT_HEADER, ["ID", "NAME"], [0, 3], t.elements, ElementLine, ElementFields,
                    ToElementRow);
    FileFolderTable(Render(t), REFERENCES, REFERENCE_HEADER, ["ELEMENT_TYPE_ID", "REFERENCES_ID", "REFERENCES_KEY"],
                    [0, 1, 2],
                    t.references, ReferenceLine, ReferenceFields, ToReferenceRow);
    FileFolderTable(Render(t), PROPERTIES, PROPERTY_HEADER, ["ID", "NAME", "TYPE", "UNIT"], [0, 1, 2, 3],
                    t.properties, PropertyLine, PropertyFields, ToPropertyRow);
    FileFolderTable(Render(t), PAIRS, PAIR_HEADER, ["ELEMENT_TYPE_ID", "PROPERTY_TYPES_ID"], [0, 1],
                    t.pairs, PairLine, PairFields, ToPairRow);
  }

  // Directories p and one more, in any order and number, hold the rows of both.
  lemma TablesMerge(paths: seq<Folder>, out: Tables, paths2: seq<Folder>)
    requires TablesOf(paths).Ok? && CleanTables(out)
    requires forall f :: f in paths2 <==> f in paths || f == Render(out)
    ensures TablesOf(paths2).Ok? && Merged(TablesOf(paths2).value, TablesOf(paths).value, out)
  {
    hide TableOf, FolderTable, Render, CleanTables;
    RenderReadsBack(out);
    TableByFolder(paths, ELEMENTS, ["ID", "NAME"], ToElementRow);
    TableByFolder(paths2, ELEMENTS, ["ID", "NAME"], ToElementRow);
    TableByFolder(paths, REFERENCES, ["ELEMENT_TYPE_ID", "REFERENCES_ID", "REFERENCES_KEY"], ToReferenceRow);
    TableByFolder(paths2, REFERENCES, ["ELEMENT_TYPE_ID", "REFERENCES_ID", "REFERENCES_KEY"], ToReferenceRow);
    TableByFolder(paths, PROPERTIES, ["ID", "NAME", "TYPE", "UNIT"], ToPropertyRow);
    TableByFolder(paths2, PROPERTIES, ["ID", "NAME", "TYPE", "UNIT"], ToPropertyRow);
    TableByFolder(paths, PAIRS, ["ELEMENT_TYPE_ID", "PROPERTY_TYPES_ID"], ToPairRow);
    TableByFolder(paths2, PAIRS, ["ELEMENT_TYPE_ID", "PROPERTY_TYPES_ID"], ToPairRow);
  }
}
