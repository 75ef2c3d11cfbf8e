// The changelog generator of scripts/create-changelogs.py: the difference
// between the database and the changelogs so far, as new CSV tables. Python
// leaves the order in which a set is listed open, so the orders are parameters.

module Changelog {
  import opened Text
  import opened Catalogue

  // ------------------------------------------------------ ids and orders

  ghost predicate Lists<T(!new)>(order: seq<T>, s: set<T>) {
    (forall x :: x in order <==> x in s) &&
    forall i, j | 0 <= i < j < |order| :: order[i] != order[j]
  }

  // The orders in which one run lists the new element types, the other element
  // types of the database, the new property types and the new pairs.
  datatype Orders = Orders(elements: seq<string>, others: seq<string>,
                           properties: seq<string>, pairs: seq<(string, string)>)

  // max of the ids, or 0 when there is none.
  function LastId(names: seq<string>, id: map<string, int>): (last: int)
    requires forall n | n in names :: n in id
    ensures forall n | n in names :: id[n] <= last
  {
    if names == [] then 0
    else if |names| == 1 then id[names[0]]
    else
      var last := LastId(names[1..], id);
      if id[names[0]] > last then id[names[0]] else last
  }

  // The greatest id, or 0 before there is any.
  ghost predicate IsLast(names: seq<string>, id: map<string, int>, last: int)
    requires forall n | n in names :: n in id
  {
    if names == [] then last == 0
    else (exists n | n in names :: id[n] == last) && forall n | n in names :: id[n] <= last
  }

  lemma {:induction false} LastIdIs(names: seq<string>, id: map<string, int>)
    requires forall n | n in names :: n in id
    ensures IsLast(names, id, LastId(names, id))
  {
    if |names| > 1 {
      LastIdIs(names[1..], id);
      assert names == [names[0]] + names[1..];
    } else if |names| == 1 {
      assert names[0] in names;
    }
  }

  // The ids that are counted up from last along the order.
  function Assigned(order: seq<string>, last: int): map<string, int> {
    if order == [] then map[]
    else Assigned(order[..|order| - 1], last)[order[|order| - 1] := last + |order|]
  }

  function IdOf(name: string, known: map<string, int>, etmap: map<string, int>): Outcome<int> {
    if name in known then Ok(known[name])
    else if name in etmap then Ok(etmap[name])
    else Raises
  }

  // The pairs of property and element type names.
  function PairsOf(pt: PropertyTypes): set<(string, string)>
    requires pt.Valid()
  {
    set p, e | p in pt.id && e in pt.info[p].elements :: (p, e)
  }

  function KnownPairsOf(pt: PropertyTypes): set<(string, string)>
    requires pt.Valid()
  {
    set pair | pair in PairsOf(pt) && pair.1 != ""
  }

  ghost predicate ElementOrders(et0: ElementTypes, et1: ElementTypes, elements: seq<string>, others: seq<string>) {
    (if et0.names == [] then elements == et1.names else Lists(elements, et1.id.Keys - et0.id.Keys)) &&
    Lists(others, et1.id.Keys - (set n | n in elements))
  }

  ghost predicate PropertyOrders(et0: ElementTypes, pt0: PropertyTypes, pt1: PropertyTypes,
                                 properties: seq<string>, pairs: seq<(string, string)>)
    requires pt0.Valid() && pt1.Valid()
  {
    (if et0.names == []
     then Lists(properties, pt1.id.Keys) &&
          forall i, j | 0 <= i < j < |properties| :: pt1.id[properties[i]] <= pt1.id[properties[j]]
     else Lists(properties, pt1.id.Keys - pt0.id.Keys)) &&
    Lists(pairs, PairsOf(pt1) - KnownPairsOf(pt0))
  }

  // ---------------------------------------------------------- the new rows

  function NewElements(order: seq<string>, last: int): seq<ElementRow> {
    if order == [] then []
    else
      var n := |order| - 1;
      NewElements(order[..n], last) + [ElementRow(last + n + 1, order[n])]
  }

  // The rows for the references of one type, but those under a skipped key.
  function RowsOfType(name: string, keys: seq<string>, child: map<string, string>, skip: set<string>,
                      known: map<string, int>, etmap: map<string, int>): Outcome<seq<ReferenceRow>>
    requires forall k | k in keys :: k in child
  {
    if keys == [] then Ok([])
    else
      var n := |keys| - 1;
      var rows :- RowsOfType(name, keys[..n], child, skip, known, etmap);
      if keys[n] in skip then Ok(rows)
      else
        var parent :- IdOf(name, known, etmap);
        var c :- IdOf(child[keys[n]], known, etmap);
        Ok(rows + [ReferenceRow(parent, Str(c), keys[n])])
  }

  // The keys of a type that the changelogs already hold.
  function KnownKeys(et0: ElementTypes, name: string): set<string>
    requires et0.Valid()
  {
    if name in et0.info then et0.info[name].at.Keys else {}
  }

  // A new type is written with all its references, another with the missing
  // ones; looking up the known keys of an unknown type with references raises.
  function RowsOfTypes(order: seq<string>, added: bool, et0: ElementTypes, et1: ElementTypes,
                       etmap: map<string, int>): Outcome<seq<ReferenceRow>>
    requires et0.Valid() && et1.Valid() && WellKept(et1)
    requires forall n | n in order :: n in et1.id
  {
    if order == [] then Ok([])
    else
      var n := |order| - 1;
      var name := order[n];
      var rows :- RowsOfTypes(order[..n], added, et0, et1, etmap);
      var refs := et1.info[name];
      if !added && name !in et0.id && refs.keys != [] then Raises
      else
        var more :- RowsOfType(name, refs.keys, refs.at, if added then {} else KnownKeys(et0, name), et0.id, etmap);
        Ok(rows + more)
  }

  ghost predicate WellKept(et: ElementTypes)
    requires et.Valid()
  {
    forall n | n in et.id :: et.info[n].Valid()
  }

  function NewProperties(order: seq<string>, last: int, pt1: PropertyTypes): seq<PropertyRow>
    requires pt1.Valid() && forall n | n in order :: n in pt1.id
  {
    if order == [] then []
    else
      var n := |order| - 1;
      var p := pt1.info[order[n]];
      NewProperties(order[..n], last, pt1) + [PropertyRow(last + n + 1, order[n], p.kind, p.unit)]
  }

  function NewPairs(order: seq<(string, string)>, properties: map<string, int>, newProperties: map<string, int>,
                    elements: map<string, int>, newElements: map<string, int>): Outcome<seq<PairRow>>
  {
    if order == [] then Ok([])
    else
      var n := |order| - 1;
      var rows :- NewPairs(order[..n], properties, newProperties, elements, newElements);
      var p :- IdOf(order[n].0, properties, newProperties);
      var e :- IdOf(order[n].1, elements, newElements);
      Ok(rows + [PairRow(e, p)])
  }

  ghost predicate OrdersFit(et0: ElementTypes, pt0: PropertyTypes, et1: ElementTypes, pt1: PropertyTypes, o: Orders) {
    et0.Valid() && pt0.Valid() && et1.Valid() && pt1.Valid() && WellKept(et1) &&
    ElementOrders(et0, et1, o.elements, o.others) &&
    PropertyOrders(et0, pt0, pt1, o.properties, o.pairs)
  }

  function Generate(et0: ElementTypes, pt0: PropertyTypes, et1: ElementTypes, pt1: PropertyTypes,
                    o: Orders): Outcome<Tables>
    requires OrdersFit(et0, pt0, et1, pt1, o)
  {
    var last := LastId(et0.names, et0.id);
    var etmap := Assigned(o.elements, last);
    var added :- RowsOfTypes(o.elements, true, et0, et1, etmap);
    var missing :- RowsOfTypes(o.others, false, et0, et1, etmap);
    var lastProperty := LastId(pt0.names, pt0.id);
    var pairs :- NewPairs(o.pairs, pt0.id, Assigned(o.properties, lastProperty), et0.id, etmap);
    Ok(Tables(NewElements(o.elements, last), added + missing, NewProperties(o.properties, lastProperty, pt1), pairs))
  }

  // ------------------------------------------------------------ CSV lines

  function ElementLine(r: ElementRow): string {
    Str(r.id) + ",id,version," + r.name
  }

  function ReferenceLine(r: ReferenceRow): string {
    Str(r.parent) + "," + r.child + "," + r.key
  }

  function PropertyLine(r: PropertyRow): string {
    Str(r.id) + "," + r.name + "," + r.kind + "," + r.unit
  }

  function PairLine(r: PairRow): string {
    Str(r.element) + "," + Str(r.property)
  }

  function LinesOf<R>(rows: seq<R>, line: R -> string): (lines: seq<string>)
    ensures |lines| == |rows|
  {
    if rows == [] then [] else LinesOf(rows[..|rows| - 1], line) + [line(rows[|rows| - 1])]
  }

  const ELEMENT_HEADER := "ID" + "," + "BEAN_ID" + "," + "BEAN_VERSION_ID" + "," + "NAME"
  const REFERENCE_HEADER := "ELEMENT_TYPE_ID" + "," + "REFERENCES_ID" + "," + "REFERENCES_KEY"
  const PROPERTY_HEADER := "ID" + "," + "NAME" + "," + "TYPE" + "," + "UNIT"
  const PAIR_HEADER := "ELEMENT_TYPE_ID" + "," + "PROPERTY_TYPES_ID"

  // The file of a table, which is only written when it has rows.
  function File<R>(name: string, header: string, rows: seq<R>, line: R -> string): Folder {
    if rows == [] then map[] else map[name := Join([header] + LinesOf(rows, line), '\n')]
  }

  // The directory that a run leaves behind.
  function Render(t: Tables): Folder {
    File(ELEMENTS, ELEMENT_HEADER, t.elements, ElementLine) +
    File(REFERENCES, REFERENCE_HEADER, t.references, ReferenceLine) +
    File(PROPERTIES, PROPERTY_HEADER, t.properties, PropertyLine) +
    File(PAIRS, PAIR_HEADER, t.pairs, PairLine)
  }

  predicate NothingNew(t: Tables) {
    t == Tables([], [], [], [])
  }

  // --------------------------------------------------------- the main script

  method WriteElements(order: seq<string>, last: int) returns (content: seq<string>, etmap: map<string, int>)
    ensures content == [ELEMENT_HEADER] + LinesOf(NewElements(order, last), ElementLine)
    ensures etmap == Assigned(order, last)
  {
    hide ElementLine, LinesOf;
    content, etmap := [ELEMENT_HEADER], map[];
    var id := last;
    ghost var rows: seq<ElementRow> := [];
    NoLines(ElementLine);
    for k := 0 to |order|
      invariant id == last + k && etmap == Assigned(order[..k], last) && rows == NewElements(order[..k], last)
      invariant content == [ELEMENT_HEADER] + LinesOf(rows, ElementLine)
    {
      assert order[..k + 1][..k] == order[..k];
      id := id + 1;
      LinesSnoc(rows, ElementRow(id, order[k]), ElementLine);
      rows := rows + [ElementRow(id, order[k])];
      content := content + [ElementLine(ElementRow(id, order[k]))];
      etmap := etmap[order[k] := id];
    }
    assert order[..|order|] == order;
  }

  lemma NoLines<R>(line: R -> string)
    ensures LinesOf([], line) == []
  {
  }

  lemma LinesSnoc<R>(rows: seq<R>, row: R, line: R -> string)
    ensures LinesOf(rows + [row], line) == LinesOf(rows, line) + [line(row)]
  {
    assert (rows + [row])[..|rows|] == rows;
  }

  lemma {:induction false} LinesAppend<R>(a: seq<R>, b: seq<R>, line: R -> string)
    ensures LinesOf(a + b, line) == LinesOf(a, line) + LinesOf(b, line)
  {
    if b == [] {
      assert a + b == a;
    } else {
      var n := |b| - 1;
      LinesAppend(a, b[..n], line);
      assert (a + b)[..|a| + n] == a + b[..n];
    }
  }

  // The loop over the references of one type.
  method WriteRowsOfType(name: string, keys: seq<string>, child: map<string, string>, skip: set<string>,
                         known: map<string, int>, etmap: map<string, int>)
    returns (content: Outcome<seq<string>>)
    requires forall k | k in keys :: k in child
    ensures RowsOfType(name, keys, child, skip, known, etmap).Raises? <==> content.Raises?
    ensures content.Ok? ==>
      content.value == LinesOf(RowsOfType(name, keys, child, skip, known, etmap).value, ReferenceLine)
  {
    hide ReferenceLine, LinesOf;
    var lines := [];
    ghost var rows: seq<ReferenceRow> := [];
    NoLines(ReferenceLine);
    for k := 0 to |keys|
      invariant RowsOfType(name, keys[..k], child, skip, known, etmap) == Ok(rows)
      invariant lines == LinesOf(rows, ReferenceLine)
    {
      assert keys[..k + 1][..k] == keys[..k];
      if keys[k] !in skip {
        var idparent := IdOf(name, known, etmap);
        var idchild := IdOf(child[keys[k]], known, etmap);
        if idparent.Raises? || idchild.Raises? {
          KeysRaiseForGood(name, keys, k + 1, child, skip, known, etmap);
          return Raises;
        }
        var row := ReferenceRow(idparent.value, Str(idchild.value), keys[k]);
        LinesSnoc(rows, row, ReferenceLine);
        rows := rows + [row];
        lines := lines + [ReferenceLine(row)];
      }
    }
    assert keys[..|keys|] == keys;
    return Ok(lines);
  }

  lemma {:induction false} KeysRaiseForGood(name: string, keys: seq<string>, k: nat, child: map<string, string>,
                                            skip: set<string>, known: map<string, int>, etmap: map<string, int>)
    requires forall k | k in keys :: k in child
    requires k <= |keys| && RowsOfType(name, keys[..k], child, skip, known, etmap).Raises?
    ensures RowsOfType(name, keys, child, skip, known, etmap).Raises?
    decreases |keys| - k
  {
    if k == |keys| {
      assert keys[..k] == keys;
    } else {
      assert keys[..k + 1][..k] == keys[..k];
      KeysRaiseForGood(name, keys, k + 1, child, skip, known, etmap);
    }
  }

  lemma KeptOf(et: ElementTypes, name: string)
    requires et.Valid() && WellKept(et) && name in et.id
    ensures et.info[name].Valid() && forall k | k in et.info[name].keys :: k in et.info[name].at
  {
  }

  // The loop over the new types, or the one over the others.
  method WriteRowsOfTypes(order: seq<string>, added: bool, et0: ElementTypes, et1: ElementTypes,
                          etmap: map<string, int>)
    returns (content: Outcome<seq<string>>)
    requires et0.Valid() && et1.Valid() && WellKept(et1)
    requires forall n | n in order :: n in et1.id
    ensures RowsOfTypes(order, added, et0, et1, etmap).Raises? <==> content.Raises?
    ensures content.Ok? ==> content.value == LinesOf(RowsOfTypes(order, added, et0, et1, etmap).value, ReferenceLine)
  {
    hide LinesOf, RowsOfType, KnownKeys, WellKept;
    var lines := [];
    ghost var rows: seq<ReferenceRow> := [];
    NoLines(ReferenceLine);
    for k := 0 to |order|
      invariant RowsOfTypes(order[..k], added, et0, et1, etmap) == Ok(rows)
      invariant lines == LinesOf(rows, ReferenceLine)
    {
      assert order[..k + 1][..k] == order[..k];
      var name := order[k];
      var refs := et1.info[name];
      KeptOf(et1, name);
      if !added && name !in et0.id && refs.keys != [] {
        TypesRaiseForGood(order, k + 1, added, et0, et1, etmap);
        return Raises;
      }
      var skip := if added then {} else KnownKeys(et0, name);
      ghost var more := RowsOfType(name, refs.keys, refs.at, skip, et0.id, etmap);
      var text := WriteRowsOfType(name, refs.keys, refs.at, skip, et0.id, etmap);
      if text.Raises? {
        TypesRaiseForGood(order, k + 1, added, et0, et1, etmap);
        return Raises;
      }
      LinesAppend(rows, more.value, ReferenceLine);
      rows := rows + more.value;
      lines := lines + text.value;
    }
    assert order[..|order|] == order;
    return Ok(lines);
  }

  lemma {:induction false} TypesRaiseForGood(order: seq<string>, k: nat, added: bool, et0: ElementTypes,
                                             et1: ElementTypes, etmap: map<string, int>)
    requires et0.Valid() && et1.Valid() && WellKept(et1)
    requires forall n | n in order :: n in et1.id
    requires k <= |order| && RowsOfTypes(order[..k], added, et0, et1, etmap).Raises?
    ensures RowsOfTypes(order, added, et0, et1, etmap).Raises?
    decreases |order| - k
  {
    if k == |order| {
      assert order[..k] == order;
    } else {
      assert order[..k + 1][..k] == order[..k];
      TypesRaiseForGood(order, k + 1, added, et0, et1, etmap);
    }
  }

  method WriteProperties(order: seq<string>, last: int, pt1: PropertyTypes)
    returns (content: seq<string>, ptmap: map<string, int>)
    requires pt1.Valid() && forall n | n in order :: n in pt1.id
    ensures content == [PROPERTY_HEADER] + LinesOf(NewProperties(order, last, pt1), PropertyLine)
    ensures ptmap == Assigned(order, last)
  {
    hide PropertyLine, LinesOf;
    content, ptmap := [PROPERTY_HEADER], map[];
    var id := last;
    ghost var rows: seq<PropertyRow> := [];
    NoLines(PropertyLine);
    for k := 0 to |order|
      invariant id == last + k && ptmap == Assigned(order[..k], last) && rows == NewProperties(order[..k], last, pt1)
      invariant content == [PROPERTY_HEADER] + LinesOf(rows, PropertyLine)
    {
      assert order[..k + 1][..k] == order[..k];
      id := id + 1;
      var p := pt1.info[order[k]];
      var row := PropertyRow(id, order[k], p.kind, p.unit);
      LinesSnoc(rows, row, PropertyLine);
      rows := rows + [row];
      content := content + [PropertyLine(row)];
      ptmap := ptmap[order[k] := id];
    }
    assert order[..|order|] == order;
  }

  method WritePairs(order: seq<(string, string)>, properties: map<string, int>, ptmap: map<string, int>,
                    elements: map<string, int>, etmap: map<string, int>)
    returns (content: Outcome<seq<string>>)
    ensures NewPairs(order, properties, ptmap, elements, etmap).Raises? <==> content.Raises?
    ensures content.Ok? ==>
      content.value == [PAIR_HEADER] + LinesOf(NewPairs(order, properties, ptmap, elements, etmap).value, PairLine)
  {
    hide PairLine, LinesOf;
    var lines := [PAIR_HEADER];
    ghost var rows: seq<PairRow> := [];
    NoLines(PairLine);
    for k := 0 to |order|
      invariant NewPairs(order[..k], properties, ptmap, elements, etmap) == Ok(rows)
      invariant lines == [PAIR_HEADER] + LinesOf(rows, PairLine)
    {
      assert order[..k + 1][..k] == order[..k];
      var ptid := IdOf(order[k].0, properties, ptmap);
      var etid := IdOf(order[k].1, elements, etmap);
      if ptid.Raises? || etid.Raises? {
        PairsRaiseForGood(order, k + 1, properties, ptmap, elements, etmap);
        return Raises;
      }
      var row := PairRow(etid.value, ptid.value);
      LinesSnoc(rows, row, PairLine);
      rows := rows + [row];
      lines := lines + [PairLine(row)];
    }
    assert order[..|order|] == order;
    return Ok(lines);
  }

  lemma {:induction false} PairsRaiseForGood(order: seq<(string, string)>, k: nat, properties: map<string, int>,
                                             ptmap: map<string, int>,
                                             elements: map<string, int>, etmap: map<string, int>)
    requires k <= |order| && NewPairs(order[..k], properties, ptmap, elements, etmap).Raises?
    ensures NewPairs(order, properties, ptmap, elements, etmap).Raises?
    decreases |order| - k
  {
    if k == |order| {
      assert order[..k] == order;
    } else {
      assert order[..k + 1][..k] == order[..k];
      PairsRaiseForGood(order, k + 1, properties, ptmap, elements, etmap);
    }
  }

  // A file is only written when there is a line below the header.
  function WriteText(folder: Folder, name: string, content: seq<string>): Folder
    requires |content| > 0
  {
    if |content| > 1 then folder[name := Join(content, '\n')] else folder
  }

  lemma WriteTextIsFile<R>(folder: Folder, name: string, header: string, rows: seq<R>, line: R -> string)
    ensures WriteText(folder, name, [header] + LinesOf(rows, line)) == folder + File(name, header, rows, line)
  {
    hide LinesOf, Join;
  }

  lemma OrdersKnown(et0: ElementTypes, pt0: PropertyTypes, et1: ElementTypes, pt1: PropertyTypes, o: Orders)
    requires OrdersFit(et0, pt0, et1, pt1, o)
    ensures et0.Valid() && pt0.Valid() && et1.Valid() && pt1.Valid() && WellKept(et1)
    ensures forall n | n in o.elements || n in o.others :: n in et1.id
    ensures forall n | n in o.properties :: n in pt1.id
  {
  }

  // The two element tables.
  method WriteElementFiles(et0: ElementTypes, et1: ElementTypes, elements: seq<string>, others: seq<string>)
    returns (files: Outcome<Folder>, etmap: map<string, int>)
    requires et0.Valid() && et1.Valid() && WellKept(et1)
    requires forall n | n in elements || n in others :: n in et1.id
    ensures etmap == Assigned(elements, LastId(et0.names, et0.id))
    ensures
      var added := RowsOfTypes(elements, true, et0, et1, etmap);
      var missing := RowsOfTypes(others, false, et0, et1, etmap);
      if added.Raises? || missing.Raises? then files.Raises?
      else
        files.Ok? &&
        files.value ==
        File(ELEMENTS, ELEMENT_HEADER, NewElements(elements, LastId(et0.names, et0.id)), ElementLine) +
        File(REFERENCES, REFERENCE_HEADER, added.value + missing.value, ReferenceLine)
  {
    hide LinesOf, NewElements, RowsOfTypes, Assigned, WriteText, File, ElementLine, ReferenceLine, WellKept, LastId;
    var last := LastId(et0.names, et0.id);
    var lines;
    lines, etmap := WriteElements(elements, last);
    WriteTextIsFile(map[], ELEMENTS, ELEMENT_HEADER, NewElements(elements, last), ElementLine);
    var folder := WriteText(map[], ELEMENTS, lines);
    var added := WriteRowsOfTypes(elements, true, et0, et1, etmap);
    if added.Raises? {
      return Raises, etmap;
    }
    var missing := WriteRowsOfTypes(others, false, et0, et1, etmap);
    if missing.Raises? {
      return Raises, etmap;
    }
    ghost var newRows := RowsOfTypes(elements, true, et0, et1, etmap).value;
    ghost var oldRows := RowsOfTypes(others, false, et0, et1, etmap).value;
    LinesAppend(newRows, oldRows, ReferenceLine);
    WriteTextIsFile(folder, REFERENCES, REFERENCE_HEADER, newRows + oldRows, ReferenceLine);
    files := Ok(WriteText(folder, REFERENCES, [REFERENCE_HEADER] + (added.value + missing.value)));
  }

  // From the two catalogues to the files of the new directory.
  method WriteFiles(et0: ElementTypes, pt0: PropertyTypes, et1: ElementTypes, pt1: PropertyTypes, o: Orders)
    returns (files: Outcome<Folder>)
    requires OrdersFit(et0, pt0, et1, pt1, o)
    ensures Generate(et0, pt0, et1, pt1, o).Raises? <==> files.Raises?
    ensures files.Ok? ==> files.value == Render(Generate(et0, pt0, et1, pt1, o).value)
  {
    hide OrdersFit, LinesOf, NewElements, NewProperties, NewPairs, RowsOfTypes, Assigned, WriteText, File,
         PropertyLine, PairLine;
    OrdersKnown(et0, pt0, et1, pt1, o);
    var etmap;
    files, etmap := WriteElementFiles(et0, et1, o.elements, o.others);
    if files.Raises? {
      return;
    }
    var last := LastId(pt0.names, pt0.id);
    var properties, ptmap := WriteProperties(o.properties, last, pt1);
    var elementFiles := files.value;
    WriteTextIsFile(elementFiles, PROPERTIES, PROPERTY_HEADER, NewProperties(o.properties, last, pt1), PropertyLine);
    var folder := WriteText(elementFiles, PROPERTIES, properties);
    var pairs := WritePairs(o.pairs, pt0.id, ptmap, et0.id, etmap);
    if pairs.Raises? {
      return Raises;
    }
    WriteTextIsFile(folder, PAIRS, PAIR_HEADER, NewPairs(o.pairs, pt0.id, ptmap, et0.id, etmap).value, PairLine);
    files := Ok(WriteText(folder, PAIRS, pairs.value));
  }
}
