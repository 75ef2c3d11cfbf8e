// Sets of labels and values: how they are filled, and how labels are found again.

module DataSet {
  import opened Text

  datatype DataType = NoType | RealType | StringType

  // An item has a number or a text, depending on the type of its set.
  datatype Item = Item(name: string, number: real, text: string)

  predicate TextEqual(i: Item, s: string) {
    if i.text == "" then s == i.name else s == i.text
  }

  // -------------------------------------------------------- trimmed labels

  function FirstNonBlank(s: string): (p: nat)
    ensures p <= |s| && forall i | 0 <= i < p :: s[i] == ' '
    ensures p < |s| ==> s[p] != ' '
  {
    if s == "" || s[0] != ' ' then 0 else 1 + FirstNonBlank(s[1..])
  }

  function LastNonBlank(s: string): (p: int)
    ensures -1 <= p < |s| && forall i | p < i < |s| :: s[i] == ' '
    ensures p >= 0 ==> s[p] != ' '
  {
    if s == "" then -1
    else if s[|s| - 1] != ' ' then |s| - 1
    else LastNonBlank(s[..|s| - 1])
  }

  predicate AllBlank(s: string) {
    forall i | 0 <= i < |s| :: s[i] == ' '
  }

  function Trimmed(s: string): (t: string)
    ensures t == "" <==> AllBlank(s)
    ensures t == s <==> s == "" || (s[0] != ' ' && s[|s| - 1] != ' ')
  {
    var first, last := FirstNonBlank(s), LastNonBlank(s);
    if first == |s| then "" else s[first..last + 1]
  }

  function Blanks(n: nat): (s: string)
    ensures |s| == n && AllBlank(s)
  {
    seq(n, _ => ' ')
  }

  // Blanks around a text do not count, and nothing else is trimmed.
  lemma TrimmedAlone(i: nat, t: string, j: nat)
    requires t != "" && t[0] != ' ' && t[|t| - 1] != ' '
    ensures Trimmed(Blanks(i) + t + Blanks(j)) == t
  {
    var s := Blanks(i) + t + Blanks(j);
    assert s[i] == t[0] && s[i + |t| - 1] == t[|t| - 1];
    assert FirstNonBlank(s) == i && LastNonBlank(s) == i + |t| - 1;
    assert s[i..i + |t|] == t;
  }

  // Every text that is not blank is of this form.
  lemma TrimmedInside(s: string)
    requires !AllBlank(s)
    ensures exists i: nat, j: nat :: s == Blanks(i) + Trimmed(s) + Blanks(j)
    ensures Trimmed(s) != "" && Trimmed(s)[0] != ' ' && Trimmed(s)[|Trimmed(s)| - 1] != ' '
  {
    hide Trimmed, FirstNonBlank, LastNonBlank, Blanks;
    TrimmedIs(s);
    BlanksAround(s, FirstNonBlank(s), LastNonBlank(s));
  }

  lemma TrimmedIs(s: string)
    requires !AllBlank(s)
    ensures FirstNonBlank(s) <= LastNonBlank(s) && Trimmed(s) == s[FirstNonBlank(s)..LastNonBlank(s) + 1]
  {
  }

  lemma BlanksAround(s: string, first: nat, last: nat)
    requires first <= last < |s|
    requires (forall i | 0 <= i < first :: s[i] == ' ') && forall i | last < i < |s| :: s[i] == ' '
    ensures s == Blanks(first) + s[first..last + 1] + Blanks(|s| - 1 - last)
  {
  }

  // A text is found by its value, or by its label if it has no value of its own.
  lemma TextsFound(items: seq<Item>, s: string)
    ensures (exists i | i in items :: TextEqual(i, s)) <==>
      (exists i | i in items :: i.text != "" && i.text == s) || exists i | i in items :: i.text == "" && i.name == s
  {
  }

  // The position of the first stored label that equals the trimmed value, or -1.
  function Position(value: string, labels: seq<string>): (n: int)
    ensures -1 <= n < |labels|
    ensures n >= 0 ==> labels[n] == Trimmed(value) && !AllBlank(value)
    ensures forall k | 0 <= k < |labels| && (n < 0 || k < n) :: AllBlank(value) || labels[k] != Trimmed(value)
  {
    if AllBlank(value) then -1 else FirstAt(Trimmed(value), labels, 0)
  }

  function FirstAt(name: string, labels: seq<string>, n: nat): (p: int)
    requires n <= |labels|
    ensures p == -1 || n <= p < |labels|
    ensures p >= 0 ==> labels[p] == name
    ensures forall k | n <= k < |labels| && (p < 0 || k < p) :: labels[k] != name
    decreases |labels| - n
  {
    if n == |labels| then -1 else if labels[n] == name then n else FirstAt(name, labels, n + 1)
  }

  ghost predicate Distinct(items: seq<Item>) {
    forall i, j | 0 <= i < j < |items| :: items[i].name != items[j].name
  }

  function Names(items: seq<Item>): (names: seq<string>)
    ensures |names| == |items| && forall i | 0 <= i < |items| :: names[i] == items[i].name
  {
    seq(|items|, i requires 0 <= i < |items| => items[i].name)
  }

  // The values as the data pool stores them, all as text.
  function Values(items: seq<Item>, itemType: DataType, shown: real -> string): (values: seq<string>)
    ensures |values| == |items|
    ensures forall i | 0 <= i < |items| ::
      values[i] == if itemType == RealType then shown(items[i].number) else items[i].text
  {
    seq(|items|, i requires 0 <= i < |items| => if itemType == RealType then shown(items[i].number) else items[i].text)
  }

  // The label at the place of a value.
  function InputValue(value: string, output: seq<string>, input: seq<string>): Option<string> {
    var n := Position(value, output);
    if 0 <= n < |input| then Some(input[n]) else None
  }

  // ---------------------------------------------------------------- the set

  class DataSet {
    var itemType: DataType
    var items: seq<Item>
    var invalidEntry: bool
    var input: seq<string>   // the labels that the data pool holds
    var output: seq<string>  // and the values, numbers as printed

    // Labels are distinct, and values are of one type.
    ghost predicate Valid()
      reads this
    {
      Distinct(items) && (itemType == NoType ==> items == []) &&
      (itemType == RealType ==> forall i | i in items :: i.text == "") &&
      (itemType == StringType ==> forall i | i in items :: i.number == 0.0)
    }

    constructor ()
      ensures Valid() && items == [] && itemType == NoType && invalidEntry
    {
      itemType, items, invalidEntry, input, output := NoType, [], true, [], [];
    }

    method ResetInvalidEntry()
      requires Valid()
      modifies this`invalidEntry
      ensures Valid() && !invalidEntry
    {
      invalidEntry := false;
    }

    method SearchEntry(name: string) returns (found: bool)
      ensures found <==> exists i | 0 <= i < |items| :: items[i].name == name
    {
      for k := 0 to |items|
        invariant forall i | 0 <= i < k :: items[i].name != name
      {
        if items[k].name == name {
          return true;
        }
      }
      return false;
    }

    // A first value fixes the type, even if nothing is added.
    method SetReal(name: string, value: real) returns (added: bool)
      requires Valid()
      modifies this`itemType, this`items
      ensures Valid() && itemType == if old(itemType) == NoType then RealType else old(itemType)
      ensures added <==> itemType == RealType && forall i | i in old(items) :: i.name != name
      ensures items == if added then old(items) + [Item(name, value, "")] else old(items)
    {
      if itemType == NoType {
        itemType := RealType;
      } else if itemType != RealType {
        return false;
      }
      var found := SearchEntry(name);
      if found {
        return false;
      }
      items := items + [Item(name, value, "")];
      return true;
    }

    method SetText(name: string, value: string) returns (added: bool)
      requires Valid()
      modifies this`itemType, this`items
      ensures Valid() && itemType == if old(itemType) == NoType then StringType else old(itemType)
      ensures added <==> itemType == StringType && forall i | i in old(items) :: i.name != name
      ensures items == if added then old(items) + [Item(name, 0.0, value)] else old(items)
    {
      if itemType == NoType {
        itemType := StringType;
      } else if itemType != StringType {
        return false;
      }
      var found := SearchEntry(name);
      if found {
        return false;
      }
      items := items + [Item(name, 0.0, value)];
      return true;
    }

    // The label of the first item with a value.
    method NameOfReal(d: real) returns (name: Option<string>)
      ensures name.Some? <==> exists i | 0 <= i < |items| :: items[i].number == d
      ensures name.Some? ==>
        exists i | 0 <= i < |items| ::
          items[i].number == d && items[i].name == name.value && forall j | 0 <= j < i :: items[j].number != d
    {
      for k := 0 to |items|
        invariant forall i | 0 <= i < k :: items[i].number != d
      {
        if items[k].number == d {
          return Some(items[k].name);
        }
      }
      return None;
    }

    method NameOfText(s: string) returns (name: Option<string>)
      ensures name.Some? <==> exists i | 0 <= i < |items| :: TextEqual(items[i], s)
      ensures name.Some? ==>
        exists i | 0 <= i < |items| ::
          TextEqual(items[i], s) && items[i].name == name.value && forall j | 0 <= j < i :: !TextEqual(items[j], s)
    {
      for k := 0 to |items|
        invariant forall i | 0 <= i < k :: !TextEqual(items[i], s)
      {
        if TextEqual(items[k], s) {
          return Some(items[k].name);
        }
      }
      return None;
    }

    // Copies labels and values into the data pool, with a blank label at the end
    // if values may be invalid; `shown` is how the data pool prints a number.
    method Create(shown: real -> string)
      requires Valid()
      modifies this`input, this`output
      ensures input == Names(items) + if invalidEntry then [" "] else []
      ensures output == Values(items, itemType, shown)
    {
      var ins, outs := [], [];
      for k := 0 to |items|
        invariant ins == Names(items[..k]) && outs == Values(items[..k], itemType, shown)
      {
        ins := ins + [items[k].name];
        if itemType == RealType {
          outs := outs + [shown(items[k].number)];
        } else {
          outs := outs + [items[k].text];
        }
      }
      assert items[..|items|] == items;
      if invalidEntry {
        ins := ins + [" "];
      }
      input, output := ins, outs;
    }

    // The label beside a value; without one the text becomes empty.
    method GetInputValue(value: string) returns (found: bool, caption: string)
      ensures found <==> InputValue(value, output, input).Some?
      ensures caption == if found then InputValue(value, output, input).value else ""
    {
      var inx := GetPosition(value, output);
      if inx < 0 {
        return false, "";
      }
      if inx >= |input| {
        return false, "";
      }
      return true, input[inx];
    }

    method GetInputPosition(value: string) returns (n: int)
      ensures n == Position(value, input)
    {
      n := GetPosition(value, input);
    }
  }

  // The position of a trimmed text in a vector of the data pool.
  method GetPosition(value: string, entries: seq<string>) returns (n: int)
    ensures n == Position(value, entries)
  {
    if |value| == 0 {
      return -1;
    }
    var idx := FirstNonBlank(value);
    if idx == |value| {
      return -1;
    }
    var name := value[idx..LastNonBlank(value) + 1];
    n := 0;
    while n < |entries|
      invariant 0 <= n <= |entries| && FirstAt(name, entries, n) == FirstAt(name, entries, 0)
    {
      if entries[n] == name {
        return;
      }
      n := n + 1;
    }
    return -1;
  }

  // After Create the label at place i is found at i exactly if it is not empty
  // and has no blanks around it.
  lemma LabelsAreFound(items: seq<Item>, input: seq<string>, i: nat)
    requires Distinct(items) && i < |items| && (input == Names(items) || input == Names(items) + [" "])
    ensures
      var name := items[i].name;
      Position(name, input) == i <==> name != "" && name[0] != ' ' && name[|name| - 1] != ' '
  {
    var name := items[i].name;
    assert input[i] == name;
    if Position(name, input) == i {
      assert Trimmed(name) == name;
    }
  }

  // After Create, looking a stored value up gives the label of the first item
  // that has it, exactly if the value is not empty and has no blanks around it:
  // the query is trimmed, and what is stored is not.
  lemma ValuesAreFound(items: seq<Item>, input: seq<string>, output: seq<string>, first: nat)
    requires Distinct(items) && |output| == |items| && (input == Names(items) || input == Names(items) + [" "])
    requires first < |items| && forall j | 0 <= j < first :: output[j] != output[first]
    ensures
      var value := output[first];
      InputValue(value, output, input) == Some(items[first].name) <==>
      value != "" && value[0] != ' ' && value[|value| - 1] != ' '
  {
    var value := output[first];
    var n := Position(value, output);
    assert input[first] == items[first].name;
    if n >= 0 {
      assert input[n] == items[n].name;
    }
  }

  // Any query finds the label of the first item whose stored value it equals
  // once it is trimmed, and nothing if there is none or it is blank.
  lemma QueryFinds(items: seq<Item>, input: seq<string>, output: seq<string>, query: string)
    requires |output| == |items| && (input == Names(items) || input == Names(items) + [" "])
    ensures
      match InputValue(query, output, input)
      case None => AllBlank(query) || Trimmed(query) !in output
      case Some(name) =>
        !AllBlank(query) &&
        exists i | 0 <= i < |items| ::
          output[i] == Trimmed(query) && items[i].name == name && forall j | 0 <= j < i :: output[j] != Trimmed(query)
  {
    var n := Position(query, output);
    if n >= 0 {
      assert input[n] == items[n].name;
    }
  }
}
