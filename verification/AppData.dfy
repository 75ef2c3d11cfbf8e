// Version numbers as text that sorts like the numbers.

module AppData {
  import opened Text
  import opened Versions

  // The parts of a text between delimiters; an empty last part is left out.
  function SplitParts(s: string, delimiter: char): seq<string> {
    var parts := Split(s, delimiter);
    if parts[|parts| - 1] == "" then parts[..|parts| - 1] else parts
  }

  // The first position of a character from p on, or the end.
  function Find(s: string, c: char): (p: nat)
    ensures p <= |s| && c !in s[..p]
    ensures p < |s| ==> s[p] == c
  {
    if s == "" || s[0] == c then 0
    else
      var p := Find(s[1..], c);
      assert s[..p + 1] == [s[0]] + s[1..][..p];
      p + 1
  }

  lemma SplitAt(s: string, p: nat, delimiter: char)
    requires p < |s| && s[p] == delimiter && delimiter !in s[..p]
    ensures Split(s, delimiter) == [s[..p]] + Split(s[p + 1..], delimiter)
  {
    hide Split;
    SplitFirst(s[..p], s[p + 1..], delimiter);
    assert s == s[..p] + [delimiter] + s[p + 1..];
  }

  lemma SplitRest(s: string, delimiter: char)
    requires Find(s, delimiter) == |s|
    ensures Split(s, delimiter) == [s] && delimiter !in s
  {
    hide Split;
    assert s[..|s|] == s;
    SplitNothing(s, delimiter);
  }

  method SplitText(text: string, delimiter: char) returns (result: seq<string>)
    ensures result == SplitParts(text, delimiter)
  {
    hide Split;
    result := [];
    var s := text;
    while Find(s, delimiter) < |s|
      invariant result + Split(s, delimiter) == Split(text, delimiter)
      decreases |s|
    {
      var pos := Find(s, delimiter);
      SplitAt(s, pos, delimiter);
      result := result + [s[..pos]];
      s := s[pos + 1..];
    }
    SplitRest(s, delimiter);
    if s != "" {
      result := result + [s];
    }
  }

  // Splitting undoes joining exactly if the last part is not empty.
  lemma SplitUndoesJoin(parts: seq<string>, delimiter: char)
    requires |parts| > 0 && forall p | p in parts :: delimiter !in p
    ensures SplitParts(Join(parts, delimiter), delimiter) == parts <==> parts[|parts| - 1] != ""
  {
    SplitJoin(parts, delimiter);
  }

  // ------------------------------------------------------ the version text

  // sscanf with %d: a number at the start, or what the variable held before.
  function ScanInt(s: string, before: int): int {
    if s == "" then before
    else if IsBlank(s[0]) then ScanInt(s[1..], before)
    else if s[0] == '+' then Scanned(s[1..], before)
    else Scanned(s, before)
  }

  function Scanned(s: string, before: int): int {
    var digits := LeadingDigits(s);
    if digits == "" then before else Value(digits)
  }

  function LeadingDigits(s: string): (d: string)
    ensures AllDigits(d)
  {
    if s == "" || !IsDigit(s[0]) then "" else [s[0]] + LeadingDigits(s[1..])
  }

  // Blanks and a plus sign ahead of a number do not count, nor does what follows
  // its digits; without digits the variable keeps what it held.
  lemma {:induction false} ScanIs(blanks: string, plus: bool, digits: string, rest: string, before: int)
    requires (forall c | c in blanks :: IsBlank(c)) && AllDigits(digits) && (rest != "" ==> !IsDigit(rest[0]))
    requires digits == "" ==> rest == "" || (!IsBlank(rest[0]) && rest[0] != '+')
    ensures
      var s := blanks + (if plus then "+" else "") + digits + rest;
      ScanInt(s, before) == if digits == "" then before else Value(digits)
  {
    hide Value;
    var sign := if plus then "+" else "";
    var s := blanks + sign + digits + rest;
    LeadingAre(digits, rest);
    if blanks != "" {
      ScanIs(blanks[1..], plus, digits, rest, before);
      assert s[1..] == blanks[1..] + sign + digits + rest;
    } else if plus {
      assert s[1..] == digits + rest;
    } else {
      assert s == digits + rest;
      assert digits != "" ==> IsDigit(digits[0]);
    }
  }

  lemma {:induction false} LeadingAre(digits: string, rest: string)
    requires AllDigits(digits) && (rest != "" ==> !IsDigit(rest[0]))
    ensures LeadingDigits(digits + rest) == digits
  {
    if digits == "" {
      assert digits + rest == rest;
    } else {
      LeadingAre(digits[1..], rest);
      assert (digits + rest)[1..] == digits[1..] + rest;
    }
  }

  // A number, filled up with zeros on the left to three characters.
  function Filled(n: int): string {
    Zeros(if |Str(n)| < 3 then 3 - |Str(n)| else 0) + Str(n)
  }

  // One component, as it is written behind the ones before it; `junk` is the
  // number that stays if there is none in the text.
  function Component(part: string, last: bool, junk: int): string {
    if '-' !in part then Filled(ScanInt(part, junk)) + (if last then "" else ".")
    else
      var list := SplitParts(part, '-');
      if |list| == 2 then Filled(ScanInt(list[0], junk)) + "-" + list[1] else part
  }

  function Components(list: seq<string>, n: nat, junk: int): string
    requires n <= |list|
  {
    if n == 0 then "" else Components(list, n - 1, junk) + Component(list[n - 1], n == |list|, junk)
  }

  // What becomes of a version.
  function VersionText(version: string, junk: int): string {
    var list := SplitParts(version, '.');
    Components(list, |list|, junk)
  }

  method VersionString(version: string, junk: int) returns (text: string)
    ensures text == VersionText(version, junk)
  {
    hide SplitParts, Filled, ScanInt;
    var list := SplitText(version, '.');
    text := "";
    for i := 0 to |list|
      invariant text == Components(list, i, junk)
    {
      ghost var before := text;
      var pos := Find(list[i], '-');
      if pos == |list[i]| {
        SplitRest(list[i], '-');
        text := text + Filled(ScanInt(list[i], junk));
        if i < |list| - 1 {
          text := text + ".";
        }
        assert text == before + Component(list[i], i + 1 == |list|, junk);
      } else {
        assert '-' in list[i];
        var list2 := SplitText(list[i], '-');
        if |list2| == 2 {
          text := text + Filled(ScanInt(list2[0], junk));
          text := text + "-" + list2[1];
        } else {
          text := text + list[i];
        }
        assert text == before + Component(list[i], i + 1 == |list|, junk);
      }
    }
  }

  // ------------------------------------------------------ plain versions

  // A version of plain numbers, as it is written in the configuration.
  function Numbers(ns: seq<nat>): (parts: seq<string>)
    ensures |parts| == |ns| && forall i | 0 <= i < |ns| :: parts[i] == Digits(ns[i])
  {
    seq(|ns|, i requires 0 <= i < |ns| => Digits(ns[i]))
  }

  function Fills(ns: seq<nat>): (parts: seq<string>)
    ensures |parts| == |ns| && forall i | 0 <= i < |ns| :: parts[i] == Filled(ns[i])
  {
    seq(|ns|, i requires 0 <= i < |ns| => Filled(ns[i]))
  }

  lemma ScanDigits(n: nat, junk: int)
    ensures ScanInt(Digits(n), junk) == n && '-' !in Digits(n) && '.' !in Digits(n)
  {
    hide Digits, Value;
    var d := Digits(n);
    assert IsDigit(d[0]);
    LeadingAre(d, "");
    assert d + "" == d;
    ValueOfDigits(n);
  }

  // What becomes of a version of plain numbers.
  lemma PlainVersion(ns: seq<nat>, junk: int)
    requires ns != []
    ensures
      var list := SplitParts(Join(Numbers(ns), '.'), '.');
      list == Numbers(ns) && Components(list, |list|, junk) == Join(Fills(ns), '.')
  {
    hide Digits, Filled, SplitParts;
    var v := Plain(ns);
    PartsOfPlain(ns);
    VersionSplits(v);
    ShownInOrder(v, |v|, junk);
    assert AllShown(v)[..|v|] == AllShown(v);
  }

  function Plain(ns: seq<nat>): (v: seq<Part>)
    ensures |v| == |ns| && forall i | 0 <= i < |ns| :: v[i] == Part(ns[i], None)
  {
    seq(|ns|, i requires 0 <= i < |ns| => Part(ns[i], None))
  }

  lemma PartsOfPlain(ns: seq<nat>)
    ensures AllWritten(Plain(ns)) == Numbers(ns) && AllShown(Plain(ns)) == Fills(ns)
    ensures DashOnlyLast(Plain(ns)) && (ns != [] ==> IsVersion(Plain(ns)))
  {
    hide Digits, Filled;
    forall n: nat ensures Written(Part(n, None)) == Digits(n) && Shown(Part(n, None)) == Filled(n) {
      assert Digits(n) + "" == Digits(n) && Filled(n) + "" == Filled(n);
    }
  }

  // ------------------------------------------------------------- the order

  // The order of version numbers: component by component, shorter ones first.
  predicate NoLater(a: seq<nat>, b: seq<nat>) {
    a == [] || (b != [] && (a[0] < b[0] || (a[0] == b[0] && NoLater(a[1..], b[1..]))))
  }

  lemma {:induction false} AtMostBehind(x: string, y: string, s: string, t: string)
    requires |x| == |y|
    ensures AtMost(x + s, y + t) <==> if x == y then AtMost(s, t) else AtMost(x, y)
  {
    if x == "" {
      assert x + s == s && y + t == t;
    } else {
      AtMostBehind(x[1..], y[1..], s, t);
      assert (x + s)[1..] == x[1..] + s && (y + t)[1..] == y[1..] + t;
      assert x == [x[0]] + x[1..] && y == [y[0]] + y[1..];
    }
  }

  lemma FilledIs(n: nat)
    ensures AllDigits(Filled(n)) && Value(Filled(n)) == n
    ensures |Filled(n)| == if n < 1000 then 3 else |Digits(n)|
    ensures n >= 1000 ==> |Filled(n)| > 3
  {
    hide Digits, Value;
    Thousand();
    DigitsWidth(n, 3);
    ValueOfDigits(n);
    ValueOfZeros(if |Digits(n)| < 3 then 3 - |Digits(n)| else 0, Digits(n));
  }

  lemma Thousand()
    ensures Pow10(3) == 1000
  {
  }

  lemma WidthGrows(m: nat, n: nat)
    requires m <= n
    ensures |Filled(m)| <= |Filled(n)|
  {
    hide Digits, Filled, Pow10;
    FilledIs(m);
    FilledIs(n);
    DigitsWidth(m, |Digits(n)|);
    DigitsWidth(n, |Digits(n)|);
  }

  // The number that the first digits of n make, as many of them as m is written with.
  function Front(n: nat, m: nat): nat
    requires m <= n
  {
    FilledIs(n);
    WidthGrows(m, n);
    Value(Filled(n)[..|Filled(m)|])
  }

  // What may follow a component.
  predicate Follows(s: string) {
    s != "" ==> s[0] == '.'
  }

  // The order of the texts where two versions part.
  lemma PartingOrder(m: nat, n: nat, s: string, t: string)
    requires m < n && Follows(s) && Follows(t)
    ensures AtMost(Filled(m) + s, Filled(n) + t) <==> m <= Front(n, m)
    ensures AtMost(Filled(n) + t, Filled(m) + s) <==> m > Front(n, m)
  {
    hide Digits, Value, AtMost, Filled;
    FilledIs(m);
    FilledIs(n);
    WidthGrows(m, n);
    var x := Filled(m);
    var front, rest := Filled(n)[..|x|], Filled(n)[|x|..];
    assert Filled(n) == front + rest && Filled(n) + t == front + (rest + t);
    AtMostBehind(x, front, s, rest + t);
    AtMostBehind(front, x, rest + t, s);
    OrderIsNumeric(x, front);
    OrderIsNumeric(front, x);
    if x == front {
      assert rest != "" by {
        assert rest == "" ==> Filled(n) == front;
      }
      assert IsDigit(rest[0]) by {
        assert rest[0] in Filled(n);
      }
      DigitBehind(s, rest + t);
    }
  }

  lemma DigitBehind(s: string, t: string)
    requires Follows(s) && t != "" && IsDigit(t[0])
    ensures AtMost(s, t) && !AtMost(t, s)
  {
  }

  predicate Narrow(ns: seq<nat>) {
    forall i | 0 <= i < |ns| :: ns[i] < 1000
  }

  function TextOf(a: seq<nat>): string
    requires a != []
  {
    Join(Fills(a), '.')
  }

  // What follows the first component.
  function Behind(a: seq<nat>): string
    requires a != []
  {
    if |a| == 1 then "" else "." + TextOf(a[1..])
  }

  lemma JoinBehind(a: seq<nat>)
    requires a != []
    ensures TextOf(a) == Filled(a[0]) + Behind(a)
  {
    hide Filled;
    assert Fills(a)[1..] == Fills(a[1..]);
  }

  lemma BehindOrder(s: string, t: string)
    ensures s == "" ==> AtMost(s, t)
    ensures s != "" && t == "" ==> !AtMost(s, t)
    ensures s != "" && t != "" && s[0] == t[0] ==> (AtMost(s, t) <==> AtMost(s[1..], t[1..]))
  {
  }

  ghost predicate PartAt(a: seq<nat>, b: seq<nat>, k: nat) {
    k < |a| && k < |b| && a[k] != b[k] && forall i | 0 <= i < k :: a[i] == b[i]
  }

  // Where two versions part, the smaller number does not exceed the first digits
  // of the greater one.
  ghost predicate Sortable(a: seq<nat>, b: seq<nat>) {
    forall k: nat | PartAt(a, b, k) :: if a[k] < b[k] then a[k] <= Front(b[k], a[k]) else b[k] <= Front(a[k], b[k])
  }

  // Texts of two versions sort like the versions exactly if this holds.
  lemma {:induction false} TextOrderExactly(a: seq<nat>, b: seq<nat>)
    requires a != [] && b != []
    ensures (AtMost(TextOf(a), TextOf(b)) <==> NoLater(a, b)) <==> Sortable(a, b)
  {
    hide Filled, TextOf, AtMost, Front, Behind, Sortable;
    var s, t := Behind(a), Behind(b);
    JoinBehind(a);
    JoinBehind(b);
    if a[0] == b[0] {
      SortableRest(a, b);
      AtMostBehind(Filled(a[0]), Filled(b[0]), s, t);
      BehindOrder(s, t);
      NoLaterRest(a, b);
      if |a| > 1 && |b| > 1 {
        BehindRest(a);
        BehindRest(b);
        TextOrderExactly(a[1..], b[1..]);
      } else {
        BehindRest(a);
        BehindRest(b);
        NothingParts(a[1..], b[1..]);
      }
    } else {
      SortableFirst(a, b);
      BehindRest(a);
      BehindRest(b);
      if a[0] < b[0] {
        PartingOrder(a[0], b[0], s, t);
      } else {
        PartingOrder(b[0], a[0], t, s);
      }
    }
  }

  lemma NoLaterRest(a: seq<nat>, b: seq<nat>)
    requires a != [] && b != [] && a[0] == b[0]
    ensures NoLater(a, b) == NoLater(a[1..], b[1..])
    ensures |a| == 1 ==> NoLater(a, b)
    ensures |a| > 1 && |b| == 1 ==> !NoLater(a, b)
  {
  }

  lemma BehindRest(a: seq<nat>)
    requires a != []
    ensures Follows(Behind(a)) && (Behind(a) == "" <==> |a| == 1)
    ensures |a| > 1 ==> Behind(a)[1..] == TextOf(a[1..])
  {
  }

  lemma NothingParts(a: seq<nat>, b: seq<nat>)
    requires a == [] || b == []
    ensures Sortable(a, b)
  {
  }

  lemma SortableRest(a: seq<nat>, b: seq<nat>)
    requires a != [] && b != [] && a[0] == b[0]
    ensures Sortable(a, b) == Sortable(a[1..], b[1..])
  {
    hide Front;
    forall k: nat ensures PartAt(a[1..], b[1..], k) == PartAt(a, b, k + 1) {
      if PartAt(a[1..], b[1..], k) {
        forall i | 0 <= i < k + 1 ensures a[i] == b[i] {
          assert i > 0 ==> a[1..][i - 1] == b[1..][i - 1];
        }
      }
    }
    forall k: nat | PartAt(a, b, k) ensures k > 0 && PartAt(a[1..], b[1..], k - 1) {
      assert PartAt(a[1..], b[1..], k - 1) == PartAt(a, b, k - 1 + 1);
    }
  }

  lemma SortableFirst(a: seq<nat>, b: seq<nat>)
    requires a != [] && b != [] && a[0] != b[0]
    ensures Sortable(a, b) <==> if a[0] < b[0] then a[0] <= Front(b[0], a[0]) else b[0] <= Front(a[0], b[0])
  {
    hide Front;
    assert PartAt(a, b, 0);
  }

  // Below a thousand, and generally where two numbers are written equally wide,
  // nothing goes wrong.
  lemma FrontOfEqualWidth(m: nat, n: nat)
    requires m <= n && |Filled(m)| == |Filled(n)|
    ensures Front(n, m) == n
  {
    hide Value, Filled;
    FilledIs(n);
    assert Filled(n)[..|Filled(n)|] == Filled(n);
  }

  lemma TextOrder(a: seq<nat>, b: seq<nat>)
    requires a != [] && b != [] && Narrow(a) && Narrow(b)
    ensures AtMost(TextOf(a), TextOf(b)) <==> NoLater(a, b)
  {
    hide Filled, TextOf, AtMost, Front;
    forall k: nat | PartAt(a, b, k)
      ensures if a[k] < b[k] then a[k] <= Front(b[k], a[k]) else b[k] <= Front(a[k], b[k])
    {
      FilledIs(a[k]);
      FilledIs(b[k]);
      FrontOfEqualWidth(if a[k] < b[k] then a[k] else b[k], if a[k] < b[k] then b[k] else a[k]);
    }
    TextOrderExactly(a, b);
  }

  // Version 2000 is sorted behind version 10000, and 999.1 behind 1000.
  lemma WideFails()
    ensures !AtMost(TextOf([2000]), TextOf([10000])) && NoLater([2000], [10000])
    ensures !AtMost(TextOf([999, 1]), TextOf([1000])) && NoLater([999, 1], [1000])
  {
    hide AtMost, Digits, Value;
    WideTexts();
    FirstDecides("10000", "2000");
    FirstDecides("1000", "999.001");
  }

  lemma WideTexts()
    ensures TextOf([2000]) == "2000" && TextOf([10000]) == "10000"
    ensures TextOf([999, 1]) == "999.001" && TextOf([1000]) == "1000"
  {
    hide Digits, Filled;
    WideDigits();
    NarrowDigits();
    OneText(2000);
    OneText(10000);
    OneText(1000);
    OneText(1);
    assert [999, 1][1..] == [1];
    JoinBehind([999, 1]);
  }

  lemma WideDigits()
    ensures Filled(1000) == "1000" && Filled(2000) == "2000" && Filled(10000) == "10000"
  {
    hide Digits;
    OneDigit(1);
    OneDigit(2);
    ZeroBehind(1);
    ZeroBehind(10);
    ZeroBehind(100);
    ZeroBehind(1000);
    ZeroBehind(2);
    ZeroBehind(20);
    ZeroBehind(200);
  }

  lemma NarrowDigits()
    ensures Filled(999) == "999" && Filled(1) == "001"
  {
    assert Digits(99) == "99";
  }

  lemma OneDigit(n: nat)
    requires n < 10
    ensures Digits(n) == [DigitChar(n)]
  {
  }

  lemma ZeroBehind(n: nat)
    requires n > 0
    ensures Digits(10 * n) == Digits(n) + "0"
  {
  }

  lemma OneText(n: nat)
    ensures TextOf([n]) == Filled(n)
  {
    hide Filled;
  }

  // ------------------------------------------------------- a dash and a dot

  // A component: a number, and what follows it behind a dash.
  datatype Part = Part(number: nat, suffix: Option<string>)

  predicate IsPart(p: Part) {
    p.suffix.Some? ==> p.suffix.value != "" && '-' !in p.suffix.value && '.' !in p.suffix.value
  }

  function Tail(p: Part): string {
    if p.suffix.None? then "" else "-" + p.suffix.value
  }

  // A component as it is configured, and as it is shown.
  function Written(p: Part): string {
    Digits(p.number) + Tail(p)
  }

  function Shown(p: Part): string {
    Filled(p.number) + Tail(p)
  }

  function AllWritten(v: seq<Part>): (parts: seq<string>)
    ensures |parts| == |v| && forall i | 0 <= i < |v| :: parts[i] == Written(v[i])
  {
    seq(|v|, i requires 0 <= i < |v| => Written(v[i]))
  }

  function AllShown(v: seq<Part>): (parts: seq<string>)
    ensures |parts| == |v| && forall i | 0 <= i < |v| :: parts[i] == Shown(v[i])
  {
    seq(|v|, i requires 0 <= i < |v| => Shown(v[i]))
  }

  // A version as it is configured.
  function Version(v: seq<Part>): string
    requires v != []
  {
    Join(AllWritten(v), '.')
  }

  ghost predicate IsVersion(v: seq<Part>) {
    v != [] && forall p | p in v :: IsPart(p)
  }

  // Only the last component may hold a dash.
  ghost predicate DashOnlyLast(v: seq<Part>) {
    forall i | 0 <= i < |v| - 1 :: v[i].suffix.None?
  }

  lemma NoSigns(n: nat)
    ensures '.' !in Digits(n) && '-' !in Digits(n) && '.' !in Filled(n) && '-' !in Filled(n)
  {
    hide Digits, Value, ScanInt;
    FilledIs(n);
    assert !IsDigit('.') && !IsDigit('-');
  }

  lemma NoDots(p: Part)
    requires IsPart(p)
    ensures '.' !in Written(p) && '.' !in Shown(p) && Written(p) != "" && Shown(p) != ""
  {
    hide Digits, Filled;
    NoSigns(p.number);
    FilledIs(p.number);
  }

  // A part is shown with a dot behind it exactly if it is not the last one and
  // holds no dash.
  lemma PartIsShown(p: Part, last: bool, junk: int)
    requires IsPart(p)
    ensures Component(Written(p), last, junk) == Shown(p) + if last || p.suffix.Some? then "" else "."
  {
    hide Digits, Filled, ScanInt;
    ScanDigits(p.number, junk);
    if p.suffix.None? {
      assert Written(p) == Digits(p.number) && Shown(p) == Filled(p.number);
    } else {
      var part := Written(p);
      assert part == Join([Digits(p.number), p.suffix.value], '-');
      SplitUndoesJoin([Digits(p.number), p.suffix.value], '-');
      assert part[|Digits(p.number)|] == '-';
    }
  }

  lemma VersionSplits(v: seq<Part>)
    requires IsVersion(v)
    ensures SplitParts(Version(v), '.') == AllWritten(v)
  {
    hide Written, SplitParts;
    forall p | p in AllWritten(v) ensures '.' !in p {
      var i :| 0 <= i < |v| && AllWritten(v)[i] == p;
      NoDots(v[i]);
    }
    NoDots(v[|v| - 1]);
    SplitUndoesJoin(AllWritten(v), '.');
  }

  lemma {:induction false} ShownInOrder(v: seq<Part>, n: nat, junk: int)
    requires IsVersion(v) && DashOnlyLast(v) && 0 < n <= |v|
    ensures Components(AllWritten(v), n, junk) == Join(AllShown(v)[..n], '.') + if n == |v| then "" else "."
  {
    hide Written, Shown, Component;
    PartIsShown(v[n - 1], n == |v|, junk);
    var shown := AllShown(v);
    assert Components(AllWritten(v), 0, junk) == "";
    if n == 1 {
      assert shown[..1] == [shown[0]];
    } else {
      ShownInOrder(v, n - 1, junk);
      assert shown[..n] == shown[..n - 1] + [shown[n - 1]];
      JoinOneMore(shown[..n - 1], shown[n - 1], '.');
    }
  }

  lemma DashBehind(d: string, s: string, e: string, t: string)
    requires d + s == e + t && (s != "" ==> s[0] == '-')
    ensures |d| < |e| ==> '-' in e
  {
    if |d| < |e| {
      assert (d + s)[|d|] == s[0] && (e + t)[|d|] == e[|d|];
    }
  }

  lemma ShownTells(p: Part, q: Part)
    requires IsPart(p) && IsPart(q) && Shown(p) == Shown(q)
    ensures p == q
  {
    hide Digits, Filled, Value;
    FilledIs(p.number);
    FilledIs(q.number);
    NoSigns(p.number);
    NoSigns(q.number);
    DashBehind(Filled(p.number), Tail(p), Filled(q.number), Tail(q));
    DashBehind(Filled(q.number), Tail(q), Filled(p.number), Tail(p));
    var x, n := Shown(p), |Filled(p.number)|;
    assert x[..n] == Filled(p.number) && x[n..] == Tail(p);
    assert Shown(q)[..n] == Filled(q.number) && Shown(q)[n..] == Tail(q);
    assert p.suffix.Some? ==> Tail(p)[1..] == p.suffix.value;
    assert q.suffix.Some? ==> Tail(q)[1..] == q.suffix.value;
  }

  // As long as only last components hold dashes, texts tell versions apart.
  lemma TextTellsVersion(a: seq<Part>, b: seq<Part>, junk: int, junk2: int)
    requires IsVersion(a) && IsVersion(b) && DashOnlyLast(a) && DashOnlyLast(b)
    ensures VersionText(Version(a), junk) == VersionText(Version(b), junk2) <==> a == b
  {
    hide Shown, Written, SplitParts, Components;
    TextIsJoined(a, junk);
    TextIsJoined(b, junk2);
    if VersionText(Version(a), junk) == VersionText(Version(b), junk2) {
      ShownSplits(a);
      ShownSplits(b);
      assert AllShown(a) == AllShown(b);
      forall i | 0 <= i < |a| ensures a[i] == b[i] {
        assert Shown(a[i]) == AllShown(a)[i] && Shown(b[i]) == AllShown(b)[i];
        ShownTells(a[i], b[i]);
      }
    }
  }

  lemma TextIsJoined(v: seq<Part>, junk: int)
    requires IsVersion(v) && DashOnlyLast(v)
    ensures VersionText(Version(v), junk) == Join(AllShown(v), '.')
  {
    hide Shown, Written, SplitParts, Components;
    VersionSplits(v);
    ShownInOrder(v, |v|, junk);
    assert AllShown(v)[..|v|] == AllShown(v);
  }

  lemma ShownSplits(v: seq<Part>)
    requires IsVersion(v)
    ensures Split(Join(AllShown(v), '.'), '.') == AllShown(v)
  {
    hide Shown, Split;
    forall p | p in AllShown(v) ensures '.' !in p {
      var i :| 0 <= i < |v| && AllShown(v)[i] == p;
      NoDots(v[i]);
    }
    SplitJoin(AllShown(v), '.');
  }

  // ----------------------------------------------------- dashes further ahead

  // Behind a dash that is not in the last component no dot is written, so two
  // components at the end run into one, whatever stands ahead of them.
  lemma DashRunsOn(front: seq<Part>, p: Part, q: Part, junk: int)
    requires (forall x | x in front :: IsPart(x)) && IsPart(p) && IsPart(q) && p.suffix.Some?
    ensures
      var one, two := Version(front + [p, q]), Join(AllWritten(front) + [RunTogether(p, q)], '.');
      one != two && VersionText(one, junk) == VersionText(two, junk)
  {
    hide Written, Shown, SplitParts, Component;
    var v, last := front + [p, q], RunTogether(p, q);
    var parts := AllWritten(front) + [last];
    VersionSplits(v);
    LastRunsOn(p, q, junk);
    assert AllWritten(v) == AllWritten(front) + [Written(p), Written(q)];
    forall x | x in parts ensures '.' !in x {
      if x != last {
        var i :| 0 <= i < |front| && AllWritten(front)[i] == x;
        NoDots(front[i]);
      }
    }
    SplitUndoesJoin(parts, '.');
    SameAhead(AllWritten(front), Written(p), Written(q), last, junk);
    assert |SplitParts(Version(v), '.')| != |parts|;
  }

  // The single component that is shown as two.
  function RunTogether(p: Part, q: Part): string
    requires IsPart(p) && IsPart(q) && p.suffix.Some?
  {
    if q.suffix.None? then Written(Joined(p, q)) else Shown(p) + Shown(q)
  }

  lemma LastRunsOn(p: Part, q: Part, junk: int)
    requires IsPart(p) && IsPart(q) && p.suffix.Some?
    ensures '.' !in RunTogether(p, q) && RunTogether(p, q) != ""
    ensures
      Component(Written(p), false, junk) + Component(Written(q), true, junk) ==
      Component(RunTogether(p, q), true, junk)
  {
    hide Written, Shown, Component;
    PartIsShown(p, false, junk);
    PartIsShown(q, true, junk);
    assert Component(Written(p), false, junk) + Component(Written(q), true, junk) == Shown(p) + Shown(q);
    NoDots(p);
    NoDots(q);
    if q.suffix.None? {
      var one := Joined(p, q);
      PartIsShown(one, true, junk);
      NoDots(one);
    } else {
      TwoDashes(p, q, junk);
    }
  }

  // A plain number becomes part of what stands behind the dash.
  function Joined(p: Part, q: Part): (r: Part)
    requires IsPart(p) && IsPart(q) && p.suffix.Some? && q.suffix.None?
    ensures IsPart(r) && Shown(r) == Shown(p) + Shown(q)
  {
    NoSigns(q.number);
    JoinedShown(p, q);
    Part(p.number, Some(p.suffix.value + Filled(q.number)))
  }

  lemma JoinedShown(p: Part, q: Part)
    requires p.suffix.Some? && q.suffix.None?
    ensures Shown(Part(p.number, Some(p.suffix.value + Filled(q.number)))) == Shown(p) + Shown(q)
  {
    hide Filled;
    assert Shown(q) == Filled(q.number);
  }

  // A component with two dashes is copied.
  lemma TwoDashes(p: Part, q: Part, junk: int)
    requires IsPart(p) && IsPart(q) && p.suffix.Some? && q.suffix.Some?
    ensures Component(Shown(p) + Shown(q), true, junk) == Shown(p) + Shown(q)
  {
    hide Filled, Component;
    var a, b, c := Filled(p.number), p.suffix.value + Filled(q.number), q.suffix.value;
    NoSigns(p.number);
    NoSigns(q.number);
    assert Shown(p) + Shown(q) == a + "-" + b + "-" + c;
    Copied(a, b, c, junk);
  }

  lemma Copied(a: string, b: string, c: string, junk: int)
    requires '-' !in a && '-' !in b && '-' !in c && c != ""
    ensures Component(a + "-" + b + "-" + c, true, junk) == a + "-" + b + "-" + c
  {
    hide Filled, ScanInt, SplitParts;
    var x := a + "-" + b + "-" + c;
    JoinThree(a, b, c);
    SplitUndoesJoin([a, b, c], '-');
    assert x[|a|] == '-';
  }

  lemma JoinThree(a: string, b: string, c: string)
    ensures Join([a, b, c], '-') == a + "-" + b + "-" + c
  {
    assert [a, b, c][1..] == [b, c] && [b, c][1..] == [c];
    assert Join([b, c], '-') == b + "-" + c;
  }

  // With the same components ahead, only what stands at the end matters.
  lemma SameAhead(front: seq<string>, p: string, q: string, r: string, junk: int)
    requires Component(p, false, junk) + Component(q, true, junk) == Component(r, true, junk)
    ensures
      Components(front + [p, q], |front| + 2, junk) == Components(front + [r], |front| + 1, junk)
  {
    hide Component, Components;
    var one, two, n := front + [p, q], front + [r], |front|;
    SameFront(one, two, n, junk);
    OneMoreComponent(one, n, junk);
    OneMoreComponent(one, n + 1, junk);
    OneMoreComponent(two, n, junk);
    var ahead := Components(one, n, junk);
    assert Components(one, n + 2, junk) == ahead + Component(p, false, junk) + Component(q, true, junk);
  }

  lemma OneMoreComponent(list: seq<string>, n: nat, junk: int)
    requires n < |list|
    ensures Components(list, n + 1, junk) == Components(list, n, junk) + Component(list[n], n + 1 == |list|, junk)
  {
    hide Component;
  }

  lemma {:induction false} SameFront(one: seq<string>, two: seq<string>, n: nat, junk: int)
    requires n < |one| && n < |two| && one[..n] == two[..n]
    ensures Components(one, n, junk) == Components(two, n, junk)
  {
    hide Component;
    if n > 0 {
      assert one[n - 1] == one[..n][n - 1] && two[n - 1] == two[..n][n - 1];
      assert one[..n - 1] == one[..n][..n - 1] && two[..n - 1] == two[..n][..n - 1];
      SameFront(one, two, n - 1, junk);
    }
  }

  lemma ThreeFilled()
    ensures Filled(3) == "003"
  {
  }

  // The text of 1-2.3 is that of 1-2003.
  lemma DashFails(junk: int)
    ensures VersionText("1-2.3", junk) == VersionText("1-2003", junk)
  {
    hide VersionText, Digits, Filled;
    var p, q := Part(1, Some("2")), Part(3, None);
    OneDigit(1);
    OneDigit(3);
    assert Filled(3) == "003" by {
      ThreeFilled();
    }
    assert Written(p) == "1-2" && Written(q) == "3" && RunTogether(p, q) == "1-2003";
    assert AllWritten([] + [p, q]) == ["1-2", "3"];
    assert AllWritten([]) + [RunTogether(p, q)] == ["1-2003"];
    assert Join(["1-2", "3"], '.') == "1-2.3" && Join(["1-2003"], '.') == "1-2003";
    DashRunsOn([], p, q, junk);
  }
}
