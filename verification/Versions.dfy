// The choice of the next changelog version: the greatest existing name in
// string order, plus one, filled up with zeros to the width of that name.

module Versions {
  import opened Text
  import opened Catalogue

  function Pow10(n: nat): (p: nat)
    ensures p > 0
  {
    if n == 0 then 1 else 10 * Pow10(n - 1)
  }

  // Python's order of strings.
  predicate AtMost(a: string, b: string) {
    a == "" || (b != "" && (a[0] < b[0] || (a[0] == b[0] && AtMost(a[1..], b[1..]))))
  }

  lemma {:induction false} AtMostTotal(a: string, b: string)
    ensures AtMost(a, b) || AtMost(b, a)
    ensures AtMost(a, b) && AtMost(b, a) ==> a == b
    ensures AtMost(a, a)
  {
    if a != "" {
      AtMostTotal(a[1..], a[1..]);
      if b != "" {
        AtMostTotal(a[1..], b[1..]);
      }
    }
  }

  lemma {:induction false} AtMostTransitive(a: string, b: string, c: string)
    requires AtMost(a, b) && AtMost(b, c)
    ensures AtMost(a, c)
  {
    if a != "" && a[0] == b[0] == c[0] {
      AtMostTransitive(a[1..], b[1..], c[1..]);
    }
  }

  // sorted(names)[-1]
  function Greatest(names: seq<string>): (g: string)
    requires names != []
    ensures g in names
    ensures forall n | n in names :: AtMost(n, g)
  {
    var last := names[|names| - 1];
    AtMostTotal(last, last);
    if |names| == 1 then last
    else
      var g := Greatest(names[..|names| - 1]);
      AtMostTotal(last, g);
      assert forall n | n in names :: n in names[..|names| - 1] || n == last;
      if AtMost(last, g) then g
      else
        GreaterThanAll(names[..|names| - 1], g, last);
        last
  }

  lemma GreaterThanAll(names: seq<string>, g: string, last: string)
    requires (forall n | n in names :: AtMost(n, g)) && AtMost(g, last)
    ensures forall n | n in names :: AtMost(n, last)
  {
    forall n | n in names ensures AtMost(n, last) {
      AtMostTransitive(n, g, last);
    }
  }

  // s.zfill(width)
  function Zfill(s: string, width: nat): string {
    if |s| >= width then s
    else if s != "" && s[0] in "+-" then [s[0]] + Zeros(width - |s|) + s[1..]
    else Zeros(width - |s|) + s
  }

  function Zeros(n: nat): (s: string)
    ensures |s| == n && AllDigits(s)
  {
    seq(n, _ => '0')
  }

  // Names of the form v*.xml, and what is left of them before the first dot.
  predicate IsChangelog(file: string) {
    |file| >= 5 && file[0] == 'v' && file[|file| - 4..] == ".xml"
  }

  lemma IsChangelogExactly(file: string)
    ensures IsChangelog(file) <==> exists middle :: file == "v" + middle + ".xml"
  {
    if IsChangelog(file) {
      assert file == "v" + file[1..|file| - 4] + ".xml";
    }
    forall middle | file == "v" + middle + ".xml" ensures IsChangelog(file) {
      assert file[|file| - 4..] == ".xml";
    }
  }

  // The stem ends ahead of the first dot, also if another one follows.
  lemma StemEnds(stem: string, rest: string)
    requires '.' !in stem
    ensures Stem("v" + stem + "." + rest) == stem
  {
    hide Split;
    var file := "v" + stem + "." + rest;
    assert file[1..] == stem + ['.'] + rest;
    SplitFirst(stem, rest, '.');
  }

  function Stem(file: string): string
    requires file != ""
  {
    Split(file[1..], '.')[0]
  }

  function Stems(files: seq<string>): seq<string> {
    if files == [] then []
    else
      var n := |files| - 1;
      if IsChangelog(files[n]) then Stems(files[..n]) + [Stem(files[n])] else Stems(files[..n])
  }

  function NextVersion(files: seq<string>): Outcome<string> {
    var stems := Stems(files);
    var version := if stems == [] then "0000" else Greatest(stems);
    match ParseInt(version)
    case None => Raises
    case Some(n) => Ok("v" + Zfill(Str(n + 1), |version|))
  }

  // -------------------------------------------------- names of one width

  lemma {:induction false} ValueFront(s: string)
    requires AllDigits(s) && s != ""
    ensures AllDigits(s[1..]) && Value(s) == DigitValue(s[0]) * Pow10(|s| - 1) + Value(s[1..])
  {
    hide IsDigit, DigitValue;
    var n := |s| - 1;
    if n > 0 {
      var front, rest := s[..n], s[1..];
      ValueFront(front);
      assert rest[..n - 1] == front[1..] && rest[n - 1] == s[n];
      TimesTen(DigitValue(s[0]), Pow10(n - 1));
    }
  }

  lemma TimesTen(d: nat, p: nat)
    ensures 10 * (d * p) == d * (10 * p)
  {
  }

  lemma {:induction false} ValueBound(s: string)
    requires AllDigits(s)
    ensures Value(s) < Pow10(|s|)
  {
    if s != "" {
      ValueBound(s[..|s| - 1]);
    }
  }

  // Between digit strings of one width the order of strings is that of numbers.
  lemma {:induction false} OrderIsNumeric(a: string, b: string)
    requires AllDigits(a) && AllDigits(b) && |a| == |b|
    ensures AtMost(a, b) <==> Value(a) <= Value(b)
    ensures Value(a) == Value(b) ==> a == b
  {
    hide Value, Pow10;
    if a != "" {
      var n := |a| - 1;
      var x, y := a[1..], b[1..];
      ValueFront(a);
      ValueFront(b);
      ValueBound(x);
      ValueBound(y);
      OrderIsNumeric(x, y);
      LeadingDigit(DigitValue(a[0]), DigitValue(b[0]), Pow10(n), Value(x), Value(y));
      assert DigitValue(a[0]) == DigitValue(b[0]) <==> a[0] == b[0];
      assert a == [a[0]] + a[1..] && b == [b[0]] + b[1..];
    }
  }

  lemma LeadingDigit(d: nat, e: nat, p: nat, v: nat, w: nat)
    requires v < p && w < p
    ensures d * p + v <= e * p + w <==> d < e || (d == e && v <= w)
    ensures d * p + v == e * p + w <==> d == e && v == w
  {
    if d < e {
      MulGap(d, e, p);
    } else if e < d {
      MulGap(e, d, p);
    }
  }

  lemma {:induction false} MulGap(d: nat, e: nat, p: nat)
    requires d < e
    ensures d * p + p <= e * p
  {
    assert e * p == (e - 1) * p + p;
    if d < e - 1 {
      MulGap(d, e - 1, p);
    }
  }

  lemma {:induction false} DigitsWidth(n: nat, width: nat)
    requires width > 0
    ensures |Digits(n)| <= width <==> n < Pow10(width)
  {
    if n >= 10 {
      if width > 1 {
        DigitsWidth(n / 10, width - 1);
      }
    } else if width > 1 {
      Pow10AtLeast(width);
    }
  }

  lemma {:induction false} Pow10AtLeast(n: nat)
    requires n > 0
    ensures Pow10(n) >= 10
  {
    if n > 1 {
      Pow10AtLeast(n - 1);
    }
  }

  lemma {:induction false} ValueOfZeros(n: nat, s: string)
    requires AllDigits(s)
    ensures AllDigits(Zeros(n) + s) && Value(Zeros(n) + s) == Value(s)
  {
    if n > 0 {
      var t := Zeros(n) + s;
      ValueOfZeros(n - 1, s);
      assert t[1..] == Zeros(n - 1) + s;
      ValueFront(t);
    } else {
      assert Zeros(n) + s == s;
    }
  }

  // ------------------------------------------------------ the next version

  // Every changelog is named by a number of the given width.
  ghost predicate Numbered(files: seq<string>, width: nat) {
    width > 0 && (forall f | f in files && IsChangelog(f) :: |Stem(f)| == width && AllDigits(Stem(f)))
  }

  lemma {:induction false} StemsOf(files: seq<string>)
    ensures forall s :: s in Stems(files) <==> exists f | f in files :: IsChangelog(f) && Stem(f) == s
  {
    if files != [] {
      var n := |files| - 1;
      StemsOf(files[..n]);
      assert files == files[..n] + [files[n]];
    }
  }

  // int() of a string of digits.
  lemma ParseDigits(s: string)
    requires s != "" && AllDigits(s)
    ensures ParseInt(s) == Some(Value(s))
  {
    assert IsDigit(s[0]) && IsDigit(s[|s| - 1]);
    assert Strip(s) == s;
  }

  function Padded(n: nat, width: nat): string {
    Zfill(Digits(n), width)
  }

  lemma PaddedIs(n: nat, width: nat)
    requires width > 0
    ensures AllDigits(Padded(n, width)) && Value(Padded(n, width)) == n
    ensures |Padded(n, width)| == width <==> n < Pow10(width)
    ensures n >= Pow10(width) ==> Padded(n, width) == Digits(n)
  {
    DigitsWidth(n, width);
    ValueOfDigits(n);
    var d := Digits(n);
    assert IsDigit(d[0]);
    if |d| < width {
      ValueOfZeros(width - |d|, d);
    }
  }

  // The greatest number so far; without any changelog counting starts at 0000.
  function Current(files: seq<string>): string {
    if Stems(files) == [] then "0000" else Greatest(Stems(files))
  }

  ghost predicate Counted(files: seq<string>, width: nat) {
    Numbered(files, width) && (Stems(files) == [] ==> width == 4)
  }

  lemma CurrentIs(files: seq<string>, width: nat)
    requires Counted(files, width)
    ensures |Current(files)| == width && AllDigits(Current(files))
    ensures forall s | s in Stems(files) :: |s| == width && AllDigits(s) && AtMost(s, Current(files))
  {
    hide Greatest, AtMost;
    StemsOf(files);
  }

  // The next version is the successor of the greatest number.
  lemma NextIsSuccessor(files: seq<string>, width: nat)
    requires Counted(files, width)
    ensures |Current(files)| == width && AllDigits(Current(files))
    ensures NextVersion(files) == Ok("v" + Padded(Value(Current(files)) + 1, width))
    ensures forall s | s in Stems(files) :: AllDigits(s) && Value(s) <= Value(Current(files))
  {
    hide Greatest, Digits, Value, AtMost, ParseInt, Zfill;
    CurrentIs(files, width);
    ParseDigits(Current(files));
    forall s | s in Stems(files) ensures AllDigits(s) && Value(s) <= Value(Current(files)) {
      OrderIsNumeric(s, Current(files));
    }
  }

  lemma StemOfVersion(digits: string)
    requires AllDigits(digits)
    ensures Stem("v" + digits + ".xml") == digits && IsChangelog("v" + digits + ".xml")
  {
    var file := "v" + digits + ".xml";
    assert file[1..] == digits + ['.'] + "xml";
    SplitFirst(digits, "xml", '.');
  }

  // The file that a run with changes adds to the directory.
  function WithNext(files: seq<string>): seq<string>
    requires NextVersion(files).Ok?
  {
    files + [NextVersion(files).value + ".xml"]
  }

  // Below the bound of the width the new name is fresh, has the same width, and
  // is the greatest from then on.
  lemma NextIsFresh(files: seq<string>, width: nat)
    requires Counted(files, width) && AllDigits(Current(files)) && Value(Current(files)) + 1 < Pow10(width)
    ensures NextVersion(files).Ok? && NextVersion(files).value + ".xml" !in files
    ensures Counted(WithNext(files), width)
    ensures AllDigits(Current(WithNext(files))) && Value(Current(WithNext(files))) == Value(Current(files)) + 1
  {
    hide Greatest, Digits, Value, AtMost, Zfill, Stem, NextVersion, Padded, IsChangelog;
    var n := Value(Current(files)) + 1;
    var digits := Padded(n, width);
    NextIsSuccessor(files, width);
    PaddedIs(n, width);
    StemOfVersion(digits);
    StemsOf(files);
    assert "v" + digits + ".xml" !in files;
    var more := WithNext(files);
    assert more[..|more| - 1] == files && more[|more| - 1] == "v" + digits + ".xml";
    assert Stems(more) == Stems(files) + [digits];
    NextIsSuccessor(more, width);
    CurrentIs(more, width);
    assert Value(digits) <= Value(Current(more));
  }

  // At the bound the name grows longer, sorts below the old ones, and is chosen
  // again by the next run.
  lemma NextIsStuck(files: seq<string>, width: nat)
    requires Counted(files, width) && AllDigits(Current(files)) && Value(Current(files)) + 1 == Pow10(width)
    ensures NextVersion(files).Ok? && NextVersion(WithNext(files)) == NextVersion(files)
  {
    hide Greatest, Digits, Zfill, Stem, NextVersion, Padded, IsChangelog, AtMost, Value;
    var g := Current(files);
    var digits := Padded(Pow10(width), width);
    NextIsSuccessor(files, width);
    PaddedIs(Pow10(width), width);
    StemOfVersion(digits);
    var more := WithNext(files);
    assert more[..|more| - 1] == files && more[|more| - 1] == "v" + digits + ".xml";
    assert Stems(more) == Stems(files) + [digits];
    LongerSortsBelow(g, digits, width);
    StuckCurrent(files, more, digits, width);
    SameCurrentSameNext(files, more);
  }

  lemma ZeroIsNotLast(width: nat)
    requires width == 4
    ensures Value("0000") + 1 != Pow10(width)
  {
    ValueOfZeros(4, "");
    assert Zeros(4) + "" == "0000";
    Pow10AtLeast(4);
  }

  lemma StuckCurrent(files: seq<string>, more: seq<string>, digits: string, width: nat)
    requires Counted(files, width) && Stems(more) == Stems(files) + [digits]
    requires AllDigits(Current(files)) && Value(Current(files)) + 1 == Pow10(width)
    requires AtMost(digits, Current(files)) && !AtMost(Current(files), digits)
    ensures Current(more) == Current(files)
  {
    hide AtMost, Value;
    if Stems(files) == [] {
      ZeroIsNotLast(width);
    } else {
      var g, h := Greatest(Stems(files)), Greatest(Stems(more));
      assert g in Stems(more);
      AtMostTotal(g, h);
    }
  }

  lemma SameCurrentSameNext(files: seq<string>, more: seq<string>)
    requires Current(files) == Current(more)
    ensures NextVersion(files) == NextVersion(more)
  {
  }

  lemma TenTimes(n: nat)
    ensures Pow10(n + 1) == 10 * Pow10(n)
  {
  }

  lemma FirstDecides(a: string, b: string)
    requires a != "" && b != "" && a[0] < b[0]
    ensures AtMost(a, b) && !AtMost(b, a)
  {
  }

  lemma LongerSortsBelow(g: string, digits: string, width: nat)
    requires AllDigits(g) && |g| == width > 0 && Value(g) + 1 == Pow10(width)
    requires digits == Padded(Pow10(width), width)
    ensures AtMost(digits, g) && !AtMost(g, digits)
  {
    hide Digits, Value, Padded, Pow10, AtMost;
    PaddedIs(Pow10(width), width);
    DigitsWidth(Pow10(width), width);
    DigitsWidth(Pow10(width), width + 1);
    TenTimes(width);
    TenTimes(width - 1);
    assert |digits| - 1 == width;
    FirstOf(g, 9, Pow10(width - 1) - 1);
    FirstOf(digits, 1, 0);
    assert DigitValue(digits[0]) == 1;
    assert DigitValue(g[0]) == 9;
    LowerDigit(digits[0], g[0]);
    FirstDecides(digits, g);
  }

  lemma LowerDigit(a: char, b: char)
    requires IsDigit(a) && IsDigit(b) && DigitValue(a) < DigitValue(b)
    ensures a < b
  {
  }

  // The first digit of a number d * 10^k + v.
  lemma FirstOf(s: string, d: nat, v: nat)
    requires AllDigits(s) && s != "" && v < Pow10(|s| - 1)
    ensures Value(s) == d * Pow10(|s| - 1) + v ==> DigitValue(s[0]) == d
  {
    hide Value, Pow10;
    ValueFront(s);
    ValueBound(s[1..]);
    LeadingDigit(DigitValue(s[0]), d, Pow10(|s| - 1), Value(s[1..]), v);
  }

  // Two runs with changes get different versions exactly below the bound.
  lemma VersionsAdvanceExactly(files: seq<string>, width: nat)
    requires Counted(files, width)
    ensures AllDigits(Current(files)) && NextVersion(files).Ok?
    ensures NextVersion(WithNext(files)) != NextVersion(files) <==> Value(Current(files)) + 1 < Pow10(width)
  {
    hide Greatest, Digits, Value, Pow10, NextVersion, Padded, AtMost;
    NextIsSuccessor(files, width);
    var n := Value(Current(files)) + 1;
    ValueBound(Current(files));
    if n < Pow10(width) {
      NextIsFresh(files, width);
      NextIsSuccessor(WithNext(files), width);
      PaddedIs(n, width);
      PaddedIs(n + 1, width);
      assert ("v" + Padded(n, width))[1..] == Padded(n, width);
      assert ("v" + Padded(n + 1, width))[1..] == Padded(n + 1, width);
    } else {
      NextIsStuck(files, width);
    }
  }

  // Behind v9.xml every run chooses v10.
  lemma StuckAtNine()
    ensures Counted(["v9.xml"], 1) && NextVersion(["v9.xml"]) == Ok("v10")
    ensures NextVersion(WithNext(["v9.xml"])) == Ok("v10")
  {
    hide NextVersion;
    var files := ["v9.xml"];
    NineIsCounted();
    NextIsSuccessor(files, 1);
    OneDigitBound();
    PaddedIs(10, 1);
    assert Padded(10, 1) == "10" by {
      assert Digits(10) == "10";
    }
    assert "v" + Padded(10, 1) == "v10";
    NextIsStuck(files, 1);
  }

  lemma OneDigitBound()
    ensures Pow10(1) == 10
  {
    assert Pow10(0) == 1;
  }

  lemma NineIsCounted()
    ensures Counted(["v9.xml"], 1) && Current(["v9.xml"]) == "9" && AllDigits("9") && Value("9") == 9
  {
    var files := ["v9.xml"];
    StemOfVersion("9");
    assert "v" + "9" + ".xml" == "v9.xml";
    assert files[..0] == [];
    assert Stems([]) == [];
    assert Stems(files) == [] + ["9"];
    assert "9"[..0] == "";
    assert Value("") == 0;
  }
}
