// Text operations: splitting and joining, the last place of a character, and
// printing and parsing numbers.

module Text {

  datatype Option<+T> = None | Some(value: T)

  // ------------------------------------------------------- split and join

  // s.split(sep) for a separator of one character; the result is never empty.
  function Split(s: string, sep: char): (parts: seq<string>)
    ensures |parts| > 0
  {
    if s == "" then [""]
    else
      var rest := Split(s[1..], sep);
      if s[0] == sep then [""] + rest else [[s[0]] + rest[0]] + rest[1..]
  }

  // sep.join(parts)
  function Join(parts: seq<string>, sep: char): string
    requires |parts| > 0
  {
    if |parts| == 1 then parts[0] else parts[0] + [sep] + Join(parts[1..], sep)
  }

  lemma {:induction false} SplitNothing(part: string, sep: char)
    requires sep !in part
    ensures Split(part, sep) == [part]
  {
    if part != "" {
      SplitNothing(part[1..], sep);
      assert [part[0]] + part[1..] == part;
    }
  }

  lemma {:induction false} SplitFirst(part: string, rest: string, sep: char)
    requires sep !in part
    ensures Split(part + [sep] + rest, sep) == [part] + Split(rest, sep)
  {
    var s := part + [sep] + rest;
    if part == "" {
      assert s[1..] == rest;
    } else {
      SplitFirst(part[1..], rest, sep);
      assert s[1..] == part[1..] + [sep] + rest;
      assert [part[0]] + part[1..] == part;
    }
  }

  // Splitting undoes joining when no part holds the separator.
  lemma {:induction false} SplitJoin(parts: seq<string>, sep: char)
    requires |parts| > 0 && forall p | p in parts :: sep !in p
    ensures Split(Join(parts, sep), sep) == parts
  {
    if |parts| == 1 {
      SplitNothing(parts[0], sep);
    } else {
      SplitFirst(parts[0], Join(parts[1..], sep), sep);
      SplitJoin(parts[1..], sep);
    }
  }

  lemma {:induction false} JoinOneMore(parts: seq<string>, part: string, sep: char)
    requires parts != []
    ensures Join(parts + [part], sep) == Join(parts, sep) + [sep] + part
  {
    if |parts| == 1 {
      assert (parts + [part])[1..] == [part];
    } else {
      JoinOneMore(parts[1..], part, sep);
      assert (parts + [part])[1..] == parts[1..] + [part];
    }
  }

  // s.find_last_of(c), or -1
  function FindLast(s: string, c: char): (p: int)
    ensures -1 <= p < |s|
    ensures p >= 0 ==> s[p] == c
    ensures forall i | p < i < |s| :: s[i] != c
  {
    if s == "" then -1
    else if s[|s| - 1] == c then |s| - 1
    else FindLast(s[..|s| - 1], c)
  }

  // What read_text makes of carriage returns.
  function UniversalNewlines(s: string): string {
    if s == "" then ""
    else if s[0] != '\r' then [s[0]] + UniversalNewlines(s[1..])
    else ['\n'] + UniversalNewlines(if |s| > 1 && s[1] == '\n' then s[2..] else s[1..])
  }

  lemma {:induction false} NoCarriageReturn(s: string)
    requires '\r' !in s
    ensures UniversalNewlines(s) == s
  {
    if s != "" {
      NoCarriageReturn(s[1..]);
    }
  }

  // A text with CR LF, or CR, for each line break.
  function WithReturns(s: string, newline: string): string {
    if s == "" then "" else (if s[0] == '\n' then newline else [s[0]]) + WithReturns(s[1..], newline)
  }

  // Whatever the line ends are, the text reads as with line feeds.
  lemma {:induction false} ReturnsAreRead(s: string, newline: string)
    requires '\r' !in s && (newline == "\r\n" || newline == "\r" || newline == "\n")
    ensures UniversalNewlines(WithReturns(s, newline)) == s
  {
    if s != "" {
      ReturnsAreRead(s[1..], newline);
      var rest := WithReturns(s[1..], newline);
      if newline == "\r" {
        FirstIsNoFeed(s[1..], newline);
      }
      assert s == [s[0]] + s[1..];
      if s[0] == '\n' {
        LineEndIsRead(newline, rest);
      } else {
        assert ([s[0]] + rest)[1..] == rest;
      }
    }
  }

  lemma LineEndIsRead(newline: string, rest: string)
    requires newline == "\r\n" || newline == "\r" || newline == "\n"
    requires newline == "\r" ==> rest == "" || rest[0] != '\n'
    ensures UniversalNewlines(newline + rest) == ['\n'] + UniversalNewlines(rest)
  {
    assert newline == "\r\n" ==> (newline + rest)[2..] == rest;
    assert newline != "\r\n" ==> (newline + rest)[1..] == rest;
  }

  lemma FirstIsNoFeed(s: string, newline: string)
    requires newline == "\r"
    ensures WithReturns(s, newline) == "" || WithReturns(s, newline)[0] != '\n'
  {
  }

  // No carriage return is left of any text.
  lemma {:induction false} ReturnsAreGone(s: string)
    ensures '\r' !in UniversalNewlines(s)
    decreases |s|
  {
    if s != "" {
      ReturnsAreGone(if s[0] == '\r' && |s| > 1 && s[1] == '\n' then s[2..] else s[1..]);
    }
  }

  lemma {:induction false} JoinChars(parts: seq<string>, sep: char, c: char)
    requires |parts| > 0 && c != sep && forall p | p in parts :: c !in p
    ensures c !in Join(parts, sep)
  {
    if |parts| > 1 {
      JoinChars(parts[1..], sep, c);
    }
  }

  // -------------------------------------------------------------- numbers

  predicate IsDigit(c: char) {
    '0' <= c <= '9'
  }

  predicate AllDigits(s: string) {
    forall c | c in s :: IsDigit(c)
  }

  // The decimal digits of n, without leading zeros.
  function Digits(n: nat): (s: string)
    ensures |s| > 0 && AllDigits(s)
  {
    if n < 10 then [DigitChar(n)] else Digits(n / 10) + [DigitChar(n % 10)]
  }

  function DigitChar(d: nat): (c: char)
    requires d < 10
    ensures IsDigit(c) && DigitValue(c) == d
  {
    '0' + d as char
  }

  function DigitValue(c: char): (d: nat)
    requires IsDigit(c)
    ensures d < 10
  {
    (c - '0') as nat
  }

  // The number that a string of digits denotes.
  function Value(s: string): nat
    requires AllDigits(s)
  {
    if s == "" then 0 else 10 * Value(s[..|s| - 1]) + DigitValue(s[|s| - 1])
  }

  lemma {:induction false} ValueOfDigits(n: nat)
    ensures Value(Digits(n)) == n
  {
    var s := Digits(n);
    if n < 10 {
      assert s[..|s| - 1] == "";
    } else {
      ValueOfDigits(n / 10);
      assert s[..|s| - 1] == Digits(n / 10);
    }
  }

  // str(n)
  function Str(n: int): string {
    if n < 0 then "-" + Digits(-n) else Digits(n)
  }

  predicate IsBlank(c: char) {
    c in " \t\n\r"
  }

  function Strip(s: string): string {
    if s != "" && IsBlank(s[0]) then Strip(s[1..])
    else if s != "" && IsBlank(s[|s| - 1]) then Strip(s[..|s| - 1])
    else s
  }

  // int(s): an optional sign and decimal digits, between blanks.
  function ParseInt(s: string): Option<int> {
    var t := Strip(s);
    if t == "" then None
    else
      var digits := if t[0] in "+-" then t[1..] else t;
      if digits == "" || !AllDigits(digits) then None
      else
        var n: int := Value(digits);
        Some(if t[0] == '-' then -n else n)
  }

  lemma ParseStr(n: int)
    ensures ParseInt(Str(n)) == Some(n)
    ensures Str(n) != ""
    ensures forall c | c in Str(n) :: IsDigit(c) || c == '-'
  {
    hide Digits, Value;
    var k := if n < 0 then -n else n;
    ValueOfDigits(k);
    var d, s := Digits(k), Str(n);
    assert IsDigit(d[|d| - 1]) && IsDigit(d[0]);
    assert s[|s| - 1] == d[|d| - 1];
    assert Strip(s) == s;
    if n < 0 {
      assert s[1..] == d;
    }
  }

  // Blanks around a text do not matter to int, and neither does a plus sign.
  lemma {:induction false} StripIs(a: string, s: string, b: string)
    requires (forall c | c in a :: IsBlank(c)) && (forall c | c in b :: IsBlank(c))
    requires s != "" && !IsBlank(s[0]) && !IsBlank(s[|s| - 1])
    ensures Strip(a + s + b) == s
    decreases |a| + |b|
  {
    var t := a + s + b;
    if a != "" {
      assert t[1..] == a[1..] + s + b;
      StripIs(a[1..], s, b);
    } else if b != "" {
      assert t[..|t| - 1] == a + s + b[..|b| - 1];
      StripIs(a, s, b[..|b| - 1]);
    } else {
      assert t == s;
    }
  }

  lemma ParseSigned(a: string, digits: string, b: string)
    requires (forall c | c in a :: IsBlank(c)) && (forall c | c in b :: IsBlank(c))
    requires digits != "" && AllDigits(digits)
    ensures ParseInt(a + digits + b) == Some(Value(digits))
    ensures ParseInt(a + ("+" + digits) + b) == Some(Value(digits))
    ensures ParseInt(a + ("-" + digits) + b) == Some(-(Value(digits) as int))
  {
    hide Strip, Value;
    var last := |digits| - 1;
    assert IsDigit(digits[0]) && IsDigit(digits[last]);
    StripIs(a, digits, b);
    StripIs(a, "+" + digits, b);
    StripIs(a, "-" + digits, b);
    assert ("+" + digits)[last + 1] == digits[last] && ("-" + digits)[last + 1] == digits[last];
    assert ("+" + digits)[1..] == digits && ("-" + digits)[1..] == digits;
  }
}
