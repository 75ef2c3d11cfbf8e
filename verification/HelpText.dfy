// Help files: finding the chapters of a text file in one pass over a stream,
// and reading a chapter again by its offsets.

module Help {
  import opened Text

  const TITLE_CHAR := '#'
  const CHAPTER_CHAR := '.'
  const KEYWORD_CHAR := ':'
  const UNTITLED := "<untitled>"

  // --------------------------------------------------------- lines of a file

  // The end of the line that position p lies in.
  function LineEnd(data: string, p: nat): (e: nat)
    requires p <= |data|
    ensures p <= e <= |data| && '\n' !in data[p..e]
    ensures e < |data| ==> data[e] == '\n'
    decreases |data| - p
  {
    if p == |data| || data[p] == '\n' then p
    else
      var e := LineEnd(data, p + 1);
      assert data[p..e] == [data[p]] + data[p + 1..e];
      e
  }

  function Line(data: string, p: nat): string
    requires p <= |data|
  {
    data[p..LineEnd(data, p)]
  }

  // The start of the next line, or the end of the file.
  function Next(data: string, p: nat): (n: nat)
    requires p <= |data|
    ensures p <= n <= |data| && (p < |data| ==> p < n)
  {
    var e := LineEnd(data, p);
    if e < |data| then e + 1 else e
  }

  // The lines from a position on; a line break at the very end starts no line.
  function Lines(data: string, p: nat): seq<string>
    requires p <= |data|
    decreases |data| - p
  {
    if p == |data| then [] else [Line(data, p)] + Lines(data, Next(data, p))
  }

  // ------------------------------------------------------- what a file means

  datatype Section = Section(header: string, keywords: seq<string>, body: seq<string>)

  predicate StartsWith(line: string, c: char) {
    line != "" && line[0] == c
  }

  // One more line: a header, a keyword line right behind a header, or a line of
  // the body. Lines before the first header are skipped.
  function Feed(sections: seq<Section>, line: string): seq<Section> {
    if StartsWith(line, CHAPTER_CHAR) then sections + [Section(line[1..], [], [])]
    else if sections == [] then []
    else
      var n := |sections| - 1;
      var last := sections[n];
      if StartsWith(line, KEYWORD_CHAR) && last.body == []
      then sections[..n] + [last.(keywords := last.keywords + [line[1..]])]
      else sections[..n] + [last.(body := last.body + [line])]
  }

  function Outline(lines: seq<string>): seq<Section> {
    if lines == [] then [] else Feed(Outline(lines[..|lines| - 1]), lines[|lines| - 1])
  }

  lemma OutlineOneMore(lines: seq<string>, line: string)
    ensures Outline(lines + [line]) == Feed(Outline(lines), line)
  {
    assert (lines + [line])[..|lines|] == lines;
  }

  // How sections are written down.
  function SectionLines(s: Section): seq<string> {
    [[CHAPTER_CHAR] + s.header] + KeywordLines(s.keywords) + s.body
  }

  function KeywordLines(keywords: seq<string>): (lines: seq<string>)
    ensures |lines| == |keywords| && forall i | 0 <= i < |keywords| :: lines[i] == [KEYWORD_CHAR] + keywords[i]
  {
    seq(|keywords|, i requires 0 <= i < |keywords| => [KEYWORD_CHAR] + keywords[i])
  }

  function AllLines(sections: seq<Section>): seq<string> {
    if sections == [] then [] else AllLines(sections[..|sections| - 1]) + SectionLines(sections[|sections| - 1])
  }

  predicate Writable(s: Section) {
    (forall line | line in s.body :: !StartsWith(line, CHAPTER_CHAR)) &&
    (s.body != [] ==> !StartsWith(s.body[0], KEYWORD_CHAR))
  }

  lemma FeedKeyword(before: seq<Section>, last: Section, line: string)
    requires StartsWith(line, KEYWORD_CHAR) && last.body == []
    ensures Feed(before + [last], line) == before + [last.(keywords := last.keywords + [line[1..]])]
  {
  }

  lemma FeedBody(before: seq<Section>, last: Section, line: string)
    requires !StartsWith(line, CHAPTER_CHAR) && (last.body == [] ==> !StartsWith(line, KEYWORD_CHAR))
    ensures Feed(before + [last], line) == before + [last.(body := last.body + [line])]
  {
  }

  // Sections that are written down are found again.
  lemma {:induction false} OutlineReadsBack(sections: seq<Section>)
    requires forall s | s in sections :: Writable(s)
    ensures Outline(AllLines(sections)) == sections
  {
    hide Outline, Writable, SectionLines;
    if sections != [] {
      var n := |sections| - 1;
      OutlineReadsBack(sections[..n]);
      SectionReadsBack(AllLines(sections[..n]), sections[..n], sections[n]);
      assert sections == sections[..n] + [sections[n]];
    } else {
      OutlineOfNothing();
    }
  }

  lemma OutlineOfNothing()
    ensures Outline([]) == []
  {
  }

  lemma SectionReadsBack(lines: seq<string>, before: seq<Section>, s: Section)
    requires Outline(lines) == before && Writable(s)
    ensures Outline(lines + SectionLines(s)) == before + [s]
  {
    hide Outline, Writable;
    var header := [CHAPTER_CHAR] + s.header;
    OutlineOneMore(lines, header);
    assert header[1..] == s.header;
    KeywordsReadBack(lines + [header], before, s.header, s.keywords);
    BodyReadsBack(lines + [header] + KeywordLines(s.keywords), before, Section(s.header, s.keywords, []), s.body);
    assert lines + SectionLines(s) == lines + [header] + KeywordLines(s.keywords) + s.body;
  }

  lemma {:induction false} KeywordsReadBack(lines: seq<string>, before: seq<Section>, header: string,
                                            keywords: seq<string>)
    requires Outline(lines) == before + [Section(header, [], [])]
    ensures Outline(lines + KeywordLines(keywords)) == before + [Section(header, keywords, [])]
  {
    hide Feed, Outline;
    if keywords == [] {
      assert lines + KeywordLines(keywords) == lines;
    } else {
      var k := |keywords| - 1;
      var front, line := keywords[..k], [KEYWORD_CHAR] + keywords[k];
      KeywordsReadBack(lines, before, header, front);
      OutlineOneMore(lines + KeywordLines(front), line);
      FeedKeyword(before, Section(header, front, []), line);
      assert lines + KeywordLines(keywords) == lines + KeywordLines(front) + [line];
      assert front + [line[1..]] == keywords;
    }
  }

  lemma {:induction false} BodyReadsBack(lines: seq<string>, before: seq<Section>, head: Section, body: seq<string>)
    requires Outline(lines) == before + [head] && head.body == [] && Writable(head.(body := body))
    ensures Outline(lines + body) == before + [head.(body := body)]
  {
    hide Feed, Outline;
    if body == [] {
      assert lines + body == lines;
    } else {
      var k := |body| - 1;
      var front := body[..k];
      BodyReadsBack(lines, before, head, front);
      OutlineOneMore(lines + front, body[k]);
      FeedBody(before, head.(body := front), body[k]);
      assert lines + body == lines + front + [body[k]];
      assert front + [body[k]] == body;
    }
  }

  // ----------------------------------------------------------- help keys

  predicate IsSpace(c: char) {
    c in " \t\n"
  }

  // The first position from p on that holds no space, or a space; or the end.
  function FirstNotSpace(line: string, p: nat): (f: nat)
    requires p <= |line|
    ensures p <= f <= |line| && (f < |line| ==> !IsSpace(line[f]))
    ensures forall i | p <= i < f :: IsSpace(line[i])
    decreases |line| - p
  {
    if p == |line| || !IsSpace(line[p]) then p else FirstNotSpace(line, p + 1)
  }

  function FirstSpace(line: string, p: nat): (f: nat)
    requires p <= |line|
    ensures p <= f <= |line| && (f < |line| ==> IsSpace(line[f]))
    ensures forall i | p <= i < f :: !IsSpace(line[i])
    decreases |line| - p
  {
    if p == |line| || IsSpace(line[p]) then p else FirstSpace(line, p + 1)
  }

  // The words of a line from a position on.
  function Words(line: string, p: nat): (words: seq<string>)
    requires p <= |line|
    decreases |line| - p
  {
    var first := FirstNotSpace(line, p);
    if first == |line| then []
    else
      var last := FirstSpace(line, first);
      [line[first..last]] + Words(line, last)
  }

  predicate AllSpaces(line: string) {
    forall c | c in line :: IsSpace(c)
  }

  // Words and a space behind the last one.
  predicate Trailing(line: string) {
    !AllSpaces(line) && IsSpace(line[|line| - 1])
  }

  predicate Solid(word: string) {
    word != "" && forall i | 0 <= i < |word| :: !IsSpace(word[i])
  }

  // Words with single spaces between them are found again.
  lemma WordsReadBack(words: seq<string>)
    requires |words| > 0 && forall w | w in words :: Solid(w)
    ensures Words(Join(words, ' '), 0) == words && !Trailing(Join(words, ' '))
  {
    hide Words, Trailing, Join;
    WordsFrom("", words);
    assert "" + Join(words, ' ') == Join(words, ' ');
  }

  lemma {:induction false} WordsFrom(before: string, words: seq<string>)
    requires |words| > 0 && forall w | w in words :: Solid(w)
    ensures Words(before + Join(words, ' '), |before|) == words && !Trailing(before + Join(words, ' '))
    decreases words
  {
    hide Words, Trailing, Solid;
    var w := words[0];
    if |words| == 1 {
      WordAt(before, w, "");
      assert before + w + "" == before + w;
      NoWords(before + w, |before + w|);
    } else {
      var rest := [' '] + Join(words[1..], ' ');
      var more := before + w + [' '];
      assert before + Join(words, ' ') == before + w + rest == more + Join(words[1..], ' ');
      WordAt(before, w, rest);
      WordsFrom(more, words[1..]);
      WordsSkip(before + w + rest, |before + w|);
    }
  }

  lemma WordAt(before: string, w: string, rest: string)
    requires Solid(w) && (rest != "" ==> IsSpace(rest[0]))
    ensures Words(before + w + rest, |before|) == [w] + Words(before + w + rest, |before + w|)
    ensures rest == "" ==> !Trailing(before + w + rest)
  {
    hide IsSpace;
    var line, first, last := before + w + rest, |before|, |before + w|;
    assert forall i | first <= i < last :: line[i] == w[i - first];
    assert last < |line| ==> line[last] == rest[0];
    assert line[first..last] == w;
    WordIn(line, first, last);
  }

  lemma WordIn(line: string, first: nat, last: nat)
    requires first < last <= |line| && forall i | first <= i < last :: !IsSpace(line[i])
    requires last < |line| ==> IsSpace(line[last])
    ensures Words(line, first) == [line[first..last]] + Words(line, last)
    ensures last == |line| ==> !Trailing(line)
  {
    hide IsSpace;
    assert FirstNotSpace(line, first) == first;
    assert FirstSpace(line, first) == last;
  }

  lemma NoWords(line: string, p: nat)
    requires p == |line|
    ensures Words(line, p) == []
  {
  }

  lemma WordsSkip(line: string, p: nat)
    requires p < |line| && IsSpace(line[p])
    ensures Words(line, p) == Words(line, p + 1)
  {
  }

  datatype HelpKey = HelpKey(file: string, chapter: nat)

  type Keys = map<string, HelpKey>

  // A key that is known already stays as it is.
  function InstallKey(keys: Keys, name: string, key: HelpKey): Keys {
    if name in keys then keys else keys[name := key]
  }

  function InstallAll(keys: Keys, names: seq<string>, key: HelpKey): Keys {
    if names == [] then keys
    else InstallKey(InstallAll(keys, names[..|names| - 1], key), names[|names| - 1], key)
  }

  function KeyNames(keywords: seq<string>): seq<string> {
    if keywords == [] then []
    else KeyNames(keywords[..|keywords| - 1]) + Words(keywords[|keywords| - 1], 0)
  }

  function Installed(keys: Keys, file: string, sections: seq<Section>): Keys {
    if sections == [] then keys
    else
      var n := |sections| - 1;
      InstallAll(Installed(keys, file, sections[..n]), KeyNames(sections[n].keywords), HelpKey(file, n + 1))
  }

  lemma {:induction false} InstallAllExactly(keys: Keys, names: seq<string>, key: HelpKey, name: string)
    ensures name in InstallAll(keys, names, key) <==> name in keys || name in names
    ensures name in InstallAll(keys, names, key) ==>
      InstallAll(keys, names, key)[name] == if name in keys then keys[name] else key
  {
    hide InstallAll;
    if names == [] {
      InstallNothing(keys, key);
    } else {
      var front, last := names[..|names| - 1], names[|names| - 1];
      assert names == front + [last];
      InstallAllExactly(keys, front, key, name);
      InstallOneMore(keys, front, last, key);
    }
  }

  // A new key leads to the first chapter that lists it.
  lemma {:induction false} KeyLeadsToFirst(keys: Keys, file: string, sections: seq<Section>, name: string)
    requires name !in keys
    ensures name in Installed(keys, file, sections) <==>
      exists i | 0 <= i < |sections| :: name in KeyNames(sections[i].keywords)
    ensures name in Installed(keys, file, sections) ==>
      var key := Installed(keys, file, sections)[name];
      key.file == file && 1 <= key.chapter <= |sections| && name in KeyNames(sections[key.chapter - 1].keywords) &&
      forall i | 0 <= i < key.chapter - 1 :: name !in KeyNames(sections[i].keywords)
  {
    hide KeyNames, InstallAll;
    if sections != [] {
      var n := |sections| - 1;
      KeyLeadsToFirst(keys, file, sections[..n], name);
      InstallAllExactly(Installed(keys, file, sections[..n]), KeyNames(sections[n].keywords), HelpKey(file, n + 1),
                        name);
    }
  }

  lemma {:induction false} KnownKeysStay(keys: Keys, file: string, sections: seq<Section>, name: string)
    requires name in keys
    ensures name in Installed(keys, file, sections) && Installed(keys, file, sections)[name] == keys[name]
  {
    hide KeyNames, InstallAll;
    if sections != [] {
      var n := |sections| - 1;
      KnownKeysStay(keys, file, sections[..n], name);
      InstallAllExactly(Installed(keys, file, sections[..n]), KeyNames(sections[n].keywords), HelpKey(file, n + 1),
                        name);
    }
  }

  lemma {:induction false} InstallMore(keys: Keys, names: seq<string>, more: seq<string>, key: HelpKey)
    ensures InstallAll(keys, names + more, key) == InstallAll(InstallAll(keys, names, key), more, key)
  {
    if more == [] {
      assert names + more == names;
    } else {
      var n := |more| - 1;
      InstallMore(keys, names, more[..n], key);
      assert (names + more)[..|names + more| - 1] == names + more[..n];
    }
  }

  // A header and a line of the body install nothing; a keyword line its words.
  lemma InstalledByFeed(keys: Keys, file: string, sections: seq<Section>, line: string)
    ensures
      Installed(keys, file, Feed(sections, line)) ==
      if sections != [] && StartsWith(line, KEYWORD_CHAR) && sections[|sections| - 1].body == []
      then InstallAll(Installed(keys, file, sections), Words(line[1..], 0), HelpKey(file, |sections|))
      else Installed(keys, file, sections)
  {
    hide Words, InstallAll;
    if StartsWith(line, CHAPTER_CHAR) {
      InstalledOneMore(keys, file, sections, Section(line[1..], [], []));
      InstallNone(Installed(keys, file, sections), HelpKey(file, |sections| + 1));
    } else if sections != [] {
      var n := |sections| - 1;
      var before, last := sections[..n], sections[n];
      assert sections == before + [last];
      InstalledOneMore(keys, file, before, last);
      if StartsWith(line, KEYWORD_CHAR) && last.body == [] {
        var more := last.keywords + [line[1..]];
        assert more[..|more| - 1] == last.keywords;
        InstalledOneMore(keys, file, before, last.(keywords := more));
        InstallMore(Installed(keys, file, before), KeyNames(last.keywords), Words(line[1..], 0), HelpKey(file, n + 1));
      } else {
        InstalledOneMore(keys, file, before, last.(body := last.body + [line]));
      }
    }
  }

  lemma InstalledOneMore(keys: Keys, file: string, before: seq<Section>, s: Section)
    ensures
      Installed(keys, file, before + [s]) ==
      InstallAll(Installed(keys, file, before), KeyNames(s.keywords), HelpKey(file, |before| + 1))
  {
    assert (before + [s])[..|before|] == before;
  }

  lemma InstallNone(keys: Keys, key: HelpKey)
    ensures InstallAll(keys, KeyNames([]), key) == keys
  {
  }

  // ------------------------------------------------------------ the stream

  // An input file stream: a position and the two error flags.
  class InFile {
    const data: string
    var pos: nat
    var eof: bool
    var fail: bool

    constructor (data: string)
      ensures this.data == data && pos == 0 && Good()
    {
      this.data := data;
      pos, eof, fail := 0, false, false;
    }

    ghost predicate Valid()
      reads this
    {
      pos <= |data|
    }

    predicate Good()
      reads this
    {
      !eof && !fail
    }

    // No operation below, but clearing the flags, leaves this state.
    ghost predicate Stuck()
      reads this
    {
      fail && !eof
    }

    // Without a character to read, the variable keeps its value.
    method Get(c: char) returns (d: char)
      requires Valid()
      modifies this
      ensures Valid() && (old(Stuck()) ==> Stuck())
      ensures old(Good()) && old(pos) < |data| ==> Good() && pos == old(pos) + 1 && d == data[old(pos)]
      ensures !(old(Good()) && old(pos) < |data|) ==>
        fail && eof == (old(eof) || !old(fail)) && pos == old(pos) && d == c
    {
      if !Good() {
        fail := true;
        return c;
      }
      if pos == |data| {
        eof, fail := true, true;
        return c;
      }
      d := data[pos];
      pos := pos + 1;
    }

    // A last line without a line break sets one flag, no line at all both.
    method GetLine(s: string) returns (line: string)
      requires Valid()
      modifies this
      ensures Valid() && (old(Stuck()) ==> Stuck())
      ensures !old(Good()) ==> fail && eof == old(eof) && pos == old(pos) && line == s
      ensures old(Good()) ==>
        line == Line(data, old(pos)) && pos == Next(data, old(pos)) &&
        eof == (LineEnd(data, old(pos)) == |data|) && fail == (old(pos) == |data|) &&
        if eof then pos == |data| else pos == LineEnd(data, old(pos)) + 1
    {
      if !Good() {
        fail := true;
        return s;
      }
      fail := pos == |data|;
      var e := LineEnd(data, pos);
      line := data[pos..e];
      eof := e == |data|;
      pos := if e < |data| then e + 1 else e;
    }

    method SeekTo(p: int)
      requires Valid()
      modifies this
      ensures Valid() && !eof && (old(fail) ==> fail)
      ensures !old(fail) && 0 <= p <= |data| ==> pos == p && !fail
      ensures old(fail) || !(0 <= p <= |data|) ==> fail && pos == old(pos)
    {
      eof := false;
      if !fail && 0 <= p <= |data| {
        pos := p;
      } else {
        fail := true;
      }
    }

    method SeekBack()
      requires Valid()
      modifies this
      ensures Valid() && !eof && (old(fail) ==> fail)
      ensures !old(fail) && old(pos) > 0 ==> pos == old(pos) - 1 && !fail
      ensures old(fail) || old(pos) == 0 ==> fail && pos == old(pos)
    {
      SeekTo(pos - 1);
    }

    method Tell() returns (p: int)
      requires Valid()
      modifies this`fail
      ensures p == if old(Good()) then pos else -1
      ensures fail == !old(Good())
    {
      if !Good() {
        fail := true;
        return -1;
      }
      return pos;
    }

    method Clear()
      modifies this`eof, this`fail
      ensures Good()
    {
      eof, fail := false, false;
    }
  }

  // ---------------------------------------------------------- the chapters

  datatype Chapter = Chapter(title: string, start: int, end: int)

  function TitleOf(header: string): string {
    if AllSpaces(header) then UNTITLED else header
  }

  // The chapter that a section becomes: its body by two offsets. Without a body
  // the end lies before the start.
  ghost predicate Delimits(data: string, c: Chapter, s: Section) {
    c.title == TitleOf(s.header) && 0 <= c.start < |data| &&
    (s.body == [] ==> c.end == c.start - 1) &&
    (s.body != [] ==>
      c.start <= c.end <= |data| && data[c.start..c.end] == Join(s.body, '\n') &&
      (c.end == |data| || data[c.end] == '\n'))
  }

  // The last chapter, while its lines are read up to position p.
  ghost predicate InProgress(data: string, c: Chapter, s: Section, p: nat) {
    Delimits(data, c, s) && p <= |data| &&
    (s.body == [] ==> c.start == p) &&
    (s.body != [] ==> p == if c.end < |data| then c.end + 1 else c.end)
  }

  lemma BodyGrows(data: string, c: Chapter, s: Section, p: nat)
    requires InProgress(data, c, s, p) && p < |data|
    ensures InProgress(data, c.(end := c.end + |Line(data, p)| + 1), s.(body := s.body + [Line(data, p)]),
                       Next(data, p))
  {
    var line := Line(data, p);
    if s.body == [] {
      assert s.body + [line] == [line];
    } else {
      var e := LineEnd(data, p);
      assert data[c.start..e] == data[c.start..c.end] + ['\n'] + data[p..e];
      JoinOneMore(s.body, line, '\n');
    }
  }

  // The lines read so far and the ones ahead are those of the file.
  ghost predicate At(data: string, from: nat, done: seq<string>, p: nat) {
    from <= |data| && p <= |data| && done + Lines(data, p) == Lines(data, from)
  }

  lemma Advance(data: string, from: nat, done: seq<string>, p: nat)
    requires At(data, from, done, p) && p < |data|
    ensures At(data, from, done + [Line(data, p)], Next(data, p))
    ensures Outline(done + [Line(data, p)]) == Feed(Outline(done), Line(data, p))
  {
    hide Outline, LineEnd, Next, Line, Feed;
    OutlineOneMore(done, Line(data, p));
    assert done + [Line(data, p)] + Lines(data, Next(data, p)) == done + ([Line(data, p)] + Lines(data, Next(data, p)));
  }

  // Reading a character and then the rest of its line.
  lemma RestOfLine(data: string, p: nat)
    requires p < |data| && data[p] != '\n'
    ensures Line(data, p) != "" && Line(data, p)[0] == data[p] && Line(data, p)[1..] == Line(data, p + 1)
    ensures LineEnd(data, p) == LineEnd(data, p + 1) && Next(data, p) == Next(data, p + 1)
  {
  }

  // Chapters found so far stand for the sections of the lines so far.
  ghost predicate Tracks(data: string, chapters: seq<Chapter>, sections: seq<Section>, p: nat) {
    |chapters| == |sections| &&
    (forall i | 0 <= i < |chapters| - 1 :: Delimits(data, chapters[i], sections[i])) &&
    (chapters != [] ==> InProgress(data, chapters[|chapters| - 1], sections[|sections| - 1], p))
  }

  ghost predicate Delimited(data: string, chapters: seq<Chapter>, sections: seq<Section>) {
    |chapters| == |sections| && forall i | 0 <= i < |chapters| :: Delimits(data, chapters[i], sections[i])
  }

  ghost predicate NoneTrailing(sections: seq<Section>) {
    forall i, k | 0 <= i < |sections| && k in sections[i].keywords :: !Trailing(k)
  }

  // What keeps the inspection from ever ending: a space behind the words of a
  // keyword line, or a last chapter without a body.
  ghost predicate Hangs(sections: seq<Section>) {
    !NoneTrailing(sections) || (sections != [] && sections[|sections| - 1].body == [])
  }

  lemma {:induction false} TrailingStays(lines: seq<string>, more: seq<string>)
    requires !NoneTrailing(Outline(lines))
    ensures !NoneTrailing(Outline(lines + more))
  {
    hide Outline, Trailing;
    if more == [] {
      assert lines + more == lines;
    } else {
      var n := |more| - 1;
      TrailingStays(lines, more[..n]);
      OutlineOneMore(lines + more[..n], more[n]);
      assert lines + more == lines + more[..n] + [more[n]];
      var before := Outline(lines + more[..n]);
      var i, k :| 0 <= i < |before| && k in before[i].keywords && Trailing(k);
      assert k in Feed(before, more[n])[i].keywords;
    }
  }

  datatype Inspection = NoTitle | Done | Endless

  class HelpText {
    const fileName: string
    const file: InFile
    var title: string
    var chapters: seq<Chapter>
    var keys: Keys  // the keys of the help manager, of this file and of others
    var selected: int
    var shown: Page

    constructor (fileName: string, data: string, keys: Keys)
      ensures this.fileName == fileName && fresh(file) && file.data == data && file.Valid() && file.Good()
      ensures chapters == [] && this.keys == keys && selected == 0
    {
      this.fileName := fileName;
      file := new InFile(data);
      title, chapters, selected, shown := "", [], 0, Page("", "");
      this.keys := keys;
    }

    method InstallHelpKey(name: string, chapterNo: nat)
      modifies this`keys
      ensures keys == InstallKey(old(keys), name, HelpKey(fileName, chapterNo))
    {
      if name in keys {
        return;
      }
      keys := keys[name := HelpKey(fileName, chapterNo)];
    }

    // The words of a keyword line become keys of the next chapter. Behind a
    // last space neither position changes any more, so the loop never ends.
    method InstallKeyLine(line: string) returns (endless: bool)
      modifies this`keys
      ensures keys == InstallAll(old(keys), Words(line, 0), HelpKey(fileName, |chapters| + 1))
      ensures endless <==> Trailing(line)
    {
      hide IsSpace, Words, InstallAll;
      if AllSpaces(line) {
        NoWordsInSpaces(line, HelpKey(fileName, |chapters| + 1), keys);
        return false;
      }
      ghost var names: seq<string> := [];
      ghost var key := HelpKey(fileName, |chapters| + 1);
      InstallNothing(keys, key);
      var first, last := 0, 0;
      while last != -1
        invariant -1 <= last < |line| && (last == -1 ==> !IsSpace(line[|line| - 1]))
        invariant names + Words(line, if last == -1 then |line| else last) == Words(line, 0)
        invariant keys == InstallAll(old(keys), names, key)
        decreases if last == -1 then 0 else |line| - last
      {
        WordsUnfold(line, last);
        first := FirstNotSpace(line, last);
        if first == |line| {
          assert names + [] == names;
          return true;
        }
        var end := FirstSpace(line, first);
        var keyName := line[first..end];
        InstallOneMore(old(keys), names, keyName, key);
        names := names + [keyName];
        InstallHelpKey(keyName, |chapters| + 1);
        last := if end == |line| then -1 else end;
      }
      WordsUnfold(line, |line|);
      assert names + [] == names;
      return false;
    }

    // Reads keyword lines as long as there are any; the first character of the
    // line at position p is read already.
    method InstallKeywords(first: char, buffer: string, ghost p: nat, ghost from: nat, ghost done: seq<string>,
                           ghost head: seq<string>, ghost known: Keys, ghost header: string)
      returns (endless: bool, ghost at: nat, ghost used: seq<string>)
      requires file.Valid() && |chapters| == |Outline(done)|
      requires Heading(file.data, from, done, head, p, fileName, known, keys, header)
      requires
        if file.Good() then p < |file.data| && file.pos == p + 1 && first == file.data[p]
        else file.fail && file.eof && file.pos == p == |file.data|
      modifies this`keys, file
      ensures file.Valid() && p <= at <= |file.data|
      ensures endless ==>
        HeadRead(file.data, from, done, used, file.pos) && !NoneTrailing(Outline(done + used)) && file.pos >= p
      ensures !endless ==> Heading(file.data, from, done, used, at, fileName, known, keys, header)
      ensures !endless ==>
        if file.Good() then at < |file.data| && file.pos == at + 1 && file.data[at] != KEYWORD_CHAR
        else file.fail && file.eof && file.pos == at == |file.data|
      ensures !endless && file.Good() ==> old(file.Good())
    {
      hide Outline, NoneTrailing, HeadRead, Next, LineEnd, Words, Trailing, AllSpaces, InstallAll, Heading;
      ghost var data := file.data;
      var c, line := first, buffer;
      at, used := p, head;
      while c == KEYWORD_CHAR && !file.eof
        invariant file.Valid() && p <= at <= |data|
        invariant Heading(data, from, done, used, at, fileName, known, keys, header)
        invariant
          if file.Good() then at < |data| && file.pos == at + 1 && c == data[at]
          else file.fail && file.eof && file.pos == at == |data|
        invariant file.Good() ==> old(file.Good())
        decreases |data| - at
      {
        KeywordIsRead(data, from, done, used, at, fileName, known, keys, header);
        RestOfLine(data, at);
        line := file.GetLine(line);
        used := used + [Line(data, at)];
        at := Next(data, at);
        if !AllSpaces(line) {
          var hung := InstallKeyLine(line);
          if hung {
            return true, at, used;
          }
        } else {
          NoWordsInSpaces(line, HelpKey(fileName, |chapters| + 1), keys);
        }
        c := file.Get(c);
      }
      return false, at, used;
    }

    // Reads a chapter behind its first character. The chapter is the next
    // section; without a line behind its header and keywords the stream fails.
    method InstallChapter(junk: char, ghost from: nat, ghost done: seq<string>, ghost known: Keys)
      returns (endless: bool, ghost used: seq<string>)
      requires file.Valid() && file.Good() && file.pos > 0 && file.data[file.pos - 1] == CHAPTER_CHAR
      requires At(file.data, from, done, file.pos - 1) && NoneTrailing(Outline(done))
      requires |chapters| == |Outline(done)| && keys == Installed(known, fileName, Outline(done))
      modifies this`keys, this`chapters, file
      ensures file.Valid() && file.pos >= old(file.pos) && HeadRead(file.data, from, done, used, file.pos)
      ensures endless <==> !NoneTrailing(Outline(done + used))
      ensures !endless ==> keys == Installed(known, fileName, Outline(done + used))
      ensures !endless ==> |chapters| == |old(chapters)| + 1 && chapters[..|old(chapters)|] == old(chapters)
      ensures !endless ==>
        if file.pos == |file.data| then file.Stuck() else file.Good() && file.data[file.pos] != KEYWORD_CHAR
      ensures !endless && file.Good() ==>
        chapters[|old(chapters)|].title == TitleOf(Outline(done + used)[|Outline(done)|].header)
    {
      hide Outline, Feed, Installed, NoneTrailing, HeadRead, At, Lines, Next, LineEnd, Words, Trailing, AllSpaces,
           InstallAll, StartsWith, Heading;
      ghost var data, at := file.data, file.pos - 1;
      HeaderIsRead(data, from, done, at, fileName, known);
      RestOfLine(data, at);
      var line := file.GetLine("");
      used := [Line(data, at)];
      ghost var header := line;
      at := Next(data, at);
      var name := if AllSpaces(line) || file.eof then UNTITLED else line;
      var c := file.Get(junk);
      if c == KEYWORD_CHAR {
        endless, at, used := InstallKeywords(c, line, at, from, done, used, known, header);
        if endless {
          return;
        }
        file.SeekBack();
      } else {
        file.SeekBack();
      }
      HeadingMeans(data, from, done, used, at, fileName, known, keys, header);
      chapters := chapters + [Chapter(name, 0, 0)];
      return false, used;
    }

    // The chapters and keys stand for the lines up to position p.
    ghost predicate Scanned(from: nat, done: seq<string>, known: Keys, p: nat)
      reads this
    {
      StandFor(file.data, fileName, chapters, keys, from, done, known, p)
    }

    method InspectChapter(junk: char, ghost from: nat, ghost done: seq<string>, ghost known: Keys)
      returns (endless: bool, ghost used: seq<string>)
      requires file.Valid() && file.Good() && file.pos > 0 && file.data[file.pos - 1] == CHAPTER_CHAR
      requires Scanned(from, done, known, file.pos - 1)
      modifies this`keys, this`chapters, file
      ensures file.Valid() && file.pos >= old(file.pos)
      ensures endless ==> from <= |file.data| && Hangs(Outline(Lines(file.data, from)))
      ensures !endless ==> file.Good() && Scanned(from, done + used, known, file.pos) && chapters != []
    {
      hide Outline, Feed, Installed, NoneTrailing, HeadRead, Lines, Delimits, At, TitleOf, Hangs;
      ghost var before, at := chapters, file.pos - 1;
      assert |chapters| == |Outline(done)|;
      endless, used := InstallChapter(junk, from, done, known);
      HeadMeans(file.data, from, done, used, file.pos);
      EndlessAt(file.data, from, done + used, file.pos);
      if endless {
        return;
      }
      var start := file.Tell();
      var end := file.Tell();
      chapters := chapters[|chapters| - 1 := chapters[|chapters| - 1].(start := start, end := -1 + end)];
      if file.fail {
        return true, used;
      }
      ChapterFound(file.data, before, Outline(done), at, Outline(done + used), file.pos, chapters);
    }

    method InspectBodyLine(buffer: string, chapter: bool, ghost from: nat, ghost done: seq<string>, ghost known: Keys)
      returns (line: string)
      requires file.Valid() && file.Good() && file.pos > 0 && file.data[file.pos - 1] != CHAPTER_CHAR
      requires Scanned(from, done, known, file.pos - 1) && (chapter <==> chapters != [])
      modifies this`chapters, file
      ensures file.Valid() && file.pos >= old(file.pos) && (file.Good() || (file.eof && file.pos == |file.data|))
      ensures Scanned(from, done + [line], known, file.pos) && (chapter <==> chapters != [])
    {
      hide StandFor;
      ghost var at, before := file.pos - 1, chapters;
      file.SeekBack();
      line := file.GetLine(buffer);
      if chapter {
        var last := chapters[|chapters| - 1];
        chapters := chapters[|chapters| - 1 := last.(end := last.end + |line| + 1)];
      }
      BodyLineIsRead(file.data, fileName, before, keys, from, done, known, at);
    }

    // Finds the chapters of the file. A stream that failed without reaching the
    // end stays stuck, and the loop reads on until the end: it never ends.
    method InspectHelpText(junk: char) returns (result: Inspection)
      requires file.Valid() && !file.fail && chapters == []
      modifies this, file
      ensures file.Valid()
      ensures file.data != "" ==> (result == NoTitle <==> file.data[0] != TITLE_CHAR)
      ensures file.data != "" && result != NoTitle ==>
        var sections := Outline(Lines(file.data, Next(file.data, 1)));
        title == TitleOf(Line(file.data, 1)) && (result == Endless <==> Hangs(sections)) &&
        (result == Done ==>
           file.eof && Delimited(file.data, chapters, sections) && keys == Installed(old(keys), fileName, sections))
    {
      hide Outline, Lines, Next, Line, LineEnd, Installed, Hangs, AllSpaces, TitleOf, Delimited, Scanned;
      file.SeekTo(0);
      if file.fail {
        return NoTitle;
      }
      var c := file.Get(junk);
      if c != TITLE_CHAR {
        return NoTitle;
      }
      title := file.GetLine(title);
      TitleIs(title);
      if AllSpaces(title) {
        title := UNTITLED;
      }
      ghost var from, done, known := file.pos, [], keys;
      StartOfFile(this, from);
      var line, chapter := "", false;
      while !file.eof
        invariant file.Valid() && (file.Good() || (file.eof && file.pos == |file.data|))
        invariant file.data != "" ==> title == TitleOf(Line(file.data, 1)) && from == Next(file.data, 1)
        invariant Scanned(from, done, known, file.pos) && (chapter <==> chapters != [])
        decreases |file.data| - file.pos, !file.eof
      {
        c := file.Get(c);
        if !file.eof {
          if c == CHAPTER_CHAR {
            var endless, used := InspectChapter(junk, from, done, known);
            if endless {
              return Endless;
            }
            chapter := true;
            done := done + used;
          } else {
            line := InspectBodyLine(line, chapter, from, done, known);
            done := done + [line];
          }
        }
      }
      EndOfFile(this, from, done, known);
      return Done;
    }

    // Reads lines until there are as many characters as the offsets demand; the
    // difference of the offsets is compared as an unsigned number.
    method ReadChapter(chapter: Chapter) returns (text: string)
      requires file.Valid() && file.Good() && file.pos == chapter.start && |file.data| < 0x8000_0000_0000_0000
      requires -0x8000_0000_0000_0000 <= chapter.end - chapter.start < 0x8000_0000_0000_0000
      modifies file
      ensures file.Valid() && !file.Stuck() && text == Loaded(file.data, chapter)
    {
      hide LineEnd, Loaded, Unsigned;
      UnsignedMeans(chapter.end - chapter.start);
      var len := chapter.end - chapter.start;
      ghost var data, start := file.data, chapter.start;
      ghost var line, e := start, LineEnd(data, start);
      text := file.GetLine("");
      var buffer := "";
      while Unsigned(len) > |text| && !file.eof
        invariant file.Valid() && start <= line <= e <= |data| && text == data[start..e]
        invariant '\n' !in data[line..e] && (e < |data| ==> data[e] == '\n')
        invariant if file.eof then e == |data| else file.Good() && e < |data| && file.pos == e + 1
        invariant line == start || len < 0 || chapter.end >= line
        decreases |data| - e, !file.eof
      {
        text := text + ['\n'];
        buffer := file.GetLine(buffer);
        text := text + buffer;
        LineIsAdded(data, start, e);
        line := e + 1;
        e := LineEnd(data, line);
      }
      EndsLine(data, chapter, line, e);
    }

    method LoadChapter(chapter: Chapter)
      requires file.Valid() && |file.data| < 0x8000_0000_0000_0000 && !file.Stuck()
      requires -0x8000_0000_0000_0000 <= chapter.end - chapter.start < 0x8000_0000_0000_0000
      modifies this`shown, file
      ensures file.Valid() && (0 <= chapter.start <= |file.data| ==> !file.Stuck())
      ensures shown ==
        if 0 <= chapter.start <= |file.data| then Page(chapter.title, Loaded(file.data, chapter)) else old(shown)
    {
      hide Loaded;
      if file.eof {
        file.Clear();
      }
      file.SeekTo(chapter.start);
      if file.fail {
        return;
      }
      var text := ReadChapter(chapter);
      shown := Page(chapter.title, text);
    }

    // The page on display is that of the selected chapter.
    ghost predicate Shows()
      reads this, file
    {
      file.Valid() && |file.data| < 0x8000_0000_0000_0000 && !file.Stuck() && 0 <= selected <= |chapters| &&
      (forall i | 0 <= i < |chapters| ::
         0 <= chapters[i].start <= |file.data| && -1 <= chapters[i].end - chapters[i].start <= |file.data|) &&
      (selected > 0 ==> shown == Page(chapters[selected - 1].title, Loaded(file.data, chapters[selected - 1])))
    }

    method NextChapter()
      requires Shows()
      modifies this`selected, this`shown, file
      ensures Shows() && selected == if old(selected) < |chapters| then old(selected) + 1 else old(selected)
    {
      if selected >= |chapters| {
        return;
      }
      selected := selected + 1;
      LoadChapter(chapters[selected - 1]);
    }

    method PreviousChapter()
      requires Shows()
      modifies this`selected, this`shown, file
      ensures Shows() && selected == if old(selected) >= 2 then old(selected) - 1 else old(selected)
    {
      if selected < 2 {
        return;
      }
      selected := selected - 1;
      LoadChapter(chapters[selected - 1]);
    }

    method HelpDialog(chapterNo: int)
      requires Shows()
      modifies this`selected, this`shown, file
      ensures Shows() && selected == if 1 <= chapterNo <= |chapters| then chapterNo else old(selected)
    {
      if chapterNo < 1 || chapterNo > |chapters| {
        return;
      }
      if chapterNo != selected {
        LoadChapter(chapters[chapterNo - 1]);
        selected := chapterNo;
      }
    }
  }

  datatype Page = Page(title: string, text: string)

  // A signed number of 64 bits, as it compares with a size.
  function Unsigned(n: int): nat
    requires -0x8000_0000_0000_0000 <= n < 0x8000_0000_0000_0000
  {
    if n < 0 then n + 0x1_0000_0000_0000_0000 else n
  }

  lemma UnsignedMeans(n: int)
    requires -0x8000_0000_0000_0000 <= n < 0x8000_0000_0000_0000
    ensures if n < 0 then Unsigned(n) >= 0x8000_0000_0000_0000 else Unsigned(n) == n
  {
  }

  // The text that offsets stand for: up to the end of the line that the last
  // offset lies in, or all that follows if it lies before the first.
  function Loaded(data: string, c: Chapter): string
    requires 0 <= c.start <= |data|
  {
    if c.start <= c.end <= |data| then data[c.start..LineEnd(data, c.end)] else data[c.start..]
  }

  lemma LineIsAdded(data: string, start: nat, e: nat)
    requires start <= e < |data| && data[e] == '\n'
    ensures data[start..e] + ['\n'] + Line(data, e + 1) == data[start..LineEnd(data, e + 1)]
  {
    hide LineEnd;
  }

  lemma {:induction false} EndOfLine(data: string, p: nat, e: nat)
    requires p <= e <= |data| && '\n' !in data[p..e] && (e < |data| ==> data[e] == '\n')
    ensures LineEnd(data, p) == e
    decreases e - p
  {
    if p < e {
      assert data[p] == data[p..e][0];
      assert data[p + 1..e] == data[p..e][1..];
      EndOfLine(data, p + 1, e);
    }
  }

  lemma EndsLine(data: string, c: Chapter, line: nat, e: nat)
    requires 0 <= c.start <= line <= e <= |data| && '\n' !in data[line..e] && (e < |data| ==> data[e] == '\n')
    requires line == c.start || c.end < c.start || c.end >= line
    requires c.end <= e || e == |data|
    requires c.end < c.start ==> e == |data|
    ensures data[c.start..e] == Loaded(data, c)
  {
    if c.start <= c.end <= |data| {
      assert data[c.end..e] == data[line..e][c.end - line..];
      EndOfLine(data, c.end, e);
    }
  }

  // The body of a section as it is shown.
  function BodyText(body: seq<string>): string {
    if body == [] then "" else Join(body, '\n')
  }

  // A chapter that inspection found shows its body exactly when there is one;
  // without a body it shows everything that follows.
  lemma LoadIsExact(data: string, c: Chapter, s: Section)
    requires Delimits(data, c, s)
    ensures Loaded(data, c) == BodyText(s.body) <==> s.body != []
    ensures s.body == [] ==> Loaded(data, c) == data[c.start..]
  {
    if s.body != [] {
      EndOfLine(data, c.end, c.end);
    }
  }

  // After an inspection that came to an end any page can be shown.
  lemma InspectedShows(h: HelpText, sections: seq<Section>)
    requires h.file.Valid() && h.file.eof && |h.file.data| < 0x8000_0000_0000_0000 && h.selected == 0
    requires Delimited(h.file.data, h.chapters, sections)
    ensures h.Shows()
  {
    hide LineEnd;
    forall i | 0 <= i < |h.chapters|
      ensures 0 <= h.chapters[i].start <= |h.file.data| &&
        -1 <= h.chapters[i].end - h.chapters[i].start <= |h.file.data|
    {
      assert Delimits(h.file.data, h.chapters[i], sections[i]);
    }
  }

  // The page on display is the selected section, exactly when it has a body.
  lemma PageIsSection(h: HelpText, sections: seq<Section>)
    requires h.Shows() && Delimited(h.file.data, h.chapters, sections) && h.selected > 0
    ensures
      var s := sections[h.selected - 1];
      h.shown == Page(TitleOf(s.header), BodyText(s.body)) <==> s.body != []
  {
    hide Loaded, BodyText;
    LoadIsExact(h.file.data, h.chapters[h.selected - 1], sections[h.selected - 1]);
  }

  lemma TitleIs(header: string)
    ensures TitleOf(header) == if AllSpaces(header) then UNTITLED else header
  {
  }

  ghost predicate StandFor(data: string, file: string, chapters: seq<Chapter>, keys: Keys,
                           from: nat, done: seq<string>, known: Keys, p: nat) {
    At(data, from, done, p) && Tracks(data, chapters, Outline(done), p) && NoneTrailing(Outline(done)) &&
    keys == Installed(known, file, Outline(done)) &&
    (chapters != [] && Outline(done)[|chapters| - 1].body == [] ==> p < |data| && data[p] != KEYWORD_CHAR)
  }

  function Extended(chapters: seq<Chapter>, line: string): seq<Chapter> {
    var n := |chapters| - 1;
    if chapters == [] then [] else chapters[n := chapters[n].(end := chapters[n].end + |line| + 1)]
  }

  lemma BodyLineIsRead(data: string, file: string, chapters: seq<Chapter>, keys: Keys,
                       from: nat, done: seq<string>, known: Keys, p: nat)
    requires StandFor(data, file, chapters, keys, from, done, known, p) && p < |data| && data[p] != CHAPTER_CHAR
    ensures StandFor(data, file, Extended(chapters, Line(data, p)), keys, from, done + [Line(data, p)], known,
                     Next(data, p))
  {
    hide Outline, Feed, Installed, NoneTrailing, InProgress, Delimits, At, StartsWith, Line;
    LineIsFed(data, chapters, Outline(done), p);
    Advance(data, from, done, p);
    InstalledByFeed(known, file, Outline(done), Line(data, p));
  }

  lemma StartOfFile(h: HelpText, from: nat)
    requires from <= |h.file.data| && h.chapters == []
    ensures h.Scanned(from, [], h.keys, from)
  {
    assert [] + Lines(h.file.data, from) == Lines(h.file.data, from);
  }

  lemma HeadMeans(data: string, from: nat, done: seq<string>, used: seq<string>, p: nat)
    requires HeadRead(data, from, done, used, p)
    ensures
      var before, sections := Outline(done), Outline(done + used);
      At(data, from, done + used, p) && |sections| == |before| + 1 && sections[..|before|] == before &&
      sections[|before|].body == []
  {
  }

  lemma ChapterFound(data: string, chapters: seq<Chapter>, before: seq<Section>, at: nat,
                     sections: seq<Section>, p: nat, more: seq<Chapter>)
    requires Tracks(data, chapters, before, at) && at < |data| && p < |data|
    requires |sections| == |before| + 1 && sections[..|before|] == before && sections[|before|].body == []
    requires |more| == |chapters| + 1 && more[..|chapters|] == chapters
    requires more[|chapters|] == Chapter(TitleOf(sections[|before|].header), p, p - 1)
    ensures Tracks(data, more, sections, p)
  {
    forall i | 0 <= i < |chapters| ensures Delimits(data, more[i], sections[i]) {
      assert more[i] == chapters[i] && sections[i] == before[i];
    }
  }

  // A line of a body, or one that is skipped.
  lemma LineIsFed(data: string, chapters: seq<Chapter>, sections: seq<Section>, p: nat)
    requires Tracks(data, chapters, sections, p) && p < |data| && data[p] != CHAPTER_CHAR
    requires sections != [] && sections[|sections| - 1].body == [] ==> data[p] != KEYWORD_CHAR
    ensures
      var n, line := |chapters| - 1, Line(data, p);
      var fed := Feed(sections, line);
      Tracks(data, Extended(chapters, line), fed, Next(data, p)) &&
      |fed| == |sections| && (fed != [] ==> fed[n].body != []) && (NoneTrailing(sections) ==> NoneTrailing(fed)) &&
      !(sections != [] && StartsWith(line, KEYWORD_CHAR) && sections[n].body == [])
  {
    hide InProgress, Delimits, Trailing;
    var line := Line(data, p);
    if data[p] != '\n' {
      RestOfLine(data, p);
    } else {
      assert line == "";
    }
    if chapters != [] {
      var n := |chapters| - 1;
      BodyGrows(data, chapters[n], sections[n], p);
      assert sections == sections[..n] + [sections[n]];
      FeedBody(sections[..n], sections[n], line);
    }
  }

  lemma EndOfFile(h: HelpText, from: nat, done: seq<string>, known: Keys)
    requires h.Scanned(from, done, known, |h.file.data|)
    ensures from <= |h.file.data| && done == Lines(h.file.data, from)
    ensures Delimited(h.file.data, h.chapters, Outline(done)) && !Hangs(Outline(done))
    ensures h.keys == Installed(known, h.fileName, Outline(done))
  {
    hide Outline, NoneTrailing, Installed;
    assert done + [] == done;
  }

  // Whatever follows, the inspection has met what keeps it from ending.
  lemma EndlessAt(data: string, from: nat, done: seq<string>, p: nat)
    requires At(data, from, done, p)
    ensures !NoneTrailing(Outline(done)) ==> Hangs(Outline(Lines(data, from)))
    ensures p == |data| && Outline(done) != [] && Outline(done)[|Outline(done)| - 1].body == [] ==>
      Hangs(Outline(Lines(data, from)))
  {
    hide Outline, NoneTrailing;
    if !NoneTrailing(Outline(done)) {
      TrailingStays(done, Lines(data, p));
    }
    if p == |data| {
      assert done + [] == done;
    }
  }

  // The lines of a header and of keywords that were read behind other lines.
  ghost predicate HeadRead(data: string, from: nat, done: seq<string>, used: seq<string>, p: nat) {
    var before, sections := Outline(done), Outline(done + used);
    At(data, from, done + used, p) && |sections| == |before| + 1 && sections[..|before|] == before &&
    sections[|before|].body == []
  }

  // A header and keyword lines were read, and the keys installed.
  ghost predicate Heading(data: string, from: nat, done: seq<string>, used: seq<string>, p: nat,
                          file: string, known: Keys, keys: Keys, header: string) {
    var n, sections := |Outline(done)|, Outline(done + used);
    HeadRead(data, from, done, used, p) && NoneTrailing(sections) && keys == Installed(known, file, sections) &&
    sections[n].header == header
  }

  lemma HeadingMeans(data: string, from: nat, done: seq<string>, used: seq<string>, p: nat,
                     file: string, known: Keys, keys: Keys, header: string)
    requires Heading(data, from, done, used, p, file, known, keys, header)
    ensures HeadRead(data, from, done, used, p) && NoneTrailing(Outline(done + used)) &&
      keys == Installed(known, file, Outline(done + used))
    ensures |Outline(done + used)| == |Outline(done)| + 1 && Outline(done + used)[|Outline(done)|].header == header
  {
  }

  lemma HeaderIsRead(data: string, from: nat, done: seq<string>, p: nat, file: string, known: Keys)
    requires At(data, from, done, p) && p < |data| && data[p] == CHAPTER_CHAR && NoneTrailing(Outline(done))
    ensures Heading(data, from, done, [Line(data, p)], Next(data, p), file, known,
                    Installed(known, file, Outline(done)), Line(data, p + 1))
  {
    hide Outline, Installed, At, Trailing;
    RestOfLine(data, p);
    Advance(data, from, done, p);
    InstalledByFeed(known, file, Outline(done), Line(data, p));
  }

  lemma KeywordIsRead(data: string, from: nat, done: seq<string>, used: seq<string>, p: nat,
                      file: string, known: Keys, keys: Keys, header: string)
    requires Heading(data, from, done, used, p, file, known, keys, header) && p < |data| && data[p] == KEYWORD_CHAR
    ensures HeadRead(data, from, done, used + [Line(data, p)], Next(data, p))
    ensures Trailing(Line(data, p + 1)) ==> !NoneTrailing(Outline(done + (used + [Line(data, p)])))
    ensures !Trailing(Line(data, p + 1)) ==>
      var more := InstallAll(keys, Words(Line(data, p + 1), 0), HelpKey(file, |Outline(done)| + 1));
      Heading(data, from, done, used + [Line(data, p)], Next(data, p), file, known, more, header)
  {
    hide Outline, Installed, At, Trailing, Words, InstallAll, NoneTrailing;
    RestOfLine(data, p);
    Advance(data, from, done + used, p);
    assert done + (used + [Line(data, p)]) == done + used + [Line(data, p)];
    InstalledByFeed(known, file, Outline(done + used), Line(data, p));
    OneMoreKeyword(Outline(done + used), Line(data, p));
  }

  lemma OneMoreKeyword(sections: seq<Section>, line: string)
    requires sections != [] && sections[|sections| - 1].body == [] && StartsWith(line, KEYWORD_CHAR)
    ensures NoneTrailing(sections) ==> (NoneTrailing(Feed(sections, line)) <==> !Trailing(line[1..]))
  {
    hide Trailing;
    var n := |sections| - 1;
    var more := Feed(sections, line);
    assert line[1..] in more[n].keywords;
    assert forall k | k in more[n].keywords :: k in sections[n].keywords || k == line[1..];
  }

  lemma NoWordsInSpaces(line: string, key: HelpKey, keys: Keys)
    requires AllSpaces(line)
    ensures InstallAll(keys, Words(line, 0), key) == keys && !Trailing(line)
  {
  }

  lemma WordsUnfold(line: string, p: nat)
    requires p <= |line|
    ensures
      var first := FirstNotSpace(line, p);
      if first == |line| then Words(line, p) == []
      else Words(line, p) == [line[first..FirstSpace(line, first)]] + Words(line, FirstSpace(line, first))
  {
  }

  lemma InstallNothing(keys: Keys, key: HelpKey)
    ensures InstallAll(keys, [], key) == keys
  {
  }

  lemma InstallOneMore(keys: Keys, names: seq<string>, name: string, key: HelpKey)
    ensures InstallAll(keys, names + [name], key) == InstallKey(InstallAll(keys, names, key), name, key)
  {
    assert (names + [name])[..|names|] == names;
  }
}
