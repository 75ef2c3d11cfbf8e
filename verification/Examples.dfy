// Single inputs with the results written out: they pin the names, marks and
// formats that the general properties take as given.

module Examples {
  import opened Text
  import opened Catalogue
  import opened Changelog
  import Versions
  import Help
  import Cycles
  import ReportGen

  lemma OneDigit(n: nat)
    requires n < 10
    ensures Str(n) == [DigitChar(n)]
  {
  }

  // Headers and lines of the four files.
  lemma ElementFormat()
    ensures ELEMENT_HEADER == "ID,BEAN_ID,BEAN_VERSION_ID,NAME"
    ensures ElementLine(ElementRow(1, "A")) == "1,id,version,A"
  {
    hide Str;
    OneDigit(1);
  }

  lemma ReferenceFormat()
    ensures REFERENCE_HEADER == "ELEMENT_TYPE_ID,REFERENCES_ID,REFERENCES_KEY"
    ensures ReferenceLine(ReferenceRow(1, "2", "k")) == "1,2,k"
  {
    hide Str;
    OneDigit(1);
  }

  lemma PropertyFormat()
    ensures PROPERTY_HEADER == "ID,NAME,TYPE,UNIT"
    ensures PropertyLine(PropertyRow(1, "p", "k", "u")) == "1,p,k,u"
  {
    hide Str;
    OneDigit(1);
  }

  lemma PairFormat()
    ensures PAIR_HEADER == "ELEMENT_TYPE_ID,PROPERTY_TYPES_ID"
    ensures PairLine(PairRow(1, 2)) == "1,2"
  {
    hide Str;
    OneDigit(1);
    OneDigit(2);
  }

  // The first version of all.
  lemma FirstVersion()
    ensures Versions.NextVersion([]) == Ok("v0001")
  {
    hide Versions.NextVersion;
    Versions.NextIsSuccessor([], 4);
    ZeroIs();
    OneFilled();
  }

  lemma ZeroIs()
    ensures Value("0000") == 0
  {
    Versions.ValueOfZeros(4, "");
    assert Versions.Zeros(4) + "" == "0000";
  }

  lemma OneFilled()
    ensures "v" + Versions.Padded(1, 4) == "v0001"
  {
  }

  // A chapter with a keyword and a line of text, and one without a title.
  lemma TwoChapters()
    ensures Help.Outline([".I", ":k", "t", "."]) == [Help.Section("I", ["k"], ["t"]), Help.Section("", [], [])]
    ensures Help.TitleOf("") == "<untitled>"
  {
    hide Help.Outline, Help.Feed;
    Help.OutlineOfNothing();
    Help.OutlineOneMore([], ".I");
    Help.OutlineOneMore([".I"], ":k");
    Help.OutlineOneMore([".I", ":k"], "t");
    Help.OutlineOneMore([".I", ":k", "t"], ".");
    assert [] + [".I"] == [".I"] && [".I"] + [":k"] == [".I", ":k"] && [".I", ":k"] + ["t"] == [".I", ":k", "t"];
    assert [".I", ":k", "t"] + ["."] == [".I", ":k", "t", "."];
    HeaderFed();
    KeywordFed();
    TextFed();
    LastFed();
  }

  lemma HeaderFed()
    ensures Help.Feed([], ".I") == [Help.Section("I", [], [])]
  {
    assert ".I"[1..] == "I";
  }

  lemma KeywordFed()
    ensures Help.Feed([Help.Section("I", [], [])], ":k") == [Help.Section("I", ["k"], [])]
  {
    Help.FeedKeyword([], Help.Section("I", [], []), ":k");
    assert ":k"[1..] == "k" && [] + ["k"] == ["k"];
  }

  lemma TextFed()
    ensures Help.Feed([Help.Section("I", ["k"], [])], "t") == [Help.Section("I", ["k"], ["t"])]
  {
    Help.FeedBody([], Help.Section("I", ["k"], []), "t");
    assert [] + ["t"] == ["t"];
  }

  lemma LastFed()
    ensures Help.Feed([Help.Section("I", ["k"], ["t"])], ".") ==
      [Help.Section("I", ["k"], ["t"]), Help.Section("", [], [])]
  {
    assert "."[1..] == "";
  }

  // Unwanted characters are replaced, and taken names give way.
  lemma PreviewNames()
    ensures ReportGen.Replaced("_.\\", 'Z') == "ZZ/"
    ensures ReportGen.Candidate("8", 1, "x") == "9.x" && ReportGen.Candidate("8", 2, "x") == "9a.x"
  {
    hide ReportGen.AppendExtension, ReportGen.Bumped;
    TakenNames();
    ReportGen.AppendWithoutDot("9", "x");
    ReportGen.AppendWithoutDot("9a", "x");
    assert "9" + "." + "x" == "9.x" && "9a" + "." + "x" == "9a.x";
  }

  lemma TakenNames()
    ensures ReportGen.Bumped("8", 1) == "9" && ReportGen.Bumped("8", 2) == "9a"
  {
    assert ReportGen.Bumped("8", 0) == "8";
    assert ReportGen.Bump("8") == "9" && ReportGen.Bump("9") == "9a";
    assert ReportGen.Bumped("8", 1) == "9";
  }

  // From the base cycle to one without a title, and back.
  lemma TwoCycles()
    ensures
      var (s, _) := Cycles.Step(Cycles.BASE, Cycles.NewCycle(""));
      s.current == 1 && |s.cycles| == 2 && s.cycles[0].name == "Base" && s.cycles[1].name == "<no name>" &&
      Cycles.Step(s, Cycles.FirstCycle) == (s.(current := 0), true)
  {
  }
}
