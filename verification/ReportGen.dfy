// The search for a preview file that does not exist yet.

module ReportGen {
  import opened Text

  const REPLACED := "_."

  function Lower(s: string): string {
    seq(|s|, i requires 0 <= i < |s| => if 'A' <= s[i] <= 'Z' then s[i] - 'A' + 'a' else s[i])
  }

  // A name keeps a short extension, or the same one; it gets the given one
  // otherwise.
  function AppendExtension(name: string, extension: string): string {
    var n := FindLast(name, '.');
    if extension == "" || '*' in extension then name
    else if n < 0 then name + "." + extension
    else
      var ext := name[n + 1..];
      if ext == "" then name + extension
      else if ext == extension || Lower(ext) == extension || |ext| < 6 then name
      else name + "." + extension
  }

  // Appending an extension without a dot once more changes nothing.
  lemma AppendTwice(name: string, extension: string)
    requires '.' !in extension
    ensures AppendExtension(AppendExtension(name, extension), extension) == AppendExtension(name, extension)
  {
    var once := AppendExtension(name, extension);
    if once != name {
      var n := |once| - |extension| - 1;
      assert once[n] == '.' && once[n + 1..] == extension;
      LastDotAt(once, n);
    }
  }

  lemma {:induction false} LastDotAt(name: string, n: nat)
    requires n < |name| && name[n] == '.' && forall i | n < i < |name| :: name[i] != '.'
    ensures FindLast(name, '.') == n
  {
    if n < |name| - 1 {
      LastDotAt(name[..|name| - 1], n);
    }
  }

  // Without dots, different names stay different.
  lemma AppendIsInjective(a: string, b: string, extension: string)
    requires '.' !in a && '.' !in b && AppendExtension(a, extension) == AppendExtension(b, extension)
    ensures a == b
  {
    hide AppendExtension;
    AppendWithoutDot(a, extension);
    AppendWithoutDot(b, extension);
    var x, y := a + "." + extension, b + "." + extension;
    if x == y {
      assert a == x[..|a|] && b == y[..|b|];
    }
  }

  lemma AppendWithoutDot(name: string, extension: string)
    requires '.' !in name
    ensures AppendExtension(name, extension) ==
      if extension == "" || '*' in extension then name else name + "." + extension
  {
  }

  // A name with a dot keeps an extension that is short or the given one, in capital
  // letters too; without any text behind its dot it gets the given one there.
  lemma AppendBehindDot(base: string, ext: string, extension: string)
    requires '.' !in ext && extension != "" && '*' !in extension
    ensures AppendExtension(base + "." + ext, extension) ==
      if ext == "" then base + "." + extension
      else if ext == extension || Lower(ext) == extension || |ext| <= 5 then base + "." + ext
      else base + "." + ext + "." + extension
  {
    var name := base + "." + ext;
    LastDotAt(name, |base|);
    assert name[|base| + 1..] == ext;
  }

  lemma LowerIs(s: string, i: nat)
    requires i < |s|
    ensures !('A' <= Lower(s)[i] <= 'Z')
    ensures if 'A' <= s[i] <= 'Z' then Lower(s)[i] as int == s[i] as int + 32 else Lower(s)[i] == s[i]
  {
  }

  // ------------------------------------------------------- the next name

  predicate Countable(c: char) {
    '0' <= c < '9' || 'a' <= c < 'z' || 'A' <= c < 'Z'
  }

  function Bump(name: string): (next: string)
    requires name != ""
    ensures next != "" && (CleanName(name) ==> CleanName(next))
  {
    var n := |name| - 1;
    if Countable(name[n]) then name[..n] + [name[n] + 1 as char] else name + ['a']
  }

  // From 0 the digits are run through, from a and A the letters, and behind the
  // last of them, as behind any other character, an a is added.
  lemma {:induction false} NamesRunOn(front: string, first: char, k: nat)
    requires (first == '0' && k <= 9) || ((first == 'a' || first == 'A') && k <= 25)
    ensures Bumped(front + [first], k) == front + [first + k as char]
  {
    if k > 0 {
      NamesRunOn(front, first, k - 1);
      var c := first + (k - 1) as char;
      assert (front + [c])[..|front|] == front;
      assert c + 1 as char == first + k as char;
    }
  }

  lemma LetterIsAdded(front: string, last: char)
    requires !('0' <= last <= '8') && !('a' <= last <= 'y') && !('A' <= last <= 'Y')
    ensures Bump(front + [last]) == front + [last, 'a']
  {
  }

  predicate CleanName(name: string) {
    forall i | 0 <= i < |name| :: name[i] !in REPLACED && name[i] != '\\'
  }

  // A longer name, or one of the same length with a greater last character.
  predicate Before(a: string, b: string) {
    |a| < |b| || (|a| == |b| > 0 && a[|a| - 1] < b[|a| - 1])
  }

  function Bumped(name: string, k: nat): (next: string)
    requires name != ""
    ensures next != "" && (CleanName(name) ==> CleanName(next))
  {
    if k == 0 then name else Bump(Bumped(name, k - 1))
  }

  lemma {:induction false} NamesGrow(name: string, i: nat, j: nat)
    requires name != "" && i < j
    ensures Before(Bumped(name, i), Bumped(name, j)) && |Bumped(name, i)| <= |Bumped(name, j)|
  {
    if i < j - 1 {
      NamesGrow(name, i, j - 1);
    }
  }

  function Candidate(name: string, k: nat, extension: string): string
    requires name != ""
  {
    AppendExtension(Bumped(name, k), extension)
  }

  lemma CandidatesDiffer(name: string, i: nat, j: nat, extension: string)
    requires name != "" && CleanName(name) && i < j
    ensures Candidate(name, i, extension) != Candidate(name, j, extension)
  {
    hide Bumped, AppendExtension;
    NamesGrow(name, i, j);
    if Candidate(name, i, extension) == Candidate(name, j, extension) {
      AppendIsInjective(Bumped(name, i), Bumped(name, j), extension);
    }
  }

  // So many different names exist only if there are so many files.
  lemma {:induction false} TakenNames(name: string, k: nat, extension: string, files: set<string>)
    requires name != "" && CleanName(name) && forall i | 0 <= i < k :: Candidate(name, i, extension) in files
    ensures k <= |files|
  {
    hide Candidate;
    if k > 0 {
      var last := Candidate(name, k - 1, extension);
      forall i | 0 <= i < k - 1 ensures Candidate(name, i, extension) in files - {last} {
        CandidatesDiffer(name, i, k - 1, extension);
      }
      TakenNames(name, k - 1, extension, files - {last});
    }
  }

  // The name with slashes for backslashes, and a letter for dots and underscores.
  function Replaced(name: string, letter: char): (clean: string)
    ensures |clean| == |name|
    ensures forall i | 0 <= i < |name| ::
      clean[i] == if name[i] == '\\' then '/' else if name[i] in REPLACED then letter else name[i]
  {
    seq(|name|, i requires 0 <= i < |name| =>
      if name[i] == '\\' then '/' else if name[i] in REPLACED then letter else name[i])
  }

  class ReportGen {
    var previewFile: string

    constructor (previewFile: string)
      ensures this.previewFile == previewFile
    {
      this.previewFile := previewFile;
    }

    // Replaces characters of the name in place.
    method Replace(these: string, letter: char)
      requires letter !in these
      modifies this
      ensures |previewFile| == |old(previewFile)|
      ensures forall i | 0 <= i < |previewFile| ::
        previewFile[i] == if old(previewFile)[i] in these then letter else old(previewFile)[i]
    {
      for p := 0 to |previewFile|
        invariant |previewFile| == |old(previewFile)|
        invariant forall i | 0 <= i < p ::
          previewFile[i] == if old(previewFile)[i] in these then letter else old(previewFile)[i]
        invariant forall i | p <= i < |previewFile| :: previewFile[i] == old(previewFile)[i]
      {
        if previewFile[p] in these {
          previewFile := previewFile[p := letter];
        }
      }
    }

    // Finds the first name in a row that no file has. The outer loop is left
    // after one round, and no more names are tried than there are files, and one.
    method ValidatePreviewFile(extension: string, files: set<string>) returns (tried: nat, rounds: nat)
      requires previewFile != ""
      modifies this
      ensures
        var clean := Replaced(old(previewFile), 'Z');
        1 <= tried <= |files| + 1 && rounds == 1 &&
        previewFile == Bumped(clean, tried - 1) && CleanName(previewFile) &&
        Candidate(clean, tried - 1, extension) !in files &&
        forall i | 0 <= i < tried - 1 :: Candidate(clean, i, extension) in files
    {
      hide Bumped, AppendExtension;
      Replace("\\", '/');
      var letter := 'Z';
      tried, rounds := 0, 0;
      ghost var clean := Replaced(previewFile, 'Z');
      assert clean == Replaced(old(previewFile), 'Z');
      var again := true;
      while again
        invariant again ==>
          rounds == 0 && tried == 0 && letter == 'Z' && previewFile != "" && '\\' !in previewFile &&
          clean == Replaced(previewFile, 'Z')
        invariant !again ==>
          rounds == 1 && 1 <= tried <= |files| + 1 && CleanName(clean) && previewFile == Bumped(clean, tried - 1) &&
          Candidate(clean, tried - 1, extension) !in files &&
          forall i | 0 <= i < tried - 1 :: Candidate(clean, i, extension) in files
        decreases again
      {
        Replace(REPLACED, letter);
        assert previewFile == clean;
        StartsClean(clean);
        rounds := rounds + 1;
        while AppendExtension(previewFile, extension) in files
          invariant previewFile == Bumped(clean, tried) && CleanName(clean)
          invariant forall i | 0 <= i < tried :: Candidate(clean, i, extension) in files
          invariant tried <= |files|
          decreases |files| - tried
        {
          BumpedOnce(clean, tried);
          var n := |previewFile| - 1;
          var c := previewFile[n];
          if Countable(c) {
            previewFile := previewFile[n := c + 1 as char];
          } else {
            previewFile := previewFile + ['a'];
          }
          tried := tried + 1;
          TakenNames(clean, tried, extension, files);
        }
        tried := tried + 1;
        letter := letter - 1 as char;
        again := letter > 'A' && AppendExtension(previewFile, extension) in files;
      }
    }
  }

  lemma StartsClean(name: string)
    requires name != "" && forall i | 0 <= i < |name| :: name[i] !in REPLACED && name[i] != '\\'
    ensures CleanName(name) && Bumped(name, 0) == name
  {
  }

  lemma BumpedOnce(name: string, k: nat)
    requires name != ""
    ensures Bumped(name, k + 1) == Bump(Bumped(name, k))
  {
  }
}
