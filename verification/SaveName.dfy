/** CreateNewSaveName and the search for a file name that is not taken. */
module SaveName {
  import opened Results
  import opened Strings

  /** Matches the regular expression ".*-\d" anywhere. */
  predicate HasDashDigit(s: string) {
    exists i :: 0 <= i < |s| - 1 && s[i] == '-' && IsDigit(s[i + 1])
  }

  /** The name without its extension, and the extension: both from the last dot. */
  function SplitExt(filename: string): (string, string) {
    if '.' in filename then
      var segments := Split(filename, '.');
      (Join(segments[..|segments| - 1], '.'), segments[|segments| - 1])
    else (filename, "")
  }

  /** The stem to be numbered and the number that it carries; None if it carries none. */
  function SplitNumber(nameOnly: string): (string, Option<int>) {
    if HasDashDigit(nameOnly) then
      var segments := Split(nameOnly, '-');
      match Atoi(segments[|segments| - 1])
      case Some(digit) => (Join(segments[..|segments| - 1], '-'), Some(digit))
      case None => (nameOnly, None)
    else (nameOnly, None)
  }

  function Suffix(ext: string): string {
    if ext == "" then "" else "." + ext
  }

  function CreateNewSaveName(filename: string): string {
    var (nameOnly, ext) := SplitExt(filename);
    var (stem, number) := SplitNumber(nameOnly);
    match number
    case Some(digit) => stem + "-" + FormatInt(digit + 1) + Suffix(ext)
    case None => nameOnly + "-1" + Suffix(ext)
  }

  /** The name after k further attempts. */
  function Attempt(filename: string, k: nat): string {
    if k == 0 then filename else CreateNewSaveName(Attempt(filename, k - 1))
  }

  // ----- Numbered names

  /** A stem with a number and an extension. */
  function Numbered(stem: string, n: nat, ext: string): string {
    stem + "-" + Decimal(n) + Suffix(ext)
  }

  /** The extension has no dot, and the stem has none either if there is no extension. */
  predicate IsPlain(stem: string, ext: string) {
    '.' !in ext && (ext == "" ==> '.' !in stem)
  }

  lemma SplitExtOf(nameOnly: string, ext: string)
    requires IsPlain(nameOnly, ext)
    ensures SplitExt(nameOnly + Suffix(ext)) == (nameOnly, ext)
  {
    if ext == "" {
      assert nameOnly + Suffix(ext) == nameOnly;
    } else {
      assert nameOnly + Suffix(ext) == nameOnly + ['.'] + ext;
      SplitAtLast(nameOnly, '.', ext);
    }
  }

  lemma NumberedHasDash(stem: string, n: nat)
    ensures HasDashDigit(stem + "-" + Decimal(n))
  {
    var name := stem + "-" + Decimal(n);
    assert name[|stem|] == '-' && name[|stem| + 1] == Decimal(n)[0];
  }

  lemma SplitNumberOf(stem: string, n: nat)
    ensures SplitNumber(stem + "-" + Decimal(n)) == (stem, Some(n))
  {
    hide Split, Join, Atoi, HasDashDigit;
    assert '-' !in Decimal(n);
    NumberedHasDash(stem, n);
    SplitAtLast(stem, '-', Decimal(n));
    AtoiOfDecimal(n);
    hide Decimal;
  }

  /** A numbered name is followed by the next number. */
  lemma NextNumber(stem: string, n: nat, ext: string)
    requires IsPlain(stem, ext)
    ensures CreateNewSaveName(Numbered(stem, n, ext)) == Numbered(stem, n + 1, ext)
  {
    var nameOnly := stem + "-" + Decimal(n);
    assert '.' !in Decimal(n);
    SplitExtOf(nameOnly, ext);
    SplitNumberOf(stem, n);
  }

  // ----- From any name

  predicate EndsWithDot(s: string) {
    s != "" && s[|s| - 1] == '.'
  }

  /** A name and the numbered names it leads to: the number it carries is n. */
  ghost predicate LeadsTo(filename: string, stem: string, n: nat, ext: string) {
    && IsPlain(stem, ext)
    && CreateNewSaveName(filename) == Numbered(stem, n + 1, ext)
    && (filename == stem + Suffix(ext) || exists raw :: Carries(filename, stem, raw, n, ext))
  }

  predicate Carries(filename: string, stem: string, raw: string, n: nat, ext: string) {
    filename == stem + "-" + raw + Suffix(ext) && Atoi(raw) == Some(n)
  }

  lemma SplitExtAtLast(a: string, b: string)
    requires '.' !in b
    ensures SplitExt(a + ['.'] + b) == (a, b)
  {
    hide Split, Join;
    SplitAtLast(a, '.', b);
    assert (a + ['.'] + b)[|a|] == '.';
  }

  lemma SplitExtParts(filename: string)
    requires !EndsWithDot(filename)
    ensures var (nameOnly, ext) := SplitExt(filename);
            filename == nameOnly + Suffix(ext) && IsPlain(nameOnly, ext)
  {
    var i := LastIndex(filename, '.');
    LastIndexSplits(filename, '.');
    if i >= 0 {
      var a, b := filename[..i], filename[i + 1..];
      SplitExtAtLast(a, b);
      hide SplitExt, LastIndex;
      assert b != "";
      assert filename == a + Suffix(b);
    } else {
      hide Split, Join, LastIndex;
      assert filename + "" == filename;
    }
  }

  lemma SplitNumberParts(nameOnly: string)
    ensures var (stem, number) := SplitNumber(nameOnly);
            match number
            case None => stem == nameOnly
            case Some(n) => n >= 0 && exists raw :: nameOnly == stem + "-" + raw && Atoi(raw) == Some(n)
  {
    if HasDashDigit(nameOnly) {
      var i := LastIndex(nameOnly, '-');
      LastIndexSplits(nameOnly, '-');
      var raw := nameOnly[i + 1..];
      SplitAtLast(nameOnly[..i], '-', raw);
      assert nameOnly == nameOnly[..i] + "-" + raw;
      assert '-' !in raw;
    }
  }

  lemma FirstNumber(nameOnly: string)
    ensures nameOnly + "-1" == nameOnly + "-" + Decimal(1)
  {
    assert Decimal(1) == "1" && "-" + Decimal(1) == "-1";
    assert nameOnly + ("-" + Decimal(1)) == nameOnly + "-" + Decimal(1);
  }

  lemma FormatIsDecimal(n: nat)
    ensures FormatInt(n) == Decimal(n)
  {
  }

  lemma FirstStep(filename: string) returns (stem: string, n: nat, ext: string)
    requires !EndsWithDot(filename)
    ensures LeadsTo(filename, stem, n, ext)
  {
    hide SplitExt, SplitNumber, Atoi, FormatInt;
    SplitExtParts(filename);
    var (nameOnly, e) := SplitExt(filename);
    SplitNumberParts(nameOnly);
    var (s, number) := SplitNumber(nameOnly);
    ext, stem := e, s;
    match number {
      case None =>
        n := 0;
        FirstNumber(nameOnly);
      case Some(digit) =>
        n := digit;
        FormatIsDecimal(n + 1);
        var raw :| nameOnly == stem + "-" + raw && Atoi(raw) == Some(digit);
        assert Carries(filename, stem, raw, n, ext);
        assert ext == "" ==> '.' !in stem;
    }
  }

  lemma {:induction false} AttemptsNumber(filename: string, stem: string, n: nat, ext: string, k: nat)
    requires LeadsTo(filename, stem, n, ext) && k >= 1
    ensures Attempt(filename, k) == Numbered(stem, n + k, ext)
  {
    hide CreateNewSaveName, Numbered, Carries, IsPlain, Suffix, Atoi;
    if k == 1 {
    } else {
      AttemptsNumber(filename, stem, n, ext, k - 1);
      NextNumber(stem, n + k - 1, ext);
    }
  }

  lemma DifferentNumbers(stem: string, raw: string, m: nat, n: nat, ext: string)
    requires Atoi(raw) == Some(m) && m != n
    ensures stem + "-" + raw + Suffix(ext) != Numbered(stem, n, ext)
  {
    var a, b := stem + "-" + raw + Suffix(ext), Numbered(stem, n, ext);
    if a == b {
      assert |raw| == |Decimal(n)|;
      assert a[|stem| + 1..|stem| + 1 + |raw|] == raw;
      assert b[|stem| + 1..|stem| + 1 + |raw|] == Decimal(n);
      AtoiOfDecimal(n);
    }
  }

  lemma DistinctFrom(filename: string, i: nat, j: nat)
    requires !EndsWithDot(filename) && i < j
    ensures Attempt(filename, i) != Attempt(filename, j)
  {
    hide CreateNewSaveName, Atoi, Decimal, IsPlain;
    var stem, n, ext := FirstStep(filename);
    AttemptsNumber(filename, stem, n, ext, j);
    if i > 0 {
      AttemptsNumber(filename, stem, n, ext, i);
      AtoiOfDecimal(n + i);
      DifferentNumbers(stem, Decimal(n + i), n + i, n + j, ext);
    } else if filename != stem + Suffix(ext) {
      var raw :| Carries(filename, stem, raw, n, ext);
      DifferentNumbers(stem, raw, n, n + j, ext);
    }
  }

  /** A new name never ends with a dot. */
  lemma NewNameEnds(filename: string)
    ensures !EndsWithDot(CreateNewSaveName(filename))
  {
    var (nameOnly, ext) := SplitExt(filename);
    SplitSegments(filename, '.');
    var (stem, number) := SplitNumber(nameOnly);
    if number.Some? && ext == "" {
      var digits := Decimal(if number.value + 1 < 0 then -(number.value + 1) else number.value + 1);
      assert IsDigit(digits[|digits| - 1]);
    }
  }

  lemma {:induction false} AttemptShift(filename: string, k: nat)
    ensures Attempt(filename, k + 1) == Attempt(CreateNewSaveName(filename), k)
  {
    if k == 0 {
    } else {
      AttemptShift(filename, k - 1);
    }
  }

  /** From any name, the attempts never repeat a name. */
  lemma NeverRepeats(filename: string, i: nat, j: nat)
    requires i < j
    ensures Attempt(filename, i) != Attempt(filename, j)
  {
    hide CreateNewSaveName;
    NewNameEnds(filename);
    if !EndsWithDot(filename) {
      DistinctFrom(filename, i, j);
    } else if i == 0 {
      NewNameEnds(Attempt(filename, j - 1));
    } else {
      AttemptShift(filename, i - 1);
      AttemptShift(filename, j - 1);
      DistinctFrom(CreateNewSaveName(filename), i - 1, j - 1);
    }
  }

  /** A name that ends with a dot and has another one is numbered in front of the other dot from
      the second attempt on. */
  lemma TwoRegimes()
    ensures Attempt("a.b.", 1) == "a.b-1" && Attempt("a.b.", 2) == "a-1.b-1"
  {
    hide CreateNewSaveName;
    PlainStep("a.b", "", "a.b.");
    PlainStep("a", "b-1", "a.b-1");
    assert Attempt("a.b.", 1) == CreateNewSaveName(Attempt("a.b.", 0)) == "a.b" + "-1" + "";
    assert Attempt("a.b.", 1) == "a.b-1";
    assert Attempt("a.b.", 2) == CreateNewSaveName(Attempt("a.b.", 1)) == "a" + "-1" + ("." + "b-1");
  }

  lemma PlainStep(nameOnly: string, ext: string, filename: string)
    requires filename == nameOnly + ['.'] + ext && '.' !in ext && '-' !in nameOnly
    ensures CreateNewSaveName(filename) == nameOnly + "-1" + Suffix(ext)
  {
    SplitAtLast(nameOnly, '.', ext);
    assert SplitExt(filename) == (nameOnly, ext);
    hide SplitExt;
  }

  lemma FirstAttempt(name: string)
    ensures Attempt(name, 0) == name
  {
  }

  lemma NextAttempt(name: string, k: nat)
    ensures Attempt(name, k + 1) == CreateNewSaveName(Attempt(name, k))
  {
  }

  /** The loop before a download: it ends on the first attempt that is not an existing file. */
  method FreeName(name: string, existing: set<string>) returns (filename: string, ghost attempts: nat)
    ensures filename == Attempt(name, attempts) && filename !in existing
    ensures forall k :: 0 <= k < attempts ==> Attempt(name, k) in existing
  {
    hide CreateNewSaveName, Attempt;
    FirstAttempt(name);
    filename, attempts := name, 0;
    ghost var tried: set<string> := {};
    while filename in existing
      invariant filename == Attempt(name, attempts) && tried <= existing
      invariant forall k :: 0 <= k < attempts ==> Attempt(name, k) in existing
      invariant forall x :: x in tried ==> exists k :: 0 <= k < attempts && x == Attempt(name, k)
      decreases |existing - tried|
    {
      forall k | 0 <= k < attempts
        ensures Attempt(name, k) != filename
      {
        NeverRepeats(name, k, attempts);
      }
      assert existing - (tried + {filename}) == (existing - tried) - {filename};
      tried := tried + {filename};
      NextAttempt(name, attempts);
      filename := CreateNewSaveName(filename);
      attempts := attempts + 1;
    }
  }
}
