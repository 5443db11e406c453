/** The parts of Go's strings and strconv packages that the other modules use. */
module Strings {
  import opened Results

  // ----- Split and Join

  /** strings.Split at a single character */
  function Split(s: string, c: char): (parts: seq<string>)
    ensures |parts| >= 1
  {
    if s == "" then [""]
    else
      var rest := Split(s[1..], c);
      if s[0] == c then [""] + rest else [[s[0]] + rest[0]] + rest[1..]
  }

  /** strings.Join with a single character */
  function Join(parts: seq<string>, c: char): string {
    if parts == [] then "" else if |parts| == 1 then parts[0] else parts[0] + [c] + Join(parts[1..], c)
  }

  lemma {:induction false} SplitPlain(s: string, c: char)
    requires c !in s
    ensures Split(s, c) == [s]
  {
    if s == "" {
    } else {
      SplitPlain(s[1..], c);
      assert [s[0]] + s[1..] == s;
    }
  }

  lemma SplitCons(x: char, s: string, c: char)
    ensures var rest := Split(s, c);
            Split([x] + s, c) == if x == c then [""] + rest else [[x] + rest[0]] + rest[1..]
  {
  }

  /** One more character in front keeps the segments behind the first one. */
  lemma SplitConcatStep(x: char, a: string, tail: string, c: char, b: string)
    requires Split(tail, c) == Split(a, c) + Split(b, c)
    ensures Split([x] + tail, c) == Split([x] + a, c) + Split(b, c)
  {
    hide Split;
    SplitCons(x, tail, c);
    SplitCons(x, a, c);
    assert (Split(a, c) + Split(b, c))[1..] == Split(a, c)[1..] + Split(b, c);
  }

  lemma {:induction false} SplitConcat(a: string, c: char, b: string)
    ensures Split(a + [c] + b, c) == Split(a, c) + Split(b, c)
  {
    if a == "" {
      SplitCons(c, b, c);
      assert a + [c] + b == [c] + b;
    } else {
      hide Split;
      SplitConcat(a[1..], c, b);
      SplitConcatStep(a[0], a[1..], a[1..] + [c] + b, c, b);
      assert a == [a[0]] + a[1..];
      assert a + [c] + b == [a[0]] + (a[1..] + [c] + b);
    }
  }

  lemma {:induction false} JoinSplit(s: string, c: char)
    ensures Join(Split(s, c), c) == s
  {
    if s == "" {
    } else {
      JoinSplit(s[1..], c);
      var rest := Split(s[1..], c);
      var parts := Split(s, c);
      if s[0] == c {
        assert parts[1..] == rest;
        assert Join(parts, c) == "" + [c] + Join(rest, c) == s;
      } else if |rest| == 1 {
        assert Join(parts, c) == [s[0]] + s[1..] == s;
      } else {
        assert parts[1..] == rest[1..];
        assert Join(parts, c) == [s[0]] + rest[0] + [c] + Join(rest[1..], c) == [s[0]] + Join(rest, c);
      }
    }
  }

  /** The segments of a split do not contain the separator. */
  lemma {:induction false} SplitSegments(s: string, c: char)
    ensures forall k :: 0 <= k < |Split(s, c)| ==> c !in Split(s, c)[k]
  {
    if s == "" {
    } else {
      SplitSegments(s[1..], c);
    }
  }

  lemma {:induction false} SplitJoin(parts: seq<string>, c: char)
    requires |parts| >= 1 && forall k :: 0 <= k < |parts| ==> c !in parts[k]
    ensures Split(Join(parts, c), c) == parts
  {
    SplitPlain(parts[0], c);
    if |parts| == 1 {
      assert parts == [parts[0]];
    } else {
      SplitJoin(parts[1..], c);
      SplitConcat(parts[0], c, Join(parts[1..], c));
      assert parts == [parts[0]] + parts[1..];
    }
  }

  /** What stands before and after the last separator. */
  lemma SplitAtLast(a: string, c: char, b: string)
    requires c !in b
    ensures var parts := Split(a + [c] + b, c);
            |parts| >= 2 && parts[|parts| - 1] == b && Join(parts[..|parts| - 1], c) == a
  {
    SplitConcat(a, c, b);
    SplitPlain(b, c);
    JoinSplit(a, c);
    assert (Split(a, c) + [b])[..|Split(a, c)|] == Split(a, c);
  }

  /** The last position of c among the first n characters, or -1. */
  function LastIndexUpTo(s: string, c: char, n: nat): (i: int)
    requires n <= |s|
    ensures -1 <= i < n
    ensures i >= 0 ==> s[i] == c
    ensures forall k :: i < k < n ==> s[k] != c
  {
    if n == 0 then -1 else if s[n - 1] == c then n - 1 else LastIndexUpTo(s, c, n - 1)
  }

  function LastIndex(s: string, c: char): (i: int)
    ensures -1 <= i < |s|
  {
    LastIndexUpTo(s, c, |s|)
  }

  lemma LastIndexSplits(s: string, c: char)
    ensures LastIndex(s, c) == -1 ==> c !in s
    ensures LastIndex(s, c) >= 0 ==>
              var i := LastIndex(s, c);
              c !in s[i + 1..] && s == s[..i] + [c] + s[i + 1..]
  {
  }

  // ----- Replacing and prefixes

  predicate HasPrefix(s: string, p: string) {
    |p| <= |s| && s[..|p|] == p
  }

  predicate HasSuffix(s: string, p: string) {
    |p| <= |s| && s[|s| - |p|..] == p
  }

  /** strings.Replace(s, old, new, 1) for a non-empty old */
  function ReplaceFirst(s: string, from: string, to: string): string
    requires from != ""
  {
    if HasPrefix(s, from) then to + s[|from|..]
    else if s == "" then ""
    else [s[0]] + ReplaceFirst(s[1..], from, to)
  }

  /** strings.ReplaceAll for a non-empty old */
  function ReplaceAll(s: string, from: string, to: string): string
    requires from != ""
  {
    if HasPrefix(s, from) then to + ReplaceAll(s[|from|..], from, to)
    else if s == "" then ""
    else [s[0]] + ReplaceAll(s[1..], from, to)
  }

  /** Replacing one character works on one character at a time. */
  lemma ReplaceAllCons(c: char, s: string, from: char, to: string)
    ensures ReplaceAll([c] + s, [from], to) == (if c == from then to else [c]) + ReplaceAll(s, [from], to)
  {
  }

  lemma {:induction false} ReplaceAllConcat(a: string, b: string, from: char, to: string)
    ensures ReplaceAll(a + b, [from], to) == ReplaceAll(a, [from], to) + ReplaceAll(b, [from], to)
  {
    if a == "" {
      assert a + b == b;
    } else {
      ReplaceAllConcat(a[1..], b, from, to);
      assert a + b == [a[0]] + (a[1..] + b) && a == [a[0]] + a[1..];
      ReplaceAllCons(a[0], a[1..] + b, from, to);
      ReplaceAllCons(a[0], a[1..], from, to);
    }
  }

  lemma {:induction false} ReplaceAllNone(s: string, from: char, to: string)
    requires from !in s
    ensures ReplaceAll(s, [from], to) == s
  {
    if s == "" {
    } else {
      ReplaceAllNone(s[1..], from, to);
      assert s[..1] == [s[0]] && [s[0]] + s[1..] == s;
    }
  }

  predicate Contains(s: string, p: string) {
    HasPrefix(s, p) || (s != "" && Contains(s[1..], p))
  }

  function TrimSuffix(s: string, p: string): string {
    if HasSuffix(s, p) then s[..|s| - |p|] else s
  }

  function TrimPrefix(s: string, p: string): string {
    if HasPrefix(s, p) then s[|p|..] else s
  }

  // ----- Numbers

  predicate IsDigit(c: char) {
    '0' <= c <= '9'
  }

  predicate AllDigits(s: string) {
    forall k :: 0 <= k < |s| ==> IsDigit(s[k])
  }

  function Decimal(n: nat): (s: string)
    ensures s != "" && AllDigits(s)
  {
    if n < 10 then [('0' as int + n) as char] else Decimal(n / 10) + [('0' as int + n % 10) as char]
  }

  function FormatInt(n: int): string {
    if n < 0 then "-" + Decimal(-n) else Decimal(n)
  }

  function Value(s: string): nat
    requires AllDigits(s)
  {
    if s == "" then 0 else 10 * Value(s[..|s| - 1]) + (s[|s| - 1] as int - '0' as int)
  }

  /** strconv.Atoi on ideal integers: digits after an optional sign. */
  function Atoi(s: string): Option<int> {
    var digits := if s != "" && (s[0] == '+' || s[0] == '-') then s[1..] else s;
    if digits == "" || !AllDigits(digits) then None
    else
      var value: int := Value(digits);
      Some(if s[0] == '-' then -value else value)
  }

  lemma {:induction false} ValueOfDecimal(n: nat)
    ensures Value(Decimal(n)) == n
  {
    if n < 10 {
    } else {
      ValueOfDecimal(n / 10);
      assert Decimal(n)[..|Decimal(n)| - 1] == Decimal(n / 10);
    }
  }

  /** Atoi reads back what was formatted. */
  lemma AtoiOfDecimal(n: nat)
    ensures Atoi(Decimal(n)) == Some(n)
  {
    ValueOfDecimal(n);
    assert IsDigit(Decimal(n)[0]);
  }
}
