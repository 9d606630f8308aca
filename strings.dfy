/** String operations of Python's `str` that the modelled code relies on:
    `replace`, `split` on one character, `join`, `strip`, `startswith`,
    ASCII `lower`, slicing with a possibly negative bound, decimal rendering. */
module Strings {

  /** `pat` occurs in `s` at index `i`. */
  predicate IsOccurrence(s: string, pat: string, i: int) {
    0 <= i && i + |pat| <= |s| && s[i..i + |pat|] == pat
  }

  /** Python's `pat in s` for strings. */
  predicate Contains(s: string, pat: string) {
    exists i :: 0 <= i <= |s| && IsOccurrence(s, pat, i)
  }

  predicate StartsWith(s: string, prefix: string) {
    |prefix| <= |s| && s[..|prefix|] == prefix
  }

  /** Python's `s.replace(pat, rep)` for a non-empty `pat`: scan left to right,
      replace each occurrence and resume after it. */
  function ReplaceAll(s: string, pat: string, rep: string): string
    requires pat != []
    decreases |s|
  {
    if |s| < |pat| then s
    else if s[..|pat|] == pat then rep + ReplaceAll(s[|pat|..], pat, rep)
    else [s[0]] + ReplaceAll(s[1..], pat, rep)
  }

  /** Occurrences in the tail of `s` are the occurrences in `s`, shifted by one. */
  lemma OccurrenceInTail(s: string, pat: string, j: int)
    requires s != []
    ensures IsOccurrence(s[1..], pat, j) <==> j >= 0 && IsOccurrence(s, pat, j + 1)
  {
    if 0 <= j && j + |pat| <= |s| - 1 {
      assert s[1..][j..j + |pat|] == s[j + 1..j + 1 + |pat|];
    }
  }

  /** Where no occurrence starts at the head, the head is copied. */
  lemma ReplaceAllSkip(s: string, pat: string, rep: string)
    requires pat != [] && s != [] && !IsOccurrence(s, pat, 0)
    ensures ReplaceAll(s, pat, rep) == [s[0]] + ReplaceAll(s[1..], pat, rep)
  {
  }

  /** Replacing a pattern that does not occur changes nothing. */
  lemma {:induction false} ReplaceAllAbsent(s: string, pat: string, rep: string)
    requires pat != [] && !Contains(s, pat)
    ensures ReplaceAll(s, pat, rep) == s
    decreases |s|
  {
    if |s| >= |pat| {
      assert !IsOccurrence(s, pat, 0);
      forall i | 0 <= i <= |s[1..]| ensures !IsOccurrence(s[1..], pat, i) {
        OccurrenceInTail(s, pat, i);
      }
      ReplaceAllAbsent(s[1..], pat, rep);
    }
  }

  /** An occurrence at the head is replaced and scanning resumes after it. */
  lemma ReplaceAllAtHead(s: string, pat: string, rep: string)
    requires pat != [] && IsOccurrence(s, pat, 0)
    ensures ReplaceAll(s, pat, rep) == rep + ReplaceAll(s[|pat|..], pat, rep)
  {
  }

  /** An occurrence in a suffix of `s` is an occurrence in `s`, shifted. */
  lemma OccurrenceInSuffix(s: string, pat: string, k: nat)
    requires k <= |s|
    ensures IsOccurrence(s[k..], pat, 0) <==> IsOccurrence(s, pat, k)
  {
    if k + |pat| <= |s| {
      assert s[k..][..|pat|] == s[k..k + |pat|];
    }
  }

  lemma ConcatAssoc<T>(a: seq<T>, b: seq<T>, c: seq<T>)
    ensures a + (b + c) == a + b + c
  {
  }

  /** One more copied character: no occurrence starts at `k - 1`. */
  lemma ReplaceAllPrefixStep(s: string, pat: string, rep: string, k: nat)
    requires pat != [] && 0 < k <= |s| && !IsOccurrence(s, pat, k - 1)
    requires ReplaceAll(s, pat, rep) == s[..k - 1] + ReplaceAll(s[k - 1..], pat, rep)
    ensures ReplaceAll(s, pat, rep) == s[..k] + ReplaceAll(s[k..], pat, rep)
  {
    var u := s[k - 1..];
    var tail := ReplaceAll(s[k..], pat, rep);
    assert ReplaceAll(u, pat, rep) == [s[k - 1]] + tail by {
      OccurrenceInSuffix(s, pat, k - 1);
      ReplaceAllSkip(u, pat, rep);
      assert u[1..] == s[k..];
    }
    ConcatAssoc(s[..k - 1], [s[k - 1]], tail);
    assert s[..k - 1] + [s[k - 1]] == s[..k];
  }

  /** Where no occurrence starts before `k`, the first `k` characters are
      copied unchanged. */
  lemma {:induction false} ReplaceAllPrefix(s: string, pat: string, rep: string, k: nat)
    requires pat != [] && k <= |s|
    requires forall j :: 0 <= j < k ==> !IsOccurrence(s, pat, j)
    ensures ReplaceAll(s, pat, rep) == s[..k] + ReplaceAll(s[k..], pat, rep)
  {
    if k == 0 {
      assert s[..k] == [] && s[k..] == s;
    } else {
      ReplaceAllPrefix(s, pat, rep, k - 1);
      ReplaceAllPrefixStep(s, pat, rep, k);
    }
  }

  /** The leftmost occurrence is replaced and scanning resumes after it: with
      `ReplaceAllAbsent` this pins down `ReplaceAll` completely. */
  lemma ReplaceAllAtFirst(s: string, pat: string, rep: string, i: nat)
    requires pat != [] && IsOccurrence(s, pat, i)
    requires forall j :: 0 <= j < i ==> !IsOccurrence(s, pat, j)
    ensures ReplaceAll(s, pat, rep) == s[..i] + rep + ReplaceAll(s[i + |pat|..], pat, rep)
  {
    ReplaceAllPrefix(s, pat, rep, i);
    var u := s[i..];
    ConcatAssoc(s[..i], rep, ReplaceAll(s[i + |pat|..], pat, rep));
    assert ReplaceAll(u, pat, rep) == rep + ReplaceAll(s[i + |pat|..], pat, rep) by {
      OccurrenceInSuffix(s, pat, i);
      ReplaceAllAtHead(u, pat, rep);
      assert u[|pat|..] == s[i + |pat|..];
    }
  }

  /** Python's `s.split(sep)` for a one-character separator: always at least
      one part, and no part contains the separator. */
  function Split(s: string, sep: char): (parts: seq<string>)
    ensures |parts| >= 1
    ensures forall k :: 0 <= k < |parts| ==> sep !in parts[k]
    decreases |s|
  {
    if s == [] then [""]
    else
      var rest := Split(s[1..], sep);
      if s[0] == sep then [""] + rest
      else [[s[0]] + rest[0]] + rest[1..]
  }

  /** Python's `sep.join(parts)`. */
  function Join(parts: seq<string>, sep: string): string
    decreases |parts|
  {
    if |parts| == 0 then ""
    else if |parts| == 1 then parts[0]
    else parts[0] + sep + Join(parts[1..], sep)
  }

  lemma JoinCons(x: string, parts: seq<string>, sep: string)
    requires |parts| >= 1
    ensures Join([x] + parts, sep) == x + sep + Join(parts, sep)
  {
    assert ([x] + parts)[1..] == parts;
  }

  /** Joining two non-empty lists puts one separator between them. */
  lemma {:induction false} JoinAppend(a: seq<string>, b: seq<string>, sep: string)
    requires |a| >= 1 && |b| >= 1
    ensures Join(a + b, sep) == Join(a, sep) + sep + Join(b, sep)
    decreases |a|
  {
    if |a| == 1 {
      JoinCons(a[0], b, sep);
      assert a + b == [a[0]] + b;
    } else {
      var x, r := a[0], a[1..];
      assert a == [x] + r && a + b == [x] + (r + b);
      calc {
        Join(a + b, sep);
        { JoinCons(x, r + b, sep); }
        x + sep + Join(r + b, sep);
        { JoinAppend(r, b, sep); }
        x + sep + (Join(r, sep) + sep + Join(b, sep));
        (x + sep + Join(r, sep)) + sep + Join(b, sep);
        { JoinCons(x, r, sep); }
        Join(a, sep) + sep + Join(b, sep);
      }
    }
  }

  /** Splitting and re-joining with the same separator gives back the string. */
  lemma {:induction false} JoinSplit(s: string, c: char)
    ensures Join(Split(s, c), [c]) == s
    decreases |s|
  {
    if s != [] {
      var rest := Split(s[1..], c);
      JoinSplit(s[1..], c);
      if s[0] == c {
        JoinCons("", rest, [c]);
      } else if |rest| >= 2 {
        JoinCons([s[0]] + rest[0], rest[1..], [c]);
        JoinCons(rest[0], rest[1..], [c]);
        assert rest == [rest[0]] + rest[1..];
      }
    }
  }

  /** A string without the separator splits into itself. */
  lemma {:induction false} SplitNoSep(s: string, c: char)
    requires c !in s
    ensures Split(s, c) == [s]
    decreases |s|
  {
    if s != [] {
      assert s[0] in s;
      SplitNoSep(s[1..], c);
      assert [s[0]] + s[1..] == s;
    }
  }

  /** The separator cuts: splitting `a + [c] + b` splits `a` and `b` apart. */
  lemma {:induction false} SplitConcat(a: string, b: string, c: char)
    ensures Split(a + [c] + b, c) == Split(a, c) + Split(b, c)
    decreases |a|
  {
    var s := a + [c] + b;
    if a == [] {
      assert s[1..] == b;
    } else {
      assert s[0] == a[0] && s[1..] == a[1..] + [c] + b;
      SplitConcat(a[1..], b, c);
      var p, q := Split(a[1..], c), Split(b, c);
      if a[0] == c {
        ConcatAssoc([""], p, q);
      } else {
        assert (p + q)[0] == p[0] && (p + q)[1..] == p[1..] + q;
        ConcatAssoc([[a[0]] + p[0]], p[1..], q);
      }
    }
  }

  /** Splitting a join of separator-free parts gives back the parts. */
  lemma {:induction false} SplitJoin(parts: seq<string>, c: char)
    requires |parts| >= 1
    requires forall k :: 0 <= k < |parts| ==> c !in parts[k]
    ensures Split(Join(parts, [c]), c) == parts
    decreases |parts|
  {
    if |parts| == 1 {
      SplitNoSep(parts[0], c);
    } else {
      SplitJoin(parts[1..], c);
      SplitNoSep(parts[0], c);
      SplitConcat(parts[0], Join(parts[1..], [c]), c);
    }
  }

  /** `s` has two adjacent copies of `c`. */
  predicate HasAdjacent(s: string, c: char) {
    exists i :: 0 <= i < |s| - 1 && s[i] == c && s[i + 1] == c
  }

  /** The first part is empty exactly when `s` is empty or starts with `c`. */
  lemma SplitFirstEmpty(s: string, c: char)
    ensures Split(s, c)[0] == "" <==> s == [] || s[0] == c
  {
  }

  /** A part after the first is empty exactly when `s` ends with `c` or has `c` twice in a row. */
  lemma {:induction false} SplitLaterEmpty(s: string, c: char)
    ensures "" in Split(s, c)[1..] <==> (s != [] && s[|s| - 1] == c) || HasAdjacent(s, c)
    decreases |s|
  {
    if s != [] {
      var t := s[1..];
      SplitLaterEmpty(t, c);
      SplitFirstEmpty(t, c);
      HasAdjacentCons(s, c);
      var rest := Split(t, c);
      if s[0] == c {
        assert Split(s, c)[1..] == rest;
        assert rest == [rest[0]] + rest[1..];
      } else {
        assert Split(s, c)[1..] == rest[1..];
      }
    }
  }

  /** A pair of adjacent `c`s is at the front or in the tail. */
  lemma HasAdjacentCons(s: string, c: char)
    requires s != []
    ensures HasAdjacent(s, c) <==> (|s| >= 2 && s[0] == c && s[1] == c) || HasAdjacent(s[1..], c)
  {
    var t := s[1..];
    if HasAdjacent(s, c) {
      var i :| 0 <= i < |s| - 1 && s[i] == c && s[i + 1] == c;
      if i > 0 {
        assert t[i - 1] == c && t[i] == c;
      }
    }
    if HasAdjacent(t, c) {
      var i :| 0 <= i < |t| - 1 && t[i] == c && t[i + 1] == c;
      assert s[i + 1] == c && s[i + 2] == c;
    }
  }

  /** Some part of `s.split(c)` is empty exactly when `s` is empty, starts or
      ends with `c`, or has `c` twice in a row. */
  lemma SplitHasEmptyPart(s: string, c: char)
    ensures "" in Split(s, c) <==>
      s == [] || s[0] == c || s[|s| - 1] == c || HasAdjacent(s, c)
  {
    var parts := Split(s, c);
    assert parts == [parts[0]] + parts[1..];
    SplitFirstEmpty(s, c);
    SplitLaterEmpty(s, c);
  }

  /** A separator at the head of `s` becomes `rep` in front of the rest. */
  lemma ReplaceCharSepHead(s: string, c: char, rep: string)
    requires s != [] && s[0] == c
    requires ReplaceAll(s[1..], [c], rep) == Join(Split(s[1..], c), rep)
    ensures ReplaceAll(s, [c], rep) == Join(Split(s, c), rep)
  {
    var rest := Split(s[1..], c);
    assert ReplaceAll(s, [c], rep) == rep + ReplaceAll(s[1..], [c], rep) by {
      assert s[..1] == [c];
    }
    assert Split(s, c) == [""] + rest;
    JoinCons("", rest, rep);
  }

  /** Any other character at the head of `s` is copied to the front of the
      first part. */
  lemma ReplaceCharOtherHead(s: string, c: char, rep: string)
    requires s != [] && s[0] != c
    requires ReplaceAll(s[1..], [c], rep) == Join(Split(s[1..], c), rep)
    ensures ReplaceAll(s, [c], rep) == Join(Split(s, c), rep)
  {
    var rest := Split(s[1..], c);
    assert ReplaceAll(s, [c], rep) == [s[0]] + ReplaceAll(s[1..], [c], rep) by {
      assert s[..1] != [c];
    }
    var first := [s[0]] + rest[0];
    assert Split(s, c) == [first] + rest[1..];
    if |rest| >= 2 {
      JoinCons(first, rest[1..], rep);
      assert Join(rest, rep) == rest[0] + rep + Join(rest[1..], rep) by {
        JoinCons(rest[0], rest[1..], rep);
        assert rest == [rest[0]] + rest[1..];
      }
    } else {
      assert Split(s, c) == [first];
    }
  }

  /** Replacing a single character equals splitting on it and joining with the replacement. */
  lemma {:induction false} ReplaceCharIsSplitJoin(s: string, c: char, rep: string)
    ensures ReplaceAll(s, [c], rep) == Join(Split(s, c), rep)
    decreases |s|
  {
    if s != [] {
      ReplaceCharIsSplitJoin(s[1..], c, rep);
      if s[0] == c {
        ReplaceCharSepHead(s, c, rep);
      } else {
        ReplaceCharOtherHead(s, c, rep);
      }
    }
  }

  /** A join contains `c` only if a part or the separator does. */
  lemma {:induction false} JoinExcludes(parts: seq<string>, sep: string, c: char)
    requires c !in sep
    requires forall k :: 0 <= k < |parts| ==> c !in parts[k]
    ensures c !in Join(parts, sep)
    decreases |parts|
  {
    if |parts| >= 2 {
      JoinExcludes(parts[1..], sep, c);
    }
  }

  /** After replacing every `c` by a text without `c`, no `c` remains. */
  lemma ReplaceCharRemoves(s: string, c: char, rep: string)
    requires c !in rep
    ensures c !in ReplaceAll(s, [c], rep)
  {
    ReplaceCharIsSplitJoin(s, c, rep);
    JoinExcludes(Split(s, c), rep, c);
  }

  /** Replacing one character by another keeps the length. */
  lemma {:induction false} ReplaceCharLength(s: string, c: char, d: char)
    ensures |ReplaceAll(s, [c], [d])| == |s|
    decreases |s|
  {
    if s != [] {
      ReplaceCharLength(s[1..], c, d);
    }
  }

  /** Python's whitespace (`str.isspace`, `\s` in a `str` regex, the default of `strip`). */
  predicate IsSpace(ch: char) {
    ch == ' ' || '\t' <= ch <= '\r' || '\U{1C}' <= ch <= '\U{1F}'
    || ch == '\U{85}' || ch == '\U{A0}' || ch == '\U{1680}'
    || '\U{2000}' <= ch <= '\U{200A}' || ch == '\U{2028}' || ch == '\U{2029}'
    || ch == '\U{202F}' || ch == '\U{205F}' || ch == '\U{3000}'
  }

  /** Python's `s.strip()`: the longest slice without surrounding whitespace. */
  function Strip(s: string): (r: string)
    ensures r == [] || (!IsSpace(r[0]) && !IsSpace(r[|r| - 1]))
    ensures |r| <= |s|
  {
    RStrip(LStrip(s))
  }

  /** A string that neither starts nor ends with whitespace is its own strip. */
  lemma StripOfTrimmed(s: string)
    requires s != [] && !IsSpace(s[0]) && !IsSpace(s[|s| - 1])
    ensures Strip(s) == s
  {
  }

  /** A string of whitespace only strips to nothing. */
  lemma StripOfSpaces(s: string)
    requires forall k :: 0 <= k < |s| ==> IsSpace(s[k])
    ensures Strip(s) == []
  {
  }

  function LStrip(s: string): (r: string)
    ensures r == [] || !IsSpace(r[0])
    ensures |r| <= |s| && r == s[|s| - |r|..]
    ensures forall k :: 0 <= k < |s| - |r| ==> IsSpace(s[k])
    decreases |s|
  {
    if s != [] && IsSpace(s[0]) then LStrip(s[1..]) else s
  }

  function RStrip(s: string): (r: string)
    ensures r == [] || !IsSpace(r[|r| - 1])
    ensures |r| <= |s| && r == s[..|r|]
    ensures forall k :: |r| <= k < |s| ==> IsSpace(s[k])
    decreases |s|
  {
    if s != [] && IsSpace(s[|s| - 1]) then RStrip(s[..|s| - 1]) else s
  }

  /** Python's `s.rstrip(c)` for one character `c`. */
  function RStripChar(s: string, c: char): (r: string)
    ensures r == [] || r[|r| - 1] != c
    ensures |r| <= |s| && r == s[..|r|]
    ensures forall k :: |r| <= k < |s| ==> s[k] == c
    decreases |s|
  {
    if s != [] && s[|s| - 1] == c then RStripChar(s[..|s| - 1], c) else s
  }

  /** Python's `s[:n]`: a negative `n` counts from the end. */
  function SliceTo(s: string, n: int): (r: string)
    ensures |r| <= |s| && r == s[..|r|]
    ensures n >= 0 ==> |r| == if n < |s| then n else |s|
    ensures n < 0 ==> |r| == if -n < |s| then |s| + n else 0
  {
    if n >= 0 then (if n < |s| then s[..n] else s)
    else (if -n < |s| then s[..|s| + n] else [])
  }

  function LowerChar(ch: char): char {
    if 'A' <= ch <= 'Z' then (ch as int + 32) as char else ch
  }

  /** `s.lower()`, restricted to ASCII letters. */
  function Lower(s: string): (r: string)
    ensures |r| == |s|
  {
    seq(|s|, i requires 0 <= i < |s| => LowerChar(s[i]))
  }

  predicate IsLower(s: string) {
    forall k :: 0 <= k < |s| ==> !('A' <= s[k] <= 'Z')
  }

  /** ASCII lower-casing works character by character. */
  lemma LowerAppend(a: string, b: string)
    ensures Lower(a + b) == Lower(a) + Lower(b)
  {
  }

  /** Lowercasing leaves no upper-case ASCII letter and is idempotent. */
  lemma LowerIsLower(s: string)
    ensures IsLower(Lower(s)) && Lower(Lower(s)) == Lower(s)
  {
  }

  /** Lowercasing a lower-case string changes nothing. */
  lemma LowerOfLower(s: string)
    requires IsLower(s)
    ensures Lower(s) == s
  {
  }

  function DigitChar(d: nat): (c: char)
    requires d < 10
    ensures '0' <= c <= '9' && c as int - '0' as int == d
  {
    ('0' as int + d) as char
  }

  predicate IsDigit(ch: char) {
    '0' <= ch <= '9'
  }

  /** Decimal rendering of a natural number, without leading zeros. */
  function NatToString(n: nat): (r: string)
    ensures |r| >= 1 && forall k :: 0 <= k < |r| ==> IsDigit(r[k])
    decreases n
  {
    if n < 10 then [DigitChar(n)] else NatToString(n / 10) + [DigitChar(n % 10)]
  }

  /** Python's `str(n)` for an integer. */
  function IntToString(n: int): string {
    if n < 0 then "-" + NatToString(-n) else NatToString(n)
  }

  /** The value of a string of decimal digits. */
  function DigitsValue(s: string): nat
    requires forall k :: 0 <= k < |s| ==> IsDigit(s[k])
    decreases |s|
  {
    if s == [] then 0
    else
      assert IsDigit(s[|s| - 1]);
      DigitsValue(s[..|s| - 1]) * 10 + (s[|s| - 1] as int - '0' as int)
  }

  /** Reading back a rendered natural number gives the number. */
  lemma {:induction false} DigitsValueOfNatToString(n: nat)
    ensures DigitsValue(NatToString(n)) == n
    decreases n
  {
    var r := NatToString(n);
    if n >= 10 {
      DigitsValueOfNatToString(n / 10);
      assert r[..|r| - 1] == NatToString(n / 10);
    }
  }
}
