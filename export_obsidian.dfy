/** The formatting rules of the Obsidian vault export, from lib/export_obsidian.py:
    safe file names, YAML frontmatter, the README's artifact grouping and the
    artifact-type-to-file table. */
module ExportObsidian {
  import opened Wrappers
  import opened Strings
  import opened Seqs

  // ---------------------------------------------------------------------------
  // sanitize_filename

  /** The character class `[<>:"/\\|?*]` removed from file names. */
  const ForbiddenChars: set<char> := {'<', '>', ':', '"', '/', '\\', '|', '?', '*'}

  predicate Allowed(c: char) {
    c !in ForbiddenChars
  }

  function RemoveForbidden(s: string): (r: string)
    ensures forall c :: c in r ==> c !in ForbiddenChars
  {
    FilterMembers(Allowed, s);
    Filter(Allowed, s)
  }

  predicate NoDoubleSpace(s: string) {
    forall i :: 0 <= i < |s| - 1 ==> !(IsSpace(s[i]) && IsSpace(s[i + 1]))
  }

  predicate OnlyPlainSpaces(s: string) {
    forall i :: 0 <= i < |s| ==> IsSpace(s[i]) ==> s[i] == ' '
  }

  /** A character that is not whitespace. */
  predicate IsText(c: char) {
    !IsSpace(c)
  }

  /** `re.sub(r'\s+', ' ', s)`: each maximal run of whitespace becomes one space. */
  function CollapseWhitespace(s: string): (r: string)
    ensures NoDoubleSpace(r) && OnlyPlainSpaces(r)
    ensures (r != [] && IsSpace(r[0])) <==> (s != [] && IsSpace(s[0]))
    decreases |s|
  {
    if s == [] then []
    else if IsSpace(s[0]) then
      var rest := CollapseWhitespace(LStrip(s[1..]));
      ConsKeepsSpacing(' ', rest);
      [' '] + rest
    else
      var rest := CollapseWhitespace(s[1..]);
      ConsKeepsSpacing(s[0], rest);
      [s[0]] + rest
  }

  /** Putting a character in front keeps the spacing guarantees when it is
      not a second space. */
  lemma ConsKeepsSpacing(c: char, x: string)
    requires NoDoubleSpace(x) && OnlyPlainSpaces(x)
    requires IsSpace(c) ==> c == ' ' && (x == [] || !IsSpace(x[0]))
    ensures NoDoubleSpace([c] + x) && OnlyPlainSpaces([c] + x)
  {
    var t := [c] + x;
    forall i | 1 <= i < |t| ensures t[i] == x[i - 1] {
    }
  }

  /** Collapsing keeps every non-whitespace character, in order, and adds none. */
  lemma {:induction false} CollapseKeepsText(s: string)
    ensures Filter(IsText, CollapseWhitespace(s)) == Filter(IsText, s)
    ensures |CollapseWhitespace(s)| <= |s|
    ensures forall c :: c in CollapseWhitespace(s) ==> c in s || c == ' '
    decreases |s|
  {
    if s != [] {
      assert s == [s[0]] + s[1..];
      FilterAppend(IsText, [s[0]], s[1..]);
      if IsSpace(s[0]) {
        var rest := LStrip(s[1..]);
        CollapseKeepsText(rest);
        FilterAppend(IsText, [' '], CollapseWhitespace(rest));
        DropSpacesKeepsText(s[1..]);
      } else {
        CollapseKeepsText(s[1..]);
        FilterAppend(IsText, [s[0]], CollapseWhitespace(s[1..]));
      }
    }
  }

  /** Leading whitespace carries no text. */
  lemma DropSpacesKeepsText(s: string)
    ensures Filter(IsText, LStrip(s)) == Filter(IsText, s)
  {
    var r := LStrip(s);
    var pre := s[..|s| - |r|];
    assert s == pre + r;
    assert forall k :: 0 <= k < |pre| ==> !IsText(pre[k]);
    FilterAppend(IsText, pre, r);
    FilterNone(IsText, pre);
  }

  /** Trailing whitespace carries no text. */
  lemma RStripKeepsText(s: string)
    ensures Filter(IsText, RStrip(s)) == Filter(IsText, s)
  {
    var r := RStrip(s);
    assert s == r + s[|r|..];
    FilterAppend(IsText, r, s[|r|..]);
    assert forall k :: 0 <= k < |s[|r|..]| ==> IsSpace(s[|r|..][k]);
    FilterNone(IsText, s[|r|..]);
  }

  /** Stripping surrounding whitespace carries no text either. */
  lemma StripKeepsText(s: string)
    ensures Filter(IsText, Strip(s)) == Filter(IsText, s)
  {
    DropSpacesKeepsText(s);
    RStripKeepsText(LStrip(s));
  }

  /** `Strip(s)` is a slice of `s`. */
  lemma StripIsSlice(s: string) returns (i: nat)
    ensures i + |Strip(s)| <= |s| && Strip(s) == s[i..i + |Strip(s)|]
  {
    var l := LStrip(s);
    i := |s| - |l|;
  }

  /** A slice keeps the spacing guarantees of the string it is cut from. */
  lemma SliceKeepsSpacing(s: string, i: nat, j: nat)
    requires i <= j <= |s| && NoDoubleSpace(s) && OnlyPlainSpaces(s)
    ensures NoDoubleSpace(s[i..j]) && OnlyPlainSpaces(s[i..j])
  {
    var t := s[i..j];
    forall k | 0 <= k < |t| - 1 ensures !(IsSpace(t[k]) && IsSpace(t[k + 1])) {
      assert t[k] == s[i + k] && t[k + 1] == s[i + k + 1];
    }
    forall k | 0 <= k < |t| ensures IsSpace(t[k]) ==> t[k] == ' ' {
      assert t[k] == s[i + k];
    }
  }

  /** A slice has no forbidden characters when the string it is cut from has none. */
  lemma SliceKeepsAllowed(s: string, i: nat, j: nat)
    requires i <= j <= |s| && forall c :: c in s ==> c !in ForbiddenChars
    ensures forall c :: c in s[i..j] ==> c !in ForbiddenChars
  {
    forall c | c in s[i..j] ensures c !in ForbiddenChars {
      var k :| 0 <= k < j - i && s[i..j][k] == c;
      assert s[i + k] == c;
    }
  }

  /** Cutting a slice `x` of `t` that starts with no whitespace keeps the
      guarantees of `t` and that start. */
  lemma PrefixCutShape(t: string, i: nat, x: string, n: int)
    requires i + |x| <= |t| && x == t[i..i + |x|] && (x == [] || !IsSpace(x[0]))
    requires NoDoubleSpace(t) && OnlyPlainSpaces(t)
    requires forall c :: c in t ==> c !in ForbiddenChars
    ensures var r := SliceTo(x, n);
      && (forall c :: c in r ==> c !in ForbiddenChars)
      && OnlyPlainSpaces(r) && NoDoubleSpace(r)
      && (r == [] || !IsSpace(r[0]))
      && (n >= 0 ==> |r| <= n)
  {
    var cut := SliceTo(x, n);
    assert cut == t[i..i + |cut|] by {
      assert cut == x[..|cut|];
    }
    SliceKeepsSpacing(t, i, i + |cut|);
    SliceKeepsAllowed(t, i, i + |cut|);
    if cut != [] {
      assert cut[0] == x[0];
    }
  }

  /** Stripping and then cutting a string keeps its spacing guarantees and
      its character set, leaves no leading whitespace, and honours a
      non-negative length. */
  lemma StripCutShape(t: string, n: int)
    requires NoDoubleSpace(t) && OnlyPlainSpaces(t)
    requires forall c :: c in t ==> c !in ForbiddenChars
    ensures var r := SliceTo(Strip(t), n);
      && (forall c :: c in r ==> c !in ForbiddenChars)
      && OnlyPlainSpaces(r) && NoDoubleSpace(r)
      && (r == [] || !IsSpace(r[0]))
      && (n >= 0 ==> |r| <= n)
  {
    var i := StripIsSlice(t);
    PrefixCutShape(t, i, Strip(t), n);
  }

  /** Collapsing the whitespace of a string without forbidden characters
      adds none. */
  lemma CollapseAllowed(s: string)
    requires forall c :: c in s ==> c !in ForbiddenChars
    ensures forall c :: c in CollapseWhitespace(s) ==> c !in ForbiddenChars
  {
    CollapseKeepsText(s);
  }

  /** The text before the `untitled` fallback: cleaned, collapsed, stripped, cut. */
  function CleanedName(name: string, maxLength: int): string {
    SliceTo(Strip(CollapseWhitespace(RemoveForbidden(name))), maxLength)
  }

  lemma CleanedNameProperties(name: string, maxLength: int)
    ensures var r := CleanedName(name, maxLength);
      && (forall c :: c in r ==> c !in ForbiddenChars)
      && OnlyPlainSpaces(r) && NoDoubleSpace(r)
      && (r == [] || !IsSpace(r[0]))
      && (maxLength >= 0 ==> |r| <= maxLength)
  {
    var removed := RemoveForbidden(name);
    CollapseAllowed(removed);
    StripCutShape(CollapseWhitespace(removed), maxLength);
  }

  /** The fallback name meets every guarantee of a sanitized name. */
  lemma UntitledIsClean()
    ensures forall c :: c in "untitled" ==> c !in ForbiddenChars
    ensures OnlyPlainSpaces("untitled") && NoDoubleSpace("untitled")
    ensures !IsSpace("untitled"[0])
  {
  }

  /** `sanitize_filename(name, max_length)`. */
  function SanitizeFilename(name: string, maxLength: int): (r: string)
    ensures r != []
    ensures forall c :: c in r ==> c !in ForbiddenChars
    ensures OnlyPlainSpaces(r) && NoDoubleSpace(r)
    ensures !IsSpace(r[0])
    ensures maxLength >= 0 ==> |r| <= maxLength || r == "untitled"
  {
    CleanedNameProperties(name, maxLength);
    var cut := CleanedName(name, maxLength);
    if cut == [] then UntitledIsClean(); "untitled" else cut
  }

  /** Every character that collapsing produces from a string of whitespace is
      whitespace. */
  lemma CollapseOfSpaces(s: string)
    requires forall k :: 0 <= k < |s| ==> IsSpace(s[k])
    ensures forall k :: 0 <= k < |CollapseWhitespace(s)| ==> IsSpace(CollapseWhitespace(s)[k])
  {
    var r := CollapseWhitespace(s);
    CollapseKeepsText(s);
    forall k | 0 <= k < |r| ensures IsSpace(r[k]) {
      assert r[k] in r;
    }
  }

  /** Nothing but the forbidden characters and whitespace, or a zero length,
      leaves nothing, and the fallback name is used. */
  lemma SanitizeFallback(name: string, maxLength: int)
    requires maxLength == 0 || forall c :: c in name ==> c in ForbiddenChars || IsSpace(c)
    ensures SanitizeFilename(name, maxLength) == "untitled"
  {
    var removed := RemoveForbidden(name);
    if maxLength != 0 {
      FilterMembers(Allowed, name);
      forall k | 0 <= k < |removed| ensures IsSpace(removed[k]) {
        assert removed[k] in removed;
      }
      CollapseOfSpaces(removed);
      StripOfSpaces(CollapseWhitespace(removed));
    }
  }

  /** The result is `untitled` exactly when nothing is left once the name is
      cleaned and cut, or when what is left is itself `untitled`. */
  lemma SanitizeIsUntitled(name: string, maxLength: int)
    ensures SanitizeFilename(name, maxLength) == "untitled" <==>
      CleanedName(name, maxLength) == [] || CleanedName(name, maxLength) == "untitled"
  {
  }

  /** Cutting a string keeps a prefix of its text, all of it when the cut is
      no shorter than the string. */
  lemma CutKeepsText(t: string, n: int)
    ensures var kept := Filter(IsText, SliceTo(t, n));
      var text := Filter(IsText, t);
      |kept| <= |text| && kept == text[..|kept|]
      && (n >= |t| ==> kept == text)
  {
    var cut := SliceTo(t, n);
    assert t == cut + t[|cut|..];
    FilterAppend(IsText, cut, t[|cut|..]);
  }

  /** The non-whitespace text of the name survives in order, cut short only by
      `max_length`, and whole when it is long enough. */
  lemma SanitizeKeepsText(name: string, maxLength: int)
    requires CleanedName(name, maxLength) != []
    ensures var text := Filter(IsText, RemoveForbidden(name));
      var kept := Filter(IsText, SanitizeFilename(name, maxLength));
      |kept| <= |text| && kept == text[..|kept|]
      && (maxLength >= |name| ==> kept == text)
  {
    var removed := RemoveForbidden(name);
    var collapsed := CollapseWhitespace(removed);
    CollapseKeepsText(removed);
    StripKeepsText(collapsed);
    CutKeepsText(Strip(collapsed), maxLength);
  }

  /** A string whose whitespace is already single plain spaces is left
      unchanged by collapsing. */
  lemma {:induction false} CollapseFixesSpaced(s: string)
    requires NoDoubleSpace(s) && OnlyPlainSpaces(s)
    ensures CollapseWhitespace(s) == s
    decreases |s|
  {
    if s != [] {
      SliceKeepsSpacing(s, 1, |s|);
      CollapseFixesSpaced(s[1..]);
      if IsSpace(s[0]) {
        if |s| > 1 {
          assert !IsSpace(s[1..][0]);
        }
        assert LStrip(s[1..]) == s[1..];
      }
    }
  }

  /** Collapsing whitespace is idempotent. */
  lemma CollapseIdempotent(s: string)
    ensures CollapseWhitespace(CollapseWhitespace(s)) == CollapseWhitespace(s)
  {
    CollapseFixesSpaced(CollapseWhitespace(s));
  }

  /** A name that is already clean (no forbidden characters, single plain
      spaces, no surrounding whitespace) is only cut to `max_length`. */
  lemma SanitizeOfClean(name: string, maxLength: int)
    requires forall c :: c in name ==> c !in ForbiddenChars
    requires NoDoubleSpace(name) && OnlyPlainSpaces(name)
    requires name != [] && !IsSpace(name[0]) && !IsSpace(name[|name| - 1])
    requires SliceTo(name, maxLength) != []
    ensures SanitizeFilename(name, maxLength) == SliceTo(name, maxLength)
  {
    assert RemoveForbidden(name) == name by {
      FilterKeepsAll(Allowed, name);
    }
    CollapseFixesSpaced(name);
    StripOfTrimmed(name);
  }

  /** Truncation happens after stripping, so a space can end the name. */
  lemma TrailingSpaceSurvives(s: string)
    requires s == "ab cd"
    ensures SanitizeFilename(s, 3) == "ab "
  {
    assert |s| == 5 && s[0] == 'a' && s[1] == 'b' && s[2] == ' ' && s[3] == 'c' && s[4] == 'd';
    assert forall c :: c in s ==> c !in ForbiddenChars by {
      forall c | c in s ensures c !in ForbiddenChars {
        var k :| 0 <= k < 5 && s[k] == c;
      }
    }
    assert NoDoubleSpace(s) && OnlyPlainSpaces(s) by {
      assert !IsSpace('a') && !IsSpace('b') && !IsSpace('c') && !IsSpace('d');
    }
    assert SliceTo(s, 3) == "ab " by {
      assert s[..3] == "ab ";
    }
    SanitizeOfClean(s, 3);
  }

  // ---------------------------------------------------------------------------
  // create_frontmatter

  /** A frontmatter value: a string, quoted; a list of strings, one item per
      line; anything else, printed bare through `str()`, given here by that
      rendering. */
  datatype FrontValue = Text(s: string) | Items(xs: seq<string>) | Bare(rendered: string)

  /** `value.replace('"', '\\"')`. */
  function EscapeQuotes(s: string): string {
    ReplaceAll(s, "\"", "\\\"")
  }

  /** Escaping works one character at a time. */
  lemma EscapeCons(c: char, s: string)
    ensures EscapeQuotes([c] + s) == (if c == '"' then "\\\"" else [c]) + EscapeQuotes(s)
  {
    var t := [c] + s;
    assert t[1..] == s;
    assert t[..1] == [c];
  }

  /** Undoes `EscapeQuotes`: `\"` reads as `"`, everything else as itself. */
  function UnescapeQuotes(t: string): string
    decreases |t|
  {
    if |t| >= 2 && t[0] == '\\' && t[1] == '"' then "\"" + UnescapeQuotes(t[2..])
    else if t == [] then []
    else [t[0]] + UnescapeQuotes(t[1..])
  }

  /** An escaped string never starts with a quote. */
  lemma EscapeHead(s: string)
    ensures EscapeQuotes(s) == [] || EscapeQuotes(s)[0] != '"'
  {
    if s != [] {
      assert s == [s[0]] + s[1..];
      EscapeCons(s[0], s[1..]);
    }
  }

  /** `UnescapeQuotes` is a left inverse of the quote escaping. */
  lemma {:induction false} UnescapeEscapeQuotes(s: string)
    ensures UnescapeQuotes(EscapeQuotes(s)) == s
    decreases |s|
  {
    if s != [] {
      var c := s[0];
      var e := EscapeQuotes(s[1..]);
      assert s == [c] + s[1..];
      EscapeCons(c, s[1..]);
      UnescapeEscapeQuotes(s[1..]);
      if c == '"' {
        assert ("\\\"" + e)[2..] == e;
      } else {
        EscapeHead(s[1..]);
        assert ([c] + e)[1..] == e;
      }
    }
  }

  /** The quote escaping is injective: different values give different lines. */
  lemma EscapeQuotesInjective(s: string, t: string)
    ensures EscapeQuotes(s) == EscapeQuotes(t) ==> s == t
  {
    UnescapeEscapeQuotes(s);
    UnescapeEscapeQuotes(t);
  }

  /** Every quote of an escaped string is preceded by a backslash. (That
      backslash may itself be escaped by one before it, so this alone does not
      keep the quoted scalar open; see `EscapeQuotesTrailingBackslash`.) */
  lemma {:induction false} QuotesEscaped(s: string)
    ensures var e := EscapeQuotes(s);
      forall i :: 0 <= i < |e| && e[i] == '"' ==> i > 0 && e[i - 1] == '\\'
    decreases |s|
  {
    if s != [] {
      var c := s[0];
      var e := EscapeQuotes(s[1..]);
      assert s == [c] + s[1..];
      EscapeCons(c, s[1..]);
      QuotesEscaped(s[1..]);
      var h: string := if c == '"' then "\\\"" else [c];
      forall i | 0 <= i < |h + e| && (h + e)[i] == '"' ensures i > 0 && (h + e)[i - 1] == '\\' {
        if i >= |h| {
          assert (h + e)[i] == e[i - |h|];
          if i > |h| {
            assert (h + e)[i - 1] == e[i - |h| - 1];
          }
        }
      }
    }
  }

  // YAML 1.2 double-quoted scalars (sections 5.7 and 7.3.1 of YAML 1.2)

  predicate IsHexDigit(c: char) {
    '0' <= c <= '9' || 'a' <= c <= 'f' || 'A' <= c <= 'F'
  }

  function HexValue(c: char): (n: nat)
    requires IsHexDigit(c)
    ensures n < 16
  {
    if '0' <= c <= '9' then c as int - '0' as int
    else if 'a' <= c <= 'f' then c as int - 'a' as int + 10
    else c as int - 'A' as int + 10
  }

  /** The lower-case hex digit for `n`. */
  function HexDigit(n: nat): (c: char)
    requires n < 16
    ensures IsHexDigit(c) && HexValue(c) == n
  {
    if n < 10 then ('0' as int + n) as char else ('a' as int + n - 10) as char
  }

  /** What the one-character escape `\c` stands for, or None when `c` does
      not start one. */
  function YamlEscape(c: char): Option<char> {
    match c
    case '0' => Some('\U{0}')
    case 'a' => Some('\U{7}')
    case 'b' => Some('\U{8}')
    case 't' => Some('\t')
    case '\t' => Some('\t')
    case 'n' => Some('\n')
    case 'v' => Some('\U{B}')
    case 'f' => Some('\U{C}')
    case 'r' => Some('\r')
    case 'e' => Some('\U{1B}')
    case ' ' => Some(' ')
    case '"' => Some('"')
    case '/' => Some('/')
    case '\\' => Some('\\')
    case 'N' => Some('\U{85}')
    case '_' => Some('\U{A0}')
    case 'L' => Some('\U{2028}')
    case 'P' => Some('\U{2029}')
    case _ => None
  }

  /** A C0 control character other than tab: YAML allows none of them bare
      inside a double-quoted scalar on one line. */
  predicate IsControl(c: char) {
    c < ' ' && c != '\t'
  }

  function Prepend(c: char, r: Option<string>): Option<string> {
    if r.Some? then Some([c] + r.value) else None
  }

  /** What a YAML reader makes of `t` as the whole body of a double-quoted
      scalar on one line: a backslash starts an escape, and a bare `"` ends
      the scalar, so a body holding one is not read (None). So is a body with
      an unknown escape, a trailing lone backslash, or a raw control
      character. */
  function YamlUnquote(t: string): Option<string>
    decreases |t|
  {
    if t == [] then Some([])
    else if t[0] == '"' || IsControl(t[0]) then None
    else if t[0] != '\\' then Prepend(t[0], YamlUnquote(t[1..]))
    else if |t| >= 4 && t[1] == 'x' && IsHexDigit(t[2]) && IsHexDigit(t[3]) then
      Prepend((HexValue(t[2]) * 16 + HexValue(t[3])) as char, YamlUnquote(t[4..]))
    else if |t| >= 2 && YamlEscape(t[1]).Some? then
      Prepend(YamlEscape(t[1]).value, YamlUnquote(t[2..]))
    else None
  }

  /** A value without quotes is written unchanged. */
  lemma {:induction false} EscapeQuotesWithoutQuotes(s: string)
    requires '"' !in s
    ensures EscapeQuotes(s) == s
    decreases |s|
  {
    if s != [] {
      assert s == [s[0]] + s[1..];
      EscapeCons(s[0], s[1..]);
      EscapeQuotesWithoutQuotes(s[1..]);
    }
  }

  /** A plain character is read as itself. */
  lemma UnquotePlain(c: char, t: string)
    requires c != '"' && c != '\\' && !IsControl(c)
    ensures YamlUnquote([c] + t) == Prepend(c, YamlUnquote(t))
  {
    assert ([c] + t)[1..] == t;
  }

  /** For a value without backslashes or control characters the corrected
      escaping writes what line 48 writes. */
  lemma {:induction false} EscapingsAgree(s: string)
    requires forall c :: c in s ==> c != '\\' && !IsControl(c)
    ensures EscapeQuotes(s) == EscapeYaml(s)
    decreases |s|
  {
    if s != [] {
      assert s == [s[0]] + s[1..];
      EscapeCons(s[0], s[1..]);
      assert forall c :: c in s[1..] ==> c in s;
      EscapingsAgree(s[1..]);
    }
  }

  /** The string line 48 writes between the quotes, read by YAML. The program
      writes `k: "a\"` for the value `a\`: its closing quote is escaped, and
      the body does not read back. */
  lemma EscapeQuotesTrailingBackslash()
    ensures QuotedEntry("k", "a\\", AsWritten) == "k: \"a\\\""
    ensures YamlUnquote(EscapeQuotes("a\\")) == None
  {
    var s := "a\\";
    EscapeQuotesWithoutQuotes(s);
    assert YamlUnquote(s[1..]) == None;
  }

  /** `\new` reads as a line break followed by `ew`. */
  lemma ReadsEscapedNewline()
    ensures YamlUnquote("\\new") == Some("\new")
  {
    UnquotePlain('w', "");
    assert ['w'] + "" == "w";
    UnquotePlain('e', "w");
    assert ['e'] + "w" == "ew";
    var t := "\\new";
    assert t[1] == 'n' && t[2..] == "ew";
    assert ['\n'] + "ew" == "\new";
  }

  /** A backslash in a value is read as the start of an escape: `C:\new` is
      written unchanged and reads back as `C:`, a line break and `ew`. */
  lemma EscapeQuotesMisreadsBackslash()
    ensures EscapeQuotes("C:\\new") == "C:\\new"
    ensures YamlUnquote(EscapeQuotes("C:\\new")) == Some("C:\new")
  {
    EscapeQuotesWithoutQuotes("C:\\new");
    ReadsEscapedNewline();
    UnquotePlain(':', "\\new");
    assert [':'] + "\\new" == ":\\new";
    assert [':'] + "\new" == ":\new";
    UnquotePlain('C', ":\\new");
    assert ['C'] + ":\\new" == "C:\\new";
    assert ['C'] + ":\new" == "C:\new";
  }

  /** The escaping a double-quoted YAML scalar needs: a backslash is doubled
      before quotes are escaped, and a control character other than tab is
      written as `\xNN`. */
  function EscapeYamlChar(c: char): (e: string)
    ensures e != []
  {
    if c == '\\' then "\\\\"
    else if c == '"' then "\\\""
    else if IsControl(c) then "\\x" + [HexDigit(c as int / 16), HexDigit(c as int % 16)]
    else [c]
  }

  function EscapeYaml(s: string): string
    decreases |s|
  {
    if s == [] then [] else EscapeYamlChar(s[0]) + EscapeYaml(s[1..])
  }

  /** The reader takes one escaped character off the front. */
  lemma UnquoteEscapedChar(c: char, e: string)
    ensures YamlUnquote(EscapeYamlChar(c) + e) == Prepend(c, YamlUnquote(e))
  {
    var t := EscapeYamlChar(c) + e;
    if c == '\\' || c == '"' {
      assert t[0] == '\\' && t[1] == c && t[2..] == e;
    } else if IsControl(c) {
      assert t[0] == '\\' && t[1] == 'x' && t[4..] == e;
      assert HexValue(t[2]) * 16 + HexValue(t[3]) == c as int;
    } else {
      assert t[0] == c && t[1..] == e;
    }
  }

  /** With backslashes escaped too, every value reads back as itself. */
  lemma {:induction false} EscapeYamlRoundTrip(s: string)
    ensures YamlUnquote(EscapeYaml(s)) == Some(s)
    decreases |s|
  {
    if s != [] {
      EscapeYamlRoundTrip(s[1..]);
      UnquoteEscapedChar(s[0], EscapeYaml(s[1..]));
      assert s == [s[0]] + s[1..];
    }
  }

  /** The only quote an escaped character holds is the second of `\"`. */
  lemma EscapeYamlCharQuote(c: char)
    ensures var h := EscapeYamlChar(c);
      forall k :: 0 <= k < |h| && h[k] == '"' ==> k == 1 && h[0] == '\\'
  {
    var h := EscapeYamlChar(c);
    if IsControl(c) {
      assert h[2] != '"' && h[3] != '"';
    }
  }

  /** Every quote of `e` is preceded by a backslash. */
  predicate QuotesPreceded(e: string) {
    forall i :: 0 <= i < |e| && e[i] == '"' ==> i > 0 && e[i - 1] == '\\'
  }

  /** Every quote of the corrected escaping is preceded by a backslash. */
  lemma {:induction false} EscapeYamlQuotes(s: string)
    ensures QuotesPreceded(EscapeYaml(s))
    decreases |s|
  {
    if s != [] {
      var h := EscapeYamlChar(s[0]);
      var e := EscapeYaml(s[1..]);
      EscapeYamlQuotes(s[1..]);
      EscapeYamlCharQuote(s[0]);
      assert EscapeYaml(s) == h + e;
      forall i | 0 <= i < |h + e| && (h + e)[i] == '"' ensures i > 0 && (h + e)[i - 1] == '\\' {
        if i >= |h| {
          var j := i - |h|;
          assert e[j] == '"';
          assert (h + e)[i - 1] == e[j - 1];
        } else {
          assert h[i] == '"';
          assert (h + e)[i - 1] == h[i - 1];
        }
      }
    }
  }

  /** A list value: the `key:` line, then one `  - item` line per element. */
  function ListEntry(key: string, xs: seq<string>): seq<string> {
    [key + ":"] + ItemLines(xs)
  }

  /** Which escaping string values get: line 48 as written, or the
      corrected escaping a YAML reader reads back. */
  datatype Escaping = AsWritten | Corrected

  function Escape(esc: Escaping, s: string): string {
    match esc
    case AsWritten => EscapeQuotes(s)
    case Corrected => EscapeYaml(s)
  }

  /** A string value, double-quoted and escaped. */
  function QuotedEntry(key: string, s: string, esc: Escaping): string {
    key + ": \"" + Escape(esc, s) + "\""
  }

  /** Any other value, already rendered. */
  function BareEntry(key: string, rendered: string): string {
    key + ": " + rendered
  }

  /** The lines of one `key: value` entry. */
  function EntryLines(key: string, v: FrontValue, esc: Escaping): seq<string> {
    match v
    case Items(xs) => ListEntry(key, xs)
    case Text(s) => [QuotedEntry(key, s, esc)]
    case Bare(r) => [BareEntry(key, r)]
  }

  function ItemLines(xs: seq<string>): (r: seq<string>)
    ensures |r| == |xs|
  {
    seq(|xs|, i requires 0 <= i < |xs| => "  - " + xs[i])
  }

  /** The lines of one entry of the dictionary. */
  function EntryOf(esc: Escaping): ((string, FrontValue)) -> seq<string> {
    (e: (string, FrontValue)) => EntryLines(e.0, e.1, esc)
  }

  /** The entries' lines, in the order of the entries. */
  function EntriesLines(data: seq<(string, FrontValue)>, esc: Escaping): seq<string> {
    FlatMap(EntryOf(esc), data)
  }

  function FrontmatterLines(data: seq<(string, FrontValue)>, esc: Escaping): seq<string> {
    ["---"] + EntriesLines(data, esc) + ["---", ""]
  }

  lemma ItemLinesSnoc(xs: seq<string>, j: nat)
    requires j < |xs|
    ensures ItemLines(xs[..j + 1]) == ItemLines(xs[..j]) + ["  - " + xs[j]]
  {
  }

  lemma EntriesLinesSnoc(data: seq<(string, FrontValue)>, i: nat, esc: Escaping)
    requires i < |data|
    ensures EntriesLines(data[..i + 1], esc) == EntriesLines(data[..i], esc) + EntryLines(data[i].0, data[i].1, esc)
  {
    assert data[..i + 1][..i] == data[..i];
  }

  /** The body of `create_frontmatter`'s loop: append one entry's lines. */
  method AppendEntry(lines: seq<string>, key: string, value: FrontValue, esc: Escaping) returns (r: seq<string>)
    ensures r == lines + EntryLines(key, value, esc)
  {
    r := lines;
    match value {
      case Items(xs) =>
        r := r + [key + ":"];
        for j := 0 to |xs|
          invariant r == lines + [key + ":"] + ItemLines(xs[..j])
        {
          ItemLinesSnoc(xs, j);
          r := r + ["  - " + xs[j]];
        }
        assert xs[..|xs|] == xs;
      case Text(s) =>
        var escaped := Escape(esc, s);
        r := r + [key + ": \"" + escaped + "\""];
      case Bare(rendered) =>
        r := r + [key + ": " + rendered];
    }
  }

  /** `create_frontmatter`'s loop: append each entry's lines in order. */
  method AppendEntries(lines: seq<string>, data: seq<(string, FrontValue)>, esc: Escaping) returns (r: seq<string>)
    ensures r == lines + EntriesLines(data, esc)
  {
    r := lines;
    for i := 0 to |data|
      invariant r == lines + EntriesLines(data[..i], esc)
    {
      var (key, value) := data[i];
      EntriesLinesSnoc(data, i, esc);
      ConcatAssoc(lines, EntriesLines(data[..i], esc), EntryLines(key, value, esc));
      r := AppendEntry(r, key, value, esc);
    }
    assert data[..|data|] == data;
  }

  /** The lines `create_frontmatter` collects: the opening `---`, each
      entry's lines in order, then the closing `---` and an empty line. */
  method CollectFrontmatter(data: seq<(string, FrontValue)>, esc: Escaping) returns (lines: seq<string>)
    ensures lines == FrontmatterLines(data, esc)
  {
    lines := AppendEntries(["---"], data, esc);
    lines := lines + ["---", ""];
  }

  /** `create_frontmatter(data)` as written: `data` is the dictionary in its
      insertion order, and string values are escaped as line 48 does. */
  method CreateFrontmatter(data: seq<(string, FrontValue)>) returns (text: string)
    ensures text == Join(FrontmatterLines(data, AsWritten), "\n")
  {
    var lines := CollectFrontmatter(data, AsWritten);
    text := Join(lines, "\n");
  }

  /** `create_frontmatter(data)` with the corrected escaping of string values. */
  method CreateFrontmatterCorrected(data: seq<(string, FrontValue)>) returns (text: string)
    ensures text == Join(FrontmatterLines(data, Corrected), "\n")
  {
    var lines := CollectFrontmatter(data, Corrected);
    text := Join(lines, "\n");
  }

  /** Keys come out in input order: entry `i`'s lines sit between those of
      the entries before it and those after it. */
  lemma EntriesInOrder(data: seq<(string, FrontValue)>, i: nat, esc: Escaping)
    requires i < |data|
    ensures EntriesLines(data, esc) ==
      EntriesLines(data[..i], esc) + EntryLines(data[i].0, data[i].1, esc) + EntriesLines(data[i + 1..], esc)
  {
    assert data == data[..i + 1] + data[i + 1..];
    FlatMapAppend(EntryOf(esc), data[..i + 1], data[i + 1..]);
    EntriesLinesSnoc(data, i, esc);
  }

  /** A value whose text, if it is a string, has no backslash and no control
      character. */
  predicate PlainValue(v: FrontValue) {
    v.Text? ==> forall c :: c in v.s ==> c != '\\' && !IsControl(c)
  }

  /** For such values the frontmatter as written and the corrected one are
      the same lines. */
  lemma {:induction false} EscapingsAgreeOnEntries(data: seq<(string, FrontValue)>)
    requires forall i :: 0 <= i < |data| ==> PlainValue(data[i].1)
    ensures EntriesLines(data, AsWritten) == EntriesLines(data, Corrected)
    ensures FrontmatterLines(data, AsWritten) == FrontmatterLines(data, Corrected)
    decreases |data|
  {
    if data != [] {
      var last := data[|data| - 1];
      EscapingsAgreeOnEntries(data[..|data| - 1]);
      assert EntryLines(last.0, last.1, AsWritten) == EntryLines(last.0, last.1, Corrected) by {
        if last.1.Text? {
          EscapingsAgree(last.1.s);
        }
      }
    }
  }

  /** Any list of lines between `---` delimiters and a final empty line
      joins to `---\n<lines>\n---\n`, or `---\n---\n` when empty. */
  lemma JoinDelimited(body: seq<string>)
    ensures var text := Join(["---"] + body + ["---", ""], "\n");
      && (body == [] ==> text == "---\n---\n")
      && (body != [] ==> text == "---\n" + Join(body, "\n") + "\n---\n")
  {
    var tail := ["---", ""];
    assert Join(tail, "\n") == "---\n" by {
      JoinCons("---", [""], "\n");
    }
    if body == [] {
      assert ["---"] + body + tail == ["---"] + tail;
      JoinCons("---", tail, "\n");
    } else {
      JoinAppend(["---"] + body, tail, "\n");
      JoinCons("---", body, "\n");
    }
  }

  /** The frontmatter is delimited by `---` lines and ends with a newline:
      `---\n<entries>\n---\n`, or `---\n---\n` without entries. */
  lemma FrontmatterDelimited(data: seq<(string, FrontValue)>, esc: Escaping)
    ensures var body := EntriesLines(data, esc);
      var text := Join(FrontmatterLines(data, esc), "\n");
      && (body == [] ==> text == "---\n---\n")
      && (body != [] ==> text == "---\n" + Join(body, "\n") + "\n---\n")
  {
    JoinDelimited(EntriesLines(data, esc));
  }

  /** A list value gives a `key:` line and then one `  - item` line per
      element; any other value gives the single line `key: ...`. */
  lemma EntryShape(key: string, v: FrontValue, esc: Escaping)
    ensures var r := EntryLines(key, v, esc);
      && |r| >= 1 && StartsWith(r[0], key + ":")
      && (v.Items? ==>
            r[0] == key + ":" && |r| == 1 + |v.xs|
            && forall k :: 0 <= k < |v.xs| ==> r[1 + k] == "  - " + v.xs[k])
      && (!v.Items? ==> |r| == 1)
  {
  }

  /** Under the corrected escaping a string value is written as
      `key: "<escaped>"`, and a YAML reader reads the quoted part back as the
      value. */
  lemma TextEntryQuoted(key: string, s: string)
    ensures var line := EntryLines(key, Text(s), Corrected)[0];
      var inner := line[|key| + 3..|line| - 1];
      && StartsWith(line, key + ": \"") && line[|line| - 1] == '"'
      && YamlUnquote(inner) == Some(s)
      && QuotesPreceded(inner)
  {
    var e := EscapeYaml(s);
    var line := key + ": \"" + e + "\"";
    assert line[|key| + 3..|line| - 1] == e;
    EscapeYamlRoundTrip(s);
    EscapeYamlQuotes(s);
  }

  // ---------------------------------------------------------------------------
  // README: the artifact section of create_readme

  /** One manifest entry; a field is None when its key is absent. */
  datatype Artifact = Artifact(atype: Option<string>, id: Option<string>, status: Option<string>)

  function TypeOf(a: Artifact): string { a.atype.GetOr("unknown") }
  function IdOf(a: Artifact): string { a.id.GetOr("unknown") }
  function StatusOf(a: Artifact): string { a.status.GetOr("unknown") }

  function TypeIs(t: string): Artifact -> bool {
    a => TypeOf(a) == t
  }

  /** The artifacts of type `t`, in manifest order. */
  function Group(artifacts: seq<Artifact>, t: string): seq<Artifact> {
    Filter(TypeIs(t), artifacts)
  }

  /** The keys of the `artifact_types` dictionary in insertion order: each
      type where it first appears. */
  function Types(artifacts: seq<Artifact>): seq<string>
    decreases |artifacts|
  {
    if artifacts == [] then []
    else
      var ts := Types(artifacts[..|artifacts| - 1]);
      var t := TypeOf(artifacts[|artifacts| - 1]);
      if t in ts then ts else ts + [t]
  }

  predicate Distinct(s: seq<string>) {
    forall i, j :: 0 <= i < j < |s| ==> s[i] != s[j]
  }

  /** Some artifact has type `t`. */
  predicate Occurs(artifacts: seq<Artifact>, t: string) {
    exists i :: 0 <= i < |artifacts| && TypeOf(artifacts[i]) == t
  }

  /** A type occurs in a non-empty manifest when it occurs before the last
      artifact or is the last artifact's type. */
  lemma OccursSnoc(artifacts: seq<Artifact>, t: string)
    requires artifacts != []
    ensures var n := |artifacts| - 1;
      Occurs(artifacts, t) <==> Occurs(artifacts[..n], t) || TypeOf(artifacts[n]) == t
  {
    var n := |artifacts| - 1;
    var init := artifacts[..n];
    if Occurs(init, t) {
      var i :| 0 <= i < |init| && TypeOf(init[i]) == t;
      assert TypeOf(artifacts[i]) == t;
    }
    if Occurs(artifacts, t) {
      var i :| 0 <= i < |artifacts| && TypeOf(artifacts[i]) == t;
      if i < n {
        assert TypeOf(init[i]) == t;
      }
    }
  }

  /** A type is a key exactly when some artifact has it. */
  lemma {:induction false} TypesMember(artifacts: seq<Artifact>, t: string)
    ensures t in Types(artifacts) <==> Occurs(artifacts, t)
    decreases |artifacts|
  {
    if artifacts != [] {
      TypesMember(artifacts[..|artifacts| - 1], t);
      OccursSnoc(artifacts, t);
    }
  }

  /** A key is added only when it is new, so the keys stay distinct. */
  lemma {:induction false} TypesDistinct(artifacts: seq<Artifact>)
    ensures Distinct(Types(artifacts))
    decreases |artifacts|
  {
    if artifacts != [] {
      TypesDistinct(artifacts[..|artifacts| - 1]);
    }
  }

  /** The keys are distinct and are exactly the types that occur. */
  lemma TypesProperties(artifacts: seq<Artifact>)
    ensures Distinct(Types(artifacts))
    ensures forall t :: t in Types(artifacts) <==>
      exists i :: 0 <= i < |artifacts| && TypeOf(artifacts[i]) == t
  {
    TypesDistinct(artifacts);
    forall t ensures t in Types(artifacts) <==> Occurs(artifacts, t) {
      TypesMember(artifacts, t);
    }
  }

  /** Appending an artifact extends its own group and no other. */
  lemma GroupSnoc(artifacts: seq<Artifact>, i: nat, t: string)
    requires i < |artifacts|
    ensures Group(artifacts[..i + 1], t) ==
      Group(artifacts[..i], t) + (if TypeOf(artifacts[i]) == t then [artifacts[i]] else [])
  {
    assert artifacts[..i + 1] == artifacts[..i] + [artifacts[i]];
    FilterAppend(TypeIs(t), artifacts[..i], [artifacts[i]]);
    assert [artifacts[i]][1..] == [];
  }

  /** A type that does not occur has an empty group. */
  lemma GroupOfAbsent(artifacts: seq<Artifact>, t: string)
    requires t !in Types(artifacts)
    ensures Group(artifacts, t) == []
  {
    TypesProperties(artifacts);
    FilterNone(TypeIs(t), artifacts);
  }

  /** Lines 103-108: the `artifact_types` dictionary, filled in place, as its
      keys in insertion order and its contents. */
  method GroupArtifacts(artifacts: seq<Artifact>)
    returns (types: seq<string>, byType: map<string, seq<Artifact>>)
    ensures types == Types(artifacts)
    ensures forall t :: t in byType <==> t in types
    ensures forall t :: t in byType ==> byType[t] == Group(artifacts, t)
  {
    types := [];
    byType := map[];
    for i := 0 to |artifacts|
      invariant types == Types(artifacts[..i])
      invariant forall t :: t in byType <==> t in types
      invariant forall t :: t in byType ==> byType[t] == Group(artifacts[..i], t)
    {
      var artifact := artifacts[i];
      var atype := artifact.atype.GetOr("unknown");
      assert artifacts[..i + 1][..i] == artifacts[..i];
      forall t ensures Group(artifacts[..i + 1], t) ==
        Group(artifacts[..i], t) + (if atype == t then [artifact] else [])
      {
        GroupSnoc(artifacts, i, t);
      }
      if atype !in byType {
        GroupOfAbsent(artifacts[..i], atype);
        types := types + [atype];
        byType := byType[atype := []];
      }
      byType := byType[atype := byType[atype] + [artifact]];
    }
    assert artifacts[..|artifacts|] == artifacts;
  }

  /** Every artifact lands in exactly one group, the one keyed by its type,
      and each group keeps manifest order. */
  lemma OneGroupEach(artifacts: seq<Artifact>, a: Artifact, t: string)
    requires a in artifacts
    ensures TypeOf(a) in Types(artifacts)
    ensures a in Group(artifacts, t) <==> t == TypeOf(a)
    ensures IsSubsequence(Group(artifacts, t), artifacts)
  {
    TypesProperties(artifacts);
    var i :| 0 <= i < |artifacts| && artifacts[i] == a;
    FilterMembers(TypeIs(t), artifacts);
    FilterIsSubsequence(TypeIs(t), artifacts);
  }

  /** Python's `<` on strings: lexicographic by code point, a proper prefix
      first. */
  predicate Less(a: string, b: string)
    decreases |a|
  {
    if a == [] then b != []
    else b != [] && (if a[0] != b[0] then a[0] < b[0] else Less(a[1..], b[1..]))
  }

  lemma {:induction false} LessIrreflexive(a: string)
    ensures !Less(a, a)
    decreases |a|
  {
    if a != [] {
      LessIrreflexive(a[1..]);
    }
  }

  lemma {:induction false} LessTransitive(a: string, b: string, c: string)
    requires Less(a, b) && Less(b, c)
    ensures Less(a, c)
    decreases |a|
  {
    if a != [] && a[0] == b[0] && b[0] == c[0] {
      LessTransitive(a[1..], b[1..], c[1..]);
    }
  }

  lemma {:induction false} LessTotal(a: string, b: string)
    ensures a == b || Less(a, b) || Less(b, a)
    decreases |a|
  {
    if a != [] && b != [] && a[0] == b[0] {
      LessTotal(a[1..], b[1..]);
      assert a == [a[0]] + a[1..] && b == [b[0]] + b[1..];
    }
  }

  predicate StrictlySorted(s: seq<string>) {
    forall i, j :: 0 <= i < j < |s| ==> Less(s[i], s[j])
  }

  /** Insertion into an ordered list, as the reference for `sorted`. */
  function Insert(x: string, s: seq<string>): (r: seq<string>)
    ensures multiset(r) == multiset(s) + multiset{x}
    decreases |s|
  {
    if s == [] || !Less(s[0], x) then [x] + s
    else
      assert s == [s[0]] + s[1..];
      [s[0]] + Insert(x, s[1..])
  }

  function Sort(s: seq<string>): (r: seq<string>)
    ensures multiset(r) == multiset(s)
    decreases |s|
  {
    if s == [] then []
    else
      assert s == [s[0]] + s[1..];
      Insert(s[0], Sort(s[1..]))
  }

  lemma {:induction false} InsertSorted(x: string, s: seq<string>)
    requires StrictlySorted(s) && x !in s
    ensures StrictlySorted(Insert(x, s))
    decreases |s|
  {
    if s != [] {
      if !Less(s[0], x) {
        LessTotal(s[0], x);
        forall j | 0 <= j < |s| ensures Less(x, s[j]) {
          if j > 0 {
            LessTransitive(x, s[0], s[j]);
          }
        }
      } else {
        var t := Insert(x, s[1..]);
        InsertSorted(x, s[1..]);
        forall j | 0 <= j < |t| ensures Less(s[0], t[j]) {
          assert t[j] in multiset(t);
        }
      }
    }
  }

  /** `sorted` of distinct strings: a permutation in strictly increasing
      order. */
  lemma {:induction false} SortSorted(s: seq<string>)
    requires Distinct(s)
    ensures StrictlySorted(Sort(s)) && Distinct(Sort(s))
    decreases |s|
  {
    if s != [] {
      var t := s[1..];
      assert Distinct(t);
      SortSorted(t);
      assert s[0] !in multiset(Sort(t));
      InsertSorted(s[0], Sort(t));
    }
    SortedDistinct(Sort(s));
  }

  lemma SortedDistinct(s: seq<string>)
    requires StrictlySorted(s)
    ensures Distinct(s)
  {
    forall i, j | 0 <= i < j < |s| ensures s[i] != s[j] {
      LessIrreflexive(s[i]);
    }
  }

  predicate IsAsciiLetter(c: char) {
    'a' <= c <= 'z' || 'A' <= c <= 'Z'
  }

  function UpperChar(c: char): char {
    if 'a' <= c <= 'z' then (c as int - 32) as char else c
  }

  /** `str.title()` on ASCII: a letter right after a letter is lowered, any
      other letter is raised; `afterLetter` says what came before. */
  function TitleFrom(s: string, afterLetter: bool): (r: string)
    ensures |r| == |s|
    decreases |s|
  {
    if s == [] then []
    else
      var c := s[0];
      var d := if !IsAsciiLetter(c) then c else if afterLetter then LowerChar(c) else UpperChar(c);
      [d] + TitleFrom(s[1..], IsAsciiLetter(c))
  }

  function TitleCase(s: string): string {
    TitleFrom(s, false)
  }

  /** Title-casing only changes the case of letters. */
  lemma {:induction false} TitleOnlyChangesCase(s: string, afterLetter: bool)
    ensures var r := TitleFrom(s, afterLetter);
      forall i :: 0 <= i < |s| ==>
        LowerChar(r[i]) == LowerChar(s[i]) && (IsAsciiLetter(r[i]) <==> IsAsciiLetter(s[i]))
    decreases |s|
  {
    if s != [] {
      TitleOnlyChangesCase(s[1..], IsAsciiLetter(s[0]));
      var r := TitleFrom(s, afterLetter);
      forall i | 0 < i < |s|
        ensures LowerChar(r[i]) == LowerChar(s[i]) && (IsAsciiLetter(r[i]) <==> IsAsciiLetter(s[i]))
      {
        assert r[i] == TitleFrom(s[1..], IsAsciiLetter(s[0]))[i - 1];
      }
    }
  }

  /** Title-casing a title changes nothing. */
  lemma {:induction false} TitleIdempotent(s: string, afterLetter: bool)
    ensures TitleFrom(TitleFrom(s, afterLetter), afterLetter) == TitleFrom(s, afterLetter)
    decreases |s|
  {
    if s != [] {
      var r := TitleFrom(s, afterLetter);
      TitleIdempotent(s[1..], IsAsciiLetter(s[0]));
      TitleOnlyChangesCase(s, afterLetter);
      assert r[1..] == TitleFrom(s[1..], IsAsciiLetter(s[0]));
    }
  }

  /** The group heading: `### ` and the type with `_` read as a space,
      title-cased. */
  function GroupHeading(t: string): string {
    "### " + TitleCase(ReplaceAll(t, "_", " "))
  }

  /** A heading is a level-three Markdown heading with no `_` left in it. */
  lemma GroupHeadingShape(t: string)
    ensures var h := GroupHeading(t);
      StartsWith(h, "### ") && '_' !in h
  {
    var spaced := ReplaceAll(t, "_", " ");
    ReplaceCharRemoves(t, '_', " ");
    var titled := TitleCase(spaced);
    TitleOnlyChangesCase(spaced, false);
    forall i | 0 <= i < |titled| ensures titled[i] != '_' {
      assert LowerChar(titled[i]) == LowerChar(spaced[i]);
      assert spaced[i] != '_';
    }
    assert GroupHeading(t)[..4] == "### ";
  }

  /** Line 116 and line 196: the stem of an artifact's note file, which
      the README links to. */
  function ArtifactNoteName(t: string, aid: string): string {
    SanitizeFilename(t + "_" + aid, 80)
  }

  /** Line 196: the note file written for an artifact. */
  function ArtifactNoteFile(t: string, aid: string): string {
    ArtifactNoteName(t, aid) + ".md"
  }

  /** Lines 114-117: one README line per artifact, a wikilink to its note,
      labelled with the type and the first eight characters of the id, then
      the status. */
  function ItemLine(t: string, a: Artifact): string {
    "- [[Artifacts/" + ArtifactNoteName(t, IdOf(a)) + "|" + t + " "
      + SliceTo(IdOf(a), 8) + "]] (`" + StatusOf(a) + "`)"
  }

  function ItemLineOf(t: string): Artifact -> string {
    a => ItemLine(t, a)
  }

  /** The README link of an artifact names exactly the note file that the
      artifact export writes, and that name is a clean one of at most 80
      characters. */
  lemma ItemLinkResolves(t: string, a: Artifact)
    ensures exists stem ::
      && ItemLine(t, a) == "- [[Artifacts/" + stem + "|" + t + " " + SliceTo(IdOf(a), 8) + "]] (`" + StatusOf(a) + "`)"
      && stem + ".md" == ArtifactNoteFile(t, IdOf(a))
      && 0 < |stem| <= 80
      && (forall c :: c in stem ==> c !in ForbiddenChars)
      && OnlyPlainSpaces(stem) && NoDoubleSpace(stem) && !IsSpace(stem[0])
  {
    var stem := ArtifactNoteName(t, IdOf(a));
    assert 0 < |stem| <= 80 by {
      assert |stem| <= 80 || stem == "untitled";
      if stem == "untitled" {
        assert |"untitled"| == 8;
      }
    }
    assert (forall c :: c in stem ==> c !in ForbiddenChars)
      && OnlyPlainSpaces(stem) && NoDoubleSpace(stem) && !IsSpace(stem[0]);
    assert stem + ".md" == ArtifactNoteFile(t, IdOf(a));
    assert ItemLine(t, a) == "- [[Artifacts/" + stem + "|" + t + " " + SliceTo(IdOf(a), 8) + "]] (`" + StatusOf(a) + "`)";
  }

  /** How a type's heading and an artifact's line are rendered. The shape
      of the section is proved for every layout; the README uses
      `ReadmeLayout`. */
  datatype Layout = Layout(heading: string -> string, item: string -> Artifact -> string)

  const ReadmeLayout: Layout := Layout(GroupHeading, ItemLineOf)

  /** A type's block: its heading, a blank line, one line per artifact, and
      a blank line. */
  function GroupBlock(t: string, items: seq<Artifact>, layout: Layout): seq<string> {
    [layout.heading(t), ""] + Map(layout.item(t), items) + [""]
  }

  /** The blocks of the types `ts`, in that order. */
  function GroupBlocks(ts: seq<string>, artifacts: seq<Artifact>, layout: Layout): seq<string>
    decreases |ts|
  {
    if ts == [] then [] else GroupBlock(ts[0], Group(artifacts, ts[0]), layout) + GroupBlocks(ts[1..], artifacts, layout)
  }

  /** Lines 100-118 for any layout: nothing without artifacts;
      otherwise the heading and one block per type, in sorted type order. */
  function SectionLines(artifacts: seq<Artifact>, layout: Layout): seq<string> {
    if artifacts == [] then []
    else ["## Artifacts", ""] + GroupBlocks(Sort(Types(artifacts)), artifacts, layout)
  }

  /** Lines 100-118 as the README writes them. */
  function ArtifactsSectionLines(artifacts: seq<Artifact>): seq<string> {
    SectionLines(artifacts, ReadmeLayout)
  }

  lemma {:induction false} GroupBlocksAppend(a: seq<string>, b: seq<string>, artifacts: seq<Artifact>,
                                               layout: Layout)
    ensures GroupBlocks(a + b, artifacts, layout) == GroupBlocks(a, artifacts, layout) + GroupBlocks(b, artifacts, layout)
    decreases |a|
  {
    if a == [] {
      assert a + b == b;
    } else {
      assert (a + b)[1..] == a[1..] + b;
      GroupBlocksAppend(a[1..], b, artifacts, layout);
    }
  }

  lemma GroupBlocksSnoc(ts: seq<string>, k: nat, artifacts: seq<Artifact>, layout: Layout)
    requires k < |ts|
    ensures GroupBlocks(ts[..k + 1], artifacts, layout) ==
      GroupBlocks(ts[..k], artifacts, layout) + GroupBlock(ts[k], Group(artifacts, ts[k]), layout)
  {
    assert ts[..k + 1] == ts[..k] + [ts[k]];
    GroupBlocksAppend(ts[..k], [ts[k]], artifacts, layout);
    assert [ts[k]][1..] == [];
  }

  /** The body of the `sorted(artifact_types.items())` loop: one type's
      block appended to the lines so far. */
  method AppendGroup(lines: seq<string>, atype: string, items: seq<Artifact>, layout: Layout)
    returns (r: seq<string>)
    ensures r == lines + GroupBlock(atype, items, layout)
  {
    r := lines + [layout.heading(atype)];
    r := r + [""];
    ghost var head := r;
    var line := layout.item(atype);
    for j := 0 to |items|
      invariant r == head + Map(line, items[..j])
    {
      MapSnoc(line, items, j);
      r := r + [line(items[j])];
    }
    assert items[..|items|] == items;
    r := r + [""];
  }

  /** The `sorted(artifact_types.items())` loop: the blocks of the types
      `order`, each from its group in the dictionary. */
  method AppendGroups(lines: seq<string>, order: seq<string>, byType: map<string, seq<Artifact>>,
                      ghost artifacts: seq<Artifact>, layout: Layout)
    returns (r: seq<string>)
    requires forall t :: t in order ==> t in byType && byType[t] == Group(artifacts, t)
    ensures r == lines + GroupBlocks(order, artifacts, layout)
  {
    r := lines;
    for k := 0 to |order|
      invariant r == lines + GroupBlocks(order[..k], artifacts, layout)
    {
      var atype := order[k];
      var items := byType[atype];
      assert items == Group(artifacts, atype);
      GroupBlocksSnoc(order, k, artifacts, layout);
      ConcatAssoc(lines, GroupBlocks(order[..k], artifacts, layout), GroupBlock(atype, items, layout));
      r := AppendGroup(r, atype, items, layout);
    }
    assert order[..|order|] == order;
  }

  /** Lines 100-118 of `create_readme` for any layout: group the
      artifacts by type in a dictionary, then write one block per type in
      sorted order. */
  method WriteSection(artifacts: seq<Artifact>, layout: Layout) returns (lines: seq<string>)
    ensures lines == SectionLines(artifacts, layout)
  {
    if artifacts == [] {
      return [];
    }
    lines := ["## Artifacts", ""];
    var types, byType := GroupArtifacts(artifacts);
    var order := Sort(types);
    SortedKeysFound(types, byType, artifacts);
    lines := AppendGroups(lines, order, byType, artifacts, layout);
  }

  /** Sorting the keys loses none of them, so every sorted key finds its group. */
  lemma SortedKeysFound(types: seq<string>, byType: map<string, seq<Artifact>>, artifacts: seq<Artifact>)
    requires forall t :: t in byType <==> t in types
    requires forall t :: t in byType ==> byType[t] == Group(artifacts, t)
    ensures forall t :: t in Sort(types) ==> t in byType && byType[t] == Group(artifacts, t)
  {
    forall t | t in Sort(types) ensures t in types {
      assert t in multiset(Sort(types));
    }
  }

  /** The artifact section of the README. */
  method ArtifactsSection(artifacts: seq<Artifact>) returns (lines: seq<string>)
    ensures lines == ArtifactsSectionLines(artifacts)
  {
    lines := WriteSection(artifacts, ReadmeLayout);
  }

  /** The number of artifacts in the groups `ts`. */
  function GroupSizes(ts: seq<string>, artifacts: seq<Artifact>): nat
    decreases |ts|
  {
    if ts == [] then 0 else |Group(artifacts, ts[0])| + GroupSizes(ts[1..], artifacts)
  }

  lemma {:induction false} GroupSizesCons(ts: seq<string>, a: Artifact, rest: seq<Artifact>)
    requires Distinct(ts)
    ensures GroupSizes(ts, [a] + rest) == GroupSizes(ts, rest) + (if TypeOf(a) in ts then 1 else 0)
    decreases |ts|
  {
    if ts != [] {
      assert ([a] + rest)[1..] == rest;
      assert Distinct(ts[1..]);
      GroupSizesCons(ts[1..], a, rest);
      assert TypeOf(a) in ts <==> TypeOf(a) == ts[0] || TypeOf(a) in ts[1..];
    }
  }

  /** Distinct groups covering every type partition the artifacts. */
  lemma {:induction false} PartitionCount(ts: seq<string>, artifacts: seq<Artifact>)
    requires Distinct(ts)
    requires forall i :: 0 <= i < |artifacts| ==> TypeOf(artifacts[i]) in ts
    ensures GroupSizes(ts, artifacts) == |artifacts|
    decreases |artifacts|
  {
    if artifacts == [] {
      GroupSizesEmpty(ts);
    } else {
      assert artifacts == [artifacts[0]] + artifacts[1..];
      PartitionCount(ts, artifacts[1..]);
      GroupSizesCons(ts, artifacts[0], artifacts[1..]);
    }
  }

  lemma {:induction false} GroupSizesEmpty(ts: seq<string>)
    ensures GroupSizes(ts, []) == 0
    decreases |ts|
  {
    if ts != [] {
      GroupSizesEmpty(ts[1..]);
    }
  }

  lemma {:induction false} GroupBlocksLength(ts: seq<string>, artifacts: seq<Artifact>,
                                               layout: Layout)
    ensures |GroupBlocks(ts, artifacts, layout)| == 3 * |ts| + GroupSizes(ts, artifacts)
    decreases |ts|
  {
    if ts != [] {
      GroupBlocksLength(ts[1..], artifacts, layout);
    }
  }

  /** Each artifact gets exactly one line: the section has its two heading
      lines, three framing lines per type, and one line per artifact. */
  lemma ArtifactsSectionCount(artifacts: seq<Artifact>)
    requires artifacts != []
    ensures |ArtifactsSectionLines(artifacts)| == 2 + 3 * |Types(artifacts)| + |artifacts|
  {
    var ts := Types(artifacts);
    TypesProperties(artifacts);
    SortSorted(ts);
    var order := Sort(ts);
    assert |order| == |ts| by {
      assert |multiset(order)| == |multiset(ts)|;
    }
    forall i | 0 <= i < |artifacts| ensures TypeOf(artifacts[i]) in order {
      assert TypeOf(artifacts[i]) in ts;
      assert TypeOf(artifacts[i]) in multiset(ts);
    }
    PartitionCount(order, artifacts);
    GroupBlocksLength(order, artifacts, ReadmeLayout);
  }

  /** The blocks come in strictly increasing type order and there is one per
      type that occurs. */
  lemma SectionOrder(artifacts: seq<Artifact>)
    ensures var order := Sort(Types(artifacts));
      && StrictlySorted(order)
      && (forall t :: t in order <==> exists i :: 0 <= i < |artifacts| && TypeOf(artifacts[i]) == t)
  {
    var ts := Types(artifacts);
    TypesProperties(artifacts);
    SortSorted(ts);
    forall t ensures t in Sort(ts) <==> t in ts {
      assert t in multiset(Sort(ts)) <==> t in multiset(ts);
    }
  }

  // ---------------------------------------------------------------------
  // The studio file of an artifact (lines 225-237)
  // ---------------------------------------------------------------------

  /** The artifact types that have a studio file. */
  datatype FileKind = Audio | Video | Report | SlideDeck | Infographic | MindMap | Quiz | Flashcards | DataTable

  /** The type name under which each kind appears in the manifest. */
  function KindName(k: FileKind): string {
    match k
    case Audio => "audio"
    case Video => "video"
    case Report => "report"
    case SlideDeck => "slide_deck"
    case Infographic => "infographic"
    case MindMap => "mind_map"
    case Quiz => "quiz"
    case Flashcards => "flashcards"
    case DataTable => "data_table"
  }

  /** The `atype in artifact_file_patterns` lookup. */
  function KindOf(atype: string): (r: Option<FileKind>)
    ensures r.Some? ==> KindName(r.value) == atype
    ensures r.None? ==> forall k :: KindName(k) != atype
  {
    if atype == "audio" then Some(Audio)
    else if atype == "video" then Some(Video)
    else if atype == "report" then Some(Report)
    else if atype == "slide_deck" then Some(SlideDeck)
    else if atype == "infographic" then Some(Infographic)
    else if atype == "mind_map" then Some(MindMap)
    else if atype == "quiz" then Some(Quiz)
    else if atype == "flashcards" then Some(Flashcards)
    else if atype == "data_table" then Some(DataTable)
    else None
  }

  /** Lines 225-234: the studio file of each kind, built from the id. */
  function KindPath(k: FileKind, aid: string): string {
    match k
    case Audio => "studio/audio/" + aid + ".mp3"
    case Video => "studio/video/" + aid + ".mp4"
    case Report => "studio/documents/" + aid + ".md"
    case SlideDeck => "studio/documents/" + aid + ".pdf"
    case Infographic => "studio/visual/" + aid + ".png"
    case MindMap => "studio/visual/" + aid + ".json"
    case Quiz => "studio/interactive/" + aid + "-quiz.json"
    case Flashcards => "studio/interactive/" + aid + "-flashcards.json"
    case DataTable => "studio/interactive/" + aid + "-data-table.csv"
  }

  /** Lines 225-237: where the studio file of an artifact lives, relative to
      the export directory; no file for a type outside the table. */
  function ArtifactFilePath(atype: string, aid: string): (r: Option<string>)
    ensures r.Some? <==> exists k :: KindName(k) == atype
  {
    match KindOf(atype)
    case None => None
    case Some(k) => Some(KindPath(k, aid))
  }

  /** The studio sub-directory of a kind. */
  function FileDir(k: FileKind): (d: string)
    ensures |d| >= 5
  {
    match k
    case Audio => "audio"
    case Video => "video"
    case Report | SlideDeck => "documents"
    case Infographic | MindMap => "visual"
    case Quiz | Flashcards | DataTable => "interactive"
  }

  /** What follows the id in the file name of a kind. */
  function FileSuffix(k: FileKind): (s: string)
    ensures |s| >= 3
  {
    match k
    case Audio => ".mp3"
    case Video => ".mp4"
    case Report => ".md"
    case SlideDeck => ".pdf"
    case Infographic => ".png"
    case MindMap => ".json"
    case Quiz => "-quiz.json"
    case Flashcards => "-flashcards.json"
    case DataTable => "-data-table.csv"
  }

  /** Every path is the kind's directory under `studio/`, the id, and the
      kind's suffix. */
  lemma KindPathShape(k: FileKind, aid: string)
    ensures KindPath(k, aid) == "studio/" + FileDir(k) + "/" + aid + FileSuffix(k)
  {
    match k
    case Audio =>
      assert "studio/audio/" == "studio/" + "audio" + "/";
    case Video =>
      assert "studio/video/" == "studio/" + "video" + "/";
    case Report =>
      assert "studio/documents/" == "studio/" + "documents" + "/";
    case SlideDeck =>
      assert "studio/documents/" == "studio/" + "documents" + "/";
    case Infographic =>
      assert "studio/visual/" == "studio/" + "visual" + "/";
    case MindMap =>
      assert "studio/visual/" == "studio/" + "visual" + "/";
    case Quiz =>
      assert "studio/interactive/" == "studio/" + "interactive" + "/";
    case Flashcards =>
      assert "studio/interactive/" == "studio/" + "interactive" + "/";
    case DataTable =>
      assert "studio/interactive/" == "studio/" + "interactive" + "/";
  }

  /** The first and third letters tell the directories apart. */
  lemma FileDirKey(k1: FileKind, k2: FileKind)
    requires FileDir(k1)[0] == FileDir(k2)[0] && FileDir(k1)[2] == FileDir(k2)[2]
    ensures FileDir(k1) == FileDir(k2)
  {
  }

  /** Within one directory, the last letter of the suffix and, for the long
      ones, the sixth letter from the end tell the kinds apart. */
  lemma FileSuffixKey(k1: FileKind, k2: FileKind)
    requires FileDir(k1) == FileDir(k2)
    requires var s1, s2 := FileSuffix(k1), FileSuffix(k2);
      s1[|s1| - 1] == s2[|s2| - 1] && (|s1| >= 6 && |s2| >= 6 ==> s1[|s1| - 6] == s2[|s2| - 6])
    ensures k1 == k2
  {
  }

  /** What two equal paths under `studio/` have in common. */
  lemma PathParts(d1: string, a1: string, s1: string, d2: string, a2: string, s2: string)
    requires |d1| >= 3 && |d2| >= 3 && s1 != [] && s2 != []
    requires "studio/" + d1 + "/" + a1 + s1 == "studio/" + d2 + "/" + a2 + s2
    ensures d1[0] == d2[0] && d1[2] == d2[2]
    ensures s1[|s1| - 1] == s2[|s2| - 1]
    ensures |s1| >= 6 && |s2| >= 6 ==> s1[|s1| - 6] == s2[|s2| - 6]
    ensures d1 == d2 && s1 == s2 ==> a1 == a2
  {
    var w := "studio/" + d1 + "/" + a1 + s1;
    assert w[7] == d1[0] && w[9] == d1[2];
    assert w[7] == ("studio/" + d2 + "/" + a2 + s2)[7] == d2[0];
    assert w[9] == ("studio/" + d2 + "/" + a2 + s2)[9] == d2[2];
    assert w[|w| - 1] == s1[|s1| - 1] && w[|w| - 1] == s2[|s2| - 1];
    if |s1| >= 6 && |s2| >= 6 {
      assert w[|w| - 6] == s1[|s1| - 6] && w[|w| - 6] == s2[|s2| - 6];
    }
    if d1 == d2 && s1 == s2 {
      var n := |"studio/" + d1 + "/"|;
      assert a1 == w[n..|w| - |s1|];
      assert a2 == ("studio/" + d2 + "/" + a2 + s2)[n..|w| - |s2|];
    }
  }

  /** Two studio files of kinds coincide only for the same kind and id. */
  lemma KindPathInjective(k1: FileKind, a1: string, k2: FileKind, a2: string)
    requires KindPath(k1, a1) == KindPath(k2, a2)
    ensures k1 == k2 && a1 == a2
  {
    KindPathShape(k1, a1);
    KindPathShape(k2, a2);
    PathParts(FileDir(k1), a1, FileSuffix(k1), FileDir(k2), a2, FileSuffix(k2));
    FileDirKey(k1, k2);
    FileSuffixKey(k1, k2);
  }

  /** Two artifacts with a file never share a path: the path determines the
      type and the id. */
  lemma FilePathInjective(t1: string, a1: string, t2: string, a2: string)
    requires ArtifactFilePath(t1, a1).Some? && ArtifactFilePath(t1, a1) == ArtifactFilePath(t2, a2)
    ensures t1 == t2 && a1 == a2
  {
    KindPathInjective(KindOf(t1).value, a1, KindOf(t2).value, a2);
  }
}
