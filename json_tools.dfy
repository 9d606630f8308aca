/** Dotted-path lookup into a JSON value (`_get_path`) and the bash-friendly
    rendering of what it finds (`cmd_get`), from lib/json_tools.py. */
module JsonTools {
  import opened Wrappers
  import opened Strings
  import opened JsonValue

  /** The `KeyError`/`IndexError` messages `_get_path` can raise. */
  datatype PathError =
    | EmptySegment                 // "empty path segment"
    | NotAnIndex(part: string)     // "expected list index, got: <part>"
    | IndexOutOfRange(index: int)  // IndexError from `cur[idx]`
    | MissingKey(part: string)     // KeyError(part)
    | NotAContainer(part: string)  // "cannot traverse into non-container at segment: <part>"

  /** Python's `int(part)`: surrounding whitespace, an optional sign, then decimal digits. */
  function ParseInt(part: string): Option<int> {
    ParseSigned(Strip(part))
  }

  predicate AllDigits(s: string) {
    forall k :: 0 <= k < |s| ==> IsDigit(s[k])
  }

  /** An optional sign followed by at least one decimal digit. */
  function ParseSigned(t: string): Option<int> {
    if t == [] then None
    else
      var digits := if t[0] == '-' || t[0] == '+' then t[1..] else t;
      if digits != [] && AllDigits(digits) then
        var m := DigitsValue(digits) as int;
        Some(if t[0] == '-' then -m else m)
      else None
  }

  /** Every integer, rendered by `str`, parses back to itself. */
  lemma ParseIntOfIntToString(n: int)
    ensures ParseInt(IntToString(n)) == Some(n)
  {
    var m: nat := if n < 0 then -n else n;
    var d := NatToString(m);
    DigitsValueOfNatToString(m);
    var s := IntToString(n);
    assert IsDigit(d[0]) && IsDigit(d[|d| - 1]);
    if n < 0 {
      assert s == "-" + d && s[1..] == d;
    } else {
      assert s == d;
    }
    StripOfTrimmed(s);
    ParseSignedDigits(s, d, n);
  }

  lemma ParseSignedDigits(s: string, d: string, n: int)
    requires d != [] && AllDigits(d)
    requires n < 0 ==> s == "-" + d && DigitsValue(d) == -n
    requires n >= 0 ==> s == d && DigitsValue(d) == n
    ensures ParseSigned(s) == Some(n)
  {
    if n < 0 {
      assert s[1..] == d;
    } else {
      assert IsDigit(s[0]);
    }
  }

  /** Python's `lst[idx]`: negative indexes count from the end. */
  function PyIndex(len: nat, idx: int): (r: Option<nat>)
    ensures r.Some? <==> -(len as int) <= idx < len
    ensures r.Some? ==> r.value < len && (r.value == idx || r.value == len + idx)
  {
    if 0 <= idx < len then Some(idx)
    else if -(len as int) <= idx < 0 then Some(len + idx)
    else None
  }

  /** One step of `_get_path`: descend from `cur` by the segment `part`. */
  function Step(cur: Json, part: string): (r: Result<Json, PathError>)
    ensures r.Success? ==> r.value < cur
  {
    if part == "" then Failure(EmptySegment)
    else match cur
      case JArr(items) =>
        (match ParseInt(part)
         case None => Failure(NotAnIndex(part))
         case Some(idx) =>
           match PyIndex(|items|, idx)
           case None => Failure(IndexOutOfRange(idx))
           case Some(i) => Success(items[i]))
      case JObj(fields) =>
        (match FindKey(fields, part)
         case None => Failure(MissingKey(part))
         case Some(v) =>
           assert exists k :: 0 <= k < |fields| && fields[k] == Field(part, v);
           Success(v))
      case _ => Failure(NotAContainer(part))
  }

  /** Walking the segments in order; the first failing segment decides the error. */
  function Lookup(cur: Json, parts: seq<string>): Result<Json, PathError>
    decreases |parts|
  {
    if parts == [] then Success(cur)
    else match Step(cur, parts[0])
      case Failure(e) => Failure(e)
      case Success(next) => Lookup(next, parts[1..])
  }

  /** One unfolding of `Lookup`. */
  lemma LookupUnfold(cur: Json, ps: seq<string>)
    requires ps != []
    ensures Step(cur, ps[0]).Failure? ==> Lookup(cur, ps) == Failure(Step(cur, ps[0]).error)
    ensures Step(cur, ps[0]).Success? ==> Lookup(cur, ps) == Lookup(Step(cur, ps[0]).value, ps[1..])
  {
  }

  /** The body of `_get_path`'s loop for one segment: the early exits and
      the descent into a list element or an object value. */
  method Descend(cur: Json, part: string) returns (r: Result<Json, PathError>)
    ensures r == Step(cur, part)
  {
    if part == "" {
      return Failure(EmptySegment);
    }
    if cur.JArr? {
      var idx := ParseInt(part);
      if idx.None? {
        return Failure(NotAnIndex(part));
      }
      var pos := PyIndex(|cur.items|, idx.value);
      if pos.None? {
        return Failure(IndexOutOfRange(idx.value));
      }
      return Success(cur.items[pos.value]);
    }
    if cur.JObj? {
      var v := FindKey(cur.fields, part);
      if v.None? {
        return Failure(MissingKey(part));
      }
      return Success(v.value);
    }
    return Failure(NotAContainer(part));
  }

  /** `_get_path(obj, path)`: the loop over `path.split(".")` with its early exits. */
  method GetPath(obj: Json, path: string) returns (r: Result<Json, PathError>)
    ensures r == Lookup(obj, Split(path, '.'))
  {
    var parts := Split(path, '.');
    var cur := obj;
    var i := 0;
    while i < |parts|
      invariant 0 <= i <= |parts|
      invariant Lookup(obj, parts) == Lookup(cur, parts[i..])
    {
      LookupUnfold(cur, parts[i..]);
      assert parts[i..][1..] == parts[i + 1..];
      var next := Descend(cur, parts[i]);
      if next.Failure? {
        return Failure(next.error);
      }
      cur := next.value;
      i := i + 1;
    }
    assert parts[i..] == [];
    r := Success(cur);
  }

  /** A path with an empty segment never resolves, whatever the value. */
  lemma {:induction false} LookupRejectsEmptySegment(cur: Json, parts: seq<string>)
    requires "" in parts
    ensures Lookup(cur, parts).Failure?
    decreases |parts|
  {
    if parts[0] != "" {
      assert "" in parts[1..];
      if Step(cur, parts[0]).Success? {
        LookupRejectsEmptySegment(Step(cur, parts[0]).value, parts[1..]);
      }
    }
  }

  /** The empty path, a leading or trailing dot and `..` are all rejected; a
      leading dot or the empty path is reported as an empty segment. */
  lemma EmptySegmentRejected(obj: Json, path: string)
    requires path == "" || path[0] == '.' || path[|path| - 1] == '.' || HasAdjacent(path, '.')
    ensures Lookup(obj, Split(path, '.')).Failure?
    ensures path == "" || path[0] == '.' ==> Lookup(obj, Split(path, '.')) == Failure(EmptySegment)
  {
    SplitHasEmptyPart(path, '.');
    SplitFirstEmpty(path, '.');
    LookupRejectsEmptySegment(obj, Split(path, '.'));
  }

  /** Which dotted paths have an empty segment: exactly the four shapes above. */
  lemma EmptySegmentShapes(path: string)
    ensures "" in Split(path, '.') <==>
      path == "" || path[0] == '.' || path[|path| - 1] == '.' || HasAdjacent(path, '.')
  {
    SplitHasEmptyPart(path, '.');
  }

  /** On a list, a segment that is not an integer, or an integer outside
      the list's range, makes the lookup fail. */
  lemma ListSegmentFails(items: seq<Json>, part: string, rest: seq<string>)
    requires part != ""
    ensures ParseInt(part).None? ==>
      Lookup(JArr(items), [part] + rest) == Failure(NotAnIndex(part))
    ensures ParseInt(part).Some? && !(-|items| <= ParseInt(part).value < |items|) ==>
      Lookup(JArr(items), [part] + rest) == Failure(IndexOutOfRange(ParseInt(part).value))
  {
    var ps := [part] + rest;
    assert ps[0] == part;
    LookupUnfold(JArr(items), ps);
  }

  /** On a list, an integer segment within range descends into that element,
      counted from the end when negative. */
  lemma ListSegmentDescends(items: seq<Json>, part: string, rest: seq<string>)
    requires part != "" && ParseInt(part).Some?
    ensures 0 <= ParseInt(part).value < |items| ==>
      Lookup(JArr(items), [part] + rest) == Lookup(items[ParseInt(part).value], rest)
    ensures -|items| <= ParseInt(part).value < 0 ==>
      Lookup(JArr(items), [part] + rest) == Lookup(items[|items| + ParseInt(part).value], rest)
  {
    var ps := [part] + rest;
    assert ps[0] == part && ps[1..] == rest;
    var idx := ParseInt(part).value;
    var i := PyIndex(|items|, idx);
    if i.Some? {
      assert Step(JArr(items), part) == Success(items[i.value]);
      LookupUnfold(JArr(items), ps);
      assert Lookup(JArr(items), ps) == Lookup(items[i.value], rest);
    }
  }

  /** On an object, a missing key fails and a present key descends into its value. */
  lemma ObjectSegment(fields: seq<Field>, part: string, rest: seq<string>)
    requires part != ""
    ensures (forall k :: 0 <= k < |fields| ==> fields[k].key != part) ==>
      Lookup(JObj(fields), [part] + rest) == Failure(MissingKey(part))
    ensures forall k :: (0 <= k < |fields| && fields[k].key == part
                         && forall j :: 0 <= j < k ==> fields[j].key != part) ==>
      Lookup(JObj(fields), [part] + rest) == Lookup(fields[k].value, rest)
  {
    assert ([part] + rest)[1..] == rest;
    forall k | 0 <= k < |fields| && fields[k].key == part
      && (forall j :: 0 <= j < k ==> fields[j].key != part)
      ensures FindKey(fields, part) == Some(fields[k].value)
    {
      FindKeyFirst(fields, part, k);
    }
  }

  lemma {:induction false} FindKeyFirst(fields: seq<Field>, key: string, k: nat)
    requires k < |fields| && fields[k].key == key
    requires forall j :: 0 <= j < k ==> fields[j].key != key
    ensures FindKey(fields, key) == Some(fields[k].value)
    decreases k
  {
    if k > 0 {
      FindKeyFirst(fields[1..], key, k - 1);
    }
  }

  /** A scalar cannot be descended into. */
  lemma ScalarSegment(cur: Json, part: string, rest: seq<string>)
    requires part != "" && !cur.JArr? && !cur.JObj?
    ensures Lookup(cur, [part] + rest) == Failure(NotAContainer(part))
  {
  }

  /** Lookup along `p + q` is lookup along `p`, then along `q` from where `p` led;
      a failure along `p` is the failure of the whole. */
  lemma {:induction false} LookupAppend(cur: Json, p: seq<string>, q: seq<string>)
    ensures Lookup(cur, p + q) ==
      match Lookup(cur, p)
      case Success(v) => Lookup(v, q)
      case Failure(e) => Failure(e)
    decreases |p|
  {
    if p == [] {
      assert p + q == q;
    } else {
      assert (p + q)[0] == p[0];
      assert (p + q)[1..] == p[1..] + q;
      if Step(cur, p[0]).Success? {
        LookupAppend(Step(cur, p[0]).value, p[1..], q);
      }
    }
  }

  /** `get(obj, "a.b")` is `get(get(obj, "a"), "b")`. */
  lemma GetPathCompositional(obj: Json, a: string, b: string)
    ensures Lookup(obj, Split(a + "." + b, '.')) ==
      match Lookup(obj, Split(a, '.'))
      case Success(v) => Lookup(v, Split(b, '.'))
      case Failure(e) => Failure(e)
  {
    SplitConcat(a, b, '.');
    LookupAppend(obj, Split(a, '.'), Split(b, '.'));
  }

  /** What `cmd_get` writes to stdout: containers as a JSON line, scalars as text. */
  datatype Output =
    | NoOutput
    | JsonLine(value: Json)   // json.dump(val) followed by "\n"
    | TextLine(text: string)  // print(...)

  /** The bash-friendly rendering of a found value. */
  function Render(v: Json): (out: Output)
    ensures out.JsonLine? <==> v.JArr? || v.JObj?
    ensures out.JsonLine? ==> out.value == v
  {
    match v
    case JArr(_) => JsonLine(v)
    case JObj(_) => JsonLine(v)
    case JNull => TextLine("null")
    case JBool(b) => TextLine(if b then "true" else "false")
    case JInt(n) => TextLine(IntToString(n))
    case JStr(s) => TextLine(s)
  }

  /** Non-string scalars print as their JSON literal, which reads back to the value. */
  lemma RenderScalarLiteral(v: Json)
    requires !v.JArr? && !v.JObj? && !v.JStr?
    ensures v.JNull? <==> Render(v) == TextLine("null")
    ensures v.JBool? ==> Render(v) == TextLine(if v.b then "true" else "false")
    ensures v.JInt? ==> ParseInt(Render(v).text) == Some(v.n)
  {
    if v.JInt? {
      ParseIntOfIntToString(v.n);
    } else if v.JBool? {
      assert Render(v).text != "null";
    }
  }

  /** A string value prints bare, so the string "null" and JSON null print alike. */
  lemma RenderStringBare()
    ensures Render(JStr("null")) == Render(JNull)
    ensures Render(JStr("true")) == Render(JBool(true))
  {
  }

  /** `cmd_get` once stdin has been parsed: exit code 1 on any lookup error and
      nothing on stdout, exit code 0 and the rendering otherwise. */
  method CmdGet(obj: Json, path: string) returns (code: int, out: Output)
    ensures code == 0 <==> Lookup(obj, Split(path, '.')).Success?
    ensures code == 1 <==> Lookup(obj, Split(path, '.')).Failure?
    ensures code == 0 ==> out == Render(Lookup(obj, Split(path, '.')).value)
    ensures code == 1 ==> out == NoOutput
  {
    var val := GetPath(obj, path);
    if val.Failure? {
      return 1, NoOutput;
    }
    var v := val.value;
    if v.JObj? || v.JArr? {
      return 0, JsonLine(v);
    }
    if v.JNull? {
      return 0, TextLine("null");
    }
    if v.JBool? {
      return 0, TextLine(if v.b then "true" else "false");
    }
    if v.JInt? {
      return 0, TextLine(IntToString(v.n));
    }
    return 0, TextLine(v.s);
  }
}
