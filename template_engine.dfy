/** `{{key}}` interpolation over a JSON template (`interpolate_variables`)
    and the id/category derivation of `list_templates`, from lib/template_engine.py. */
module TemplateEngine {
  import opened Wrappers
  import opened Strings
  import opened JsonValue

  /** The variables dict, as its `items()` in insertion order. */
  type Variables = seq<(string, string)>

  function Placeholder(key: string): (p: string)
    ensures p != [] && |p| == |key| + 4
  {
    "{{" + key + "}}"
  }

  /** The string case of `interpolate_value`: each variable in map order
      replaces every occurrence of its placeholder in the current text. */
  function Substitute(value: string, vars: Variables): string
    decreases |vars|
  {
    if vars == [] then value
    else Substitute(ReplaceAll(value, Placeholder(vars[0].0), vars[0].1), vars[1..])
  }

  /** The loop over `variables.items()` that reassigns `value`. */
  method SubstituteVariables(value: string, vars: Variables) returns (r: string)
    ensures r == Substitute(value, vars)
  {
    r := value;
    var i := 0;
    while i < |vars|
      invariant 0 <= i <= |vars|
      invariant Substitute(r, vars[i..]) == Substitute(value, vars)
    {
      var (key, val) := vars[i];
      assert vars[i..][1..] == vars[i + 1..];
      r := ReplaceAll(r, Placeholder(key), val);
      i := i + 1;
    }
  }

  /** `t` has the same shape as `v`: same strings-or-not at the leaves, equal
      non-string scalars, the same object keys in the same order and the same
      list lengths. */
  predicate SameShape(v: Json, t: Json)
    decreases v
  {
    match v
    case JStr(_) => t.JStr?
    case JArr(items) =>
      t.JArr? && |t.items| == |items|
      && forall i :: 0 <= i < |items| ==> SameShape(items[i], t.items[i])
    case JObj(fields) =>
      t.JObj? && |t.fields| == |fields|
      && forall i :: 0 <= i < |fields| ==>
           t.fields[i].key == fields[i].key && SameShape(fields[i].value, t.fields[i].value)
    case _ => t == v
  }

  /** `interpolate_value`: strings are substituted, dicts and lists are rebuilt
      element by element, everything else is returned as is. */
  function Interpolate(v: Json, vars: Variables): (r: Json)
    ensures SameShape(v, r)
    decreases v
  {
    match v
    case JStr(s) => JStr(Substitute(s, vars))
    case JArr(items) =>
      JArr(seq(|items|, i requires 0 <= i < |items| => Interpolate(items[i], vars)))
    case JObj(fields) =>
      JObj(seq(|fields|, i requires 0 <= i < |fields| =>
        Field(fields[i].key, Interpolate(fields[i].value, vars))))
    case _ => v
  }

  /** No string leaf of `v` holds a placeholder of any variable. */
  predicate FreeOfPlaceholders(v: Json, vars: Variables)
    decreases v
  {
    match v
    case JStr(s) => forall k :: 0 <= k < |vars| ==> !Contains(s, Placeholder(vars[k].0))
    case JArr(items) => forall i :: 0 <= i < |items| ==> FreeOfPlaceholders(items[i], vars)
    case JObj(fields) => forall i :: 0 <= i < |fields| ==> FreeOfPlaceholders(fields[i].value, vars)
    case _ => true
  }

  /** A string without any variable's placeholder comes out unchanged. */
  lemma {:induction false} SubstituteWithoutPlaceholders(s: string, vars: Variables)
    requires forall k :: 0 <= k < |vars| ==> !Contains(s, Placeholder(vars[k].0))
    ensures Substitute(s, vars) == s
    decreases |vars|
  {
    if vars != [] {
      ReplaceAllAbsent(s, Placeholder(vars[0].0), vars[0].1);
      SubstituteWithoutPlaceholders(s, vars[1..]);
    }
  }

  /** A template none of whose strings holds a placeholder is returned unchanged;
      in particular every template is returned unchanged by an empty variable map. */
  lemma {:induction false} InterpolateIdentity(v: Json, vars: Variables)
    requires vars == [] || FreeOfPlaceholders(v, vars)
    ensures Interpolate(v, vars) == v
    decreases v
  {
    match v
    case JStr(s) =>
      if vars != [] {
        SubstituteWithoutPlaceholders(s, vars);
      }
    case JArr(items) =>
      forall i | 0 <= i < |items| ensures Interpolate(items[i], vars) == items[i] {
        InterpolateIdentity(items[i], vars);
      }
      assert Interpolate(v, vars).items == items;
    case JObj(fields) =>
      forall i | 0 <= i < |fields| ensures Interpolate(fields[i].value, vars) == fields[i].value {
        InterpolateIdentity(fields[i].value, vars);
      }
      assert Interpolate(v, vars).fields == fields;
    case _ =>
  }

  /** Object keys are never interpolated, even when they hold a placeholder. */
  lemma KeysNotInterpolated(fields: seq<Field>, vars: Variables, i: nat)
    requires i < |fields|
    ensures Interpolate(JObj(fields), vars).fields[i].key == fields[i].key
  {
  }

  /** Substituting `a + b` substitutes `a` and then `b` into the result:
      text produced by the variables of `a` is searched for the placeholders
      of `b`, and the variables of `a` never see what `b` produces. */
  lemma {:induction false} SubstituteAppend(s: string, a: Variables, b: Variables)
    ensures Substitute(s, a + b) == Substitute(Substitute(s, a), b)
    decreases |a|
  {
    if a != [] {
      assert (a + b)[0] == a[0];
      assert (a + b)[1..] == a[1..] + b;
      SubstituteAppend(ReplaceAll(s, Placeholder(a[0].0), a[0].1), a[1..], b);
    } else {
      assert a + b == b;
    }
  }

  /** The cascade at one variable: its value is put in after the earlier
      variables' substitutions, and only the later variables act on it. */
  lemma SubstituteAt(s: string, vars: Variables, i: nat)
    requires i < |vars|
    ensures Substitute(s, vars)
      == Substitute(ReplaceAll(Substitute(s, vars[..i]), Placeholder(vars[i].0), vars[i].1), vars[i + 1..])
  {
    assert vars == vars[..i] + vars[i..];
    SubstituteAppend(s, vars[..i], vars[i..]);
  }

  /** An instance of the cascade: a value holding a later key's placeholder
      is substituted again, one holding an earlier key's is not. */
  lemma SubstitutionCascades()
    ensures Substitute("{{a}}", [("a", "{{b}}"), ("b", "x")]) == "x"
    ensures Substitute("{{a}}", [("b", "x"), ("a", "{{b}}")]) == "{{b}}"
  {
    var a := Placeholder("a");
    var b := Placeholder("b");
    assert a == "{{a}}" && b == "{{b}}";
    ReplaceAllAtFirst(a, a, b, 0);
    ReplaceAllAtFirst(b, b, "x", 0);
    ReplaceAllAbsent("x", b, "x");
    ReplaceAllAbsent("", b, "x");
    ReplaceAllAbsent("", a, b);
    assert !Contains(a, b) by {
      assert a[2] != b[2];
    }
    ReplaceAllAbsent(a, b, "x");
    assert a[5..] == "";
    assert b[5..] == "";
  }

  /** A template file found below the templates directory, relative to it:
      `dirs` are its directory components, `name` its file name. */
  datatype RelPath = RelPath(dirs: seq<string>, name: string)

  datatype TemplateInfo = TemplateInfo(id: string, path: string, category: string)

  /** Index of the last `c` in `s`, if any. */
  function LastIndexOf(s: string, c: char): (r: Option<nat>)
    ensures r.Some? ==> r.value < |s| && s[r.value] == c
                        && forall k :: r.value < k < |s| ==> s[k] != c
    ensures r.None? ==> c !in s
    decreases |s|
  {
    if s == [] then None
    else if s[|s| - 1] == c then Some(|s| - 1)
    else
      assert s == s[..|s| - 1] + [s[|s| - 1]];
      LastIndexOf(s[..|s| - 1], c)
  }

  /** `PurePath.with_suffix('')` on a file name: the last suffix goes, where a
      suffix is a final `.` that is neither the first nor the last character. */
  function StripSuffix(name: string): string {
    match LastIndexOf(name, '.')
    case Some(i) => if 0 < i < |name| - 1 then name[..i] else name
    case None => name
  }

  /** `x.json` loses exactly its `.json`; a bare `.json` is a hidden file with no suffix. */
  lemma StripJsonSuffix(stem: string)
    ensures stem != "" ==> StripSuffix(stem + ".json") == stem
    ensures StripSuffix(".json") == ".json"
  {
    var name := stem + ".json";
    assert name[|stem|] == '.';
    assert forall k :: |stem| < k < |name| ==> name[k] != '.';
    LastIsUnique(name, '.', |stem|);
    assert name[..|stem|] == stem;
    LastIsUnique(".json", '.', 0);
  }

  lemma LastIsUnique(s: string, c: char, i: nat)
    requires i < |s| && s[i] == c && forall k :: i < k < |s| ==> s[k] != c
    ensures LastIndexOf(s, c) == Some(i)
  {
    assert s[i] in s;
  }

  function JoinPath(parts: seq<string>): string {
    Join(parts, "/")
  }

  /** The record `list_templates` builds for one template file. */
  function TemplateOf(templatesDir: string, f: RelPath): (t: TemplateInfo)
    ensures t.category == "general" <==> f.dirs == [] || f.dirs[0] == "general"
  {
    TemplateInfo(
      JoinPath(f.dirs + [StripSuffix(f.name)]),
      JoinPath([templatesDir] + f.dirs + [f.name]),
      if |f.dirs| > 0 then f.dirs[0] else "general")
  }

  /** The id of `<dirs>/<stem>.json` is `<dirs>/<stem>`; its category is the
      first directory, or `general` directly in the templates directory. */
  lemma TemplateIdAndCategory(templatesDir: string, dirs: seq<string>, stem: string)
    requires stem != ""
    ensures TemplateOf(templatesDir, RelPath(dirs, stem + ".json")).id == JoinPath(dirs + [stem])
    ensures TemplateOf(templatesDir, RelPath(dirs, stem + ".json")).category ==
      if dirs == [] then "general" else dirs[0]
  {
    StripJsonSuffix(stem);
  }

  /** `list_templates`: an empty list for a missing directory, otherwise one
      record per file found, in the enumeration order given by `files`. */
  method ListTemplates(dirExists: bool, templatesDir: string, files: seq<RelPath>)
    returns (templates: seq<TemplateInfo>)
    ensures !dirExists ==> templates == []
    ensures dirExists ==> |templates| == |files|
    ensures dirExists ==>
      forall i :: 0 <= i < |files| ==> templates[i] == TemplateOf(templatesDir, files[i])
  {
    templates := [];
    if !dirExists {
      return [];
    }
    for i := 0 to |files|
      invariant |templates| == i
      invariant forall k :: 0 <= k < i ==> templates[k] == TemplateOf(templatesDir, files[k])
    {
      var f := files[i];
      var parts := f.dirs + [f.name];
      var category := if |parts| > 1 then parts[0] else "general";
      templates := templates + [TemplateInfo(JoinPath(f.dirs + [StripSuffix(f.name)]),
                                             JoinPath([templatesDir] + f.dirs + [f.name]),
                                             category)];
    }
  }
}
