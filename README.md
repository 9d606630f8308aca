# NotebookLM helper library, modelled in Dafny

This project models the Python helper layer (`lib/`) of a NotebookLM
automation toolkit and proves what each helper promises:

- `json_tools`: the dotted-path lookup `_get_path` into a parsed JSON value
  (one error per kind of failing segment) and the bash-friendly rendering of
  what `cmd_get` finds (`JsonTools`, over the `JsonValue.Json` datatype).
- `template_engine`: `{{key}}` interpolation over a JSON template, which
  substitutes string leaves only and in variable order, and the id/category
  derivation of `list_templates` (`TemplateEngine`).
- `deduplicate_sources`: `normalize_url` over a parsed URL record, and the
  first-occurrence-wins deduplication of research sources keyed on it
  (`DeduplicateSources`).
- `web_search`: the three-criterion quality filter over search results
  (`WebSearch`).
- `export_obsidian`: safe file names, YAML frontmatter, the README's
  artifact section grouped by type in sorted order, and the table from
  artifact type to studio file (`ExportObsidian`).
- `export_notion`: the single Markdown page, built section by section, and
  its output file name (`ExportNotion`).
- `export_anki`: selection, tagging and ordering of the flashcards written to
  the CSV (`ExportAnki`).

Where the Python mutates a list, a set or a dictionary in a loop, the model
is a `method` with that loop and its invariants. Each such method is proved
equal to a specification function, and the promised properties are proved
about that function as lemmas. Recursive or expression-level Python code
becomes functions. `Wrappers` (Option and Result), `Seqs` (filter, map and
flat-map over sequences) and `Strings` (split, join, replace, strip, lower
case, digits) are shared helpers.

The files are read as already parsed. A missing dictionary key is an
`Option` field that is `None`. A missing index file is an `Option` list.
Python dicts are sequences of pairs in insertion order.

## Model

| member | source | states |
|---|---|---|
| JsonValue.FindKey | lib/json_tools.py:49-51 | `key in cur` fails exactly when no member has that key; otherwise the value found is stored under that key |
| JsonTools.ParseIntOfIntToString | lib/json_tools.py:43 | `int()` reads every rendered integer back to itself, including negatives |
| JsonTools.PyIndex | lib/json_tools.py:46 | a list index is valid exactly when `-len <= idx < len`; a negative index counts from the end |
| JsonTools.Step | lib/json_tools.py:38-53 | a segment that succeeds descends into a strict part of the current value |
| JsonTools.LookupUnfold | lib/json_tools.py:37-54 | the walk stops at the first failing segment with that segment's error; otherwise it continues from the value reached |
| JsonTools.Descend | lib/json_tools.py:38-53 | the loop body (empty segment, list index, dict key, scalar) computes exactly one step of the walk |
| JsonTools.GetPath | lib/json_tools.py:35-54 | the loop over `path.split(".")` with its early exits returns exactly the walk along the segments |
| JsonTools.LookupRejectsEmptySegment | lib/json_tools.py:38-39 | a path with any empty segment fails, whatever the value |
| JsonTools.EmptySegmentRejected | lib/json_tools.py:37-39 | the empty path, a leading or trailing dot and `..` are all rejected; the first two with the empty-segment error |
| JsonTools.EmptySegmentShapes | lib/json_tools.py:37-39 | a path has an empty segment if and only if it is empty, starts or ends with a dot, or holds `..` |
| JsonTools.ListSegmentFails | lib/json_tools.py:41-46 | on a list, a segment that is not an integer fails with the not-an-index error, and an integer out of range fails with the index error |
| JsonTools.ListSegmentDescends | lib/json_tools.py:41-47 | on a list, an in-range integer descends into element `i`, or element `len + i` for a negative one |
| JsonTools.ObjectSegment | lib/json_tools.py:48-52 | on an object, a missing key fails with that key; a present key descends into the value stored under it (its first occurrence, where a parsed dict has only one) |
| JsonTools.ScalarSegment | lib/json_tools.py:53 | a scalar with segments left fails with the non-container error |
| JsonTools.LookupAppend | lib/json_tools.py:35-54 | walking `p + q` is walking `p`, then `q` from where `p` led; a failure along `p` is final |
| JsonTools.GetPathCompositional | lib/json_tools.py:35-54 | `get(obj, "a.b")` equals `get(get(obj, "a"), "b")` |
| JsonTools.Render | lib/json_tools.py:69-80 | exactly dicts and lists are written as a JSON line, and that line holds the value found |
| JsonTools.RenderScalarLiteral | lib/json_tools.py:73-79 | null prints `null`, booleans `true`/`false`, and an integer prints as text that reads back to it |
| JsonTools.RenderStringBare | lib/json_tools.py:76-79 | a string prints bare, so the string `null` and JSON null print alike |
| JsonTools.CmdGet | lib/json_tools.py:57-80 | exit code 0 exactly when the lookup succeeds, with the rendered value; code 1 and no output otherwise |
| TemplateEngine.SubstituteVariables | lib/template_engine.py:23-28 | the loop over the variables replaces each placeholder in turn, as the specification function does |
| TemplateEngine.Interpolate | lib/template_engine.py:16-36 | the result has the input's shape: same keys in the same order, same list lengths, strings stay strings, other scalars unchanged |
| TemplateEngine.SubstituteWithoutPlaceholders | lib/template_engine.py:23-28 | a string with no variable's placeholder comes out unchanged |
| TemplateEngine.InterpolateIdentity | lib/template_engine.py:16-36 | with no variables, or no placeholder anywhere in the template, the template is returned unchanged |
| TemplateEngine.KeysNotInterpolated | lib/template_engine.py:29-30 | object keys are never interpolated |
| TemplateEngine.SubstituteAppend | lib/template_engine.py:25-27 | substituting the variables `a + b` is substituting `a`, then `b` into the result: text the variables of `a` put in is searched for the placeholders of `b`, and never the reverse |
| TemplateEngine.SubstituteAt | lib/template_engine.py:25-27 | variable `i`'s value goes into the text the earlier variables left, and only the later variables act on it |
| TemplateEngine.SubstitutionCascades | lib/template_engine.py:25-27 | an instance of the cascade: `{{a}}` with `a = {{b}}` then `b = x` gives `x`; with `b` first it gives `{{b}}` |
| TemplateEngine.StripJsonSuffix | lib/template_engine.py:50 | removing the suffix takes exactly `.json` off `x.json`; a bare `.json` has no suffix |
| TemplateEngine.TemplateOf | lib/template_engine.py:49-53 | the category is `general` exactly for a file directly in the directory or under `general/` |
| TemplateEngine.TemplateIdAndCategory | lib/template_engine.py:50-52 | the id of `<dirs>/<stem>.json` is `<dirs>/<stem>`; its category is the first directory, or `general` |
| TemplateEngine.ListTemplates | lib/template_engine.py:38-55 | a missing directory gives no templates; otherwise there is one record per file, in enumeration order |
| DeduplicateSources.StripWww | lib/deduplicate_sources.py:23-25 | one leading `www.` is removed and nothing else; a host without it is unchanged |
| DeduplicateSources.NormalizeUrlProperties | lib/deduplicate_sources.py:11-51 | all components are lower case; at most one `www.` is gone; the path loses all its trailing `/`; the fragment is empty; the query is a subsequence holding exactly the non-blank, non-tracking pairs, each as often as in the input |
| DeduplicateSources.NormalizeUrlIdempotent | lib/deduplicate_sources.py:11-51 | normalising twice is normalising once, unless the normalised host still starts with `www.` |
| DeduplicateSources.OnlyOneWwwStripped | lib/deduplicate_sources.py:23-25 | a host `www.www.<rest>` keeps one `www.`, so that exception is real |
| DeduplicateSources.DeduplicateSources | lib/deduplicate_sources.py:53-73 | the loop over `seen_urls` and `unique_sources` computes exactly the first-occurrence-wins specification |
| DeduplicateSources.DedupFromDistinct | lib/deduplicate_sources.py:59-71 | every kept source has a URL that was not yet seen, and no two kept sources share a normalised URL |
| DeduplicateSources.DedupFromSubsequence | lib/deduplicate_sources.py:62-71 | the kept sources are a subsequence of the input |
| DeduplicateSources.DedupFromKeepsFirst | lib/deduplicate_sources.py:67-71 | a source whose normalised URL is unseen and occurs at no earlier source is kept |
| DeduplicateSources.DedupFromOfDistinct | lib/deduplicate_sources.py:62-71 | a list whose URLs are present, distinct and unseen is kept whole |
| DeduplicateSources.DedupProperties | lib/deduplicate_sources.py:53-73 | the output is a subsequence of the input and no longer than it; URL-less sources are dropped; kept URLs are distinct; the first source with each URL is kept |
| DeduplicateSources.DedupIdempotent | lib/deduplicate_sources.py:53-73 | deduplicating a deduplicated list returns it unchanged |
| WebSearch.PassesGuards | lib/web_search.py:44-54 | the three `continue` guards let a result through exactly when it meets the quality criteria |
| WebSearch.FilterQualitySources | lib/web_search.py:31-58 | the filter fails exactly when some result has no `url` key; otherwise it returns the quality results in input order |
| WebSearch.QualityFilterProperties | lib/web_search.py:31-58 | the kept results are a subsequence of the input; none has a spam domain in its URL; all have a long enough snippet and a title; every qualifying result is kept |
| WebSearch.QualityAvoidsSpam | lib/web_search.py:40-46 | a kept URL contains none of the three spam domains |
| WebSearch.QualityFilterIdempotent | lib/web_search.py:42-56 | filtering an already filtered list keeps all of it |
| WebSearch.SpamIsSubstringMatch | lib/web_search.py:45 | the domain test is a substring test, so `notfacebook.com` is rejected too |
| ExportObsidian.RemoveForbidden | lib/export_obsidian.py:27 | none of `< > : " / \ \| ? *` is left |
| ExportObsidian.CollapseWhitespace | lib/export_obsidian.py:29 | no two adjacent whitespace characters, and no whitespace but the plain space; a leading space remains only if there was one; whitespace is Python's `str.isspace` set |
| ExportObsidian.CollapseKeepsText | lib/export_obsidian.py:29 | collapsing keeps every non-whitespace character, in order, and adds only spaces |
| ExportObsidian.CollapseIdempotent | lib/export_obsidian.py:29 | collapsing twice is collapsing once |
| ExportObsidian.CollapseFixesSpaced | lib/export_obsidian.py:29 | a string already spaced with single plain spaces is unchanged |
| ExportObsidian.StripKeepsText | lib/export_obsidian.py:31 | stripping removes whitespace only |
| ExportObsidian.CleanedNameProperties | lib/export_obsidian.py:26-31 | the cleaned, stripped and cut name has no forbidden character, single plain spaces, no leading space and at most `max_length` characters |
| ExportObsidian.SanitizeFilename | lib/export_obsidian.py:24-35 | the name is never empty, has no forbidden character, single plain spaces, no leading whitespace, and at most `max_length` characters unless it is the `untitled` fallback |
| ExportObsidian.SanitizeFallback | lib/export_obsidian.py:32-34 | a name of only forbidden characters and whitespace, or a zero length, gives `untitled` |
| ExportObsidian.SanitizeIsUntitled | lib/export_obsidian.py:31-34 | the result is `untitled` exactly when cleaning and cutting leave nothing, or leave `untitled` itself |
| ExportObsidian.UntitledIsClean | lib/export_obsidian.py:33-34 | the fallback name itself meets every guarantee of a sanitized name |
| ExportObsidian.SanitizeKeepsText | lib/export_obsidian.py:24-35 | the name's non-whitespace text survives in order, cut short only by `max_length`, and whole when that is at least the name's length |
| ExportObsidian.SanitizeOfClean | lib/export_obsidian.py:24-35 | an already clean name is only cut to `max_length` |
| ExportObsidian.TrailingSpaceSurvives | lib/export_obsidian.py:31 | the cut comes after the strip, so `ab cd` cut to 3 ends in a space |
| ExportObsidian.EscapeQuotesWithoutQuotes | lib/export_obsidian.py:48 | a value without a `"` is written unchanged |
| ExportObsidian.EscapeQuotesInjective | lib/export_obsidian.py:48 | escaping quotes is injective: different values give different escaped text |
| ExportObsidian.EscapeQuotesTrailingBackslash | lib/export_obsidian.py:47-49 | as written, the value `a\` is written `k: "a\"`, and its quoted body is not a complete YAML double-quoted scalar |
| ExportObsidian.EscapeQuotesMisreadsBackslash | lib/export_obsidian.py:47-49 | as written, `C:\new` is written unchanged and a YAML reader reads it back as `C:`, a line break and `ew` |
| ExportObsidian.EscapeYamlRoundTrip | lib/export_obsidian.py:47-49 | with the corrected escaping, a YAML reader reads every escaped value back as itself |
| ExportObsidian.EscapeYamlQuotes | lib/export_obsidian.py:47-49 | every `"` of a value under the corrected escaping is preceded by a backslash |
| ExportObsidian.QuotesEscaped | lib/export_obsidian.py:47-49 | every `"` of an escaped value is preceded by a backslash |
| ExportObsidian.AppendEntry | lib/export_obsidian.py:42-51 | one loop iteration appends exactly that entry's lines, a string value escaped as line 48 does or, when asked, with the corrected escaping |
| ExportObsidian.AppendEntries | lib/export_obsidian.py:41-51 | the loop appends the entries' lines in dictionary order, under either escaping |
| ExportObsidian.CollectFrontmatter | lib/export_obsidian.py:40-53 | the collected lines are `---`, the entries' lines, `---` and an empty line, under either escaping |
| ExportObsidian.CreateFrontmatter | lib/export_obsidian.py:38-54 | as written: the text is the collected lines joined by newlines, string values escaped as line 48 does |
| ExportObsidian.CreateFrontmatterCorrected | lib/export_obsidian.py:38-54 | the same frontmatter with the corrected escaping of string values |
| ExportObsidian.EscapingsAgree | lib/export_obsidian.py:48 | for a value without backslashes or control characters, line 48's escaping and the corrected one write the same text |
| ExportObsidian.EscapingsAgreeOnEntries | lib/export_obsidian.py:38-54 | when no string value holds a backslash or a control character, the frontmatter as written and the corrected one are the same lines |
| ExportObsidian.EntriesInOrder | lib/export_obsidian.py:41-51 | entry `i`'s lines sit between those of the entries before it and those after it, under either escaping |
| ExportObsidian.FrontmatterDelimited | lib/export_obsidian.py:38-54 | the text is `---\n<entries>\n---\n`, or `---\n---\n` without entries, under either escaping |
| ExportObsidian.EntryShape | lib/export_obsidian.py:42-51 | a list value gives `key:` and one `  - item` line per element; any other value gives one `key: ...` line, under either escaping |
| ExportObsidian.TextEntryQuoted | lib/export_obsidian.py:46-49 | under the corrected escaping, a string value is written as `key: "<escaped>"`; a YAML reader reads the quoted part back as the value, and every `"` in it is escaped |
| ExportObsidian.TypesProperties | lib/export_obsidian.py:103-108 | the dictionary's keys are distinct and are exactly the types that occur |
| ExportObsidian.GroupSnoc | lib/export_obsidian.py:104-108 | appending an artifact extends its own type's group and no other |
| ExportObsidian.GroupArtifacts | lib/export_obsidian.py:103-108 | the loop builds keys in first-occurrence order, each mapped to the artifacts of that type in manifest order |
| ExportObsidian.OneGroupEach | lib/export_obsidian.py:103-108 | every artifact lands in exactly one group, the one of its type, and each group keeps manifest order |
| ExportObsidian.LessIrreflexive | lib/export_obsidian.py:110 | string order is irreflexive |
| ExportObsidian.LessTransitive | lib/export_obsidian.py:110 | string order is transitive |
| ExportObsidian.LessTotal | lib/export_obsidian.py:110 | any two different strings are ordered one way or the other |
| ExportObsidian.Sort | lib/export_obsidian.py:110 | sorting permutes its input |
| ExportObsidian.SortSorted | lib/export_obsidian.py:110 | sorting distinct types gives a strictly increasing permutation |
| ExportObsidian.TitleOnlyChangesCase | lib/export_obsidian.py:111 | title-casing changes only the case of letters |
| ExportObsidian.TitleIdempotent | lib/export_obsidian.py:111 | title-casing a title changes nothing |
| ExportObsidian.GroupHeadingShape | lib/export_obsidian.py:111 | a group heading is a level-three heading with no `_` left in it |
| ExportObsidian.ItemLinkResolves | lib/export_obsidian.py:113-117 | an artifact's README link names exactly the note file written for it, a clean name of at most 80 characters, labelled with the id cut to 8 characters |
| ExportObsidian.AppendGroup | lib/export_obsidian.py:111-118 | one iteration appends the type's heading, a blank line, one line per artifact and a blank line |
| ExportObsidian.AppendGroups | lib/export_obsidian.py:110-118 | the loop appends the blocks of the types in the given order, reading each group from the dictionary |
| ExportObsidian.WriteSection | lib/export_obsidian.py:100-118 | no section without artifacts; otherwise the heading and one block per type in sorted order |
| ExportObsidian.ArtifactsSection | lib/export_obsidian.py:100-118 | the README's artifact section, with its heading and item formats |
| ExportObsidian.ArtifactsSectionCount | lib/export_obsidian.py:100-118 | the section has 2 lines, 3 per type and exactly one per artifact |
| ExportObsidian.SectionOrder | lib/export_obsidian.py:110 | the blocks come in strictly increasing type order, one per type that occurs |
| ExportObsidian.KindOf | lib/export_obsidian.py:237 | the nine types of the table are recognised and no other type is |
| ExportObsidian.ArtifactFilePath | lib/export_obsidian.py:225-237 | a file path exists exactly for the nine types of the table |
| ExportObsidian.KindPathShape | lib/export_obsidian.py:225-235 | every path is `studio/<dir>/<id><suffix>` for the kind's directory and suffix |
| ExportObsidian.KindPathInjective | lib/export_obsidian.py:225-235 | two kinds' paths coincide only for the same kind and the same id |
| ExportObsidian.FilePathInjective | lib/export_obsidian.py:225-237 | two artifacts with a file never share a path unless they have the same type and id |
| ExportNotion.AppendSources | lib/export_notion.py:33-46 | a non-empty index appends `## Sources`, a blank line, one `> **type:** title` line per source and a blank line; otherwise nothing |
| ExportNotion.AppendNotes | lib/export_notion.py:48-63 | a non-empty index appends `## Notes`, a blank line and each note's four lines |
| ExportNotion.AppendStudio | lib/export_notion.py:65-79 | the completed artifacts, if any, are listed under `## Studio Artifacts` |
| ExportNotion.ExportToNotion | lib/export_notion.py:12-84 | the file name is the title with `/` read as `-` plus `.md`, and the text is the page's lines joined by newlines |
| ExportNotion.PageStartsWithTitle | lib/export_notion.py:22-26 | the page opens with `# <title>` on its own line, the title defaulting to `Untitled Notebook` |
| ExportNotion.SectionHeadings | lib/export_notion.py:25-79 | the page's section headings are exactly those of the non-empty sections, in the order sources, notes, studio artifacts |
| ExportNotion.PageLength | lib/export_notion.py:25-79 | five header lines, then 3 plus one per source, 2 plus four per note, and 3 plus one per completed artifact |
| ExportNotion.CompletedListing | lib/export_notion.py:71 | the studio listing is exactly the artifacts whose status is `completed`, in manifest order |
| ExportNotion.QuotedNote | lib/export_notion.py:62 | the quoted note, split on newlines, is the content's lines each behind `> ` |
| ExportNotion.OutputFileNameSafe | lib/export_notion.py:82 | the output name has no `/`, ends in `.md` and is as long as the title plus the extension |
| ExportAnki.AppendQuizCards | lib/export_anki.py:35-44 | the loop over one quiz file's questions appends their cards in order |
| ExportAnki.AppendFlashCards | lib/export_anki.py:53-62 | the loop over one flashcard file's cards appends their cards in order |
| ExportAnki.AppendQuizFiles | lib/export_anki.py:29-44 | the cards of the quiz files, in file order |
| ExportAnki.AppendFlashFiles | lib/export_anki.py:47-62 | the cards of the flashcard files, in file order |
| ExportAnki.ExportToAnki | lib/export_anki.py:13-69 | the cards are the specification's, and the CSV rows are the header then one row per card |
| ExportAnki.CardsAreQualifyingEntries | lib/export_anki.py:26-62 | the cards are the quiz entries with both texts non-empty, then the flashcard entries likewise, each in file and entry order |
| ExportAnki.CardCount | lib/export_anki.py:64-69 | as many cards as qualifying entries, and one CSV row more |
| ExportAnki.CardsTagged | lib/export_anki.py:35-62 | every card has both texts; the quiz cards come first, tagged `<tag> quiz`, then the flashcards, tagged `<tag> flashcard` |
| ExportAnki.TagHasNoSpace | lib/export_anki.py:23-24 | the tag has no space, so it is a single Anki tag |

## Left out

- `cmd_len` and `cmd_print_templates` (lib/json_tools.py), the `main` functions and all argument handling: command-line plumbing, outside the modelled core.
- Reading JSON from stdin or files, `json.dump`/`json.dumps` serialisation and writing output: I/O. Values are taken as parsed `Json` values, and the JSON line of `cmd_get` is represented by the value it serialises.
- `search_web` (lib/web_search.py) and lib/wikipedia_search.py: network clients with no logic beyond collecting fields.
- Filesystem effects: `mkdir`, `write_text`, the artifact file copy, the `exists()` probes and `glob`/`rglob` enumeration. Their results are parameters: existence flags, file lists in enumeration order, file contents as sequences.
- The bodies of `create_readme` other than the artifact section, `export_sources` and `export_artifacts`, apart from the note file name and the studio path table: straight-line string building around the modelled rules.
- `urllib.parse` itself (`urlparse`, `parse_qsl`, `urlencode`, `urlunparse`) and percent-encoding. A URL is a record of its six parts with the query as decoded pairs, and two normalised URLs are compared as records rather than as re-assembled strings.
- `DeduplicateSources.NormalizeUrlProperties`: lower-casing is ASCII lower-casing. Python's Unicode case mapping is not modelled. The query is held as decoded pairs and lower-cased after decoding, while lib/deduplicate_sources.py:20 lower-cases the raw URL and `parse_qsl` decodes afterwards. So `?q=%41` and `?q=a` normalise equal here, where Python keeps `q=A` and `q=a` apart.
- `TemplateEngine.ListTemplates` and `TemplateEngine.TemplateOf`: the `path` field joins the directory and the path components with `/` and skips `pathlib`'s normalisation. For a directory given as `templates/` or `.`, the model gives `templates//x.json` or `./x.json`, where Python gives `templates/x.json` or `x.json`. `main` passes only the default `templates`, where the two agree.
- `JsonValue.FindKey`: an object is a sequence of members and may repeat a key. No dict that `json.load` returns does: it keeps the last of duplicate keys. For such objects the model finds the first occurrence; for objects with distinct keys the two agree.
- YAML reading (`ExportObsidian.YamlUnquote`) covers the body of a one-line double-quoted scalar: the one-character escapes and `\xNN`. `\uNNNN` and `\UNNNNNNNN` escapes are not decoded, and a raw line break, which YAML folds into a space, is not read; a body holding one is reported as not read. The corrected escaping writes none of them.
- `ExportObsidian.TextEntryQuoted`: the YAML read-back is proved for the corrected escaping only (`ExportObsidian.CreateFrontmatterCorrected`); `ExportObsidian.CreateFrontmatter`, which escapes as line 48 does, has no read-back, as the Findings row shows.
- `JsonTools.ParseIntOfIntToString`: `int()` is modelled as optional surrounding whitespace, an optional sign and ASCII digits. Underscores and non-ASCII digits are not accepted.
- `ExportObsidian.TitleOnlyChangesCase`: `str.title()` is modelled on ASCII letters. Other characters count as non-letters.
- Floats in JSON, and how `str()` renders a number or other non-string value. A non-string frontmatter value arrives already rendered, and JSON numbers are integers.
- `WebSearch.FilterQualitySources`: the `KeyError` raised for a result without `url` becomes a `Failure` result. A `snippet` or `title` key present with a non-string value is not modelled.
- CSV quoting and escaping by `csv.DictWriter`: the model stops at the rows of fields.
- The README layout is proved for any heading and item format (the `Layout` datatype), and the README uses one fixed instance of it.

## Findings

| source | as written | input that shows it | evidently intended | confidence | as-written member | corrected member |
|---|---|---|---|---|---|---|
| lib/export_obsidian.py:47-49 | a string value is put between double quotes with only its `"` escaped; backslashes and control characters go in bare | the value `a\` is written `k: "a\"`, whose closing quote is escaped; `C:\new` reads back as `C:`, a line break and `ew` | a YAML reader reads every string value back as itself: backslashes escaped before quotes, control characters other than tab as `\xNN` | not executed; reading per section 5.7 and 7.3.1 of YAML 1.2 | ExportObsidian.EscapeQuotesTrailingBackslash, ExportObsidian.EscapeQuotesMisreadsBackslash | ExportObsidian.EscapeYamlRoundTrip |
