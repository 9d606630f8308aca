/** The Notion export (lib/export_notion.py): one Markdown page, built line
    by line from the notebook's metadata, its sources, its notes and its
    studio manifest, written under a name derived from the title. */
module ExportNotion {
  import opened Wrappers
  import opened Strings
  import opened Seqs
  import ExportObsidian

  type Artifact = ExportObsidian.Artifact

  /** The fields of `metadata.json` the page uses; a missing key is `None`. */
  datatype Metadata = Metadata(title: Option<string>, createdAt: Option<string>, updatedAt: Option<string>)

  /** An entry of `sources/index.json`. */
  datatype Source = Source(stype: Option<string>, title: Option<string>)

  /** An entry of `notes/index.json`. */
  datatype Note = Note(title: Option<string>, content: Option<string>)

  // ---------------------------------------------------------------------
  // The page, line by line
  // ---------------------------------------------------------------------

  /** Line 22: the title, `Untitled Notebook` when missing. */
  function Title(m: Metadata): string {
    m.title.GetOr("Untitled Notebook")
  }

  /** Lines 25-31: the title heading and the two dates. */
  function HeaderLines(m: Metadata): seq<string> {
    ["# " + Title(m), "",
     "> **Created:** " + m.createdAt.GetOr("Unknown"),
     "> **Updated:** " + m.updatedAt.GetOr("Unknown"), ""]
  }

  /** Lines 43-45: one quoted line per source. */
  function SourceLine(s: Source): string {
    "> **" + s.stype.GetOr("unknown") + ":** " + s.title.GetOr("Untitled")
  }

  /** A list read from an index file that exists and is not empty. */
  predicate Present<T>(xs: Option<seq<T>>) {
    xs.Some? && xs.value != []
  }

  /** Lines 34-46: the sources section, only for a non-empty index. */
  function SourcesLines(sources: Option<seq<Source>>): seq<string> {
    if !Present(sources) then []
    else ["## Sources", ""] + Map(SourceLine, sources.value) + [""]
  }

  /** Line 62: a note's content as a block quote, every line prefixed. */
  function Quote(content: string): string {
    "> " + ReplaceAll(content, "\n", "\n> ")
  }

  /** Lines 58-63: a note's heading, a blank line, its quoted content and a
      blank line. */
  function NoteLines(n: Note): seq<string> {
    ["### " + n.title.GetOr("Untitled Note"), "", Quote(n.content.GetOr("")), ""]
  }

  /** Lines 49-63: the notes section, only for a non-empty index. */
  function NotesLines(notes: Option<seq<Note>>): seq<string> {
    if !Present(notes) then []
    else ["## Notes", ""] + FlatMap(NoteLines, notes.value)
  }

  /** Line 71: `a.get("status") == "completed"`; a missing status is not. */
  predicate IsCompleted(a: Artifact) {
    a.status == Some("completed")
  }

  /** Line 71: the completed artifacts, in manifest order. */
  function Completed(artifacts: seq<Artifact>): seq<Artifact> {
    Filter(IsCompleted, artifacts)
  }

  /** Lines 76-78: one quoted line per completed artifact. */
  function ArtifactLine(a: Artifact): string {
    "> **" + ExportObsidian.TypeOf(a) + ":** `" + ExportObsidian.IdOf(a) + "`"
  }

  /** Lines 66-79: the studio section, only when some artifact is completed. */
  function StudioLines(artifacts: Option<seq<Artifact>>): seq<string> {
    if artifacts.None? || Completed(artifacts.value) == [] then []
    else ["## Studio Artifacts", ""] + Map(ArtifactLine, Completed(artifacts.value)) + [""]
  }

  /** Lines 25-79: the lines of the page. `None` stands for an index file
      that does not exist. */
  function PageLines(m: Metadata, sources: Option<seq<Source>>, notes: Option<seq<Note>>,
                     artifacts: Option<seq<Artifact>>): seq<string> {
    HeaderLines(m) + SourcesLines(sources) + NotesLines(notes) + StudioLines(artifacts)
  }

  /** Line 82: the title with every `/` read as `-`, then `.md`. */
  function OutputFileName(m: Metadata): string {
    ReplaceAll(Title(m), "/", "-") + ".md"
  }

  // ---------------------------------------------------------------------
  // Building the page
  // ---------------------------------------------------------------------

  /** Lines 34-46; `None` when the index file does not exist. */
  method AppendSources(lines: seq<string>, sources: Option<seq<Source>>) returns (r: seq<string>)
    ensures r == lines + SourcesLines(sources)
  {
    r := lines;
    if sources.Some? && sources.value != [] {
      r := r + ["## Sources"];
      r := r + [""];
      r := AppendMapped(r, SourceLine, sources.value);
      r := r + [""];
    }
  }

  /** Lines 49-63; `None` when the index file does not exist. */
  method AppendNotes(lines: seq<string>, notes: Option<seq<Note>>) returns (r: seq<string>)
    ensures r == lines + NotesLines(notes)
  {
    r := lines;
    if notes.Some? && notes.value != [] {
      r := r + ["## Notes"];
      r := r + [""];
      r := AppendFlatMapped(r, NoteLines, notes.value);
    }
  }

  /** Lines 66-79; `None` when the manifest does not exist. */
  method AppendStudio(lines: seq<string>, artifacts: Option<seq<Artifact>>) returns (r: seq<string>)
    ensures r == lines + StudioLines(artifacts)
  {
    r := lines;
    if artifacts.None? {
      return;
    }
    var completed := Filter(IsCompleted, artifacts.value);
    if completed != [] {
      r := r + ["## Studio Artifacts"];
      r := r + [""];
      r := AppendMapped(r, ArtifactLine, completed);
      r := r + [""];
    }
  }

  /** `export_to_notion` with the files already read: the output file's name
      and the text written to it, the lines joined by newlines. */
  method ExportToNotion(m: Metadata, sources: Option<seq<Source>>, notes: Option<seq<Note>>,
                        artifacts: Option<seq<Artifact>>)
    returns (fileName: string, text: string)
    ensures fileName == OutputFileName(m)
    ensures text == Join(PageLines(m, sources, notes, artifacts), "\n")
  {
    var title := m.title.GetOr("Untitled Notebook");
    var lines := ["# " + title, "",
                  "> **Created:** " + m.createdAt.GetOr("Unknown"),
                  "> **Updated:** " + m.updatedAt.GetOr("Unknown"), ""];
    lines := AppendSources(lines, sources);
    lines := AppendNotes(lines, notes);
    lines := AppendStudio(lines, artifacts);
    fileName := ReplaceAll(title, "/", "-") + ".md";
    text := Join(lines, "\n");
  }

  // ---------------------------------------------------------------------
  // Properties of the page
  // ---------------------------------------------------------------------

  /** A level-two heading line: the sections start with one. */
  predicate IsSectionHeading(line: string) {
    |line| >= 3 && line[..3] == "## "
  }

  /** A line that starts with `> ` is no section heading. */
  lemma QuotedIsNoHeading(rest: string)
    ensures !IsSectionHeading("> " + rest)
  {
    assert ("> " + rest)[0] == '>';
  }

  lemma HeaderHasNoHeading(m: Metadata)
    ensures Filter(IsSectionHeading, HeaderLines(m)) == []
  {
    var h := HeaderLines(m);
    assert !IsSectionHeading(h[0]) by {
      if |h[0]| >= 3 {
        assert h[0][1] == ' ';
      }
    }
    assert h[2] == "> " + ("**Created:** " + m.createdAt.GetOr("Unknown"));
    QuotedIsNoHeading("**Created:** " + m.createdAt.GetOr("Unknown"));
    assert h[3] == "> " + ("**Updated:** " + m.updatedAt.GetOr("Unknown"));
    QuotedIsNoHeading("**Updated:** " + m.updatedAt.GetOr("Unknown"));
    FilterNone(IsSectionHeading, h);
  }

  lemma {:induction false} QuotedLinesHaveNoHeading<T>(f: T -> string, xs: seq<T>)
    requires forall x :: !IsSectionHeading(f(x))
    ensures Filter(IsSectionHeading, Map(f, xs)) == []
  {
    var ls := Map(f, xs);
    forall k | 0 <= k < |ls| ensures !IsSectionHeading(ls[k]) {
      MapAt(f, xs, k);
    }
    FilterNone(IsSectionHeading, ls);
  }

  lemma NoteHasNoHeading(n: Note)
    ensures Filter(IsSectionHeading, NoteLines(n)) == []
  {
    var ls := NoteLines(n);
    assert !IsSectionHeading(ls[0]) by {
      assert ls[0][2] == '#';
    }
    assert ls[2] == "> " + ReplaceAll(n.content.GetOr(""), "\n", "\n> ");
    QuotedIsNoHeading(ReplaceAll(n.content.GetOr(""), "\n", "\n> "));
    FilterNone(IsSectionHeading, ls);
  }

  lemma {:induction false} NotesBodyHasNoHeading(ns: seq<Note>)
    ensures Filter(IsSectionHeading, FlatMap(NoteLines, ns)) == []
    decreases |ns|
  {
    if ns != [] {
      NotesBodyHasNoHeading(ns[..|ns| - 1]);
      NoteHasNoHeading(ns[|ns| - 1]);
      FilterAppend(IsSectionHeading, FlatMap(NoteLines, ns[..|ns| - 1]), NoteLines(ns[|ns| - 1]));
    }
  }

  lemma SourceLineIsQuoted(s: Source)
    ensures !IsSectionHeading(SourceLine(s))
  {
    QuotedIsNoHeading("**" + s.stype.GetOr("unknown") + ":** " + s.title.GetOr("Untitled"));
    assert SourceLine(s) == "> " + ("**" + s.stype.GetOr("unknown") + ":** " + s.title.GetOr("Untitled"));
  }

  lemma ArtifactLineIsQuoted(a: Artifact)
    ensures !IsSectionHeading(ArtifactLine(a))
  {
    var rest := "**" + ExportObsidian.TypeOf(a) + ":** `" + ExportObsidian.IdOf(a) + "`";
    QuotedIsNoHeading(rest);
    assert ArtifactLine(a) == "> " + rest;
  }

  /** The section headings of a section: its own heading when present. */
  lemma {:induction false} SectionHeadingOf<T>(heading: string, f: T -> string, xs: seq<T>)
    requires IsSectionHeading(heading)
    requires forall x :: !IsSectionHeading(f(x))
    ensures Filter(IsSectionHeading, [heading, ""] + Map(f, xs) + [""]) == [heading]
  {
    QuotedLinesHaveNoHeading(f, xs);
    FilterAppend(IsSectionHeading, [heading, ""] + Map(f, xs), [""]);
    FilterAppend(IsSectionHeading, [heading, ""], Map(f, xs));
    FilterNone(IsSectionHeading, [""]);
    FilterAt(IsSectionHeading, [heading, ""], 0);
    FilterNone(IsSectionHeading, [heading, ""][1..]);
  }

  lemma SourcesHeadings(sources: Option<seq<Source>>)
    ensures Filter(IsSectionHeading, SourcesLines(sources)) == if Present(sources) then ["## Sources"] else []
  {
    if Present(sources) {
      forall x ensures !IsSectionHeading(SourceLine(x)) {
        SourceLineIsQuoted(x);
      }
      assert IsSectionHeading("## Sources") by {
        assert "## Sources"[..3] == "## ";
      }
      SectionHeadingOf("## Sources", SourceLine, sources.value);
    }
  }

  lemma NotesHeadings(notes: Option<seq<Note>>)
    ensures Filter(IsSectionHeading, NotesLines(notes)) == if Present(notes) then ["## Notes"] else []
  {
    if Present(notes) {
      NotesBodyHasNoHeading(notes.value);
      FilterAppend(IsSectionHeading, ["## Notes", ""], FlatMap(NoteLines, notes.value));
      assert IsSectionHeading("## Notes") by {
        assert "## Notes"[..3] == "## ";
      }
      FilterAt(IsSectionHeading, ["## Notes", ""], 0);
      FilterNone(IsSectionHeading, ["## Notes", ""][1..]);
    }
  }

  lemma StudioHeadings(artifacts: Option<seq<Artifact>>)
    ensures Filter(IsSectionHeading, StudioLines(artifacts)) ==
      if artifacts.Some? && Completed(artifacts.value) != [] then ["## Studio Artifacts"] else []
  {
    if artifacts.Some? && Completed(artifacts.value) != [] {
      forall x ensures !IsSectionHeading(ArtifactLine(x)) {
        ArtifactLineIsQuoted(x);
      }
      assert IsSectionHeading("## Studio Artifacts") by {
        assert "## Studio Artifacts"[..3] == "## ";
      }
      SectionHeadingOf("## Studio Artifacts", ArtifactLine, Completed(artifacts.value));
    }
  }

  /** The page's section headings are exactly those of the sections that
      have content, in the order sources, notes, studio artifacts: the
      sources section appears only for a non-empty index, the notes section
      likewise, and the studio section only when some artifact is completed. */
  lemma SectionHeadings(m: Metadata, sources: Option<seq<Source>>, notes: Option<seq<Note>>,
                        artifacts: Option<seq<Artifact>>)
    ensures Filter(IsSectionHeading, PageLines(m, sources, notes, artifacts)) ==
      (if Present(sources) then ["## Sources"] else [])
      + (if Present(notes) then ["## Notes"] else [])
      + (if artifacts.Some? && Completed(artifacts.value) != [] then ["## Studio Artifacts"] else [])
  {
    var h, s, n, a := HeaderLines(m), SourcesLines(sources), NotesLines(notes), StudioLines(artifacts);
    HeaderHasNoHeading(m);
    SourcesHeadings(sources);
    NotesHeadings(notes);
    StudioHeadings(artifacts);
    FilterAppend(IsSectionHeading, h, s);
    assert Filter(IsSectionHeading, h + s) == Filter(IsSectionHeading, s);
    FilterAppend(IsSectionHeading, h + s, n);
    FilterAppend(IsSectionHeading, h + s + n, a);
  }

  /** The page opens with the title heading on a line of its own, the title
      defaulting to `Untitled Notebook`. */
  lemma PageStartsWithTitle(m: Metadata, sources: Option<seq<Source>>, notes: Option<seq<Note>>,
                            artifacts: Option<seq<Artifact>>)
    ensures StartsWith(Join(PageLines(m, sources, notes, artifacts), "\n"), "# " + Title(m) + "\n")
    ensures m.title.None? ==> Title(m) == "Untitled Notebook"
  {
    var ls := PageLines(m, sources, notes, artifacts);
    var first := "# " + Title(m);
    assert ls == [first] + ls[1..];
    JoinCons(first, ls[1..], "\n");
    var text := first + "\n" + Join(ls[1..], "\n");
    assert text[..|first + "\n"|] == first + "\n";
  }

  /** The page has five header lines, then three lines per source section
      plus one per source, two per notes section plus four per note, and
      three per studio section plus one per completed artifact. */
  lemma PageLength(m: Metadata, sources: Option<seq<Source>>, notes: Option<seq<Note>>,
                   artifacts: Option<seq<Artifact>>)
    ensures |PageLines(m, sources, notes, artifacts)| ==
      5
      + (if Present(sources) then 3 + |sources.value| else 0)
      + (if Present(notes) then 2 + 4 * |notes.value| else 0)
      + (if artifacts.Some? && Completed(artifacts.value) != [] then 3 + |Completed(artifacts.value)| else 0)
  {
    if Present(notes) {
      NotesBodyLength(notes.value);
    }
  }

  lemma {:induction false} NotesBodyLength(ns: seq<Note>)
    ensures |FlatMap(NoteLines, ns)| == 4 * |ns|
    decreases |ns|
  {
    if ns != [] {
      NotesBodyLength(ns[..|ns| - 1]);
    }
  }

  /** The studio section lists exactly the completed artifacts, in manifest
      order. */
  lemma CompletedListing(artifacts: seq<Artifact>)
    ensures IsSubsequence(Completed(artifacts), artifacts)
    ensures forall a :: a in Completed(artifacts) <==> a in artifacts && IsCompleted(a)
  {
    FilterIsSubsequence(IsCompleted, artifacts);
    FilterMembers(IsCompleted, artifacts);
  }

  /** Prefixing every part and joining with newlines. */
  function Prefixed(p: string): string -> string {
    l => p + l
  }

  lemma {:induction false} JoinPrefixed(parts: seq<string>, p: string)
    requires |parts| >= 1
    ensures p + Join(parts, "\n" + p) == Join(Map(Prefixed(p), parts), "\n")
    decreases |parts|
  {
    if |parts| > 1 {
      var x, rest := parts[0], parts[1..];
      var j := Join(rest, "\n" + p);
      var mapped := Map(Prefixed(p), rest);
      calc {
        p + Join(parts, "\n" + p);
        { JoinCons(x, rest, "\n" + p); assert parts == [x] + rest; }
        p + (x + ("\n" + p) + j);
        { Regroup(p, x, "\n", j); }
        p + x + "\n" + (p + j);
        { JoinPrefixed(rest, p); }
        p + x + "\n" + Join(mapped, "\n");
        { JoinCons(p + x, mapped, "\n"); }
        Join([p + x] + mapped, "\n");
        { MapAt(Prefixed(p), parts, 0);
          assert Map(Prefixed(p), parts) == [p + x] + mapped; }
        Join(Map(Prefixed(p), parts), "\n");
      }
    }
  }

  lemma Regroup(p: string, x: string, n: string, j: string)
    ensures p + (x + (n + p) + j) == p + x + n + (p + j)
  {
  }

  /** A quoted note is the note's lines, each behind `> `: splitting the
      quote on newlines gives one line per line of the content, prefixed. */
  lemma QuotedNote(content: string)
    ensures Split(Quote(content), '\n') == Map(Prefixed("> "), Split(content, '\n'))
  {
    var parts := Split(content, '\n');
    assert "\n" == ['\n'] && "\n" + "> " == "\n> ";
    ReplaceCharIsSplitJoin(content, '\n', "\n> ");
    JoinPrefixed(parts, "> ");
    var quoted := Map(Prefixed("> "), parts);
    assert Quote(content) == Join(quoted, ['\n']);
    forall k | 0 <= k < |quoted| ensures '\n' !in quoted[k] {
      MapAt(Prefixed("> "), parts, k);
      assert quoted[k] == "> " + parts[k];
    }
    SplitJoin(quoted, '\n');
  }

  /** The output name has no `/`, ends in `.md`, and is as long as the title
      plus the extension. */
  lemma OutputFileNameSafe(m: Metadata)
    ensures var f := OutputFileName(m);
      && '/' !in f
      && f[|f| - 3..] == ".md"
      && |f| == |Title(m)| + 3
  {
    ReplaceCharRemoves(Title(m), '/', "-");
    ReplaceCharLength(Title(m), '/', '-');
    assert "/" == ['/'] && "-" == ['-'];
  }
}
