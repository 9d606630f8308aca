/** URL normalisation (`normalize_url`) and first-occurrence-wins deduplication
    of research sources (`deduplicate_sources`), from lib/deduplicate_sources.py. */
module DeduplicateSources {
  import opened Wrappers
  import opened Strings
  import opened Seqs
  import JsonValue

  /** One decoded `key=value` pair of a query string. */
  datatype QueryPair = QueryPair(key: string, value: string)

  /** The six components `urlparse` splits a URL into, with the query already
      split into its pairs. */
  datatype Url = Url(
    scheme: string,
    netloc: string,
    path: string,
    params: string,
    query: seq<QueryPair>,
    fragment: string)

  const TrackingParams: set<string> :=
    {"utm_source", "utm_medium", "utm_campaign", "utm_content", "utm_term", "ref", "source"}

  predicate IsTracking(key: string) {
    key in TrackingParams || StartsWith(key, "utm_")
  }

  /** A pair that survives: `parse_qsl(..., keep_blank_values=False)` drops
      blank values, the comprehension drops tracking keys. */
  predicate KeepPair(q: QueryPair) {
    q.value != "" && !IsTracking(q.key)
  }

  /** `url.lower()` applied before parsing, component by component. */
  function LowerUrl(u: Url): Url {
    Url(Lower(u.scheme), Lower(u.netloc), Lower(u.path), Lower(u.params),
        seq(|u.query|, i requires 0 <= i < |u.query| =>
          QueryPair(Lower(u.query[i].key), Lower(u.query[i].value))),
        Lower(u.fragment))
  }

  /** Drop one leading `www.`. */
  function StripWww(host: string): (r: string)
    ensures StartsWith(host, "www.") ==> host == "www." + r
    ensures !StartsWith(host, "www.") ==> r == host
  {
    if StartsWith(host, "www.") then host[4..] else host
  }

  function FilterQuery(pairs: seq<QueryPair>): seq<QueryPair> {
    Filter(KeepPair, pairs)
  }

  /** `normalize_url`, on the parsed record instead of the text. */
  function NormalizeUrl(u: Url): Url {
    var l := LowerUrl(u);
    Url(l.scheme, StripWww(l.netloc), RStripChar(l.path, '/'), l.params,
        FilterQuery(l.query), "")
  }

  predicate QueryIsLower(q: seq<QueryPair>) {
    forall i :: 0 <= i < |q| ==> IsLower(q[i].key) && IsLower(q[i].value)
  }

  /** What normalisation guarantees: every component lower case, at most one
      `www.` gone from the host, no trailing `/` on the path, no fragment, and
      the query reduced to the non-blank, non-tracking pairs in their order,
      each as often as it occurs. */
  lemma NormalizeUrlProperties(u: Url)
    ensures var n := NormalizeUrl(u);
      && IsLower(n.scheme) && IsLower(n.netloc) && IsLower(n.path) && IsLower(n.params)
      && QueryIsLower(n.query)
      && (Lower(u.netloc) == n.netloc || Lower(u.netloc) == "www." + n.netloc)
      && (n.path == [] || n.path[|n.path| - 1] != '/')
      && |n.path| <= |u.path| && n.path == Lower(u.path)[..|n.path|]
      && (forall k :: |n.path| <= k < |u.path| ==> Lower(u.path)[k] == '/')
      && n.fragment == ""
      && (forall q :: q in n.query ==> q.value != "" && !IsTracking(q.key))
      && IsSubsequence(n.query, LowerUrl(u).query)
      && (forall q :: q in LowerUrl(u).query && KeepPair(q) ==> q in n.query)
      && (forall q :: multiset(n.query)[q] == if KeepPair(q) then multiset(LowerUrl(u).query)[q] else 0)
  {
    var l := LowerUrl(u);
    var n := NormalizeUrl(u);
    LowerIsLower(u.netloc);
    LowerIsLower(u.path);
    FilterIsSubsequence(KeepPair, l.query);
    FilterMembers(KeepPair, l.query);
    FilterCounts(KeepPair, l.query);
    forall i | 0 <= i < |n.query| ensures IsLower(n.query[i].key) && IsLower(n.query[i].value) {
      assert n.query[i] in l.query;
      var j :| 0 <= j < |l.query| && l.query[j] == n.query[i];
      LowerIsLower(u.query[j].key);
      LowerIsLower(u.query[j].value);
    }
    assert IsLower(n.path) by {
      LowerIsLower(u.path);
    }
    LowerIsLower(u.scheme);
    LowerIsLower(u.params);
  }

  /** Normalising a normalised URL changes nothing, unless its host still
      starts with `www.`. */
  lemma NormalizeUrlIdempotent(u: Url)
    requires !StartsWith(NormalizeUrl(u).netloc, "www.")
    ensures NormalizeUrl(NormalizeUrl(u)) == NormalizeUrl(u)
  {
    var n := NormalizeUrl(u);
    NormalizeUrlProperties(u);
    LowerOfLower(n.scheme);
    LowerOfLower(n.netloc);
    LowerOfLower(n.path);
    LowerOfLower(n.params);
    assert LowerUrl(n).query == n.query by {
      forall i | 0 <= i < |n.query| ensures LowerUrl(n).query[i] == n.query[i] {
        LowerOfLower(n.query[i].key);
        LowerOfLower(n.query[i].value);
      }
    }
    FilterIdempotent(KeepPair, LowerUrl(u).query);
  }

  /** Only one `www.` is stripped, so normalising is not idempotent on hosts
      that start with two of them: `www.www.<rest>` becomes `www.<rest>`. */
  lemma OnlyOneWwwStripped(rest: string)
    ensures NormalizeUrl(Url("", "www.www." + rest, "", "", [], "")).netloc == "www." + Lower(rest)
  {
    var w := "www.";
    var h := "www.www." + rest;
    var x := w + Lower(rest);
    assert Lower(h) == w + x by {
      assert h == w + (w + rest);
      LowerAppend(w, w + rest);
      LowerAppend(w, rest);
      assert Lower(w) == w;
    }
    StripWwwPrefix(x);
  }

  /** A host that starts with `www.` loses exactly that. */
  lemma StripWwwPrefix(x: string)
    ensures StripWww("www." + x) == x
  {
    var l := "www." + x;
    assert l[..4] == "www.";
    assert l[4..] == x;
  }

  /** A research source: its `url`, None when the key is missing or the string
      is empty (the `if not url: continue` case), and the rest of the record. */
  datatype Source = Source(url: Option<Url>, record: JsonValue.Json)

  function Key(s: Source): Url
    requires s.url.Some?
  {
    NormalizeUrl(s.url.value)
  }

  /** The sources kept when `seen` already holds some normalised URLs. */
  function DedupFrom(sources: seq<Source>, seen: set<Url>): seq<Source>
    decreases |sources|
  {
    if sources == [] then []
    else
      var s := sources[0];
      if s.url.None? then DedupFrom(sources[1..], seen)
      else if Key(s) in seen then DedupFrom(sources[1..], seen)
      else [s] + DedupFrom(sources[1..], seen + {Key(s)})
  }

  function Dedup(sources: seq<Source>): seq<Source> {
    DedupFrom(sources, {})
  }

  /** `deduplicate_sources`: the loop that mutates `seen_urls` and `unique_sources`. */
  method DeduplicateSources(sources: seq<Source>) returns (unique: seq<Source>)
    ensures unique == Dedup(sources)
  {
    var seen: set<Url> := {};
    unique := [];
    var i := 0;
    while i < |sources|
      invariant 0 <= i <= |sources|
      invariant unique + DedupFrom(sources[i..], seen) == Dedup(sources)
    {
      var source := sources[i];
      assert sources[i..][1..] == sources[i + 1..];
      i := i + 1;
      if source.url.None? {
        continue;
      }
      var normalized := NormalizeUrl(source.url.value);
      if normalized !in seen {
        seen := seen + {normalized};
        unique := unique + [source];
      }
    }
    assert sources[i..] == [];
  }

  /** Every kept source has a URL, the kept URLs are pairwise distinct and
      none of them was already seen. */
  predicate DistinctKeys(r: seq<Source>, seen: set<Url>) {
    (forall i :: 0 <= i < |r| ==> r[i].url.Some? && Key(r[i]) !in seen)
    && forall i, j :: 0 <= i < j < |r| ==> Key(r[i]) != Key(r[j])
  }

  lemma {:induction false} DedupFromDistinct(sources: seq<Source>, seen: set<Url>)
    ensures DistinctKeys(DedupFrom(sources, seen), seen)
    decreases |sources|
  {
    if sources != [] {
      var s := sources[0];
      if s.url.None? || Key(s) in seen {
        DedupFromDistinct(sources[1..], seen);
      } else {
        DedupFromDistinct(sources[1..], seen + {Key(s)});
        ConsDistinct(s, DedupFrom(sources[1..], seen + {Key(s)}), seen);
      }
    }
  }

  /** A source whose key is new can go in front of sources that avoid it. */
  lemma ConsDistinct(s: Source, rest: seq<Source>, seen: set<Url>)
    requires s.url.Some? && Key(s) !in seen
    requires DistinctKeys(rest, seen + {Key(s)})
    ensures DistinctKeys([s] + rest, seen)
  {
    var r := [s] + rest;
    forall i | 1 <= i < |r| ensures r[i] == rest[i - 1] {
    }
  }

  lemma {:induction false} DedupFromSubsequence(sources: seq<Source>, seen: set<Url>)
    ensures IsSubsequence(DedupFrom(sources, seen), sources)
    decreases |sources|
  {
    if sources != [] {
      var s := sources[0];
      if s.url.None? || Key(s) in seen {
        DedupFromSubsequence(sources[1..], seen);
        SkipHead(DedupFrom(sources[1..], seen), sources);
      } else {
        var rest := DedupFrom(sources[1..], seen + {Key(s)});
        DedupFromSubsequence(sources[1..], seen + {Key(s)});
        assert ([s] + rest)[1..] == rest;
      }
    }
  }

  /** A source whose normalised URL is new (not seen, not earlier in the
      list) is kept. */
  lemma {:induction false} DedupFromKeepsFirst(sources: seq<Source>, seen: set<Url>, i: nat)
    requires i < |sources| && sources[i].url.Some? && Key(sources[i]) !in seen
    requires forall j :: 0 <= j < i && sources[j].url.Some? ==> Key(sources[j]) != Key(sources[i])
    ensures sources[i] in DedupFrom(sources, seen)
    decreases i
  {
    var s := sources[0];
    if i > 0 {
      var tail := sources[1..];
      var seen' := if s.url.None? || Key(s) in seen then seen else seen + {Key(s)};
      assert tail[i - 1] == sources[i];
      forall j | 0 <= j < i - 1 && tail[j].url.Some? ensures Key(tail[j]) != Key(sources[i]) {
        assert tail[j] == sources[j + 1];
      }
      DedupFromKeepsFirst(tail, seen', i - 1);
      if s.url.Some? && Key(s) !in seen {
        assert DedupFrom(sources, seen) == [s] + DedupFrom(tail, seen');
      } else {
        assert DedupFrom(sources, seen) == DedupFrom(tail, seen');
      }
    } else {
      assert DedupFrom(sources, seen) == [s] + DedupFrom(sources[1..], seen + {Key(s)});
    }
  }

  /** A list whose URLs are present, distinct and unseen is kept whole. */
  lemma {:induction false} DedupFromOfDistinct(r: seq<Source>, seen: set<Url>)
    requires DistinctKeys(r, seen)
    ensures DedupFrom(r, seen) == r
    decreases |r|
  {
    if r != [] {
      DistinctTail(r, seen);
      DedupFromOfDistinct(r[1..], seen + {Key(r[0])});
    }
  }

  /** The tail of a distinct list is distinct and avoids its head's key. */
  lemma DistinctTail(r: seq<Source>, seen: set<Url>)
    requires r != [] && DistinctKeys(r, seen)
    ensures DistinctKeys(r[1..], seen + {Key(r[0])})
  {
    var t := r[1..];
    forall i | 0 <= i < |t| ensures t[i] == r[i + 1] {
    }
  }

  /** The four promises of `deduplicate_sources`: the output is a subsequence of
      the input, no two kept sources share a normalised URL, sources without a
      URL are dropped, and the first source with each normalised URL is kept. */
  lemma DedupProperties(sources: seq<Source>)
    ensures IsSubsequence(Dedup(sources), sources)
    ensures |Dedup(sources)| <= |sources|
    ensures forall s :: s in Dedup(sources) ==> s.url.Some?
    ensures forall i, j :: 0 <= i < j < |Dedup(sources)| ==>
      Key(Dedup(sources)[i]) != Key(Dedup(sources)[j])
    ensures forall i :: (0 <= i < |sources| && sources[i].url.Some?
                         && forall j :: 0 <= j < i && sources[j].url.Some? ==> Key(sources[j]) != Key(sources[i]))
                        ==> sources[i] in Dedup(sources)
  {
    DedupFromSubsequence(sources, {});
    SubsequenceLength(Dedup(sources), sources);
    DedupFromDistinct(sources, {});
    forall i | 0 <= i < |sources| && sources[i].url.Some?
      && (forall j :: 0 <= j < i && sources[j].url.Some? ==> Key(sources[j]) != Key(sources[i]))
      ensures sources[i] in Dedup(sources)
    {
      DedupFromKeepsFirst(sources, {}, i);
    }
  }

  /** Deduplicating a deduplicated list returns it unchanged. */
  lemma DedupIdempotent(sources: seq<Source>)
    ensures Dedup(Dedup(sources)) == Dedup(sources)
  {
    DedupFromDistinct(sources, {});
    DedupFromOfDistinct(Dedup(sources), {});
  }
}
