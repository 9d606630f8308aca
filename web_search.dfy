/** The quality filter over search results (`filter_quality_sources`),
    from lib/web_search.py. */
module WebSearch {
  import opened Wrappers
  import opened Strings
  import opened Seqs

  /** One search result. `url` is None when the key is absent; a missing
      `title` or `snippet` reads as the empty string, as `r.get(..., '')` does. */
  datatype SearchResult = SearchResult(url: Option<string>, title: string, snippet: string)

  /** `r['url']` raised `KeyError('url')`. */
  datatype FilterError = MissingUrl

  const SpamDomains: seq<string> := ["pinterest.com", "instagram.com", "facebook.com"]

  predicate IsSpam(url: string) {
    exists k :: 0 <= k < |SpamDomains| && Contains(url, SpamDomains[k])
  }

  /** The three criteria, for a result that has a URL. */
  predicate IsQuality(minSnippetLength: int, r: SearchResult) {
    r.url.Some? && !IsSpam(r.url.value)
    && |r.snippet| >= minSnippetLength
    && r.title != ""
  }

  /** The filter's test as a predicate value. */
  function Quality(minSnippetLength: int): SearchResult -> bool {
    r => IsQuality(minSnippetLength, r)
  }

  /** The three `continue` guards of the loop body, for a result that has a
      URL: true when the result reaches `filtered.append`. */
  method PassesGuards(res: SearchResult, minSnippetLength: int) returns (keep: bool)
    requires res.url.Some?
    ensures keep == IsQuality(minSnippetLength, res)
  {
    var url := res.url.value;
    if exists k :: 0 <= k < |SpamDomains| && Contains(url, SpamDomains[k]) {
      return false;
    }
    if |res.snippet| < minSnippetLength {
      return false;
    }
    if res.title == "" {
      return false;
    }
    return true;
  }

  /** `filter_quality_sources(results, min_snippet_length)`: the loop with
      `continue` guards. A result without a `url` key aborts the whole call. */
  method FilterQualitySources(results: seq<SearchResult>, minSnippetLength: int)
    returns (r: Result<seq<SearchResult>, FilterError>)
    ensures r.Failure? <==> exists i :: 0 <= i < |results| && results[i].url.None?
    ensures r.Success? ==> r.value == Filter(Quality(minSnippetLength), results)
  {
    ghost var p := Quality(minSnippetLength);
    var filtered := [];
    var i := 0;
    while i < |results|
      invariant 0 <= i <= |results|
      invariant forall k :: 0 <= k < i ==> results[k].url.Some?
      invariant filtered + Filter(p, results[i..]) == Filter(p, results)
    {
      var res := results[i];
      if res.url.None? {
        return Failure(MissingUrl);
      }
      FilterAt(p, results, i);
      var keep := PassesGuards(res, minSnippetLength);
      assert p(res) == keep;
      if keep {
        ConcatAssoc(filtered, [res], Filter(p, results[i + 1..]));
        filtered := filtered + [res];
      }
      i := i + 1;
    }
    assert results[i..] == [];
    r := Success(filtered);
  }

  /** What the filter keeps: a subsequence of the input in its original order,
      no URL on a spam domain, every snippet long enough, every title non-empty;
      and every result that meets the three criteria is kept. */
  lemma QualityFilterProperties(results: seq<SearchResult>, minSnippetLength: int)
    ensures var kept := Filter(Quality(minSnippetLength), results);
      && IsSubsequence(kept, results)
      && (forall r :: r in kept ==>
            r.url.Some?
            && (forall d :: d in SpamDomains ==> !Contains(r.url.value, d))
            && |r.snippet| >= minSnippetLength
            && r.title != "")
      && (forall r :: r in results && IsQuality(minSnippetLength, r) ==> r in kept)
  {
    var p := Quality(minSnippetLength);
    FilterIsSubsequence(p, results);
    FilterMembers(p, results);
    forall r | r in Filter(p, results)
      ensures r.url.Some? && (forall d :: d in SpamDomains ==> !Contains(r.url.value, d))
    {
      assert p(r);
      QualityAvoidsSpam(minSnippetLength, r);
    }
  }

  /** A quality result's URL contains none of the spam domains. */
  lemma QualityAvoidsSpam(minSnippetLength: int, r: SearchResult)
    requires IsQuality(minSnippetLength, r)
    ensures forall d :: d in SpamDomains ==> !Contains(r.url.value, d)
  {
    forall d | d in SpamDomains ensures !Contains(r.url.value, d) {
      var k :| 0 <= k < |SpamDomains| && SpamDomains[k] == d;
    }
  }

  /** Filtering an already filtered list keeps all of it. */
  lemma QualityFilterIdempotent(results: seq<SearchResult>, minSnippetLength: int)
    ensures var p := Quality(minSnippetLength);
      Filter(p, Filter(p, results)) == Filter(p, results)
  {
    FilterIdempotent(Quality(minSnippetLength), results);
  }

  /** The domain test is a substring test, so a look-alike host is caught too. */
  lemma SpamIsSubstringMatch()
    ensures IsSpam("https://notfacebook.com/page")
  {
    var u := "https://notfacebook.com/page";
    assert u[11..11 + |"facebook.com"|] == "facebook.com";
    assert IsOccurrence(u, SpamDomains[2], 11);
  }
}
