/**
 * The crawl profile of the sitemap command: the ordered rule chain that
 * decides whether the crawler follows a discovered URL. The profile's only
 * state is the list of normal forms already recorded by the variant rule.
 *
 * The crawler's own internal-URL check (`CrawlInternalUrls::shouldCrawl`) is
 * code outside this model and enters as the parameter `isInternal`.
 */
module CrawlProfile {
  import opened Wrappers
  import opened Text
  import opened Urls
  import opened Normalize

  /** The default `sitemap.skip_patterns` list. */
  const DefaultSkipPatterns: seq<string> := [
    "/login", "/logout", "/register", "/admin", "/cart", "/checkout",
    "wp-admin", "wp-login", "wp-content",
    "/feed/", "/search",
    ".jpg", ".jpeg", ".png", ".gif", ".css", ".js", ".pdf", ".zip",
    "/blog/category/", "/blog/tag/"
  ]

  /** The default `sitemap.max_pagination_depth`. */
  const DefaultMaxPaginationDepth: int := 100

  /** Query keys whose presence stops the crawl. */
  const FilterKeys: set<string> := {"sort", "order", "view", "filter"}

  /** The rule that turned a URL down. */
  datatype Rule = VariantSeen | ExcludedDirectory | SkipPattern | FilterParameter | PageTooDeep | External

  datatype Verdict = Crawl | Reject(rule: Rule)

  /**
   * Configuration and state of one profile: the `--exclude` directories, the
   * skip patterns, the pagination limit (0 switches it off) and the normal
   * forms recorded so far.
   */
  datatype Profile = Profile(
    excludedDirectories: seq<string>,
    skipPatterns: seq<string>,
    maxPaginationDepth: int,
    seen: seq<string>)

  datatype Step = Step(verdict: Verdict, profile: Profile)

  // ---------------------------------------------------------------------------
  // The individual rules
  // ---------------------------------------------------------------------------

  /** The URL is a variant (its normal form differs from its text) of a form already recorded. */
  predicate IsVariantOfSeen(seen: seq<string>, u: Url) {
    ProfileNormalize(u) != Render(u) && ProfileNormalize(u) in seen
  }

  /**
   * One excluded directory rules out a path: after trimming slashes from
   * both, the directory is non-empty, is not "0", and is a string prefix of
   * the path.
   */
  predicate Excludes(dir: string, path: string) {
    var d := Trim(dir, Slash);
    Truthy(d) && StartsWith(Trim(path, Slash), d)
  }

  /** Some element of `xs` satisfies `f`: the early-return `foreach` loop. */
  function AnyOf<T>(xs: seq<T>, f: T -> bool): (b: bool)
    ensures b <==> exists i :: 0 <= i < |xs| && f(xs[i])
    decreases |xs|
  {
    if |xs| == 0 then false
    else if f(xs[0]) then true
    else
      var b := AnyOf(xs[1..], f);
      assert forall i :: 1 <= i < |xs| ==> xs[i] == xs[1..][i - 1];
      b
  }

  /** The loop over the excluded directories. */
  function ExcludedByAny(dirs: seq<string>, path: string): (b: bool)
    ensures b <==> exists i :: 0 <= i < |dirs| && Excludes(dirs[i], path)
  {
    AnyOf(dirs, d => Excludes(d, path))
  }

  /** The loop over the skip patterns: some pattern is a substring of the URL text. */
  function SkippedByAny(patterns: seq<string>, text: string): (b: bool)
    ensures b <==> exists i :: 0 <= i < |patterns| && Contains(text, patterns[i])
  {
    AnyOf(patterns, q => Contains(text, q))
  }

  /** The query, read as a PHP array, has one of the filter keys. */
  predicate HasFilterKey(ps: seq<Param>) {
    exists k :: k in FilterKeys && HasKey(ps, k)
  }

  /** `page` is numeric and, with a non-zero limit, beyond it. */
  predicate PageBeyond(ps: seq<Param>, limit: int) {
    var page := Lookup(ps, "page");
    page.Some? && IsNumeric(page.value) && limit != 0 && IntCast(page.value) > limit
  }

  /** The rules after variant dedup, first match wins. */
  function Filter(p: Profile, u: Url, isInternal: Url -> bool): Verdict {
    var query := if u.query.Some? then ParseStr(u.query.value) else [];
    if ExcludedByAny(p.excludedDirectories, u.path.GetOr("")) then Reject(ExcludedDirectory)
    else if SkippedByAny(p.skipPatterns, Render(u)) then Reject(SkipPattern)
    else if u.query.Some? && HasFilterKey(query) then Reject(FilterParameter)
    else if u.query.Some? && PageBeyond(query, p.maxPaginationDepth) then Reject(PageTooDeep)
    else if isInternal(u) then Crawl
    else Reject(External)
  }

  // ---------------------------------------------------------------------------
  // shouldCrawl
  // ---------------------------------------------------------------------------

  /** The list of recorded normal forms after asking about `u`. */
  function Record(seen: seq<string>, u: Url): (r: seq<string>)
    ensures seen <= r && |r| <= |seen| + 1
    ensures |r| == |seen| + 1 <==> ProfileNormalize(u) != Render(u) && ProfileNormalize(u) !in seen
    ensures |r| == |seen| + 1 ==> r[|seen|] == ProfileNormalize(u)
  {
    var n := ProfileNormalize(u);
    if n != Render(u) && n !in seen then seen + [n] else seen
  }

  /**
   * `shouldCrawl`. The normal form is recorded whenever it differs from the
   * URL text and is new, whatever the later rules decide; the configuration
   * is left alone.
   */
  function ShouldCrawl(p: Profile, u: Url, isInternal: Url -> bool): (r: Step)
    ensures r.profile == p.(seen := Record(p.seen, u))
    ensures r.verdict == Reject(VariantSeen) <==> IsVariantOfSeen(p.seen, u)
  {
    if IsVariantOfSeen(p.seen, u) then Step(Reject(VariantSeen), p)
    else
      var p1 := p.(seen := Record(p.seen, u));
      Step(Filter(p1, u, isInternal), p1)
  }

  /**
   * The rules after variant dedup, in order: each applies only when every
   * earlier one let the URL through.
   */
  lemma ShouldCrawlRuleOrder(p: Profile, u: Url, isInternal: Url -> bool)
    ensures var v := ShouldCrawl(p, u, isInternal).verdict;
      && (v == Reject(ExcludedDirectory) <==>
            !IsVariantOfSeen(p.seen, u)
            && exists i :: 0 <= i < |p.excludedDirectories| && Excludes(p.excludedDirectories[i], u.path.GetOr("")))
      && (v == Reject(SkipPattern) <==>
            !IsVariantOfSeen(p.seen, u)
            && !ExcludedByAny(p.excludedDirectories, u.path.GetOr(""))
            && exists i :: 0 <= i < |p.skipPatterns| && Contains(Render(u), p.skipPatterns[i]))
      && (v == Reject(FilterParameter) <==>
            !IsVariantOfSeen(p.seen, u)
            && !ExcludedByAny(p.excludedDirectories, u.path.GetOr(""))
            && !SkippedByAny(p.skipPatterns, Render(u))
            && u.query.Some? && HasFilterKey(ParseStr(u.query.value)))
  {
  }

  /** A URL is crawled exactly when no rule turns it down and the crawler counts it as internal. */
  lemma ShouldCrawlAccepts(p: Profile, u: Url, isInternal: Url -> bool)
    ensures ShouldCrawl(p, u, isInternal).verdict == Crawl <==>
            !IsVariantOfSeen(p.seen, u)
            && (forall i :: 0 <= i < |p.excludedDirectories| ==> !Excludes(p.excludedDirectories[i], u.path.GetOr("")))
            && (forall i :: 0 <= i < |p.skipPatterns| ==> !Contains(Render(u), p.skipPatterns[i]))
            && (u.query.Some? ==> !HasFilterKey(ParseStr(u.query.value))
                                  && !PageBeyond(ParseStr(u.query.value), p.maxPaginationDepth))
            && isInternal(u)
  {
  }

  /** A URL already in normal form is never turned down as a variant. */
  lemma NormalFormNotVariant(p: Profile, u: Url, isInternal: Url -> bool)
    requires ProfileNormalize(u) == Render(u)
    ensures ShouldCrawl(p, u, isInternal).verdict != Reject(VariantSeen)
    ensures ShouldCrawl(p, u, isInternal).profile == p
  {
  }

  /** A URL without a query is its own normal form, so it never reaches the variant list. */
  lemma NoQueryNotVariant(p: Profile, u: Url, isInternal: Url -> bool)
    requires u.query.None?
    ensures ShouldCrawl(p, u, isInternal).verdict != Reject(VariantSeen)
    ensures ShouldCrawl(p, u, isInternal).profile == p
  {
  }

  /** Excluded directories that trim to "" or "0" exclude nothing. */
  lemma FalsyDirectoryIgnored(dir: string, path: string)
    requires Trim(dir, Slash) == "" || Trim(dir, Slash) == "0"
    ensures !Excludes(dir, path)
  {
  }

  /**
   * The directory test is a string prefix test, not a path-segment test:
   * excluding `blog` also rules out `/blogroll`, and slashes written around
   * the directory do not matter.
   */
  lemma ExcludesStringPrefix(d: string, rest: string, a: string, b: string, c: string)
    requires Truthy(d) && d[0] != '/' && d[|d| - 1] != '/'
    requires |rest| == 0 || rest[|rest| - 1] != '/'
    requires forall i :: 0 <= i < |a| ==> a[i] == '/'
    requires forall i :: 0 <= i < |b| ==> b[i] == '/'
    requires forall i :: 0 <= i < |c| ==> c[i] == '/'
    ensures Excludes(a + d + b, c + d + rest)
  {
    TrimSurrounded(a, d, b, Slash);
    TrimLeadingSlashes(c, d, rest);
    assert StartsWith(d + rest, d);
  }

  lemma TrimLeadingSlashes(c: string, d: string, rest: string)
    requires |d| > 0 && d[0] != '/' && d[|d| - 1] != '/'
    requires |rest| == 0 || rest[|rest| - 1] != '/'
    requires forall i :: 0 <= i < |c| ==> c[i] == '/'
    ensures Trim(c + d + rest, Slash) == d + rest
  {
    var t := d + rest;
    var e: string := [];
    assert t[0] == d[0];
    if |rest| == 0 {
      assert t == d;
    } else {
      assert t[|t| - 1] == rest[|rest| - 1];
    }
    TrimSurrounded(c, t, e, Slash);
    assert c + t + e == c + d + rest;
  }

  /**
   * The directory must start the path: a slash-free directory name rules out
   * no path whose first segment does not start with it, whatever segments
   * follow (so `blog` does not exclude `/about/blog`).
   */
  lemma ExcludesOnlyLeading(d: string, c: string, seg: string, rest: string)
    requires Truthy(d) && '/' !in d
    requires forall i :: 0 <= i < |c| ==> c[i] == '/'
    requires |seg| > 0 && '/' !in seg && !StartsWith(seg, d)
    ensures !Excludes(d, c + seg + "/" + rest)
  {
    SlashFreeTrimmed(d);
    var t := LeadingSegmentTrim(c, seg, rest);
    SegmentNotPrefix(d, seg, t);
  }

  /** A text that starts with a segment and then a slash starts with no slash-free name the segment does not start with. */
  lemma SegmentNotPrefix(d: string, seg: string, t: string)
    requires '/' !in d && !StartsWith(seg, d)
    requires |seg| <= |t| && t[..|seg|] == seg
    requires |t| > |seg| ==> t[|seg|] == '/'
    ensures !StartsWith(t, d)
  {
    if |d| <= |seg| {
      assert d != seg[..|d|];
      assert t[..|d|] == seg[..|d|];
    } else if |d| <= |t| {
      assert d[|seg|] in d;
    }
  }

  /** Trimming slashes from such a path leaves the first segment in front, followed by a slash if anything follows. */
  lemma SlashFreeTrimmed(d: string)
    requires |d| > 0 && '/' !in d
    ensures Trim(d, Slash) == d
  {
    assert d[0] in d && d[|d| - 1] in d;
    TrimSurrounded("", d, "", Slash);
    assert "" + d + "" == d;
  }

  lemma LeadingSegmentTrim(c: string, seg: string, rest: string) returns (t: string)
    requires forall i :: 0 <= i < |c| ==> c[i] == '/'
    requires |seg| > 0 && '/' !in seg
    ensures t == Trim(c + seg + "/" + rest, Slash)
    ensures |seg| <= |t| && t[..|seg|] == seg
    ensures |t| > |seg| ==> t[|seg|] == '/'
  {
    var path := c + seg + "/" + rest;
    assert path[..|c|] == c && path[|c|..|c| + |seg|] == seg && path[|c| + |seg|] == '/';
    t := SegmentTrimAt(c, seg, path);
  }

  lemma SegmentTrimAt(c: string, seg: string, path: string) returns (t: string)
    requires forall i :: 0 <= i < |c| ==> c[i] == '/'
    requires |seg| > 0 && '/' !in seg
    requires |c| + |seg| < |path|
    requires path[..|c|] == c && path[|c|..|c| + |seg|] == seg && path[|c| + |seg|] == '/'
    ensures t == Trim(path, Slash)
    ensures |seg| <= |t| && t[..|seg|] == seg
    ensures |t| > |seg| ==> t[|seg|] == '/'
  {
    var n := |c| + |seg|;
    assert path[n - 1] !in Slash by {
      assert path[n - 1] == seg[|seg| - 1];
      assert seg[|seg| - 1] in seg;
    }
    var r := TrimRight(path, Slash);
    assert |r| >= n;
    var m := r[|c|..];
    assert r == c + m by {
      assert r[..|c|] == path[..|c|];
    }
    assert m[..|seg|] == seg by {
      assert m[..|seg|] == path[|c|..n];
    }
    assert m[0] !in Slash by {
      assert m[0] == seg[0] && seg[0] in seg;
    }
    TrimLeftIgnoresLeading(c, m, Slash);
    t := m;
  }

  /** An empty skip pattern occurs in every URL, so it rules out the whole crawl. */
  lemma EmptyPatternSkipsAll(p: Profile, u: Url, isInternal: Url -> bool)
    requires "" in p.skipPatterns
    ensures ShouldCrawl(p, u, isInternal).verdict != Crawl
  {
    var i :| 0 <= i < |p.skipPatterns| && p.skipPatterns[i] == "";
    assert OccursAt(Render(u), "", 0);
  }

  /** With the limit switched off (0) no page number is too deep. */
  lemma ZeroLimitAllowsAnyPage(ps: seq<Param>)
    ensures !PageBeyond(ps, 0)
  {
  }

  /** A page number that casts to at most the limit is never too deep. */
  lemma PageWithinLimit(ps: seq<Param>, n: nat, limit: int)
    requires Lookup(ps, "page") == Some(NatToString(n)) && n <= limit
    ensures !PageBeyond(ps, limit)
  {
    NatToStringNumeric(n);
  }

  /** A page number beyond a non-zero limit is too deep. */
  lemma PageBeyondLimit(ps: seq<Param>, n: nat, limit: int)
    requires Lookup(ps, "page") == Some(NatToString(n)) && limit != 0 && n > limit
    ensures PageBeyond(ps, limit)
  {
    NatToStringNumeric(n);
  }

  /** With the default patterns, no URL whose path lies under `/admin` is crawled, whatever its origin, query or fragment. */
  lemma DefaultPatternsSkipAdmin(p: Profile, u: Url, isInternal: Url -> bool)
    requires p.skipPatterns == DefaultSkipPatterns
    requires u.path.Some? && StartsWith(u.path.value, "/admin")
    ensures ShouldCrawl(p, u, isInternal).verdict != Crawl
  {
    var t := Render(u);
    var k := |Origin(u)|;
    var tail := (if u.query.Some? then "?" + QueryString(u.query.value) else "") + FragmentPart(u);
    assert t == Origin(u) + u.path.value + tail;
    assert t[k..k + 6] == u.path.value[..6] == "/admin";
    assert OccursAt(t, DefaultSkipPatterns[3], k);
  }

  // ---------------------------------------------------------------------------
  // A whole crawl: shouldCrawl over the URLs in the order the crawler asks
  // ---------------------------------------------------------------------------

  datatype Trace = Trace(verdicts: seq<Verdict>, profile: Profile)

  /** The verdicts for `us`, asked in order, and the profile afterwards. */
  function Run(p: Profile, us: seq<Url>, isInternal: Url -> bool): (r: Trace)
    ensures |r.verdicts| == |us|
    ensures r.profile.excludedDirectories == p.excludedDirectories
    ensures r.profile.skipPatterns == p.skipPatterns
    ensures r.profile.maxPaginationDepth == p.maxPaginationDepth
    ensures p.seen <= r.profile.seen
    decreases |us|
  {
    if |us| == 0 then Trace([], p)
    else
      var before := Run(p, us[..|us| - 1], isInternal);
      var step := ShouldCrawl(before.profile, us[|us| - 1], isInternal);
      Trace(before.verdicts + [step.verdict], step.profile)
  }

  /** Running a prefix gives a prefix of the verdicts and a prefix of the recorded forms. */
  lemma {:induction false} RunPrefix(p: Profile, us: seq<Url>, k: nat, isInternal: Url -> bool)
    requires k <= |us|
    ensures Run(p, us[..k], isInternal).verdicts == Run(p, us, isInternal).verdicts[..k]
    ensures Run(p, us[..k], isInternal).profile.seen <= Run(p, us, isInternal).profile.seen
    decreases |us| - k
  {
    if k < |us| {
      var shorter := us[..|us| - 1];
      assert shorter[..k] == us[..k];
      RunPrefix(p, shorter, k, isInternal);
    } else {
      assert us[..k] == us;
    }
  }

  /** One more URL: the previous trace extended by one `shouldCrawl` step. */
  lemma RunLast(p: Profile, us: seq<Url>, isInternal: Url -> bool)
    requires |us| > 0
    ensures var before := Run(p, us[..|us| - 1], isInternal);
            var step := ShouldCrawl(before.profile, us[|us| - 1], isInternal);
            Run(p, us, isInternal) == Trace(before.verdicts + [step.verdict], step.profile)
  {
  }

  /** The `j`-th verdict is `shouldCrawl` applied to the profile left by the first `j` URLs. */
  lemma RunVerdictAt(p: Profile, us: seq<Url>, j: nat, isInternal: Url -> bool)
    requires j < |us|
    ensures Run(p, us, isInternal).verdicts[j]
         == ShouldCrawl(Run(p, us[..j], isInternal).profile, us[j], isInternal).verdict
  {
    var w := us[..j + 1];
    assert w[..|w| - 1] == us[..j] && w[|w| - 1] == us[j];
    RunLast(p, w, isInternal);
    RunPrefix(p, us, j + 1, isInternal);
    assert Run(p, w, isInternal).verdicts[j] == Run(p, us, isInternal).verdicts[j];
  }

  /** After a URL that is not its own normal form is asked about, its normal form is recorded. */
  lemma RecordedAfter(p: Profile, us: seq<Url>, i: nat, isInternal: Url -> bool)
    requires i < |us| && ProfileNormalize(us[i]) != Render(us[i])
    ensures ProfileNormalize(us[i]) in Run(p, us[..i + 1], isInternal).profile.seen
  {
    var w := us[..i + 1];
    assert w[..|w| - 1] == us[..i] && w[|w| - 1] == us[i];
    RunLast(p, w, isInternal);
    var before := Run(p, us[..i], isInternal).profile;
    var r := Record(before.seen, us[i]);
    if ProfileNormalize(us[i]) !in before.seen {
      assert r[|before.seen|] == ProfileNormalize(us[i]);
    } else {
      assert before.seen <= r;
    }
  }

  /**
   * Of all the URLs of a crawl that are variants (not their own normal form)
   * with the same normal form, only the first can get past the variant rule:
   * every later one is turned down by it.
   */
  lemma OnlyFirstVariantPasses(p: Profile, us: seq<Url>, i: nat, j: nat, isInternal: Url -> bool)
    requires i < j < |us|
    requires ProfileNormalize(us[i]) != Render(us[i])
    requires ProfileNormalize(us[j]) != Render(us[j])
    requires ProfileNormalize(us[i]) == ProfileNormalize(us[j])
    ensures Run(p, us, isInternal).verdicts[j] == Reject(VariantSeen)
  {
    VariantRecordedBefore(p, us, i, j, isInternal);
    VariantRejected(p, us, j, isInternal);
  }

  /** A variant's normal form is still recorded when any later URL is asked about. */
  lemma {:induction false} VariantRecordedBefore(p: Profile, us: seq<Url>, i: nat, j: nat, isInternal: Url -> bool)
    requires i < j <= |us| && ProfileNormalize(us[i]) != Render(us[i])
    ensures ProfileNormalize(us[i]) in Run(p, us[..j], isInternal).profile.seen
  {
    var n := ProfileNormalize(us[i]);
    assert n in Run(p, us[..i + 1], isInternal).profile.seen by {
      RecordedAfter(p, us, i, isInternal);
    }
    RecordedStays(p, us, i + 1, j, n, isInternal);
  }

  /** Once recorded, a normal form stays recorded for the rest of the crawl. */
  lemma RecordedStays(p: Profile, us: seq<Url>, k: nat, j: nat, n: string, isInternal: Url -> bool)
    requires k <= j <= |us| && n in Run(p, us[..k], isInternal).profile.seen
    ensures n in Run(p, us[..j], isInternal).profile.seen
  {
    SeenGrows(p, us, k, j, isInternal);
    InPrefix(Run(p, us[..k], isInternal).profile.seen, Run(p, us[..j], isInternal).profile.seen, n);
  }

  lemma InPrefix(a: seq<string>, b: seq<string>, x: string)
    requires x in a && a <= b
    ensures x in b
  {
    var k :| 0 <= k < |a| && a[k] == x;
    assert b[k] == x;
  }

  /** A URL whose normal form the crawl so far has recorded is turned down by the variant rule. */
  lemma VariantRejected(p: Profile, us: seq<Url>, j: nat, isInternal: Url -> bool)
    requires j < |us|
    requires IsVariantOfSeen(Run(p, us[..j], isInternal).profile.seen, us[j])
    ensures Run(p, us, isInternal).verdicts[j] == Reject(VariantSeen)
  {
    RunVerdictAt(p, us, j, isInternal);
  }

  /** What a longer prefix of the crawl has recorded includes what a shorter one has. */
  lemma SeenGrows(p: Profile, us: seq<Url>, k: nat, j: nat, isInternal: Url -> bool)
    requires k <= j <= |us|
    ensures Run(p, us[..k], isInternal).profile.seen <= Run(p, us[..j], isInternal).profile.seen
  {
    RunPrefix(p, us[..j], k, isInternal);
    assert us[..j][..k] == us[..k];
  }

  /** A URL in normal form is never turned down as a variant, at any point of a crawl. */
  lemma NormalFormNeverVariantInRun(p: Profile, us: seq<Url>, j: nat, isInternal: Url -> bool)
    requires j < |us| && ProfileNormalize(us[j]) == Render(us[j])
    ensures Run(p, us, isInternal).verdicts[j] != Reject(VariantSeen)
  {
    RunVerdictAt(p, us, j, isInternal);
  }
}
