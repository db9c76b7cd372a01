/**
 * The two URL normalisers of the sitemap command.
 *
 * - `DedupNormalize` (the command's own `normalizeUrl`) builds the key used to
 *   recognise URLs that the record sources already produced: tracking keys
 *   are removed (exact case), other pairs keep their order, trailing slashes
 *   of the path go, the fragment is dropped and the whole text is
 *   lower-cased at the end.
 * - `ProfileNormalize` (the crawl profile's `normalizeUrl`) collapses query
 *   variants of one page: it is the identity without a query; with one it
 *   removes tracking keys, sorts the rest by key, keeps path case and the
 *   fragment.
 */
module Normalize {
  import opened Wrappers
  import opened Text
  import opened Urls
  import opened KeyOrder

  // ---------------------------------------------------------------------------
  // Shared pieces
  // ---------------------------------------------------------------------------

  /** `?` followed by the pairs, or nothing when there are none (`! empty($params)`). */
  function QueryTail(ps: seq<Param>): string {
    if |ps| > 0 then "?" + QueryString(ps) else ""
  }

  function LowerOpt(o: Option<string>): Option<string> {
    if o.Some? then Some(Lower(o.value)) else None
  }

  function LowerParams(ps: seq<Param>): (r: seq<Param>)
    ensures |r| == |ps|
    ensures forall i :: 0 <= i < |ps| ==> r[i] == Param(Lower(ps[i].key), Lower(ps[i].value))
  {
    seq(|ps|, i requires 0 <= i < |ps| => Param(Lower(ps[i].key), Lower(ps[i].value)))
  }

  lemma {:induction false} LowerQueryString(ps: seq<Param>)
    ensures Lower(QueryString(ps)) == QueryString(LowerParams(ps))
    decreases |ps|
  {
    if |ps| == 1 {
      LowerConcat(ps[0].key, "=");
      LowerConcat(ps[0].key + "=", ps[0].value);
    } else if |ps| > 1 {
      LowerQueryString(ps[1..]);
      assert LowerParams(ps)[1..] == LowerParams(ps[1..]);
      LowerConcat(ps[0].key, "=");
      LowerConcat(ps[0].key + "=", ps[0].value);
      LowerConcat(ps[0].key + "=" + ps[0].value, "&");
      LowerConcat(ps[0].key + "=" + ps[0].value + "&", QueryString(ps[1..]));
    }
  }

  lemma LowerDigits(s: string)
    requires AllDigits(s)
    ensures Lower(s) == s
  {
    LowerOfNoUpper(s);
  }

  // ---------------------------------------------------------------------------
  // The dedup normaliser (hybrid mode)
  // ---------------------------------------------------------------------------

  /** The query pairs that survive: read as a PHP array, tracking keys unset. */
  function KeptParams(u: Url): (r: seq<Param>)
    ensures UniqueKeys(r)
    ensures forall i :: 0 <= i < |r| ==> r[i].key !in TrackingKeys
  {
    if u.query.Some? then
      var ps := ParseStr(u.query.value);
      DropTrackingUnique(ps);
      DropTracking(ps)
    else []
  }

  /**
   * The record the dedup normaliser's output text spells: scheme and host
   * lower-cased, the port kept, the path without trailing slashes and
   * lower-cased, the surviving pairs lower-cased in their original order, and
   * no fragment.
   */
  function DedupRecord(u: Url): (r: Url)
    ensures r.port == u.port && r.fragment.None?
    ensures r.query.Some? ==> |r.query.value| > 0
    ensures r.query.Some? ==> r.query.value == LowerParams(KeptParams(u))
  {
    var kept := KeptParams(u);
    Url(
      LowerOpt(u.scheme),
      LowerOpt(u.host),
      u.port,
      if u.path.Some? then Some(Lower(TrimRight(u.path.value, Slash))) else None,
      if |kept| > 0 then Some(LowerParams(kept)) else None,
      None)
  }

  /**
   * `normalizeUrl` of the sitemap command. The result has no capital letter
   * and is exactly the text of `DedupRecord(u)`.
   */
  function DedupNormalize(u: Url): (r: string)
    ensures NoUpper(r)
    ensures r == Render(DedupRecord(u))
  {
    var r := Lower(Origin(u) + TrimRight(PathPart(u), Slash) + QueryTail(KeptParams(u)));
    LowerIsLowercase(Origin(u) + TrimRight(PathPart(u), Slash) + QueryTail(KeptParams(u)));
    DedupTextIsRecord(u);
    r
  }

  lemma DedupTextIsRecord(u: Url)
    ensures Lower(Origin(u) + TrimRight(PathPart(u), Slash) + QueryTail(KeptParams(u)))
         == Render(DedupRecord(u))
  {
    var d := DedupRecord(u);
    var kept := KeptParams(u);
    var path := TrimRight(PathPart(u), Slash);
    LowerConcat(Origin(u) + path, QueryTail(kept));
    LowerConcat(Origin(u), path);
    LowerConcat(SchemePart(u) + HostPart(u), PortPart(u));
    LowerConcat(SchemePart(u), HostPart(u));
    if u.scheme.Some? {
      LowerConcat(u.scheme.value, "://");
      assert Lower(SchemePart(u)) == SchemePart(d);
    }
    assert Lower(HostPart(u)) == HostPart(d);
    if u.port.Some? {
      LowerConcat(":", NatToString(u.port.value));
      LowerDigits(NatToString(u.port.value));
      assert Lower(PortPart(u)) == PortPart(d);
    }
    assert Lower(path) == PathPart(d);
    if |kept| > 0 {
      LowerConcat("?", QueryString(kept));
      LowerQueryString(kept);
      assert Lower(QueryTail(kept)) == "?" + QueryString(d.query.value);
    }
  }

  /** A URL with any run of slashes appended to its path normalises like the URL itself. */
  lemma DedupIgnoresTrailingSlashes(u: Url, p: string, t: string)
    requires forall i :: 0 <= i < |t| ==> t[i] == '/'
    ensures DedupNormalize(u.(path := Some(p + t))) == DedupNormalize(u.(path := Some(p)))
  {
    TrimRightIgnoresTrailing(p, t, Slash);
  }

  /** No path, an empty path and a path of slashes only all normalise the same. */
  lemma DedupRootPath(u: Url, t: string)
    requires forall i :: 0 <= i < |t| ==> t[i] == '/'
    ensures DedupNormalize(u.(path := Some(t))) == DedupNormalize(u.(path := None))
  {
    TrimRightIgnoresTrailing("", t, Slash);
    assert "" + t == t;
  }

  /** Removing tracking pairs from a query, or dropping a query of tracking pairs only, changes nothing. */
  lemma DedupIgnoresTracking(u: Url, q: seq<Param>)
    ensures DedupNormalize(u.(query := Some(q))) == DedupNormalize(u.(query := Some(DropTracking(q))))
    ensures DropTracking(q) == [] ==> DedupNormalize(u.(query := Some(q))) == DedupNormalize(u.(query := None))
  {
    DropTrackingParseStr(q);
    DropTrackingNoop(DropTracking(q));
    DropTrackingParseStr(DropTracking(q));
  }

  /** The fragment never reaches the dedup key. */
  lemma DedupIgnoresFragment(u: Url, f: Option<string>)
    ensures DedupNormalize(u.(fragment := f)) == DedupNormalize(u)
  {
  }

  /** Scheme, host and path compare case-insensitively; the query is compared as given. */
  lemma DedupCaseInsensitive(u: Url, v: Url)
    requires u.port == v.port && u.query == v.query
    requires LowerOpt(u.scheme) == LowerOpt(v.scheme) && LowerOpt(u.host) == LowerOpt(v.host)
    requires u.path.Some? <==> v.path.Some?
    requires u.path.Some? ==> Lower(u.path.value) == Lower(v.path.value)
    ensures DedupNormalize(u) == DedupNormalize(v)
  {
    if u.path.Some? {
      LowerTrimRightSlash(u.path.value);
      LowerTrimRightSlash(v.path.value);
    }
    assert DedupRecord(u) == DedupRecord(v);
  }

  /**
   * A query with distinct keys keeps its non-tracking pairs in their original
   * order: nothing is sorted.
   */
  lemma DedupKeepsOrder(u: Url, q: seq<Param>)
    requires UniqueKeys(q) && |DropTracking(q)| > 0
    ensures DedupRecord(u.(query := Some(q))).query == Some(LowerParams(DropTracking(q)))
  {
    ParseStrUnique(q);
  }

  /**
   * Different values of a non-tracking parameter give different keys, unless
   * they differ only in letter case.
   */
  lemma DedupDistinguishesValue(u: Url, k: string, v1: string, v2: string)
    requires k !in TrackingKeys && Lower(v1) != Lower(v2)
    ensures DedupNormalize(u.(query := Some([Param(k, v1)]))) != DedupNormalize(u.(query := Some([Param(k, v2)])))
  {
    var u1 := u.(query := Some([Param(k, v1)]));
    var u2 := u.(query := Some([Param(k, v2)]));
    var x := DedupPrefix(u) + "?" + Lower(k) + "=";
    DedupOfSingle(u, k, v1);
    DedupOfSingle(u, k, v2);
    assert (x + Lower(v1))[|x|..] == Lower(v1);
    assert (x + Lower(v2))[|x|..] == Lower(v2);
  }

  /** The part of the dedup key before the query. */
  function DedupPrefix(u: Url): string {
    var d := DedupRecord(u);
    Origin(d) + PathPart(d)
  }

  lemma DedupOfSingle(u: Url, k: string, v: string)
    requires k !in TrackingKeys
    ensures DedupNormalize(u.(query := Some([Param(k, v)]))) == DedupPrefix(u) + "?" + Lower(k) + "=" + Lower(v)
  {
    var w := u.(query := Some([Param(k, v)]));
    SingleKept(w, k, v);
    var d := DedupRecord(w);
    assert Origin(d) + PathPart(d) == DedupPrefix(u);
    assert QueryString([Param(Lower(k), Lower(v))]) == Lower(k) + "=" + Lower(v);
    assert Render(d) == Origin(d) + PathPart(d) + "?" + QueryString([Param(Lower(k), Lower(v))]) + "";
  }

  lemma SingleKept(u: Url, k: string, v: string)
    requires k !in TrackingKeys && u.query == Some([Param(k, v)])
    ensures KeptParams(u) == [Param(k, v)]
    ensures DedupRecord(u).query == Some([Param(Lower(k), Lower(v))])
  {
    var q := [Param(k, v)];
    ParseStrUnique(q);
    DropTrackingNoop(q);
    assert KeptParams(u) == q;
    var l := LowerParams(q);
    assert l[0] == Param(Lower(k), Lower(v));
    assert l == [Param(Lower(k), Lower(v))];
  }

  /** The condition under which a second pass changes nothing: after lower-casing the kept keys are still distinct and none is a tracking key. */
  predicate StableUnderLowering(u: Url) {
    var l := LowerParams(KeptParams(u));
    UniqueKeys(l) && forall i :: 0 <= i < |l| ==> l[i].key !in TrackingKeys
  }

  /**
   * Normalising the normalised URL again gives the same key, provided
   * lower-casing did not turn a kept key into a tracking key or into a
   * duplicate.
   */
  lemma DedupIdempotent(u: Url)
    requires StableUnderLowering(u)
    ensures DedupNormalize(DedupRecord(u)) == DedupNormalize(u)
  {
    var d := DedupRecord(u);
    DedupQueryFixed(u);
    DedupOriginFixed(u);
    DedupPathFixed(u);
    assert DedupRecord(d) == d;
  }

  lemma DedupQueryFixed(u: Url)
    requires StableUnderLowering(u)
    ensures DedupRecord(DedupRecord(u)).query == DedupRecord(u).query
  {
    var d := DedupRecord(u);
    var l := LowerParams(KeptParams(u));
    if |l| > 0 {
      ParseStrUnique(l);
      DropTrackingNoop(l);
      assert KeptParams(d) == l;
      LowerParamsTwice(KeptParams(u));
    }
  }

  lemma LowerParamsTwice(ps: seq<Param>)
    ensures LowerParams(LowerParams(ps)) == LowerParams(ps)
  {
    var l := LowerParams(ps);
    forall i | 0 <= i < |l| ensures Lower(l[i].key) == l[i].key && Lower(l[i].value) == l[i].value {
      LowerIdempotent(ps[i].key);
      LowerIdempotent(ps[i].value);
    }
  }

  lemma DedupOriginFixed(u: Url)
    ensures DedupRecord(DedupRecord(u)).scheme == DedupRecord(u).scheme
    ensures DedupRecord(DedupRecord(u)).host == DedupRecord(u).host
  {
    if u.scheme.Some? {
      LowerIdempotent(u.scheme.value);
    }
    if u.host.Some? {
      LowerIdempotent(u.host.value);
    }
  }

  lemma DedupPathFixed(u: Url)
    ensures DedupRecord(DedupRecord(u)).path == DedupRecord(u).path
  {
    if u.path.Some? {
      var t := TrimRight(u.path.value, Slash);
      LowerTrimRightSlash(t);
      TrimRightIdempotent(u.path.value, Slash);
      LowerIdempotent(t);
    }
  }

  /**
   * Without the condition a second pass can differ: `UTM_SOURCE` is not a
   * tracking key on the first pass (the comparison is case-sensitive) but its
   * lower-cased form is one on the second.
   */
  lemma DedupNotIdempotentForCapitalisedTrackingKey()
    ensures var u := Url(Some("https"), Some("example.com"), None, None, Some([Param("UTM_SOURCE", "x")]), None);
            DedupNormalize(DedupRecord(u)) != DedupNormalize(u)
  {
    var u := Url(Some("https"), Some("example.com"), None, None, Some([Param("UTM_SOURCE", "x")]), None);
    assert "UTM_SOURCE" !in TrackingKeys;
    assert KeptParams(u) == [Param("UTM_SOURCE", "x")];
    assert Lower("UTM_SOURCE") == "utm_source";
    assert Lower("x") == "x";
    var l := LowerParams(KeptParams(u));
    assert l[0] == Param("utm_source", "x");
    assert l == [Param("utm_source", "x")];
    var d := DedupRecord(u);
    assert d.query == Some(l);
    assert KeptParams(d) == [];
    assert |DedupNormalize(u)| > |DedupNormalize(d)|;
  }

  // ---------------------------------------------------------------------------
  // The crawl profile's normaliser (variant dedup)
  // ---------------------------------------------------------------------------

  /** The record the profile normaliser spells: only the query changes, to its sorted surviving pairs. */
  function ProfileRecord(u: Url): (r: Url)
    ensures r.scheme == u.scheme && r.host == u.host && r.port == u.port
    ensures r.path == u.path && r.fragment == u.fragment
    ensures u.query.None? ==> r == u
    ensures r.query.Some? ==> Sorted(r.query.value) && |r.query.value| > 0
    ensures r.query.Some? ==> multiset(r.query.value) == multiset(DropTracking(ParseStr(u.query.value)))
  {
    if u.query.None? then u
    else
      var ps := DropTracking(ParseStr(u.query.value));
      DropTrackingUnique(ParseStr(u.query.value));
      SortByKeySorted(ps);
      var sorted := SortByKey(ps);
      u.(query := if |sorted| > 0 then Some(sorted) else None)
  }

  /**
   * `normalizeUrl` of the crawl profile: the URL text itself when there is no
   * query, otherwise the text of `ProfileRecord(u)`. Case is kept.
   */
  function ProfileNormalize(u: Url): (r: string)
    ensures u.query.None? ==> r == Render(u)
    ensures r == Render(ProfileRecord(u))
  {
    if u.query.None? then Render(u)
    else
      var ps := SortByKey(DropTracking(ParseStr(u.query.value)));
      Origin(u) + PathPart(u) + QueryTail(ps) + FragmentPart(u)
  }

  /** A URL whose query is already sorted, free of tracking keys and non-empty is its own normal form. */
  lemma ProfileFixedPoint(u: Url)
    requires u.query.Some? ==> Sorted(u.query.value) && |u.query.value| > 0
    requires u.query.Some? ==> forall i :: 0 <= i < |u.query.value| ==> u.query.value[i].key !in TrackingKeys
    ensures ProfileNormalize(u) == Render(u)
  {
    if u.query.Some? {
      var q := u.query.value;
      SortedUnique(q);
      ParseStrUnique(q);
      DropTrackingNoop(q);
      SortSorted(q);
    }
  }

  /** The profile normaliser applied to its own output changes nothing. */
  lemma ProfileIdempotent(u: Url)
    ensures ProfileNormalize(ProfileRecord(u)) == ProfileNormalize(u)
    ensures ProfileNormalize(ProfileRecord(u)) == Render(ProfileRecord(u))
  {
    var r := ProfileRecord(u);
    if r.query.Some? {
      assert forall i :: 0 <= i < |r.query.value| ==> r.query.value[i] in multiset(r.query.value);
    }
    ProfileFixedPoint(r);
  }

  /** Reordering the pairs of a query (after `parse_str`) does not change the normal form. */
  lemma ProfileOrderIndependent(u: Url, q1: seq<Param>, q2: seq<Param>)
    requires multiset(ParseStr(q1)) == multiset(ParseStr(q2))
    ensures ProfileNormalize(u.(query := Some(q1))) == ProfileNormalize(u.(query := Some(q2)))
  {
    var p1 := ParseStr(q1);
    var p2 := ParseStr(q2);
    DropTrackingMultiset(p1, p2);
    DropTrackingUnique(p1);
    DropTrackingUnique(p2);
    SortPermutation(DropTracking(p1), DropTracking(p2));
  }

  /** Tracking pairs never influence the profile normal form of a URL that has a query. */
  lemma ProfileIgnoresTracking(u: Url, q: seq<Param>)
    ensures ProfileNormalize(u.(query := Some(q))) == ProfileNormalize(u.(query := Some(DropTracking(q))))
  {
    DropTrackingParseStr(q);
    DropTrackingNoop(DropTracking(q));
    DropTrackingParseStr(DropTracking(q));
  }

  lemma {:induction false} DropTrackingCount(a: seq<Param>, x: Param)
    ensures multiset(DropTracking(a))[x] == if x.key in TrackingKeys then 0 else multiset(a)[x]
    decreases |a|
  {
    if |a| > 0 {
      DropTrackingCount(a[1..], x);
      DropTrackingCountStep(a, x);
    }
  }

  lemma DropTrackingCountStep(a: seq<Param>, x: Param)
    requires |a| > 0
    requires multiset(DropTracking(a[1..]))[x] == if x.key in TrackingKeys then 0 else multiset(a[1..])[x]
    ensures multiset(DropTracking(a))[x] == if x.key in TrackingKeys then 0 else multiset(a)[x]
  {
    DropTrackingCons(a);
    ConsMultiset(a);
  }

  /** One step of the filter, as multisets. */
  lemma DropTrackingCons(a: seq<Param>)
    requires |a| > 0
    ensures multiset(DropTracking(a)) ==
      (if a[0].key in TrackingKeys then multiset{} else multiset{a[0]}) + multiset(DropTracking(a[1..]))
  {
    var d := DropTracking(a[1..]);
    if a[0].key !in TrackingKeys {
      assert DropTracking(a) == [a[0]] + d;
    }
  }

  lemma ConsMultiset(a: seq<Param>)
    requires |a| > 0
    ensures multiset(a) == multiset{a[0]} + multiset(a[1..])
  {
    assert a == [a[0]] + a[1..];
  }

  lemma DropTrackingMultiset(a: seq<Param>, b: seq<Param>)
    requires multiset(a) == multiset(b)
    ensures multiset(DropTracking(a)) == multiset(DropTracking(b))
  {
    forall x ensures multiset(DropTracking(a))[x] == multiset(DropTracking(b))[x] {
      DropTrackingCount(a, x);
      DropTrackingCount(b, x);
    }
  }
}
