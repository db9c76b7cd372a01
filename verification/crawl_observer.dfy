/**
 * The crawl observer of the sitemap command: what happens when the crawler
 * reports a fetched page. Its state is the crawled counter, the list of URL
 * texts already written and the entries collected so far.
 *
 * Fetching, the canonical-link regular expression and the parsing of the
 * `Last-Modified` header stay outside: each fetched page arrives as a
 * `Page` whose canonical link and modification time are already extracted.
 */
module CrawlObserver {
  import opened Wrappers
  import opened Text
  import opened Urls
  import opened Normalize
  import opened Entries

  // ---------------------------------------------------------------------------
  // Special pages
  // ---------------------------------------------------------------------------

  /** The base URL with a trailing slash added when it has none. */
  function EnsureSlash(base: string): (r: string)
    ensures EndsWith(r, "/")
    ensures EndsWith(base, "/") ==> r == base
  {
    if EndsWith(base, "/") then base else base + "/"
  }

  /** The home page key: the base URL without its trailing slashes. */
  function Root(base: string): string {
    TrimRight(EnsureSlash(base), Slash)
  }

  /**
   * The special-page table: the home page at 1.0 and five fixed pages
   * (contact, about, about-us, products, services) at 0.9, priorities in
   * tenths.
   */
  function SpecialPages(base: string): (m: map<string, nat>)
    ensures m.Keys == {Root(base)} + FixedPages(Root(base))
    ensures m[Root(base)] == 10
    ensures forall k :: k in FixedPages(Root(base)) ==> m[k] == 9
  {
    var root := Root(base);
    var m := map[
      root + "/contact" := 9,
      root + "/about" := 9,
      root + "/about-us" := 9,
      root + "/products" := 9,
      root + "/services" := 9,
      root := 10];
    assert root !in FixedPages(root) by {
      LongerThanRoot(root);
    }
    m
  }

  /** The keys of the five 0.9 pages. */
  function FixedPages(root: string): set<string> {
    {root + "/contact", root + "/about", root + "/about-us", root + "/products", root + "/services"}
  }

  lemma LongerThanRoot(root: string)
    ensures forall k :: k in FixedPages(root) ==> |k| > |root|
  {
  }

  /** `getSpecialPagePriority`: the table entry for the URL text without its trailing slashes. */
  function SpecialPagePriority(base: string, url: string): (r: Option<nat>)
    ensures r.Some? <==> TrimRight(url, Slash) in SpecialPages(base)
    ensures r.Some? ==> r.value == 10 || r.value == 9
  {
    var pages := SpecialPages(base);
    var key := TrimRight(url, Slash);
    if key in pages then Some(pages[key]) else None
  }

  /** The home page gets 1.0, written with or without trailing slashes. */
  lemma HomePagePriority(base: string, t: string)
    requires forall i :: 0 <= i < |t| ==> t[i] == '/'
    ensures SpecialPagePriority(base, Root(base) + t) == Some(10)
  {
    TrimRightIgnoresTrailing(Root(base), t, Slash);
    TrimRightIdempotent(EnsureSlash(base), Slash);
  }

  /** The five fixed pages get 0.9, with or without trailing slashes. */
  lemma FixedPagePriority(base: string, k: string, t: string)
    requires k in FixedPages(Root(base))
    requires forall j :: 0 <= j < |t| ==> t[j] == '/'
    ensures SpecialPagePriority(base, k + t) == Some(9)
  {
    TrimRightIgnoresTrailing(k, t, Slash);
    assert k[|k| - 1] != '/';
    TrimRightNoop(k, Slash);
  }

  /** Any URL whose slash-trimmed text is not a table key gets no priority. */
  lemma OtherPagesHaveNone(base: string, url: string)
    requires TrimRight(url, Slash) != Root(base) && TrimRight(url, Slash) !in FixedPages(Root(base))
    ensures SpecialPagePriority(base, url).None?
  {
  }

  /** The table is the same whether or not the base URL was given with its trailing slash. */
  lemma SpecialPagesIgnoreBaseSlash(base: string)
    requires !EndsWith(base, "/")
    ensures SpecialPages(base + "/") == SpecialPages(base)
  {
    var b := base + "/";
    assert b[|b| - 1..] == "/";
    assert EnsureSlash(b) == b;
  }

  // ---------------------------------------------------------------------------
  // Hybrid dedup
  // ---------------------------------------------------------------------------

  /** The dedup keys of the record-source entries, in order. */
  function ModelKeys(es: seq<Entry>): (ks: seq<string>)
    ensures |ks| == |es|
    ensures forall i :: 0 <= i < |es| ==> ks[i] == DedupNormalize(es[i].loc)
  {
    seq(|es|, i requires 0 <= i < |es| => DedupNormalize(es[i].loc))
  }

  /** `isModelUrl`: the URL's dedup key is one of the record-source keys. */
  predicate IsModelUrl(modelUrls: seq<string>, u: Url) {
    DedupNormalize(u) in modelUrls
  }

  /** A crawled URL matches a record-source entry exactly when both have the same dedup key. */
  lemma IsModelUrlIff(es: seq<Entry>, u: Url)
    ensures IsModelUrl(ModelKeys(es), u) <==> exists i :: 0 <= i < |es| && DedupNormalize(es[i].loc) == DedupNormalize(u)
  {
    if IsModelUrl(ModelKeys(es), u) {
      var i :| 0 <= i < |es| && ModelKeys(es)[i] == DedupNormalize(u);
    }
  }

  /**
   * A crawled URL that differs from a record-source entry only by trailing
   * slashes, tracking pairs and a fragment is recognised as that entry.
   */
  lemma VariantOfModelUrlIsModelUrl(es: seq<Entry>, i: nat, q: seq<Param>, p: string, t: string, f: Option<string>)
    requires i < |es| && es[i].loc.path == Some(p) && es[i].loc.query == Some(DropTracking(q))
    requires forall j :: 0 <= j < |t| ==> t[j] == '/'
    ensures IsModelUrl(ModelKeys(es), es[i].loc.(path := Some(p + t), query := Some(q), fragment := f))
  {
    var v := es[i].loc;
    var w := v.(path := Some(p + t), query := Some(q), fragment := f);
    DedupIgnoresFragment(w, v.fragment);
    var w1 := w.(fragment := v.fragment);
    DedupIgnoresTracking(w1, q);
    var w2 := w1.(query := Some(DropTracking(q)));
    assert w2 == v.(path := Some(p + t));
    DedupIgnoresTrailingSlashes(v, p, t);
    assert v.(path := Some(p)) == v;
    assert ModelKeys(es)[i] == DedupNormalize(v);
  }

  /**
   * A record-source URL with `?k=v1` does not hide a crawled URL with
   * `?k=v2` when `k` is not a tracking key and the values differ beyond
   * letter case.
   */
  lemma OtherValueIsNotModelUrl(u: Url, k: string, v1: string, v2: string)
    requires k !in TrackingKeys && Lower(v1) != Lower(v2)
    ensures !IsModelUrl([DedupNormalize(u.(query := Some([Param(k, v1)])))], u.(query := Some([Param(k, v2)])))
  {
    DedupDistinguishesValue(u, k, v1, v2);
  }

  // ---------------------------------------------------------------------------
  // crawled
  // ---------------------------------------------------------------------------

  /** A fetched page as the observer sees it. */
  datatype Page = Page(url: Url, status: int, canonical: Option<Url>, lastModified: Instant)

  datatype CrawlState = CrawlState(crawledCount: nat, processedUrls: seq<string>, entries: seq<Entry>)

  /** The canonical link counts when it is present, truthy and a different text from the fetched URL. */
  predicate CanonicalElsewhere(page: Page) {
    page.canonical.Some?
    && Truthy(Render(page.canonical.value))
    && Render(page.canonical.value) != Render(page.url)
  }

  /** The URL the entry is written for: the canonical one when it counts, else the fetched one. */
  function Target(page: Page): (u: Url)
    ensures CanonicalElsewhere(page) ==> u == page.canonical.value
    ensures !CanonicalElsewhere(page) ==> u == page.url
  {
    if CanonicalElsewhere(page) then page.canonical.value else page.url
  }

  /** A numeric `page` query value greater than 1. */
  predicate IsLaterPage(u: Url) {
    u.query.Some?
    && var page := Lookup(ParseStr(u.query.value), "page");
    page.Some? && IsNumeric(page.value) && IntCast(page.value) > 1
  }

  /** The entry for a page that is written: special pages daily at their priority, the rest monthly at 0.7. */
  function PageEntry(base: string, u: Url, lastModified: Instant): (e: Entry)
    ensures e.loc == u && e.lastmod == Some(lastModified)
    ensures SpecialPagePriority(base, Render(u)).Some? ==>
              e.priority == SpecialPagePriority(base, Render(u)) && e.changefreq == Some(Daily)
    ensures SpecialPagePriority(base, Render(u)).None? ==>
              e.priority == Some(7) && e.changefreq == Some(Monthly)
  {
    match SpecialPagePriority(base, Render(u))
    case Some(p) => Entry(u, Some(lastModified), Some(Daily), Some(p))
    case None => Entry(u, Some(lastModified), Some(Monthly), Some(7))
  }

  /** The page is counted: it answered 200 and is not a record-source URL. */
  predicate Counted(modelUrls: seq<string>, page: Page) {
    page.status == 200 && !IsModelUrl(modelUrls, page.url)
  }

  /** A counted page is written unless its canonical was written before or it is a later page of a listing. */
  predicate Written(st: CrawlState, modelUrls: seq<string>, page: Page) {
    Counted(modelUrls, page)
    && !(CanonicalElsewhere(page) && Render(page.canonical.value) in st.processedUrls)
    && !IsLaterPage(Target(page))
  }

  /** `crawled`. */
  function Crawled(st: CrawlState, page: Page, modelUrls: seq<string>, base: string): (r: CrawlState)
    ensures !Counted(modelUrls, page) ==> r == st
    ensures Counted(modelUrls, page) ==> r.crawledCount == st.crawledCount + 1
    ensures Written(st, modelUrls, page) ==>
              r.entries == st.entries + [PageEntry(base, Target(page), page.lastModified)]
              && r.processedUrls == st.processedUrls + [Render(Target(page))]
    ensures !Written(st, modelUrls, page) ==>
              r.entries == st.entries && r.processedUrls == st.processedUrls
  {
    if page.status != 200 then st
    else if IsModelUrl(modelUrls, page.url) then st
    else
      var counted := st.(crawledCount := st.crawledCount + 1);
      if CanonicalElsewhere(page) && Render(page.canonical.value) in st.processedUrls then counted
      else
        var u := Target(page);
        if IsLaterPage(u) then counted
        else counted.(
          entries := st.entries + [PageEntry(base, u, page.lastModified)],
          processedUrls := st.processedUrls + [Render(u)])
  }

  /**
   * The state the observer keeps consistent: one processed text per entry,
   * the text of that entry's URL, and never more entries than counted pages.
   */
  predicate Consistent(st: CrawlState) {
    |st.entries| == |st.processedUrls| <= st.crawledCount
    && forall i :: 0 <= i < |st.entries| ==> st.processedUrls[i] == Render(st.entries[i].loc)
  }

  lemma CrawledConsistent(st: CrawlState, page: Page, modelUrls: seq<string>, base: string)
    requires Consistent(st)
    ensures Consistent(Crawled(st, page, modelUrls, base))
  {
  }

  /** The observer over the pages of a whole crawl, in the order they are reported. */
  function CrawlAll(st: CrawlState, pages: seq<Page>, modelUrls: seq<string>, base: string): (r: CrawlState)
    ensures st.entries <= r.entries && st.processedUrls <= r.processedUrls
    ensures st.crawledCount <= r.crawledCount <= st.crawledCount + |pages|
    decreases |pages|
  {
    if |pages| == 0 then st
    else CrawlAll(Crawled(st, pages[0], modelUrls, base), pages[1..], modelUrls, base)
  }

  lemma {:induction false} CrawlAllConsistent(st: CrawlState, pages: seq<Page>, modelUrls: seq<string>, base: string)
    requires Consistent(st)
    ensures Consistent(CrawlAll(st, pages, modelUrls, base))
    decreases |pages|
  {
    if |pages| > 0 {
      CrawledConsistent(st, pages[0], modelUrls, base);
      CrawlAllConsistent(Crawled(st, pages[0], modelUrls, base), pages[1..], modelUrls, base);
    }
  }

  /** Pages that fail or are record-source URLs change nothing over a whole crawl. */
  lemma {:induction false} CrawlAllIgnoresUncounted(st: CrawlState, pages: seq<Page>, modelUrls: seq<string>, base: string)
    requires forall i :: 0 <= i < |pages| ==> !Counted(modelUrls, pages[i])
    ensures CrawlAll(st, pages, modelUrls, base) == st
    decreases |pages|
  {
    if |pages| > 0 {
      CrawlAllIgnoresUncounted(st, pages[1..], modelUrls, base);
    }
  }

  /**
   * The record-source check looks at the fetched URL, before the canonical
   * link is followed: a page whose canonical is a record-source URL is still
   * written under that canonical URL.
   */
  lemma ModelCheckBeforeCanonical(st: CrawlState, page: Page, modelUrls: seq<string>, base: string)
    requires page.status == 200 && !IsModelUrl(modelUrls, page.url)
    requires CanonicalElsewhere(page) && IsModelUrl(modelUrls, page.canonical.value)
    requires Render(page.canonical.value) !in st.processedUrls && !IsLaterPage(page.canonical.value)
    ensures Crawled(st, page, modelUrls, base).entries == st.entries + [PageEntry(base, page.canonical.value, page.lastModified)]
  {
  }

  /** A canonical text that was already written is never written again through another page. */
  lemma CanonicalWrittenOnce(st: CrawlState, page: Page, modelUrls: seq<string>, base: string)
    requires Consistent(st)
    requires CanonicalElsewhere(page)
    requires exists i :: 0 <= i < |st.entries| && Render(st.entries[i].loc) == Render(page.canonical.value)
    ensures Crawled(st, page, modelUrls, base).entries == st.entries
  {
    var i :| 0 <= i < |st.entries| && Render(st.entries[i].loc) == Render(page.canonical.value);
    assert st.processedUrls[i] == Render(page.canonical.value);
  }
}
