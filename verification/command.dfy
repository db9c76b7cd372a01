/**
 * The decisions `SitemapCommand::handle` makes before and around the
 * crawl: the `--exclude` option, the choice between record sources and
 * crawling by `generate_mode`, and the order in which the collected
 * entries reach the sitemap.
 */
module Command {
  import opened Wrappers
  import opened Text
  import opened Entries
  import opened ModelGenerator
  import opened CrawlObserver

  /** A text with no blanks at either end. */
  predicate Trimmed(s: string) {
    |s| == 0 || (s[0] !in Blank && s[|s| - 1] !in Blank)
  }

  /**
   * `--exclude`: nothing unless the option is non-empty (PHP's `empty`, so
   * `"0"` counts as empty); otherwise each comma-separated part with blanks
   * trimmed, empty parts kept.
   */
  function ParseExcludes(option: Option<string>): (r: seq<string>)
    ensures option.None? || !Truthy(option.value) ==> r == []
    ensures option.Some? && Truthy(option.value) ==>
      |r| == Count(option.value, ',') + 1
      && forall i :: 0 <= i < |r| ==> Trimmed(r[i]) && ',' !in r[i]
  {
    if option.None? || !Truthy(option.value) then []
    else
      var parts := Split(option.value, ',');
      SplitCount(option.value, ',');
      seq(|parts|, i requires 0 <= i < |parts| => Trim(parts[i], Blank))
  }

  lemma TrimmedFixed(s: string)
    requires Trimmed(s)
    ensures Trim(s, Blank) == s
  {
    if |s| > 0 {
      TrimSurrounded("", s, "", Blank);
      assert "" + s + "" == s;
    } else {
      TrimSurrounded("", s + "x", "", Blank) by {
        assert 'x' !in Blank;
      }
    }
  }

  /**
   * Writing directory names joined by commas gives the same names back,
   * provided the names hold no comma, carry no surrounding blanks and the
   * joined text is not PHP-empty.
   */
  lemma ParseExcludesJoin(dirs: seq<string>)
    requires |dirs| >= 1
    requires forall i :: 0 <= i < |dirs| ==> ',' !in dirs[i] && Trimmed(dirs[i])
    requires Truthy(Join(dirs, ','))
    ensures ParseExcludes(Some(Join(dirs, ','))) == dirs
  {
    var text := Join(dirs, ',');
    SplitJoin(dirs, ',');
    ParseExcludesParts(text);
    forall i | 0 <= i < |dirs| ensures Trim(dirs[i], Blank) == dirs[i] {
      TrimmedFixed(dirs[i]);
    }
  }

  lemma ParseExcludesParts(text: string)
    requires Truthy(text)
    ensures |ParseExcludes(Some(text))| == |Split(text, ',')|
    ensures forall i :: 0 <= i < |Split(text, ',')| ==> ParseExcludes(Some(text))[i] == Trim(Split(text, ',')[i], Blank)
  {
  }

  /** Which halves of the generation run for a `generate_mode`. */
  datatype Plan = Plan(runModels: bool, runCrawl: bool)

  /**
   * The mode dispatch: record sources in `models` and `hybrid`; the crawl
   * in every mode except `models`, so an unknown mode only crawls.
   */
  function Dispatch(mode: Option<string>): (p: Plan)
    ensures p.runModels <==> IsEnabled(mode)
    ensures p.runCrawl <==> mode.GetOr(DefaultMode) != "models"
    ensures p.runModels || p.runCrawl
  {
    var m := mode.GetOr(DefaultMode);
    Plan(m == "models" || m == "hybrid", m != "models")
  }

  const NoCrawl: CrawlState := CrawlState(0, [], [])

  /** The dedup keys the crawl is checked against: those of the record entries when they were collected. */
  function ModelUrls(mode: Option<string>, es: seq<Entry>): seq<string> {
    if Dispatch(mode).runModels then ModelKeys(es) else []
  }

  /**
   * The entries that reach the sitemap, in the order added: the record
   * entries first when they run, then what the crawl observer writes.
   */
  function Collected(mode: Option<string>, es: seq<Entry>, pages: seq<Page>, base: string): seq<Entry> {
    var plan := Dispatch(mode);
    (if plan.runModels then es else [])
    + (if plan.runCrawl then CrawlAll(NoCrawl, pages, ModelUrls(mode, es), base).entries else [])
  }

  /** Without a mode only the crawl runs, and it checks against no record URL. */
  lemma DefaultModeOnlyCrawls(es: seq<Entry>, pages: seq<Page>, base: string)
    ensures Collected(None, es, pages, base) == CrawlAll(NoCrawl, pages, [], base).entries
  {
  }

  /** In `models` mode the sitemap holds the record entries only. */
  lemma ModelsModeOnlyRecords(es: seq<Entry>, pages: seq<Page>, base: string)
    ensures Collected(Some("models"), es, pages, base) == es
  {
  }

  /**
   * In `hybrid` mode the record entries come first, then the crawled ones;
   * a crawl that only meets record-source URLs adds nothing.
   */
  lemma HybridRecordsThenCrawl(es: seq<Entry>, pages: seq<Page>, base: string)
    ensures Collected(Some("hybrid"), es, pages, base) == es + CrawlAll(NoCrawl, pages, ModelKeys(es), base).entries
    ensures (forall i :: 0 <= i < |pages| ==> IsModelUrl(ModelKeys(es), pages[i].url)) ==>
      Collected(Some("hybrid"), es, pages, base) == es
  {
    if forall i :: 0 <= i < |pages| ==> IsModelUrl(ModelKeys(es), pages[i].url) {
      CrawlAllIgnoresUncounted(NoCrawl, pages, ModelKeys(es), base);
      assert es + [] == es;
    }
  }
}
