/**
 * The two documents the index generator writes by hand: a `<urlset>` with
 * one `<url>` per entry, and a `<sitemapindex>` with one `<sitemap>` per
 * shard (sitemaps.org Sitemap protocol 0.9, "XML tag definitions" and "Using
 * Sitemap index files"). Each is paired with a reader that recovers what
 * was written, so the round trip states what the text contains.
 *
 * Line ends are `"\n"`, the value of `PHP_EOL` on Unix-like systems.
 */
module SitemapXml {
  import opened Wrappers
  import opened Text
  import opened Urls
  import opened Entries
  import opened XmlText

  const XmlDeclaration: string := "<?xml version=\"1.0\" encoding=\"UTF-8\"?>"
  /** The protocol's namespace, `http://www.sitemaps.org/schemas/sitemap/0.9`. */
  const Namespace: string := "http://www.sitemaps.org" + "/schemas/sitemap/0.9"
  const UrlsetOpen: string := "<urlset xmlns=\"" + Namespace + "\">"
  const UrlsetClose: string := "</urlset>"
  const IndexOpen: string := "<sitemapindex xmlns=\"" + Namespace + "\">"
  const IndexClose: string := "</sitemapindex>"
  const Indent: string := "    "
  const UrlOpen: string := "  <url>"
  const UrlClose: string := "  </url>"
  const SitemapOpen: string := "  <sitemap>"
  const SitemapClose: string := "  </sitemap>"

  // ---------------------------------------------------------------------------
  // <urlset>
  // ---------------------------------------------------------------------------

  /** A one-line element when the value is set, nothing otherwise. */
  function Optional(tag: string, v: Option<string>): (r: seq<string>)
    ensures |r| <= 1
  {
    if v.Some? then [FieldLine(Indent, tag, v.value)] else []
  }

  function LastmodText(e: Entry): Option<string> {
    if e.lastmod.Some? then Some(e.lastmod.value.iso8601) else None
  }

  function PriorityText(e: Entry): Option<string> {
    if e.priority.Some? then Some(FormatPriority(e.priority.value)) else None
  }

  /** The lines of one `<url>` element: `loc` always, then `lastmod`, `changefreq`, `priority` when set. */
  function UrlLines(e: Entry): seq<string> {
    [UrlOpen, FieldLine(Indent, "loc", Escape(Render(e.loc)))]
    + Optional("lastmod", LastmodText(e))
    + Optional("changefreq", e.changefreq)
    + Optional("priority", PriorityText(e))
    + [UrlClose]
  }

  function UrlsLines(es: seq<Entry>): seq<string>
    decreases |es|
  {
    if |es| == 0 then [] else UrlLines(es[0]) + UrlsLines(es[1..])
  }

  /** `buildSitemapXml`. */
  function BuildSitemapXml(es: seq<Entry>): string {
    Terminated([XmlDeclaration, UrlsetOpen] + UrlsLines(es)) + UrlsetClose
  }

  /** What one `<url>` element says, as text. */
  datatype WrittenUrl = WrittenUrl(
    loc: string,
    lastmod: Option<string>,
    changefreq: Option<string>,
    priority: Option<nat>)

  /** What an entry is written as: its URL text, its timestamp text, its change frequency and priority. */
  function Written(e: Entry): WrittenUrl {
    WrittenUrl(Render(e.loc), LastmodText(e), e.changefreq, e.priority)
  }

  function WrittenAll(es: seq<Entry>): (ws: seq<WrittenUrl>)
    ensures |ws| == |es|
    ensures forall i :: 0 <= i < |es| ==> ws[i] == Written(es[i])
  {
    seq(|es|, i requires 0 <= i < |es| => Written(es[i]))
  }

  /** The optional field with this tag on line `i`, and the index of the line after it. */
  function ReadOptional(ls: seq<string>, i: nat, tag: string): (r: (Option<string>, nat))
    requires i <= |ls|
    ensures r.1 <= |ls| && (r.1 == i || r.1 == i + 1)
  {
    if i < |ls| && ReadField(ls[i], Indent, tag).Some? then (ReadField(ls[i], Indent, tag), i + 1)
    else (None, i)
  }

  /** Read one `<url>` element at the start of `ls`: what it says and how many lines it takes. */
  function ReadUrl(ls: seq<string>): (r: Option<(WrittenUrl, nat)>)
    ensures r.Some? ==> 1 <= r.value.1 <= |ls|
  {
    if |ls| < 3 || ls[0] != UrlOpen then None
    else
      var loc := ReadField(ls[1], Indent, "loc");
      if loc.None? then None
      else
        var (lastmod, i) := ReadOptional(ls, 2, "lastmod");
        var (changefreq, j) := ReadOptional(ls, i, "changefreq");
        var (priorityText, k) := ReadOptional(ls, j, "priority");
        var priority := if priorityText.Some? then ParsePriority(priorityText.value) else None;
        if priorityText.Some? && priority.None? then None
        else if k < |ls| && ls[k] == UrlClose then
          Some((WrittenUrl(Unescape(loc.value), lastmod, changefreq, priority), k + 1))
        else None
  }

  function ReadUrls(ls: seq<string>): Option<seq<WrittenUrl>>
    decreases |ls|
  {
    if |ls| == 0 then Some([])
    else
      match ReadUrl(ls)
      case None => None
      case Some((w, n)) =>
        match ReadUrls(ls[n..])
        case None => None
        case Some(ws) => Some([w] + ws)
  }

  /** Read a `<urlset>` document back into what its `<url>` elements say. */
  function ReadSitemapXml(xml: string): Option<seq<WrittenUrl>> {
    var ls := Split(xml, '\n');
    if |ls| >= 3 && ls[0] == XmlDeclaration && ls[1] == UrlsetOpen && ls[|ls| - 1] == UrlsetClose
    then ReadUrls(ls[2..|ls| - 1])
    else None
  }

  /** The texts that must stay on one line for the document to read back. */
  predicate SingleLine(e: Entry) {
    '\n' !in Render(e.loc)
    && (e.lastmod.Some? ==> '\n' !in e.lastmod.value.iso8601)
    && (e.changefreq.Some? ==> '\n' !in e.changefreq.value)
  }

  // --- lemmas about single lines ----------------------------------------------

  /** No line holds a newline. */
  predicate OneLineEach(ls: seq<string>) {
    forall i :: 0 <= i < |ls| ==> '\n' !in ls[i]
  }

  lemma OneLineEachConcat(a: seq<string>, b: seq<string>)
    requires OneLineEach(a) && OneLineEach(b)
    ensures OneLineEach(a + b)
  {
    assert forall i :: |a| <= i < |a + b| ==> (a + b)[i] == b[i - |a|];
  }

  lemma NamespaceOneLine()
    ensures '\n' !in Namespace
  {
    assert '\n' !in "http://www.sitemaps.org";
    assert '\n' !in "/schemas/sitemap/0.9";
  }

  lemma UrlsetOneLine()
    ensures OneLineEach([XmlDeclaration, UrlsetOpen]) && OneLineEach([UrlsetClose])
  {
    NamespaceOneLine();
    assert '\n' !in XmlDeclaration;
    assert '\n' !in UrlsetOpen;
  }

  lemma IndexOneLine()
    ensures OneLineEach([XmlDeclaration, IndexOpen]) && OneLineEach([IndexClose])
  {
    NamespaceOneLine();
    assert '\n' !in XmlDeclaration;
    assert '\n' !in IndexOpen;
  }

  lemma CloseIsNoField(tag: string)
    ensures ReadField(UrlClose, Indent, tag) == None
  {
    ReadFieldMismatch(UrlClose, Indent, tag, 2);
  }

  /** The line an optional element starts with is never a field of an earlier tag. */
  predicate NotFieldOf(ls: seq<string>, tag: string) {
    |ls| > 0 && ReadField(ls[0], Indent, tag).None?
  }

  /** Reading an optional element: its value when written, nothing otherwise; the reader moves past exactly its lines. */
  lemma ReadOptionalLines(pre: seq<string>, tag: string, v: Option<string>, post: seq<string>)
    requires NotFieldOf(post, tag)
    ensures ReadOptional(pre + Optional(tag, v) + post, |pre|, tag) == (v, |pre| + |Optional(tag, v)|)
  {
    var ls := pre + Optional(tag, v) + post;
    if v.Some? {
      assert ls[|pre|] == FieldLine(Indent, tag, v.value);
      ReadFieldLine(Indent, tag, v.value);
    } else {
      assert ls[|pre|] == post[0];
    }
  }

  /** Lines that start with an optional element of tag `t` (or, when it is absent, with `post`) do not start with a field of `tag`. */
  lemma OptionalNotField(t: string, v: Option<string>, post: seq<string>, tag: string)
    requires t != tag && '>' !in t && '>' !in tag
    requires NotFieldOf(post, tag)
    ensures NotFieldOf(Optional(t, v) + post, tag)
  {
    if v.Some? {
      ReadOtherField(Indent, t, tag, v.value);
    } else {
      assert Optional(t, v) + post == post;
    }
  }

  /** `ReadUrl` from the results of its steps. */
  lemma ReadUrlSteps(ls: seq<string>, loc: string, w: WrittenUrl, p: Option<string>, i: nat, j: nat, k: nat)
    requires |ls| >= 3 && ls[0] == UrlOpen && ReadField(ls[1], Indent, "loc") == Some(loc)
    requires 2 <= i <= |ls| && i <= j <= |ls| && j <= k < |ls|
    requires ReadOptional(ls, 2, "lastmod") == (w.lastmod, i)
    requires ReadOptional(ls, i, "changefreq") == (w.changefreq, j)
    requires ReadOptional(ls, j, "priority") == (p, k)
    requires p.Some? <==> w.priority.Some?
    requires p.Some? ==> ParsePriority(p.value) == w.priority
    requires ls[k] == UrlClose && Unescape(loc) == w.loc
    ensures ReadUrl(ls) == Some((w, k + 1))
  {
  }

  /** The three optional elements of a `<url>` read back in turn, up to its closing line. */
  lemma ReadOptionalsLines(ls: seq<string>, head: seq<string>, v1: Option<string>, v2: Option<string>, v3: Option<string>, rest: seq<string>, i: nat, j: nat, k: nat)
    requires |head| == 2
    requires ls == head + Optional("lastmod", v1) + Optional("changefreq", v2) + Optional("priority", v3) + [UrlClose] + rest
    requires i == 2 + |Optional("lastmod", v1)|
    requires j == i + |Optional("changefreq", v2)|
    requires k == j + |Optional("priority", v3)|
    ensures ReadOptional(ls, 2, "lastmod") == (v1, i)
    ensures ReadOptional(ls, i, "changefreq") == (v2, j)
    ensures ReadOptional(ls, j, "priority") == (v3, k)
    ensures k < |ls| && ls[k] == UrlClose
  {
    var o1 := Optional("lastmod", v1);
    var o2 := Optional("changefreq", v2);
    var o3 := Optional("priority", v3);
    var tail := [UrlClose] + rest;
    ReadLastmodLine(ls, head, v1, v2, v3, rest);
    ReadChangefreqLine(ls, head, v1, v2, v3, rest);
    ReadPriorityLine(ls, head, v1, v2, v3, rest);
    assert ls == (head + o1 + o2 + o3) + tail;
  }

  lemma ReadLastmodLine(ls: seq<string>, head: seq<string>, v1: Option<string>, v2: Option<string>, v3: Option<string>, rest: seq<string>)
    requires ls == head + Optional("lastmod", v1) + Optional("changefreq", v2) + Optional("priority", v3) + [UrlClose] + rest
    ensures ReadOptional(ls, |head|, "lastmod") == (v1, |head| + |Optional("lastmod", v1)|)
  {
    var o2 := Optional("changefreq", v2);
    var o3 := Optional("priority", v3);
    var tail := [UrlClose] + rest;
    CloseIsNoField("lastmod");
    OptionalNotField("priority", v3, tail, "lastmod");
    OptionalNotField("changefreq", v2, o3 + tail, "lastmod");
    assert ls == head + Optional("lastmod", v1) + (o2 + o3 + tail);
    ReadOptionalLines(head, "lastmod", v1, o2 + o3 + tail);
  }

  lemma ReadChangefreqLine(ls: seq<string>, head: seq<string>, v1: Option<string>, v2: Option<string>, v3: Option<string>, rest: seq<string>)
    requires ls == head + Optional("lastmod", v1) + Optional("changefreq", v2) + Optional("priority", v3) + [UrlClose] + rest
    ensures var i := |head| + |Optional("lastmod", v1)|;
      ReadOptional(ls, i, "changefreq") == (v2, i + |Optional("changefreq", v2)|)
  {
    var pre := head + Optional("lastmod", v1);
    var o3 := Optional("priority", v3);
    var tail := [UrlClose] + rest;
    CloseIsNoField("changefreq");
    OptionalNotField("priority", v3, tail, "changefreq");
    assert ls == pre + Optional("changefreq", v2) + (o3 + tail);
    ReadOptionalLines(pre, "changefreq", v2, o3 + tail);
  }

  lemma ReadPriorityLine(ls: seq<string>, head: seq<string>, v1: Option<string>, v2: Option<string>, v3: Option<string>, rest: seq<string>)
    requires ls == head + Optional("lastmod", v1) + Optional("changefreq", v2) + Optional("priority", v3) + [UrlClose] + rest
    ensures var j := |head| + |Optional("lastmod", v1)| + |Optional("changefreq", v2)|;
      ReadOptional(ls, j, "priority") == (v3, j + |Optional("priority", v3)|)
  {
    var pre := head + Optional("lastmod", v1) + Optional("changefreq", v2);
    var tail := [UrlClose] + rest;
    CloseIsNoField("priority");
    assert ls == pre + Optional("priority", v3) + tail;
    ReadOptionalLines(pre, "priority", v3, tail);
  }

  /** One `<url>` element reads back as what its entry says, whatever follows it. */
  lemma ReadUrlLines(e: Entry, rest: seq<string>)
    ensures ReadUrl(UrlLines(e) + rest) == Some((Written(e), |UrlLines(e)|))
  {
    var w := Written(e);
    var v3 := PriorityText(e);
    assert v3.Some? ==> ParsePriority(v3.value) == w.priority by {
      if e.priority.Some? {
        ParseFormatPriority(e.priority.value);
      }
    }
    assert Unescape(Escape(Render(e.loc))) == w.loc by {
      UnescapeEscape(Render(e.loc));
    }
    ReadUrlElement(UrlLines(e) + rest, Escape(Render(e.loc)), LastmodText(e), e.changefreq, v3, rest, w);
  }

  /** The lines of a `<url>` element, with any values, read back as those values. */
  lemma ReadUrlElement(ls: seq<string>, loc: string, v1: Option<string>, v2: Option<string>, v3: Option<string>, rest: seq<string>, w: WrittenUrl)
    requires ls == [UrlOpen, FieldLine(Indent, "loc", loc)] + Optional("lastmod", v1) + Optional("changefreq", v2)
      + Optional("priority", v3) + [UrlClose] + rest
    requires Unescape(loc) == w.loc && w.lastmod == v1 && w.changefreq == v2
    requires v3.Some? <==> w.priority.Some?
    requires v3.Some? ==> ParsePriority(v3.value) == w.priority
    ensures ReadUrl(ls) == Some((w, |ls| - |rest|))
  {
    var head := [UrlOpen, FieldLine(Indent, "loc", loc)];
    var i := 2 + |Optional("lastmod", v1)|;
    var j := i + |Optional("changefreq", v2)|;
    var k := j + |Optional("priority", v3)|;
    ReadOptionalsLines(ls, head, v1, v2, v3, rest, i, j, k);
    assert ls[0] == UrlOpen && ls[1] == FieldLine(Indent, "loc", loc);
    ReadFieldLine(Indent, "loc", loc);
    ReadUrlSteps(ls, loc, w, v3, i, j, k);
  }

  lemma {:induction false} UrlsLinesConcat(es: seq<Entry>)
    requires |es| > 0
    ensures UrlsLines(es) == UrlLines(es[0]) + UrlsLines(es[1..])
  {
  }

  /** The `<url>` elements read back, one per entry, in entry order. */
  lemma {:induction false} ReadUrlsLines(es: seq<Entry>)
    ensures ReadUrls(UrlsLines(es)) == Some(WrittenAll(es))
    decreases |es|
  {
    if |es| > 0 {
      var ls := UrlsLines(es);
      var first := UrlLines(es[0]);
      assert ls == first + UrlsLines(es[1..]);
      ReadUrlLines(es[0], UrlsLines(es[1..]));
      assert ReadUrl(ls) == Some((Written(es[0]), |first|));
      assert ls[|first|..] == UrlsLines(es[1..]);
      ReadUrlsLines(es[1..]);
      assert WrittenAll(es) == [Written(es[0])] + WrittenAll(es[1..]);
    }
  }

  lemma OptionalOneLine(tag: string, v: Option<string>)
    requires '\n' !in tag
    requires v.Some? ==> '\n' !in v.value
    ensures OneLineEach(Optional(tag, v))
  {
  }

  lemma UrlLinesOneLine(e: Entry)
    requires SingleLine(e)
    ensures OneLineEach(UrlLines(e))
  {
    var loc := Escape(Render(e.loc));
    var o1 := Optional("lastmod", LastmodText(e));
    var o2 := Optional("changefreq", e.changefreq);
    var o3 := Optional("priority", PriorityText(e));
    OptionalOneLine("lastmod", LastmodText(e));
    OptionalOneLine("changefreq", e.changefreq);
    PriorityOneLine(e);
    HeadOneLine(loc);
    LinesOneLine([UrlOpen, FieldLine(Indent, "loc", loc)], o1, o2, o3, [UrlClose]);
  }

  lemma PriorityOneLine(e: Entry)
    ensures OneLineEach(Optional("priority", PriorityText(e)))
  {
    OptionalOneLine("priority", PriorityText(e));
  }

  lemma HeadOneLine(loc: string)
    requires '\n' !in loc
    ensures OneLineEach([UrlOpen, FieldLine(Indent, "loc", loc)]) && OneLineEach([UrlClose])
  {
    assert '\n' !in UrlOpen && '\n' !in UrlClose;
  }

  lemma LinesOneLine(a: seq<string>, b: seq<string>, c: seq<string>, d: seq<string>, f: seq<string>)
    requires OneLineEach(a) && OneLineEach(b) && OneLineEach(c) && OneLineEach(d) && OneLineEach(f)
    ensures OneLineEach(a + b + c + d + f)
  {
    OneLineEachConcat(a, b);
    OneLineEachConcat(a + b, c);
    OneLineEachConcat(a + b + c, d);
    OneLineEachConcat(a + b + c + d, f);
  }

  lemma {:induction false} UrlsLinesOneLine(es: seq<Entry>)
    requires forall i :: 0 <= i < |es| ==> SingleLine(es[i])
    ensures OneLineEach(UrlsLines(es))
    decreases |es|
  {
    if |es| > 0 {
      UrlsLinesOneLine(es[1..]);
      UrlLinesOneLine(es[0]);
      OneLineEachConcat(UrlLines(es[0]), UrlsLines(es[1..]));
    }
  }

  /**
   * The written `<urlset>` reads back as exactly the entries: one `<url>`
   * per entry, in order, with `loc` unescaped to the URL text and each
   * optional element present exactly when the entry sets it.
   */
  lemma ReadBuildSitemapXml(es: seq<Entry>)
    requires forall i :: 0 <= i < |es| ==> SingleLine(es[i])
    ensures ReadSitemapXml(BuildSitemapXml(es)) == Some(WrittenAll(es))
  {
    var body := [XmlDeclaration, UrlsetOpen] + UrlsLines(es);
    var ls := body + [UrlsetClose];
    TerminatedJoin(body, UrlsetClose);
    UrlsLinesOneLine(es);
    UrlsetOneLine();
    OneLineEachConcat([XmlDeclaration, UrlsetOpen], UrlsLines(es));
    OneLineEachConcat(body, [UrlsetClose]);
    SplitJoin(ls, '\n');
    assert ls[2..|ls| - 1] == UrlsLines(es);
    ReadUrlsLines(es);
  }

  /** The location text never holds a raw `<`, `>` or quote. */
  lemma LocIsEscaped(e: Entry)
    ensures var t := Escape(Render(e.loc)); forall i :: 0 <= i < |t| ==> t[i] != '<' && t[i] != '>' && t[i] != '"'
  {
  }

  // ---------------------------------------------------------------------------
  // <sitemapindex>
  // ---------------------------------------------------------------------------

  /** The lines of one `<sitemap>` element: the escaped location and the generation time. */
  function SitemapLines(loc: string, now: Instant): seq<string> {
    [SitemapOpen, FieldLine(Indent, "loc", Escape(loc)), FieldLine(Indent, "lastmod", now.iso8601), SitemapClose]
  }

  function SitemapsLines(locs: seq<string>, now: Instant): (r: seq<string>)
    ensures |r| == 4 * |locs|
    decreases |locs|
  {
    if |locs| == 0 then [] else SitemapLines(locs[0], now) + SitemapsLines(locs[1..], now)
  }

  /** `buildSitemapIndexXml`; every `<lastmod>` is the same current time. */
  function BuildSitemapIndexXml(locs: seq<string>, now: Instant): string {
    Terminated([XmlDeclaration, IndexOpen] + SitemapsLines(locs, now)) + IndexClose
  }

  function ReadSitemaps(ls: seq<string>): Option<seq<string>>
    decreases |ls|
  {
    if |ls| == 0 then Some([])
    else if |ls| < 4 || ls[0] != SitemapOpen || ls[3] != SitemapClose then None
    else
      match ReadField(ls[1], Indent, "loc")
      case None => None
      case Some(loc) =>
        if ReadField(ls[2], Indent, "lastmod").None? then None
        else
          match ReadSitemaps(ls[4..])
          case None => None
          case Some(locs) => Some([Unescape(loc)] + locs)
  }

  /** Read a `<sitemapindex>` document back into its shard locations. */
  function ReadSitemapIndexXml(xml: string): Option<seq<string>> {
    var ls := Split(xml, '\n');
    if |ls| >= 3 && ls[0] == XmlDeclaration && ls[1] == IndexOpen && ls[|ls| - 1] == IndexClose
    then ReadSitemaps(ls[2..|ls| - 1])
    else None
  }

  lemma {:induction false} ReadSitemapsLines(locs: seq<string>, now: Instant)
    ensures ReadSitemaps(SitemapsLines(locs, now)) == Some(locs)
    decreases |locs|
  {
    if |locs| > 0 {
      var ls := SitemapsLines(locs, now);
      assert ls[..4] == SitemapLines(locs[0], now);
      assert ls[4..] == SitemapsLines(locs[1..], now);
      ReadFieldLine(Indent, "loc", Escape(locs[0]));
      ReadFieldLine(Indent, "lastmod", now.iso8601);
      UnescapeEscape(locs[0]);
      ReadSitemapsLines(locs[1..], now);
      assert [locs[0]] + locs[1..] == locs;
    }
  }

  lemma {:induction false} SitemapsLinesSingle(locs: seq<string>, now: Instant)
    requires '\n' !in now.iso8601
    requires forall i :: 0 <= i < |locs| ==> '\n' !in locs[i]
    ensures OneLineEach(SitemapsLines(locs, now))
    decreases |locs|
  {
    if |locs| > 0 {
      SitemapsLinesSingle(locs[1..], now);
      assert '\n' !in Escape(locs[0]);
      OneLineEachConcat(SitemapLines(locs[0], now), SitemapsLines(locs[1..], now));
    }
  }

  /** The written index reads back as exactly the shard locations, one `<sitemap>` each, in order. */
  lemma ReadBuildSitemapIndexXml(locs: seq<string>, now: Instant)
    requires '\n' !in now.iso8601
    requires forall i :: 0 <= i < |locs| ==> '\n' !in locs[i]
    ensures ReadSitemapIndexXml(BuildSitemapIndexXml(locs, now)) == Some(locs)
  {
    var body := [XmlDeclaration, IndexOpen] + SitemapsLines(locs, now);
    var ls := body + [IndexClose];
    TerminatedJoin(body, IndexClose);
    SitemapsLinesSingle(locs, now);
    IndexOneLine();
    OneLineEachConcat([XmlDeclaration, IndexOpen], SitemapsLines(locs, now));
    OneLineEachConcat(body, [IndexClose]);
    SplitJoin(ls, '\n');
    assert ls[2..|ls| - 1] == SitemapsLines(locs, now);
    ReadSitemapsLines(locs, now);
  }
}
