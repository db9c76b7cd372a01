/**
 * `ModelSitemapGenerator`: turns the records of configured sources into
 * sitemap entries. Each source names a record class, an optional query
 * filter, a URL mapper and how to obtain each entry's last modification
 * time, change frequency and priority: a fixed value, a record column or a
 * closure, modelled as a tagged variant. Records are a plain sequence in
 * the order the query yields them; closures are total Dafny functions.
 */
module ModelGenerator {
  import opened Wrappers
  import opened Text
  import opened Urls
  import opened Entries
  import opened Chunks

  /** A record: its date-valued columns that are set (not `null`). */
  datatype Record = Record(dates: map<string, Instant>)

  /** Where an entry's last modification time comes from. */
  datatype LastmodSource =
    | Column(name: string)
    | ComputedDate(date: Record -> Instant)

  /** Where an entry's change frequency comes from; a closure may return `null`. */
  datatype TextSource =
    | FixedText(text: string)
    | ComputedText(compute: Record -> Option<string>)

  /** Where an entry's priority (in tenths) comes from. */
  datatype PrioritySource =
    | FixedPriority(tenths: nat)
    | ComputedPriority(compute: Record -> nat)

  /**
   * One configured source. `query` and `url` are present only when the
   * configuration holds a callable there; the URL mapper may return `null`.
   */
  datatype Source = Source(
    classExists: bool,
    records: seq<Record>,
    enabled: Option<bool>,
    query: Option<Record -> bool>,
    url: Option<Record -> Option<Url>>,
    lastmod: Option<LastmodSource>,
    changefreq: Option<TextSource>,
    priority: Option<PrioritySource>,
    chunkSize: Option<int>)

  const DefaultMode: string := "crawl"
  const DefaultChunkSize: int := 1000

  /** `isEnabled`: record sources are read in the `models` and `hybrid` modes only. */
  function IsEnabled(mode: Option<string>): (b: bool)
    ensures b <==> mode.GetOr(DefaultMode) == "models" || mode.GetOr(DefaultMode) == "hybrid"
    ensures mode.None? ==> !b
  {
    var m := mode.GetOr(DefaultMode);
    m == "models" || m == "hybrid"
  }

  /** `isModelEnabled`: a source without the flag is enabled. */
  function SourceEnabled(s: Source): (b: bool)
    ensures s.enabled.None? ==> b
    ensures s.enabled == Some(false) ==> !b
  {
    s.enabled.GetOr(true)
  }

  function ChunkSize(s: Source): int {
    s.chunkSize.GetOr(DefaultChunkSize)
  }

  /** `getLastModified`: a set column's value, the closure's result, or nothing. */
  function LastModified(s: Source, r: Record): (d: Option<Instant>)
    ensures s.lastmod.None? ==> d.None?
    ensures s.lastmod.Some? && s.lastmod.value.ComputedDate? ==> d == Some(s.lastmod.value.date(r))
    ensures s.lastmod.Some? && s.lastmod.value.Column? ==>
      (d.Some? <==> s.lastmod.value.name in r.dates)
      && (d.Some? ==> d.value == r.dates[s.lastmod.value.name])
  {
    match s.lastmod
    case None => None
    case Some(ComputedDate(f)) => Some(f(r))
    case Some(Column(name)) => if name in r.dates then Some(r.dates[name]) else None
  }

  /** `getChangeFrequency`, then the truthiness test that decides whether it is set. */
  function ChangeFrequency(s: Source, r: Record): (c: Option<string>)
    ensures c.Some? ==> Truthy(c.value)
    ensures s.changefreq.None? ==> c.None?
    ensures s.changefreq.Some? && s.changefreq.value.FixedText? ==>
      c == (if Truthy(s.changefreq.value.text) then Some(s.changefreq.value.text) else None)
    ensures s.changefreq.Some? && s.changefreq.value.ComputedText? ==>
      var v := s.changefreq.value.compute(r);
      c == (if v.Some? && Truthy(v.value) then v else None)
  {
    var v := match s.changefreq
      case None => None
      case Some(FixedText(t)) => Some(t)
      case Some(ComputedText(f)) => f(r);
    if v.Some? && Truthy(v.value) then v else None
  }

  /** `getPriority`: always set when configured, whether fixed or computed. */
  function Priority(s: Source, r: Record): (p: Option<nat>)
    ensures p.Some? <==> s.priority.Some?
    ensures s.priority.Some? && s.priority.value.FixedPriority? ==> p == Some(s.priority.value.tenths)
    ensures s.priority.Some? && s.priority.value.ComputedPriority? ==> p == Some(s.priority.value.compute(r))
  {
    match s.priority
    case None => None
    case Some(FixedPriority(t)) => Some(t)
    case Some(ComputedPriority(f)) => Some(f(r))
  }

  /** The URL a record maps to, when there is a mapper and its result is truthy. */
  function RecordUrl(s: Source, r: Record): (u: Option<Url>)
    ensures u.Some? <==> s.url.Some? && s.url.value(r).Some? && Truthy(Render(s.url.value(r).value))
    ensures u.Some? ==> u == s.url.value(r)
  {
    if s.url.None? then None
    else
      var v := s.url.value(r);
      if v.Some? && Truthy(Render(v.value)) then v else None
  }

  /** `generateUrlForModel`: the entry for one record, or none when its URL is missing or falsy. */
  function EntryFor(s: Source, r: Record): (e: Option<Entry>)
    ensures e.Some? <==> RecordUrl(s, r).Some?
    ensures e.Some? ==>
      e.value == Entry(RecordUrl(s, r).value, LastModified(s, r), ChangeFrequency(s, r), Priority(s, r))
  {
    match RecordUrl(s, r)
    case None => None
    case Some(u) => Some(Entry(u, LastModified(s, r), ChangeFrequency(s, r), Priority(s, r)))
  }

  /** The entry of a record as a sequence of none or one. */
  function EntryList(s: Source, r: Record): seq<Entry> {
    match EntryFor(s, r) case Some(e) => [e] case None => []
  }

  /** The entries of records in order, skipping those without one. */
  function EntriesOf(s: Source, rs: seq<Record>): seq<Entry>
    decreases |rs|
  {
    if |rs| == 0 then [] else EntryList(s, rs[0]) + EntriesOf(s, rs[1..])
  }

  lemma {:induction false} EntriesOfConcat(s: Source, a: seq<Record>, b: seq<Record>)
    ensures EntriesOf(s, a + b) == EntriesOf(s, a) + EntriesOf(s, b)
    decreases |a|
  {
    if |a| == 0 {
      assert a + b == b;
    } else {
      assert (a + b)[1..] == a[1..] + b;
      EntriesOfConcat(s, a[1..], b);
    }
  }

  /** The records the query keeps, in query order. */
  function Filtered(s: Source): (rs: seq<Record>)
    ensures |rs| <= |s.records|
    ensures forall r :: r in rs <==> r in s.records && (s.query.None? || s.query.value(r))
  {
    if s.query.None? then s.records else Keep(s.query.value, s.records)
  }

  function Keep(q: Record -> bool, rs: seq<Record>): (r: seq<Record>)
    ensures |r| <= |rs|
    ensures forall x :: x in r <==> x in rs && q(x)
    decreases |rs|
  {
    if |rs| == 0 then []
    else
      var rest := Keep(q, rs[1..]);
      assert forall x :: x in rs <==> x == rs[0] || x in rs[1..];
      if q(rs[0]) then [rs[0]] + rest else rest
  }

  /** The entries one source contributes: none when its class does not exist. */
  function SourceEntries(s: Source): seq<Entry> {
    if !s.classExists then [] else EntriesOf(s, Filtered(s))
  }

  /**
   * An entry comes from a source exactly when some record the query keeps
   * maps to it: nothing is invented and no kept record with a URL is lost.
   */
  lemma SourceEntriesExactly(s: Source, e: Entry)
    ensures e in SourceEntries(s) <==>
      s.classExists && exists r :: r in s.records && (s.query.None? || s.query.value(r)) && EntryFor(s, r) == Some(e)
  {
    if s.classExists {
      EntriesOfMembers(s, Filtered(s), e);
    }
  }

  lemma {:induction false} EntriesOfMembers(s: Source, rs: seq<Record>, e: Entry)
    ensures e in EntriesOf(s, rs) <==> exists r :: r in rs && EntryFor(s, r) == Some(e)
    decreases |rs|
  {
    if |rs| > 0 {
      EntriesOfMembers(s, rs[1..], e);
      assert forall x :: x in rs <==> x == rs[0] || x in rs[1..];
    }
  }

  /** A source whose URL mapper is missing contributes nothing, whatever its records. */
  lemma NoMapperNoEntries(s: Source)
    requires s.url.None?
    ensures SourceEntries(s) == []
  {
    if s.classExists {
      NoMapperList(s, Filtered(s));
    }
  }

  lemma {:induction false} NoMapperList(s: Source, rs: seq<Record>)
    requires s.url.None?
    ensures EntriesOf(s, rs) == []
    decreases |rs|
  {
    if |rs| > 0 {
      NoMapperList(s, rs[1..]);
    }
  }

  /** A record the query rejects yields no entry, and the number of entries is at most the number of kept records. */
  lemma {:induction false} EntriesAtMostRecords(s: Source, rs: seq<Record>)
    ensures |EntriesOf(s, rs)| <= |rs|
    decreases |rs|
  {
    if |rs| > 0 {
      EntriesAtMostRecords(s, rs[1..]);
    }
  }

  lemma FlattenSnoc<T>(xss: seq<seq<T>>, i: nat)
    requires i < |xss|
    ensures Flatten(xss[..i + 1]) == Flatten(xss[..i]) + xss[i]
  {
    assert xss[..i + 1] == xss[..i] + [xss[i]];
    FlattenConcat(xss[..i], [xss[i]]);
    assert Flatten([xss[i]]) == xss[i] + Flatten([xss[i]][1..]);
  }

  lemma EntriesOfSnoc(s: Source, rs: seq<Record>, r: Record)
    ensures EntriesOf(s, rs + [r]) == EntriesOf(s, rs) + EntryList(s, r)
  {
    EntriesOfConcat(s, rs, [r]);
    assert EntriesOf(s, [r]) == EntryList(s, r) + EntriesOf(s, [r][1..]);
  }

  lemma AppendStep(out: seq<Entry>, s: Source, piece: seq<Record>, j: nat, r: seq<Entry>)
    requires j < |piece|
    requires r == out + EntriesOf(s, piece[..j]) + EntryList(s, piece[j])
    ensures r == out + EntriesOf(s, piece[..j + 1])
  {
    EntriesOfSnoc(s, piece[..j], piece[j]);
    assert piece[..j + 1] == piece[..j] + [piece[j]];
  }

  /** The callback given to `chunk`: each record's entry appended in turn. */
  method AppendEntries(out: seq<Entry>, s: Source, piece: seq<Record>) returns (r: seq<Entry>)
    ensures r == out + EntriesOf(s, piece)
  {
    r := out;
    var j := 0;
    while j < |piece|
      invariant 0 <= j <= |piece|
      invariant r == out + EntriesOf(s, piece[..j])
    {
      var e := EntryFor(s, piece[j]);
      if e.Some? {
        r := r + [e.value];
      }
      AppendStep(out, s, piece, j, r);
      j := j + 1;
    }
    assert piece[..j] == piece;
  }

  /**
   * `processModel`: the kept records are read in chunks of `chunk_size` and
   * each record's entry appended. The result is the prior entries followed
   * by the source's entries, the same for every chunk size.
   */
  method ProcessModel(urls: seq<Entry>, s: Source) returns (out: seq<Entry>)
    requires ChunkSize(s) >= 1
    ensures out == urls + SourceEntries(s)
  {
    if !s.classExists {
      return urls;
    }
    out := ProcessInChunks(urls, s, Filtered(s), ChunkSize(s));
  }

  /** `chunk($size, callback)` over the records: every piece handed to the callback in order. */
  method ProcessInChunks(urls: seq<Entry>, s: Source, rs: seq<Record>, size: int) returns (out: seq<Entry>)
    requires size >= 1
    ensures out == urls + EntriesOf(s, rs)
  {
    var chunks := Chunk(rs, size);
    out := urls;
    var i := 0;
    while i < |chunks|
      invariant 0 <= i <= |chunks|
      invariant out == urls + EntriesOf(s, Flatten(chunks[..i]))
    {
      out := AppendEntries(out, s, chunks[i]);
      ChunkedStep(urls, s, chunks, i, out);
      i := i + 1;
    }
    assert chunks[..i] == chunks;
    ChunkShape(rs, size);
  }

  lemma ChunkedStep(urls: seq<Entry>, s: Source, chunks: seq<seq<Record>>, i: nat, out: seq<Entry>)
    requires i < |chunks|
    requires out == urls + EntriesOf(s, Flatten(chunks[..i])) + EntriesOf(s, chunks[i])
    ensures out == urls + EntriesOf(s, Flatten(chunks[..i + 1]))
  {
    FlattenSnoc(chunks, i);
    assert Flatten(chunks[..i + 1]) == Flatten(chunks[..i]) + chunks[i];
    EntriesOfConcat(s, Flatten(chunks[..i]), chunks[i]);
  }

  /** The generator's state: the entries collected so far. */
  datatype SourceGenerator = SourceGenerator(urls: seq<Entry>)

  /** The entries of the enabled sources, in configuration order. */
  function EnabledEntries(sources: seq<Source>): seq<Entry>
    decreases |sources|
  {
    if |sources| == 0 then []
    else (if SourceEnabled(sources[0]) then SourceEntries(sources[0]) else []) + EnabledEntries(sources[1..])
  }

  /** `generate`: the entries collected before, then those of every enabled source. */
  function Generate(g: SourceGenerator, sources: seq<Source>): (r: SourceGenerator)
    ensures |g.urls| <= |r.urls| && r.urls[..|g.urls|] == g.urls
    ensures sources == [] ==> r == g
  {
    var r := SourceGenerator(g.urls + EnabledEntries(sources));
    assert r.urls[..|g.urls|] == g.urls;
    r
  }

  /** `reset`: nothing collected. */
  function Reset(g: SourceGenerator): (r: SourceGenerator)
    ensures r.urls == []
    ensures forall sources :: Generate(r, sources).urls == EnabledEntries(sources)
  {
    SourceGenerator([])
  }

  /** Disabled sources contribute nothing: dropping them leaves the result unchanged. */
  lemma {:induction false} DisabledSourcesIgnored(sources: seq<Source>, i: nat)
    requires i < |sources| && !SourceEnabled(sources[i])
    ensures EnabledEntries(sources) == EnabledEntries(sources[..i] + sources[i + 1..])
    decreases |sources|
  {
    if i == 0 {
      assert sources[..0] + sources[1..] == sources[1..];
    } else {
      DisabledSourcesIgnored(sources[1..], i - 1);
      assert sources[1..][..i - 1] + sources[1..][i..] == (sources[..i] + sources[i + 1..])[1..];
      assert (sources[..i] + sources[i + 1..])[0] == sources[0];
    }
  }

  /** Every collected entry comes from an enabled source, in configuration order. */
  lemma {:induction false} EnabledEntriesConcat(a: seq<Source>, b: seq<Source>)
    ensures EnabledEntries(a + b) == EnabledEntries(a) + EnabledEntries(b)
    decreases |a|
  {
    if |a| == 0 {
      assert a + b == b;
    } else {
      assert (a + b)[1..] == a[1..] + b;
      EnabledEntriesConcat(a[1..], b);
    }
  }
}
