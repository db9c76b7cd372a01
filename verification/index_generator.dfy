/**
 * `SitemapIndexGenerator`: collects entries and writes either one sitemap
 * file or numbered shards of at most `max_urls_per_sitemap` entries plus a
 * sitemap index pointing at them. Storage is a map from path to file text;
 * the current time written into the index is a parameter.
 */
module IndexGenerator {
  import opened Wrappers
  import opened Text
  import opened Entries
  import opened Chunks
  import opened SitemapXml

  // ---------------------------------------------------------------------------
  // sprintf with one integer argument
  // ---------------------------------------------------------------------------

  /** A piece of a parsed format: a literal character or the place of the number. */
  datatype Piece = Literal(c: char) | Number

  function NumberCount(ps: seq<Piece>): nat
    decreases |ps|
  {
    if |ps| == 0 then 0 else (if ps[0] == Number then 1 else 0) + NumberCount(ps[1..])
  }

  /**
   * The format as `sprintf` reads it with a single argument: `%%` is a
   * percent sign, `%d` takes the argument; a second `%d` has no argument
   * left, and any other directive or a trailing `%` is outside the model.
   * Both are errors.
   */
  function ParseFormat(p: string, used: bool): (r: Result<seq<Piece>, string>)
    ensures r.Success? ==> NumberCount(r.value) <= (if used then 0 else 1)
    decreases |p|
  {
    if |p| == 0 then Success([])
    else if p[0] != '%' then
      match ParseFormat(p[1..], used)
      case Failure(e) => Failure(e)
      case Success(ps) =>
        assert ([Literal(p[0])] + ps)[1..] == ps;
        Success([Literal(p[0])] + ps)
    else if |p| == 1 then Failure("Missing format specifier at end of string")
    else if p[1] == '%' then
      match ParseFormat(p[2..], used)
      case Failure(e) => Failure(e)
      case Success(ps) =>
        assert ([Literal('%')] + ps)[1..] == ps;
        Success([Literal('%')] + ps)
    else if p[1] == 'd' then
      if used then Failure("Too few arguments")
      else
        match ParseFormat(p[2..], true)
        case Failure(e) => Failure(e)
        case Success(ps) =>
          assert ([Number] + ps)[1..] == ps;
          Success([Number] + ps)
    else Failure("Format directive not modelled")
  }

  /** The text of a parsed format with the number written in decimal. */
  function Fill(ps: seq<Piece>, n: nat): string
    decreases |ps|
  {
    if |ps| == 0 then ""
    else (match ps[0] case Literal(c) => [c] case Number => NatToString(n)) + Fill(ps[1..], n)
  }

  /** The literal text before the first number. */
  function Before(ps: seq<Piece>): string
    decreases |ps|
  {
    if |ps| == 0 then "" else match ps[0] case Literal(c) => [c] + Before(ps[1..]) case Number => ""
  }

  /** The literal text after the first number. */
  function After(ps: seq<Piece>): string
    decreases |ps|
  {
    if |ps| == 0 then "" else match ps[0] case Literal(_) => After(ps[1..]) case Number => Fill(ps[1..], 0)
  }

  /** Without a number place the text does not depend on the argument. */
  lemma {:induction false} FillConstant(ps: seq<Piece>, a: nat, b: nat)
    requires NumberCount(ps) == 0
    ensures Fill(ps, a) == Fill(ps, b)
    decreases |ps|
  {
    if |ps| > 0 {
      FillConstant(ps[1..], a, b);
    }
  }

  /** With one number place the text is the literal text around the decimal digits. */
  lemma {:induction false} FillOneNumber(ps: seq<Piece>, n: nat)
    requires NumberCount(ps) == 1
    ensures Fill(ps, n) == Before(ps) + NatToString(n) + After(ps)
    decreases |ps|
  {
    if ps[0] == Number {
      FillConstant(ps[1..], n, 0);
    } else {
      FillOneNumber(ps[1..], n);
    }
  }

  lemma CancelSides(a: string, x: string, y: string, b: string)
    requires a + x + b == a + y + b
    ensures x == y
  {
    var s := a + x + b;
    assert |x| == |y|;
    assert x == s[|a|..|a| + |x|];
    assert y == (a + y + b)[|a|..|a| + |y|];
  }

  /** A format with one `%d` gives a different text for every number. */
  lemma FillInjective(ps: seq<Piece>, a: nat, b: nat)
    requires NumberCount(ps) == 1 && a != b
    ensures Fill(ps, a) != Fill(ps, b)
  {
    FillOneNumber(ps, a);
    FillOneNumber(ps, b);
    if Fill(ps, a) == Fill(ps, b) {
      CancelSides(Before(ps), NatToString(a), NatToString(b), After(ps));
      NatToStringInjective(a, b);
    }
  }

  function Literals(s: string): (r: seq<Piece>)
    ensures NumberCount(r) == 0 && |r| == |s|
    decreases |s|
  {
    if |s| == 0 then [] else
      var r := [Literal(s[0])] + Literals(s[1..]);
      assert r[1..] == Literals(s[1..]);
      r
  }

  lemma {:induction false} ParsePlain(s: string, used: bool)
    requires '%' !in s
    ensures ParseFormat(s, used) == Success(Literals(s))
    decreases |s|
  {
    if |s| > 0 {
      ParsePlain(s[1..], used);
    }
  }

  lemma {:induction false} ParsePlainThen(a: string, rest: string, used: bool)
    requires '%' !in a
    ensures ParseFormat(a + rest, used) == (match ParseFormat(rest, used)
      case Failure(e) => Failure(e)
      case Success(ps) => Success(Literals(a) + ps))
    decreases |a|
  {
    if |a| == 0 {
      assert a + rest == rest;
      assert Literals(a) == [];
      if ParseFormat(rest, used).Success? {
        assert Literals(a) + ParseFormat(rest, used).value == ParseFormat(rest, used).value;
      }
    } else {
      assert (a + rest)[0] == a[0] && (a + rest)[1..] == a[1..] + rest;
      ParsePlainThen(a[1..], rest, used);
      if ParseFormat(rest, used).Success? {
        var ps := ParseFormat(rest, used).value;
        assert ParseFormat(a[1..] + rest, used) == Success(Literals(a[1..]) + ps);
        assert Literals(a) + ps == [Literal(a[0])] + (Literals(a[1..]) + ps);
      }
    }
  }

  lemma {:induction false} FillLiterals(s: string, n: nat)
    ensures Fill(Literals(s), n) == s
    decreases |s|
  {
    if |s| > 0 {
      FillLiterals(s[1..], n);
      assert Literals(s)[1..] == Literals(s[1..]);
    }
  }

  lemma {:induction false} FillConcat(a: seq<Piece>, b: seq<Piece>, n: nat)
    ensures Fill(a + b, n) == Fill(a, n) + Fill(b, n)
    decreases |a|
  {
    if |a| == 0 {
      assert a + b == b;
    } else {
      assert (a + b)[1..] == a[1..] + b;
      FillConcat(a[1..], b, n);
    }
  }

  /** `sprintf("a%db", n)` for literal texts `a` and `b` is `a`, the decimal digits of `n`, then `b`. */
  lemma FormatHole(a: string, b: string, n: nat)
    requires '%' !in a && '%' !in b
    ensures ParseFormat(a + "%d" + b, false).Success?
    ensures Fill(ParseFormat(a + "%d" + b, false).value, n) == a + NatToString(n) + b
  {
    var rest := "%d" + b;
    assert a + "%d" + b == a + rest;
    assert rest[2..] == b;
    ParsePlain(b, true);
    ParsePlainThen(a, rest, false);
    var ps := Literals(a) + [Number] + Literals(b);
    assert ParseFormat(a + "%d" + b, false).value == ps;
    FillConcat(Literals(a) + [Number], Literals(b), n);
    FillConcat(Literals(a), [Number], n);
    FillLiterals(a, n);
    FillLiterals(b, n);
    assert Fill([Number], n) == NatToString(n) + Fill([], n);
  }

  // ---------------------------------------------------------------------------
  // Configuration
  // ---------------------------------------------------------------------------

  /** The configuration keys the generator reads; absent keys take the defaults below. */
  datatype IndexConfig = IndexConfig(
    enabled: Option<bool>,
    maxUrlsPerSitemap: Option<int>,
    filenamePattern: Option<string>,
    indexFilename: Option<string>,
    storagePath: Option<string>,
    storageFilename: Option<string>,
    appUrl: Option<string>)

  const DefaultMaxUrls: int := 50000
  const DefaultPattern: string := "sitemap-%d.xml"
  const DefaultIndexFilename: string := "sitemap.xml"
  const DefaultPath: string := "sitemaps"
  const DefaultFilename: string := "sitemap.xml"

  function Enabled(cfg: IndexConfig): bool { cfg.enabled.GetOr(false) }
  function MaxUrls(cfg: IndexConfig): int { cfg.maxUrlsPerSitemap.GetOr(DefaultMaxUrls) }
  function Pattern(cfg: IndexConfig): string { cfg.filenamePattern.GetOr(DefaultPattern) }
  function IndexFilename(cfg: IndexConfig): string { cfg.indexFilename.GetOr(DefaultIndexFilename) }
  function StoragePath(cfg: IndexConfig): string { cfg.storagePath.GetOr(DefaultPath) }
  function StorageFilename(cfg: IndexConfig): string { cfg.storageFilename.GetOr(DefaultFilename) }
  /** A missing application URL is PHP's `null`, which concatenates as the empty text. */
  function AppUrl(cfg: IndexConfig): string { cfg.appUrl.GetOr("") }

  /** Without configuration: a single sitemap, and shards of 50000 entries named `sitemap-N.xml`. */
  lemma Defaults(cfg: IndexConfig, n: nat)
    requires cfg == IndexConfig(None, None, None, None, None, None, None)
    ensures !Enabled(cfg) && MaxUrls(cfg) == 50000
    ensures PatternOk(cfg) && ShardName(cfg, n) == "sitemap-" + NatToString(n) + ".xml"
  {
    DefaultPatternHole();
    FormatHole("sitemap-", ".xml", n);
  }

  lemma DefaultPatternHole()
    ensures DefaultPattern == "sitemap-" + "%d" + ".xml"
  {
  }

  predicate PatternOk(cfg: IndexConfig) {
    ParseFormat(Pattern(cfg), false).Success?
  }

  /** `sprintf($pattern, $n)`: the name of shard number `n`. */
  function ShardName(cfg: IndexConfig, n: nat): string
    requires PatternOk(cfg)
  {
    Fill(ParseFormat(Pattern(cfg), false).value, n)
  }

  function ShardPath(cfg: IndexConfig, n: nat): string
    requires PatternOk(cfg)
  {
    StoragePath(cfg) + "/" + ShardName(cfg, n)
  }

  function IndexPath(cfg: IndexConfig): string {
    StoragePath(cfg) + "/" + IndexFilename(cfg)
  }

  function SinglePath(cfg: IndexConfig): string {
    StoragePath(cfg) + "/" + StorageFilename(cfg)
  }

  /** `getPublicUrl`: where the route serves a shard. */
  function PublicUrl(cfg: IndexConfig, name: string): string {
    AppUrl(cfg) + "/sitemaps/" + name
  }

  /** The paths of shards 1 to `m`. */
  function ShardPaths(cfg: IndexConfig, m: nat): (r: seq<string>)
    requires PatternOk(cfg)
    ensures |r| == m && forall k :: 0 <= k < m ==> r[k] == ShardPath(cfg, k + 1)
  {
    seq(m, k requires 0 <= k < m => ShardPath(cfg, k + 1))
  }

  /** The public URLs of shards 1 to `m`. */
  function ShardUrls(cfg: IndexConfig, m: nat): (r: seq<string>)
    requires PatternOk(cfg)
    ensures |r| == m && forall k :: 0 <= k < m ==> r[k] == PublicUrl(cfg, ShardName(cfg, k + 1))
  {
    seq(m, k requires 0 <= k < m => PublicUrl(cfg, ShardName(cfg, k + 1)))
  }

  /** A pattern with a single `%d` names every shard differently. */
  lemma ShardPathsDistinct(cfg: IndexConfig, a: nat, b: nat)
    requires PatternOk(cfg) && NumberCount(ParseFormat(Pattern(cfg), false).value) == 1 && a != b
    ensures ShardPath(cfg, a) != ShardPath(cfg, b)
  {
    FillInjective(ParseFormat(Pattern(cfg), false).value, a, b);
    if ShardPath(cfg, a) == ShardPath(cfg, b) {
      CancelSides(StoragePath(cfg) + "/", ShardName(cfg, a), ShardName(cfg, b), "");
    }
  }

  /** A pattern without `%d` gives every shard the same name, so each shard overwrites the one before. */
  lemma ShardPathsCollide(cfg: IndexConfig, a: nat, b: nat)
    requires PatternOk(cfg) && NumberCount(ParseFormat(Pattern(cfg), false).value) == 0
    ensures ShardPath(cfg, a) == ShardPath(cfg, b)
  {
    FillConstant(ParseFormat(Pattern(cfg), false).value, a, b);
  }

  // ---------------------------------------------------------------------------
  // The generator
  // ---------------------------------------------------------------------------

  /** The generator's state: the entries added so far and the files written by index runs. */
  datatype Generator = Generator(urls: seq<Entry>, sitemapFiles: seq<string>)

  /** Storage: file text by path. */
  type Disk = map<string, string>

  /** What a run leaves behind: the new generator state, the storage, and the returned paths. */
  datatype Outcome = Outcome(gen: Generator, disk: Disk, files: seq<string>)

  const Fresh: Generator := Generator([], [])

  /** `addUrl`: the entry goes after every entry added before; written files are untouched. */
  function AddUrl(g: Generator, e: Entry): (r: Generator)
    ensures |r.urls| == |g.urls| + 1 && r.urls[..|g.urls|] == g.urls && r.urls[|g.urls|] == e
    ensures r.sitemapFiles == g.sitemapFiles
  {
    Generator(g.urls + [e], g.sitemapFiles)
  }

  function AddAll(g: Generator, es: seq<Entry>): Generator
    decreases |es|
  {
    if |es| == 0 then g else AddAll(AddUrl(g, es[0]), es[1..])
  }

  /** Adding entries one after another collects them in the order added. */
  lemma {:induction false} AddAllAppends(g: Generator, es: seq<Entry>)
    ensures AddAll(g, es) == Generator(g.urls + es, g.sitemapFiles)
    decreases |es|
  {
    if |es| > 0 {
      AddAllAppends(AddUrl(g, es[0]), es[1..]);
      assert g.urls + [es[0]] + es[1..] == g.urls + es;
    }
  }

  /** `reset`: no entries, no written files; adding after a reset starts from nothing. */
  function Reset(g: Generator): (r: Generator)
    ensures r.urls == [] && r.sitemapFiles == []
    ensures forall es :: AddAll(r, es).urls == es
  {
    forall es ensures AddAll(Fresh, es).urls == es {
      AddAllAppends(Fresh, es);
    }
    Fresh
  }

  /** `generateSingleSitemap`: one file holding every entry; the generator's state is unchanged. */
  function GenerateSingle(g: Generator, cfg: IndexConfig, disk: Disk): (r: Outcome)
    ensures r.files == [SinglePath(cfg)] && r.gen == g
    ensures r.disk.Keys == disk.Keys + {SinglePath(cfg)}
    ensures r.disk[SinglePath(cfg)] == BuildSitemapXml(g.urls)
    ensures forall p :: p in disk && p != SinglePath(cfg) ==> r.disk[p] == disk[p]
  {
    Outcome(g, disk[SinglePath(cfg) := BuildSitemapXml(g.urls)], [SinglePath(cfg)])
  }

  /** No path after position `k` repeats the path at `k`: the file written there is the last write to it. */
  predicate LastWrite(paths: seq<string>, k: nat)
    requires k < |paths|
  {
    forall j :: k < j < |paths| ==> paths[j] != paths[k]
  }

  lemma LastWritePrefix(paths: seq<string>, more: seq<string>, k: nat)
    requires k < |paths| && LastWrite(paths + more, k)
    ensures LastWrite(paths, k)
  {
    forall j | k < j < |paths| ensures paths[j] != paths[k] {
      assert (paths + more)[j] == paths[j] && (paths + more)[k] == paths[k];
    }
  }

  /**
   * With a single `%d` in the pattern and an index name no shard takes,
   * every shard written by a run is still in storage afterwards.
   */
  lemma EveryShardSurvives(cfg: IndexConfig, m: nat, k: nat)
    requires PatternOk(cfg) && NumberCount(ParseFormat(Pattern(cfg), false).value) == 1
    requires IndexPath(cfg) !in ShardPaths(cfg, m) && k < m
    ensures LastWrite(ShardPaths(cfg, m) + [IndexPath(cfg)], k)
  {
    var ps := ShardPaths(cfg, m) + [IndexPath(cfg)];
    forall j | k < j < |ps| ensures ps[j] != ps[k] {
      if j < m {
        ShardPathsDistinct(cfg, j + 1, k + 1);
      }
    }
  }

  /** Storage after putting `texts[k]` at `paths[k]` for each `k` in turn: the last write to a path wins. */
  method PutAll(disk: Disk, paths: seq<string>, texts: seq<string>) returns (d: Disk)
    requires |paths| == |texts|
    ensures d.Keys == disk.Keys + (set p | p in paths)
    ensures forall p :: p in disk && p !in paths ==> d[p] == disk[p]
    ensures forall k :: 0 <= k < |paths| && LastWrite(paths, k) ==> d[paths[k]] == texts[k]
  {
    d := disk;
    var i := 0;
    while i < |paths|
      invariant 0 <= i <= |paths|
      invariant d.Keys == disk.Keys + (set p | p in paths[..i])
      invariant forall p :: p in disk && p !in paths[..i] ==> d[p] == disk[p]
      invariant forall k :: 0 <= k < i && LastWrite(paths[..i], k) ==> d[paths[k]] == texts[k]
    {
      forall k | 0 <= k < i && LastWrite(paths[..i + 1], k)
        ensures d[paths[i] := texts[i]][paths[k]] == texts[k]
      {
        assert paths[..i + 1][k] == paths[k] && paths[..i + 1][i] == paths[i];
        assert paths[..i + 1] == paths[..i] + [paths[i]];
        LastWritePrefix(paths[..i], [paths[i]], k);
      }
      assert paths[..i + 1] == paths[..i] + [paths[i]];
      d := d[paths[i] := texts[i]];
      i := i + 1;
    }
    assert paths[..i] == paths;
  }

  /**
   * `generateSitemapIndex`: the entries cut into pieces of at most
   * `max_urls_per_sitemap`, piece `k` written as shard `k + 1`, then the
   * index listing every shard's public URL. The returned list is the files
   * of earlier runs, the shard paths in order and the index path; a shard
   * survives unless a later shard or the index reuses its path.
   */
  method GenerateIndex(g: Generator, cfg: IndexConfig, disk: Disk, now: Instant) returns (r: Result<Outcome, string>)
    ensures r.Failure? <==> MaxUrls(cfg) < 1 || (|g.urls| > 0 && !PatternOk(cfg))
    ensures r.Success? ==> MaxUrls(cfg) >= 1 && r.value.gen == Generator(g.urls, r.value.files)
    ensures r.Success? && |g.urls| == 0 ==>
      r.value.files == g.sitemapFiles + [IndexPath(cfg)]
      && r.value.disk == disk[IndexPath(cfg) := BuildSitemapIndexXml([], now)]
    ensures r.Success? && |g.urls| > 0 ==>
      var chunks := Chunk(g.urls, MaxUrls(cfg));
      var paths := ShardPaths(cfg, |chunks|);
      var o := r.value;
      && o.files == g.sitemapFiles + paths + [IndexPath(cfg)]
      && o.disk.Keys == disk.Keys + (set p | p in paths) + {IndexPath(cfg)}
      && (forall p :: p in disk && p !in paths && p != IndexPath(cfg) ==> o.disk[p] == disk[p])
      && (forall k :: 0 <= k < |chunks| && LastWrite(paths + [IndexPath(cfg)], k) ==> o.disk[paths[k]] == BuildSitemapXml(chunks[k]))
      && o.disk[IndexPath(cfg)] == BuildSitemapIndexXml(ShardUrls(cfg, |chunks|), now)
  {
    var max := MaxUrls(cfg);
    if max < 1 {
      return Failure("array_chunk(): Argument #2 ($length) must be greater than 0");
    }
    var index := IndexPath(cfg);
    if |g.urls| == 0 {
      var files := g.sitemapFiles + [index];
      return Success(Outcome(Generator(g.urls, files), disk[index := BuildSitemapIndexXml([], now)], files));
    }
    if !PatternOk(cfg) {
      return Failure(ParseFormat(Pattern(cfg), false).error);
    }
    var chunks := Chunk(g.urls, max);
    var paths := ShardPaths(cfg, |chunks|);
    var locs := ShardUrls(cfg, |chunks|);
    var texts := seq(|chunks|, k requires 0 <= k < |chunks| => BuildSitemapXml(chunks[k]));
    var d := PutAll(disk, paths, texts);
    forall k | 0 <= k < |chunks| && LastWrite(paths + [index], k)
      ensures d[index := BuildSitemapIndexXml(locs, now)][paths[k]] == BuildSitemapXml(chunks[k])
    {
      assert (paths + [index])[k] == paths[k];
      assert (paths + [index])[|paths|] == index;
      LastWritePrefix(paths, [index], k);
    }
    var files := g.sitemapFiles + paths + [index];
    r := Success(Outcome(Generator(g.urls, files), d[index := BuildSitemapIndexXml(locs, now)], files));
  }

  /** `generate`: the single sitemap unless the index is enabled. */
  method Generate(g: Generator, cfg: IndexConfig, disk: Disk, now: Instant) returns (r: Result<Outcome, string>)
    ensures !Enabled(cfg) ==> r == Success(GenerateSingle(g, cfg, disk))
    ensures Enabled(cfg) ==> (r.Failure? <==> MaxUrls(cfg) < 1 || (|g.urls| > 0 && !PatternOk(cfg)))
    ensures r.Success? ==> r.value.gen.urls == g.urls && g.sitemapFiles <= r.value.gen.sitemapFiles
    ensures r.Success? && Enabled(cfg) ==>
      MaxUrls(cfg) >= 1 && r.value.files == r.value.gen.sitemapFiles
      && |r.value.files| == |g.sitemapFiles| + |Chunk(g.urls, MaxUrls(cfg))| + 1
    ensures r.Success? && g == Fresh ==> |r.value.files| == 1
  {
    if !Enabled(cfg) {
      return Success(GenerateSingle(g, cfg, disk));
    }
    r := GenerateIndex(g, cfg, disk, now);
    if r.Success? {
      ChunkCount(g.urls, MaxUrls(cfg));
    }
  }

  /**
   * The index written by a run reads back as the public URLs of its shards,
   * in shard order, when none of those texts breaks a line.
   */
  lemma IndexListsShards(cfg: IndexConfig, m: nat, now: Instant)
    requires PatternOk(cfg)
    requires '\n' !in now.iso8601
    requires forall k :: 0 <= k < m ==> '\n' !in ShardUrls(cfg, m)[k]
    ensures ReadSitemapIndexXml(BuildSitemapIndexXml(ShardUrls(cfg, m), now)) == Some(ShardUrls(cfg, m))
  {
    ReadBuildSitemapIndexXml(ShardUrls(cfg, m), now);
  }

  /** The shards hold every entry exactly once, in the order added. */
  lemma ShardsHoldAllEntries(g: Generator, cfg: IndexConfig)
    requires MaxUrls(cfg) >= 1
    ensures Flatten(Chunk(g.urls, MaxUrls(cfg))) == g.urls
    ensures forall k :: 0 <= k < |Chunk(g.urls, MaxUrls(cfg))| ==> |Chunk(g.urls, MaxUrls(cfg))[k]| <= MaxUrls(cfg)
  {
    ChunkShape(g.urls, MaxUrls(cfg));
  }
}
