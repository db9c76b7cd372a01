# Sitemap generation for Laravel: a Dafny model

This project models the decision and transformation logic of the
`daikazu/sitemap` Laravel package. The package builds `sitemap.xml` in two
ways. It can crawl a site and keep the pages worth listing. It can also map
the records of configured Eloquent models to sitemap entries. It writes
either one sitemap file or numbered shards plus a sitemap index. A cooldown
gate decides when to regenerate, and a clear command removes the output.

All state is immutable data, and each operation is a pure function or a
short method:

- `Urls`, `Normalize`, `KeyOrder`: URLs are pre-split records (`Url`) that
  `Render` turns back into text. `ParseStr` reads query pairs the way PHP
  arrays do. There are two normalisers. The command's `normalizeUrl` is the
  key for hybrid-mode dedup (`DedupNormalize`). The crawl profile's
  `normalizeUrl` is the key for dedup of query variants (`ProfileNormalize`).
- `CrawlProfile`: the ordered rule chain of the profile's `shouldCrawl`,
  one URL at a time (`ShouldCrawl`) and over a whole crawl (`Run`).
- `CrawlObserver`: the special-page priority table, `isModelUrl`, and the
  observer's `crawled` transition over its counter, its processed URLs and
  its entries.
- `Command`: `--exclude` parsing, dispatch on the generation mode, and the
  order in which entries reach the sitemap.
- `Chunks`, `XmlText`, `SitemapXml`, `IndexGenerator`: the index
  generator. It cuts entries into `array_chunk` pieces and names shards
  through a model of `sprintf` with `%d`. It writes the `<urlset>` and
  `<sitemapindex>` documents of the sitemaps.org Sitemap protocol 0.9 (its
  sections "XML tag definitions", "Entity escaping" and "Using Sitemap
  index files"). Readers parse the written documents back, which proves
  what each document contains.
- `ModelGenerator`: the record-source adapter, including chunked
  processing.
- `CacheStore`, `SitemapGate`: the cooldown gate of `SitemapService`.
  Running the generation command is an abstract effect, given as the file
  it produced.
- `ClearCommand`: the clear command, a filter-delete over storage plus
  removal of two cache keys.

Some conventions apply throughout:

- A priority is a count of tenths, so 0.7 is 7.
- Timestamps are opaque ISO 8601 texts.
- Storage is a map from path to file text.
- The current time, the crawler's internal-URL check and configuration
  values are parameters.

Three facts about the code shape the model:

- `crawled` runs the record-source check on the fetched URL, before the
  canonical link replaces it (`src/Commands/SitemapCommand.php:191-210`,
  `CrawlObserver.ModelCheckBeforeCanonical`).
- `getLastModified` passes a closure's result or a column's text to
  `new DateTime`, which throws on text that is not a date
  (`src/Services/ModelSitemapGenerator.php:150`, `:166`). Dates are opaque
  here, so that case is not modelled.
- `SitemapService` reads the file at `public_path('sitemap.xml')`, while the
  sitemap command writes to the storage path `sitemaps/sitemap.xml`. The
  gate therefore takes the produced file as an input and does not connect
  it to the generators' storage.

## Model

| member | source | states |
|---|---|---|
| Text.Lower | src/Commands/SitemapCommand.php:559 | `strtolower` keeps the length and maps each character through ASCII lower-casing |
| Text.LowerIdempotent | src/Commands/SitemapCommand.php:559 | lower-casing twice is lower-casing once |
| Text.TrimRight | src/Commands/SitemapCommand.php:513 | `rtrim` result is a prefix of the input, ends in no trimmed character, and only trimmed characters were removed |
| Text.TrimRightIgnoresTrailing | src/Commands/SitemapCommand.php:513-515 | appending trimmed characters does not change what `rtrim` returns |
| Text.TrimSurrounded | src/Commands/SitemapCommand.php:309-310 | `trim` removes exactly the trimmed characters around a text that neither starts nor ends with one |
| Text.Contains | src/Commands/SitemapCommand.php:319 | `str_contains` holds iff the needle occurs at some position |
| Text.Split | src/Commands/SitemapCommand.php:97 | `explode` gives at least one piece, none holding the separator, and joining the pieces gives the input back |
| Text.SplitJoin | src/Commands/SitemapCommand.php:97 | splitting joined separator-free pieces gives the pieces back |
| Text.SplitCount | src/Commands/SitemapCommand.php:97 | `explode` gives one piece more than there are separators |
| Text.NatToStringRoundTrip | src/Services/SitemapIndexGenerator.php:107-108 | the decimal text of a number reads back as that number |
| Text.NatToStringInjective | src/Services/SitemapIndexGenerator.php:107-108 | distinct numbers have distinct decimal texts |
| Text.NatToStringNumeric | src/Commands/SitemapCommand.php:337-338 | a decimal text passes `is_numeric` and `(int)` casts it back to the number |
| Urls.ParseStr | src/Commands/SitemapCommand.php:545 | `parse_str` gives unique keys, the same key set as the query, and for every key the value of its last occurrence |
| Urls.ParseStrUnique | src/Commands/SitemapCommand.php:545 | a query with distinct keys reads back unchanged, order included |
| Urls.Assign | src/Commands/SitemapCommand.php:545 | array assignment adds at most one pair, and the key set grows by exactly the assigned key |
| Urls.AssignLookup | src/Commands/SitemapCommand.php:545 | after assignment the assigned key holds the new value and every other key keeps its value |
| Urls.DropTracking | src/Commands/SitemapCommand.php:537-549 | after removal no tracking key is left, every kept pair comes from the input, and every non-tracking pair is kept |
| Urls.DropTrackingConcat | src/Commands/SitemapCommand.php:547-549 | removal distributes over concatenation, so kept pairs stay in their original order |
| Urls.DropTrackingHasKey | src/Commands/SitemapCommand.php:547-549 | a key survives iff it was present and is not one of the eleven tracking keys, compared case-sensitively |
| Urls.DropTrackingParseStr | src/Commands/SitemapCommand.php:545-549 | unsetting tracking keys after `parse_str` equals `parse_str` of the query with its tracking pairs removed |
| KeyOrder.SortByKey | src/Commands/SitemapCommand.php:371 | `ksort` returns a permutation of its input |
| KeyOrder.SortByKeySorted | src/Commands/SitemapCommand.php:371 | on pairs with distinct keys the result has strictly increasing keys |
| KeyOrder.SortedMultisetEqual | src/Commands/SitemapCommand.php:371 | two sorted sequences holding the same pairs are equal, so the sort is unique |
| KeyOrder.SortPermutation | src/Commands/SitemapCommand.php:371 | the sort result depends only on which pairs there are, not on their order |
| Normalize.DedupRecord | src/Commands/SitemapCommand.php:553-557 | the dedup key keeps the port, drops the fragment, and holds the lower-cased surviving pairs in original order, or no query when none survive |
| Normalize.DedupNormalize | src/Commands/SitemapCommand.php:531-560 | the dedup key has no capital letter and is exactly the text of `DedupRecord` |
| Normalize.DedupIgnoresTrailingSlashes | src/Commands/SitemapCommand.php:556 | appending any run of slashes to the path does not change the key |
| Normalize.DedupRootPath | src/Commands/SitemapCommand.php:556 | no path, an empty path and a path of slashes only give the same key |
| Normalize.DedupIgnoresTracking | src/Commands/SitemapCommand.php:547-549 | tracking pairs never affect the key, and a query of tracking pairs only is the same as no query |
| Normalize.DedupIgnoresFragment | src/Commands/SitemapCommand.php:553-559 | the fragment never reaches the key |
| Normalize.DedupCaseInsensitive | src/Commands/SitemapCommand.php:559 | URLs that differ only in the letter case of scheme, host or path get the same key |
| Normalize.DedupKeepsOrder | src/Commands/SitemapCommand.php:557 | with distinct keys the surviving pairs keep their original order: nothing is sorted |
| Normalize.DedupDistinguishesValue | src/Commands/SitemapCommand.php:557-559 | for a URL whose whole query is one non-tracking pair, two values give different keys unless they differ only in case |
| Normalize.DedupIdempotent | src/Commands/SitemapCommand.php:531-560 | normalising the normalised URL again changes nothing, provided lower-casing made no kept key a duplicate or a tracking key |
| Normalize.DedupNotIdempotentForCapitalisedTrackingKey | src/Commands/SitemapCommand.php:547-559 | without that condition a second pass differs: `UTM_SOURCE` survives the first pass and is removed by the second |
| Normalize.ProfileRecord | src/Commands/SitemapCommand.php:353-385 | the profile form keeps scheme, host, port, path and fragment; without a query it is the URL itself; otherwise its query is the sorted surviving pairs |
| Normalize.ProfileNormalize | src/Commands/SitemapCommand.php:351-386 | the profile normaliser is the identity on URLs without a query, and otherwise the text of `ProfileRecord` |
| Normalize.ProfileFixedPoint | src/Commands/SitemapCommand.php:370-382 | a URL with a sorted, non-empty query free of tracking keys is its own normal form |
| Normalize.ProfileIdempotent | src/Commands/SitemapCommand.php:351-386 | the profile normaliser applied to its own output changes nothing |
| Normalize.ProfileOrderIndependent | src/Commands/SitemapCommand.php:371 | reordering the query pairs does not change the profile normal form |
| Normalize.ProfileIgnoresTracking | src/Commands/SitemapCommand.php:358-368 | tracking pairs never influence the profile normal form of a URL with a query |
| CrawlProfile.ExcludedByAny | src/Commands/SitemapCommand.php:307-313 | the exclusion loop rejects iff some directory, trimmed of slashes and truthy, is a string prefix of the trimmed path |
| CrawlProfile.SkippedByAny | src/Commands/SitemapCommand.php:316-322 | the skip-pattern loop rejects iff some pattern occurs in the URL text |
| CrawlProfile.Record | src/Commands/SitemapCommand.php:295-304 | a normal form is recorded iff it differs from the URL text and is new; it is appended and nothing else changes |
| CrawlProfile.ShouldCrawl | src/Commands/SitemapCommand.php:290-349 | the profile afterwards holds the recorded form, and the variant rule rejects iff the URL is a variant of a recorded form |
| CrawlProfile.ShouldCrawlRuleOrder | src/Commands/SitemapCommand.php:294-334 | the exclusion, skip-pattern and filter-key rules each reject iff every earlier rule passed and their own condition holds |
| CrawlProfile.ShouldCrawlAccepts | src/Commands/SitemapCommand.php:290-349 | a URL is crawled iff no rule rejects it and the crawler's own internal-URL check accepts it |
| CrawlProfile.NormalFormNotVariant | src/Commands/SitemapCommand.php:297-304 | a URL in normal form is never rejected as a variant and records nothing |
| CrawlProfile.NoQueryNotVariant | src/Commands/SitemapCommand.php:354-385 | a URL without a query never reaches the variant list |
| CrawlProfile.FalsyDirectoryIgnored | src/Commands/SitemapCommand.php:309-310 | excluded directories that trim to "" or "0" exclude nothing |
| CrawlProfile.ExcludesStringPrefix | src/Commands/SitemapCommand.php:309-310 | the directory test is a string prefix test on slash-trimmed texts, so `blog` also excludes `/blogroll` |
| CrawlProfile.ExcludesOnlyLeading | src/Commands/SitemapCommand.php:310 | a slash-free directory name excludes no path whose first segment does not start with it, whatever later segments hold |
| CrawlProfile.EmptyPatternSkipsAll | src/Commands/SitemapCommand.php:318-321 | an empty skip pattern occurs in every URL, so nothing is crawled |
| CrawlProfile.ZeroLimitAllowsAnyPage | src/Commands/SitemapCommand.php:339-344 | a pagination limit of 0 switches the page rule off |
| CrawlProfile.PageWithinLimit | src/Commands/SitemapCommand.php:337-344 | a page number at most the limit is not too deep |
| CrawlProfile.PageBeyondLimit | src/Commands/SitemapCommand.php:337-344 | a page number beyond a non-zero limit is too deep |
| CrawlProfile.DefaultPatternsSkipAdmin | config/sitemap.php:27-33 | with the default skip patterns no URL whose path starts with `/admin` is crawled, whatever its origin, query or fragment |
| CrawlProfile.Run | src/Commands/SitemapCommand.php:290-349 | a crawl gives one verdict per URL, leaves the configuration alone, and only extends the recorded forms |
| CrawlProfile.RunVerdictAt | src/Commands/SitemapCommand.php:290-304 | the verdict at position `j` is `shouldCrawl` on the profile left by the URLs before it |
| CrawlProfile.RecordedAfter | src/Commands/SitemapCommand.php:298-304 | a variant's normal form is recorded once it is asked about, whatever later rules decide |
| CrawlProfile.OnlyFirstVariantPasses | src/Commands/SitemapCommand.php:298-304 | of several variants with one normal form, every one after the first is rejected by the variant rule |
| CrawlProfile.NormalFormNeverVariantInRun | src/Commands/SitemapCommand.php:298 | a URL in normal form is never rejected as a variant at any point of a crawl |
| CrawlObserver.EnsureSlash | src/Commands/SitemapCommand.php:108-110 | the base URL ends in a slash afterwards and is unchanged when it already did |
| CrawlObserver.SpecialPages | src/Commands/SitemapCommand.php:113-120 | the table holds the home page at 1.0 and the five fixed pages at 0.9, and nothing else |
| CrawlObserver.SpecialPagePriority | src/Commands/SitemapCommand.php:511-516 | a priority is found iff the URL without trailing slashes is a table key, and it is then 1.0 or 0.9 |
| CrawlObserver.HomePagePriority | src/Commands/SitemapCommand.php:114 | the home page gets 1.0, with or without trailing slashes |
| CrawlObserver.FixedPagePriority | src/Commands/SitemapCommand.php:115-119 | contact, about, about-us, products and services get 0.9, with or without trailing slashes |
| CrawlObserver.OtherPagesHaveNone | src/Commands/SitemapCommand.php:515 | any other URL gets no special priority |
| CrawlObserver.SpecialPagesIgnoreBaseSlash | src/Commands/SitemapCommand.php:108-120 | the table is the same whether the base URL was given with its trailing slash or without |
| CrawlObserver.ModelKeys | src/Commands/SitemapCommand.php:147-151 | one dedup key per record-source entry, in entry order |
| CrawlObserver.IsModelUrlIff | src/Commands/SitemapCommand.php:521-526 | `isModelUrl` holds iff the URL's dedup key equals the key of some record-source entry |
| CrawlObserver.VariantOfModelUrlIsModelUrl | src/Commands/SitemapCommand.php:521-526 | a URL that differs from a record-source entry only by trailing slashes, tracking pairs and a fragment is recognised |
| CrawlObserver.OtherValueIsNotModelUrl | src/Commands/SitemapCommand.php:521-526 | for a URL whose whole query is one non-tracking pair, a record URL with a value differing beyond case does not hide it |
| CrawlObserver.Target | src/Commands/SitemapCommand.php:202-210 | the entry URL is the canonical one when it is present, truthy and different, else the fetched one |
| CrawlObserver.PageEntry | src/Commands/SitemapCommand.php:223-240 | special pages get their priority and daily frequency; other pages get 0.7 and monthly; the modification time is always set |
| CrawlObserver.Crawled | src/Commands/SitemapCommand.php:181-247 | uncounted pages change nothing; counted pages add exactly 1 to the count; exactly one entry and one processed URL are added iff the page is written |
| CrawlObserver.CrawledConsistent | src/Commands/SitemapCommand.php:181-247 | `crawled` keeps one processed text per entry, equal to that entry's URL text, and never more entries than counted pages |
| CrawlObserver.CrawlAll | src/Commands/SitemapCommand.php:181-247 | over a whole crawl entries and processed URLs only grow, and the count grows by at most the number of pages |
| CrawlObserver.CrawlAllConsistent | src/Commands/SitemapCommand.php:181-247 | the observer invariant holds after any sequence of pages |
| CrawlObserver.CrawlAllIgnoresUncounted | src/Commands/SitemapCommand.php:184-193 | non-200 pages and record-source URLs change nothing over a whole crawl |
| CrawlObserver.ModelCheckBeforeCanonical | src/Commands/SitemapCommand.php:191-210 | a page whose canonical is a record-source URL is still written under that canonical URL |
| CrawlObserver.CanonicalWrittenOnce | src/Commands/SitemapCommand.php:202-206 | a canonical text that was already written is never written again through another page |
| Command.ParseExcludes | src/Commands/SitemapCommand.php:96-99 | no exclusions for an absent or PHP-empty option; otherwise one trimmed, comma-free part per comma plus one |
| Command.ParseExcludesJoin | src/Commands/SitemapCommand.php:96-97 | trimmed comma-free directory names joined by commas parse back to the same names |
| Command.Dispatch | src/Commands/SitemapCommand.php:142-161 | record sources run iff the mode is models or hybrid; the crawl runs iff the mode is not models; at least one runs |
| Command.DefaultModeOnlyCrawls | src/Commands/SitemapCommand.php:131-161 | without a mode only the crawl runs, checked against no record URL |
| Command.ModelsModeOnlyRecords | src/Commands/SitemapCommand.php:155-161 | in models mode the entries handed to `Sitemap::add` are exactly the record entries, in order |
| Command.HybridRecordsThenCrawl | src/Commands/SitemapCommand.php:142-161 | in hybrid mode the entries handed to `Sitemap::add` are the record entries, then the crawled ones; a crawl meeting only record URLs adds nothing |
| Chunks.ChunkShape | src/Services/SitemapIndexGenerator.php:100 | `array_chunk` pieces concatenate back to the input, none is empty, each holds at most `n`, and all but the last hold exactly `n` |
| Chunks.ChunkCount | src/Services/SitemapIndexGenerator.php:100 | the number of pieces is the input length divided by `n`, rounded up; no pieces iff no input |
| Chunks.ChunkAt | src/Services/SitemapIndexGenerator.php:100-107 | piece `i` is the slice from `i*n` to `(i+1)*n`, cut at the end |
| Chunks.FlattenConcat | src/Services/ModelSitemapGenerator.php:85-93 | flattening distributes over concatenation of piece lists |
| XmlText.EscapeChar | src/Services/SitemapIndexGenerator.php:143 | `htmlspecialchars` of one character contains no raw `<`, `>` or quote, leaves other characters alone, and adds no newline |
| XmlText.Escape | src/Services/SitemapIndexGenerator.php:143 | the escaped text has no raw `<`, `>` or quote and holds a newline iff the input does |
| XmlText.UnescapeEscape | src/Services/SitemapIndexGenerator.php:143 | decoding the escaped text gives the original |
| XmlText.EscapePlain | src/Services/SitemapIndexGenerator.php:143 | text without the five special characters is written unchanged |
| XmlText.UngroupGroup | src/Services/SitemapIndexGenerator.php:154 | removing the thousands separators of `number_format` gives the digits back |
| XmlText.FormatPriority | src/Services/SitemapIndexGenerator.php:154 | a priority is written as the grouped whole part, a point and exactly one decimal digit |
| XmlText.ParseFormatPriority | src/Services/SitemapIndexGenerator.php:154 | a written priority reads back as the same number of tenths |
| XmlText.FormatPrioritySmall | src/Services/SitemapIndexGenerator.php:154 | a priority below 10.0 is written as its whole digit, a point and its tenths digit, with no separator, so 0.7 is `0.7` and 1.0 is `1.0` |
| XmlText.ReadFieldLine | src/Services/SitemapIndexGenerator.php:143-154 | a written field line reads back as its text |
| XmlText.ReadOtherField | src/Services/SitemapIndexGenerator.php:143-154 | a field line is never read as a field with another tag |
| XmlText.TerminatedJoin | src/Services/SitemapIndexGenerator.php:138-160 | lines each ended by `PHP_EOL` plus a last line are those lines joined by newlines |
| SitemapXml.Optional | src/Services/SitemapIndexGenerator.php:145-155 | an optional element is at most one line |
| SitemapXml.ReadOptionalLines | src/Services/SitemapIndexGenerator.php:145-155 | an optional element reads back as its value when set and as nothing when unset, and the reader moves past exactly its lines |
| SitemapXml.ReadUrlLines | src/Services/SitemapIndexGenerator.php:142-157 | one `<url>` element reads back as what its entry says, whatever follows it |
| SitemapXml.ReadUrlsLines | src/Services/SitemapIndexGenerator.php:141-158 | the `<url>` elements read back one per entry, in entry order |
| SitemapXml.ReadBuildSitemapXml | src/Services/SitemapIndexGenerator.php:136-163 | the written `<urlset>` reads back as exactly the entries: loc unescaped to the URL text, each optional element present iff set, in input order |
| SitemapXml.LocIsEscaped | src/Services/SitemapIndexGenerator.php:143 | the `<loc>` text never holds a raw `<`, `>` or quote |
| SitemapXml.ReadSitemapsLines | src/Services/SitemapIndexGenerator.php:173-178 | the `<sitemap>` elements read back as their locations, in order |
| SitemapXml.ReadBuildSitemapIndexXml | src/Services/SitemapIndexGenerator.php:168-183 | the written `<sitemapindex>` reads back as exactly the shard locations, one element each, in order |
| IndexGenerator.ParseFormat | src/Services/SitemapIndexGenerator.php:108 | a format `sprintf` accepts with one argument has at most one number place |
| IndexGenerator.FillOneNumber | src/Services/SitemapIndexGenerator.php:108 | with one `%d` the name is the literal text around the decimal number |
| IndexGenerator.FillInjective | src/Services/SitemapIndexGenerator.php:108 | with one `%d` distinct numbers give distinct names |
| IndexGenerator.FillConstant | src/Services/SitemapIndexGenerator.php:108 | without `%d` the name does not depend on the number |
| IndexGenerator.FormatHole | src/Services/SitemapIndexGenerator.php:108 | `sprintf("a%db", n)` with literal `a` and `b` is `a`, the decimal digits of `n`, then `b` |
| IndexGenerator.Defaults | src/Services/SitemapIndexGenerator.php:21-48 | without configuration the index is off, shards hold 50000 entries, and shard `n` is `sitemap-n.xml` |
| IndexGenerator.ShardPaths | src/Services/SitemapIndexGenerator.php:106-109 | shard paths are `path/sprintf(pattern, k)` for k = 1..m, in order |
| IndexGenerator.ShardUrls | src/Services/SitemapIndexGenerator.php:117-119 | the index lists `app.url + '/sitemaps/' + filename` for k = 1..m, in order |
| IndexGenerator.ShardPathsDistinct | src/Services/SitemapIndexGenerator.php:106-109 | a pattern with one `%d` names every shard differently |
| IndexGenerator.ShardPathsCollide | src/Services/SitemapIndexGenerator.php:106-113 | a pattern without `%d` gives every shard the same path |
| IndexGenerator.AddUrl | src/Services/SitemapIndexGenerator.php:53-56 | `addUrl` appends after every earlier entry and leaves written files alone |
| IndexGenerator.AddAllAppends | src/Services/SitemapIndexGenerator.php:53-56 | adding entries one by one collects them in the order added |
| IndexGenerator.Reset | src/Services/SitemapIndexGenerator.php:205-210 | `reset` empties entries and files, and adding after it starts from nothing |
| IndexGenerator.GenerateSingle | src/Services/SitemapIndexGenerator.php:73-92 | single mode writes one file at `path/filename` holding every entry, returns only that path, and leaves other files and the state alone |
| IndexGenerator.PutAll | src/Services/SitemapIndexGenerator.php:106-126 | storage after the writes of a run: every written path is present, others are untouched, and the last write to a path wins |
| IndexGenerator.EveryShardSurvives | src/Services/SitemapIndexGenerator.php:106-126 | with one `%d` and an index name no shard takes, every shard written by a run survives it |
| IndexGenerator.GenerateIndex | src/Services/SitemapIndexGenerator.php:97-131 | index mode fails iff the size is below 1 or a pattern is needed and bad; it returns earlier files, then shard paths, then the index path; it writes each shard's chunk and the index of shard URLs |
| IndexGenerator.Generate | src/Services/SitemapIndexGenerator.php:61-68 | single mode unless enabled; index mode returns earlier files plus one path per chunk plus the index; a fresh generator returns one path |
| IndexGenerator.IndexListsShards | src/Services/SitemapIndexGenerator.php:117-123 | the index written by a run reads back as its shards' public URLs, in shard order |
| IndexGenerator.ShardsHoldAllEntries | src/Services/SitemapIndexGenerator.php:99-112 | the shards hold every entry exactly once, in the order added, each at most `max` |
| ModelGenerator.IsEnabled | src/Services/ModelSitemapGenerator.php:17-22 | record sources are read iff the mode is models or hybrid; the default mode gives false |
| ModelGenerator.SourceEnabled | src/Services/ModelSitemapGenerator.php:61-64 | a source without the flag is enabled, and `enabled => false` disables it |
| ModelGenerator.LastModified | src/Services/ModelSitemapGenerator.php:138-170 | no lastmod when unconfigured; a closure's result; a set column's value, or nothing when the column is unset |
| ModelGenerator.ChangeFrequency | src/Services/ModelSitemapGenerator.php:175-190 | unset when unconfigured; the closure's or constant's value when it is truthy, else unset |
| ModelGenerator.Priority | src/Services/ModelSitemapGenerator.php:195-210 | the priority is set iff configured, to the constant or the closure's result |
| ModelGenerator.RecordUrl | src/Services/ModelSitemapGenerator.php:102-110 | a record has a URL iff there is a mapper and its result is present and truthy |
| ModelGenerator.EntryFor | src/Services/ModelSitemapGenerator.php:99-133 | a record gives an entry iff it has a URL, and the entry carries the resolved lastmod, change frequency and priority |
| ModelGenerator.Filtered | src/Services/ModelSitemapGenerator.php:75-80 | the query keeps exactly the records its filter accepts |
| ModelGenerator.SourceEntriesExactly | src/Services/ModelSitemapGenerator.php:69-94 | an entry comes from a source iff its class exists and some record the query keeps maps to it |
| ModelGenerator.NoMapperNoEntries | src/Services/ModelSitemapGenerator.php:102-104 | a source without a URL mapper contributes nothing |
| ModelGenerator.EntriesAtMostRecords | src/Services/ModelSitemapGenerator.php:85-93 | a source gives at most one entry per kept record |
| ModelGenerator.AppendEntries | src/Services/ModelSitemapGenerator.php:85-93 | the chunk callback appends each record's entry in turn |
| ModelGenerator.ProcessInChunks | src/Services/ModelSitemapGenerator.php:85-93 | processing in chunks of any positive size appends exactly the entries of all records, in order |
| ModelGenerator.ProcessModel | src/Services/ModelSitemapGenerator.php:69-94 | `processModel` appends exactly the source's entries after the earlier ones, whatever the chunk size |
| ModelGenerator.Generate | src/Services/ModelSitemapGenerator.php:43-56 | `generate` keeps the earlier entries as a prefix, and with no sources changes nothing |
| ModelGenerator.Reset | src/Services/ModelSitemapGenerator.php:223-226 | `reset` empties the entries, and a run after it yields exactly the enabled sources' entries |
| ModelGenerator.DisabledSourcesIgnored | src/Services/ModelSitemapGenerator.php:47-50 | dropping a disabled source leaves the result unchanged |
| ModelGenerator.EnabledEntriesConcat | src/Services/ModelSitemapGenerator.php:47-53 | the entries of concatenated source lists are the two results in configuration order |
| CacheStore.Put | src/Services/SitemapService.php:110 | `Cache::put` stores the value for a positive lifetime and forgets the key otherwise; other keys are untouched |
| CacheStore.Forget | src/Commands/ClearSitemapCommand.php:67-68 | `Cache::forget` removes the key and nothing else |
| SitemapGate.GenerateSitemap | src/Services/SitemapService.php:103-112 | the file becomes the produced one; its text is cached iff it exists and the lifetime is positive; the cooldown flag is untouched |
| SitemapGate.StartCooldown | src/Services/SitemapService.php:117-120 | the cooldown flag is set iff the lifetime is positive; the file and other keys are untouched |
| SitemapGate.GenerateIfDue | src/Services/SitemapService.php:37-47 | it declines iff local, or the flag is set and the file exists; declining changes nothing; otherwise it generates and starts the cooldown |
| SitemapGate.ForceRegenerate | src/Services/SitemapService.php:54-60 | it always generates, returns true and sets the flag for a positive lifetime |
| SitemapGate.GetSitemapContent | src/Services/SitemapService.php:67-79 | cached text is returned with no state change; on a miss it generates and returns the file, or fails when there is none |
| SitemapGate.LocalNeverGenerates | src/Services/SitemapService.php:39-41 | in the local environment nothing is generated and nothing changes |
| SitemapGate.CooldownBlocksNextRun | src/Services/SitemapService.php:37-47 | after a run with a positive cooldown the next run declines, and the cached text is the file's text |
| SitemapGate.NoCooldownAlwaysGenerates | src/Services/SitemapService.php:110-119 | with a cooldown of zero hours or less nothing is cached, so every run outside local generates |
| SitemapGate.ContentServedFromCache | src/Services/SitemapService.php:67-78 | after a miss fills the cache, the next read returns the same text without generating |
| SitemapGate.ContentMissKeepsCooldown | src/Services/SitemapService.php:74-78 | reading the content on a miss never sets or clears the cooldown flag |
| ClearCommand.Targets | src/Commands/ClearSitemapCommand.php:40-64 | index mode targets exactly the `.xml` files directly in the directory; single mode targets `path/filename` only when it exists |
| ClearCommand.Clear | src/Commands/ClearSitemapCommand.php:28-80 | exactly the targets are deleted and counted, other files keep their text, both cache keys are gone, other keys stay, and the exit code is 0 |
| ClearCommand.ClearIdempotent | src/Commands/ClearSitemapCommand.php:40-68 | a second run deletes nothing and leaves storage and cache as the first run left them |
| ClearCommand.IndexModeSparesOthers | src/Commands/ClearSitemapCommand.php:45-51 | in index mode files in subdirectories and files of other types keep their text |
| ClearCommand.ClearRemovesGeneratedShard | src/Commands/ClearSitemapCommand.php:45-51 | every `.xml` file the index generator writes directly in the directory is removed |
| ClearCommand.ClearEndsCooldown | src/Commands/ClearSitemapCommand.php:67 | after a clear, the next `generateIfDue` outside local generates |

## Left out

- URL text is not parsed. `parse_url`, the percent-encoding of `http_build_query` and the bracket keys of `parse_str` are outside the model. URLs start as split records, and query pairs are written back as they are. Three URL shapes have no representation: a query segment without `=` (`?a`, which PHP's profile normaliser rewrites to `?a=` and so records as a variant), empty query segments (`?a=1&&b=2`), and userinfo (`user:pass@`, which both normalisers drop).
- Query values are written without encoding, where `http_build_query` encodes them. So two different queries can share a key: the one pair `a=x&b=1` and the two pairs `a=x`, `b=1` give the same `DedupNormalize` text, while PHP tells them apart. `Normalize.DedupDistinguishesValue` and `CrawlObserver.OtherValueIsNotModelUrl` are therefore stated only for a query that is a single pair.
- `Urls.ParseStr` keeps every `key=value` pair with its key as written. PHP's `parse_str` drops a pair whose key is empty (`=v`), strips leading spaces from a key and turns the remaining spaces and dots in it into `_`. So for a query holding such a key the model's `ProfileNormalize` and `DedupNormalize` keep a pair that PHP drops or renames. For example, `http://x/p?=v&a=1` is its own normal form here, while PHP rebuilds it as `http://x/p?a=1`.
- `KeyOrder.SortByKey` compares keys character by character. PHP's `ksort` compares numeric-string keys as numbers, and that is not modelled.
- `Text.IsNumeric` accepts plain decimal notation only. Exponents and leading or trailing blanks, which PHP's `is_numeric` also accepts, are left out.
- Priorities are counts of tenths rather than floats. Negative priorities and values with more than one decimal are not modelled.
- Dates are opaque ISO 8601 texts. Parsing the `Last-Modified` header, the fallback to the current time, Carbon conversion and `date()` are outside the model. The index's `lastmod` time is a parameter, and one time stands for every shard; the index generator calls `date()` once per shard inside its loop.
- `ModelGenerator.LastModified`: a lastmod closure that returns `null`, which `new DateTime(null)` turns into the current time, is not modelled. The closure always returns a time.
- `ModelGenerator.ProcessModel` requires a chunk size of at least 1. What Eloquent's `chunk` does with a size below 1 belongs to the framework, which this model does not include.
- `ModelGenerator.LastModified`, `ModelGenerator.ChangeFrequency` and `ModelGenerator.Priority`: a configured string that is also the name of a callable function is treated as a constant (for `lastmod`, as a column name). PHP tests `is_callable` first, so a lastmod column named like a PHP function (`date`, `time`) is called with the record and throws. The configured value of `url` or `query` is present only when callable.
- `ModelGenerator.Filtered`: the `query` callback is modelled as a filter that keeps the records' order. PHP's callback returns a query builder, which can also reorder the records (`orderBy`) or cap them (`limit`, `take`); neither is modelled. A callback that returns nothing leaves the query null, so `->chunk` throws an `Error` that the command does not catch; that failure is not modelled either.
- `ModelGenerator.Priority`: the `(float)` cast of a closure's result is not modelled. The closure returns tenths directly.
- Crawler plumbing is outside the model: Guzzle setup, concurrency, depth limits, fetching and progress output. The crawler's internal-URL check (`parent::shouldCrawl`) is a parameter. The canonical link and the modification time arrive already extracted in each `Page`.
- `in_array` is compared strictly here; PHP compares loosely. The two agree on absolute URL texts, which is what the crawler hands over; a raw canonical `href` that is a numeric string (`"10"` against `"1e1"`) would compare equal in PHP and not here.
- `Command.Collected` is the list of entries handed to Spatie's `Sitemap::add`, in order. `add` is library code, and it skips a tag loosely equal to one it already holds. That skip is not modelled, so two equal entries appear once in `getTags()` but twice in `Collected`.
- `ModelGenerator.Priority` and `XmlText.FormatPriority` pass any number of tenths through. Spatie's `Url::setPriority` clamps the priority to the range 0 to 1.0, and that clamp is not modelled.
- The base URL is not validated. The command's `filter_var(..., FILTER_VALIDATE_URL)` check, which ends the command with exit code 1, is left out. `CrawlObserver.SpecialPages` takes any base text.
- Spatie's `Sitemap::add`, `getTags` and `writeToFile` are foreign. The command's single-mode write goes through Spatie's serializer and is not modelled. The index generator's own serializer is modelled.
- `IndexGenerator.ParseFormat`: `sprintf` directives other than `%d` and `%%` are errors here, and so is a second `%d`, which PHP rejects for lack of arguments.
- Line ends are `"\n"`, the value of `PHP_EOL` on Unix-like systems. `htmlspecialchars` is modelled with its default flags on valid text; invalid UTF-8 substitution is left out.
- Storage disks, directory creation, temporary files and path normalisation by the storage layer are outside the model. Storage is one map from path text to file text.
- `SitemapGate.GetSitemapContent`: a value under the content key that is not text is treated as a miss. Nothing in the package stores one there.
- Cache expiry over time is not modelled. An entry stays until it is overwritten or forgotten, and its lifetime is recorded with it.
- The gate does not connect `public_path('sitemap.xml')` to the storage the generators write. Generation is the file it produced, given as an input.
- The console commands that only orchestrate are left out, and so are the controller, the routes and the service provider.
- `ClearCommand.ClearRemovesGeneratedShard` requires a non-empty storage path. With an empty path the joined path starts with `/`, and how the storage layer normalises that is outside the model.
