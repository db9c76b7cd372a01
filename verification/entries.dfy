/**
 * One `<url>` entry of a sitemap, as the crawl observer and the record
 * sources produce it and the generators write it.
 */
module Entries {
  import opened Wrappers
  import opened Urls

  /** A point in time, kept as the ISO 8601 text the sitemap writes; dates are never computed with. */
  datatype Instant = Instant(iso8601: string)

  /**
   * A sitemap entry. The priority is a count of tenths (0.7 is 7), the
   * precision with which it is written.
   */
  datatype Entry = Entry(
    loc: Url,
    lastmod: Option<Instant>,
    changefreq: Option<string>,
    priority: Option<nat>)

  const Daily: string := "daily"
  const Monthly: string := "monthly"

  /** An entry carrying only its location (`Url::create`). */
  function Bare(u: Url): (e: Entry)
    ensures e.loc == u && e.lastmod.None? && e.changefreq.None? && e.priority.None?
  {
    Entry(u, None, None, None)
  }
}
