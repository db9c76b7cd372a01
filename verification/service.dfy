/**
 * `SitemapService`: a cooldown gate in front of sitemap generation. The
 * state is whether the application runs in the local environment, the
 * cache and the sitemap file. Generation runs another command whose only
 * effect seen here is the file it leaves behind, given as `produced`.
 */
module SitemapGate {
  import opened Wrappers
  import opened CacheStore

  const DefaultCooldownHours: int := 24

  datatype ServiceState = ServiceState(local: bool, cache: Store, file: Option<string>)

  function CooldownHours(configured: Option<int>): int {
    configured.GetOr(DefaultCooldownHours)
  }

  /** `shouldSkipGeneration`: always locally, otherwise while the cooldown flag is set and the file exists. */
  predicate ShouldSkip(st: ServiceState) {
    st.local || (CooldownKey in st.cache && st.file.Some?)
  }

  /**
   * `generateSitemap`: the file becomes what the command produced and, when
   * there is one, its text is cached for the cooldown period. When the
   * command leaves no file, the cache is left as it was.
   */
  function GenerateSitemap(st: ServiceState, produced: Option<string>, hours: int): (r: ServiceState)
    ensures r.local == st.local && r.file == produced
    ensures produced.Some? && hours > 0 ==> ContentKey in r.cache && r.cache[ContentKey].value == Content(produced.value)
    ensures produced.Some? && hours <= 0 ==> ContentKey !in r.cache
    ensures produced.None? ==> r.cache == st.cache
    ensures forall k :: k != ContentKey ==> (k in r.cache <==> k in st.cache) && (k in r.cache ==> r.cache[k] == st.cache[k])
  {
    var cache := if produced.Some? then Put(st.cache, ContentKey, Content(produced.value), hours) else st.cache;
    ServiceState(st.local, cache, produced)
  }

  /** `startCooldownPeriod`: the flag is set for the cooldown period. */
  function StartCooldown(st: ServiceState, hours: int): (r: ServiceState)
    ensures r.local == st.local && r.file == st.file
    ensures hours > 0 <==> CooldownKey in r.cache
    ensures forall k :: k != CooldownKey ==> (k in r.cache <==> k in st.cache) && (k in r.cache ==> r.cache[k] == st.cache[k])
  {
    st.(cache := Put(st.cache, CooldownKey, Flag, hours))
  }

  /** The answer of an operation together with the state after it. */
  datatype Answer<T> = Answer(value: T, state: ServiceState)

  /** `generateIfDue`. */
  function GenerateIfDue(st: ServiceState, produced: Option<string>, hours: int): (r: Answer<bool>)
    ensures !r.value <==> ShouldSkip(st)
    ensures !r.value ==> r.state == st
    ensures r.value ==> r.state == StartCooldown(GenerateSitemap(st, produced, hours), hours)
  {
    if ShouldSkip(st) then Answer(false, st)
    else Answer(true, StartCooldown(GenerateSitemap(st, produced, hours), hours))
  }

  /** `forceRegenerate`: generates and starts the cooldown whatever the environment and the cooldown. */
  function ForceRegenerate(st: ServiceState, produced: Option<string>, hours: int): (r: Answer<bool>)
    ensures r.value
    ensures r.state.file == produced
    ensures hours > 0 ==> CooldownKey in r.state.cache
  {
    Answer(true, StartCooldown(GenerateSitemap(st, produced, hours), hours))
  }

  /**
   * `getSitemapContent`: the cached text when there is one; otherwise the
   * sitemap is generated, without starting the cooldown, and the file read,
   * which fails when the command left none.
   */
  function GetSitemapContent(st: ServiceState, produced: Option<string>, hours: int): (r: Result<Answer<string>, string>)
    ensures ContentKey in st.cache && st.cache[ContentKey].value.Content? ==>
      r == Success(Answer(st.cache[ContentKey].value.text, st))
    ensures ContentKey !in st.cache ==>
      (r.Success? <==> produced.Some?)
      && (r.Success? ==> r.value.value == produced.value && r.value.state == GenerateSitemap(st, produced, hours))
  {
    if ContentKey in st.cache && st.cache[ContentKey].value.Content? then Success(Answer(st.cache[ContentKey].value.text, st))
    else
      var after := GenerateSitemap(st, produced, hours);
      match after.file
      case None => Failure("File does not exist at path sitemap.xml")
      case Some(text) => Success(Answer(text, after))
  }

  /** The local environment never generates and never changes the state. */
  lemma LocalNeverGenerates(st: ServiceState, produced: Option<string>, hours: int)
    requires st.local
    ensures GenerateIfDue(st, produced, hours) == Answer(false, st)
  {
  }

  /**
   * After a run that produced a file with a positive cooldown, the next
   * `generateIfDue` declines, whatever it would produce; the cached text is
   * the file's text.
   */
  lemma CooldownBlocksNextRun(st: ServiceState, text: string, hours: int, next: Option<string>)
    requires !st.local && hours > 0
    requires !ShouldSkip(st)
    ensures var first := GenerateIfDue(st, Some(text), hours);
      && first.value
      && first.state.cache[ContentKey].value == Content(text)
      && GenerateIfDue(first.state, next, hours) == Answer(false, first.state)
  {
  }

  /** With a cooldown of zero hours or less nothing is cached, so every outside-local call generates again. */
  lemma NoCooldownAlwaysGenerates(st: ServiceState, produced: Option<string>, hours: int, next: Option<string>)
    requires !st.local && hours <= 0
    requires CooldownKey !in st.cache
    ensures var first := GenerateIfDue(st, produced, hours);
      && first.value
      && CooldownKey !in first.state.cache
      && GenerateIfDue(first.state, next, hours).value
  {
  }

  /** Once the text is cached, reading it twice gives the same text and no generation happens. */
  lemma ContentServedFromCache(st: ServiceState, produced: Option<string>, hours: int, other: Option<string>)
    requires ContentKey !in st.cache && produced.Some? && hours > 0
    ensures var first := GetSitemapContent(st, produced, hours);
      && first == Success(Answer(produced.value, GenerateSitemap(st, produced, hours)))
      && GetSitemapContent(first.value.state, other, hours) == Success(Answer(produced.value, first.value.state))
  {
  }

  /** Reading the content on a miss never starts the cooldown. */
  lemma ContentMissKeepsCooldown(st: ServiceState, produced: Option<string>, hours: int)
    requires ContentKey !in st.cache
    ensures var r := GetSitemapContent(st, produced, hours);
      r.Success? ==> (CooldownKey in r.value.state.cache <==> CooldownKey in st.cache)
  {
  }
}
