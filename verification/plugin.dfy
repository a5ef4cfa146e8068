/**
 The plugin's three entry points, `startup`, `search` and `execute`, as
 functions from the cache slot, the clock reading and the fetch outcome to
 the new slot and the sequence of events the launcher observes.
 */
module Plugin {
  import opened TrendingData
  import opened Cache
  import opened Formatter

  /** What the launcher sees, in order. */
  datatype Event =
    | Reply(items: seq<DisplayItem>)   // rows added through the reply callback
    | RemoveReply(id: string)          // the row with this id is withdrawn
    | Resolve(items: seq<DisplayItem>) // the search finished with these rows
    | Reject                           // the search failed
    | OpenExternal(url: string)        // the browser is asked to open this url

  /** The slot after one search, the events it produced, and whether it fetched. */
  datatype SearchRun = SearchRun(state: CacheState, events: seq<Event>, fetched: bool)

  /** `startup`: one cache lookup whose answer is discarded; only the slot survives. */
  function Startup(s: CacheState, nowMs: int, outcome: FetchOutcome): (s': CacheState)
    ensures IsFresh(s, nowMs) ==> s' == s
    ensures outcome.FetchFailed? ==> s' == s
    ensures !IsFresh(s, nowMs) && outcome.Fetched? ==>
              s' == CacheState(outcome.repos, outcome.completedMs)
  {
    FetchRepos(s, nowMs, outcome).state
  }

  /**
   `search`. The query is accepted and ignored. The placeholder row is
   always the first event; the placeholder is withdrawn only when the list
   arrives, and a failed fetch ends the search with no withdrawal.
   */
  function Search(s: CacheState, query: string, nowMs: int, outcome: FetchOutcome): (r: SearchRun)
    ensures 2 <= |r.events| <= 3
    ensures r.events[0] == Reply([Placeholder])
    ensures RemoveReply(TempId) in r.events <==> r.events[|r.events| - 1].Resolve?
    ensures r.events[|r.events| - 1].Reject? <==> !IsFresh(s, nowMs) && outcome.FetchFailed?
    ensures r.events[|r.events| - 1].Reject? ==> r.state == s
    ensures r.fetched <==> !IsFresh(s, nowMs)
  {
    var step := FetchRepos(s, nowMs, outcome);
    var shown := [Reply([Placeholder])];
    match step.reply
    case None => SearchRun(step.state, shown + [Reject], step.fetched)
    case Some(repos) =>
      SearchRun(step.state, shown + [RemoveReply(TempId), Resolve(Format(repos))], step.fetched)
  }

  /** `execute`: the placeholder cannot be opened; any other id is opened as a url. */
  function Execute(id: string): (events: seq<Event>)
    ensures id == TempId ==> events == []
    ensures id != TempId ==> events == [OpenExternal(id)]
  {
    if id == TempId then [] else [OpenExternal(id)]
  }

  /** A search on a fresh slot lists the cached repositories and fetches nothing. */
  lemma SearchHit(s: CacheState, query: string, nowMs: int, outcome: FetchOutcome)
    requires IsFresh(s, nowMs)
    ensures Search(s, query, nowMs, outcome) ==
              SearchRun(s, [Reply([Placeholder]), RemoveReply(TempId), Resolve(Format(s.cachedRepos))], false)
  {
  }

  /** A search on a stale slot that fetches successfully lists and caches the new repositories. */
  lemma SearchSuccessfulMiss(s: CacheState, query: string, nowMs: int, repos: seq<Repo>, completedMs: int)
    requires !IsFresh(s, nowMs)
    ensures Search(s, query, nowMs, Fetched(repos, completedMs)) ==
              SearchRun(CacheState(repos, completedMs),
                        [Reply([Placeholder]), RemoveReply(TempId), Resolve(Format(repos))], true)
  {
  }

  /**
   A search on a stale slot whose fetch fails rejects: it serves neither the
   stale list nor an empty one, keeps the slot and leaves the placeholder up.
   */
  lemma SearchFailedMiss(s: CacheState, query: string, nowMs: int)
    requires !IsFresh(s, nowMs)
    ensures Search(s, query, nowMs, FetchFailed) == SearchRun(s, [Reply([Placeholder]), Reject], true)
    ensures forall e :: e in Search(s, query, nowMs, FetchFailed).events ==> !e.Resolve? && !e.RemoveReply?
  {
  }

  /**
   Every row a successful search lists opens its repository's url when
   executed, unless that url happens to be the placeholder id.
   */
  lemma ExecuteListedRow(s: CacheState, query: string, nowMs: int, outcome: FetchOutcome, i: nat)
    requires Search(s, query, nowMs, outcome).events[|Search(s, query, nowMs, outcome).events| - 1].Resolve?
    requires i < |Search(s, query, nowMs, outcome).events[|Search(s, query, nowMs, outcome).events| - 1].items|
    ensures var r := Search(s, query, nowMs, outcome);
            var row := r.events[|r.events| - 1].items[i];
            var repos := FetchRepos(s, nowMs, outcome).reply.value;
            && row.id == repos[i].url
            && (repos[i].url != TempId ==> Execute(row.id) == [OpenExternal(repos[i].url)])
  {
  }

  /** Selecting the placeholder row never opens anything. */
  lemma ExecutePlaceholderIsNoOp()
    ensures Execute(Placeholder.id) == []
  {
  }

  /**
   After a successful warm-up at start-up, a search made within the cache
   duration of the fetch's completion is served from the cache.
   */
  lemma WarmStartupServesSearch(s: CacheState, startMs: int, repos: seq<Repo>, completedMs: int,
                                query: string, nowMs: int, outcome: FetchOutcome)
    requires !IsFresh(s, startMs)
    requires nowMs <= completedMs + CacheDurationMs
    ensures var warm := Startup(s, startMs, Fetched(repos, completedMs));
            Search(warm, query, nowMs, outcome) ==
              SearchRun(warm, [Reply([Placeholder]), RemoveReply(TempId), Resolve(Format(repos))], false)
  {
  }

  /** The row for a Go repository with five stars, built from the fixed markup pieces. */
  lemma GoRepoRow()
    ensures FormatRepo(Repo("u", "t", "o", "Go", 5, "d")) ==
              DisplayItem("u", TitleOpen + "t" + TitleClose + "o",
                          BadgeSpan("#00796b", "Go") + Separator + "5" + Separator + "d", None)
  {
    GoIsGreen();
    assert BadgeText("Go") == "Go";
    assert Text.Decimal(5) == "5";
  }

  /**
   The end-to-end scenario: an empty plugin, a search at a real epoch time,
   and one Go repository delivered by the provider.
   */
  lemma FirstSearchScenario(nowMs: int, completedMs: int)
    requires nowMs > CacheDurationMs
    ensures var repo := Repo("u", "t", "o", "Go", 5, "d");
            var r := Search(Initial, "anything", nowMs, Fetched([repo], completedMs));
            && r.events == [
                 Reply([DisplayItem("__trending", "fetching...", "from Github.com", Some("#fa fa-circle-o-notch fa-spin"))]),
                 RemoveReply("__trending"),
                 Resolve([DisplayItem("u", TitleOpen + "t" + TitleClose + "o",
                                      BadgeSpan("#00796b", "Go") + Separator + "5" + Separator + "d", None)])]
            && r.state == CacheState([repo], completedMs)
            && r.fetched
  {
    var repo := Repo("u", "t", "o", "Go", 5, "d");
    GoRepoRow();
    assert Format([repo]) == [FormatRepo(repo)];
  }
}
