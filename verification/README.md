# hain-plugin-trending, modelled in Dafny

The plugin lets the hain launcher list GitHub's trending repositories and
open one in the browser. All of its logic lives in `index.js`:

- `fetchRepos` keeps one cache slot, `(cachedRepos, lastFetchTime)`. It serves
  the slot while it is at most 30 minutes old. Otherwise it asks the remote
  provider. A successful answer replaces the slot wholesale. A failure leaves
  the slot alone and hands `null` to the callback.
- `search` shows a "fetching..." placeholder row, obtains the list through
  `fetchRepos`, withdraws the placeholder and returns one display row per
  repository. A row has a bold title with the owner and a coloured language
  badge followed by the star count and the description.
- `execute` opens the selected row's id as a URL, unless the id is the
  placeholder's.
- `startup` warms the cache with one `fetchRepos` call and ignores the answer.

The model is functional. The wall clock and the provider's answer are
parameters, and each entry point returns the new cache slot and the
sequence of events the launcher sees.

| file | module | models |
|---|---|---|
| `trending_data.dfy` | `TrendingData` | repository records, display rows, fetch outcomes, `TEMP_ID`, `CACHE_DURATION_SEC`, the placeholder row |
| `text.dfy` | `Text` | `toLowerCase` on ASCII letters, case-insensitive equality, decimal rendering of the star count |
| `cache.dfy` | `Cache` | `fetchRepos` as a transition, and runs of successive calls |
| `formatter.dfy` | `Formatter` | `LANG_COLORS`, the colour lookup, the record-to-row map inside `search` |
| `plugin.dfy` | `Plugin` | `startup`, `search`, `execute` as event traces |

Three details of the code shape the model:

- An empty cached list is still served while it is fresh. The guard
  `if (cachedRepos)` tests an array, which is always truthy (index.js:30),
  so emptiness never forces a fetch.
- The slot is stamped by a second `Date.now()` inside the provider callback
  (index.js:42), not by the clock reading of the freshness test. A successful
  `Fetched` outcome therefore carries its own completion time.
- The age is kept in milliseconds and divided by 1000 before it is compared
  with 1800 seconds (index.js:31-32). `Cache.IsFresh` compares milliseconds
  with 1 800 000, and its contract proves this equals the exact quotient
  test over the reals.

## Model

| member | source | states |
|---|---|---|
| Cache.IsFresh | index.js:31-32 | the millisecond bound `now - last <= 1800000` holds exactly when the age divided by 1000 is at most `CACHE_DURATION_SEC` |
| Cache.FetchRepos | index.js:29-45 | hit: the slot is returned unchanged with no fetch, even an empty list; miss: the provider is called; success replaces the whole slot with the fetched list stamped at completion and serves it; failure keeps the slot and hands `null` |
| Cache.RunCalls | index.js:29-45 | a run of calls yields one callback value per call and at most one remote fetch per call |
| Cache.RunWithinTtlNeverFetches | index.js:30-34 | any number of calls within the cache duration of the slot's stamp make no fetch, all receive the cached list, and leave the slot unchanged |
| Cache.StaleRunFetches | index.js:30-37 | a run whose first call finds the slot stale makes at least one remote fetch |
| Cache.AfterSuccessHitsWithinTtl | index.js:37-43 | after one successful miss, later calls within the cache duration of its completion are served the fetched list, and the whole run makes exactly one fetch |
| Cache.ExpiredCallFetchesOnce | index.js:31-37 | a call one millisecond past the cache duration goes to the provider exactly once |
| Cache.InitialCallIsMiss | index.js:26-27 | from the initial `([], 0)` slot, the first call at any time past 1 800 000 ms is a miss, and a failure then hands `null` |
| Cache.RunStateComesFromFetches | index.js:37-44 | after any run, the slot is either the starting slot or exactly the list and completion time of one call of that run that missed, reached the provider and got a list back; failed fetches and answers a hit never asked for never reach the slot |
| Text.Lower | index.js:73 | the lower-case form has the same length; each character is lower-cased if it is an ASCII capital and otherwise kept |
| Text.LowerEqualIffEqualIgnoringCase | index.js:73 | two strings have the same lower-case form exactly when they are equal position by position ignoring ASCII case |
| Text.LowerIsLowerCase | index.js:73 | the lower-case form contains no upper-case letter and lower-casing it again changes nothing |
| Text.Decimal | index.js:77 | the star count renders as a non-empty string of digits with no leading zero, and a single digit exactly when the count is below 10 |
| Text.ParseDecimalOfDecimal | index.js:77 | reading the rendered star count back as a decimal numeral gives the count |
| Text.DecimalOfParseDecimal | index.js:77 | every canonical decimal numeral is the rendering of the number it denotes |
| Text.DecimalInjective | index.js:77 | different star counts render differently |
| Formatter.LangColorsWellFormed | index.js:11-22 | every key of `LANG_COLORS` is lower-case and every colour, like the default, is a `#rrggbb` string |
| Formatter.LangColor | index.js:73 | every language is given a well-formed `#rrggbb` colour |
| Formatter.LangColorMatchesTable | index.js:73 | a language gets a table colour exactly when it equals that key ignoring case; when it matches no key it gets `#e65100` |
| Formatter.LangColorIgnoresCase | index.js:73 | spellings that differ only in case get the same colour |
| Formatter.BadgeText | index.js:69-72 | the badge text is never empty, and it is the language as written whenever the language is non-empty |
| Formatter.FormatRepo | index.js:74-78 | a row's id is the repository's url and a row carries no icon |
| Formatter.Format | index.js:68-79 | the rows have the same length and order as the records, each row formatted from its own record |
| Formatter.TitleLayout | index.js:76 | the title is `<b>`, the title, `</b> by `, then the owner, each at its computed offset |
| Formatter.DescLayout | index.js:77 | the description is, piece by piece at computed offsets: the span opening up to `background-color: `, the badge colour, `; color: #ffffff; padding: 2px'>`, the badge text, `</span> / `, the star count (which reads back to the record's count), then ` / ` and the description |
| Formatter.EmptyLanguageBadge | index.js:69-77 | a record with an empty language shows the badge "None" in `#e65100` |
| Formatter.KnownLanguageBadge | index.js:73-77 | a language whose lower-case form is a table key keeps its own spelling in the badge and gets that key's colour |
| Formatter.GoIsGreen | index.js:20 | "Go" and "GO" both get `#00796b` |
| Formatter.UnknownLanguageIsDefault | index.js:73 | "Brainfuck" gets the default `#e65100` |
| Plugin.Startup | index.js:47-49 | the warm-up keeps the slot on a hit or a failure and stores the fetched list on a successful miss |
| Plugin.Search | index.js:51-80 | the placeholder reply is always the first event; the placeholder is withdrawn exactly when the search resolves; it rejects exactly on a stale slot with a failed fetch, and then the slot is unchanged; it fetches exactly when the slot is stale |
| Plugin.Execute | index.js:82-86 | the placeholder id opens nothing; any other id opens exactly one URL, that id |
| Plugin.SearchHit | index.js:51-79 | on a fresh slot: placeholder, withdrawal, the cached list formatted, no fetch, slot unchanged |
| Plugin.SearchSuccessfulMiss | index.js:51-79 | on a stale slot with a successful fetch: placeholder, withdrawal, the fetched list formatted, and the slot now holds that list |
| Plugin.SearchFailedMiss | index.js:51-65 | on a stale slot with a failed fetch: placeholder then rejection, with no withdrawal and no list, stale or empty; the slot is unchanged |
| Plugin.ExecuteListedRow | index.js:75 | every row a search lists carries its repository's url as id, and executing it opens that url unless the url is the placeholder id |
| Plugin.ExecutePlaceholderIsNoOp | index.js:83-84 | selecting the placeholder row opens nothing |
| Plugin.WarmStartupServesSearch | index.js:47-49 | after a successful warm-up, a search within the cache duration of its completion is served from the cache without fetching |
| Plugin.GoRepoRow | index.js:74-78 | the row for `{url "u", title "t", owner "o", language "Go", star 5, description "d"}` is `<b>t</b> by o` with a `#00796b` "Go" badge, then ` / 5 / d` |
| Plugin.FirstSearchScenario | index.js:51-79 | on an empty plugin, a search that fetches that one Go repository shows the placeholder, withdraws it, resolves with that one row, and stores the list |

## Left out

- The remote provider (`github-trending`) is not modelled. Its answer is the `FetchOutcome` parameter: a list plus the clock reading at completion, or a failure. Its error value is discarded by the code and has no content here.
- `Date.now()` is replaced by integer millisecond parameters.
- `shell.openExternal` is not modelled. It appears only as the `OpenExternal` event.
- The `co` generators and the promise around `fetchRepos` are replaced by plain sequential functions. A rejected promise is the `Reject` event, and the returned list is the `Resolve` event.
- Concurrent searches are not modelled: overlapping fetches and their last-writer-wins updates to the slot. Each entry point runs to completion before the next one starts. In particular, the start-up warm-up is taken to finish before the next search.
- `execute`'s `payload` argument is not modelled because the code never reads it. The same holds for the content of `search`'s `query`, which the code ignores.
- A provider that never calls back is not modelled. `trending(...)` at index.js:37 sets no timeout, so such a search would stay pending after the placeholder reply, and the slot would keep its value. Every `FetchOutcome` is a settled answer, which is why `Plugin.Search` always ends in `Resolve` or `Reject`.
- A provider success whose value is not an array (for example `undefined`) is not modelled. Such a value would make the truthiness guard false.
- Text.Lower: only ASCII letters are lower-cased, not all of Unicode. Every `LANG_COLORS` key is ASCII lower-case. The only non-ASCII letters whose lower-case form contains ASCII are the Kelvin sign (to `k`, a letter no key contains) and `İ` (to `i` followed by a combining dot, which no key contains). So the colour chosen is the same.
- Formatter.LangColor: the lookup is a plain finite map with a default. The path syntax of lodash `_.get` (`.` and `[` inside the language name) and inherited object members such as `constructor` are not modelled.
- Text.Decimal: the star count is a non-negative integer rendered with all its decimal digits. This matches JavaScript only up to 2^53: above that a JS number prints its shortest round-trip digits (`String(2**60)` is `"1152921504606847000"`), and from 10^21 it uses exponent form. Non-integer star values are not modelled either.
- Markup is concatenated as written and never escaped or rendered. The placeholder's spinner icon is carried as an opaque string.
