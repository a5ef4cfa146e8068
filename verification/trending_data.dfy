/**
 The entities of the trending plugin: the repository records the remote
 provider delivers, the display items handed to the launcher, the outcome of
 one remote fetch, and the plugin's fixed constants.
 */
module TrendingData {

  /** A value or nothing; stands for a list-or-`null` handed to a callback. */
  datatype Option<+T> = None | Some(value: T)

  /** One trending repository as the provider delivers it. */
  datatype Repo = Repo(
    url: string,
    title: string,
    owner: string,
    language: string,   // may be empty
    star: nat,
    description: string)

  /** One row shown by the launcher; only the placeholder carries an icon. */
  datatype DisplayItem = DisplayItem(
    id: string,
    title: string,
    desc: string,
    icon: Option<string>)

  /**
   The result of one call to the remote provider. A successful fetch also
   carries the wall-clock time (ms) at which its callback ran, because the
   cache stamps itself with the clock read at completion, not at the start.
   */
  datatype FetchOutcome =
    | Fetched(repos: seq<Repo>, completedMs: int)
    | FetchFailed

  /** Id of the "fetching..." placeholder row; never opened by `execute`. */
  const TempId: string := "__trending"

  /** How long a fetched list is served from the cache, in seconds. */
  const CacheDurationSec: nat := 30 * 60

  /** The same bound in milliseconds, the unit of the wall clock. */
  const CacheDurationMs: nat := CacheDurationSec * 1000

  /** The placeholder row `search` shows while the list is being fetched. */
  const Placeholder: DisplayItem :=
    DisplayItem(TempId, "fetching...", "from Github.com", Some("#fa fa-circle-o-notch fa-spin"))
}
