/**
 `fetchRepos` as a pure transition on the plugin's single cache slot.

 The slot holds the last successfully fetched list and the wall-clock time
 (ms) at which it was stored. A call at time `nowMs` is a hit when the slot
 is at most `CacheDurationSec` seconds old; otherwise the remote provider is
 consulted, and its outcome is an input of the transition.
 */
module Cache {
  import opened TrendingData

  datatype CacheState = CacheState(cachedRepos: seq<Repo>, lastFetchMs: int)

  /** The slot at plugin construction: an empty list stamped at time zero. */
  const Initial: CacheState := CacheState([], 0)

  /**
   One step of `fetchRepos`: the new slot, the value handed to the callback
   (`None` for `null`) and whether the remote provider was called.
   */
  datatype Step = Step(state: CacheState, reply: Option<seq<Repo>>, fetched: bool)

  /**
   The freshness test. `fetchRepos` divides the age by 1000 and compares
   seconds; for integer milliseconds that is the same as a millisecond bound.
   */
  predicate IsFresh(s: CacheState, nowMs: int)
    ensures IsFresh(s, nowMs) <==>
              (nowMs - s.lastFetchMs) as real / 1000.0 <= CacheDurationSec as real
  {
    nowMs - s.lastFetchMs <= CacheDurationMs
  }

  /**
   `fetchRepos`. The list-truthiness guard in front of the freshness test is
   always true for a list, so an empty cached list is served like any other.
   */
  function FetchRepos(s: CacheState, nowMs: int, outcome: FetchOutcome): (r: Step)
    // a hit serves the slot unchanged and makes no remote call
    ensures IsFresh(s, nowMs) ==> r == Step(s, Some(s.cachedRepos), false)
    // a miss always calls the provider
    ensures !IsFresh(s, nowMs) ==> r.fetched
    // a successful miss replaces the whole slot and serves the new list
    ensures !IsFresh(s, nowMs) && outcome.Fetched? ==>
              && r.state == CacheState(outcome.repos, outcome.completedMs)
              && r.reply == Some(outcome.repos)
    // a failed miss keeps the slot and hands `null` to the callback
    ensures !IsFresh(s, nowMs) && outcome.FetchFailed? ==>
              r.state == s && r.reply.None?
  {
    if IsFresh(s, nowMs) then
      Step(s, Some(s.cachedRepos), false)
    else
      match outcome
      case FetchFailed => Step(s, None, true)
      case Fetched(repos, completedMs) => Step(CacheState(repos, completedMs), Some(repos), true)
  }

  /** One call of `fetchRepos`: its clock reading and what the provider would answer. */
  datatype Call = Call(nowMs: int, outcome: FetchOutcome)

  /** The slot after a run of calls, the callback values in order, and the number of remote calls. */
  datatype Run = Run(state: CacheState, replies: seq<Option<seq<Repo>>>, fetches: nat)

  /** Calls `fetchRepos` once per element of `calls`, threading the slot. */
  function RunCalls(s: CacheState, calls: seq<Call>): (r: Run)
    ensures |r.replies| == |calls|
    ensures r.fetches <= |calls|
    decreases |calls|
  {
    if |calls| == 0 then Run(s, [], 0)
    else
      var step := FetchRepos(s, calls[0].nowMs, calls[0].outcome);
      var rest := RunCalls(step.state, calls[1..]);
      Run(rest.state, [step.reply] + rest.replies, rest.fetches + (if step.fetched then 1 else 0))
  }

  /** Every call happens no later than the slot's expiry. */
  predicate AllWithinTtl(s: CacheState, calls: seq<Call>)
  {
    forall i :: 0 <= i < |calls| ==> calls[i].nowMs - s.lastFetchMs <= CacheDurationMs
  }

  /**
   Calls made while the slot is fresh never reach the provider, all receive
   the cached list (even an empty one), and leave the slot untouched.
   */
  lemma {:induction false} RunWithinTtlNeverFetches(s: CacheState, calls: seq<Call>)
    requires AllWithinTtl(s, calls)
    ensures RunCalls(s, calls).fetches == 0
    ensures RunCalls(s, calls).state == s
    ensures forall i :: 0 <= i < |calls| ==> RunCalls(s, calls).replies[i] == Some(s.cachedRepos)
  {
    if |calls| > 0 {
      var step := FetchRepos(s, calls[0].nowMs, calls[0].outcome);
      assert step.state == s && !step.fetched;
      assert AllWithinTtl(s, calls[1..]) by {
        forall i | 0 <= i < |calls[1..]|
          ensures calls[1..][i].nowMs - s.lastFetchMs <= CacheDurationMs
        {
          assert calls[1..][i] == calls[i + 1];
        }
      }
      RunWithinTtlNeverFetches(s, calls[1..]);
    }
  }

  /** A run whose first call finds the slot stale makes at least one remote call. */
  lemma StaleRunFetches(s: CacheState, calls: seq<Call>)
    requires |calls| > 0
    requires !IsFresh(s, calls[0].nowMs)
    ensures RunCalls(s, calls).fetches >= 1
  {
  }

  /**
   After a successful fetch that completed at time `t`, every later call up
   to `t` plus the cache duration is served the fetched list with no further
   remote call.
   */
  lemma AfterSuccessHitsWithinTtl(s: CacheState, first: Call, later: seq<Call>)
    requires !IsFresh(s, first.nowMs)
    requires first.outcome.Fetched?
    requires forall i :: 0 <= i < |later| ==> later[i].nowMs <= first.outcome.completedMs + CacheDurationMs
    ensures RunCalls(s, [first] + later).fetches == 1
    ensures forall i :: 1 <= i <= |later| ==>
              RunCalls(s, [first] + later).replies[i] == Some(first.outcome.repos)
  {
  }

  /** A call one millisecond past the cache duration goes to the provider exactly once. */
  lemma ExpiredCallFetchesOnce(s: CacheState, outcome: FetchOutcome)
    ensures FetchRepos(s, s.lastFetchMs + CacheDurationMs + 1, outcome).fetched
    ensures RunCalls(s, [Call(s.lastFetchMs + CacheDurationMs + 1, outcome)]).fetches == 1
  {
  }

  /** From the initial slot, the first call at any real epoch time is a miss. */
  lemma InitialCallIsMiss(nowMs: int, outcome: FetchOutcome)
    requires nowMs > CacheDurationMs
    ensures FetchRepos(Initial, nowMs, outcome).fetched
    ensures outcome.FetchFailed? ==> FetchRepos(Initial, nowMs, outcome).reply.None?
  {
  }

  /** Call `i` of the run actually reached the provider, and the provider answered. */
  predicate FetchedAt(s: CacheState, calls: seq<Call>, i: int)
    requires 0 <= i < |calls|
  {
    && calls[i].outcome.Fetched?
    && FetchRepos(RunCalls(s, calls[..i]).state, calls[i].nowMs, calls[i].outcome).fetched
  }

  /**
   The slot only ever holds what it started with or exactly what a call of
   the run fetched from the provider: a failed fetch, and an answer a hit
   never asked for, never reach it.
   */
  lemma {:induction false} RunStateComesFromFetches(s: CacheState, calls: seq<Call>)
    ensures var st := RunCalls(s, calls).state;
            || st == s
            || exists i :: 0 <= i < |calls| && FetchedAt(s, calls, i) &&
                 st == CacheState(calls[i].outcome.repos, calls[i].outcome.completedMs)
    decreases |calls|
  {
    if |calls| > 0 {
      var step := FetchRepos(s, calls[0].nowMs, calls[0].outcome);
      RunStateComesFromFetches(step.state, calls[1..]);
      var st := RunCalls(s, calls).state;
      if st != step.state {
        var i :| 0 <= i < |calls[1..]| && FetchedAt(step.state, calls[1..], i) &&
                 st == CacheState(calls[1..][i].outcome.repos, calls[1..][i].outcome.completedMs);
        assert calls[1..][i] == calls[i + 1];
        assert calls[..i + 1][0] == calls[0];
        assert calls[..i + 1][1..] == calls[1..][..i];
        assert RunCalls(s, calls[..i + 1]).state == RunCalls(step.state, calls[1..][..i]).state;
        assert FetchedAt(s, calls, i + 1);
      } else if step.state != s {
        assert calls[..0] == [];
        assert FetchedAt(s, calls, 0);
      }
    }
  }
}
