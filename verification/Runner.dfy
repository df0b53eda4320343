/** Retries and polling: internal/indexer/runner.go. */
module Runner {
  import opened Domain
  import opened Memory
  import opened Syncer
  import opened SyncSafety

  /** Nanoseconds in a signed 64-bit integer. */
  type Duration = x: int | -MAX_INT64 - 1 <= x <= MAX_INT64

  /** What a synchronization makes of a store; the runner takes it as a parameter. */
  type Sync = (Ledger, Env) -> Result<Cycle>

  datatype RunConfig = RunConfig(
    sync: Config,
    pollInterval: Duration,
    retryAttempts: int,
    retryMinBackoff: Duration,
    retryMaxBackoff: Duration)

  /** What one attempt meets: its cycle, and whether the context is done after it or during the wait that follows. */
  datatype Attempt = Attempt(env: Env, cancelled: bool, waitInterrupted: bool)

  /**
   * One call of the retry loop, the poll wait before it, and whether the context is done when its
   * error is looked at.
   */
  datatype Round = Round(waitInterrupted: bool, attempts: nat -> Attempt, cancelled: bool)

  datatype RetryResult =
    | Synced(result: SyncResult)
    | Interrupted
    | Permanent(error: Error)
    | Exhausted(attempts: nat, error: Error)

  datatype RunResult =
    | Misconfigured(error: Error)
    | InitialFailure(failure: RetryResult)
    | ContextDone

  predicate ValidBackoff(c: RunConfig) {
    c.retryAttempts >= 0 && 0 < c.retryMinBackoff <= c.retryMaxBackoff
  }

  predicate IsPermanent(e: Error) {
    e in {InvalidSyncConfig, InvalidSyncDependency, InvalidCanonicalUpdate, InconsistentData}
  }

  function RunConfigError(c: RunConfig): (e: Option<Error>)
    ensures e == None <==> ConfigError(c.sync) == None && c.pollInterval > 0 && ValidBackoff(c)
    ensures e.Some? ==> IsPermanent(e.value)
  {
    if ConfigError(c.sync).Some? then ConfigError(c.sync)
    else if c.pollInterval <= 0 then Some(InvalidSyncConfig)
    else if c.retryAttempts < 0 then Some(InvalidSyncConfig)
    else if c.retryMinBackoff <= 0 then Some(InvalidSyncConfig)
    else if c.retryMaxBackoff <= 0 then Some(InvalidSyncConfig)
    else if c.retryMinBackoff > c.retryMaxBackoff then Some(InvalidSyncConfig)
    else None
  }

  /** Doubling that cannot overflow: the comparison looks at the room left below the maximum. */
  function NextRetryBackoff(current: Duration, maximum: Duration): (next: Duration)
    requires 0 < current && 0 < maximum
    ensures next == if 2 * current < maximum then 2 * current else maximum
  {
    if current >= maximum || current > maximum - current then maximum else current * 2
  }

  /** `first` doubled `k` times. */
  function Doubled(first: int, k: nat): (d: int) {
    if k == 0 then first else 2 * Doubled(first, k - 1)
  }

  /** The wait after `k + 1` failures. */
  function Backoff(c: RunConfig, k: nat): (d: Duration)
    requires ValidBackoff(c)
    ensures 0 < d <= c.retryMaxBackoff
  {
    if k == 0 then c.retryMinBackoff else NextRetryBackoff(Backoff(c, k - 1), c.retryMaxBackoff)
  }

  /** Backoff is exponential up to its cap. */
  lemma {:induction false} BackoffIsCappedDoubling(c: RunConfig, k: nat)
    requires ValidBackoff(c)
    ensures Backoff(c, k) == if Doubled(c.retryMinBackoff, k) < c.retryMaxBackoff
                             then Doubled(c.retryMinBackoff, k) else c.retryMaxBackoff
  {
    if k > 0 {
      BackoffIsCappedDoubling(c, k - 1);
    }
  }

  /** The loop goes on after this attempt, if attempts are left. */
  predicate Retryable(cycle: Result<Cycle>, a: Attempt) {
    cycle.Err? && !a.cancelled && !IsPermanent(cycle.error)
  }

  datatype Retried = Retried(result: RetryResult, calls: nat, waits: seq<Duration>)

  /** The retry loop from its `k`-th retry on; a failed attempt leaves the store, so all start from `s`. */
  function Retry(sync: Sync, s: Ledger, c: RunConfig, attempts: nat -> Attempt, waits: seq<Duration>, k: nat)
    : (r: Retried)
    requires ValidBackoff(c) && k <= c.retryAttempts
    decreases c.retryAttempts - k
  {
    var cycle := sync(s, attempts(k).env);
    if cycle.Ok? then Retried(Synced(cycle.value.result), k + 1, waits)
    else if attempts(k).cancelled then Retried(Interrupted, k + 1, waits)
    else if IsPermanent(cycle.error) then Retried(Permanent(cycle.error), k + 1, waits)
    else if k >= c.retryAttempts then Retried(Exhausted(k + 1, cycle.error), k + 1, waits)
    else if attempts(k).waitInterrupted then Retried(Interrupted, k + 1, waits + [Backoff(c, k)])
    else Retry(sync, s, c, attempts, waits + [Backoff(c, k)], k + 1)
  }

  /** What the last attempt must have been for a given outcome. */
  predicate Explains(c: RunConfig, cycle: Result<Cycle>, last: Attempt, calls: nat, r: RetryResult) {
    match r
    case Synced(result) => cycle.Ok? && cycle.value.result == result
    case Interrupted => cycle.Err? && (last.cancelled || (Retryable(cycle, last) && last.waitInterrupted))
    case Permanent(e) => cycle == Err(e) && !last.cancelled && IsPermanent(e)
    case Exhausted(n, e) => cycle == Err(e) && Retryable(cycle, last) && n == calls == c.retryAttempts + 1
  }

  lemma {:induction false} RetryCalls(sync: Sync, s: Ledger, c: RunConfig, attempts: nat -> Attempt,
                                      waits: seq<Duration>, k: nat)
    requires ValidBackoff(c) && k <= c.retryAttempts
    ensures var r := Retry(sync, s, c, attempts, waits, k);
            && k < r.calls <= c.retryAttempts + 1
            && (forall i | k <= i < r.calls - 1 ::
                   Retryable(sync(s, attempts(i).env), attempts(i)) && !attempts(i).waitInterrupted)
            && Explains(c, sync(s, attempts(r.calls - 1).env), attempts(r.calls - 1), r.calls, r.result)
    decreases c.retryAttempts - k
  {
    if Retryable(sync(s, attempts(k).env), attempts(k)) && k < c.retryAttempts && !attempts(k).waitInterrupted {
      RetryCalls(sync, s, c, attempts, waits + [Backoff(c, k)], k + 1);
    }
  }

  predicate AreBackoffs(c: RunConfig, waits: seq<Duration>)
    requires ValidBackoff(c)
  {
    forall i | 0 <= i < |waits| :: waits[i] == Backoff(c, i)
  }

  lemma {:induction false} RetryWaits(sync: Sync, s: Ledger, c: RunConfig, attempts: nat -> Attempt,
                                      waits: seq<Duration>, k: nat)
    requires ValidBackoff(c) && k <= c.retryAttempts
    requires |waits| == k && AreBackoffs(c, waits)
    ensures var r := Retry(sync, s, c, attempts, waits, k);
            && (|r.waits| == r.calls - 1 || (|r.waits| == r.calls && r.result == Interrupted))
            && AreBackoffs(c, r.waits)
    decreases c.retryAttempts - k
  {
    assert AreBackoffs(c, waits + [Backoff(c, k)]);
    if Retryable(sync(s, attempts(k).env), attempts(k)) && k < c.retryAttempts && !attempts(k).waitInterrupted {
      RetryWaits(sync, s, c, attempts, waits + [Backoff(c, k)], k + 1);
    }
  }

  /**
   * The cycle is called at most once more often than there are retries; all calls but the last failed
   * with an error that is not permanent; the waits between them are the backoff.
   */
  lemma RetryOutcome(sync: Sync, s: Ledger, c: RunConfig, attempts: nat -> Attempt)
    requires ValidBackoff(c)
    ensures var r := Retry(sync, s, c, attempts, [], 0);
            && 1 <= r.calls <= c.retryAttempts + 1
            && (forall i | 0 <= i < r.calls - 1 ::
                   Retryable(sync(s, attempts(i).env), attempts(i)) && !attempts(i).waitInterrupted)
            && Explains(c, sync(s, attempts(r.calls - 1).env), attempts(r.calls - 1), r.calls, r.result)
            && (|r.waits| == r.calls - 1 || (|r.waits| == r.calls && r.result == Interrupted))
            && AreBackoffs(c, r.waits)
  {
    RetryCalls(sync, s, c, attempts, [], 0);
    RetryWaits(sync, s, c, attempts, [], 0);
  }

  /** The synchronization is the cycle of the syncer. */
  ghost predicate IsCycle(sync: Sync, c: Config) {
    forall s, env {:trigger SyncCycle(s, c, env)} :: sync(s, env) == SyncCycle(s, c, env)
  }

  /** The cycle of the syncer as a parameter of the runner. */
  ghost function CyclesOf(c: Config): (sync: Sync)
    ensures IsCycle(sync, c)
  {
    (s, env) => SyncCycle(s, c, env)
  }

  /** The store after a run of synchronizations, successful or not. */
  ghost function Reached(sync: Sync, s: Ledger, envs: seq<Env>): (t: Ledger) {
    if envs == [] then s else
    var before := Reached(sync, s, envs[..|envs| - 1]);
    var cycle := sync(before, envs[|envs| - 1]);
    if cycle.Ok? then cycle.value.ledger else before
  }

  lemma StepIsNext(sync: Sync, c: Config, s: Ledger, env: Env)
    requires IsCycle(sync, c)
    ensures Step(s, c, env) == if sync(s, env).Ok? then sync(s, env).value.ledger else s
  {
    assert sync(s, env) == SyncCycle(s, c, env);
  }

  lemma AfterGrows(c: Config, envs: seq<Env>, env: Env)
    ensures After(c, envs + [env]) == Step(After(c, envs), c, env)
  {
    assert (envs + [env])[..|envs|] == envs;
  }

  /** Such runs are the runs of cycles of which window and chain are proved exact. */
  lemma {:induction false} ReachedIsAfter(sync: Sync, c: Config, before: seq<Env>, envs: seq<Env>)
    requires IsCycle(sync, c)
    ensures Reached(sync, After(c, before), envs) == After(c, before + envs)
  {
    if envs == [] {
      assert before + envs == before;
    } else {
      var init, last := envs[..|envs| - 1], envs[|envs| - 1];
      ReachedIsAfter(sync, c, before, init);
      StepIsNext(sync, c, After(c, before + init), last);
      AfterGrows(c, before + init, last);
      assert before + init + [last] == before + envs;
    }
  }

  lemma ReachedOneMore(sync: Sync, s: Ledger, envs: seq<Env>, env: Env)
    ensures var before := Reached(sync, s, envs);
            Reached(sync, s, envs + [env]) == if sync(before, env).Ok? then sync(before, env).value.ledger else before
  {
    assert (envs + [env])[..|envs|] == envs;
  }

  lemma {:induction false} ReachedInTwo(sync: Sync, s: Ledger, a: seq<Env>, b: seq<Env>)
    ensures Reached(sync, s, a + b) == Reached(sync, Reached(sync, s, a), b)
  {
    if b == [] {
      assert a + b == a;
    } else {
      var init, last := b[..|b| - 1], b[|b| - 1];
      ReachedInTwo(sync, s, a, init);
      ReachedOneMore(sync, s, a + init, last);
      assert a + init + [last] == a + b;
    }
  }

  ghost function Envs(attempts: nat -> Attempt, calls: nat): (es: seq<Env>) {
    seq(calls, i requires 0 <= i < calls => attempts(i).env)
  }

  lemma {:induction false} FailedAttemptsChangeNothing(sync: Sync, s: Ledger, attempts: nat -> Attempt, calls: nat)
    requires forall k: nat | k < calls :: sync(s, attempts(k).env).Err?
    ensures Reached(sync, s, Envs(attempts, calls)) == s
  {
    if calls > 0 {
      FailedAttemptsChangeNothing(sync, s, attempts, calls - 1);
      ReachedOneMore(sync, s, Envs(attempts, calls - 1), attempts(calls - 1).env);
      assert Envs(attempts, calls) == Envs(attempts, calls - 1) + [attempts(calls - 1).env];
    }
  }

  predicate EndsContext(a: Attempt) {
    a.cancelled || a.waitInterrupted
  }

  /** One call of the retry loop on a store. */
  ghost function RoundOn(sync: Sync, s: Ledger, c: RunConfig, round: Round): (r: Retried)
    requires ValidBackoff(c)
  {
    Retry(sync, s, c, round.attempts, [], 0)
  }

  /** The round failed and its error was given, or looked at, by a context that is done. */
  predicate Stops(round: Round, r: RetryResult) {
    r == Interrupted || (!r.Synced? && round.cancelled)
  }

  /** The round failed while the context ended, at one of the attempts that were made or right after them. */
  ghost predicate MetContextEnd(round: Round, r: Retried) {
    !r.result.Synced? && (round.cancelled || exists k: nat :: k < r.calls && EndsContext(round.attempts(k)))
  }

  /** If all calls but the last failed, the last decides what becomes of the store. */
  lemma LastCallDecides(sync: Sync, s: Ledger, attempts: nat -> Attempt, calls: nat)
    requires calls > 0 && forall k: nat | k < calls - 1 :: sync(s, attempts(k).env).Err?
    ensures var cycle := sync(s, attempts(calls - 1).env);
            Reached(sync, s, Envs(attempts, calls)) == if cycle.Ok? then cycle.value.ledger else s
  {
    var init, last := Envs(attempts, calls - 1), attempts(calls - 1).env;
    FailedAttemptsChangeNothing(sync, s, attempts, calls - 1);
    ReachedOneMore(sync, s, init, last);
    assert Envs(attempts, calls) == init + [last];
  }

  /** The cycles of a retry loop are a run that ends in what its last cycle made of the store. */
  lemma RoundIsARun(sync: Sync, s: Ledger, c: RunConfig, round: Round)
    requires ValidBackoff(c)
    ensures var r := RoundOn(sync, s, c, round);
            && 1 <= r.calls <= c.retryAttempts + 1
            && (r.result.Synced? <==> sync(s, round.attempts(r.calls - 1).env).Ok?)
            && Reached(sync, s, Envs(round.attempts, r.calls))
               == (if r.result.Synced? then sync(s, round.attempts(r.calls - 1).env).value.ledger else s)
            && (Stops(round, r.result) ==> MetContextEnd(round, r))
  {
    var r := RoundOn(sync, s, c, round);
    RetryCalls(sync, s, c, round.attempts, [], 0);
    LastCallDecides(sync, s, round.attempts, r.calls);
    assert r.result == Interrupted ==> EndsContext(round.attempts(r.calls - 1));
  }

  /** A round takes the store from `s` to `t`. */
  ghost predicate Leads(sync: Sync, c: RunConfig, s: Ledger, round: Round, r: Retried, t: Ledger)
    requires ValidBackoff(c)
  {
    r == RoundOn(sync, s, c, round) && t == Reached(sync, s, Envs(round.attempts, r.calls))
  }

  /** The rounds made and the stores between them, from the first to the last. */
  ghost predicate Trace(sync: Sync, c: RunConfig, rounds: seq<Round>, rs: seq<Retried>, states: seq<Ledger>)
    requires ValidBackoff(c)
  {
    && |rs| <= |rounds| && |states| == |rs| + 1
    && (forall i {:trigger rs[i]} | 0 <= i < |rs| :: Leads(sync, c, states[i], rounds[i], rs[i], states[i + 1]))
  }

  /** All cycles that the given rounds made. */
  ghost function Made(rounds: seq<Round>, rs: seq<Retried>): (es: seq<Env>)
    requires |rs| <= |rounds|
  {
    if rs == [] then [] else
    var last := |rs| - 1;
    Made(rounds, rs[..last]) + Envs(rounds[last].attempts, rs[last].calls)
  }

  /** The rounds of a run, one after the other, are one run of cycles. */
  lemma {:induction false} RoundsAreARun(sync: Sync, c: RunConfig, rounds: seq<Round>, rs: seq<Retried>,
                                         states: seq<Ledger>)
    requires ValidBackoff(c) && Trace(sync, c, rounds, rs, states)
    ensures states[|rs|] == Reached(sync, states[0], Made(rounds, rs))
  {
    if rs != [] {
      var last := |rs| - 1;
      assert forall i | 0 <= i < last :: rs[..last][i] == rs[i];
      RoundsAreARun(sync, c, rounds, rs[..last], states[..|rs|]);
      assert Leads(sync, c, states[last], rounds[last], rs[last], states[last + 1]);
      ReachedInTwo(sync, states[0], Made(rounds, rs[..last]), Envs(rounds[last].attempts, rs[last].calls));
    }
  }

  /** Every run over the cycles of the syncer ends in one exact window of one valid chain. */
  lemma RunLeavesInvariant(sync: Sync, c: RunConfig, before: seq<Env>, rounds: seq<Round>, rs: seq<Retried>,
                           states: seq<Ledger>)
    requires RunConfigError(c) == None && IsCycle(sync, c.sync) && Trace(sync, c, rounds, rs, states)
    requires states[0] == After(c.sync, before)
    ensures states[|rs|] == After(c.sync, before + Made(rounds, rs))
    ensures Invariant(states[|rs|], c.sync)
  {
    RoundsAreARun(sync, c, rounds, rs, states);
    ReachedIsAfter(sync, c.sync, before, Made(rounds, rs));
    RunKeepsInvariant(c.sync, before + Made(rounds, rs));
  }

  /** Where polling stops: the first round succeeded, none before the last ended it, and it had to end here. */
  ghost predicate PollingEnds(rounds: seq<Round>, rs: seq<Retried>)
    requires 1 <= |rs| <= |rounds|
  {
    && rs[0].result.Synced?
    && (forall i | 1 <= i < |rs| :: !rounds[i].waitInterrupted)
    && (forall i | 1 <= i < |rs| - 1 :: !Stops(rounds[i], rs[i].result))
    && (|rs| == |rounds| || rounds[|rs|].waitInterrupted || Stops(rounds[|rs| - 1], rs[|rs| - 1].result))
  }

  /** The retry loop over a store object. */
  method SyncWithRetry(store: Store, c: RunConfig, attempts: nat -> Attempt, ghost sync: Sync)
    returns (r: Retried)
    requires ValidBackoff(c) && IsCycle(sync, c.sync)
    modifies store
    ensures r == Retry(sync, old(store.State()), c, attempts, [], 0)
    ensures r.result.Synced? ==>
              r.calls > 0 && sync(old(store.State()), attempts(r.calls - 1).env)
                  == Ok(Cycle(store.State(), r.result.result))
    ensures !r.result.Synced? ==> store.State() == old(store.State())
  {
    var backoff := c.retryMinBackoff;
    var retry := 0;
    var waits: seq<Duration> := [];
    while true
      invariant 0 <= retry <= c.retryAttempts
      invariant store.State() == old(store.State())
      invariant backoff == Backoff(c, retry)
      invariant Retry(sync, store.State(), c, attempts, [], 0) == Retry(sync, store.State(), c, attempts, waits, retry)
      decreases c.retryAttempts - retry
    {
      var attempt := attempts(retry);
      var synced := SyncOnce(store, c.sync, attempt.env);
      if synced.Ok? {
        return Retried(Synced(synced.value), retry + 1, waits);
      }
      if attempt.cancelled {
        return Retried(Interrupted, retry + 1, waits);
      }
      if IsPermanent(synced.error) {
        return Retried(Permanent(synced.error), retry + 1, waits);
      }
      if retry >= c.retryAttempts {
        return Retried(Exhausted(retry + 1, synced.error), retry + 1, waits);
      }
      waits := waits + [backoff];
      if attempt.waitInterrupted {
        return Retried(Interrupted, retry + 1, waits);
      }
      backoff := NextRetryBackoff(backoff, c.retryMaxBackoff);
      retry := retry + 1;
    }
  }

  /** One round on a store object. */
  method RunRound(store: Store, c: RunConfig, round: Round, ghost sync: Sync)
    returns (r: Retried)
    requires ValidBackoff(c) && IsCycle(sync, c.sync)
    modifies store
    ensures Leads(sync, c, old(store.State()), round, r, store.State())
    ensures !r.result.Synced? ==> store.State() == old(store.State())
  {
    r := SyncWithRetry(store, c, round.attempts, sync);
    RoundIsARun(sync, old(store.State()), c, round);
  }

  /** The polling loop after a first success; its context ends at the latest in the wait after the given rounds. */
  method Poll(store: Store, c: RunConfig, rounds: seq<Round>, first: Retried, ghost sync: Sync, ghost s: Ledger)
    returns (rs: seq<Retried>, ghost states: seq<Ledger>)
    requires ValidBackoff(c) && IsCycle(sync, c.sync) && 1 <= |rounds| && first.result.Synced?
    requires Leads(sync, c, s, rounds[0], first, store.State())
    modifies store
    ensures Trace(sync, c, rounds, rs, states) && states[0] == s && states[|rs|] == store.State()
    ensures |rs| >= 1 && rs[0] == first && PollingEnds(rounds, rs)
  {
    rs, states := [first], [s, store.State()];
    while |rs| < |rounds|
      invariant Trace(sync, c, rounds, rs, states) && states[0] == s && states[|rs|] == store.State()
      invariant |rs| >= 1 && rs[0] == first
      invariant forall i | 1 <= i < |rs| :: !rounds[i].waitInterrupted && !Stops(rounds[i], rs[i].result)
      decreases |rounds| - |rs|
    {
      var round := rounds[|rs|];
      if round.waitInterrupted {
        return;
      }
      var r := RunRound(store, c, round, sync);
      rs, states := rs + [r], states + [store.State()];
      if r.result == Interrupted || (!r.result.Synced? && round.cancelled) {
        return;
      }
    }
  }

  /** What a run returns after the rounds it made. */
  ghost predicate RunEnds(rounds: seq<Round>, rs: seq<Retried>, r: RunResult)
    requires 1 <= |rs| <= |rounds|
  {
    match r
    case Misconfigured(_) => false
    case InitialFailure(failure) =>
      |rs| == 1 && failure == rs[0].result && !failure.Synced? && !Stops(rounds[0], failure)
    case ContextDone =>
      (|rs| == 1 && Stops(rounds[0], rs[0].result)) || PollingEnds(rounds, rs)
  }

  /**
   * After the first success failures alone never end a run: if the context ends neither in a poll wait
   * nor at or after an attempt that was made, all rounds are made, however many of them fail, and no
   * error is returned.
   */
  lemma FailuresAloneNeverEndRun(sync: Sync, c: RunConfig, rounds: seq<Round>, rs: seq<Retried>, states: seq<Ledger>,
                                 r: RunResult)
    requires ValidBackoff(c) && Trace(sync, c, rounds, rs, states)
    requires |rs| >= 1 && RunEnds(rounds, rs, r) && rs[0].result.Synced?
    requires forall i | 1 <= i < |rounds| :: !rounds[i].waitInterrupted
    requires forall i | 1 <= i < |rs| :: !rounds[i].cancelled
    requires forall i, k: nat | 1 <= i < |rs| && k < rs[i].calls :: !EndsContext(rounds[i].attempts(k))
    ensures r == ContextDone && |rs| == |rounds|
  {
    var last := |rs| - 1;
    assert Leads(sync, c, states[last], rounds[last], rs[last], states[last + 1]);
    RoundIsARun(sync, states[last], c, rounds[last]);
  }

  /** The first round and, after a success, the polling loop. */
  method RunRounds(store: Store, c: RunConfig, rounds: seq<Round>, ghost sync: Sync)
    returns (r: RunResult, rs: seq<Retried>, ghost states: seq<Ledger>)
    requires ValidBackoff(c) && IsCycle(sync, c.sync) && |rounds| >= 1
    modifies store
    ensures Trace(sync, c, rounds, rs, states) && states[0] == old(store.State()) && states[|rs|] == store.State()
    ensures |rs| >= 1 && RunEnds(rounds, rs, r)
    ensures r.InitialFailure? ==> store.State() == old(store.State())
  {
    var first := RunRound(store, c, rounds[0], sync);
    rs, states := [first], [old(store.State()), store.State()];
    if first.result == Interrupted || (!first.result.Synced? && rounds[0].cancelled) {
      return ContextDone, rs, states;
    }
    if !first.result.Synced? {
      return InitialFailure(first.result), rs, states;
    }
    rs, states := Poll(store, c, rounds, first, sync, old(store.State()));
    return ContextDone, rs, states;
  }

  /**
   * A failure is returned only from the first round, which then leaves the store as it was; otherwise
   * polling goes on until the context ends.  The stores between the rounds are those that their
   * cycles lead to, one after the other.
   */
  method Run(store: Store, c: RunConfig, rounds: seq<Round>)
    returns (r: RunResult, rs: seq<Retried>, ghost states: seq<Ledger>)
    requires |rounds| >= 1
    modifies store
    ensures r.Misconfigured? <==> RunConfigError(c).Some?
    ensures r.Misconfigured? ==> Some(r.error) == RunConfigError(c) && rs == [] && store.State() == old(store.State())
    ensures !r.Misconfigured? ==>
              && Trace(CyclesOf(c.sync), c, rounds, rs, states)
              && states[0] == old(store.State()) && states[|rs|] == store.State()
              && |rs| >= 1 && RunEnds(rounds, rs, r)
    ensures r.InitialFailure? ==> store.State() == old(store.State())
  {
    var invalid := RunConfigError(c);
    if invalid.Some? {
      return Misconfigured(invalid.value), [], [];
    }
    r, rs, states := RunRounds(store, c, rounds, CyclesOf(c.sync));
  }
}
