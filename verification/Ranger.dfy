/**
 * The worker pool of internal/indexer/ranger.go as a state machine.  One step is one action of the
 * producer, of a worker, of the collecting caller, or of the caller's context; runs are all their
 * interleavings.
 */
module Ranger {
  import opened Domain

  /** What one worker goroutine is doing. */
  datatype Worker =
    | Idle                   // waiting in its select
    | Fetching(index: nat)   // inside FetchBlock
    | Failing(index: nat)    // FetchBlock failed, error not sent yet
    | Cancelling             // error sent or dropped, cancel() not called yet
    | Exited

  /** Where the calling goroutine stands. */
  datatype Phase =
    | WaitProducer
    | WaitWorkers
    | ReadError
    | ReadContext
    | Failed
    | Collected

  /**
   * `sent` is the producer's loop variable, `closed` says that it returned and closed the channel,
   * `done` that the worker context is done and `errorSent` that the error channel holds an error.
   * `calls` records the index of every FetchBlock call and `filled` the slots written so far.
   */
  datatype State = State(
    sent: nat,
    closed: bool,
    workers: seq<Worker>,
    slots: seq<Bundle>,
    callerCancelled: bool,
    done: bool,
    errorSent: bool,
    phase: Phase,
    calls: seq<nat>,
    filled: set<nat>)

  datatype Step =
    | CallerCancel
    | Propagate
    | Send(w: nat)
    | ProducerReturn
    | WorkerReturn(w: nat)
    | FetchReturns(w: nat)
    | FetchFails(w: nat)
    | SendError(w: nat)
    | CancelAndReturn(w: nat)
    | ProducerJoined
    | WorkersJoined
    | CheckError
    | CheckContext

  const ZERO_BUNDLE := Bundle(Block(0, 0, 0, 0, 0, 0, None, 0, 0), [], [])

  function Clamped(concurrency: int, count: nat): (k: nat)
    requires count > 0
    ensures 1 <= k <= count
    ensures k == concurrency || (concurrency < 1 && k == 1) || (concurrency > count && k == count)
  {
    var atLeastOne := if concurrency < 1 then 1 else concurrency;
    if atLeastOne > count then count else atLeastOne
  }

  function Init(count: nat, concurrency: int): (s: State)
    requires count > 0
  {
    State(0, false, seq(Clamped(concurrency, count), _ => Idle), seq(count, _ => ZERO_BUNDLE),
          false, false, false, WaitProducer, [], {})
  }

  /** The answers FetchBlock gives, by index; a done context may turn any of them into an error. */
  type Answers = seq<Result<Bundle>>

  predicate Enabled(a: Answers, s: State, step: Step) {
    !s.phase.Failed? && !s.phase.Collected? &&
    match step
    case CallerCancel => !s.callerCancelled
    case Propagate => s.callerCancelled && !s.done
    case Send(w) => !s.closed && s.sent < |a| && w < |s.workers| && s.workers[w].Idle?
    case ProducerReturn => !s.closed && (s.sent == |a| || s.done)
    case WorkerReturn(w) => w < |s.workers| && s.workers[w].Idle? && (s.done || s.closed)
    case FetchReturns(w) =>
      && w < |s.workers| && s.workers[w].Fetching?
      && s.workers[w].index < |a| == |s.slots| && a[s.workers[w].index].Ok?
    case FetchFails(w) =>
      && w < |s.workers| && s.workers[w].Fetching?
      && s.workers[w].index < |a| && (a[s.workers[w].index].Err? || s.done)
    case SendError(w) => w < |s.workers| && s.workers[w].Failing?
    case CancelAndReturn(w) => w < |s.workers| && s.workers[w].Cancelling?
    case ProducerJoined => s.phase.WaitProducer? && s.closed
    case WorkersJoined => s.phase.WaitWorkers? && forall w | 0 <= w < |s.workers| :: s.workers[w].Exited?
    case CheckError => s.phase.ReadError?
    case CheckContext => s.phase.ReadContext?
  }

  function Set(s: State, w: nat, x: Worker): State
    requires w < |s.workers|
  {
    s.(workers := s.workers[w := x])
  }

  function Apply(a: Answers, s: State, step: Step): (t: State)
    requires Enabled(a, s, step)
  {
    match step
    case CallerCancel => s.(callerCancelled := true)
    case Propagate => s.(done := true)
    case Send(w) => Set(s, w, Fetching(s.sent)).(sent := s.sent + 1, calls := s.calls + [s.sent])
    case ProducerReturn => s.(closed := true)
    case WorkerReturn(w) => Set(s, w, Exited)
    case FetchReturns(w) =>
      var i := s.workers[w].index;
      Set(s, w, Idle).(slots := s.slots[i := a[i].value], filled := s.filled + {i})
    case FetchFails(w) => Set(s, w, Failing(s.workers[w].index))
    case SendError(w) => Set(s, w, Cancelling).(errorSent := true)
    case CancelAndReturn(w) => Set(s, w, Exited).(done := true)
    case ProducerJoined => s.(phase := WaitWorkers)
    case WorkersJoined => s.(phase := ReadError)
    case CheckError => s.(phase := if s.errorSent then Failed else ReadContext)
    case CheckContext => s.(phase := if s.callerCancelled then Failed else Collected)
  }

  /** Some interleaving of the goroutines: every step is enabled where it is taken. */
  predicate Legal(a: Answers, s: State, steps: seq<Step>)
    decreases |steps|
  {
    steps != [] ==> Enabled(a, s, steps[0]) && Legal(a, Apply(a, s, steps[0]), steps[1..])
  }

  function Execute(a: Answers, s: State, steps: seq<Step>): (t: State)
    requires Legal(a, s, steps)
    decreases |steps|
  {
    if steps == [] then s else Execute(a, Apply(a, s, steps[0]), steps[1..])
  }

  predicate Busy(x: Worker) {
    x.Fetching? || x.Failing?
  }

  predicate Holds(x: Worker, i: nat) {
    Busy(x) && x.index == i
  }

  /** An error is on its way to the caller. */
  predicate Trouble(s: State) {
    s.errorSent || exists w :: 0 <= w < |s.workers| && s.workers[w].Failing?
  }

  /** Jobs are handed out once each, in order, and each has one owner until its slot is filled. */
  ghost predicate JobsInv(a: Answers, s: State) {
    && |s.slots| == |a|
    && s.sent <= |a|
    && s.calls == seq(s.sent, i => i)
    && (forall w | 0 <= w < |s.workers| && Busy(s.workers[w]) ::
          s.workers[w].index < s.sent && s.workers[w].index !in s.filled)
    && (forall v, w | 0 <= v < w < |s.workers| && Busy(s.workers[v]) && Busy(s.workers[w]) ::
          s.workers[v].index != s.workers[w].index)
    && (forall i | i in s.filled :: i < s.sent && a[i].Ok? && s.slots[i] == a[i].value)
  }

  /** No job is lost unless an error is on its way. */
  ghost predicate NoJobLost(s: State) {
    Trouble(s) ||
    forall i | 0 <= i < s.sent ::
      i in s.filled || exists w :: 0 <= w < |s.workers| && Holds(s.workers[w], i)
  }

  ghost predicate SignalsInv(a: Answers, s: State) {
    && (s.closed ==> s.sent == |a| || s.done)
    && (s.done ==> s.callerCancelled || s.errorSent)
    && (forall w | 0 <= w < |s.workers| && s.workers[w].Cancelling? :: s.errorSent)
    && (forall w | 0 <= w < |s.workers| && s.workers[w].Exited? :: s.closed || s.done)
    && (!s.phase.WaitProducer? ==> s.closed)
    && (s.phase in {ReadError, ReadContext, Failed, Collected} ==>
          forall w | 0 <= w < |s.workers| :: s.workers[w].Exited?)
    && (s.phase.ReadContext? || s.phase.Collected? ==> !s.errorSent)
    && (s.phase.Collected? ==> !s.callerCancelled)
    && (s.phase.Failed? ==> s.errorSent || s.callerCancelled)
  }

  /** Without a cancellation and without a failing answer, nothing goes wrong. */
  ghost predicate CalmInv(a: Answers, s: State) {
    !s.callerCancelled && (forall i | 0 <= i < |a| :: a[i].Ok?) ==>
      && !s.errorSent && !s.done
      && (forall w | 0 <= w < |s.workers| :: !s.workers[w].Failing? && !s.workers[w].Cancelling?)
  }

  ghost predicate Inv(a: Answers, s: State) {
    |s.workers| > 0 && JobsInv(a, s) && NoJobLost(s) && SignalsInv(a, s) && CalmInv(a, s)
  }

  lemma InitInv(a: Answers, concurrency: int)
    requires |a| > 0
    ensures Inv(a, Init(|a|, concurrency))
  {
  }

  lemma JobsKeptBySend(a: Answers, s: State, w: nat)
    requires JobsInv(a, s) && Enabled(a, s, Send(w))
    ensures JobsInv(a, Apply(a, s, Send(w)))
  {
    var t := Apply(a, s, Send(w));
    assert t.calls == seq(t.sent, i => i);
  }

  lemma JobsKeptByFetch(a: Answers, s: State, w: nat)
    requires JobsInv(a, s) && Enabled(a, s, FetchReturns(w))
    ensures JobsInv(a, Apply(a, s, FetchReturns(w)))
  {
  }

  /** A worker that lets go of its job, or keeps it. */
  lemma JobsKeptByWorker(a: Answers, s: State, w: nat, x: Worker)
    requires JobsInv(a, s) && w < |s.workers|
    requires Busy(x) ==> Busy(s.workers[w]) && x.index == s.workers[w].index
    ensures JobsInv(a, Set(s, w, x))
  {
  }

  lemma JobsPreserved(a: Answers, s: State, step: Step)
    requires JobsInv(a, s) && Enabled(a, s, step)
    ensures JobsInv(a, Apply(a, s, step))
  {
    match step
    case Send(w) => JobsKeptBySend(a, s, w);
    case FetchReturns(w) => JobsKeptByFetch(a, s, w);
    case FetchFails(w) => JobsKeptByWorker(a, s, w, Failing(s.workers[w].index));
    case WorkerReturn(w) => JobsKeptByWorker(a, s, w, Exited);
    case SendError(w) => JobsKeptByWorker(a, s, w, Cancelling);
    case CancelAndReturn(w) => JobsKeptByWorker(a, s, w, Exited);
    case _ =>
  }

  lemma JobKept(a: Answers, s: State, step: Step)
    requires Inv(a, s) && Enabled(a, s, step)
    ensures NoJobLost(Apply(a, s, step))
  {
    var t := Apply(a, s, step);
    if !Trouble(t) {
      assert forall w | 0 <= w < |s.workers| && s.workers[w].Failing? :: t.workers[w].Failing? || t.errorSent;
      assert !Trouble(s);
      forall i | 0 <= i < t.sent ensures i in t.filled || exists w :: 0 <= w < |t.workers| && Holds(t.workers[w], i) {
        if step.Send? && i == s.sent {
          assert Holds(t.workers[step.w], i);
        } else if i !in s.filled {
          var w :| 0 <= w < |s.workers| && Holds(s.workers[w], i);
          assert i in t.filled || Holds(t.workers[w], i);
        }
      }
    }
  }

  /** A running worker goes on; it signals an error before it cancels, and leaves only when it may. */
  lemma SignalsKeptByWorker(a: Answers, s: State, t: State, w: nat, x: Worker)
    requires SignalsInv(a, s) && w < |s.workers| && !s.workers[w].Exited? && t.workers == s.workers[w := x]
    requires t.closed == s.closed && t.callerCancelled == s.callerCancelled && t.phase == s.phase
    requires t.sent == s.sent || !s.closed
    requires (s.errorSent ==> t.errorSent) && (s.done ==> t.done) && (t.done ==> s.done || t.errorSent)
    requires (x.Cancelling? ==> t.errorSent) && (x.Exited? ==> t.closed || t.done)
    ensures SignalsInv(a, t)
  {
  }

  lemma SignalsKept(a: Answers, s: State, step: Step)
    requires SignalsInv(a, s) && Enabled(a, s, step)
    ensures SignalsInv(a, Apply(a, s, step))
  {
    match step
    case Send(w) => SignalsKeptByWorker(a, s, Apply(a, s, step), w, Fetching(s.sent));
    case WorkerReturn(w) => SignalsKeptByWorker(a, s, Apply(a, s, step), w, Exited);
    case FetchReturns(w) => SignalsKeptByWorker(a, s, Apply(a, s, step), w, Idle);
    case FetchFails(w) => SignalsKeptByWorker(a, s, Apply(a, s, step), w, Failing(s.workers[w].index));
    case SendError(w) => SignalsKeptByWorker(a, s, Apply(a, s, step), w, Cancelling);
    case CancelAndReturn(w) => SignalsKeptByWorker(a, s, Apply(a, s, step), w, Exited);
    case _ =>
  }

  lemma CalmKept(a: Answers, s: State, step: Step)
    requires CalmInv(a, s) && Enabled(a, s, step)
    ensures CalmInv(a, Apply(a, s, step))
  {
  }

  lemma SignalsPreserved(a: Answers, s: State, step: Step)
    requires Inv(a, s) && Enabled(a, s, step)
    ensures SignalsInv(a, Apply(a, s, step)) && CalmInv(a, Apply(a, s, step))
  {
    SignalsKept(a, s, step);
    CalmKept(a, s, step);
  }

  /** Every step of every goroutine keeps the invariant. */
  lemma StepKeepsInv(a: Answers, s: State, step: Step)
    requires Inv(a, s) && Enabled(a, s, step)
    ensures Inv(a, Apply(a, s, step))
  {
    JobsPreserved(a, s, step);
    JobKept(a, s, step);
    SignalsPreserved(a, s, step);
  }

  lemma {:induction false} RunKeepsInv(a: Answers, s: State, steps: seq<Step>)
    requires Inv(a, s) && Legal(a, s, steps)
    ensures Inv(a, Execute(a, s, steps))
    ensures |Execute(a, s, steps).workers| == |s.workers|
    decreases |steps|
  {
    if steps != [] {
      StepKeepsInv(a, s, steps[0]);
      RunKeepsInv(a, Apply(a, s, steps[0]), steps[1..]);
    }
  }

  /**
   * Safety of every interleaving.  When the caller is done collecting, every index was fetched by
   * exactly one call, its slot holds that call's bundle, and no failure or cancellation happened.
   */
  lemma CollectedIsComplete(a: Answers, concurrency: int, steps: seq<Step>)
    requires |a| > 0 && Legal(a, Init(|a|, concurrency), steps)
    requires Execute(a, Init(|a|, concurrency), steps).phase.Collected?
    ensures var t := Execute(a, Init(|a|, concurrency), steps);
            && t.calls == seq(|a|, i => i)
            && |t.slots| == |a|
            && (forall i | 0 <= i < |a| :: a[i].Ok? && t.slots[i] == a[i].value)
            && !t.callerCancelled
  {
    var s := Init(|a|, concurrency);
    InitInv(a, concurrency);
    RunKeepsInv(a, s, steps);
    var t := Execute(a, s, steps);
    assert !Trouble(t);
    assert forall i | 0 <= i < t.sent :: i in t.filled;
  }

  /** The result depends on the answers and on a cancellation alone, never on the schedule. */
  lemma OutcomeIsDeterminate(a: Answers, concurrency: int, steps: seq<Step>)
    requires |a| > 0 && Legal(a, Init(|a|, concurrency), steps)
    requires Execute(a, Init(|a|, concurrency), steps).phase in {Failed, Collected}
    ensures var t := Execute(a, Init(|a|, concurrency), steps);
            t.phase.Collected? <==> !t.callerCancelled && forall i | 0 <= i < |a| :: a[i].Ok?
  {
    var s := Init(|a|, concurrency);
    InitInv(a, concurrency);
    RunKeepsInv(a, s, steps);
    var t := Execute(a, s, steps);
    if t.phase.Collected? {
      CollectedIsComplete(a, concurrency, steps);
    }
  }

  lemma TroubleStays(a: Answers, s: State, step: Step)
    requires Trouble(s) && Enabled(a, s, step)
    ensures Trouble(Apply(a, s, step))
  {
    var t := Apply(a, s, step);
    assert forall w | 0 <= w < |s.workers| && s.workers[w].Failing? :: t.workers[w].Failing? || t.errorSent;
  }

  /** A failed fetch makes the whole range fail, whatever happens before and after it. */
  lemma {:induction false} FailureIsNeverLost(a: Answers, s: State, steps: seq<Step>)
    requires Inv(a, s) && Legal(a, s, steps) && Trouble(s)
    ensures Trouble(Execute(a, s, steps))
    ensures !Execute(a, s, steps).phase.Collected?
    decreases |steps|
  {
    if steps == [] {
      assert !s.phase.Collected?;
    } else {
      StepKeepsInv(a, s, steps[0]);
      TroubleStays(a, s, steps[0]);
      FailureIsNeverLost(a, Apply(a, s, steps[0]), steps[1..]);
    }
  }

  ghost function InFlight(s: State): set<nat> {
    set w: nat | w < |s.workers| && s.workers[w].Fetching?
  }

  lemma {:induction false} SmallSet(k: nat, x: set<nat>)
    requires forall w | w in x :: w < k
    ensures |x| <= k
  {
    if k > 0 {
      SmallSet(k - 1, x - {k - 1});
    } else {
      assert x == {};
    }
  }

  /** The number of FetchBlock calls in flight never exceeds the clamped concurrency. */
  lemma ConcurrencyIsBounded(a: Answers, concurrency: int, steps: seq<Step>)
    requires |a| > 0 && Legal(a, Init(|a|, concurrency), steps)
    ensures |InFlight(Execute(a, Init(|a|, concurrency), steps))| <= Clamped(concurrency, |a|)
  {
    InitInv(a, concurrency);
    RunKeepsInv(a, Init(|a|, concurrency), steps);
    SmallSet(Clamped(concurrency, |a|), InFlight(Execute(a, Init(|a|, concurrency), steps)));
  }

  /** No deadlock: until the caller returns, some goroutine can move without help from outside. */
  lemma Progress(a: Answers, s: State) returns (step: Step)
    requires Inv(a, s) && s.phase !in {Failed, Collected}
    ensures Enabled(a, s, step) && !step.CallerCancel? && !step.Propagate?
  {
    if s.phase.ReadError? {
      step := CheckError;
    } else if s.phase.ReadContext? {
      step := CheckContext;
    } else if w: nat :| w < |s.workers| && s.workers[w].Fetching? {
      step := if a[s.workers[w].index].Ok? then FetchReturns(w) else FetchFails(w);
    } else if w: nat :| w < |s.workers| && s.workers[w].Failing? {
      step := SendError(w);
    } else if w: nat :| w < |s.workers| && s.workers[w].Cancelling? {
      step := CancelAndReturn(w);
    } else if !s.closed {
      if s.sent == |a| || s.done {
        step := ProducerReturn;
      } else {
        assert s.workers[0].Idle?;
        step := Send(0);
      }
    } else if w: nat :| w < |s.workers| && s.workers[w].Idle? {
      step := WorkerReturn(w);
    } else if s.phase.WaitProducer? {
      step := ProducerJoined;
    } else {
      step := WorkersJoined;
    }
  }

  function Weight(x: Worker): nat {
    match x
    case Idle => 1
    case Fetching(_) => 4
    case Failing(_) => 3
    case Cancelling => 2
    case Exited => 0
  }

  function TotalWeight(ws: seq<Worker>): nat {
    if ws == [] then 0 else TotalWeight(ws[..|ws| - 1]) + Weight(ws[|ws| - 1])
  }

  lemma {:induction false} WeightUpdate(ws: seq<Worker>, w: nat, x: Worker)
    requires w < |ws|
    ensures TotalWeight(ws[w := x]) == TotalWeight(ws) - Weight(ws[w]) + Weight(x)
  {
    var last := |ws| - 1;
    if w == last {
      assert ws[w := x][..last] == ws[..last];
    } else {
      assert ws[w := x][..last] == ws[..last][w := x];
      WeightUpdate(ws[..last], w, x);
    }
  }

  function Flag(b: bool): nat {
    if b then 0 else 1
  }

  function PhaseWeight(p: Phase): nat {
    match p
    case WaitProducer => 4
    case WaitWorkers => 3
    case ReadError => 2
    case ReadContext => 1
    case Failed => 0
    case Collected => 0
  }

  /** Unsent jobs, busy workers, live workers and signals still to be given. */
  ghost function Measure(a: Answers, s: State): nat
    requires s.sent <= |a|
  {
    4 * (|a| - s.sent) + TotalWeight(s.workers) + Flag(s.closed) + Flag(s.callerCancelled) + Flag(s.done)
    + PhaseWeight(s.phase)
  }

  /** A worker takes a job: four units leave the unsent jobs and three go to the worker. */
  lemma SendShrinksMeasure(a: Answers, s: State, w: nat)
    requires Enabled(a, s, Send(w))
    ensures Measure(a, Apply(a, s, Send(w))) < Measure(a, s)
  {
    WeightUpdate(s.workers, w, Fetching(s.sent));
  }

  /** A worker goes on to a lighter state and no flag is taken back. */
  lemma WorkerShrinksMeasure(a: Answers, s: State, t: State, w: nat, x: Worker)
    requires s.sent == t.sent <= |a| && w < |s.workers| && t.workers == s.workers[w := x]
             && Weight(x) < Weight(s.workers[w])
    requires s.closed == t.closed && s.callerCancelled == t.callerCancelled && (s.done ==> t.done) && s.phase == t.phase
    ensures Measure(a, t) < Measure(a, s)
  {
    WeightUpdate(s.workers, w, x);
  }

  lemma StepShrinksMeasure(a: Answers, s: State, step: Step)
    requires s.sent <= |a| && Enabled(a, s, step)
    ensures Apply(a, s, step).sent <= |a|
    ensures Measure(a, Apply(a, s, step)) < Measure(a, s)
  {
    match step
    case Send(w) => SendShrinksMeasure(a, s, w);
    case WorkerReturn(w) => WorkerShrinksMeasure(a, s, Apply(a, s, step), w, Exited);
    case FetchReturns(w) => WorkerShrinksMeasure(a, s, Apply(a, s, step), w, Idle);
    case FetchFails(w) => WorkerShrinksMeasure(a, s, Apply(a, s, step), w, Failing(s.workers[w].index));
    case SendError(w) => WorkerShrinksMeasure(a, s, Apply(a, s, step), w, Cancelling);
    case CancelAndReturn(w) => WorkerShrinksMeasure(a, s, Apply(a, s, step), w, Exited);
    case _ =>
  }

  lemma {:induction false} RunIsBounded(a: Answers, s: State, steps: seq<Step>)
    requires Inv(a, s) && Legal(a, s, steps)
    ensures |steps| <= Measure(a, s)
    decreases |steps|
  {
    if steps != [] {
      StepKeepsInv(a, s, steps[0]);
      StepShrinksMeasure(a, s, steps[0]);
      RunIsBounded(a, Apply(a, s, steps[0]), steps[1..]);
    }
  }

  lemma {:induction false} IdleWeight(k: nat)
    ensures TotalWeight(seq(k, _ => Idle)) == k
  {
    if k > 0 {
      assert seq(k, _ => Idle)[..k - 1] == seq(k - 1, _ => Idle);
      IdleWeight(k - 1);
    }
  }

  /**
   * Termination: no run is longer than a bound known from the start, and a run that cannot be
   * extended has returned a result.
   */
  lemma PoolTerminates(a: Answers, concurrency: int, steps: seq<Step>)
    requires |a| > 0 && Legal(a, Init(|a|, concurrency), steps)
    ensures |steps| <= 4 * |a| + Clamped(concurrency, |a|) + 7
    ensures (forall step :: !Enabled(a, Execute(a, Init(|a|, concurrency), steps), step)) ==>
              Execute(a, Init(|a|, concurrency), steps).phase in {Failed, Collected}
  {
    var s := Init(|a|, concurrency);
    InitInv(a, concurrency);
    RunIsBounded(a, s, steps);
    IdleWeight(Clamped(concurrency, |a|));
    RunKeepsInv(a, s, steps);
    var t := Execute(a, s, steps);
    if t.phase !in {Failed, Collected} {
      var step := Progress(a, t);
      assert Enabled(a, t, step);
    }
  }

  /** Positions hold consecutive heights and each block names the one before it as its parent. */
  predicate ValidRange(bundles: seq<Bundle>, from: uint64) {
    && (forall i | 0 <= i < |bundles| :: bundles[i].block.number == from + i)
    && (forall i, j | 0 <= i < |bundles| && 0 <= j < |bundles| && j == i + 1 ::
           bundles[j].block.parentHash == bundles[i].block.hash)
  }

  method ValidateFetchedBundles(bundles: seq<Bundle>, from: uint64) returns (ok: bool)
    requires from + |bundles| <= MAX_UINT64 + 1
    ensures ok <==> ValidRange(bundles, from)
  {
    var i := 0;
    while i < |bundles|
      invariant 0 <= i <= |bundles|
      invariant forall j | 0 <= j < i :: bundles[j].block.number == from + j
      invariant forall j, k | 0 <= j < k < i && k == j + 1 :: bundles[k].block.parentHash == bundles[j].block.hash
    {
      var expected: uint64 := from + i;
      if bundles[i].block.number != expected {
        return false;
      }
      if i > 0 && bundles[i].block.parentHash != bundles[i - 1].block.hash {
        return false;
      }
      i := i + 1;
    }
    return true;
  }

  /**
   * The range check notices a slot that no worker filled, except at height 0, where it does not:
   * there only the protocol above rules such a slot out.
   */
  lemma RangeCheckMissesGenesisHole(bundles: seq<Bundle>, from: uint64, i: nat)
    requires i < |bundles| && bundles[i] == ZERO_BUNDLE
    ensures ValidRange(bundles, from) ==> from == 0 && i == 0
    ensures ValidRange([ZERO_BUNDLE], 0)
  {
    assert ValidRange(bundles, from) ==> bundles[i].block.number == from + i;
  }

  /** What FetchRange returns, whatever the schedule: see FetchRangeIsRangeResult. */
  function RangeResult(a: Answers, from: uint64, cancelled: bool): (r: Result<seq<Bundle>>) {
    if cancelled || exists i :: 0 <= i < |a| && a[i].Err? then Err(FetchFailed) else
    var bundles := seq(|a|, i requires 0 <= i < |a| => a[i].value);
    if ValidRange(bundles, from) then Ok(bundles) else Err(InconsistentBlockData)
  }

  /** The two collecting outcomes together with the final range check. */
  function Returned(s: State, from: uint64): (r: Result<seq<Bundle>>)
    requires s.phase in {Failed, Collected}
  {
    if s.phase.Failed? then Err(FetchFailed)
    else if ValidRange(s.slots, from) then Ok(s.slots)
    else Err(InconsistentBlockData)
  }

  /** Every complete run of the pool returns one and the same value. */
  lemma FetchRangeIsRangeResult(a: Answers, concurrency: int, steps: seq<Step>, from: uint64)
    requires |a| > 0 && Legal(a, Init(|a|, concurrency), steps)
    requires Execute(a, Init(|a|, concurrency), steps).phase in {Failed, Collected}
    ensures var t := Execute(a, Init(|a|, concurrency), steps);
            Returned(t, from) == RangeResult(a, from, t.callerCancelled)
  {
    var t := Execute(a, Init(|a|, concurrency), steps);
    OutcomeIsDeterminate(a, concurrency, steps);
    if t.phase.Collected? {
      CollectedIsComplete(a, concurrency, steps);
      assert t.slots == seq(|a|, i requires 0 <= i < |a| => a[i].value);
    } else if !t.callerCancelled {
      var i :| 0 <= i < |a| && !a[i].Ok?;
      assert a[i].Err?;
    }
  }
}
