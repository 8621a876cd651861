/** Pools of asynchronous workers that share one counter (`mapConcurrent`, and the pool inside
  * `readRuntimeSourceFiles`), as interleaved steps.
  *
  * A step is what one worker does between two awaits: taking the next index, or storing what its mapper
  * produced. Any interleaving of steps is a run. The pools differ in one detail: the first checks the
  * counter before taking an index, the second takes an index and then checks it. */
module WorkerPool {
  import opened JsText

  /** How the work on one index ends: with a value, without one (an unreadable file), or by throwing. */
  datatype Outcome<+R> = Value(value: R) | Nothing | Throws

  datatype Job<!R> = Job(size: nat, workers: nat, takeFirst: bool, outcome: nat -> Outcome<R>)

  datatype Worker = Ready | Busy(index: nat) | Finished | Broken

  datatype State<+R> = State(next: nat, workers: seq<Worker>, results: seq<Option<R>>, claims: seq<nat>)

  datatype Event = Take(worker: nat) | Store(worker: nat)

  function Max(a: int, b: int): int { if a < b then b else a }
  function Min(a: int, b: int): int { if a < b then a else b }

  /** `mapConcurrent(items, limit, mapper)`. */
  function MapJob<R>(size: nat, limit: int, outcome: nat -> Outcome<R>): Job<R> {
    Job(size, Max(1, Min(limit, size)), false, outcome)
  }

  const FILE_READ_CONCURRENCY := 24

  /** The file-reading pool of the guardrail script. */
  function ReadJob<R>(size: nat, outcome: nat -> Outcome<R>): Job<R> {
    Job(size, Min(FILE_READ_CONCURRENCY, Max(1, size)), true, outcome)
  }

  function Start<R>(job: Job<R>): State<R> {
    State(0, seq(job.workers, _ => Ready), seq(job.size, _ => None), [])
  }

  predicate Enabled<R>(s: State<R>, e: Event) {
    e.worker < |s.workers| && (if e.Take? then s.workers[e.worker].Ready? else s.workers[e.worker].Busy?)
  }

  function StepTake<R>(job: Job<R>, s: State<R>, w: nat): State<R>
    requires w < |s.workers|
  {
    if s.next < job.size then
      s.(next := s.next + 1, workers := s.workers[w := Busy(s.next)], claims := s.claims + [s.next])
    else
      s.(next := if job.takeFirst then s.next + 1 else s.next, workers := s.workers[w := Finished])
  }

  function StepStore<R>(job: Job<R>, s: State<R>, w: nat): State<R>
    requires w < |s.workers| && s.workers[w].Busy?
  {
    var i := s.workers[w].index;
    match job.outcome(i)
    case Value(v) =>
      s.(workers := s.workers[w := Ready], results := if i < |s.results| then s.results[i := Some(v)] else s.results)
    case Nothing => s.(workers := s.workers[w := Ready])
    case Throws => s.(workers := s.workers[w := Broken])
  }

  function Step<R>(job: Job<R>, s: State<R>, e: Event): State<R>
    requires Enabled(s, e)
  {
    if e.Take? then StepTake(job, s, e.worker) else StepStore(job, s, e.worker)
  }

  ghost predicate IsRun<R>(job: Job<R>, s: State<R>, events: seq<Event>)
    decreases |events|
  {
    events == [] || (Enabled(s, events[0]) && IsRun(job, Step(job, s, events[0]), events[1..]))
  }

  ghost function Run<R>(job: Job<R>, s: State<R>, events: seq<Event>): State<R>
    requires IsRun(job, s, events)
    decreases |events|
  {
    if events == [] then s else Run(job, Step(job, s, events[0]), events[1..])
  }

  // ----- the pool as an object -----

  class Pool<R> {
    const job: Job<R>
    var nextIndex: nat
    var workers: seq<Worker>
    var results: seq<Option<R>>
    var claims: seq<nat>  // bookkeeping for the proofs

    ghost function Snapshot(): State<R>
      reads this
    {
      State(nextIndex, workers, results, claims)
    }

    constructor (job: Job<R>)
      ensures this.job == job && Snapshot() == Start(job)
    {
      this.job := job;
      nextIndex := 0;
      workers := seq(job.workers, _ => Ready);
      results := seq(job.size, _ => None);
      claims := [];
    }

    /** From the top of the loop to the call of the mapper, or to the end of the worker. */
    method TakeIndex(w: nat)
      requires Enabled(Snapshot(), Take(w))
      modifies this
      ensures Snapshot() == Step(job, old(Snapshot()), Take(w))
    {
      if job.takeFirst {
        var index := nextIndex;
        nextIndex := nextIndex + 1;
        if index >= job.size {
          workers := workers[w := Finished];
          return;
        }
        workers := workers[w := Busy(index)];
        claims := claims + [index];
      } else {
        if nextIndex >= job.size {
          workers := workers[w := Finished];
          return;
        }
        var index := nextIndex;
        nextIndex := nextIndex + 1;
        workers := workers[w := Busy(index)];
        claims := claims + [index];
      }
    }

    /** From the end of the await to the bottom of the loop. */
    method StoreResult(w: nat)
      requires Enabled(Snapshot(), Store(w))
      modifies this
      ensures Snapshot() == Step(job, old(Snapshot()), Store(w))
    {
      var index := workers[w].index;
      match job.outcome(index) {
        case Value(v) =>
          if index < |results| {
            results := results[index := Some(v)];
          }
          workers := workers[w := Ready];
        case Nothing => workers := workers[w := Ready];
        case Throws => workers := workers[w := Broken];
      }
    }
  }

  // ----- what every step keeps -----

  ghost predicate IsBusyWith<R>(s: State<R>, i: nat) {
    exists w | 0 <= w < |s.workers| :: s.workers[w] == Busy(i)
  }

  /** Indices are claimed in order, each once; a claimed index is with exactly one worker until it is done. */
  ghost predicate Claims<R>(job: Job<R>, s: State<R>) {
    && |s.claims| == Min(s.next, job.size)
    && (forall k | 0 <= k < |s.claims| :: s.claims[k] == k)
    && (forall w | 0 <= w < |s.workers| && s.workers[w].Busy? :: s.workers[w].index < |s.claims|)
    && (forall v, w | 0 <= v < w < |s.workers| && s.workers[v].Busy? :: s.workers[v] != s.workers[w])
  }

  /** A slot is filled exactly when its index was claimed, is done, and produced a value. */
  ghost predicate Slots<R>(job: Job<R>, s: State<R>) {
    && |s.results| == job.size
    && (forall i | 0 <= i < job.size :: s.results[i] ==
          if i < |s.claims| && !IsBusyWith(s, i) && job.outcome(i).Value? then Some(job.outcome(i).value) else None)
  }

  /** Workers end only when the counter is exhausted, or by a mapper that throws. */
  ghost predicate Endings<R>(job: Job<R>, s: State<R>) {
    && |s.workers| == job.workers
    && (forall w | 0 <= w < |s.workers| && s.workers[w].Finished? :: s.next >= job.size)
    && ((exists w | 0 <= w < |s.workers| :: s.workers[w].Broken?) <==>
          exists i | 0 <= i < |s.claims| :: job.outcome(i).Throws? && !IsBusyWith(s, i))
  }

  ghost predicate Consistent<R>(job: Job<R>, s: State<R>) {
    Claims(job, s) && Slots(job, s) && Endings(job, s)
  }

  lemma StartConsistent<R>(job: Job<R>)
    ensures Consistent(job, Start(job))
  {
  }

  lemma BusyAfter<R>(job: Job<R>, s: State<R>, e: Event, i: nat)
    requires Claims(job, s) && Enabled(s, e)
    ensures IsBusyWith(Step(job, s, e), i) <==>
      if e.Take? then IsBusyWith(s, i) || (i == s.next && s.next < job.size)
      else IsBusyWith(s, i) && s.workers[e.worker] != Busy(i)
  {
    var s' := Step(job, s, e);
    assert s'.workers[e.worker] == s'.workers[e.worker];
    if IsBusyWith(s', i) {
      var w :| 0 <= w < |s'.workers| && s'.workers[w] == Busy(i);
      assert w == e.worker || s.workers[w] == Busy(i);
    }
    if IsBusyWith(s, i) {
      var w :| 0 <= w < |s.workers| && s.workers[w] == Busy(i);
      assert w == e.worker || s'.workers[w] == Busy(i);
    }
  }

  lemma StepConsistent<R>(job: Job<R>, s: State<R>, e: Event)
    requires Consistent(job, s) && Enabled(s, e)
    ensures Consistent(job, Step(job, s, e))
  {
    StepClaims(job, s, e);
    StepSlots(job, s, e);
    StepEndings(job, s, e);
  }

  lemma StepClaims<R>(job: Job<R>, s: State<R>, e: Event)
    requires Claims(job, s) && Enabled(s, e)
    ensures Claims(job, Step(job, s, e))
  {
  }

  lemma StepSlots<R>(job: Job<R>, s: State<R>, e: Event)
    requires Claims(job, s) && Slots(job, s) && Enabled(s, e)
    ensures Slots(job, Step(job, s, e))
  {
    var s' := Step(job, s, e);
    forall i | 0 <= i < job.size ensures s'.results[i] ==
      if i < |s'.claims| && !IsBusyWith(s', i) && job.outcome(i).Value? then Some(job.outcome(i).value) else None
    {
      BusyAfter(job, s, e, i);
    }
  }

  lemma StepEndings<R>(job: Job<R>, s: State<R>, e: Event)
    requires Claims(job, s) && Endings(job, s) && Enabled(s, e)
    ensures Endings(job, Step(job, s, e))
  {
    var s' := Step(job, s, e);
    if w :| 0 <= w < |s'.workers| && s'.workers[w].Broken? {
      if w == e.worker {
        var i := s.workers[w].index;
        BusyAfter(job, s, e, i);
        assert i < |s'.claims| && job.outcome(i).Throws? && !IsBusyWith(s', i);
      } else {
        assert s.workers[w].Broken?;
        var i :| 0 <= i < |s.claims| && job.outcome(i).Throws? && !IsBusyWith(s, i);
        BusyAfter(job, s, e, i);
      }
    }
    if i :| 0 <= i < |s'.claims| && job.outcome(i).Throws? && !IsBusyWith(s', i) {
      BusyAfter(job, s, e, i);
      if i < |s.claims| && !IsBusyWith(s, i) {
        var w :| 0 <= w < |s.workers| && s.workers[w].Broken?;
        assert s'.workers[w].Broken?;
      } else {
        assert s'.workers[e.worker].Broken?;
      }
    }
  }

  lemma {:induction false} RunConsistent<R>(job: Job<R>, s: State<R>, events: seq<Event>)
    requires Consistent(job, s) && IsRun(job, s, events)
    ensures Consistent(job, Run(job, s, events))
    decreases |events|
  {
    if events != [] {
      StepConsistent(job, s, events[0]);
      RunConsistent(job, Step(job, s, events[0]), events[1..]);
    }
  }

  // ----- termination -----

  function Weight(workers: seq<Worker>): nat {
    if workers == [] then 0
    else (match workers[0] case Ready => 1 case Busy(_) => 2 case Finished => 0 case Broken => 0) + Weight(workers[1..])
  }

  lemma {:induction false} WeightUpdate(workers: seq<Worker>, w: nat, x: Worker)
    requires w < |workers|
    ensures Weight(workers[w := x]) == Weight(workers) - Weight([workers[w]]) + Weight([x])
    decreases |workers|
  {
    if w > 0 {
      WeightUpdate(workers[1..], w - 1, x);
      assert workers[w := x][1..] == workers[1..][w - 1 := x];
    } else {
      assert workers[w := x][1..] == workers[1..];
    }
  }

  ghost function Remaining<R>(job: Job<R>, s: State<R>): int {
    3 * (job.size - |s.claims|) + Weight(s.workers)
  }

  lemma StepSpends<R>(job: Job<R>, s: State<R>, e: Event)
    requires Consistent(job, s) && Enabled(s, e)
    ensures Remaining(job, Step(job, s, e)) < Remaining(job, s)
    ensures Remaining(job, s) >= 0
  {
    hide Slots, Endings;
    var s' := Step(job, s, e);
    WeightUpdate(s.workers, e.worker, s'.workers[e.worker]);
    assert s'.workers == s.workers[e.worker := s'.workers[e.worker]];
  }

  /** No run is longer than three steps per index and one per worker. */
  lemma {:induction false} RunsEnd<R>(job: Job<R>, s: State<R>, events: seq<Event>)
    requires Consistent(job, s) && IsRun(job, s, events)
    ensures |events| <= Remaining(job, s)
    decreases |events|
  {
    if events != [] {
      StepConsistent(job, s, events[0]);
      StepSpends(job, s, events[0]);
      hide Consistent, Step, Remaining;
      RunsEnd(job, Step(job, s, events[0]), events[1..]);
    }
  }

  lemma {:induction false} StartWeight(n: nat)
    ensures Weight(seq(n, _ => Ready)) == n
  {
    if n > 0 {
      assert seq(n, _ => Ready)[1..] == seq(n - 1, _ => Ready);
      StartWeight(n - 1);
    }
  }

  ghost predicate Ended<R>(s: State<R>) {
    forall w | 0 <= w < |s.workers| :: s.workers[w].Finished? || s.workers[w].Broken?
  }

  /** What `await Promise.all(workers)` gives once every worker has ended. */
  ghost predicate Fulfilled<R>(s: State<R>) {
    forall w | 0 <= w < |s.workers| :: s.workers[w].Finished?
  }

  ghost function Sequential<R>(job: Job<R>): (r: seq<Option<R>>) {
    seq(job.size, i requires 0 <= i < job.size => if job.outcome(i).Value? then Some(job.outcome(i).value) else None)
  }

  /** Every run, in any interleaving: it is short, at most `workers` mapper calls are in flight, each index
    * is claimed at most once and in order, and a state without an enabled step is an ended one. */
  lemma EveryRun<R>(job: Job<R>, events: seq<Event>)
    requires IsRun(job, Start(job), events)
    ensures var s := Run(job, Start(job), events);
      && |events| <= 3 * job.size + job.workers
      && |s.workers| == job.workers
      && (forall k | 0 <= k < |s.claims| :: s.claims[k] == k) && |s.claims| <= job.size
      && (forall v, w | 0 <= v < w < |s.workers| && s.workers[v].Busy? && s.workers[w].Busy? ::
            s.workers[v].index != s.workers[w].index)
      && (Ended(s) <==> forall e :: !Enabled(s, e))
  {
    StartConsistent(job);
    StartWeight(job.workers);
    RunConsistent(job, Start(job), events);
    RunsEnd(job, Start(job), events);
    var s := Run(job, Start(job), events);
    if !Ended(s) {
      var w :| 0 <= w < |s.workers| && !s.workers[w].Finished? && !s.workers[w].Broken?;
      assert Enabled(s, Take(w)) || Enabled(s, Store(w));
    }
  }

  /** The pool refines the sequential loop: when every worker has ended, the pool is fulfilled exactly when
    * no index throws, and then every index was claimed and the results are the sequential ones, in order. */
  lemma PoolIsSequential<R>(job: Job<R>, events: seq<Event>)
    requires job.workers >= 1 && IsRun(job, Start(job), events) && Ended(Run(job, Start(job), events))
    ensures var s := Run(job, Start(job), events);
      && (Fulfilled(s) <==> forall i | 0 <= i < job.size :: !job.outcome(i).Throws?)
      && (Fulfilled(s) ==> |s.claims| == job.size && s.results == Sequential(job))
  {
    StartConsistent(job);
    RunConsistent(job, Start(job), events);
    var s := Run(job, Start(job), events);
    assert forall i :: !IsBusyWith(s, i);
    if Fulfilled(s) {
      assert s.workers[0].Finished?;
    } else {
      var w :| 0 <= w < |s.workers| && s.workers[w].Broken?;
    }
  }

  /** Both pools have at least one worker and never more than their limit. */
  lemma JobWorkers<R>(size: nat, limit: int, outcome: nat -> Outcome<R>)
    ensures 1 <= MapJob(size, limit, outcome).workers <= Max(1, limit)
    ensures 1 <= ReadJob(size, outcome).workers <= FILE_READ_CONCURRENCY
    ensures MapJob(size, limit, outcome).workers <= Max(1, size) && ReadJob(size, outcome).workers <= Max(1, size)
  {
  }

  /** The workers whose mapper call is in flight. */
  ghost function InFlight<R>(s: State<R>): set<nat> {
    set w | 0 <= w < |s.workers| && s.workers[w].Busy?
  }

  lemma {:induction false} BelowCount(s: set<nat>, n: nat)
    requires forall w | w in s :: w < n
    ensures |s| <= n
  {
    if n == 0 {
      assert s == {};
    } else {
      BelowCount(s - {n - 1}, n - 1);
      assert s <= (s - {n - 1}) + {n - 1};
      if n - 1 !in s {
        assert s - {n - 1} == s;
      }
    }
  }

  /** Whatever the job and the interleaving, no more mapper calls are in flight at once than there are workers. */
  lemma InFlightBounded<R>(job: Job<R>, events: seq<Event>)
    requires IsRun(job, Start(job), events)
    ensures |InFlight(Run(job, Start(job), events))| <= job.workers
  {
    hide IsRun, Run;
    EveryRun(job, events);
    BelowCount(InFlight(Run(job, Start(job), events)), job.workers);
  }

  /** For `mapConcurrent` these are max(1, min(limit, n)), for the pool that reads n files max(1, min(24, n)). */
  lemma PoolsStayWithinLimits<R>(size: nat, limit: int, outcome: nat -> Outcome<R>, job: Job<R>, events: seq<Event>)
    requires job == MapJob(size, limit, outcome) || (job == ReadJob(size, outcome) && limit == 24)
    requires IsRun(job, Start(job), events)
    ensures |InFlight(Run(job, Start(job), events))| <= Max(1, Min(limit, size))
  {
    hide IsRun, Run;
    InFlightBounded(job, events);
  }

  // ----- the second pool drops the slots it could not fill -----

  function Present<R>(slots: seq<Option<R>>): seq<R> {
    if slots == [] then []
    else (if slots[0].Some? then [slots[0].value] else []) + Present(slots[1..])
  }

  /** The readable files of a list, in order. */
  ghost function ReadableFrom<R>(outcome: nat -> Outcome<R>, i: nat, size: nat): seq<R>
    requires i <= size
    decreases size - i
  {
    if i == size then []
    else (if outcome(i).Value? then [outcome(i).value] else []) + ReadableFrom(outcome, i + 1, size)
  }

  lemma {:induction false} PresentIsReadable<R>(job: Job<R>, i: nat)
    requires i <= job.size
    ensures Present(Sequential(job)[i..]) == ReadableFrom(job.outcome, i, job.size)
    decreases job.size - i
  {
    if i < job.size {
      assert Sequential(job)[i..][1..] == Sequential(job)[i + 1..];
      PresentIsReadable(job, i + 1);
    }
  }

  /** In every interleaving the guardrail pool yields exactly the readable files in input order. */
  lemma ReadsInInputOrder<R>(size: nat, outcome: nat -> Outcome<R>, events: seq<Event>)
    requires forall i :: !outcome(i).Throws?
    requires var job := ReadJob(size, outcome);
      IsRun(job, Start(job), events) && Ended(Run(job, Start(job), events))
    ensures var job := ReadJob(size, outcome);
      Present(Run(job, Start(job), events).results) == ReadableFrom(outcome, 0, size)
  {
    var job := ReadJob(size, outcome);
    JobWorkers(size, 1, outcome);
    PoolIsSequential(job, events);
    PresentIsReadable(job, 0);
    assert Sequential(job)[0..] == Sequential(job);
  }

  // ----- the shared counter -----

  ghost function Count(workers: seq<Worker>, kind: Worker): nat {
    if workers == [] then 0 else (if workers[0] == kind then 1 else 0) + Count(workers[1..], kind)
  }

  lemma {:induction false} CountUpdate(workers: seq<Worker>, w: nat, x: Worker, kind: Worker)
    requires w < |workers|
    ensures Count(workers[w := x], kind) + (if workers[w] == kind then 1 else 0)
         == Count(workers, kind) + (if x == kind then 1 else 0)
    decreases |workers|
  {
    if w > 0 {
      CountUpdate(workers[1..], w - 1, x, kind);
      assert workers[w := x][1..] == workers[1..][w - 1 := x];
    } else {
      assert workers[w := x][1..] == workers[1..];
    }
  }

  /** The first form looks before it takes, so the counter never passes the list; the second takes first, so each
    * worker that ends has taken one index too many. */
  lemma {:induction false} CounterIs<R>(job: Job<R>, s: State<R>, events: seq<Event>)
    requires IsRun(job, s, events) && |s.claims| <= job.size && (s.next < job.size ==> |s.claims| == s.next)
    requires s.next == |s.claims| + if job.takeFirst then Count(s.workers, Finished) else 0
    requires Consistent(job, s)
    ensures var later := Run(job, s, events);
      later.next == |later.claims| + if job.takeFirst then Count(later.workers, Finished) else 0
    decreases |events|
  {
    hide Slots, Endings;
    if events != [] {
      var s' := Step(job, s, events[0]);
      StepConsistent(job, s, events[0]);
      CountUpdate(s.workers, events[0].worker, s'.workers[events[0].worker], Finished);
      assert s'.workers == s.workers[events[0].worker := s'.workers[events[0].worker]];
      CounterIs(job, s', events[1..]);
    }
  }
}
