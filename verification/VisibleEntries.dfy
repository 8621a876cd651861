/** Hiding contributors (`filterVisibleEntries`) with the promise memo of `isDefaultGitHubAvatar`.
  *
  * The memo maps a normalised login to the promise of its one probe; promises are numbered by probe. The
  * mapper asks the memo in the synchronous part of the step that takes an index. */
module VisibleEntries {
  import opened JsText
  import opened Sorting
  import opened WorkerPool

  datatype Memo = Memo(promises: map<string, nat>, probes: seq<string>)

  /** `Promise.resolve(false)`, or the promise of a probe. */
  datatype Answer = Resolved | Probe(id: nat)

  function Ask(memo: Memo, normalized: Option<string>): (Memo, Answer) {
    if normalized.None? || normalized.value == "" then (memo, Resolved)
    else if normalized.value in memo.promises then (memo, Probe(memo.promises[normalized.value]))
    else
      (Memo(memo.promises[normalized.value := |memo.probes|], memo.probes + [normalized.value]), Probe(|memo.probes|))
  }

  class AvatarMemo {
    var defaultAvatarByLogin: map<string, nat>
    var probes: seq<string>

    ghost function Snapshot(): Memo
      reads this
    {
      Memo(defaultAvatarByLogin, probes)
    }

    constructor ()
      ensures Snapshot() == Memo(map[], [])
    {
      defaultAvatarByLogin, probes := map[], [];
    }

    method IsDefaultGitHubAvatar(normalized: Option<string>) returns (answer: Answer)
      modifies this
      ensures (Snapshot(), answer) == Ask(old(Snapshot()), normalized)
    {
      if normalized.None? || normalized.value == "" {
        return Resolved;
      }
      if normalized.value in defaultAvatarByLogin {
        return Probe(defaultAvatarByLogin[normalized.value]);
      }
      var pending := |probes|;
      probes := probes + [normalized.value];
      defaultAvatarByLogin := defaultAvatarByLogin[normalized.value := pending];
      answer := Probe(pending);
    }
  }

  /** Each login was probed once, and its promise is that probe's. */
  ghost predicate OneProbeEach(memo: Memo) {
    && Distinct(memo.probes)
    && (forall k | k in memo.promises :: memo.promises[k] < |memo.probes| && memo.probes[memo.promises[k]] == k)
    && (forall i | 0 <= i < |memo.probes| :: memo.probes[i] in memo.promises && memo.promises[memo.probes[i]] == i)
  }

  /** Promises, once handed out, stay. */
  ghost predicate Extends(a: Memo, b: Memo) {
    a.probes <= b.probes && forall k | k in a.promises :: k in b.promises && b.promises[k] == a.promises[k]
  }

  datatype Entry = Entry(login: Option<string>, key: string)

  datatype Decision = Keep | Drop | Await(id: nat)

  /** What the mapper decides before its first await. */
  function DecideEntry(memo: Memo, e: Entry, hidden: set<string>, normalize: string -> Option<string>): (Memo, Decision)
  {
    var login := if e.login.Some? then e.login.value else e.key;
    if login == "" then (memo, Keep)
    else
      var normalized := normalize(login);
      if normalized.Some? && normalized.value != "" && normalized.value in hidden then (memo, Drop)
      else
        var (memo', answer) := Ask(memo, normalized);
        (memo', if answer.Probe? then Await(answer.id) else Keep)
  }

  function DecideFrom(memo: Memo, entries: seq<Entry>, hidden: set<string>,
                      normalize: string -> Option<string>): (Memo, seq<Decision>)
    decreases |entries|
  {
    if entries == [] then (memo, [])
    else
      var (memo', d) := DecideEntry(memo, entries[0], hidden, normalize);
      var (end, rest) := DecideFrom(memo', entries[1..], hidden, normalize);
      (end, [d] + rest)
  }

  /** Whether an entry is shown, given what the probe of each login finds. */
  ghost predicate Shown(e: Entry, hidden: set<string>, normalize: string -> Option<string>,
                        isDefault: map<string, bool>)
  {
    var login := if e.login.Some? then e.login.value else e.key;
    login == "" ||
    var n := normalize(login);
    n.None? || n.value == "" || (n.value !in hidden && !(n.value in isDefault && isDefault[n.value]))
  }

  predicate Stays(d: Decision, probe: nat -> bool) {
    match d
    case Keep => true
    case Drop => false
    case Await(id) => !probe(id)
  }

  /** However often and for whichever logins the memo is asked, each login is probed once. */
  lemma {:induction false} DecideFromProbesOnce(memo: Memo, entries: seq<Entry>, hidden: set<string>,
                                                normalize: string -> Option<string>)
    requires OneProbeEach(memo)
    ensures var (end, decisions) := DecideFrom(memo, entries, hidden, normalize);
      OneProbeEach(end) && Extends(memo, end) && |decisions| == |entries|
    decreases |entries|
  {
    if entries != [] {
      var (memo', _) := DecideEntry(memo, entries[0], hidden, normalize);
      DecideFromProbesOnce(memo', entries[1..], hidden, normalize);
    }
  }

  ghost function Findings(memo: Memo, probe: nat -> bool): map<string, bool> {
    map k | k in memo.promises :: probe(memo.promises[k])
  }

  /** Every decision agrees with one finding per login: entries with the same login get the same verdict. */
  lemma {:induction false} DecisionsAgree(memo: Memo, entries: seq<Entry>, hidden: set<string>,
                                          normalize: string -> Option<string>, probe: nat -> bool, i: nat)
    requires OneProbeEach(memo) && i < |entries|
    ensures var (end, decisions) := DecideFrom(memo, entries, hidden, normalize);
      |decisions| == |entries| &&
      (Stays(decisions[i], probe) <==> Shown(entries[i], hidden, normalize, Findings(end, probe)))
    decreases |entries|
  {
    hide DecideEntry, OneProbeEach, Stays, Shown, Findings, Extends;
    var (memo', d) := DecideEntry(memo, entries[0], hidden, normalize);
    DecideFromProbesOnce(memo, entries, hidden, normalize);
    EntryProbesOnce(memo, entries[0], hidden, normalize);
    DecideFromProbesOnce(memo', entries[1..], hidden, normalize);
    if i > 0 {
      DecisionsAgree(memo', entries[1..], hidden, normalize, probe, i - 1);
    } else {
      EntryAgrees(memo, entries[0], hidden, normalize, probe, DecideFrom(memo', entries[1..], hidden, normalize).0);
    }
  }

  lemma EntryProbesOnce(memo: Memo, e: Entry, hidden: set<string>, normalize: string -> Option<string>)
    requires OneProbeEach(memo)
    ensures OneProbeEach(DecideEntry(memo, e, hidden, normalize).0)
  {
  }

  /** The decision on one entry, read against any later memo. */
  lemma EntryAgrees(memo: Memo, e: Entry, hidden: set<string>, normalize: string -> Option<string>,
                    probe: nat -> bool, end: Memo)
    requires Extends(DecideEntry(memo, e, hidden, normalize).0, end)
    ensures Stays(DecideEntry(memo, e, hidden, normalize).1, probe) <==>
      Shown(e, hidden, normalize, Findings(end, probe))
  {
  }

  ghost function ShownFrom(entries: seq<Entry>, hidden: set<string>, normalize: string -> Option<string>,
                           isDefault: map<string, bool>): seq<Entry>
  {
    if entries == [] then []
    else
      (if Shown(entries[0], hidden, normalize, isDefault) then [entries[0]] else [])
      + ShownFrom(entries[1..], hidden, normalize, isDefault)
  }

  /** The mapper of `filterVisibleEntries`: a null result is no value. */
  function MapperOutcome(entries: seq<Entry>, decisions: seq<Decision>, probe: nat -> bool): nat -> Outcome<Entry> {
    (i: nat) => if i < |entries| && i < |decisions| && Stays(decisions[i], probe) then Value(entries[i]) else Nothing
  }

  // ----- the memo inside the interleaved pool -----

  datatype Task = Task(entries: seq<Entry>, hidden: set<string>, normalize: string -> Option<string>,
                       probe: nat -> bool)

  /** The pool with the memo its mappers share and the decisions they made so far, in the order of the claims. */
  datatype Visit = Visit(pool: State<Entry>, memo: Memo, decisions: seq<Decision>)

  const NO_MEMO := Memo(map[], [])

  function Decided(t: Task, n: nat): (Memo, seq<Decision>)
    requires n <= |t.entries|
  {
    DecideFrom(NO_MEMO, t.entries[..n], t.hidden, t.normalize)
  }

  function JobWith(t: Task, decisions: seq<Decision>): Job<Entry> {
    MapJob(|t.entries|, 8, MapperOutcome(t.entries, decisions, t.probe))
  }

  function Begin(t: Task): Visit {
    Visit(WorkerPool.Start(JobWith(t, [])), NO_MEMO, [])
  }

  /** Taking an index runs the mapper up to its await, which asks the memo; storing ends it. */
  function VisitStep(t: Task, v: Visit, e: Event): Visit
    requires Enabled(v.pool, e)
  {
    var pool := Step(JobWith(t, v.decisions), v.pool, e);
    if e.Take? && v.pool.next < |t.entries| then
      var (memo, d) := DecideEntry(v.memo, t.entries[v.pool.next], t.hidden, t.normalize);
      Visit(pool, memo, v.decisions + [d])
    else v.(pool := pool)
  }

  ghost predicate IsVisitRun(t: Task, v: Visit, events: seq<Event>)
    decreases |events|
  {
    events == [] || (Enabled(v.pool, events[0]) && IsVisitRun(t, VisitStep(t, v, events[0]), events[1..]))
  }

  ghost function VisitRun(t: Task, v: Visit, events: seq<Event>): Visit
    requires IsVisitRun(t, v, events)
    decreases |events|
  {
    if events == [] then v else VisitRun(t, VisitStep(t, v, events[0]), events[1..])
  }

  lemma {:induction false} DecideFromAppend(memo: Memo, a: seq<Entry>, b: seq<Entry>, hidden: set<string>,
                                            normalize: string -> Option<string>)
    ensures var (middle, first) := DecideFrom(memo, a, hidden, normalize);
      var (end, rest) := DecideFrom(middle, b, hidden, normalize);
      DecideFrom(memo, a + b, hidden, normalize) == (end, first + rest)
    decreases |a|
  {
    hide DecideEntry;
    if a == [] {
      assert a + b == b;
      var (_, rest) := DecideFrom(memo, b, hidden, normalize);
      assert [] + rest == rest;
    } else {
      var (memo', d) := DecideEntry(memo, a[0], hidden, normalize);
      DecideFromAppend(memo', a[1..], b, hidden, normalize);
      assert (a + b)[1..] == a[1..] + b;
      var (middle, first) := DecideFrom(memo', a[1..], hidden, normalize);
      var (_, rest) := DecideFrom(middle, b, hidden, normalize);
      assert [d] + (first + rest) == [d] + first + rest;
    }
  }

  lemma DecidedOneMore(t: Task, n: nat)
    requires n < |t.entries|
    ensures var (memo, decisions) := Decided(t, n);
      var (memo', d) := DecideEntry(memo, t.entries[n], t.hidden, t.normalize);
      Decided(t, n + 1) == (memo', decisions + [d])
  {
    hide DecideEntry;
    assert t.entries[..n + 1] == t.entries[..n] + [t.entries[n]];
    DecideFromAppend(NO_MEMO, t.entries[..n], [t.entries[n]], t.hidden, t.normalize);
    DecideOne(Decided(t, n).0, t.entries[n], t.hidden, t.normalize);
  }

  lemma DecideOne(memo: Memo, e: Entry, hidden: set<string>, normalize: string -> Option<string>)
    ensures var (memo', d) := DecideEntry(memo, e, hidden, normalize);
      DecideFrom(memo, [e], hidden, normalize) == (memo', [d])
  {
    hide DecideEntry;
    var (memo', d) := DecideEntry(memo, e, hidden, normalize);
    assert [e][1..] == [];
    assert DecideFrom(memo', [], hidden, normalize) == (memo', []);
    assert [d] + [] == [d];
  }

  lemma NoProbesYet()
    ensures OneProbeEach(NO_MEMO)
  {
  }

  /** Decisions, once made, are those of the whole list. */
  lemma DecidedPrefix(t: Task, n: nat)
    requires n <= |t.entries|
    ensures |Decided(t, n).1| == n && Decided(t, n).1 <= Decided(t, |t.entries|).1
  {
    hide DecideEntry, OneProbeEach;
    NoProbesYet();
    DecideFromProbesOnce(NO_MEMO, t.entries[..n], t.hidden, t.normalize);
    assert t.entries[..|t.entries|] == t.entries == t.entries[..n] + t.entries[n..];
    DecideFromAppend(NO_MEMO, t.entries[..n], t.entries[n..], t.hidden, t.normalize);
  }

  /** What every run keeps: the memo and the decisions are those of asking for the claimed entries in order. */
  ghost predicate InOrder(t: Task, v: Visit) {
    v.pool.next <= |t.entries| && (v.memo, v.decisions) == Decided(t, v.pool.next)
  }

  lemma StepTakesInOrder(t: Task, v: Visit, e: Event)
    requires InOrder(t, v) && Enabled(v.pool, e)
    ensures InOrder(t, VisitStep(t, v, e))
  {
    hide DecideEntry, Decided, Stays;
    if e.Take? && v.pool.next < |t.entries| {
      DecidedOneMore(t, v.pool.next);
    }
  }

  /** The pool inside is a run of the pool whose mappers know all decisions in advance. */
  lemma StepProjects(t: Task, v: Visit, e: Event)
    requires InOrder(t, v) && Enabled(v.pool, e)
    requires Consistent(JobWith(t, Decided(t, |t.entries|).1), v.pool)
    ensures InOrder(t, VisitStep(t, v, e))
    ensures VisitStep(t, v, e).pool == Step(JobWith(t, Decided(t, |t.entries|).1), v.pool, e)
  {
    hide DecideEntry, Slots, Endings, Decided, Stays;
    StepTakesInOrder(t, v, e);
    DecidedPrefix(t, v.pool.next);
    if e.Store? {
      var all, i := Decided(t, |t.entries|).1, v.pool.workers[e.worker].index;
      assert i < |v.decisions| && v.decisions[i] == all[i];
      assert JobWith(t, v.decisions).outcome(i) == JobWith(t, all).outcome(i);
    }
  }

  lemma {:induction false} RunProjects(t: Task, v: Visit, events: seq<Event>)
    requires InOrder(t, v) && IsVisitRun(t, v, events)
    requires Consistent(JobWith(t, Decided(t, |t.entries|).1), v.pool)
    ensures InOrder(t, VisitRun(t, v, events))
    ensures var job := JobWith(t, Decided(t, |t.entries|).1);
      IsRun(job, v.pool, events) && VisitRun(t, v, events).pool == Run(job, v.pool, events)
    decreases |events|
  {
    hide InOrder, Consistent, Step, VisitStep, Decided, JobWith, Enabled;
    if events != [] {
      StepProjects(t, v, events[0]);
      StepConsistent(JobWith(t, Decided(t, |t.entries|).1), v.pool, events[0]);
      RunProjects(t, VisitStep(t, v, events[0]), events[1..]);
    }
  }

  lemma BeginIsInOrder(t: Task)
    ensures InOrder(t, Begin(t)) && Begin(t).pool == WorkerPool.Start(JobWith(t, Decided(t, |t.entries|).1))
  {
  }

  /** In every interleaving, at every moment: the memo has been asked for the claimed entries in their order, and
    * each login was probed at most once. */
  lemma EveryRunProbesOnce(t: Task, events: seq<Event>)
    requires IsVisitRun(t, Begin(t), events)
    ensures var v := VisitRun(t, Begin(t), events);
      && v.pool.next <= |t.entries|
      && (v.memo, v.decisions) == DecideFrom(NO_MEMO, t.entries[..v.pool.next], t.hidden, t.normalize)
      && OneProbeEach(v.memo)
  {
    hide Consistent, OneProbeEach, DecideFrom;
    BeginIsInOrder(t);
    StartConsistent(JobWith(t, Decided(t, |t.entries|).1));
    RunProjects(t, Begin(t), events);
    NoProbesYet();
    DecideFromProbesOnce(NO_MEMO, t.entries[..VisitRun(t, Begin(t), events).pool.next], t.hidden, t.normalize);
  }

  /** At most eight probes are awaited at once. */
  lemma AtMostEightAwaited(t: Task, events: seq<Event>)
    requires IsVisitRun(t, Begin(t), events)
    ensures |InFlight(VisitRun(t, Begin(t), events).pool)| <= 8
  {
    hide Consistent, DecideFrom, IsRun, Run, InFlight;
    var job := JobWith(t, Decided(t, |t.entries|).1);
    BeginIsInOrder(t);
    StartConsistent(job);
    RunProjects(t, Begin(t), events);
    InFlightBounded(job, events);
  }

  /** In every interleaving that has ended, the visible entries are those the one probe of each login shows, in
    * input order. */
  lemma VisibleInOrder(t: Task, events: seq<Event>)
    requires IsVisitRun(t, Begin(t), events) && Ended(VisitRun(t, Begin(t), events).pool)
    ensures var v := VisitRun(t, Begin(t), events);
      && OneProbeEach(v.memo) && Fulfilled(v.pool)
      && Present(v.pool.results) == ShownFrom(t.entries, t.hidden, t.normalize, Findings(v.memo, t.probe))
  {
    hide Consistent, OneProbeEach, DecideFrom, Findings, ShownFrom, Present, IsRun, Run;
    var (memo, decisions) := Decided(t, |t.entries|);
    var job, v := JobWith(t, decisions), VisitRun(t, Begin(t), events);
    BeginIsInOrder(t);
    StartConsistent(job);
    RunProjects(t, Begin(t), events);
    EveryRunProbesOnce(t, events);
    PoolIsSequential(job, events);
    assert v.pool.next == |t.entries| by {
      RunConsistent(job, WorkerPool.Start(job), events);
      AllClaimed(job, v.pool);
    }
    PresentIsReadable(job, 0);
    assert Sequential(job)[0..] == Sequential(job) && t.entries[0..] == t.entries == t.entries[..|t.entries|];
    ReadableIsShown(t.entries, t.hidden, t.normalize, decisions, memo, t.probe, 0);
  }

  lemma AllClaimed(job: Job<Entry>, s: State<Entry>)
    requires Consistent(job, s) && job.workers >= 1 && Fulfilled(s)
    ensures s.next >= job.size
  {
    assert s.workers[0].Finished?;
  }

  lemma {:induction false} ReadableIsShown(entries: seq<Entry>, hidden: set<string>,
                                           normalize: string -> Option<string>, decisions: seq<Decision>, memo: Memo,
                                           probe: nat -> bool, i: nat)
    requires i <= |entries|
    requires (memo, decisions) == DecideFrom(Memo(map[], []), entries, hidden, normalize)
    ensures ReadableFrom(MapperOutcome(entries, decisions, probe), i, |entries|)
         == ShownFrom(entries[i..], hidden, normalize, Findings(memo, probe))
    decreases |entries| - i
  {
    if i < |entries| {
      DecisionsAgree(Memo(map[], []), entries, hidden, normalize, probe, i);
      assert entries[i..][0] == entries[i] && entries[i..][1..] == entries[i + 1..];
      ReadableIsShown(entries, hidden, normalize, decisions, memo, probe, i + 1);
    }
  }
}
