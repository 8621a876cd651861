/** The parent of a respawned process (`runCliRespawnPlan`, `runOpenClawCompileCacheRespawnPlan`, and the bridge
  * that forwards signals to the child), as a timed machine over its callbacks.
  *
  * A timer fires at its deadline or up to `slack` milliseconds later; time never passes a deadline by more. With
  * slack 0 timers are punctual. `runtime.exit` does not return: nothing happens in the parent after it. */
module RespawnSupervisor {
  import opened JsText

  const SIGNAL_EXIT_GRACE_MS := 1000
  const SIGNAL_FORCE_KILL_GRACE_MS := 1000

  /** A timer variable holds its handle after the timer has fired. */
  datatype Timer = Unset | Armed(deadline: nat) | Fired

  /** The kills the parent sends: a signal passed on, its own SIGTERM, and the force kill. */
  datatype Kill = Forward(signal: string, at: nat) | Terminate(at: nat) | Force(signal: string, at: nat)

  datatype State = State(
    now: nat,
    exitTimer: Timer,
    forceTimer: Timer,
    kills: seq<Kill>,
    exited: Option<int>)

  datatype Event =
    | Wait(ms: nat)
    | Signal(name: string)
    | ExitTimerFires
    | ForceTimerFires
    | ChildExit(code: Option<int>, bySignal: bool)
    | ChildError

  /** How the surroundings are set: the platform, and how late timers may be. */
  datatype Setting = Setting(win32: bool, slack: nat)

  function Start(now: nat): State {
    State(now, Unset, Unset, [], None)
  }

  predicate InTime(timer: Timer, now: nat, slack: nat) {
    timer.Armed? ==> now <= timer.deadline + slack
  }

  predicate Due(timer: Timer, now: nat) {
    timer.Armed? && timer.deadline <= now
  }

  predicate Enabled(setting: Setting, s: State, e: Event) {
    s.exited.None? &&
    match e
    case Wait(ms) => InTime(s.exitTimer, s.now + ms, setting.slack) && InTime(s.forceTimer, s.now + ms, setting.slack)
    case ExitTimerFires => Due(s.exitTimer, s.now)
    case ForceTimerFires => Due(s.forceTimer, s.now)
    case _ => true
  }

  function ForceSignal(setting: Setting): string {
    if setting.win32 then "SIGTERM" else "SIGKILL"
  }

  function Exit(s: State, code: int): State {
    s.(exited := Some(code), exitTimer := Unset, forceTimer := Unset)
  }

  function Step(setting: Setting, s: State, e: Event): State {
    match e
    case Wait(ms) => s.(now := s.now + ms)
    case Signal(name) =>
      s.(exitTimer := if s.exitTimer.Unset? then Armed(s.now + SIGNAL_EXIT_GRACE_MS) else s.exitTimer,
         kills := s.kills + [Forward(name, s.now)])
    case ExitTimerFires =>
      s.(exitTimer := Fired, forceTimer := Armed(s.now + SIGNAL_FORCE_KILL_GRACE_MS),
         kills := s.kills + [Terminate(s.now)])
    case ForceTimerFires =>
      s.(forceTimer := Fired, kills := s.kills + [Force(ForceSignal(setting), s.now)], exited := Some(1))
    case ChildExit(code, bySignal) => Exit(s, if bySignal || code.None? then 1 else code.value)
    case ChildError => Exit(s, 1)
  }

  /** Runs from the moment the child was spawned. */
  ghost function Run(setting: Setting, spawnedAt: nat, events: seq<Event>): State {
    if events == [] then Start(spawnedAt)
    else Step(setting, Run(setting, spawnedAt, events[..|events| - 1]), events[|events| - 1])
  }

  ghost predicate IsRun(setting: Setting, spawnedAt: nat, events: seq<Event>) {
    events == [] ||
    (var front := events[..|events| - 1];
      IsRun(setting, spawnedAt, front) && Enabled(setting, Run(setting, spawnedAt, front), events[|events| - 1]))
  }

  // ----- the two copies as objects -----

  datatype Copy = CliCopy | CompileCacheCopy

  class Supervisor {
    const copy: Copy
    const setting: Setting
    var now: nat
    var signalExitTimer: Timer
    var signalForceKillTimer: Timer
    var kills: seq<Kill>
    var exited: Option<int>

    ghost function Snapshot(): State
      reads this
    {
      State(now, signalExitTimer, signalForceKillTimer, kills, exited)
    }

    constructor (copy: Copy, setting: Setting, now: nat)
      ensures this.copy == copy && this.setting == setting && Snapshot() == Start(now)
    {
      this.copy := copy;
      this.setting := setting;
      this.now := now;
      signalExitTimer, signalForceKillTimer := Unset, Unset;
      kills := [];
      exited := None;
    }

    /** The first call ends the process; what the text of a handler says after it does not happen. */
    method Exit(code: int)
      modifies this`exited
      ensures exited == if old(exited).None? then Some(code) else old(exited)
    {
      if exited.None? {
        exited := Some(code);
      }
    }

    method ClearSignalTimers()
      modifies this`signalExitTimer, this`signalForceKillTimer
      ensures signalExitTimer == Unset && signalForceKillTimer == Unset
    {
      if signalExitTimer != Unset {
        signalExitTimer := Unset;
      }
      if signalForceKillTimer != Unset {
        signalForceKillTimer := Unset;
      }
    }

    /** The bridge's listener: schedule the parent's exit, then pass the signal on. */
    method OnSignal(name: string)
      requires Enabled(setting, Snapshot(), Signal(name))
      modifies this
      ensures Snapshot() == Step(setting, old(Snapshot()), Signal(name))
    {
      ScheduleParentExit();
      kills := kills + [Forward(name, now)];
    }

    method ScheduleParentExit()
      modifies this`signalExitTimer
      ensures signalExitTimer ==
        if old(signalExitTimer).Unset? then Armed(now + SIGNAL_EXIT_GRACE_MS) else old(signalExitTimer)
    {
      if signalExitTimer != Unset {
        return;
      }
      signalExitTimer := Armed(now + SIGNAL_EXIT_GRACE_MS);
    }

    method RequestChildTermination()
      requires Enabled(setting, Snapshot(), ExitTimerFires)
      modifies this
      ensures Snapshot() == Step(setting, old(Snapshot()), ExitTimerFires)
    {
      signalExitTimer := Fired;
      kills := kills + [Terminate(now)];
      signalForceKillTimer := Armed(now + SIGNAL_FORCE_KILL_GRACE_MS);
    }

    method ForceKillAndExit()
      requires Enabled(setting, Snapshot(), ForceTimerFires)
      modifies this
      ensures Snapshot() == Step(setting, old(Snapshot()), ForceTimerFires)
    {
      signalForceKillTimer := Fired;
      kills := kills + [Force(if setting.win32 then "SIGTERM" else "SIGKILL", now)];
      Exit(1);
    }

    /** The copies differ in the text of this handler: one returns after the first exit, the other does not. */
    method OnChildExit(code: Option<int>, bySignal: bool)
      requires Enabled(setting, Snapshot(), ChildExit(code, bySignal))
      modifies this
      ensures Snapshot() == Step(setting, old(Snapshot()), ChildExit(code, bySignal))
    {
      ClearSignalTimers();
      if bySignal {
        Exit(1);
        if copy == CliCopy {
          return;
        }
      }
      Exit(if code.Some? then code.value else 1);
    }

    method OnChildError()
      requires Enabled(setting, Snapshot(), ChildError)
      modifies this
      ensures Snapshot() == Step(setting, old(Snapshot()), ChildError)
    {
      ClearSignalTimers();
      Exit(1);
    }
  }

  // ----- reading a run -----

  function Clock(spawnedAt: nat, events: seq<Event>): nat {
    if events == [] then spawnedAt
    else
      var last := events[|events| - 1];
      Clock(spawnedAt, events[..|events| - 1]) + if last.Wait? then last.ms else 0
  }

  function FirstSignal(spawnedAt: nat, events: seq<Event>): Option<nat> {
    if events == [] then None
    else
      var front := events[..|events| - 1];
      var before := FirstSignal(spawnedAt, front);
      if before.None? && events[|events| - 1].Signal? then Some(Clock(spawnedAt, front)) else before
  }

  /** The signals of a run with the times they came at. */
  function Signals(spawnedAt: nat, events: seq<Event>): seq<Kill> {
    if events == [] then []
    else
      var front, last := events[..|events| - 1], events[|events| - 1];
      Signals(spawnedAt, front) + if last.Signal? then [Forward(last.name, Clock(spawnedAt, front))] else []
  }

  function Forwards(kills: seq<Kill>): seq<Kill> {
    if kills == [] then []
    else Forwards(kills[..|kills| - 1]) + if kills[|kills| - 1].Forward? then [kills[|kills| - 1]] else []
  }

  /** The times of the parent's own SIGTERMs and of its force kills. */
  function Terminations(kills: seq<Kill>): seq<nat> {
    if kills == [] then []
    else Terminations(kills[..|kills| - 1]) + if kills[|kills| - 1].Terminate? then [kills[|kills| - 1].at] else []
  }

  function ForceKills(kills: seq<Kill>): seq<nat> {
    if kills == [] then []
    else ForceKills(kills[..|kills| - 1]) + if kills[|kills| - 1].Force? then [kills[|kills| - 1].at] else []
  }

  lemma OneMore(kills: seq<Kill>, kill: Kill)
    ensures Forwards(kills + [kill]) == Forwards(kills) + if kill.Forward? then [kill] else []
    ensures Terminations(kills + [kill]) == Terminations(kills) + if kill.Terminate? then [kill.at] else []
    ensures ForceKills(kills + [kill]) == ForceKills(kills) + if kill.Force? then [kill.at] else []
  {
    assert (kills + [kill])[..|kills|] == kills;
  }

  predicate Between(low: nat, t: nat, slack: nat) {
    low <= t <= low + slack
  }

  /** The times of the parent's own kills, against the time of the first signal. */
  ghost predicate Escalation(slack: nat, first: Option<nat>, terms: seq<nat>, forces: seq<nat>) {
    && |forces| <= |terms| <= 1
    && (terms != [] ==> first.Some? && Between(first.value + SIGNAL_EXIT_GRACE_MS, terms[0], slack))
    && (forces != [] ==> Between(terms[0] + SIGNAL_FORCE_KILL_GRACE_MS, forces[0], slack))
  }

  /** While the parent lives, its timers follow from the first signal and its own SIGTERM alone. */
  ghost predicate Timers(first: Option<nat>, terms: seq<nat>, s: State) {
    && s.exitTimer == (if first.None? then Unset
                       else if terms == [] then Armed(first.value + SIGNAL_EXIT_GRACE_MS) else Fired)
    && s.forceTimer == (if terms == [] then Unset else Armed(terms[0] + SIGNAL_FORCE_KILL_GRACE_MS))
  }

  ghost predicate Consistent(slack: nat, first: Option<nat>, terms: seq<nat>, forces: seq<nat>, s: State) {
    && Escalation(slack, first, terms, forces)
    && (s.exited.None? ==> forces == [] && Timers(first, terms, s))
    && (forces != [] ==> s.exited == Some(1))
    && (s.exited.Some? ==> !s.exitTimer.Armed? && !s.forceTimer.Armed?)
    && (first.Some? ==> s.now <= first.value + SIGNAL_EXIT_GRACE_MS + SIGNAL_FORCE_KILL_GRACE_MS + 2 * slack)
    && InTime(s.exitTimer, s.now, slack) && InTime(s.forceTimer, s.now, slack)
  }

  lemma StepConsistent(setting: Setting, first: Option<nat>, terms: seq<nat>, forces: seq<nat>, s: State, e: Event)
    requires Consistent(setting.slack, first, terms, forces, s) && Enabled(setting, s, e)
    ensures Consistent(
      setting.slack,
      if first.None? && e.Signal? then Some(s.now) else first,
      if e.ExitTimerFires? then terms + [s.now] else terms,
      if e.ForceTimerFires? then forces + [s.now] else forces,
      Step(setting, s, e))
  {
  }

  lemma StepKills(setting: Setting, s: State, e: Event)
    ensures var kills := Step(setting, s, e).kills;
      && Forwards(kills) == Forwards(s.kills) + (if e.Signal? then [Forward(e.name, s.now)] else [])
      && Terminations(kills) == (if e.ExitTimerFires? then Terminations(s.kills) + [s.now] else Terminations(s.kills))
      && ForceKills(kills) == (if e.ForceTimerFires? then ForceKills(s.kills) + [s.now] else ForceKills(s.kills))
  {
    match e
    case Signal(name) => OneMore(s.kills, Forward(name, s.now));
    case ExitTimerFires => OneMore(s.kills, Terminate(s.now));
    case ForceTimerFires => OneMore(s.kills, Force(ForceSignal(setting), s.now));
    case _ =>
  }

  /** Every run: the parent's own SIGTERM and the force kill go out at most once each and a full grace period
    * apart, the force kill only after the SIGTERM; the parent is gone two grace periods after the first signal;
    * and exactly the signals that came are passed on, in order and at once. */
  lemma {:induction false} RunConsistent(setting: Setting, spawnedAt: nat, events: seq<Event>)
    requires IsRun(setting, spawnedAt, events)
    ensures var s := Run(setting, spawnedAt, events);
      && s.now == Clock(spawnedAt, events)
      && Consistent(setting.slack, FirstSignal(spawnedAt, events), Terminations(s.kills), ForceKills(s.kills), s)
      && Forwards(s.kills) == Signals(spawnedAt, events)
  {
    if events != [] {
      var front, last := events[..|events| - 1], events[|events| - 1];
      var s := Run(setting, spawnedAt, front);
      RunConsistent(setting, spawnedAt, front);
      StepConsistent(setting, FirstSignal(spawnedAt, front), Terminations(s.kills), ForceKills(s.kills), s, last);
      StepKills(setting, s, last);
    }
  }

  /** With punctual timers the times are exact: SIGTERM 1000 ms after the first signal, the force kill and the
    * parent's exit 1000 ms after that. */
  lemma PunctualTimes(win32: bool, spawnedAt: nat, events: seq<Event>)
    requires IsRun(Setting(win32, 0), spawnedAt, events)
    ensures var s, first := Run(Setting(win32, 0), spawnedAt, events), FirstSignal(spawnedAt, events);
      && (Terminations(s.kills) == [] || (first.Some? && Terminations(s.kills) == [first.value + 1000]))
      && (ForceKills(s.kills) == []
           || (first.Some? && ForceKills(s.kills) == [first.value + 2000] && s.exited == Some(1)))
      && (first.Some? ==> Clock(spawnedAt, events) <= first.value + 2000)
  {
    hide Run, IsRun, Clock, FirstSignal, Terminations, ForceKills, Forwards, Signals, Escalation;
    RunConsistent(Setting(win32, 0), spawnedAt, events);
    var s, first := Run(Setting(win32, 0), spawnedAt, events), FirstSignal(spawnedAt, events);
    PunctualEscalation(first, Terminations(s.kills), ForceKills(s.kills));
  }

  lemma PunctualEscalation(first: Option<nat>, terms: seq<nat>, forces: seq<nat>)
    requires Escalation(0, first, terms, forces)
    ensures terms == [] || (first.Some? && terms == [first.value + 1000])
    ensures forces == [] || (first.Some? && forces == [first.value + 2000])
  {
  }

  // ----- the end of a run -----

  /** The exit code an event ends the parent with, if it does. */
  function EndsWith(e: Event): Option<int> {
    match e
    case ChildExit(Some(code), false) => Some(code)
    case ChildExit(_, _) => Some(1)
    case ChildError => Some(1)
    case ForceTimerFires => Some(1)
    case _ => None
  }

  lemma {:induction false} PrefixIsRun(setting: Setting, spawnedAt: nat, events: seq<Event>, n: nat)
    requires IsRun(setting, spawnedAt, events) && n <= |events|
    ensures IsRun(setting, spawnedAt, events[..n])
    decreases |events|
  {
    if n < |events| {
      PrefixIsRun(setting, spawnedAt, events[..|events| - 1], n);
      assert events[..|events| - 1][..n] == events[..n];
    } else {
      assert events[..n] == events;
    }
  }

  /** The parent exits by the last event of a run or not at all, with the child's code on a normal exit and 1
    * otherwise; so it exits once, and no kill follows the child's end. */
  lemma ExitsOnce(setting: Setting, spawnedAt: nat, events: seq<Event>)
    requires IsRun(setting, spawnedAt, events)
    ensures Run(setting, spawnedAt, events).exited == if events == [] then None else EndsWith(events[|events| - 1])
    ensures forall i | 0 <= i < |events| - 1 :: EndsWith(events[i]).None?
    ensures events != [] && (events[|events| - 1].ChildExit? || events[|events| - 1].ChildError?) ==>
      Run(setting, spawnedAt, events).kills == Run(setting, spawnedAt, events[..|events| - 1]).kills
  {
    forall i | 0 <= i < |events| - 1 ensures EndsWith(events[i]).None? {
      PrefixIsRun(setting, spawnedAt, events, i + 2);
      var upTo := events[..i + 2];
      assert upTo[..|upTo| - 1] == events[..i + 1] && events[..i + 1][..i] == events[..i];
      assert Enabled(setting, Run(setting, spawnedAt, events[..i + 1]), events[i + 1]);
      assert Run(setting, spawnedAt, events[..i + 1]) == Step(setting, Run(setting, spawnedAt, events[..i]), events[i]);
    }
  }

  lemma OneMoreEvent(setting: Setting, spawnedAt: nat, events: seq<Event>, e: Event)
    requires IsRun(setting, spawnedAt, events) && Enabled(setting, Run(setting, spawnedAt, events), e)
    ensures IsRun(setting, spawnedAt, events + [e])
    ensures Run(setting, spawnedAt, events + [e]) == Step(setting, Run(setting, spawnedAt, events), e)
  {
    assert (events + [e])[..|events|] == events;
  }

  /** Time passes to the deadline of an armed timer, and not past it. */
  function Until(timer: Timer, now: nat): Event {
    Wait(if timer.Armed? && timer.deadline > now then timer.deadline - now else 0)
  }

  ghost predicate FromTheClock(events: seq<Event>) {
    forall e | e in events :: e.Wait? || e.ExitTimerFires? || e.ForceTimerFires?
  }

  /** Once the force kill is armed, time alone ends the parent. */
  lemma ForceKillEnds(setting: Setting, spawnedAt: nat, events: seq<Event>) returns (rest: seq<Event>)
    requires IsRun(setting, spawnedAt, events)
    requires var s := Run(setting, spawnedAt, events);
      s.exited.None? && s.forceTimer.Armed? && s.exitTimer.Fired? && InTime(s.forceTimer, s.now, setting.slack)
    ensures FromTheClock(rest) && IsRun(setting, spawnedAt, events + rest)
    ensures Run(setting, spawnedAt, events + rest).exited == Some(1)
  {
    hide Run, IsRun;
    var s := Run(setting, spawnedAt, events);
    var wait := Until(s.forceTimer, s.now);
    OneMoreEvent(setting, spawnedAt, events, wait);
    OneMoreEvent(setting, spawnedAt, events + [wait], ForceTimerFires);
    rest := [wait, ForceTimerFires];
    assert events + rest == events + [wait] + [ForceTimerFires];
  }

  /** A parent that has seen a signal ends by time alone, whatever the child does: from every moment on, the clock
    * and the two timers lead to an exit with code 1. */
  lemma TimeEndsTheParent(setting: Setting, spawnedAt: nat, events: seq<Event>) returns (rest: seq<Event>)
    requires IsRun(setting, spawnedAt, events) && Run(setting, spawnedAt, events).exited.None?
    requires FirstSignal(spawnedAt, events).Some?
    ensures FromTheClock(rest) && IsRun(setting, spawnedAt, events + rest)
    ensures Run(setting, spawnedAt, events + rest).exited == Some(1)
  {
    hide Run, IsRun, FirstSignal, Clock, Forwards, Signals, Terminations, ForceKills, Escalation;
    RunConsistent(setting, spawnedAt, events);
    var s := Run(setting, spawnedAt, events);
    if s.exitTimer.Armed? {
      var wait := Until(s.exitTimer, s.now);
      OneMoreEvent(setting, spawnedAt, events, wait);
      OneMoreEvent(setting, spawnedAt, events + [wait], ExitTimerFires);
      var later := ForceKillEnds(setting, spawnedAt, events + [wait] + [ExitTimerFires]);
      rest := [wait, ExitTimerFires] + later;
      assert events + rest == events + [wait] + [ExitTimerFires] + later;
    } else {
      rest := ForceKillEnds(setting, spawnedAt, events);
    }
  }

  // ----- later signals change nothing but what is passed on -----

  /** The run without its signals after the first. */
  function FirstSignalOnly(events: seq<Event>): seq<Event> {
    if events == [] then []
    else
      var front, last := events[..|events| - 1], events[|events| - 1];
      if last.Signal? && AnySignal(front) then FirstSignalOnly(front) else FirstSignalOnly(front) + [last]
  }

  predicate AnySignal(events: seq<Event>) {
    exists e | e in events :: e.Signal?
  }

  /** Two states that differ in forwarded kills only. */
  ghost predicate AlikeButForwards(a: State, b: State) {
    && a.now == b.now && a.exitTimer == b.exitTimer && a.forceTimer == b.forceTimer && a.exited == b.exited
    && Terminations(a.kills) == Terminations(b.kills) && ForceKills(a.kills) == ForceKills(b.kills)
  }

  lemma StepAlike(setting: Setting, a: State, b: State, e: Event)
    requires AlikeButForwards(a, b) && Enabled(setting, a, e)
    ensures Enabled(setting, b, e) && AlikeButForwards(Step(setting, a, e), Step(setting, b, e))
  {
    hide Terminations, ForceKills, Forwards;
    StepKills(setting, a, e);
    StepKills(setting, b, e);
  }

  lemma {:induction false} SignalKnown(spawnedAt: nat, events: seq<Event>)
    ensures FirstSignal(spawnedAt, events).Some? <==> AnySignal(events)
  {
    if events != [] {
      var front, last := events[..|events| - 1], events[|events| - 1];
      SignalKnown(spawnedAt, front);
      assert events == front + [last];
      assert AnySignal(events) <==> AnySignal(front) || last.Signal?;
    }
  }

  /** Repeated signals never move a deadline: leave them out, and the parent kills and exits at the same times
    * and with the same code. */
  lemma {:induction false} RepeatedSignalsChangeNothing(setting: Setting, spawnedAt: nat, events: seq<Event>)
    requires IsRun(setting, spawnedAt, events)
    ensures IsRun(setting, spawnedAt, FirstSignalOnly(events))
    ensures AlikeButForwards(Run(setting, spawnedAt, events), Run(setting, spawnedAt, FirstSignalOnly(events)))
  {
    if events != [] {
      var front, last := events[..|events| - 1], events[|events| - 1];
      var fewer := FirstSignalOnly(front);
      var a, b := Run(setting, spawnedAt, front), Run(setting, spawnedAt, fewer);
      RepeatedSignalsChangeNothing(setting, spawnedAt, front);
      if last.Signal? && AnySignal(front) {
        RunConsistent(setting, spawnedAt, front);
        SignalKnown(spawnedAt, front);
        OneMore(a.kills, Forward(last.name, a.now));
      } else {
        StepAlike(setting, a, b, last);
        assert (fewer + [last])[..|fewer|] == fewer;
      }
    }
  }

  lemma NoTimerOutlivesTheParent(setting: Setting, spawnedAt: nat, events: seq<Event>)
    requires IsRun(setting, spawnedAt, events) && Run(setting, spawnedAt, events).exited.Some?
    ensures var s := Run(setting, spawnedAt, events); !s.exitTimer.Armed? && !s.forceTimer.Armed?
  {
    hide Run, IsRun;
    RunConsistent(setting, spawnedAt, events);
  }

  // ----- which signals go out -----

  datatype Sent = Sent(signal: string, at: nat)

  /** What the child is sent, whichever part of the parent sends it. */
  ghost function AsSent(kills: seq<Kill>): seq<Sent> {
    if kills == [] then []
    else
      AsSent(kills[..|kills| - 1]) +
      match kills[|kills| - 1]
      case Forward(signal, at) => [Sent(signal, at)]
      case Terminate(at) => [Sent("SIGTERM", at)]
      case Force(signal, at) => [Sent(signal, at)]
  }

  /** Every signal that comes, at once; SIGTERM when the first timer fires; and SIGKILL when the second does, for which
    * Windows has SIGTERM. */
  ghost function DueSignals(win32: bool, spawnedAt: nat, events: seq<Event>): seq<Sent> {
    if events == [] then []
    else
      var front, e := events[..|events| - 1], events[|events| - 1];
      var at := Clock(spawnedAt, front);
      DueSignals(win32, spawnedAt, front) +
      if e.Signal? then [Sent(e.name, at)]
      else if e.ExitTimerFires? then [Sent("SIGTERM", at)]
      else if e.ForceTimerFires? then [Sent(if win32 then "SIGTERM" else "SIGKILL", at)]
      else []
  }

  /** In every run the child is sent exactly these signals, in this order, at these times. */
  lemma {:induction false} ChildIsSent(setting: Setting, spawnedAt: nat, events: seq<Event>)
    ensures AsSent(Run(setting, spawnedAt, events).kills) == DueSignals(setting.win32, spawnedAt, events)
    ensures Run(setting, spawnedAt, events).now == Clock(spawnedAt, events)
  {
    if events != [] {
      var front, e := events[..|events| - 1], events[|events| - 1];
      var s := Run(setting, spawnedAt, front);
      ChildIsSent(setting, spawnedAt, front);
      match e
      case Signal(name) => SendsOneMore(s.kills, Forward(name, s.now));
      case ExitTimerFires => SendsOneMore(s.kills, Terminate(s.now));
      case ForceTimerFires => SendsOneMore(s.kills, Force(ForceSignal(setting), s.now));
      case _ =>
    }
  }

  lemma SendsOneMore(kills: seq<Kill>, kill: Kill)
    ensures AsSent(kills + [kill]) == AsSent(kills) +
      match kill
      case Forward(signal, at) => [Sent(signal, at)]
      case Terminate(at) => [Sent("SIGTERM", at)]
      case Force(signal, at) => [Sent(signal, at)]
  {
    assert (kills + [kill])[..|kills|] == kills;
  }
}
