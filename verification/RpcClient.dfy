/** The serialised RPC client (`PiRpcClient`) as a machine over its events.
  *
  * An event is one synchronous stretch of the client: a caller asking for a prompt, the promise chain
  * reaching the next prompt, a line on standard output, a timer, a write callback, or the process ending.
  * `Step` is what one event does; the methods of the class are proved to do exactly that. The main
  * results hold in every state any sequence of events can reach. */
module RpcClient {
  import opened JsText

  datatype Reply = Translation(text: string) | Failure(error: string)

  datatype Outcome =
    | Resolved(agentEnd: nat, text: string)  // agentEnd numbers the `agent_end` line that was credited
    | Rejected(error: string)

  datatype PendingPrompt = PendingPrompt(id: nat, ticket: nat, responseReceived: bool)
  datatype Write = Write(id: nat, ticket: nat, message: string)
  datatype Queued = Queued(ticket: nat, message: string)
  datatype Settlement = Settlement(ticket: nat, outcome: Outcome)

  /** Tickets number the calls of `prompt`; ids number the prompts written to the process. */
  datatype State = State(
    closed: bool,
    pending: Option<PendingPrompt>,
    requestCount: nat,
    running: Option<nat>,       // the ticket whose promise is created and not settled
    queue: seq<Queued>,         // the rest of the promise chain
    timers: set<nat>,           // ids whose timeout is armed
    written: seq<Write>,
    settlements: seq<Settlement>,
    calls: nat,
    agentEnds: nat              // `agent_end` lines seen so far
  )

  datatype Event =
    | Prompt(message: string)
    | Turn                              // the promise chain reaches its next callback
    | Response(id: nat, success: bool, error: string)
    | AgentEnd(reply: Reply)
    | OtherLine
    | Timeout(id: nat)
    | WriteFailed(id: nat, error: string)
    | ProcessError(error: string)
    | ProcessClosed
    | Close

  const INITIAL := State(false, None, 0, None, [], {}, [], [], 0, 0)

  /** A promise settles once; later calls of its resolve or reject function do nothing. */
  function Settle(s: State, ticket: nat, outcome: Outcome): State {
    if s.running == Some(ticket)
    then s.(running := None, settlements := s.settlements + [Settlement(ticket, outcome)])
    else s
  }

  /** `this.pending = null` followed by the pending prompt's own resolve or reject. */
  function Finish(s: State, p: PendingPrompt, outcome: Outcome): State {
    Settle(s.(pending := None, timers := s.timers - {p.id}), p.ticket, outcome)
  }

  function RejectPending(s: State, error: string): State {
    match s.pending
    case None => s
    case Some(p) => Finish(s, p, Rejected(error))
  }

  function Start(s: State): State
    requires s.queue != []
  {
    var next := s.queue[0];
    var s := s.(queue := s.queue[1..], running := Some(next.ticket));
    if s.closed then Settle(s, next.ticket, Rejected("pi process unavailable"))
    else
      var id := s.requestCount + 1;
      s.(requestCount := id,
         pending := Some(PendingPrompt(id, next.ticket, false)),
         timers := s.timers + {id},
         written := s.written + [Write(id, next.ticket, next.message)])
  }

  function FireTimer(s: State, id: nat): State {
    var s := s.(timers := s.timers - {id});
    match s.pending
    case Some(p) =>
      if p.id == id then Settle(s.(pending := None, closed := true), p.ticket, Rejected("timed out")) else s
    case None => s
  }

  function FailWrite(s: State, id: nat, error: string): State
    requires 1 <= id <= |s.written|
  {
    var s' := s.(timers := s.timers - {id},
      pending := if s.pending.Some? && s.pending.value.id == id then None else s.pending);
    Settle(s', s.written[id - 1].ticket, Rejected(error))
  }

  function Step(s: State, e: Event): State {
    match e
    case Prompt(message) => s.(queue := s.queue + [Queued(s.calls, message)], calls := s.calls + 1)
    case Turn => if s.running.Some? || s.queue == [] then s else Start(s)
    case Response(id, success, error) =>
      if s.pending.None? || s.pending.value.id != id then s
      else if success then s.(pending := Some(s.pending.value.(responseReceived := true)))
      else Finish(s, s.pending.value, Rejected(error))
    case AgentEnd(reply) =>
      var s := s.(agentEnds := s.agentEnds + 1);
      if s.pending.None? then s
      else Finish(s, s.pending.value,
        match reply
        case Translation(text) => Resolved(s.agentEnds, text)
        case Failure(error) => Rejected(error))
    case OtherLine => s
    case Timeout(id) => if id in s.timers then FireTimer(s, id) else s
    case WriteFailed(id, error) => if 1 <= id <= |s.written| then FailWrite(s, id, error) else s
    case ProcessError(error) => RejectPending(s, error)
    case ProcessClosed => RejectPending(s.(closed := true), "pi process closed")
    case Close => s.(closed := true)
  }

  function Run(s: State, events: seq<Event>): State
    decreases |events|
  {
    if events == [] then s else Run(Step(s, events[0]), events[1..])
  }

  // ----- the class of the source -----

  class PiRpcClient {
    var closed: bool
    var pending: Option<PendingPrompt>
    var requestCount: nat
    var running: Option<nat>
    var queue: seq<Queued>
    var timers: set<nat>
    var written: seq<Write>
    var settlements: seq<Settlement>
    var calls: nat
    var agentEnds: nat  // bookkeeping for the proofs: the source does not count lines

    ghost function Snapshot(): State
      reads this
    {
      State(closed, pending, requestCount, running, queue, timers, written, settlements, calls, agentEnds)
    }

    constructor ()
      ensures Snapshot() == INITIAL
    {
      closed, pending, requestCount, running := false, None, 0, None;
      queue, timers, written, settlements, calls, agentEnds := [], {}, [], [], 0, 0;
    }

    method SettleTicket(ticket: nat, outcome: Outcome)
      modifies this
      ensures Snapshot() == Settle(old(Snapshot()), ticket, outcome)
    {
      if running == Some(ticket) {
        running := None;
        settlements := settlements + [Settlement(ticket, outcome)];
      }
    }

    method FinishPending(p: PendingPrompt, outcome: Outcome)
      modifies this
      ensures Snapshot() == Finish(old(Snapshot()), p, outcome)
    {
      pending := None;
      timers := timers - {p.id};
      SettleTicket(p.ticket, outcome);
    }

    method RejectPendingPrompt(error: string)
      modifies this
      ensures Snapshot() == RejectPending(old(Snapshot()), error)
    {
      if pending.Some? {
        FinishPending(pending.value, Rejected(error));
      }
    }

    method Ask(message: string)
      modifies this
      ensures Snapshot() == Step(old(Snapshot()), Prompt(message))
    {
      queue := queue + [Queued(calls, message)];
      calls := calls + 1;
    }

    method RunNextPrompt()
      modifies this
      ensures Snapshot() == Step(old(Snapshot()), Turn)
    {
      if running.Some? || queue == [] {
        return;
      }
      var next := queue[0];
      queue := queue[1..];
      running := Some(next.ticket);
      if closed {
        SettleTicket(next.ticket, Rejected("pi process unavailable"));
        return;
      }
      requestCount := requestCount + 1;
      var id := requestCount;
      timers := timers + {id};
      pending := Some(PendingPrompt(id, next.ticket, false));
      written := written + [Write(id, next.ticket, next.message)];
    }

    method HandleStdoutLine(line: Event)
      requires line.Response? || line.AgentEnd? || line.OtherLine?
      modifies this
      ensures Snapshot() == Step(old(Snapshot()), line)
    {
      if line.AgentEnd? {
        agentEnds := agentEnds + 1;
      }
      if pending.None? {
        return;
      }
      var p := pending.value;
      match line {
        case Response(id, success, error) =>
          if id != p.id {
            return;
          }
          if !success {
            FinishPending(p, Rejected(error));
            return;
          }
          pending := Some(p.(responseReceived := true));
        case AgentEnd(reply) =>
          match reply {
            case Translation(text) => FinishPending(p, Resolved(agentEnds, text));
            case Failure(error) => FinishPending(p, Rejected(error));
          }
        case OtherLine =>
      }
    }

    method HandleTimeout(id: nat)
      modifies this
      ensures Snapshot() == Step(old(Snapshot()), Timeout(id))
    {
      if id !in timers {
        return;
      }
      timers := timers - {id};
      if pending.Some? && pending.value.id == id {
        var ticket := pending.value.ticket;
        pending := None;
        CloseClient();
        SettleTicket(ticket, Rejected("timed out"));
      }
    }

    method HandleWriteError(id: nat, error: string)
      modifies this
      ensures Snapshot() == Step(old(Snapshot()), WriteFailed(id, error))
    {
      if !(1 <= id <= |written|) {
        return;
      }
      timers := timers - {id};
      if pending.Some? && pending.value.id == id {
        pending := None;
      }
      SettleTicket(written[id - 1].ticket, Rejected(error));
    }

    method HandleProcessError(error: string)
      modifies this
      ensures Snapshot() == Step(old(Snapshot()), ProcessError(error))
    {
      RejectPendingPrompt(error);
    }

    method HandleProcessClose()
      modifies this
      ensures Snapshot() == Step(old(Snapshot()), ProcessClosed)
    {
      closed := true;
      RejectPendingPrompt("pi process closed");
    }

    method CloseClient()
      modifies this
      ensures Snapshot() == Step(old(Snapshot()), Close)
    {
      if closed {
        return;
      }
      closed := true;
    }
  }

  // ----- what every run keeps -----

  ghost function Busy(s: State): nat {
    if s.running.Some? then 1 else 0
  }

  /** Tickets settle in call order, one after the other: every call is settled, running or queued, in
    * exactly one place. */
  ghost predicate TicketsInOrder(s: State) {
    && (forall k | 0 <= k < |s.settlements| :: s.settlements[k].ticket == k)
    && (s.running.Some? ==> s.running.value == |s.settlements|)
    && (forall k | 0 <= k < |s.queue| :: s.queue[k].ticket == |s.settlements| + Busy(s) + k)
    && s.calls == |s.settlements| + Busy(s) + |s.queue|
  }

  /** Prompts are numbered as written, and written in call order. */
  ghost predicate WritesInOrder(s: State) {
    && |s.written| == s.requestCount
    && (forall k | 0 <= k < |s.written| ::
          s.written[k].id == k + 1 && s.written[k].ticket < |s.settlements| + Busy(s))
    && (forall j, k | 0 <= j < k < |s.written| :: s.written[j].ticket < s.written[k].ticket)
  }

  /** A prompt is pending exactly while its ticket runs, and its timeout is the only armed one. */
  ghost predicate OnePending(s: State) {
    && (s.pending.Some? <==> s.running.Some?)
    && s.timers == (if s.pending.Some? then {s.pending.value.id} else {})
    && (s.pending.Some? ==>
          && s.pending.value.id == s.requestCount >= 1 && |s.written| == s.requestCount
          && s.pending.value.ticket == s.running.value == s.written[s.requestCount - 1].ticket)
  }

  ghost predicate Consistent(s: State) {
    TicketsInOrder(s) && WritesInOrder(s) && OnePending(s)
  }

  lemma StepConsistent(s: State, e: Event)
    requires Consistent(s)
    ensures Consistent(Step(s, e))
  {
    match e
    case Turn =>
      if s.running.None? && s.queue != [] {
        StartConsistent(s);
      }
    case WriteFailed(id, error) =>
      if 1 <= id <= |s.written| {
        WriteFailedConsistent(s, id, error);
      }
    case _ =>
      EndsAre(s, e);
      if Ends(s, e) {
        EndConsistent(s, Step(s, e));
      }
  }

  /** The events that end the pending prompt, write errors aside. */
  predicate Ends(s: State, e: Event) {
    s.pending.Some? &&
    match e
    case Response(id, success, _) => id == s.pending.value.id && !success
    case AgentEnd(_) => true
    case Timeout(id) => id == s.pending.value.id
    case ProcessError(_) => true
    case ProcessClosed => true
    case _ => false
  }

  /** The state after the end of the pending prompt, whichever way. */
  ghost predicate Ended(s: State, s': State) {
    && s.pending.Some? && s'.pending.None? && s'.running.None? && s'.timers == {}
    && s'.queue == s.queue && s'.calls == s.calls && s'.written == s.written && s'.requestCount == s.requestCount
    && |s'.settlements| == |s.settlements| + 1 && s.settlements <= s'.settlements
    && s'.settlements[|s.settlements|].ticket == s.pending.value.ticket
  }

  lemma EndsAre(s: State, e: Event)
    requires Consistent(s) && !e.Turn? && !e.WriteFailed?
    ensures if Ends(s, e) then Ended(s, Step(s, e)) else Consistent(Step(s, e))
  {
    hide TicketsInOrder, WritesInOrder;
    if e.Prompt? {
      AskConsistent(s, e);
    } else if !Ends(s, e) {
      QuietConsistent(s, e);
    }
  }

  lemma AskConsistent(s: State, e: Event)
    requires Consistent(s) && e.Prompt?
    ensures Consistent(Step(s, e))
  {
  }

  lemma QuietConsistent(s: State, e: Event)
    requires Consistent(s) && !e.Turn? && !e.WriteFailed? && !e.Prompt? && !Ends(s, e)
    ensures Consistent(Step(s, e))
  {
    var s' := Step(s, e);
    assert s'.settlements == s.settlements && s'.queue == s.queue && s'.written == s.written;
  }

  lemma EndConsistent(s: State, s': State)
    requires Consistent(s) && Ended(s, s')
    ensures Consistent(s')
  {
    hide Step;
    assert forall k | 0 <= k < |s.settlements| :: s'.settlements[k] == s.settlements[k];
  }

  lemma WriteFailedConsistent(s: State, id: nat, error: string)
    requires Consistent(s) && 1 <= id <= |s.written|
    ensures Consistent(FailWrite(s, id, error))
  {
    if s.pending.Some? && s.pending.value.id == id {
      EndConsistent(s, FailWrite(s, id, error));
    } else if s.pending.Some? {
      assert s.written[id - 1].ticket < s.written[s.requestCount - 1].ticket;
    }
  }

  lemma StartConsistent(s: State)
    requires Consistent(s) && s.running.None? && s.queue != []
    ensures Consistent(Start(s))
  {
    var s' := Start(s);
    assert s.queue[0].ticket == |s.settlements|;
    assert forall k | 0 <= k < |s'.queue| :: s'.queue[k] == s.queue[k + 1];
  }

  /** Every run keeps the three orders: at most one prompt is ever in flight. */
  lemma {:induction false} RunConsistent(s: State, events: seq<Event>)
    requires Consistent(s)
    ensures Consistent(Run(s, events))
    decreases |events|
  {
    if events != [] {
      StepConsistent(s, events[0]);
      RunConsistent(Step(s, events[0]), events[1..]);
    }
  }

  /** A written prompt whose promise is not settled is the one pending prompt. */
  ghost predicate InFlight(s: State, k: nat)
    requires k < |s.written|
  {
    forall j | 0 <= j < |s.settlements| :: s.settlements[j].ticket != s.written[k].ticket
  }

  lemma AtMostOneInFlight(events: seq<Event>, k: nat)
    requires k < |Run(INITIAL, events).written|
    ensures var s := Run(INITIAL, events);
      InFlight(s, k) <==> s.pending.Some? && s.pending.value.id == s.written[k].id
  {
    var s := Run(INITIAL, events);
    RunConsistent(INITIAL, events);
    var ticket := s.written[k].ticket;
    assert ticket < |s.settlements| ==> s.settlements[ticket].ticket == ticket;
    assert k < s.requestCount - 1 ==> ticket < s.written[s.requestCount - 1].ticket;
  }

  ghost predicate Grows(s: State, s': State) {
    && s.settlements <= s'.settlements && s.written <= s'.written
    && (s.closed ==> s'.closed && s'.written == s.written)
  }

  lemma StepGrows(s: State, e: Event)
    ensures Grows(s, Step(s, e))
  {
  }

  /** Nothing ever un-settles: the settlements of a state stay a prefix of those of every later state,
    * and so do the writes; after close nothing is written. With `TicketsInOrder` each call settles at most
    * once, in call order. */
  lemma {:induction false} HistoryGrows(s: State, events: seq<Event>)
    ensures s.settlements <= Run(s, events).settlements && s.written <= Run(s, events).written
    ensures s.closed ==> Run(s, events).closed && Run(s, events).written == s.written
    decreases |events|
  {
    hide Step;
    if events != [] {
      StepGrows(s, events[0]);
      HistoryGrows(Step(s, events[0]), events[1..]);
    }
  }

  /** No call is stuck: in every reachable state with an unsettled call, letting the promise chain turn
    * and the timeout of the pending prompt expire settles the next call. */
  lemma NeverStuck(events: seq<Event>)
    requires var s := Run(INITIAL, events); |s.settlements| < s.calls
    ensures var s := Run(INITIAL, events);
      var started := Step(s, Turn);
      var id := started.requestCount;
      |Step(started, Timeout(id)).settlements| == |s.settlements| + 1
  {
    RunConsistent(INITIAL, events);
    var s := Run(INITIAL, events);
    StepConsistent(s, Turn);
  }

  // ----- which reply is credited to which prompt -----

  /** The process answers prompts in the order they were written, once each, so `agent_end` line number n
    * belongs to prompt n and arrives after prompt n was written. */
  ghost predicate Causal(s: State, e: Event) {
    e.AgentEnd? ==> s.agentEnds < s.requestCount
  }

  /** The discipline of `translateBatch`: a client that has failed once is closed before the promise chain
    * can reach another prompt. */
  ghost predicate Discards(s: State, e: Event) {
    e.Turn? && s.running.None? && s.queue != [] && !s.closed ==>
      AllResolved(s)
  }

  ghost predicate AllResolved(s: State) {
    forall k | 0 <= k < |s.settlements| :: s.settlements[k].outcome.Resolved?
  }

  ghost predicate Disciplined(s: State, events: seq<Event>)
    decreases |events|
  {
    events == [] || (Causal(s, events[0]) && Discards(s, events[0]) && Disciplined(Step(s, events[0]), events[1..]))
  }

  /** Every translation was credited to the prompt it answers. */
  ghost predicate CreditedCorrectly(s: State) {
    forall k, w | 0 <= k < |s.settlements| && 0 <= w < |s.written| ::
      s.settlements[k].outcome.Resolved? && s.written[w].ticket == s.settlements[k].ticket
      ==> s.settlements[k].outcome.agentEnd == s.written[w].id
  }

  /** While nothing has failed, every prompt but the pending one has had its answer. */
  ghost predicate Balanced(s: State) {
    && s.agentEnds <= s.requestCount
    && (AllResolved(s) ==> s.requestCount == s.agentEnds + Busy(s))
    && (s.pending.Some? ==> s.requestCount == s.agentEnds + 1)
  }

  lemma {:induction false} DisciplinedRunCredits(s: State, events: seq<Event>)
    requires Consistent(s) && Balanced(s) && CreditedCorrectly(s) && Disciplined(s, events)
    ensures Balanced(Run(s, events)) && CreditedCorrectly(Run(s, events))
    decreases |events|
  {
    if events != [] {
      StepConsistent(s, events[0]);
      StepCredits(s, events[0]);
      DisciplinedRunCredits(Step(s, events[0]), events[1..]);
    }
  }

  /** A step that settles nothing keeps every credit; one that settles adds the last. */
  lemma StepCredits(s: State, e: Event)
    requires Consistent(s) && Balanced(s) && CreditedCorrectly(s) && Causal(s, e) && Discards(s, e)
    ensures Balanced(Step(s, e)) && CreditedCorrectly(Step(s, e))
  {
    hide Step;
    var s' := Step(s, e);
    StepGrows(s, e);
    StepConsistent(s, e);
    StepBalanced(s, e);
    StepCreditsLast(s, e);
    forall k, w | 0 <= k < |s'.settlements| && 0 <= w < |s'.written| &&
        s'.settlements[k].outcome.Resolved? && s'.written[w].ticket == s'.settlements[k].ticket
      ensures s'.settlements[k].outcome.agentEnd == s'.written[w].id
    {
      if k < |s.settlements| {
        WrittenBefore(s, s', k, w);
        assert s'.settlements[k] == s.settlements[k] && s'.written[w] == s.written[w];
      } else {
        LastWritten(s, s', w);
      }
    }
  }

  lemma ResolvedAfter(s: State, e: Event)
    requires AllResolved(Step(s, e))
    ensures AllResolved(s)
    ensures |Step(s, e).settlements| > |s.settlements| ==> e.AgentEnd?
  {
    var s' := Step(s, e);
    StepGrows(s, e);
    assert forall k | 0 <= k < |s.settlements| :: s'.settlements[k] == s.settlements[k];
    if |s'.settlements| > |s.settlements| {
      assert s'.settlements[|s.settlements|].outcome.Resolved?;
    }
  }

  lemma StepBalanced(s: State, e: Event)
    requires Consistent(s) && Balanced(s) && Causal(s, e) && Discards(s, e)
    ensures Balanced(Step(s, e))
  {
    hide AllResolved;
    if AllResolved(Step(s, e)) {
      ResolvedAfter(s, e);
    }
    if e.WriteFailed? && 1 <= e.id <= |s.written| && s.pending.Some? && s.pending.value.id != e.id {
      assert s.written[e.id - 1].ticket < s.written[s.requestCount - 1].ticket;
    }
  }

  /** What a step settles: one call, the running one or the one it starts; with a translation only on the line
    * that answers the pending prompt. */
  lemma StepCreditsLast(s: State, e: Event)
    requires Consistent(s) && Balanced(s) && Causal(s, e)
    ensures var s' := Step(s, e);
      && |s'.settlements| <= |s.settlements| + 1
      && |s'.written| <= |s.written| + 1
      && (|s'.written| > |s.written| ==> s'.written[|s.written|].ticket == |s.settlements|)
      && (|s'.settlements| > |s.settlements| && s'.settlements[|s.settlements|].outcome.Resolved? ==>
            && s.pending.Some? && s'.written == s.written
            && s'.settlements[|s.settlements|].outcome.agentEnd == s.pending.value.id)
  {
  }

  /** What a settled call was written as was written before the step. */
  lemma WrittenBefore(s: State, s': State, k: nat, w: nat)
    requires Consistent(s) && Consistent(s') && Grows(s, s')
    requires k < |s.settlements| && w < |s'.written| && s'.written[w].ticket == s'.settlements[k].ticket
    requires |s'.written| <= |s.written| + 1
    requires |s'.written| > |s.written| ==> s'.written[|s.written|].ticket == |s.settlements|
    ensures w < |s.written|
  {
    assert s'.settlements[k].ticket == k;
  }

  lemma LastWritten(s: State, s': State, w: nat)
    requires Consistent(s) && s.pending.Some? && s'.written == s.written
    requires w < |s.written| && s.written[w].ticket == |s.settlements|
    ensures s.written[w].id == s.pending.value.id
  {
    var last := s.written[s.requestCount - 1];
    assert last.ticket == |s.settlements|;
  }

  /** With a process that answers in order and a caller that discards a failed client, no late reply is
    * ever credited to another prompt. */
  lemma DiscardingCallerIsSafe(events: seq<Event>)
    requires Disciplined(INITIAL, events)
    ensures CreditedCorrectly(Run(INITIAL, events))
  {
    DisciplinedRunCredits(INITIAL, events);
  }

  /** Without discarding, a refused prompt whose `agent_end` arrives late answers the next prompt. */
  lemma KeepingAFailedClientMiscredits()
    ensures var s := Run(INITIAL, [Prompt("a"), Prompt("b"), Turn, Response(1, false, "busy"), Turn,
                                   AgentEnd(Translation("answer to a"))]);
      && s.written[1] == Write(2, 1, "b")
      && s.settlements == [Settlement(0, Rejected("busy")), Settlement(1, Resolved(1, "answer to a"))]
  {
    var s1 := Step(INITIAL, Prompt("a"));
    var s2 := Step(s1, Prompt("b"));
    assert s2.queue == [Queued(0, "a"), Queued(1, "b")];
    var s3 := Step(s2, Turn);
    var s4 := Step(s3, Response(1, false, "busy"));
    assert s4.queue == [Queued(1, "b")] && s4.timers == {};
    var s5 := Step(s4, Turn);
    var s6 := Step(s5, AgentEnd(Translation("answer to a")));
    var late := [AgentEnd(Translation("answer to a"))];
    assert Run(s5, late) == s6 by { assert late[1..] == []; }
    var e4 := [Turn] + late;
    assert Run(s4, e4) == s6 by { assert e4[1..] == late; }
    var e3 := [Response(1, false, "busy")] + e4;
    assert Run(s3, e3) == s6 by { assert e3[1..] == e4; }
    var e2 := [Turn] + e3;
    assert Run(s2, e2) == s6 by { assert e2[1..] == e3; }
    var e1 := [Prompt("b")] + e2;
    assert Run(s1, e1) == s6 by { assert e1[1..] == e2; }
    var e0 := [Prompt("a")] + e1;
    assert Run(INITIAL, e0) == s6 by { assert e0[1..] == e1; }
    assert e0 == [Prompt("a"), Prompt("b"), Turn, Response(1, false, "busy"), Turn,
                  AgentEnd(Translation("answer to a"))];
  }

  ghost predicate CausalRun(s: State, events: seq<Event>)
    decreases |events|
  {
    events == [] || (Causal(s, events[0]) && CausalRun(Step(s, events[0]), events[1..]))
  }

  ghost predicate CreditedTo(s: State, ticket: nat, id: nat) {
    forall k | 0 <= k < |s.settlements| ::
      s.settlements[k].ticket == ticket && s.settlements[k].outcome.Resolved?
      ==> s.settlements[k].outcome.agentEnd == id
  }

  /** Whatever a causal process does next, a call is credited with nothing but the answer to its own prompt. */
  ghost predicate SafelyCredited(s: State, ticket: nat, id: nat) {
    forall events :: CausalRun(s, events) ==> CreditedTo(Run(s, events), ticket, id)
  }

  /** Exactly when writing another prompt is safe: all earlier prompts must have had their `agent_end`. */
  lemma SafeToWriteIff(s: State)
    requires Consistent(s) && s.running.None? && s.queue != [] && !s.closed && s.agentEnds <= s.requestCount
    ensures s.agentEnds == s.requestCount <==> SafelyCredited(Start(s), s.queue[0].ticket, Start(s).requestCount)
  {
    hide CausalRun, CreditedTo, Run, Consistent, SafelyCredited;
    if s.agentEnds == s.requestCount {
      SafeWhenAnswered(s);
    } else {
      UnsafeWhenNot(s);
    }
  }

  lemma SafeWhenAnswered(s: State)
    requires Consistent(s) && s.running.None? && s.queue != [] && !s.closed && s.agentEnds == s.requestCount
    ensures SafelyCredited(Start(s), s.queue[0].ticket, Start(s).requestCount)
  {
    hide CausalRun, CreditedTo, Run;
    var s' := Start(s);
    StartConsistent(s);
    forall events | CausalRun(s', events) ensures CreditedTo(Run(s', events), s.queue[0].ticket, s'.requestCount) {
      AnsweredByItsOwnLine(s', events, s.queue[0].ticket);
    }
  }

  lemma UnsafeWhenNot(s: State)
    requires Consistent(s) && s.running.None? && s.queue != [] && !s.closed && s.agentEnds < s.requestCount
    ensures !SafelyCredited(Start(s), s.queue[0].ticket, Start(s).requestCount)
  {
    var s', late := Start(s), [AgentEnd(Translation(""))];
    var s'' := Step(s', late[0]);
    assert late[1..] == [] && Run(s', late) == Run(s'', []) == s'';
    assert s''.settlements[|s.settlements|] == Settlement(s.queue[0].ticket, Resolved(s.agentEnds + 1, ""));
    assert CausalRun(s', late) && !CreditedTo(Run(s', late), s.queue[0].ticket, s'.requestCount);
  }

  lemma {:induction false} AnsweredByItsOwnLine(s: State, events: seq<Event>, ticket: nat)
    requires Consistent(s) && CausalRun(s, events) && ticket == |s.settlements|
    requires s.pending.Some? && s.pending.value.ticket == ticket && s.agentEnds + 1 == s.requestCount
    ensures CreditedTo(Run(s, events), ticket, s.requestCount)
    decreases |events|
  {
    if events != [] {
      var s' := Step(s, events[0]);
      StepConsistent(s, events[0]);
      PendingKeepsOrSettles(s, events[0], ticket);
      if s'.pending.Some? {
        AnsweredByItsOwnLine(s', events[1..], ticket);
      } else {
        SettledForGood(s', events[1..], ticket, s.requestCount);
      }
    }
  }

  lemma PendingKeepsOrSettles(s: State, e: Event, ticket: nat)
    requires Consistent(s) && Causal(s, e) && ticket == |s.settlements|
    requires s.pending.Some? && s.pending.value.ticket == ticket && s.agentEnds + 1 == s.requestCount
    ensures var s' := Step(s, e);
      s'.requestCount == s.requestCount &&
      if s'.pending.Some? then
        s'.settlements == s.settlements && s'.pending.value.ticket == ticket && s'.agentEnds == s.agentEnds
      else
        |s'.settlements| == ticket + 1 &&
        (s'.settlements[ticket].outcome.Resolved? ==> s'.settlements[ticket].outcome.agentEnd == s.requestCount)
  {
    if e.WriteFailed? && 1 <= e.id <= |s.written| && e.id != s.pending.value.id {
      assert s.written[e.id - 1].ticket < s.written[s.requestCount - 1].ticket;
    }
  }

  lemma SettledForGood(s: State, events: seq<Event>, ticket: nat, id: nat)
    requires Consistent(s) && ticket < |s.settlements|
    requires s.settlements[ticket].outcome.Resolved? ==> s.settlements[ticket].outcome.agentEnd == id
    ensures CreditedTo(Run(s, events), ticket, id)
  {
    var later := Run(s, events);
    HistoryGrows(s, events);
    RunConsistent(s, events);
    assert later.settlements[ticket] == s.settlements[ticket];
  }
}
