/** What the client tells its callers: each promise settles with the words of the event that settled it.
  *
  * The lines and messages are counted in the events themselves. */
module RpcAnswers {
  import opened JsText
  import opened RpcClient

  /** The payloads of the `agent_end` lines, in order. */
  ghost function AgentEnds(events: seq<Event>): seq<Reply> {
    if events == [] then []
    else
      var last := events[|events| - 1];
      AgentEnds(events[..|events| - 1]) + if last.AgentEnd? then [last.reply] else []
  }

  /** The messages of the calls of `prompt`, in order. */
  ghost function Messages(events: seq<Event>): seq<string> {
    if events == [] then []
    else
      var last := events[|events| - 1];
      Messages(events[..|events| - 1]) + if last.Prompt? then [last.message] else []
  }

  lemma {:induction false} RunOneMore(s: State, events: seq<Event>, e: Event)
    ensures Run(s, events + [e]) == Step(Run(s, events), e)
    decreases |events|
  {
    hide Step;
    if events == [] {
      assert events + [e] == [e] && [e][1..] == [];
    } else {
      assert (events + [e])[1..] == events[1..] + [e];
      RunOneMore(Step(s, events[0]), events[1..], e);
    }
  }

  lemma RunSplit(events: seq<Event>)
    requires events != []
    ensures Run(INITIAL, events) == Step(Run(INITIAL, events[..|events| - 1]), events[|events| - 1])
  {
    RunOneMore(INITIAL, events[..|events| - 1], events[|events| - 1]);
    assert events == events[..|events| - 1] + [events[|events| - 1]];
  }

  /** The counters count the events, and every call is written with its own message. */
  ghost predicate Kept(s: State, events: seq<Event>) {
    && s.agentEnds == |AgentEnds(events)| && s.calls == |Messages(events)|
    && (forall w | 0 <= w < |s.written| ::
          s.written[w].ticket < s.calls && s.written[w].message == Messages(events)[s.written[w].ticket])
    && (forall q | 0 <= q < |s.queue| ::
          s.queue[q].ticket < s.calls && s.queue[q].message == Messages(events)[s.queue[q].ticket])
  }

  lemma {:induction false} RunKeeps(events: seq<Event>)
    ensures Kept(Run(INITIAL, events), events)
    decreases |events|
  {
    hide Run, Step;
    if events == [] {
      assert Run(INITIAL, events) == INITIAL by { RunNothing(INITIAL); }
    } else {
      var front, e := events[..|events| - 1], events[|events| - 1];
      RunKeeps(front);
      RunSplit(events);
      StepKeeps(Run(INITIAL, front), front, e);
      assert events == front + [e];
    }
  }

  lemma RunNothing(s: State)
    ensures Run(s, []) == s
  {
  }

  lemma LogsOneMore(events: seq<Event>, e: Event)
    ensures AgentEnds(events + [e]) == AgentEnds(events) + if e.AgentEnd? then [e.reply] else []
    ensures Messages(events + [e]) == Messages(events) + if e.Prompt? then [e.message] else []
  {
    assert (events + [e])[..|events + [e]| - 1] == events;
  }

  lemma StepKeeps(s: State, events: seq<Event>, e: Event)
    requires Kept(s, events)
    ensures Kept(Step(s, e), events + [e])
  {
    hide AgentEnds, Messages;
    var s' := Step(s, e);
    LogsOneMore(events, e);
    if e.Turn? && s.running.None? && s.queue != [] {
      assert forall q | 0 <= q < |s'.queue| :: s'.queue[q] == s.queue[q + 1];
    } else if !e.Prompt? {
      assert s'.written == s.written && s'.queue == s.queue;
    }
  }

  /** What an event settles after `lines` lines of `agent_end`: each way a prompt can end has its own words, `agent_end`
    * resolves it with its translation or rejects it with its error, and nothing else settles, closes or writes. */
  ghost predicate SettlesSo(s: State, e: Event, s': State, lines: nat) {
    && (s.pending.Some? ==>
          var p := s.pending.value;
          s'.settlements == s.settlements +
            match e
            case AgentEnd(Translation(text)) => [Settlement(p.ticket, Resolved(lines + 1, text))]
            case AgentEnd(Failure(error)) => [Settlement(p.ticket, Rejected(error))]
            case Response(id, success, error) =>
              if id == p.id && !success then [Settlement(p.ticket, Rejected(error))] else []
            case Timeout(id) => if id == p.id then [Settlement(p.ticket, Rejected("timed out"))] else []
            case WriteFailed(id, error) => if id == p.id then [Settlement(p.ticket, Rejected(error))] else []
            case ProcessError(error) => [Settlement(p.ticket, Rejected(error))]
            case ProcessClosed => [Settlement(p.ticket, Rejected("pi process closed"))]
            case _ => [])
    && (s.pending.None? ==>
          s'.settlements == s.settlements +
            if e == Turn && s.queue != [] && s.closed
            then [Settlement(s.queue[0].ticket, Rejected("pi process unavailable"))] else [])
    && (s'.closed <==> s.closed || e == Close || e == ProcessClosed
                       || (s.pending.Some? && e == Timeout(s.pending.value.id)))
    && (s'.written != s.written <==> e == Turn && s.pending.None? && s.queue != [] && !s.closed)
    && (s.pending.Some? && s'.pending.Some? ==>
          s'.pending == Some(s.pending.value.(responseReceived :=
            s.pending.value.responseReceived || (e.Response? && e.id == s.pending.value.id && e.success))))
  }

  /** In every reachable state. */
  lemma SettlesAs(events: seq<Event>, e: Event)
    ensures SettlesSo(Run(INITIAL, events), e, Run(INITIAL, events + [e]), |AgentEnds(events)|)
  {
    hide Run, AgentEnds;
    var s := Run(INITIAL, events);
    assert Consistent(INITIAL);
    RunConsistent(INITIAL, events);
    RunKeeps(events);
    RunOneMore(INITIAL, events, e);
    StepSettles(s, e);
  }

  lemma StepSettles(s: State, e: Event)
    requires Consistent(s)
    ensures SettlesSo(s, e, Step(s, e), s.agentEnds)
  {
    if e.WriteFailed? && 1 <= e.id <= |s.written| && s.pending.Some? && s.pending.value.id != e.id {
      assert s.written[e.id - 1].ticket < s.written[s.requestCount - 1].ticket;
    }
  }

  /** A translation is the text of the line it is credited with. */
  ghost predicate IsAnswer(events: seq<Event>, outcome: Outcome)
    requires outcome.Resolved?
  {
    1 <= outcome.agentEnd <= |AgentEnds(events)|
    && AgentEnds(events)[outcome.agentEnd - 1] == Translation(outcome.text)
  }

  /** No caller gets anything else for a translation than what an `agent_end` line carried: never an error, and never
    * the text of another line than the one credited. */
  lemma {:induction false} TranslationsAreAnswers(events: seq<Event>)
    ensures var s := Run(INITIAL, events);
      forall k | 0 <= k < |s.settlements| && s.settlements[k].outcome.Resolved? ::
        IsAnswer(events, s.settlements[k].outcome)
    decreases |events|
  {
    hide Run, AgentEnds;
    if events == [] {
      RunNothing(INITIAL);
    } else {
      var front, e := events[..|events| - 1], events[|events| - 1];
      var s, s' := Run(INITIAL, front), Run(INITIAL, events);
      TranslationsAreAnswers(front);
      SettlesAs(front, e);
      assert front + [e] == events;
      LogsOneMore(front, e);
      forall k | 0 <= k < |s'.settlements| && s'.settlements[k].outcome.Resolved?
        ensures IsAnswer(events, s'.settlements[k].outcome)
      {
        if k < |s.settlements| {
          assert s'.settlements[k] == s.settlements[k];
          assert IsAnswer(front, s.settlements[k].outcome);
        }
      }
    }
  }
}
