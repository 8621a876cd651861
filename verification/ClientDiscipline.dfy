/** Why `translateBatch` and `PiRpcClient` fit together: a caller that awaits each prompt and discards a client after
  * any failure never has a late reply credited to another batch.
  *
  * The two sides are the log of prompts that `translateBatch` keeps per client, and the runs of the client that
  * serves them. */
module ClientDiscipline {
  import opened JsText
  import opened TranslationBatches
  import B = BatchTranslation
  import L = LocaleSyncSpec
  import LocaleSync
  import TranslationTree
  import opened RpcClient
  import opened RpcAnswers

  // ----- a careful caller -----

  /** A prompt is asked only when nothing runs or waits and every earlier call was resolved. */
  ghost predicate AsksCarefully(s: State, e: Event) {
    e.Prompt? ==> s.running.None? && s.queue == [] && AllResolved(s)
  }

  ghost predicate CarefulRun(s: State, events: seq<Event>)
    decreases |events|
  {
    events == [] || (Causal(s, events[0]) && AsksCarefully(s, events[0]) && CarefulRun(Step(s, events[0]), events[1..]))
  }

  /** At most one call waits, and then nothing runs and nothing has failed. */
  ghost predicate OneWaits(s: State) {
    |s.queue| <= 1 && (s.queue != [] ==> s.running.None? && AllResolved(s))
  }

  lemma WaitingChangesNothing(s: State, e: Event)
    requires Consistent(s) && s.queue != [] && s.running.None? && !e.Turn? && !e.Prompt?
    ensures var s' := Step(s, e); s'.queue == s.queue && s'.running.None? && s'.settlements == s.settlements
  {
    hide TicketsInOrder, WritesInOrder;
  }

  lemma StepOneWaits(s: State, e: Event)
    requires Consistent(s) && OneWaits(s) && AsksCarefully(s, e)
    ensures OneWaits(Step(s, e))
  {
    hide TicketsInOrder, WritesInOrder, OnePending, AllResolved;
    if s.queue != [] && !e.Turn? && !e.Prompt? {
      WaitingChangesNothing(s, e);
      SameSettlements(s, Step(s, e));
    } else if e.Prompt? {
      SameSettlements(s, Step(s, e));
    }
  }

  lemma SameSettlements(s: State, s': State)
    requires s.settlements == s'.settlements
    ensures AllResolved(s) <==> AllResolved(s')
  {
  }

  lemma {:induction false} CarefulIsDisciplined(s: State, events: seq<Event>)
    requires Consistent(s) && OneWaits(s) && CarefulRun(s, events)
    ensures Disciplined(s, events)
    decreases |events|
  {
    hide Consistent, AllResolved, Step, Causal;
    if events != [] {
      StepConsistent(s, events[0]);
      StepOneWaits(s, events[0]);
      CarefulIsDisciplined(Step(s, events[0]), events[1..]);
    }
  }

  // ----- the prompts of one client -----

  /** The prompts that went to a client, in order. */
  function ClientLog(sent: seq<B.Sent>, client: nat): seq<B.Sent> {
    if sent == [] then []
    else
      var last := sent[|sent| - 1];
      ClientLog(sent[..|sent| - 1], client) + if last.client == client then [last] else []
  }

  /** Every prompt of a client but its last was answered usably. */
  ghost predicate OnlyLastFails(log: seq<B.Sent>) {
    forall j | 0 <= j < |log| - 1 :: log[j].ok
  }

  lemma {:induction false} LogMembers(sent: seq<B.Sent>, client: nat, e: B.Sent)
    requires e in ClientLog(sent, client)
    ensures exists i :: 0 <= i < |sent| && sent[i] == e && e.client == client
  {
    var front, last := sent[..|sent| - 1], sent[|sent| - 1];
    if e in ClientLog(front, client) {
      LogMembers(front, client, e);
      var i :| 0 <= i < |front| && front[i] == e;
      assert sent[i] == e;
    } else {
      assert sent[|sent| - 1] == e;
    }
  }

  ghost predicate SentFailsOnce(sent: seq<B.Sent>) {
    forall j, k | 0 <= j < k < |sent| && sent[j].client == sent[k].client :: sent[j].ok
  }

  lemma {:induction false} LogFailsLast(sent: seq<B.Sent>, client: nat)
    requires SentFailsOnce(sent)
    ensures OnlyLastFails(ClientLog(sent, client))
  {
    if sent != [] {
      var front, last := sent[..|sent| - 1], sent[|sent| - 1];
      LogFailsLast(front, client);
      var log := ClientLog(front, client);
      if last.client == client {
        forall j | 0 <= j < |log| ensures log[j].ok {
          assert log[j] in log;
          LogMembers(front, client, log[j]);
          var i :| 0 <= i < |front| && front[i] == log[j];
          assert sent[i] == log[j];
        }
      }
    }
  }

  // ----- how translateBatch uses clients -----

  datatype Use = Batch(items: seq<Item>) | Reset

  /** What any sequence of batches and resets makes of a client access that has not been used. */
  function Reach(uses: seq<Use>, backend: B.Backend): B.Access {
    if uses == [] then B.Access(0, None, 0, [], [])
    else
      var access := Reach(uses[..|uses| - 1], backend);
      match uses[|uses| - 1]
      case Batch(items) => B.Translate(access, items, 0, B.NO_ERROR, backend).0
      case Reset => access.(client := None)
  }

  lemma {:induction false} ReachFailsOnce(uses: seq<Use>, backend: B.Backend)
    ensures B.FailsOnce(Reach(uses, backend))
  {
    if uses != [] {
      var access := Reach(uses[..|uses| - 1], backend);
      ReachFailsOnce(uses[..|uses| - 1], backend);
      match uses[|uses| - 1]
      case Batch(items) => B.TranslateDiscards(access, items, 0, B.NO_ERROR, backend);
      case Reset =>
    }
  }

  lemma ReachMore(uses: seq<Use>, use: Use, backend: B.Backend)
    ensures Reach(uses + [use], backend) ==
      match use
      case Batch(items) => B.Translate(Reach(uses, backend), items, 0, B.NO_ERROR, backend).0
      case Reset => Reach(uses, backend).(client := None)
  {
    assert (uses + [use])[..|uses|] == uses;
  }

  lemma {:induction false} BatchesReach(uses: seq<Use>, batches: seq<seq<Item>>, backend: B.Backend)
    returns (more: seq<Use>)
    ensures L.TranslateAll(Reach(uses, backend), batches, backend).0 == Reach(uses + more, backend)
    decreases |batches|
  {
    hide Reach, B.Translate;
    if batches == [] {
      more := [];
      assert uses + [] == uses;
    } else {
      ReachMore(uses, Batch(batches[0]), backend);
      var result := B.Translate(Reach(uses, backend), batches[0], 0, B.NO_ERROR, backend).1;
      more := [Batch(batches[0])];
      if result.Translated? {
        var later := BatchesReach(uses + more, batches[1..], backend);
        assert uses + ([Batch(batches[0])] + later) == uses + [Batch(batches[0])] + later;
        more := more + later;
      }
    }
  }

  /** A sync uses its clients in no other way than by batches and resets. */
  lemma SyncReaches(uses: seq<Use>, env: LocaleSync.Env, props: TranslationTree.Props, disk: LocaleSync.Disk,
                    options: LocaleSync.Options, authOptional: bool, budget: int, backend: B.Backend, now: string)
    returns (more: seq<Use>)
    ensures L.SyncRun(env, props, disk, options, authOptional, budget, Reach(uses, backend), backend, now).1
         == Reach(uses + more, backend)
  {
    hide Reach, L.TranslateAll, Greedy, LocaleSync.Decided, LocaleSync.SyncResult, LocaleSync.Settled;
    if L.NeedsBackend(env, props, disk) {
      var pending := LocaleSync.Decided(env, TranslationTree.Flatten(props), disk).pending;
      var batches := BatchesReach(uses, Greedy(pending, budget), backend);
      ReachMore(uses + batches, Reset, backend);
      more := batches + [Reset];
      assert uses + more == uses + batches + [Reset];
    } else {
      more := [];
      assert uses + [] == uses;
    }
  }

  // ----- runs of a client that serve its prompts -----

  type Render = seq<Item> -> string

  /** The next prompt of the log is asked once every earlier one was awaited; what the log calls usable was resolved. */
  ghost predicate Serves(render: Render, log: seq<B.Sent>, s: State, e: Event) {
    e.Prompt? ==>
      && s.calls < |log| && e.message == render(log[s.calls].items)
      && |s.settlements| == s.calls
      && forall k | 0 <= k < s.calls :: log[k].ok ==> s.settlements[k].outcome.Resolved?
  }

  ghost predicate ServingRun(render: Render, log: seq<B.Sent>, s: State, events: seq<Event>)
    decreases |events|
  {
    events == [] ||
    (Causal(s, events[0]) && Serves(render, log, s, events[0])
      && ServingRun(render, log, Step(s, events[0]), events[1..]))
  }

  lemma {:induction false} ServingIsCareful(render: Render, log: seq<B.Sent>, s: State, events: seq<Event>)
    requires Consistent(s) && OnlyLastFails(log) && ServingRun(render, log, s, events)
    ensures CarefulRun(s, events)
    decreases |events|
  {
    hide WritesInOrder, OnePending, Step, Causal;
    if events != [] {
      StepConsistent(s, events[0]);
      ServingIsCareful(render, log, Step(s, events[0]), events[1..]);
    }
  }

  /** Every call carries the prompt of its place in the log. */
  ghost predicate Labelled(render: Render, log: seq<B.Sent>, s: State) {
    && (forall w | 0 <= w < |s.written| ::
          s.written[w].ticket < |log| && s.written[w].message == render(log[s.written[w].ticket].items))
    && (forall q | 0 <= q < |s.queue| ::
          s.queue[q].ticket < |log| && s.queue[q].message == render(log[s.queue[q].ticket].items))
  }

  /** Every translation answers a prompt that was written. */
  ghost predicate ResolvedWereWritten(s: State) {
    forall k | 0 <= k < |s.settlements| && s.settlements[k].outcome.Resolved? :: WasWritten(s, k)
  }

  ghost predicate WasWritten(s: State, ticket: nat) {
    exists w :: 0 <= w < |s.written| && s.written[w].ticket == ticket
  }

  lemma StepLabelled(render: Render, log: seq<B.Sent>, s: State, e: Event)
    requires Labelled(render, log, s) && Serves(render, log, s, e)
    ensures Labelled(render, log, Step(s, e))
  {
    var s' := Step(s, e);
    if e.Turn? && s.running.None? && s.queue != [] {
      assert forall q | 0 <= q < |s'.queue| :: s'.queue[q] == s.queue[q + 1];
    } else if !e.Prompt? {
      assert s'.written == s.written && s'.queue == s.queue;
    }
  }

  lemma StepWasWritten(s: State, e: Event)
    requires Consistent(s) && Balanced(s) && Causal(s, e) && ResolvedWereWritten(s)
    ensures ResolvedWereWritten(Step(s, e))
  {
    hide Step, TicketsInOrder, WritesInOrder, Balanced;
    var s' := Step(s, e);
    StepGrows(s, e);
    StepCreditsLast(s, e);
    StepConsistent(s, e);
    forall k | 0 <= k < |s'.settlements| && s'.settlements[k].outcome.Resolved? ensures WasWritten(s', k) {
      if k < |s.settlements| {
        assert s'.settlements[k] == s.settlements[k];
        assert WasWritten(s, k);
        var w :| 0 <= w < |s.written| && s.written[w].ticket == k;
        assert s'.written[w] == s.written[w];
      } else {
        PendingIsNext(s);
        assert s'.written[s.requestCount - 1].ticket == k;
      }
    }
  }

  lemma PendingIsNext(s: State)
    requires Consistent(s) && s.pending.Some?
    ensures 1 <= s.requestCount <= |s.written| && s.written[s.requestCount - 1].ticket == |s.settlements|
  {
  }

  lemma {:induction false} ServingRunKeeps(render: Render, log: seq<B.Sent>, s: State, events: seq<Event>)
    requires Consistent(s) && Balanced(s) && OneWaits(s) && Labelled(render, log, s) && ResolvedWereWritten(s)
    requires OnlyLastFails(log) && ServingRun(render, log, s, events)
    ensures Labelled(render, log, Run(s, events)) && ResolvedWereWritten(Run(s, events))
    decreases |events|
  {
    hide Consistent, Balanced, Labelled, ResolvedWereWritten, OnlyLastFails, Serves, Causal, Step, AllResolved,
      OneWaits, AsksCarefully;
    if events != [] {
      ServingIsCareful(render, log, s, events);
      CarefulIsDisciplined(s, events);
      StepConsistent(s, events[0]);
      StepBalanced(s, events[0]);
      StepOneWaits(s, events[0]);
      StepLabelled(render, log, s, events[0]);
      StepWasWritten(s, events[0]);
      ServingRunKeeps(render, log, Step(s, events[0]), events[1..]);
    }
  }

  /** The translation of call `k` is the answer to the prompt that was written for the k-th entry of the log: the text
    * of the `agent_end` line with that prompt's number. */
  ghost predicate AnswersItsPrompt(render: Render, log: seq<B.Sent>, s: State, lines: seq<Reply>, k: nat)
    requires k < |s.settlements| && s.settlements[k].outcome.Resolved?
  {
    k < |log| &&
    exists w :: 0 <= w < |s.written| && s.written[w].ticket == k && s.written[w].message == render(log[k].items)
      && 1 <= s.written[w].id <= |lines| && s.settlements[k].outcome.agentEnd == s.written[w].id
      && lines[s.written[w].id - 1] == Translation(s.settlements[k].outcome.text)
  }

  lemma StartIsQuiet(render: Render, log: seq<B.Sent>)
    ensures Consistent(INITIAL) && Balanced(INITIAL) && OneWaits(INITIAL) && CreditedCorrectly(INITIAL)
    ensures Labelled(render, log, INITIAL) && ResolvedWereWritten(INITIAL)
  {
  }

  /** However a sync has used its clients so far, whatever one client meets while it serves its prompts: if the
    * process answers in order, every translation is the answer to its own batch's prompt. */
  lemma NoReplyIsCreditedToAnotherBatch(uses: seq<Use>, backend: B.Backend, client: nat, render: Render,
                                        events: seq<Event>, k: nat)
    requires ServingRun(render, ClientLog(Reach(uses, backend).sent, client), INITIAL, events)
    requires k < |Run(INITIAL, events).settlements| && Run(INITIAL, events).settlements[k].outcome.Resolved?
    ensures AnswersItsPrompt(render, ClientLog(Reach(uses, backend).sent, client), Run(INITIAL, events),
                             AgentEnds(events), k)
  {
    hide Reach, ClientLog, ServingRun, Run, Consistent, Balanced, OnlyLastFails, AgentEnds;
    var log, s := ClientLog(Reach(uses, backend).sent, client), Run(INITIAL, events);
    ReachFailsOnce(uses, backend);
    LogFailsLast(Reach(uses, backend).sent, client);
    StartIsQuiet(render, log);
    ServingIsCareful(render, log, INITIAL, events);
    CarefulIsDisciplined(INITIAL, events);
    DiscardingCallerIsSafe(events);
    ServingRunKeeps(render, log, INITIAL, events);
    RunConsistent(INITIAL, events);
    TranslationsAreAnswers(events);
    CreditOf(render, log, s, events, k);
  }

  lemma CreditOf(render: Render, log: seq<B.Sent>, s: State, events: seq<Event>, k: nat)
    requires Consistent(s) && Labelled(render, log, s) && ResolvedWereWritten(s) && CreditedCorrectly(s)
    requires k < |s.settlements| && s.settlements[k].outcome.Resolved? && IsAnswer(events, s.settlements[k].outcome)
    ensures AnswersItsPrompt(render, log, s, AgentEnds(events), k)
  {
    assert WasWritten(s, k);
    var w :| 0 <= w < |s.written| && s.written[w].ticket == k;
    assert s.settlements[k].ticket == k;
  }
}
