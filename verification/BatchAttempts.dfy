/** Which attempts a batch makes: the retries and halvings of `translateBatch`, read off the log of attempts and the
  * backend. */
module BatchAttempts {
  import opened JsText
  import opened Lists
  import opened TranslationBatches
  import opened BatchTranslation

  /** How an attempt ended, by what the backend did to it. */
  ghost function OutcomeOf(ask: Ask, backend: Backend): Result {
    var attempt := backend(ask.attempt);
    if ask.prompted then ReplyResult(ask.items, attempt.reply)
    else Failed(match attempt.createError case Some(message) => message case None => "")
  }

  /** The error says so, in any case of its letters. */
  ghost predicate TimedOut(ask: Ask, backend: Backend) {
    OutcomeOf(ask, backend).Failed? && Holds(ToLowerCase(OutcomeOf(ask, backend).message), "timed out")
  }

  ghost predicate Refused(ask: Ask, backend: Backend) {
    OutcomeOf(ask, backend).Failed? && !TimedOut(ask, backend)
  }

  /** A reply is usable exactly if it has a text that is not blank for every item; otherwise the error names the first
    * item without one. */
  lemma {:induction false} UsableIff(items: seq<Item>, values: map<string, string>)
    ensures var result := ReplyResult(items, Answer(values));
      && (result.Translated? <==>
            forall i | 0 <= i < |items| :: items[i].key in values && !IsBlank(values[items[i].key]))
      && (result.Failed? ==> exists i ::
            && 0 <= i < |items| && (items[i].key !in values || IsBlank(values[items[i].key]))
            && (forall j | 0 <= j < i :: items[j].key in values && !IsBlank(values[items[j].key]))
            && result.message == "missing translation for " + items[i].key)
  {
    hide IsBlank;
    if items != [] {
      var key, rest := items[0].key, items[1..];
      if key in values && !IsBlank(values[key]) {
        UsableIff(rest, values);
        assert forall i | 0 <= i < |rest| :: rest[i] == items[i + 1];
        if ReplyResult(rest, Answer(values)).Failed? {
          var i :| 0 <= i < |rest| && (rest[i].key !in values || IsBlank(values[rest[i].key]))
            && (forall j | 0 <= j < i :: rest[j].key in values && !IsBlank(values[rest[j].key]))
            && ReplyResult(rest, Answer(values)).message == "missing translation for " + rest[i].key;
          assert items[i + 1] == rest[i];
          forall j | 0 <= j < i + 1 ensures items[j].key in values && !IsBlank(values[items[j].key]) {
            assert j > 0 ==> items[j] == rest[j - 1];
          }
        }
      }
    }
  }

  /** The attempts work off a list of batches. A success takes the first batch off; a timeout replaces it by its two
    * halves at once, or ends everything if it is a single item; any other error repeats it once, and ends everything
    * the second time. */
  ghost predicate WorkOff(asked: seq<Ask>, work: seq<seq<Item>>, again: bool, backend: Backend) {
    if work == [] then asked == []
    else
      && asked != [] && asked[0].items == work[0]
      && var n := |work[0]|;
      if OutcomeOf(asked[0], backend).Translated? then WorkOff(asked[1..], work[1..], false, backend)
      else if TimedOut(asked[0], backend) then
        if n >= 2 then
          WorkOff(asked[1..], [work[0][..(n + 1) / 2], work[0][(n + 1) / 2..]] + work[1..], false, backend)
        else asked[1..] == []
      else if again then asked[1..] == []
      else WorkOff(asked[1..], work, true, backend)
  }

  /** The attempts made between two states. */
  ghost function Asked(access: Access, after: Access): seq<Ask>
    requires access.asked <= after.asked
  {
    after.asked[|access.asked|..]
  }

  lemma TimedOutIs(ask: Ask, backend: Backend)
    ensures TimedOut(ask, backend) <==>
      OutcomeOf(ask, backend).Failed? && IsPromptTimeout(OutcomeOf(ask, backend).message)
  {
    if OutcomeOf(ask, backend).Failed? {
      IncludesHolds(ToLowerCase(OutcomeOf(ask, backend).message), "timed out");
    }
  }

  lemma TryAsks(access: Access, items: seq<Item>, backend: Backend) returns (ask: Ask)
    ensures var (tried, result) := Try(access, items, backend);
      && tried.asked == access.asked + [ask] && ask.items == items && ask.attempt == access.attempts
      && OutcomeOf(ask, backend) == result && tried.attempts == access.attempts + 1
      && (TimedOut(ask, backend) <==> result.Failed? && IsPromptTimeout(result.message))
  {
    hide ReplyResult, IsPromptTimeout;
    var tried := Try(access, items, backend).0;
    ask := tried.asked[|access.asked|];
    TimedOutIs(ask, backend);
  }

  lemma AskedCons(access: Access, tried: Access, after: Access, ask: Ask)
    requires tried.asked == access.asked + [ask] && tried.asked <= after.asked
    ensures access.asked <= after.asked && Asked(access, after) == [ask] + Asked(tried, after)
  {
  }

  lemma AskedSplit(access: Access, middle: Access, after: Access)
    requires access.asked <= middle.asked <= after.asked
    ensures Asked(access, after) == Asked(access, middle) + Asked(middle, after)
  {
  }

  lemma WorkOffFirst(ask: Ask, more: seq<Ask>, items: seq<Item>, rest: seq<seq<Item>>, again: bool, backend: Backend)
    requires ask.items == items
    requires
      var n := |items|;
      if OutcomeOf(ask, backend).Translated? then WorkOff(more, rest, false, backend)
      else if TimedOut(ask, backend) then
        if n >= 2 then WorkOff(more, [items[..(n + 1) / 2], items[(n + 1) / 2..]] + rest, false, backend)
        else more == []
      else if again then more == [] else WorkOff(more, [items] + rest, true, backend)
    ensures WorkOff([ask] + more, [items] + rest, again, backend)
  {
    hide OutcomeOf, TimedOut;
    assert ([ask] + more)[1..] == more && ([items] + rest)[1..] == rest;
  }

  /** A batch works itself off, and whatever follows its success works off the rest. */
  lemma {:induction false} TranslateWorksOff(access: Access, items: seq<Item>, tries: nat, lastError: string,
                                             backend: Backend, rest: seq<seq<Item>>, more: seq<Ask>)
    requires tries < 2
    requires var result := Translate(access, items, tries, lastError, backend).1;
      if result.Translated? then WorkOff(more, rest, false, backend) else more == []
    ensures var after := Translate(access, items, tries, lastError, backend).0;
      access.asked <= after.asked && WorkOff(Asked(access, after) + more, [items] + rest, tries == 1, backend)
    decreases |items|, TRANSLATE_MAX_ATTEMPTS - tries
  {
    hide Try, IsPromptTimeout, WorkOff, TimedOut, OutcomeOf;
    var (tried, result) := Try(access, items, backend);
    var after := Translate(access, items, tries, lastError, backend).0;
    var ask := TryAsks(access, items, backend);
    if result.Failed? && !IsPromptTimeout(result.message) {
      if tries == 0 {
        TranslateWorksOff(tried, items, 1, result.message, backend, rest, more);
      } else {
        assert Translate(tried, items, 2, result.message, backend) == (tried, Failed(result.message));
      }
    } else if result.Failed? && |items| > 1 {
      HalvesWorkOff(tried, items, backend, rest, more);
    }
    AskedCons(access, tried, after, ask);
    AppendAssoc([ask], Asked(tried, after), more);
    if after == tried {
      assert Asked(tried, after) + more == more;
    }
    WorkOffFirst(ask, Asked(tried, after) + more, items, rest, tries == 1, backend);
  }

  lemma {:induction false} HalvesWorkOff(access: Access, items: seq<Item>, backend: Backend, rest: seq<seq<Item>>,
                                         more: seq<Ask>)
    requires |items| > 1
    requires var result := Halves(access, items, backend).1;
      if result.Translated? then WorkOff(more, rest, false, backend) else more == []
    ensures var after := Halves(access, items, backend).0;
      var n := |items|;
      access.asked <= after.asked
      && WorkOff(Asked(access, after) + more, [items[..(n + 1) / 2], items[(n + 1) / 2..]] + rest, false, backend)
    decreases |items|, 0
  {
    hide Translate, WorkOff;
    var first, second := items[..(|items| + 1) / 2], items[(|items| + 1) / 2..];
    var (middle, left) := Translate(access, first, 0, NO_ERROR, backend);
    assert [first, second] + rest == [first] + ([second] + rest);
    if left.Translated? {
      var after := Translate(middle, second, 0, NO_ERROR, backend).0;
      TranslateWorksOff(middle, second, 0, NO_ERROR, backend, rest, more);
      TranslateWorksOff(access, first, 0, NO_ERROR, backend, [second] + rest, Asked(middle, after) + more);
      AskedSplit(access, middle, after);
      AppendAssoc(Asked(access, middle), Asked(middle, after), more);
    } else {
      TranslateWorksOff(access, first, 0, NO_ERROR, backend, [second] + rest, []);
    }
  }

  /** What attempt `j` leads to; `again` says whether the first one repeats another. */
  ghost predicate LeadsOn(asked: seq<Ask>, again: bool, backend: Backend, j: nat)
    requires j < |asked|
  {
    var n := |asked[j].items|;
    var repeats := if j == 0 then again else Refused(asked[j - 1], backend);
    && (TimedOut(asked[j], backend) && n >= 2 ==>
          j + 1 < |asked| && asked[j + 1].items == asked[j].items[..(n + 1) / 2])
    && (TimedOut(asked[j], backend) && n < 2 ==> j + 1 == |asked|)
    && (Refused(asked[j], backend) && !repeats ==> j + 1 < |asked| && asked[j + 1].items == asked[j].items)
    && (Refused(asked[j], backend) && repeats ==> j + 1 == |asked|)
  }

  lemma LeadsOnTail(asked: seq<Ask>, again: bool, backend: Backend, j: nat)
    requires 0 < j < |asked| && LeadsOn(asked[1..], Refused(asked[0], backend), backend, j - 1)
    ensures LeadsOn(asked, again, backend, j)
  {
    hide Refused, TimedOut;
    var tail := asked[1..];
    assert tail[j - 1] == asked[j] && (j >= 2 ==> tail[j - 2] == asked[j - 1]);
    assert j + 1 < |asked| ==> tail[j] == asked[j + 1];
  }

  lemma {:induction false} NextAttempt(asked: seq<Ask>, work: seq<seq<Item>>, again: bool, backend: Backend, j: nat)
    requires WorkOff(asked, work, again, backend) && j < |asked|
    ensures LeadsOn(asked, again, backend, j)
    decreases j
  {
    hide OutcomeOf;
    var n, first := |work[0]|, asked[0];
    assert |asked[1..]| == |asked| - 1;
    var work' :=
      if OutcomeOf(first, backend).Translated? then work[1..]
      else if TimedOut(first, backend) && n >= 2 then [work[0][..(n + 1) / 2], work[0][(n + 1) / 2..]] + work[1..]
      else work;
    if j > 0 {
      NextAttempt(asked[1..], work', Refused(first, backend), backend, j - 1);
      LeadsOnTail(asked, again, backend, j);
    } else if !OutcomeOf(first, backend).Translated? && (if TimedOut(first, backend) then n >= 2 else !again) {
      FirstIsAsked(asked[1..], work', Refused(first, backend), backend);
    }
  }

  lemma FirstIsAsked(asked: seq<Ask>, work: seq<seq<Item>>, again: bool, backend: Backend)
    requires WorkOff(asked, work, again, backend) && work != []
    ensures asked != [] && asked[0].items == work[0]
  {
  }

  /** All attempts of a batch, for any backend. The first is for the whole batch. After a timeout on n >= 2 items the
    * very next one is for the first (n + 1) / 2 of them; after a timeout on a single item there is no other. Any other
    * error is followed by exactly one more attempt for the same items. */
  lemma AttemptsAre(access: Access, items: seq<Item>, backend: Backend, j: nat)
    requires j < |Translate(access, items, 0, NO_ERROR, backend).0.asked| - |access.asked|
    ensures var after := Translate(access, items, 0, NO_ERROR, backend).0;
      && access.asked <= after.asked
      && var asked := Asked(access, after);
      && WorkOff(asked, [items], false, backend)
      && var n := |asked[j].items|;
      && asked[0].items == items
      && (TimedOut(asked[j], backend) && n >= 2 ==>
            j + 1 < |asked| && asked[j + 1].items == asked[j].items[..(n + 1) / 2])
      && (TimedOut(asked[j], backend) && n < 2 ==> j + 1 == |asked|)
      && (Refused(asked[j], backend) && (j == 0 || !Refused(asked[j - 1], backend)) ==>
            j + 1 < |asked| && asked[j + 1].items == asked[j].items)
      && (Refused(asked[j], backend) && j > 0 && Refused(asked[j - 1], backend) ==> j + 1 == |asked|)
  {
    hide Translate, OutcomeOf, TimedOut, Refused, WorkOff;
    var after := Translate(access, items, 0, NO_ERROR, backend).0;
    BatchWorksOff(access, items, backend);
    FirstIsAsked(Asked(access, after), [items], false, backend);
    NextAttempt(Asked(access, after), [items], false, backend, j);
  }

  lemma BatchWorksOff(access: Access, items: seq<Item>, backend: Backend)
    ensures var after := Translate(access, items, 0, NO_ERROR, backend).0;
      access.asked <= after.asked && WorkOff(Asked(access, after), [items], false, backend)
  {
    hide Translate;
    var after := Translate(access, items, 0, NO_ERROR, backend).0;
    TranslateWorksOff(access, items, 0, NO_ERROR, backend, [], []);
    assert Asked(access, after) + [] == Asked(access, after) && [items] + [] == [items];
  }

  // ----- the two logs -----

  ghost function Prompted(asked: seq<Ask>): seq<Ask> {
    if asked == [] then []
    else (if asked[0].prompted then [asked[0]] else []) + Prompted(asked[1..])
  }

  ghost function AsAsked(sent: seq<Sent>): seq<Ask> {
    seq(|sent|, i requires 0 <= i < |sent| => Ask(sent[i].attempt, sent[i].items, true))
  }

  /** Whether there is a client after these attempts: exactly if the last one succeeded. */
  ghost predicate LeavesClient(asked: seq<Ask>, had: bool, backend: Backend) {
    if asked == [] then had else OutcomeOf(asked[|asked| - 1], backend).Translated?
  }

  /** Attempts are numbered on; an attempt prompts unless it needs a client and cannot have one; and what is sent are
    * the attempts that prompt. */
  ghost predicate Logs(access: Access, after: Access, backend: Backend) {
    && access.asked <= after.asked && access.sent <= after.sent
    && var asked := Asked(access, after);
    && after.attempts == access.attempts + |asked|
    && (forall j | 0 <= j < |asked| :: asked[j].attempt == access.attempts + j)
    && (forall j | 0 <= j < |asked| :: asked[j].prompted <==>
          LeavesClient(asked[..j], access.client.Some?, backend) || backend(asked[j].attempt).createError.None?)
    && AsAsked(Since(access, after)) == Prompted(asked)
    && (after.client.Some? <==> LeavesClient(asked, access.client.Some?, backend))
  }

  lemma {:induction false} PromptedConcat(a: seq<Ask>, b: seq<Ask>)
    ensures Prompted(a + b) == Prompted(a) + Prompted(b)
  {
    if a == [] {
      assert a + b == b;
    } else {
      PromptedConcat(a[1..], b);
      assert (a + b)[1..] == a[1..] + b;
      AppendAssoc(if a[0].prompted then [a[0]] else [], Prompted(a[1..]), Prompted(b));
    }
  }

  lemma AsAskedConcat(a: seq<Sent>, b: seq<Sent>)
    ensures AsAsked(a + b) == AsAsked(a) + AsAsked(b)
  {
  }

  lemma TryLogs(access: Access, items: seq<Item>, backend: Backend)
    ensures Logs(access, Try(access, items, backend).0, backend)
  {
    hide ReplyResult;
    var (tried, result) := Try(access, items, backend);
    var asked := Asked(access, tried);
    assert |asked| == 1 && asked[..0] == [] && asked[1..] == [];
    assert Prompted(asked) == if asked[0].prompted then asked else [];
    assert OutcomeOf(asked[0], backend) == result;
  }

  lemma LeavesClientConcat(a: seq<Ask>, b: seq<Ask>, had: bool, backend: Backend)
    ensures LeavesClient(a + b, had, backend) <==> LeavesClient(b, LeavesClient(a, had, backend), backend)
  {
    hide OutcomeOf;
    if b == [] {
      assert a + b == a;
    } else {
      assert (a + b)[|a + b| - 1] == b[|b| - 1];
    }
  }

  lemma LeavesClientBefore(a: seq<Ask>, b: seq<Ask>, had: bool, backend: Backend, j: nat)
    requires j < |a + b|
    ensures LeavesClient((a + b)[..j], had, backend) <==>
      if j < |a| then LeavesClient(a[..j], had, backend)
      else LeavesClient(b[..j - |a|], LeavesClient(a, had, backend), backend)
  {
    hide LeavesClient;
    if j < |a| {
      assert (a + b)[..j] == a[..j];
    } else {
      assert (a + b)[..j] == a + b[..j - |a|];
      LeavesClientConcat(a, b[..j - |a|], had, backend);
    }
  }

  lemma LogsOn(access: Access, middle: Access, after: Access, backend: Backend)
    requires Logs(access, middle, backend) && Logs(middle, after, backend)
    ensures Logs(access, after, backend)
  {
    hide LeavesClient, AsAsked, Prompted, Asked, Since;
    var a, b := Asked(access, middle), Asked(middle, after);
    AskedSplit(access, middle, after);
    SinceSplit(access, middle, after);
    PromptedConcat(a, b);
    AsAskedConcat(Since(access, middle), Since(middle, after));
    LeavesClientConcat(a, b, access.client.Some?, backend);
    forall j | 0 <= j < |a + b|
      ensures (a + b)[j].attempt == access.attempts + j
      ensures (a + b)[j].prompted <==>
        LeavesClient((a + b)[..j], access.client.Some?, backend)
        || backend((a + b)[j].attempt).createError.None?
    {
      LeavesClientBefore(a, b, access.client.Some?, backend, j);
      assert (a + b)[j] == if j < |a| then a[j] else b[j - |a|];
    }
  }

  lemma LogsNothing(access: Access, backend: Backend)
    ensures Logs(access, access, backend)
  {
  }

  lemma {:induction false} TranslateLogs(access: Access, items: seq<Item>, tries: nat, lastError: string,
                                         backend: Backend)
    ensures Logs(access, Translate(access, items, tries, lastError, backend).0, backend)
    decreases |items|, TRANSLATE_MAX_ATTEMPTS - tries
  {
    hide Try, IsPromptTimeout, Logs;
    if tries >= TRANSLATE_MAX_ATTEMPTS {
      LogsNothing(access, backend);
    } else {
      var (tried, result) := Try(access, items, backend);
      TryLogs(access, items, backend);
      if result.Failed? && !IsPromptTimeout(result.message) {
        TranslateLogs(tried, items, tries + 1, result.message, backend);
        LogsOn(access, tried, Translate(tried, items, tries + 1, result.message, backend).0, backend);
      } else if result.Failed? && |items| > 1 {
        HalvesLog(tried, items, backend);
        LogsOn(access, tried, Halves(tried, items, backend).0, backend);
      }
    }
  }

  lemma {:induction false} HalvesLog(access: Access, items: seq<Item>, backend: Backend)
    requires |items| > 1
    ensures Logs(access, Halves(access, items, backend).0, backend)
    decreases |items|, 0
  {
    hide Translate, Logs;
    var first, second := items[..Midpoint(items)], items[Midpoint(items)..];
    TranslateLogs(access, first, 0, NO_ERROR, backend);
    var (middle, left) := Translate(access, first, 0, NO_ERROR, backend);
    if left.Translated? {
      TranslateLogs(middle, second, 0, NO_ERROR, backend);
      LogsOn(access, middle, Translate(middle, second, 0, NO_ERROR, backend).0, backend);
    }
  }

  // ----- what is asked for -----

  /** A contiguous part. */
  ghost predicate IsPart(x: seq<Item>, items: seq<Item>) {
    exists a, b :: items == a + x + b
  }

  lemma PartOfPart(x: seq<Item>, part: seq<Item>, items: seq<Item>)
    requires IsPart(x, part) && IsPart(part, items)
    ensures IsPart(x, items)
  {
    var a, b :| part == a + x + b;
    var c, d :| items == c + part + d;
    assert items == (c + a) + x + (b + d);
  }

  lemma HalvesAreParts(items: seq<Item>, n: nat)
    requires n <= |items|
    ensures IsPart(items, items) && IsPart(items[..n], items) && IsPart(items[n..], items)
  {
    assert items == [] + items + [] && items == [] + items[..n] + items[n..] && items == items[..n] + items[n..] + [];
  }

  /** The attempts since a state are for parts of the items. */
  ghost predicate AsksParts(access: Access, after: Access, items: seq<Item>) {
    access.asked <= after.asked &&
    forall k | |access.asked| <= k < |after.asked| ::
      after.asked[k].items != [] && IsPart(after.asked[k].items, items)
  }

  lemma AsksPartsOn(access: Access, middle: Access, after: Access, part: seq<Item>, items: seq<Item>)
    requires AsksParts(access, middle, items) && AsksParts(middle, after, part) && IsPart(part, items)
    ensures AsksParts(access, after, items)
  {
    hide IsPart;
    forall k | |access.asked| <= k < |after.asked|
      ensures after.asked[k].items != [] && IsPart(after.asked[k].items, items)
    {
      if k < |middle.asked| {
        assert after.asked[k] == middle.asked[k];
      } else {
        PartOfPart(after.asked[k].items, part, items);
      }
    }
  }

  lemma {:induction false} TranslateAsksParts(access: Access, items: seq<Item>, tries: nat, lastError: string,
                                              backend: Backend)
    requires items != []
    ensures AsksParts(access, Translate(access, items, tries, lastError, backend).0, items)
    decreases |items|, TRANSLATE_MAX_ATTEMPTS - tries
  {
    hide Try, IsPromptTimeout, IsPart;
    if tries < TRANSLATE_MAX_ATTEMPTS {
      var (tried, result) := Try(access, items, backend);
      var ask := TryAsks(access, items, backend);
      HalvesAreParts(items, 0);
      if result.Failed? && !IsPromptTimeout(result.message) {
        TranslateAsksParts(tried, items, tries + 1, result.message, backend);
      } else if result.Failed? && |items| > 1 {
        HalvesAskParts(tried, items, backend);
      }
      AsksPartsOn(access, tried, Translate(access, items, tries, lastError, backend).0, items, items);
    }
  }

  lemma {:induction false} HalvesAskParts(access: Access, items: seq<Item>, backend: Backend)
    requires |items| > 1
    ensures AsksParts(access, Halves(access, items, backend).0, items)
    decreases |items|, 0
  {
    hide Translate, IsPart;
    var first, second := items[..Midpoint(items)], items[Midpoint(items)..];
    HalvesAreParts(items, Midpoint(items));
    TranslateAsksParts(access, first, 0, NO_ERROR, backend);
    var (middle, left) := Translate(access, first, 0, NO_ERROR, backend);
    AsksPartsOn(access, access, middle, first, items);
    if left.Translated? {
      TranslateAsksParts(middle, second, 0, NO_ERROR, backend);
      AsksPartsOn(access, middle, Translate(middle, second, 0, NO_ERROR, backend).0, second, items);
    }
  }
}
