/** One run of `syncLocale` as a function: from the files, the options and the shared client to the files, the
  * client and how the run ends. `LocaleSync` says what a completed run leaves behind; here the translations come
  * from the backend, and every ending has its condition. */
module LocaleSyncSpec {
  import opened JsText
  import opened TranslationTree
  import opened TranslationBatches
  import opened BatchTranslation
  import opened LocaleSync

  // ----- batch after batch -----

  datatype Fetched = Fetched(values: seq<string>) | FetchFailed(message: string)

  function Before(values: seq<string>, fetched: Fetched): Fetched {
    match fetched
    case Fetched(rest) => Fetched(values + rest)
    case FetchFailed(_) => fetched
  }

  /** The batches in order, up to the first that fails. */
  function TranslateAll(access: Access, batches: seq<seq<Item>>, backend: Backend): (r: (Access, Fetched))
    ensures r.1.Fetched? ==> |r.1.values| == |Concat(batches)|
    decreases |batches|
  {
    if batches == [] then (access, Fetched([]))
    else
      var (access', result) := Translate(access, batches[0], 0, NO_ERROR, backend);
      if result.Failed? then (access', FetchFailed(result.message))
      else
        var (access'', rest) := TranslateAll(access', batches[1..], backend);
        (access'', Before(ValuesOf(batches[0], result.values), rest))
  }

  lemma ValuesNonBlank(batch: seq<Item>, translated: map<string, string>)
    requires Keys(batch) <= translated.Keys && forall key | key in translated :: !IsBlank(translated[key])
    ensures AllNonBlank(ValuesOf(batch, translated))
    ensures forall i | 0 <= i < |batch| ::
      batch[i].key in translated && ValuesOf(batch, translated)[i] == translated[batch[i].key]
  {
    hide IsBlank;
    forall i | 0 <= i < |batch| ensures batch[i].key in translated {
      assert batch[i].key in Keys(batch);
    }
  }

  /** Every value of a run of batches is a non-blank text out of the reply to a prompt for its key. */
  ghost predicate Traced(access: Access, start: nat, items: seq<Item>, backend: Backend, values: seq<string>) {
    && |values| == |items|
    && forall i | 0 <= i < |items| ::
         !IsBlank(values[i]) && FromReply(access, start, items, backend, items[i].key, values[i])
  }

  lemma {:induction false} TranslateAllTraced(access: Access, batches: seq<seq<Item>>, backend: Backend)
    ensures var (after, fetched) := TranslateAll(access, batches, backend);
      access.sent <= after.sent
      && (fetched.Fetched? ==> Traced(after, |access.sent|, Concat(batches), backend, fetched.values))
    decreases |batches|
  {
    hide IsBlank, FromReply, Translate;
    if batches != [] {
      var (access', result) := Translate(access, batches[0], 0, NO_ERROR, backend);
      TranslateAccounts(access, batches[0], 0, NO_ERROR, backend);
      if result.Translated? {
        TranslateAllTraced(access', batches[1..], backend);
        var (after, rest) := TranslateAll(access', batches[1..], backend);
        if rest.Fetched? {
          ValuesNonBlank(batches[0], result.values);
          TracedFirst(access', |access.sent|, batches[0], backend, result.values);
          TracedConcat(access', after, |access.sent|, batches[0], ValuesOf(batches[0], result.values),
                       Concat(batches[1..]), rest.values, backend);
        }
      }
    }
  }

  lemma TracedFirst(access: Access, start: nat, batch: seq<Item>, backend: Backend, translated: map<string, string>)
    requires Accounted(access, start, batch, backend, translated)
    ensures Traced(access, start, batch, backend, ValuesOf(batch, translated))
  {
    hide IsBlank, FromReply;
    ValuesNonBlank(batch, translated);
  }

  lemma KeysOfConcat(a: seq<Item>, b: seq<Item>)
    ensures Keys(a) <= Keys(a + b) && Keys(b) <= Keys(a + b)
  {
    forall i | 0 <= i < |a| ensures a[i].key in Keys(a + b) {
      assert (a + b)[i] == a[i];
    }
    forall i | 0 <= i < |b| ensures b[i].key in Keys(a + b) {
      assert (a + b)[|a| + i] == b[i];
    }
  }

  lemma FromReplyStays(access: Access, after: Access, start: nat, later: nat, part: seq<Item>, items: seq<Item>,
                       backend: Backend, key: string, text: string)
    requires access.sent <= after.sent && start <= later && Keys(part) <= Keys(items)
    requires FromReply(access, later, part, backend, key, text)
    ensures FromReply(after, start, items, backend, key, text)
  {
    var k :| later <= k < |access.sent| && key in Keys(access.sent[k].items) && Keys(access.sent[k].items) <= Keys(part)
      && backend(access.sent[k].attempt).reply.Answer?
      && key in backend(access.sent[k].attempt).reply.values
      && backend(access.sent[k].attempt).reply.values[key] == text;
    assert after.sent[k] == access.sent[k];
  }

  lemma TracedConcat(access: Access, after: Access, start: nat, first: seq<Item>, values: seq<string>,
                     rest: seq<Item>, others: seq<string>, backend: Backend)
    requires access.sent <= after.sent && start <= |access.sent|
    requires Traced(access, start, first, backend, values) && Traced(after, |access.sent|, rest, backend, others)
    ensures Traced(after, start, first + rest, backend, values + others)
  {
    hide IsBlank, FromReply, Keys;
    KeysOfConcat(first, rest);
    var items, texts := first + rest, values + others;
    forall i | 0 <= i < |items|
      ensures !IsBlank(texts[i]) && FromReply(after, start, items, backend, items[i].key, texts[i])
    {
      if i < |first| {
        FromReplyStays(access, after, start, start, first, items, backend, first[i].key, values[i]);
      } else {
        FromReplyStays(after, after, start, |access.sent|, rest, items, backend, rest[i - |first|].key,
          others[i - |first|]);
      }
    }
  }

  lemma {:induction false} TranslateAllDiscards(access: Access, batches: seq<seq<Item>>, backend: Backend)
    requires FailsOnce(access)
    ensures FailsOnce(TranslateAll(access, batches, backend).0)
    decreases |batches|
  {
    hide FailsOnce, Translate;
    if batches != [] {
      TranslateDiscards(access, batches[0], 0, NO_ERROR, backend);
      TranslateAllDiscards(Translate(access, batches[0], 0, NO_ERROR, backend).0, batches[1..], backend);
    }
  }

  /** Batch after batch the usable prompts cover the items, or a proper prefix of them. */
  lemma {:induction false} TranslateAllCovers(access: Access, batches: seq<seq<Item>>, backend: Backend)
    requires forall b | b in batches :: b != []
    ensures var (after, fetched) := TranslateAll(access, batches, backend);
      access.sent <= after.sent && Covers(Since(access, after), Concat(batches), backend, fetched.Fetched?)
    decreases |batches|
  {
    hide Usable, Translate, Since;
    if batches == [] {
      NothingSent(access, backend);
    } else {
      assert batches[0] in batches;
      var (middle, result) := Translate(access, batches[0], 0, NO_ERROR, backend);
      TranslateCovers(access, batches[0], 0, NO_ERROR, backend);
      if result.Translated? {
        assert forall b | b in batches[1..] :: b in batches;
        TranslateAllCovers(middle, batches[1..], backend);
        UsableSplit(access, middle, TranslateAll(middle, batches[1..], backend).0, backend);
      }
    }
  }

  /** A failure carries the error of the last attempt. */
  lemma {:induction false} TranslateAllFails(access: Access, batches: seq<seq<Item>>, backend: Backend)
    ensures var (after, fetched) := TranslateAll(access, batches, backend);
      Grows(access, after) && (fetched.FetchFailed? ==> FailsWith(access, after, backend, fetched.message))
    decreases |batches|
  {
    hide Translate, FailsWith;
    if batches != [] {
      var (middle, result) := Translate(access, batches[0], 0, NO_ERROR, backend);
      TranslateFails(access, batches[0], 0, NO_ERROR, backend);
      if result.Translated? {
        TranslateAllFails(middle, batches[1..], backend);
        var (after, rest) := TranslateAll(middle, batches[1..], backend);
        if rest.FetchFailed? {
          LastErrorSplit(access, middle, after, backend, rest.message);
        }
      }
    }
  }

  lemma {:induction false} TranslateAllTexts(access: Access, batches: seq<seq<Item>>, backend: Backend)
    requires DistinctItems(Concat(batches)) && forall b | b in batches :: b != []
    ensures var (after, fetched) := TranslateAll(access, batches, backend);
      access.sent <= after.sent
      && (fetched.Fetched? ==> fetched.values == UsableTexts(Since(access, after), backend))
    decreases |batches|
  {
    hide UsableTexts, Translate, ValuesOf;
    if batches == [] {
      NothingSent(access, backend);
    } else {
      assert batches[0] in batches;
      DistinctParts(batches[0], Concat(batches[1..]));
      var (middle, result) := Translate(access, batches[0], 0, NO_ERROR, backend);
      TranslateTexts(access, batches[0], 0, NO_ERROR, backend);
      if result.Translated? {
        assert forall b | b in batches[1..] :: b in batches;
        TranslateAllTexts(middle, batches[1..], backend);
        var (after, rest) := TranslateAll(middle, batches[1..], backend);
        UsableTextsSplit(access, middle, after, backend);
      }
    }
  }

  lemma DistinctParts(a: seq<Item>, b: seq<Item>)
    requires DistinctItems(a + b)
    ensures DistinctItems(a) && DistinctItems(b)
  {
    forall i, j | 0 <= i < j < |a| ensures a[i].key != a[j].key {
      assert (a + b)[i] == a[i] && (a + b)[j] == a[j];
    }
    forall i, j | 0 <= i < j < |b| ensures b[i].key != b[j].key {
      assert (a + b)[|a| + i] == b[i] && (a + b)[|a| + j] == b[j];
    }
  }

  // ----- a run -----

  datatype SyncEnd =
    | Done(outcome: Outcome)
    | Skipped(fallbackCount: nat)            // optional provider whose credentials were refused
    | TranslationFailed(message: string)
    | PlaceholderMismatch

  predicate IsProviderAuthError(message: string) {
    var m := ToLowerCase(message);
    Includes(m, "401") || Includes(m, "authentication_error") || Includes(m, "incorrect api key")
    || Includes(m, "invalid x-api-key")
  }

  predicate NeedsBackend(env: Env, props: Props, disk: Disk) {
    env.allowTranslate && Decided(env, Flatten(props), disk).pending != []
  }

  /** The translation step; without a provider or without pending items it asks nothing. */
  function Fetch(env: Env, props: Props, disk: Disk, budget: int, access: Access,
                 backend: Backend): (r: (Access, Fetched))
    ensures r.1.Fetched? && env.allowTranslate ==> |r.1.values| == |Decided(env, Flatten(props), disk).pending|
  {
    if NeedsBackend(env, props, disk) then
      var pending := Decided(env, Flatten(props), disk).pending;
      GreedyIsPartition(pending, budget);
      var (access', fetched) := TranslateAll(access, Greedy(pending, budget), backend);
      (access'.(client := None), fetched)
    else (access, Fetched([]))
  }

  function SyncRun(env: Env, props: Props, disk: Disk, options: Options, authOptional: bool, budget: int,
                   access: Access, backend: Backend, now: string): (Disk, Access, SyncEnd)
  {
    var (access', fetched) := Fetch(env, props, disk, budget, access, backend);
    match fetched
    case FetchFailed(message) =>
      (disk, access',
       if authOptional && IsProviderAuthError(message)
       then Skipped(if disk.meta.Missing? then 0 else |disk.meta.value.fallbackKeys|)
       else TranslationFailed(message))
    case Fetched(values) =>
      if !PlaceholdersAgree(env, Flatten(props), Settled(env, Flatten(props), disk, options.force, values, now).next)
      then (disk, access', PlaceholderMismatch)
      else
        var (disk', outcome) := SyncResult(env, props, disk, options, values, now);
        (disk', access', Done(outcome))
  }

  // ----- how a run ends -----

  /** The prompts sent by the translation step. */
  lemma FetchCovers(env: Env, props: Props, disk: Disk, budget: int, access: Access, backend: Backend)
    ensures var (after, fetched) := Fetch(env, props, disk, budget, access, backend);
      && Grows(access, after)
      && Usable(Since(access, after), backend) <= Decided(env, Flatten(props), disk).pending
      && (fetched.FetchFailed? <==>
            env.allowTranslate && Usable(Since(access, after), backend) != Decided(env, Flatten(props), disk).pending)
      && (fetched.FetchFailed? ==> FailsWith(access, after, backend, fetched.message))
  {
    hide Decided, TranslateAll, Greedy, Concat, Usable, LastError;
    var pending := Decided(env, Flatten(props), disk).pending;
    if NeedsBackend(env, props, disk) {
      GreedyIsPartition(pending, budget);
      TranslateAllCovers(access, Greedy(pending, budget), backend);
      TranslateAllFails(access, Greedy(pending, budget), backend);
      ResetKeepsSent(access, TranslateAll(access, Greedy(pending, budget), backend).0);
    } else {
      NothingSent(access, backend);
    }
  }

  lemma ResetKeepsSent(access: Access, after: Access)
    requires access.sent <= after.sent
    ensures Since(access, after.(client := None)) == Since(access, after)
  {
  }

  /** The texts of a completed translation step are those of the usable replies, item by item. */
  lemma FetchedTexts(env: Env, props: Props, disk: Disk, budget: int, access: Access, backend: Backend)
    requires Sound(env) && WellFormed(props)
    ensures var (after, fetched) := Fetch(env, props, disk, budget, access, backend);
      access.sent <= after.sent
      && (fetched.Fetched? ==> fetched.values == UsableTexts(Since(access, after), backend))
  {
    hide Decided, TranslateAll, Greedy, Concat, UsableTexts, Flatten, Sound, WellFormed;
    var pending := Decided(env, Flatten(props), disk).pending;
    if NeedsBackend(env, props, disk) {
      SourceKeysDistinct(props);
      PendingDistinct(env, Flatten(props), disk);
      GreedyIsPartition(pending, budget);
      TranslateAllTexts(access, Greedy(pending, budget), backend);
      ResetKeepsSent(access, TranslateAll(access, Greedy(pending, budget), backend).0);
    } else {
      NothingSent(access, backend);
    }
  }

  lemma FetchCompletes(env: Env, props: Props, disk: Disk, budget: int, access: Access, backend: Backend)
    requires Fetch(env, props, disk, budget, access, backend).1.Fetched?
    ensures Completes(env, Flatten(props), disk, Fetch(env, props, disk, budget, access, backend).1.values)
    ensures NeedsBackend(env, props, disk) ==>
      var (after, fetched) := Fetch(env, props, disk, budget, access, backend);
      Traced(after, |access.sent|, Decided(env, Flatten(props), disk).pending, backend, fetched.values)
  {
    hide IsBlank, FromReply, Decided, TranslateAll, Greedy, Concat;
    if NeedsBackend(env, props, disk) {
      var pending := Decided(env, Flatten(props), disk).pending;
      GreedyIsPartition(pending, budget);
      TranslateAllTraced(access, Greedy(pending, budget), backend);
      var (access', fetched) := TranslateAll(access, Greedy(pending, budget), backend);
      ResetKeepsTraced(access', |access.sent|, pending, backend, fetched.values);
    }
  }

  lemma ResetKeepsTraced(access: Access, start: nat, items: seq<Item>, backend: Backend, values: seq<string>)
    requires Traced(access, start, items, backend, values)
    ensures Traced(access.(client := None), start, items, backend, values)
    ensures AllNonBlank(values)
  {
    hide IsBlank;
    forall i | 0 <= i < |items|
      ensures FromReply(access.(client := None), start, items, backend, items[i].key, values[i])
    {
      FromReplyStays(access, access.(client := None), start, start, items, items, backend, items[i].key, values[i]);
    }
  }

  /** Exactly how a run ends. With a provider it fails when the usable replies leave out a pending item, with the error
    * of its last attempt, and quietly if the provider is optional and that error refuses the credentials. A complete
    * set of texts is refused for its placeholders or done. Only a run that is done touches a file, and only one with a
    * provider and something pending touches the client. */
  lemma EndingsAre(env: Env, props: Props, disk: Disk, options: Options, authOptional: bool, budget: int,
                   access: Access, backend: Backend, now: string)
    ensures var (disk', access', end) := SyncRun(env, props, disk, options, authOptional, budget, access, backend, now);
      var pending := Decided(env, Flatten(props), disk).pending;
      && access.sent <= access'.sent
      && var sent := Since(access, access');
      && Usable(sent, backend) <= pending
      && (end.TranslationFailed? || end.Skipped? <==> env.allowTranslate && Usable(sent, backend) != pending)
      && (end.TranslationFailed? || end.Skipped? ==>
            && access.attempts < access'.attempts
            && var error := LastError(sent, access'.attempts, backend);
            && error.Some?
            && end == if authOptional && IsProviderAuthError(error.value)
                      then Skipped(if disk.meta.Missing? then 0 else |disk.meta.value.fallbackKeys|)
                      else TranslationFailed(error.value))
      && (!end.TranslationFailed? && !end.Skipped? ==>
            var values := Fetch(env, props, disk, budget, access, backend).1.values;
            var next := Settled(env, Flatten(props), disk, options.force, values, now).next;
            && (end.PlaceholderMismatch? <==> !PlaceholdersAgree(env, Flatten(props), next))
            && (end.Done? ==> (disk', end.outcome) == SyncResult(env, props, disk, options, values, now)))
      && (!end.Done? ==> disk' == disk)
      && (if NeedsBackend(env, props, disk) then access'.client.None? else access' == access)
  {
    hide Settled, SyncResult, PlaceholdersAgree, Decided, TranslateAll, IsProviderAuthError, LastError, Usable;
    FetchCovers(env, props, disk, budget, access, backend);
  }

  // ----- where the texts come from -----

  /** The entry is new: a translation of a pending item, out of the reply to a prompt for its key. */
  ghost predicate FromBackend(env: Env, pending: seq<Item>, access: Access, start: nat, backend: Backend, now: string,
                              e: TmEntry)
  {
    exists i :: 0 <= i < |pending| && e == NewEntry(env, pending[i], e.translated, now)
      && FromReply(access, start, pending, backend, pending[i].key, e.translated)
  }

  /** The entry's text was in the memory before, under this or another cache key. */
  ghost predicate FromMemory(memory: seq<TmEntry>, e: TmEntry) {
    exists known :: known in memory && known.translated == e.translated && known.textHash == e.textHash
  }

  lemma {:induction false} StoredEntries(env: Env, l: Loop, items: seq<Item>, values: seq<string>, now: string,
                                         e: TmEntry)
    requires |items| == |values| && e in StoreAll(env, l, items, values, now).memory
    ensures e in l.memory || exists i :: 0 <= i < |items| && e == NewEntry(env, items[i], values[i], now)
    decreases |items|
  {
    if items != [] {
      var entry := NewEntry(env, items[0], values[0], now);
      var l' := if values[0] == "" then l
                else l.(next := l.next[items[0].key := values[0]], memory := MemSet(l.memory, entry));
      StoredEntries(env, l', items[1..], values[1..], now, e);
      MemSetElements(l.memory, entry);
      if e !in l'.memory {
        var i :| 0 <= i < |items[1..]| && e == NewEntry(env, items[1..][i], values[1..][i], now);
        assert items[i + 1] == items[1..][i] && values[i + 1] == values[1..][i];
      }
    }
  }

  lemma {:induction false} CopiedEntries(c: Context, m0: seq<TmEntry>, memory: seq<TmEntry>, pairs: seq<Pair>,
                                         e: TmEntry)
    requires Indexed(c, m0) && e in MemoryOf(c, m0, memory, pairs)
    ensures e in memory || FromMemory(m0, e)
    decreases |pairs|
  {
    if pairs != [] {
      var v := VerdictOf(c, m0, pairs[0]);
      var memory' := MemoryAfter(c, memory, pairs[0], v);
      CopiedEntries(c, m0, memory', pairs[1..], e);
      if v.Copied? {
        MemSetElements(memory, CopyFor(c.env, v.entry, pairs[0].key, pairs[0].text));
        ByTextHashDomain(m0, c.env.locale, c.env.textHash(pairs[0].text));
      }
    }
  }

  /** No text is made up: every entry of the memory a sync leaves was there before, or carries the text of an entry
    * with the same text hash, or is the translation of a pending item out of a reply to a prompt for its key. */
  lemma TextsHaveSources(env: Env, props: Props, disk: Disk, options: Options, authOptional: bool, budget: int,
                         access: Access, backend: Backend, now: string, e: TmEntry)
    requires Sound(env) && WellFormed(props)
    requires e in LoadMemory(SyncRun(env, props, disk, options, authOptional, budget, access, backend, now).0)
    ensures var access' := SyncRun(env, props, disk, options, authOptional, budget, access, backend, now).1;
      FromMemory(LoadMemory(disk), e)
      || FromBackend(env, Decided(env, Flatten(props), disk).pending, access', |access.sent|, backend, now, e)
  {
    hide Flatten, Sound, WellFormed, Decided, LoadMemory, PlaceholdersAgree, Fetch, FromBackend, Settled, FromMemory,
      ExpectedFiles, Differs;
    var disk' := SyncRun(env, props, disk, options, authOptional, budget, access, backend, now).0;
    EndingsAre(env, props, disk, options, authOptional, budget, access, backend, now);
    if disk' == disk {
      RememberedItself(LoadMemory(disk), e);
    } else {
      var values := Fetch(env, props, disk, budget, access, backend).1.values;
      FetchCompletes(env, props, disk, budget, access, backend);
      var files := ExpectedFiles(env, Flatten(props), disk,
          Settled(env, Flatten(props), disk, options.force, values, now), now);
      assert disk' == WriteFiles(disk, files);
      Reload(env, props, disk, options.force, values, now, disk');
      SettledEntries(env, props, disk, options.force, budget, access, backend, now, e);
    }
  }

  lemma RememberedItself(memory: seq<TmEntry>, e: TmEntry)
    requires e in memory
    ensures FromMemory(memory, e)
  {
  }

  lemma SettledEntries(env: Env, props: Props, disk: Disk, force: bool, budget: int, access: Access, backend: Backend,
                       now: string, e: TmEntry)
    requires Sound(env) && WellFormed(props) && Fetch(env, props, disk, budget, access, backend).1.Fetched?
    requires Completes(env, Flatten(props), disk, Fetch(env, props, disk, budget, access, backend).1.values)
    requires e in Settled(env, Flatten(props), disk, force, Fetch(env, props, disk, budget, access, backend).1.values,
        now).memory
    ensures FromMemory(LoadMemory(disk), e)
      || FromBackend(env, Decided(env, Flatten(props), disk).pending,
           Fetch(env, props, disk, budget, access, backend).0, |access.sent|, backend, now, e)
  {
    hide Flatten, Sound, WellFormed, LoadMemory, Fetch, Settled, FromReply, FromMemory, Decided, StoreAll, MemoryOf,
      NextOf, PendingOf, FlaggedOf, IsBlank, AllNonBlank;
    var source, c, m0 := Flatten(props), ContextOf(env, disk), LoadMemory(disk);
    var (after, fetched) := Fetch(env, props, disk, budget, access, backend);
    var d := Decided(env, source, disk);
    SourceKeysDistinct(props);
    DecidedIs(env, source, disk);
    if env.allowTranslate {
      SettledWithProvider(env, source, disk, force, fetched.values, now);
      StoredEntries(env, d, d.pending, fetched.values, now, e);
      if e !in d.memory {
        var i :| 0 <= i < |d.pending| && e == NewEntry(env, d.pending[i], fetched.values[i], now);
        FetchCompletes(env, props, disk, budget, access, backend);
        assert d.pending != [] && NeedsBackend(env, props, disk);
        assert FromReply(after, |access.sent|, d.pending, backend, d.pending[i].key, fetched.values[i]);
      }
    } else {
      SettledWithoutProvider(env, source, disk, force, fetched.values, now);
    }
    if e in d.memory {
      CopiedEntries(c, m0, m0, source, e);
      if e in m0 {
        RememberedItself(m0, e);
      }
    }
  }

  // ----- a second run -----

  lemma PlaceholdersStay(env: Env, source: seq<Pair>, a: map<string, string>, b: map<string, string>)
    requires PlaceholdersAgree(env, source, a)
    requires forall p | p in source :: p.key in a && p.key in b && b[p.key] == a[p.key]
    ensures PlaceholdersAgree(env, source, b)
  {
  }

  /** A run after a writing run that was done is done as well: it sends no prompt, changes nothing, and reports
    * unchanged with the same number of fallback keys, whatever its options, budget and time. */
  lemma SecondRunIsDone(env: Env, props: Props, disk: Disk, first: Options, second: Options, authOptional: bool,
                        budget: int, budget': int, access: Access, backend: Backend, now: string, later: string)
    requires Sound(env) && WellFormed(props) && first.write && !first.checkOnly
    requires env.allowTranslate || KeysTold(env, Flatten(props))
    ensures var (disk', access', end) := SyncRun(env, props, disk, first, authOptional, budget, access, backend, now);
      end.Done? ==>
        SyncRun(env, props, disk', second, authOptional, budget', access', backend, later)
          == (disk', access', Done(Outcome(false, end.outcome.fallbackCount, false)))
  {
    hide Flatten, Sound, WellFormed, KeysTold, Decided, PlaceholdersAgree, Settled, SyncResult, TranslateAll, Completes;
    var (disk', access', end) := SyncRun(env, props, disk, first, authOptional, budget, access, backend, now);
    if end.Done? {
      var values := Fetch(env, props, disk, budget, access, backend).1.values;
      EndingsAre(env, props, disk, first, authOptional, budget, access, backend, now);
      FetchCompletes(env, props, disk, budget, access, backend);
      SyncIsFixedPoint(env, props, disk, first, values, now, second, later);
      SecondTextsAgree(env, props, disk, first, values, now, disk', second.force, later);
    }
  }

  lemma SecondTextsAgree(env: Env, props: Props, disk: Disk, first: Options, values: seq<string>, now: string,
                         after: Disk, force: bool, later: string)
    requires Sound(env) && WellFormed(props) && Completes(env, Flatten(props), disk, values)
    requires first.write && !first.checkOnly && after == SyncResult(env, props, disk, first, values, now).0
    requires PlaceholdersAgree(env, Flatten(props), Settled(env, Flatten(props), disk, first.force, values, now).next)
    ensures Decided(env, Flatten(props), after).pending == []
    ensures PlaceholdersAgree(env, Flatten(props), Settled(env, Flatten(props), after, force, [], later).next)
  {
    hide Flatten, Sound, WellFormed, PlaceholdersAgree, ExpectedFiles, Differs;
    var source := Flatten(props);
    var l := Settled(env, source, disk, first.force, values, now);
    var e := ExpectedFiles(env, source, disk, l, now);
    WritesWhatItExpects(disk, first, env, e);
    SecondDecided(env, props, disk, first.force, values, now, after);
    var d := Decided(env, source, after);
    assert Settled(env, source, after, force, [], later) == d;
    PlaceholdersStay(env, source, l.next, d.next);
  }

  lemma WritesWhatItExpects(disk: Disk, options: Options, env: Env, e: Expected)
    requires options.write && !options.checkOnly
    ensures Conclude(env, disk, options, e).0 == WriteFiles(disk, e)
  {
  }
}
