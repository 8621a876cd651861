/** `syncLocale` as it runs: loops over mutable maps and lists, prompts through the shared client, and files
  * written at the end. It is proved to be `LocaleSyncSpec.SyncRun`. */
module LocaleSyncRun {
  import opened JsText
  import opened TranslationTree
  import opened TranslationBatches
  import opened BatchTranslation
  import opened LocaleSync
  import opened LocaleSyncSpec

  class LocaleFiles {
    var disk: Disk

    constructor (disk: Disk)
      ensures this.disk == disk
    {
      this.disk := disk;
    }

    method Write(e: Expected)
      modifies this
      ensures disk == WriteFiles(old(disk), e)
    {
      var memory := if e.memory == [] && disk.memory.Missing? then Missing else Rendered(e.memory);
      disk := Disk(Rendered(e.locale), Rendered(e.meta), Rendered(e.glossary), memory);
    }
  }

  /** The loop that decides each source key. */
  method DecideKeys(c: Context, memory: seq<TmEntry>, source: seq<Pair>) returns (l: Loop)
    ensures l == DecideAll(c, Loop(map[], memory, [], []), source)
  {
    var nextFlat: map<string, string>, tm, pending: seq<Item>, fallbackKeys: seq<string> := map[], memory, [], [];
    for i := 0 to |source|
      invariant DecideAll(c, Loop(nextFlat, tm, pending, fallbackKeys), source[i..])
             == DecideAll(c, Loop(map[], memory, [], []), source)
    {
      var Pair(key, text) := source[i];
      assert source[i..][0] == source[i] && source[i..][1..] == source[i + 1..];
      var textHash := c.env.textHash(text);
      var segmentCacheKey := CacheKeyOf(c.env, key, text);
      var cached := MemGet(tm, segmentCacheKey);
      var shouldRefreshFallback := key in c.previousFallback;
      if cached.Some? && !(c.env.allowTranslate && shouldRefreshFallback) {
        nextFlat := nextFlat[key := cached.value.translated];
        if shouldRefreshFallback {
          fallbackKeys := fallbackKeys + [key];
        }
      } else if textHash in c.byText && (shouldRefreshFallback || key !in c.existing) {
        nextFlat := nextFlat[key := c.byText[textHash].translated];
        tm := MemSet(tm, c.byText[textHash].(cacheKey := segmentCacheKey, segmentId := key,
          sourcePath := c.env.sourcePath));
      } else if key in c.existing && !(c.env.allowTranslate && shouldRefreshFallback) {
        nextFlat := nextFlat[key := c.existing[key]];
        if shouldRefreshFallback {
          fallbackKeys := fallbackKeys + [key];
        }
      } else {
        pending := pending + [Item(segmentCacheKey, key, text, textHash)];
      }
    }
    l := Loop(nextFlat, tm, pending, fallbackKeys);
  }

  lemma {:induction false} StoreAllAppend(env: Env, l: Loop, a: seq<Item>, va: seq<string>, b: seq<Item>,
                                          vb: seq<string>, now: string)
    requires |a| == |va| && |b| == |vb|
    ensures StoreAll(env, l, a + b, va + vb, now) == StoreAll(env, StoreAll(env, l, a, va, now), b, vb, now)
    decreases |a|
  {
    if a == [] {
      assert a + b == b && va + vb == vb;
    } else {
      assert (a + b)[1..] == a[1..] + b && (va + vb)[1..] == va[1..] + vb;
      var l' := if va[0] == "" then l
                else l.(next := l.next[a[0].key := va[0]], memory := MemSet(l.memory, NewEntry(env, a[0], va[0], now)));
      StoreAllAppend(env, l', a[1..], va[1..], b, vb, now);
    }
  }

  /** Stores the translations of one batch; an item without one is passed over. */
  method StoreBatch(env: Env, start: Loop, batch: seq<Item>, translated: map<string, string>, now: string)
    returns (l: Loop)
    ensures l == StoreAll(env, start, batch, ValuesOf(batch, translated), now)
  {
    hide StoreAll;
    l := start;
    ghost var values := ValuesOf(batch, translated);
    StoreAllNone(env, start, now);
    for i := 0 to |batch|
      invariant l == StoreAll(env, start, batch[..i], values[..i], now)
    {
      var item := batch[i];
      ghost var before := l;
      if item.key in translated && translated[item.key] != "" {
        var value := translated[item.key];
        l := l.(next := l.next[item.key := value], memory := MemSet(l.memory, NewEntry(env, item, value, now)));
      }
      StoreOne(env, before, item, values[i], now);
      StoreAllAppend(env, start, batch[..i], values[..i], [item], [values[i]], now);
      assert batch[..i + 1] == batch[..i] + [item] && values[..i + 1] == values[..i] + [values[i]];
    }
    assert batch[..|batch|] == batch && values[..|batch|] == values;
  }

  lemma StoreOne(env: Env, l: Loop, item: Item, value: string, now: string)
    ensures StoreAll(env, l, [item], [value], now) ==
      if value == "" then l
      else l.(next := l.next[item.key := value], memory := MemSet(l.memory, NewEntry(env, item, value, now)))
  {
    assert [item][1..] == [] && [value][1..] == [];
  }

  lemma {:induction false} ConcatAppend(a: seq<seq<Item>>, b: seq<Item>)
    ensures Concat(a + [b]) == Concat(a) + b
  {
    if a == [] {
      assert [b][1..] == [] && a + [b] == [b];
    } else {
      assert (a + [b])[1..] == a[1..] + [b];
      ConcatAppend(a[1..], b);
      assert a[0] + (Concat(a[1..]) + b) == (a[0] + Concat(a[1..])) + b;
    }
  }

  lemma StoreAllNone(env: Env, l: Loop, now: string)
    ensures StoreAll(env, l, [], [], now) == l
  {
  }

  lemma ConcatNone()
    ensures Concat([]) == []
  {
  }

  /** Batch after batch through one shared client, stored as they come, up to the first that fails. */
  method TranslatePending(env: Env, start: Loop, budget: int, client: ClientAccess, now: string)
    returns (l: Loop, error: Option<string>)
    modifies client
    ensures var (access, fetched) := TranslateAll(old(client.access), Greedy(start.pending, budget), client.backend);
      client.access == access &&
      match fetched
      case Fetched(values) =>
        error.None? && |values| == |start.pending| && l == StoreAll(env, start, start.pending, values, now)
      case FetchFailed(message) => error == Some(message)
  {
    hide StoreAll, Concat, Translate, TranslateAll, Greedy;
    var batches := BuildTranslationBatches(start.pending, budget);
    PartitionKeeps(start.pending, budget);
    StoreAllNone(env, start, now);
    ConcatNone();
    l, error := start, None;
    ghost var values: seq<string> := [];
    ghost var goal := TranslateAll(client.access, batches, client.backend);
    BeforeNone(goal.1);
    assert batches[0..] == batches;
    for b := 0 to |batches|
      invariant error.None? && |values| == |Concat(batches[..b])|
      invariant l == StoreAll(env, start, Concat(batches[..b]), values, now)
      invariant goal == (TranslateAll(client.access, batches[b..], client.backend).0,
                         Before(values, TranslateAll(client.access, batches[b..], client.backend).1))
    {
      var batch := batches[b];
      OneBatch(client.access, batches[b..], client.backend);
      assert batches[b..][0] == batch && batches[b..][1..] == batches[b + 1..];
      var result := client.TranslateBatch(batch);
      if result.Failed? {
        error := Some(result.message);
        return;
      }
      ghost var more := ValuesOf(batch, result.values);
      l := StoreBatch(env, l, batch, result.values, now);
      StoreAllAppend(env, start, Concat(batches[..b]), values, batch, more, now);
      ConcatAppend(batches[..b], batch);
      assert batches[..b + 1] == batches[..b] + [batch];
      BeforeTwice(values, more, TranslateAll(client.access, batches[b + 1..], client.backend).1);
      values := values + more;
    }
    assert batches[..|batches|] == batches;
    NoBatch(client.access, batches[|batches|..], client.backend);
    assert values + [] == values;
  }

  lemma PartitionKeeps(pending: seq<Item>, budget: int)
    ensures Concat(Greedy(pending, budget)) == pending
  {
    GreedyIsPartition(pending, budget);
  }

  lemma BeforeNone(fetched: Fetched)
    ensures Before([], fetched) == fetched
  {
    if fetched.Fetched? {
      assert [] + fetched.values == fetched.values;
    }
  }

  lemma BeforeTwice(a: seq<string>, b: seq<string>, fetched: Fetched)
    ensures Before(a, Before(b, fetched)) == Before(a + b, fetched)
  {
    if fetched.Fetched? {
      assert a + (b + fetched.values) == a + b + fetched.values;
    }
  }

  lemma OneBatch(access: Access, batches: seq<seq<Item>>, backend: Backend)
    requires batches != []
    ensures var (access', result) := Translate(access, batches[0], 0, NO_ERROR, backend);
      TranslateAll(access, batches, backend) ==
        if result.Failed? then (access', FetchFailed(result.message))
        else
          (TranslateAll(access', batches[1..], backend).0,
           Before(ValuesOf(batches[0], result.values), TranslateAll(access', batches[1..], backend).1))
  {
    hide Translate;
  }

  lemma NoBatch(access: Access, batches: seq<seq<Item>>, backend: Backend)
    requires batches == []
    ensures TranslateAll(access, batches, backend) == (access, Fetched([]))
  {
  }

  /** The loop over the pending items that got no translation. */
  method FillLeft(c: Context, force: bool, start: Loop, items: seq<Item>) returns (l: Loop)
    ensures l == FillPending(c, force, start, items)
  {
    l := start;
    for i := 0 to |items|
      invariant FillPending(c, force, l, items[i..]) == FillPending(c, force, start, items)
    {
      var key := items[i].key;
      assert items[i..][0] == items[i] && items[i..][1..] == items[i + 1..];
      if key !in l.next {
        if key in c.existing && !force {
          l := l.(next := l.next[key := c.existing[key]]);
          if key in c.previousFallback {
            l := l.(fallback := l.fallback + [key]);
          }
        } else {
          l := l.(next := l.next[key := items[i].text], fallback := l.fallback + [key]);
        }
      }
    }
  }

  /** The run: decide, translate, fill what is left, check the placeholders, compare and write. */
  method SyncLocale(env: Env, props: Props, files: LocaleFiles, options: Options, authOptional: bool, budget: int,
                    client: ClientAccess, now: string)
    returns (end: SyncEnd)
    modifies files, client
    ensures (files.disk, client.access, end) ==
      SyncRun(env, props, old(files.disk), options, authOptional, budget, old(client.access), client.backend, now)
  {
    hide Flatten, StoreAll, FillPending, Differs, PlaceholdersAgree, ExpectedFiles, TranslateAll, Greedy;
    var source := Flatten(props);
    var c := ContextOf(env, files.disk);
    var decided := DecideKeys(c, LoadMemory(files.disk), source);
    var l := decided;
    if env.allowTranslate && |decided.pending| > 0 {
      var error;
      l, error := TranslatePending(env, decided, budget, client, now);
      client.ResetClient();
      if error.Some? {
        if authOptional && IsProviderAuthError(error.value) {
          end := Skipped(if files.disk.meta.Missing? then 0 else |files.disk.meta.value.fallbackKeys|);
          return;
        }
        end := TranslationFailed(error.value);
        return;
      }
    } else if env.allowTranslate {
      StoreAllNone(env, decided, now);
    }
    l := FillLeft(c, options.force, l, decided.pending);
    if !PlaceholdersAgree(env, source, l.next) {
      end := PlaceholderMismatch;
      return;
    }
    var e := ExpectedFiles(env, source, files.disk, l, now);
    var changed := Differs(files.disk, e);
    var sameSource := !files.disk.meta.Missing? && files.disk.meta.value.sourceHash == env.sourceHash;
    if !changed || (sameSource && !options.force && !options.checkOnly && !options.write) {
      end := Done(Outcome(changed, |e.meta.fallbackKeys|, false));
      return;
    }
    if !options.checkOnly && options.write {
      files.Write(e);
    }
    end := Done(Outcome(changed, |e.meta.fallbackKeys|, !options.checkOnly && options.write && changed));
  }

  /** Two runs, one after the other: if a writing run is done, the next one is done too, sends no prompt, leaves the
    * files alone and reports no change. */
  method SyncTwice(env: Env, props: Props, files: LocaleFiles, first: Options, second: Options, authOptional: bool,
                   budget: int, client: ClientAccess, now: string, later: string)
    returns (end1: SyncEnd, end2: SyncEnd)
    requires Sound(env) && WellFormed(props) && first.write && !first.checkOnly
    requires env.allowTranslate || KeysTold(env, Flatten(props))
    modifies files, client
    ensures var (disk, access, end) :=
        SyncRun(env, props, old(files.disk), first, authOptional, budget, old(client.access), client.backend, now);
      && end1 == end
      && (end1.Done? ==>
            end2 == Done(Outcome(false, end1.outcome.fallbackCount, false)) && files.disk == disk
              && client.access == access)
  {
    hide Sound, WellFormed, KeysTold, SyncRun;
    SecondRunIsDone(env, props, files.disk, first, second, authOptional, budget, budget, client.access, client.backend,
                    now, later);
    end1 := SyncLocale(env, props, files, first, authOptional, budget, client, now);
    end2 := SyncLocale(env, props, files, second, authOptional, budget, client, later);
  }
}
