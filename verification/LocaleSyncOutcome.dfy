/** What a sync run does to the four files, in terms of what is in them before and after.
  *
  * A file counts by what loading it yields; a run by its options, the prompts it sent and their replies. */
module LocaleSyncOutcome {
  import opened JsText
  import opened Sorting
  import opened TranslationTree
  import opened TranslationBatches
  import opened BatchTranslation
  import opened BatchAttempts
  import opened LocaleSync
  import opened LocaleSyncSpec

  // ----- when files are touched -----

  /** A run that only checks, or was not asked to write, leaves every file alone; and a run that is done says that it
    * wrote exactly if some file is different afterwards. */
  lemma WritesOnlyWhenAsked(env: Env, props: Props, disk: Disk, options: Options, authOptional: bool, budget: int,
                            access: Access, backend: Backend, now: string)
    ensures var (disk', _, end) := SyncRun(env, props, disk, options, authOptional, budget, access, backend, now);
      && (options.checkOnly || !options.write || !end.Done? ==> disk' == disk)
      && (end.Done? ==> (end.outcome.wrote <==> disk' != disk))
  {
    hide Flatten, Fetch, Settled, PlaceholdersAgree, ExpectedFiles;
  }

  /** What a run reports as changed is what a run that may write would change; a check is a rehearsal. */
  lemma CheckRehearses(env: Env, props: Props, disk: Disk, options: Options, authOptional: bool, budget: int,
                       access: Access, backend: Backend, now: string)
    ensures
      var writing := options.(checkOnly := false, write := true);
      var (_, access', end) := SyncRun(env, props, disk, options, authOptional, budget, access, backend, now);
      var (disk'', access'', end') := SyncRun(env, props, disk, writing, authOptional, budget, access, backend, now);
      && access' == access''
      && if end.Done? then
           end'.Done? && end'.outcome.fallbackCount == end.outcome.fallbackCount
           && (end.outcome.changed <==> disk'' != disk) && end'.outcome.changed == end.outcome.changed
         else end' == end
  {
    hide Flatten, Fetch, Settled, PlaceholdersAgree, ExpectedFiles;
  }

  // ----- what a key had -----

  /** The entry is stored for this very key, text, provider, model and locale. */
  ghost predicate Owns(env: Env, p: Pair, e: TmEntry) {
    e.cacheKey == env.cacheHash(CacheInput(env.provider, env.model, env.locale, p.key, env.textHash(p.text)))
  }

  ghost predicate HasOwn(env: Env, memory: seq<TmEntry>, p: Pair) {
    exists e :: e in memory && Owns(env, p, e)
  }

  /** The entry translates the same text into the same locale, for whatever key. */
  ghost predicate SharesText(env: Env, p: Pair, e: TmEntry) {
    e.textHash == env.textHash(p.text) && e.textHash != "" && e.tgtLang == env.locale && !IsBlank(e.translated)
  }

  ghost predicate HasShared(env: Env, memory: seq<TmEntry>, p: Pair) {
    exists e :: e in memory && SharesText(env, p, e)
  }

  ghost predicate IsLastShared(env: Env, memory: seq<TmEntry>, p: Pair, e: TmEntry) {
    exists i :: 0 <= i < |memory| && memory[i] == e && SharesText(env, p, e)
      && forall j | i < j < |memory| :: !SharesText(env, p, memory[j])
  }

  /** The locale file has this text for the key. */
  ghost predicate Existing(disk: Disk, key: string, text: string) {
    !disk.locale.Missing? && Pair(key, text) in Flatten(disk.locale.value)
  }

  ghost predicate HasText(disk: Disk, key: string) {
    exists text :: Existing(disk, key, text)
  }

  /** The metadata lists the key as one that fell back to its source text. */
  ghost predicate IsFlagged(disk: Disk, key: string) {
    !disk.meta.Missing? && key in disk.meta.value.fallbackKeys
  }

  // ----- what a key gets -----

  /** The text of a key after a run, and the memory entry under its own cache key. A flagged key is translated again if
    * there is a provider, unless its text is known from another key. */
  ghost predicate Becomes(env: Env, disk: Disk, asked: seq<Item>, texts: seq<string>, now: string, p: Pair,
                          text: string, own: Option<TmEntry>)
    requires |asked| == |texts|
  {
    var memory := LoadMemory(disk);
    var flagged := IsFlagged(disk, p.key);
    var again := env.allowTranslate && flagged;
    var cacheKey := env.cacheHash(CacheInput(env.provider, env.model, env.locale, p.key, env.textHash(p.text)));
    if HasOwn(env, memory, p) && !again then
      exists e :: e in memory && Owns(env, p, e) && text == e.translated && own == Some(e)
    else if HasShared(env, memory, p) && (flagged || !HasText(disk, p.key)) then
      exists e :: IsLastShared(env, memory, p, e) && text == e.translated
        && own == Some(e.(cacheKey := cacheKey, segmentId := p.key, sourcePath := env.sourcePath))
    else if HasText(disk, p.key) && !again then Existing(disk, p.key, text) && own == None
    else if env.allowTranslate then
      && Item(cacheKey, p.key, p.text, env.textHash(p.text)) in asked
      && (exists j :: 0 <= j < |asked| && asked[j].key == p.key && texts[j] == text)
      && !IsBlank(text)
      && own == Some(TmEntry(cacheKey, env.model, env.provider, p.key, env.sourcePath, "en", p.text,
                             env.textHash(p.text), env.locale, text, now))
    else text == p.text && own == None
  }

  /** Whether a key is flagged after a run. */
  ghost predicate FallsBack(env: Env, disk: Disk, p: Pair) {
    var memory := LoadMemory(disk);
    !env.allowTranslate &&
    if IsFlagged(disk, p.key) then HasOwn(env, memory, p) || !HasShared(env, memory, p)
    else !HasOwn(env, memory, p) && !HasShared(env, memory, p) && !HasText(disk, p.key)
  }

  // ----- the files say the same as the run's maps -----

  lemma OwnIs(env: Env, memory: seq<TmEntry>, p: Pair)
    ensures var own := MemGet(memory, CacheKeyOf(env, p.key, p.text));
      && (own.Some? <==> HasOwn(env, memory, p))
      && (own.Some? ==> own.value in memory && Owns(env, p, own.value))
  {
    MemGetElement(memory, CacheKeyOf(env, p.key, p.text));
  }

  lemma {:induction false} SharedIs(env: Env, memory: seq<TmEntry>, p: Pair)
    ensures var byText := ByTextHash(memory, env.locale);
      && (env.textHash(p.text) in byText <==> HasShared(env, memory, p))
      && (env.textHash(p.text) in byText ==> IsLastShared(env, memory, p, byText[env.textHash(p.text)]))
  {
    hide IsBlank, HasShared, IsLastShared, SharesText;
    SharedSoFar(env, memory, p);
    if memory != [] {
      SharedIs(env, memory[..|memory| - 1], p);
      SharesIsReusable(env, p, memory[|memory| - 1]);
    }
  }

  lemma SharesIsReusable(env: Env, p: Pair, e: TmEntry)
    ensures SharesText(env, p, e) <==> Reusable(e, env.locale) && e.textHash == env.textHash(p.text)
  {
    hide IsBlank;
  }

  lemma SharedSoFar(env: Env, memory: seq<TmEntry>, p: Pair)
    ensures memory == [] ==> !HasShared(env, memory, p)
    ensures memory != [] ==>
      var front, last := memory[..|memory| - 1], memory[|memory| - 1];
      && (HasShared(env, memory, p) <==> HasShared(env, front, p) || SharesText(env, p, last))
      && (SharesText(env, p, last) ==> IsLastShared(env, memory, p, last))
      && (!SharesText(env, p, last) ==> forall e | IsLastShared(env, front, p, e) :: IsLastShared(env, memory, p, e))
  {
    hide SharesText;
    if memory != [] {
      var front, last := memory[..|memory| - 1], memory[|memory| - 1];
      assert memory == front + [last];
      forall e | IsLastShared(env, front, p, e) && !SharesText(env, p, last) ensures IsLastShared(env, memory, p, e) {
        var i :| 0 <= i < |front| && front[i] == e && SharesText(env, p, e)
          && forall j | i < j < |front| :: !SharesText(env, p, front[j]);
        assert memory[i] == e;
      }
    }
  }

  lemma {:induction false} ToMapIs(pairs: seq<Pair>, key: string)
    ensures key in ToMap(pairs) <==> exists text :: Pair(key, text) in pairs
    ensures key in ToMap(pairs) ==> Pair(key, ToMap(pairs)[key]) in pairs
  {
    if pairs != [] {
      var front, last := pairs[..|pairs| - 1], pairs[|pairs| - 1];
      ToMapIs(front, key);
      assert pairs == front + [last];
      if last.key == key {
        assert Pair(key, last.text) in pairs;
      }
    }
  }

  lemma TextIs(disk: Disk, key: string)
    ensures var existing := ToMap(Flatten(LoadLocale(disk)));
      && (key in existing <==> HasText(disk, key))
      && (key in existing ==> Existing(disk, key, existing[key]))
  {
    ToMapIs(Flatten(LoadLocale(disk)), key);
    if disk.locale.Missing? {
      assert Flatten(Nil) == [];
    } else if key in ToMap(Flatten(LoadLocale(disk))) {
      assert Existing(disk, key, ToMap(Flatten(LoadLocale(disk)))[key]);
    }
  }

  /** The verdict on a key, in terms of the files. */
  lemma VerdictIs(env: Env, disk: Disk, p: Pair)
    ensures var c, memory := ContextOf(env, disk), LoadMemory(disk);
      var again := env.allowTranslate && IsFlagged(disk, p.key);
      match VerdictOf(c, memory, p)
      case Cached(e) => HasOwn(env, memory, p) && !again && e in memory && Owns(env, p, e)
                        && MemGet(memory, CacheKeyOf(env, p.key, p.text)) == Some(e)
      case Copied(e) =>
        !(HasOwn(env, memory, p) && !again) && HasShared(env, memory, p)
        && (IsFlagged(disk, p.key) || !HasText(disk, p.key)) && IsLastShared(env, memory, p, e)
      case Kept(text) =>
        !HasOwn(env, memory, p) && !(HasShared(env, memory, p) && (IsFlagged(disk, p.key) || !HasText(disk, p.key)))
        && HasText(disk, p.key) && !again && Existing(disk, p.key, text)
        && MemGet(memory, CacheKeyOf(env, p.key, p.text)) == None
      case Untranslated =>
        !(HasOwn(env, memory, p) && !again)
        && !(HasShared(env, memory, p) && (IsFlagged(disk, p.key) || !HasText(disk, p.key)))
        && !(HasText(disk, p.key) && !again)
        && (!env.allowTranslate ==> MemGet(memory, CacheKeyOf(env, p.key, p.text)) == None)
  {
    hide LoadMemory, Flatten, IsLastShared, HasShared, HasOwn, HasText, Existing, ByTextHash, Owns;
    OwnIs(env, LoadMemory(disk), p);
    SharedIs(env, LoadMemory(disk), p);
    TextIs(disk, p.key);
  }

  // ----- every key of the source -----

  /** Every key becomes what it should; `values` are the translations of the pending items. */
  lemma KeyBecomes(env: Env, source: seq<Pair>, disk: Disk, force: bool, values: seq<string>, now: string, p: Pair)
    requires Sound(env) && DistinctKeys(source) && Completes(env, source, disk, values) && p in source
    ensures var l := Settled(env, source, disk, force, values, now);
      var asked, texts := if env.allowTranslate then Decided(env, source, disk).pending else [],
                          if env.allowTranslate then values else [];
      p.key in l.next
      && Becomes(env, disk, asked, texts, now, p, l.next[p.key], MemGet(l.memory, CacheKeyOf(env, p.key, p.text)))
  {
    hide Sound, LoadMemory, Settled, Decided, NextOf, MemoryOf, PendingOf, FlaggedOf, IsBlank, ContextOf, IsLastShared,
      HasShared, HasOwn, HasText, Existing, IsFlagged, Owns;
    var c, m0, d := ContextOf(env, disk), LoadMemory(disk), Decided(env, source, disk);
    var l := Settled(env, source, disk, force, values, now);
    ContextHas(env, disk);
    DecidedIs(env, source, disk);
    VerdictIs(env, disk, p);
    NextOfAt(c, m0, map[], source, p);
    SoundIsInjective(env);
    MemoryOfGets(c, m0, m0, source, p);
    if VerdictOf(c, m0, p).Untranslated? {
      PendingOfAt(c, m0, source);
      var i :| 0 <= i < |d.pending| && d.pending[i] == ItemOf(env, p);
      if env.allowTranslate {
        SettledWithProvider(env, source, disk, force, values, now);
        assert values[i] in values;
      } else {
        SettledWithoutProvider(env, source, disk, force, values, now);
      }
    } else {
      SettledKeeps(env, source, disk, force, values, now, p);
    }
  }

  lemma SoundIsInjective(env: Env)
    requires Sound(env)
    ensures Injective(env.cacheHash)
  {
  }

  lemma ContextHas(env: Env, disk: Disk)
    ensures ContextOf(env, disk).env == env
  {
  }

  lemma FlagIs(env: Env, source: seq<Pair>, disk: Disk, force: bool, values: seq<string>, now: string, key: string)
    requires Sound(env) && DistinctKeys(source) && Completes(env, source, disk, values)
    ensures key in Settled(env, source, disk, force, values, now).fallback <==>
      exists p :: p in source && p.key == key && FallsBack(env, disk, p)
  {
    hide Sound, LoadMemory, Settled, Decided, IsBlank, IsLastShared, HasShared, HasOwn, HasText, Existing, Owns,
      VerdictOf, Completes;
    FlaggedAfter(env, source, disk, force, values, now, key);
    forall p | p in source
      ensures FallsBack(env, disk, p) <==>
        (!env.allowTranslate &&
         (StaysFlagged(ContextOf(env, disk), LoadMemory(disk), p)
          || VerdictOf(ContextOf(env, disk), LoadMemory(disk), p).Untranslated?))
    {
      VerdictIs(env, disk, p);
      assert p.key in ContextOf(env, disk).previousFallback <==> IsFlagged(disk, p.key);
    }
  }

  /** Entries of other texts, keys, models and locales are left alone. */
  lemma OthersStay(env: Env, source: seq<Pair>, disk: Disk, force: bool, values: seq<string>, now: string,
                   cacheKey: string)
    requires Sound(env) && DistinctKeys(source) && Completes(env, source, disk, values)
    requires forall p | p in source :: CacheKeyOf(env, p.key, p.text) != cacheKey
    ensures MemGet(Settled(env, source, disk, force, values, now).memory, cacheKey)
         == MemGet(LoadMemory(disk), cacheKey)
  {
    hide Sound, LoadMemory, Settled, Decided, ContextOf, NextOf, PendingOf, FlaggedOf, IsBlank, StoreAll;
    var c, m0, d := ContextOf(env, disk), LoadMemory(disk), Decided(env, source, disk);
    ContextHas(env, disk);
    DecidedIs(env, source, disk);
    MemoryOfUntouched(c, m0, m0, source, cacheKey);
    if env.allowTranslate {
      PendingDistinct(env, source, disk);
      SettledWithProvider(env, source, disk, force, values, now);
      forall i | 0 <= i < |d.pending| ensures d.pending[i].cacheKey != cacheKey {
        assert d.pending[i] in d.pending;
      }
      StoreAllElsewhere(env, d, d.pending, values, now);
    } else {
      SettledWithoutProvider(env, source, disk, force, values, now);
    }
  }

  // ----- the four files -----

  /** The locale file holds the source keys in source order, each with the text it becomes, and the memory the entries
    * the keys become; a text has the placeholders of its source. */
  ghost predicate TextsAre(env: Env, source: seq<Pair>, disk: Disk, asked: seq<Item>, texts: seq<string>, now: string,
                           after: Disk)
    requires |asked| == |texts|
  {
    && after.locale.Rendered?
    && var flat, memory := Flatten(after.locale.value), LoadMemory(after);
    && |flat| == |source|
    && forall i | 0 <= i < |source| ::
         && flat[i].key == source[i].key
         && Becomes(env, disk, asked, texts, now, source[i], flat[i].text,
                    MemGet(memory, CacheKeyOf(env, source[i].key, source[i].text)))
  }

  /** The memory file is sorted, with one entry per cache key, and keeps the entries of everything else. */
  ghost predicate MemoryIs(env: Env, source: seq<Pair>, disk: Disk, after: Disk) {
    && (after.memory.Missing? <==> disk.memory.Missing? && LoadMemory(after) == [])
    && (!after.memory.Missing? ==> after.memory == Rendered(LoadMemory(after)))
    && var memory := LoadMemory(after);
    && (forall i, j | 0 <= i < j < |memory| ::
          memory[i].cacheKey != memory[j].cacheKey && !env.collate(memory[j].cacheKey, memory[i].cacheKey))
    && forall e | (forall p | p in source :: !Owns(env, p, e)) :: e in memory <==> e in LoadMemory(disk)
  }

  /** In order, and nothing twice. */
  ghost predicate SortedOnce<T>(s: seq<T>, less: (T, T) -> bool) {
    forall i, j | 0 <= i < j < |s| :: s[i] != s[j] && !less(s[j], s[i])
  }

  /** The metadata describe the result. They keep their date exactly if nothing else in them has changed. */
  ghost predicate MetaIs(env: Env, source: seq<Pair>, disk: Disk, now: string, after: Disk) {
    && after.meta.Rendered?
    && var meta := after.meta.value;
    && (forall k :: k in meta.fallbackKeys <==> exists p :: p in source && p.key == k && FallsBack(env, disk, p))
    && SortedOnce(meta.fallbackKeys, env.collate)
    && meta.locale == env.locale && meta.sourceHash == env.sourceHash && meta.workflow == 1
    && meta.totalKeys == |source| && meta.translatedKeys == |source| - |meta.fallbackKeys|
    && (env.allowTranslate ==> meta.provider == env.provider && meta.model == env.model)
    && (!env.allowTranslate && disk.meta.Missing? ==> meta.provider == "" && meta.model == "")
    && (!env.allowTranslate && !disk.meta.Missing? ==>
          meta.provider == disk.meta.value.provider && meta.model == disk.meta.value.model)
    && meta.generatedAt ==
         if !disk.meta.Missing? && disk.meta.value == meta.(generatedAt := disk.meta.value.generatedAt)
         then disk.meta.value.generatedAt else now
  }

  /** The glossary stays, unless there is none: then it is a list of names that are not translated. */
  ghost predicate GlossaryIs(disk: Disk, after: Disk) {
    var names := ["OpenClaw", "Gateway", "Control UI", "Skills", "Tailscale", "WhatsApp", "Telegram", "Discord",
                  "Signal", "iMessage"];
    && after.glossary.Rendered?
    && if disk.glossary.Missing? || disk.glossary.value == [] then
         |after.glossary.value| == 10 && forall i | 0 <= i < 10 ::
           after.glossary.value[i] == GlossaryEntry(names[i], names[i])
       else after.glossary.value == disk.glossary.value
  }

  lemma NoTwice<T(!new)>(s: seq<T>, less: (T, T) -> bool)
    requires WeakOrder(less)
    ensures SortedOnce(Sort(Dedupe(s), less), less)
  {
    hide Dedupe, Sort, WeakOrder;
    DedupeElements(s);
    var rel := (a: T, b: T) => a != b;
    SortPairwise(Dedupe(s), less, rel);
    SortSorts(Dedupe(s), less);
    var r := Sort(Dedupe(s), less);
    forall i, j | 0 <= i < j < |r| ensures r[i] != r[j] {
      assert rel(r[i], r[j]);
    }
  }

  lemma MetaAfter(env: Env, props: Props, disk: Disk, force: bool, values: seq<string>, now: string, after: Disk)
    requires Sound(env) && WellFormed(props) && AfterSync(env, props, disk, force, values, now, after)
    ensures MetaIs(env, Flatten(props), disk, now, after)
  {
    hide Flatten, WellFormed, Settled, Decided, Sort, Dedupe, FallsBack, WeakOrder, SortedOnce;
    var source := Flatten(props);
    var l := Settled(env, source, disk, force, values, now);
    SourceKeysDistinct(props);
    assert after.meta == Rendered(NextMeta(env, |source|, disk.meta, l.fallback, now));
    NoTwice(l.fallback, env.collate);
    DedupedSorted(l.fallback, env.collate);
    var meta := after.meta.value;
    forall k ensures k in meta.fallbackKeys <==> exists p :: p in source && p.key == k && FallsBack(env, disk, p) {
      FlagIs(env, source, disk, force, values, now, k);
    }
    DateKept(env, |source|, disk.meta, l.fallback, now);
    assert meta.fallbackKeys == Sort(Dedupe(l.fallback), env.collate);
  }

  lemma DateKept(env: Env, total: nat, previous: File<Meta>, fallback: seq<string>, now: string)
    ensures var meta := NextMeta(env, total, previous, fallback, now);
      meta.generatedAt ==
        if !previous.Missing? && previous.value == meta.(generatedAt := previous.value.generatedAt)
        then previous.value.generatedAt else now
  {
    hide Sort, Dedupe;
  }

  lemma MemoryAfter(env: Env, props: Props, disk: Disk, force: bool, values: seq<string>, now: string, after: Disk)
    requires Sound(env) && WellFormed(props) && AfterSync(env, props, disk, force, values, now, after)
    ensures MemoryIs(env, Flatten(props), disk, after)
  {
    hide Flatten, WellFormed, Settled, Decided, Sort, WeakOrder, MemLoad, IsBlank, NextMeta, GoodMemory;
    var source := Flatten(props);
    var l := Settled(env, source, disk, force, values, now);
    Reload(env, props, disk, force, values, now, after);
    var memory := LoadMemory(after);
    CacheKeysOrder(env.collate);
    SortSorts(l.memory, ByCacheKey(env.collate));
    RenderKeeps(l.memory, env.collate);
    assert GoodMemory(memory);
    KeysDiffer(memory);
    forall i, j | 0 <= i < j < |memory| ensures !env.collate(memory[j].cacheKey, memory[i].cacheKey) {
      assert !ByCacheKey(env.collate)(memory[j], memory[i]);
    }
    forall e | forall p | p in source :: !Owns(env, p, e) ensures e in memory <==> e in LoadMemory(disk) {
      OthersStay(env, source, disk, force, values, now, e.cacheKey);
      LoadedIsGood(disk);
      EntryByKey(l.memory, e);
      EntryByKey(LoadMemory(disk), e);
    }
  }

  lemma KeysDiffer(memory: seq<TmEntry>)
    requires GoodMemory(memory)
    ensures forall i, j | 0 <= i < j < |memory| :: memory[i].cacheKey != memory[j].cacheKey
  {
  }

  lemma LoadedIsGood(disk: Disk)
    ensures GoodMemory(LoadMemory(disk))
  {
    if !disk.memory.Missing? {
      MemLoadGood(disk.memory.value);
    }
  }

  lemma {:induction false} EntryByKey(memory: seq<TmEntry>, e: TmEntry)
    requires GoodMemory(memory)
    ensures e in memory <==> MemGet(memory, e.cacheKey) == Some(e)
  {
    MemGetElement(memory, e.cacheKey);
    if e in memory {
      var found := MemGet(memory, e.cacheKey).value;
      var i :| 0 <= i < |memory| && memory[i] == e;
      var j :| 0 <= j < |memory| && memory[j] == found;
    }
  }

  lemma TextsAfter(env: Env, props: Props, disk: Disk, force: bool, values: seq<string>, now: string, after: Disk)
    requires Sound(env) && WellFormed(props) && AfterSync(env, props, disk, force, values, now, after)
    ensures TextsAre(env, Flatten(props), disk,
                     if env.allowTranslate then Decided(env, Flatten(props), disk).pending else [],
                     if env.allowTranslate then values else [], now, after)
  {
    hide Flatten, WellFormed, Settled, Decided, Sort, WeakOrder, MemLoad, IsBlank, NextMeta, Becomes, MemRender;
    var source := Flatten(props);
    var l := Settled(env, source, disk, force, values, now);
    Reload(env, props, disk, force, values, now, after);
    FlattenUndoesRebuild(props, l.next);
    assert Flatten(after.locale.value) == Retext(source, l.next);
    forall i | 0 <= i < |source|
      ensures source[i].key in l.next && Becomes(env, disk,
                      if env.allowTranslate then Decided(env, source, disk).pending else [],
                      if env.allowTranslate then values else [], now, source[i], l.next[source[i].key],
                      MemGet(LoadMemory(after), CacheKeyOf(env, source[i].key, source[i].text)))
    {
      KeyBecomes(env, source, disk, force, values, now, source[i]);
      SameEntriesSameGets(l.memory, LoadMemory(after), CacheKeyOf(env, source[i].key, source[i].text));
    }
  }

  // ----- a run -----

  /** What a run that is done and may write leaves in the four files, whatever was in them. Nothing in this depends on
    * how the run goes about it. */
  lemma RunLeaves(env: Env, props: Props, disk: Disk, options: Options, authOptional: bool, budget: int,
                  access: Access, backend: Backend, now: string)
    requires Sound(env) && WellFormed(props) && options.write && !options.checkOnly
    ensures var (after, access', end) := SyncRun(env, props, disk, options, authOptional, budget, access, backend, now);
      && access.sent <= access'.sent
      && var asked, texts := Usable(Since(access, access'), backend), UsableTexts(Since(access, access'), backend);
      && (end.Done? ==>
            && TextsAre(env, Flatten(props), disk, asked, texts, now, after)
            && MemoryIs(env, Flatten(props), disk, after)
            && MetaIs(env, Flatten(props), disk, now, after)
            && GlossaryIs(disk, after)
            && end.outcome.fallbackCount == |after.meta.value.fallbackKeys|
            && (end.outcome.changed <==> after != disk))
  {
    hide Flatten, WellFormed, Sound, Settled, Decided, PlaceholdersAgree, Usable, UsableTexts, TextsAre, MemoryIs,
      MetaIs, ExpectedFiles, Differs, Completes, Since;
    var (after, access', end) := SyncRun(env, props, disk, options, authOptional, budget, access, backend, now);
    FetchCovers(env, props, disk, budget, access, backend);
    if end.Done? {
      var values := Fetch(env, props, disk, budget, access, backend).1.values;
      FetchCompletes(env, props, disk, budget, access, backend);
      FetchedTexts(env, props, disk, budget, access, backend);
      DoneIsAfterSync(env, props, disk, options, values, now);
      TextsAfter(env, props, disk, options.force, values, now, after);
      MemoryAfter(env, props, disk, options.force, values, now, after);
      MetaAfter(env, props, disk, options.force, values, now, after);
      if !env.allowTranslate {
        UnaskedIsEmpty(env, props, disk, budget, access, backend);
      }
    }
  }

  lemma UnaskedIsEmpty(env: Env, props: Props, disk: Disk, budget: int, access: Access, backend: Backend)
    requires !env.allowTranslate
    ensures var after := Fetch(env, props, disk, budget, access, backend).0;
      && access.sent <= after.sent
      && Usable(Since(access, after), backend) == [] && UsableTexts(Since(access, after), backend) == []
  {
    NothingSent(access, backend);
  }

  lemma DoneIsAfterSync(env: Env, props: Props, disk: Disk, options: Options, values: seq<string>, now: string)
    requires Completes(env, Flatten(props), disk, values) && options.write && !options.checkOnly
    ensures var (after, outcome) := SyncResult(env, props, disk, options, values, now);
      && AfterSync(env, props, disk, options.force, values, now, after) && GlossaryIs(disk, after)
      && after.meta.Rendered? && outcome.fallbackCount == |after.meta.value.fallbackKeys|
      && (outcome.changed <==> after != disk)
  {
    hide Flatten, Settled, Decided, NextMeta, MemRender, Rebuild;
    var source := Flatten(props);
    var e := ExpectedFiles(env, source, disk, Settled(env, source, disk, options.force, values, now), now);
    WritesWhatItExpects(disk, options, env, e);
  }

  // ----- how placeholders decide -----

  /** The text is what the key becomes in this run. */
  ghost predicate Gets(env: Env, disk: Disk, sent: seq<Sent>, backend: Backend, now: string, p: Pair, text: string) {
    exists own :: Becomes(env, disk, Usable(sent, backend), UsableTexts(sent, backend), now, p, text, own)
  }

  /** A run that gets all its translations is done if every text has the placeholders of its source, and is refused
    * if one has not. */
  lemma PlaceholdersDecide(env: Env, props: Props, disk: Disk, options: Options, authOptional: bool, budget: int,
                           access: Access, backend: Backend, now: string)
    requires Sound(env) && WellFormed(props)
    ensures var (_, access', end) := SyncRun(env, props, disk, options, authOptional, budget, access, backend, now);
      && access.sent <= access'.sent
      && var sent := Since(access, access');
      && (end.Done? ==> forall p | p in Flatten(props) :: exists text ::
            Gets(env, disk, sent, backend, now, p, text) && env.placeholders(text) == env.placeholders(p.text))
      && (end.PlaceholderMismatch? ==> exists p, text ::
            p in Flatten(props) && Gets(env, disk, sent, backend, now, p, text)
            && env.placeholders(text) != env.placeholders(p.text))
  {
    hide Flatten, WellFormed, Sound, Settled, Decided, Usable, UsableTexts, Becomes, Conclude, ExpectedFiles, Completes,
      Since;
    var source := Flatten(props);
    var (_, access', end) := SyncRun(env, props, disk, options, authOptional, budget, access, backend, now);
    FetchCovers(env, props, disk, budget, access, backend);
    if end.Done? || end.PlaceholderMismatch? {
      var values := Fetch(env, props, disk, budget, access, backend).1.values;
      FetchCompletes(env, props, disk, budget, access, backend);
      FetchedTexts(env, props, disk, budget, access, backend);
      SourceKeysDistinct(props);
      if !env.allowTranslate {
        UnaskedIsEmpty(env, props, disk, budget, access, backend);
      }
      var next := Settled(env, source, disk, options.force, values, now).next;
      forall p | p in source
        ensures p.key in next && Gets(env, disk, Since(access, access'), backend, now, p, next[p.key])
      {
        KeyBecomes(env, source, disk, options.force, values, now, p);
      }
    }
  }

  // ----- what a run asks for -----

  /** Nothing in the files gives the key a text that will do. */
  ghost predicate IsUnknown(env: Env, disk: Disk, p: Pair) {
    var memory := LoadMemory(disk);
    var flagged := IsFlagged(disk, p.key);
    && env.allowTranslate && (HasOwn(env, memory, p) ==> flagged)
    && (HasShared(env, memory, p) ==> !flagged && HasText(disk, p.key))
    && (HasText(disk, p.key) ==> flagged)
  }

  ghost predicate AsksFor(env: Env, p: Pair, item: Item) {
    item == Item(env.cacheHash(CacheInput(env.provider, env.model, env.locale, p.key, env.textHash(p.text))),
                 p.key, p.text, env.textHash(p.text))
  }

  lemma {:induction false} TranslateAllAsks(access: Access, batches: seq<seq<Item>>, backend: Backend, k: nat)
    requires forall b | b in batches :: b != []
    ensures var after := TranslateAll(access, batches, backend).0;
      && access.asked <= after.asked
      && (|access.asked| <= k < |after.asked| ==>
            after.asked[k].items != [] && exists b :: b in batches && IsPart(after.asked[k].items, b))
    decreases |batches|
  {
    hide Translate, IsPart;
    if batches != [] {
      assert batches[0] in batches;
      var (middle, result) := Translate(access, batches[0], 0, NO_ERROR, backend);
      TranslateAsksParts(access, batches[0], 0, NO_ERROR, backend);
      if result.Translated? {
        assert forall b | b in batches[1..] :: b in batches;
        TranslateAllAsks(middle, batches[1..], backend, k);
        var after := TranslateAll(middle, batches[1..], backend).0;
        assert k < |middle.asked| ==> after.asked[k] == middle.asked[k];
      }
    }
  }

  ghost predicate FitsOnePrompt(items: seq<Item>, budget: int) {
    1 <= |items| <= 20 && (|items| >= 2 ==> 2 + 10 * |items| + Letters(items) <= budget)
  }

  lemma PartFits(x: seq<Item>, batch: seq<Item>, budget: int)
    requires IsPart(x, batch) && x != [] && FitsOnePrompt(batch, budget)
    ensures FitsOnePrompt(x, budget) && forall item | item in x :: item in batch
  {
    var a, b :| batch == a + x + b;
    LettersConcat(a + x, b);
    LettersConcat(a, x);
  }

  lemma {:induction false} InConcat(batches: seq<seq<Item>>, b: seq<Item>)
    requires b in batches
    ensures forall item | item in b :: item in Concat(batches)
  {
    if b != batches[0] {
      assert b in batches[1..];
      InConcat(batches[1..], b);
    }
  }

  /** Every attempt of a run fits one prompt and asks only for keys that are unknown. */
  lemma RunAsks(env: Env, props: Props, disk: Disk, options: Options, authOptional: bool, budget: int, access: Access,
                backend: Backend, now: string, k: nat)
    requires Sound(env) && WellFormed(props)
    ensures var access' := SyncRun(env, props, disk, options, authOptional, budget, access, backend, now).1;
      && access.asked <= access'.asked
      && (|access.asked| <= k < |access'.asked| ==>
            && FitsOnePrompt(access'.asked[k].items, budget)
            && forall item | item in access'.asked[k].items ::
                 exists p :: p in Flatten(props) && IsUnknown(env, disk, p) && AsksFor(env, p, item))
  {
    hide Flatten, WellFormed, Sound, Settled, Decided, PlaceholdersAgree, SyncResult, Greedy, Concat, TranslateAll,
      IsUnknown, IsPart, FitsOnePrompt, VerdictOf;
    var access' := SyncRun(env, props, disk, options, authOptional, budget, access, backend, now).1;
    if NeedsBackend(env, props, disk) {
      var pending := Decided(env, Flatten(props), disk).pending;
      var batches := Greedy(pending, budget);
      GreedyIsPartition(pending, budget);
      TranslateAllAsks(access, batches, backend, k);
      if |access.asked| <= k < |access'.asked| {
        var b :| b in batches && IsPart(access'.asked[k].items, b);
        BatchFits(pending, budget, b);
        PartFits(access'.asked[k].items, b, budget);
        InConcat(batches, b);
        PendingIsUnknown(env, props, disk);
      }
    }
  }

  lemma BatchFits(items: seq<Item>, budget: int, b: seq<Item>)
    requires b in Greedy(items, budget)
    ensures FitsOnePrompt(b, budget)
  {
    var k :| 0 <= k < |Greedy(items, budget)| && Greedy(items, budget)[k] == b;
    BatchesAreFull(items, budget, k);
  }

  lemma PendingIsUnknown(env: Env, props: Props, disk: Disk)
    requires Sound(env) && WellFormed(props) && env.allowTranslate
    ensures forall item | item in Decided(env, Flatten(props), disk).pending ::
      exists p :: p in Flatten(props) && IsUnknown(env, disk, p) && item == ItemOf(env, p)
  {
    hide Flatten, WellFormed, Sound, Decided, LoadMemory, HasOwn, HasShared, HasText, IsFlagged, IsLastShared, Existing;
    SourceKeysDistinct(props);
    PendingDistinct(env, Flatten(props), disk);
    forall item | item in Decided(env, Flatten(props), disk).pending
      ensures exists p :: p in Flatten(props) && IsUnknown(env, disk, p) && item == ItemOf(env, p)
    {
      var p :| p in Flatten(props) && item == ItemOf(env, p)
        && VerdictOf(ContextOf(env, disk), LoadMemory(disk), p).Untranslated?;
      VerdictIs(env, disk, p);
    }
  }

  // ----- a translation serves other keys -----

  /** A text translated in one run is not translated again for another key: a later run over any source finds it for
    * every key that has the same text and no text of its own yet. */
  lemma TranslationServesOthers(env: Env, props: Props, disk: Disk, options: Options, authOptional: bool, budget: int,
                                access: Access, backend: Backend, now: string, p: Pair, later: Props, q: Pair)
    requires Sound(env) && WellFormed(props) && WellFormed(later) && options.write && !options.checkOnly
    requires SyncRun(env, props, disk, options, authOptional, budget, access, backend, now).2.Done?
    requires p in Flatten(props) && env.allowTranslate && ItemOf(env, p) in Decided(env, Flatten(props), disk).pending
    requires q in Flatten(later) && env.textHash(q.text) == env.textHash(p.text) != ""
    requires !HasText(SyncRun(env, props, disk, options, authOptional, budget, access, backend, now).0, q.key)
    ensures var after := SyncRun(env, props, disk, options, authOptional, budget, access, backend, now).0;
      forall item | item in Decided(env, Flatten(later), after).pending :: item.key != q.key
  {
    hide Flatten, WellFormed, Sound, Settled, Decided, PlaceholdersAgree, TextsAre, Becomes, HasText, HasShared, HasOwn,
      SyncResult, Completes, LoadMemory, IsBlank, ExpectedFiles, VerdictOf;
    var after := SyncRun(env, props, disk, options, authOptional, budget, access, backend, now).0;
    var values := Fetch(env, props, disk, budget, access, backend).1.values;
    FetchCompletes(env, props, disk, budget, access, backend);
    DoneIsAfterSync(env, props, disk, options, values, now);
    StoredForOthers(env, props, disk, options.force, values, now, after, p, q);
    SourceKeysDistinct(later);
    PendingDistinct(env, Flatten(later), after);
    forall item | item in Decided(env, Flatten(later), after).pending ensures item.key != q.key {
      var r :| r in Flatten(later) && item == ItemOf(env, r)
        && VerdictOf(ContextOf(env, after), LoadMemory(after), r).Untranslated?;
      VerdictIs(env, after, r);
      if r.key == q.key {
        PairOfKey(Flatten(later), r, q);
      }
    }
  }

  lemma StoredForOthers(env: Env, props: Props, disk: Disk, force: bool, values: seq<string>, now: string, after: Disk,
                        p: Pair, q: Pair)
    requires Sound(env) && WellFormed(props) && AfterSync(env, props, disk, force, values, now, after)
    requires p in Flatten(props) && env.allowTranslate && ItemOf(env, p) in Decided(env, Flatten(props), disk).pending
    requires env.textHash(q.text) == env.textHash(p.text) != ""
    ensures HasShared(env, LoadMemory(after), q)
  {
    hide Flatten, WellFormed, Sound, Settled, Decided, LoadMemory, IsBlank, StoreAll;
    var source := Flatten(props);
    var d, l := Decided(env, source, disk), Settled(env, source, disk, force, values, now);
    SourceKeysDistinct(props);
    SettledWithProvider(env, source, disk, force, values, now);
    Reload(env, props, disk, force, values, now, after);
    var i :| 0 <= i < |d.pending| && d.pending[i] == ItemOf(env, p);
    var e := NewEntry(env, d.pending[i], values[i], now);
    assert values[i] in values;
    MemGetElement(l.memory, d.pending[i].cacheKey);
    assert e in LoadMemory(after) && SharesText(env, q, e);
  }

  // ----- what is loaded, and which errors count as refused credentials -----

  ghost predicate Keeps(e: TmEntry) {
    e.cacheKey != "" && !IsBlank(e.translated)
  }

  ghost predicate IsLastKept(lines: seq<TmEntry>, e: TmEntry, i: nat) {
    i < |lines| && lines[i] == e && Keeps(e)
    && forall j | i < j < |lines| && Keeps(lines[j]) :: lines[j].cacheKey != e.cacheKey
  }

  /** Loading the memory keeps of each cache key the last line that has one and a translation. */
  lemma {:induction false} LoadedAre(lines: seq<TmEntry>, e: TmEntry)
    ensures e in MemLoad(lines) <==> exists i: nat :: IsLastKept(lines, e, i)
  {
    hide IsBlank;
    if lines != [] {
      var front, last := lines[..|lines| - 1], lines[|lines| - 1];
      LoadedAre(front, e);
      MemLoadGood(front);
      EntryByKey(MemLoad(front), e);
      MemLoadGood(lines);
      EntryByKey(MemLoad(lines), e);
      if Keeps(last) {
        MemSetGets(MemLoad(front), last, e.cacheKey);
      }
      LastLine(lines, e);
    }
  }

  lemma LastLine(lines: seq<TmEntry>, e: TmEntry)
    requires lines != []
    ensures var front, last := lines[..|lines| - 1], lines[|lines| - 1];
      (exists i: nat :: IsLastKept(lines, e, i)) <==>
        if Keeps(last) && last.cacheKey == e.cacheKey then last == e else exists i: nat :: IsLastKept(front, e, i)
  {
    hide Keeps;
    var front, last := lines[..|lines| - 1], lines[|lines| - 1];
    if Keeps(last) && last == e {
      assert IsLastKept(lines, e, |lines| - 1);
    }
    if i: nat :| IsLastKept(front, e, i) && !(Keeps(last) && last.cacheKey == e.cacheKey) {
      assert IsLastKept(lines, e, i);
    }
    if i: nat :| IsLastKept(lines, e, i) && !(Keeps(last) && last.cacheKey == e.cacheKey) {
      assert i != |front| by {
        assert lines[|front|] == last;
      }
      assert IsLastKept(front, e, i);
    }
  }

  /** An error refuses the credentials exactly if one of four texts occurs in it, whatever the case of its letters. */
  lemma AuthErrorIff(message: string)
    ensures IsProviderAuthError(message) <==>
      exists part | part in {"401", "authentication_error", "incorrect api key", "invalid x-api-key"} ::
        Holds(ToLowerCase(message), part)
  {
    var m := ToLowerCase(message);
    hide Includes, Holds;
    IncludesHolds(m, "401");
    IncludesHolds(m, "authentication_error");
    IncludesHolds(m, "incorrect api key");
    IncludesHolds(m, "invalid x-api-key");
  }
}
