/** Synchronising one locale (`syncLocale`): per key, reuse the exact translation-memory entry, an entry
  * for the same text, or the existing text, and translate what is left; then rebuild the locale file,
  * its metadata and the memory.
  *
  * Hashes, the collation and placeholder extraction are parameters of the environment. Files are modelled
  * by what loading them yields and by whether their text is the canonical rendering of that. */
module LocaleSync {
  import opened JsText
  import opened Lists
  import opened Sorting
  import opened TranslationTree
  import opened TranslationBatches

  const WORKFLOW := 1
  const SOURCE_LOCALE := "en"

  datatype CacheInput = CacheInput(provider: string, model: string, locale: string, key: string, textHash: string)

  datatype Env = Env(
    allowTranslate: bool,
    provider: string, model: string,        // the configured ones
    locale: string, sourcePath: string, sourceHash: string,
    textHash: string -> string,
    cacheHash: CacheInput -> string,
    collate: (string, string) -> bool,      // whether `localeCompare` puts the first before the second
    placeholders: string -> seq<string>)

  datatype TmEntry = TmEntry(
    cacheKey: string, model: string, provider: string, segmentId: string, sourcePath: string,
    srcLang: string, text: string, textHash: string, tgtLang: string, translated: string, updatedAt: string)

  datatype Meta = Meta(
    fallbackKeys: seq<string>, generatedAt: string, locale: string, model: string, provider: string,
    sourceHash: string, totalKeys: int, translatedKeys: int, workflow: int)

  datatype GlossaryEntry = GlossaryEntry(source: string, target: string)

  /** A missing file, the rendering of a value, or some other text that loads as the value. */
  datatype File<+T> = Missing | Rendered(value: T) | Foreign(value: T)

  datatype Disk = Disk(
    locale: File<Props>, meta: File<Meta>, glossary: File<seq<GlossaryEntry>>, memory: File<seq<TmEntry>>)

  function DefaultGlossary(): (r: seq<GlossaryEntry>)
    ensures r != []
  {
    var names := ["OpenClaw", "Gateway", "Control UI", "Skills", "Tailscale", "WhatsApp", "Telegram", "Discord",
                  "Signal", "iMessage"];
    seq(|names|, i requires 0 <= i < |names| => GlossaryEntry(names[i], names[i]))
  }

  // ----- the translation memory, an insertion-ordered map -----

  function MemGet(memory: seq<TmEntry>, cacheKey: string): Option<TmEntry> {
    if memory == [] then None
    else if memory[0].cacheKey == cacheKey then Some(memory[0])
    else MemGet(memory[1..], cacheKey)
  }

  function MemSet(memory: seq<TmEntry>, entry: TmEntry): seq<TmEntry> {
    if memory == [] then [entry]
    else if memory[0].cacheKey == entry.cacheKey then [entry] + memory[1..]
    else [memory[0]] + MemSet(memory[1..], entry)
  }

  /** Loading drops lines without a cache key or with a blank translation; later lines win. */
  function MemLoad(lines: seq<TmEntry>): seq<TmEntry> {
    if lines == [] then []
    else
      var front := MemLoad(lines[..|lines| - 1]);
      var last := lines[|lines| - 1];
      if last.cacheKey != "" && !IsBlank(last.translated) then MemSet(front, last) else front
  }

  function MemRender(memory: seq<TmEntry>, collate: (string, string) -> bool): seq<TmEntry> {
    Sort(memory, ByCacheKey(collate))
  }

  function ByCacheKey(collate: (string, string) -> bool): (TmEntry, TmEntry) -> bool {
    (a: TmEntry, b: TmEntry) => collate(a.cacheKey, b.cacheKey)
  }

  predicate Reusable(entry: TmEntry, locale: string) {
    entry.tgtLang == locale && entry.textHash != "" && !IsBlank(entry.translated)
  }

  /** `buildTranslationMemoryByTextHash`: the last reusable entry of each text hash. */
  function ByTextHash(memory: seq<TmEntry>, locale: string): map<string, TmEntry> {
    if memory == [] then map[]
    else
      var front := ByTextHash(memory[..|memory| - 1], locale);
      var last := memory[|memory| - 1];
      if Reusable(last, locale) then front[last.textHash := last] else front
  }

  // ----- the decision per key -----

  datatype Context = Context(
    env: Env, existing: map<string, string>, previousFallback: set<string>, byText: map<string, TmEntry>)

  datatype Loop = Loop(
    next: map<string, string>, memory: seq<TmEntry>, pending: seq<Item>, fallback: seq<string>)

  function CacheKeyOf(env: Env, key: string, text: string): string {
    env.cacheHash(CacheInput(env.provider, env.model, env.locale, key, env.textHash(text)))
  }

  /** The copy of a same-text entry that is stored under the key's own cache key. */
  function CopyFor(env: Env, entry: TmEntry, key: string, text: string): TmEntry {
    entry.(cacheKey := CacheKeyOf(env, key, text), segmentId := key, sourcePath := env.sourcePath)
  }

  function ItemOf(env: Env, pair: Pair): Item {
    Item(CacheKeyOf(env, pair.key, pair.text), pair.key, pair.text, env.textHash(pair.text))
  }

  function Decide(c: Context, l: Loop, pair: Pair): Loop {
    var key, text := pair.key, pair.text;
    var textHash := c.env.textHash(text);
    var cacheKey := CacheKeyOf(c.env, key, text);
    var cached := MemGet(l.memory, cacheKey);
    var flagged := key in c.previousFallback;
    var refresh := c.env.allowTranslate && flagged;
    if cached.Some? && !refresh then
      l.(next := l.next[key := cached.value.translated],
         fallback := if flagged then l.fallback + [key] else l.fallback)
    else if textHash in c.byText && (flagged || key !in c.existing) then
      l.(next := l.next[key := c.byText[textHash].translated],
         memory := MemSet(l.memory, CopyFor(c.env, c.byText[textHash], key, text)))
    else if key in c.existing && !refresh then
      l.(next := l.next[key := c.existing[key]],
         fallback := if flagged then l.fallback + [key] else l.fallback)
    else
      l.(pending := l.pending + [ItemOf(c.env, pair)])
  }

  function DecideAll(c: Context, l: Loop, pairs: seq<Pair>): Loop
    decreases |pairs|
  {
    if pairs == [] then l else DecideAll(c, Decide(c, l, pairs[0]), pairs[1..])
  }

  // ----- storing translations, filling what is left -----

  function NewEntry(env: Env, item: Item, value: string, now: string): TmEntry {
    TmEntry(item.cacheKey, env.model, env.provider, item.key, env.sourcePath, SOURCE_LOCALE, item.text,
            item.textHash, env.locale, value, now)
  }

  function StoreAll(env: Env, l: Loop, items: seq<Item>, values: seq<string>, now: string): Loop
    requires |items| == |values|
    decreases |items|
  {
    if items == [] then l
    else
      var l' := if values[0] == "" then l
                else l.(next := l.next[items[0].key := values[0]],
                        memory := MemSet(l.memory, NewEntry(env, items[0], values[0], now)));
      StoreAll(env, l', items[1..], values[1..], now)
  }

  function FillPending(c: Context, force: bool, l: Loop, items: seq<Item>): Loop
    decreases |items|
  {
    if items == [] then l
    else
      var key := items[0].key;
      var l' :=
        if key in l.next then l
        else if key in c.existing && !force then
          l.(next := l.next[key := c.existing[key]],
             fallback := if key in c.previousFallback then l.fallback + [key] else l.fallback)
        else l.(next := l.next[key := items[0].text], fallback := l.fallback + [key]);
      FillPending(c, force, l', items[1..])
  }

  // ----- one synchronisation -----

  function ToMap(pairs: seq<Pair>): map<string, string> {
    if pairs == [] then map[]
    else ToMap(pairs[..|pairs| - 1])[pairs[|pairs| - 1].key := pairs[|pairs| - 1].text]
  }

  function LoadLocale(disk: Disk): Props {
    if disk.locale.Missing? then Nil else disk.locale.value
  }

  function LoadMemory(disk: Disk): seq<TmEntry> {
    if disk.memory.Missing? then [] else MemLoad(disk.memory.value)
  }

  function LoadGlossary(disk: Disk): seq<GlossaryEntry> {
    if disk.glossary.Missing? then [] else disk.glossary.value
  }

  function ContextOf(env: Env, disk: Disk): Context {
    Context(env, ToMap(Flatten(LoadLocale(disk))),
            if disk.meta.Missing? then {} else (set k | k in disk.meta.value.fallbackKeys),
            ByTextHash(LoadMemory(disk), env.locale))
  }

  /** The state of the key loop when it ends. */
  function Decided(env: Env, source: seq<Pair>, disk: Disk): Loop {
    DecideAll(ContextOf(env, disk), Loop(map[], LoadMemory(disk), [], []), source)
  }

  /** `values` are the translations of the pending items, in order, when a provider is configured. */
  function Settled(env: Env, source: seq<Pair>, disk: Disk, force: bool, values: seq<string>, now: string): Loop
    requires env.allowTranslate ==> |values| == |Decided(env, source, disk).pending|
  {
    var l := Decided(env, source, disk);
    var stored := if env.allowTranslate then StoreAll(env, l, l.pending, values, now) else l;
    FillPending(ContextOf(env, disk), force, stored, l.pending)
  }

  predicate PlaceholdersAgree(env: Env, source: seq<Pair>, next: map<string, string>) {
    forall p | p in source :: env.placeholders(p.text) == env.placeholders(if p.key in next then next[p.key] else "")
  }

  datatype Expected = Expected(locale: Props, meta: Meta, glossary: seq<GlossaryEntry>, memory: seq<TmEntry>)

  function NextMeta(env: Env, total: nat, previous: File<Meta>, fallback: seq<string>, now: string): Meta {
    var known := !previous.Missing?;
    var provider := if env.allowTranslate then env.provider else if known then previous.value.provider else "";
    var model := if env.allowTranslate then env.model else if known then previous.value.model else "";
    var sorted := Sort(Dedupe(fallback), env.collate);
    var translated := total - |sorted|;
    var changed :=
      || previous.Missing?
      || previous.value.locale != env.locale
      || previous.value.sourceHash != env.sourceHash
      || previous.value.provider != provider
      || previous.value.model != model
      || previous.value.totalKeys != total
      || previous.value.translatedKeys != translated
      || previous.value.workflow != WORKFLOW
      || previous.value.fallbackKeys != sorted;
    Meta(sorted, if changed then now else previous.value.generatedAt, env.locale, model, provider, env.sourceHash,
         total, translated, WORKFLOW)
  }

  function ExpectedFiles(env: Env, source: seq<Pair>, disk: Disk, l: Loop, now: string): Expected {
    Expected(
      Rebuild(Retext(source, l.next)),
      NextMeta(env, |source|, disk.meta, l.fallback, now),
      if LoadGlossary(disk) == [] then DefaultGlossary() else LoadGlossary(disk),
      MemRender(l.memory, env.collate))
  }

  /** Whether some file's text differs from the expected text; an empty memory renders as no text at all. */
  predicate Differs(disk: Disk, e: Expected) {
    || disk.locale != Rendered(e.locale)
    || disk.meta != Rendered(e.meta)
    || disk.glossary != Rendered(e.glossary)
    || (disk.memory != Rendered(e.memory) && !(disk.memory.Missing? && e.memory == []))
  }

  function WriteFiles(disk: Disk, e: Expected): Disk {
    Disk(Rendered(e.locale), Rendered(e.meta), Rendered(e.glossary),
         if e.memory == [] && disk.memory.Missing? then Missing else Rendered(e.memory))
  }

  datatype Options = Options(checkOnly: bool, force: bool, write: bool)

  datatype Outcome = Outcome(changed: bool, fallbackCount: nat, wrote: bool)

  function Conclude(env: Env, disk: Disk, options: Options, e: Expected): (Disk, Outcome) {
    var changed := Differs(disk, e);
    if !changed || (!disk.meta.Missing? && disk.meta.value.sourceHash == env.sourceHash &&
                    !options.force && !options.checkOnly && !options.write)
    then (disk, Outcome(changed, |e.meta.fallbackKeys|, false))
    else
      (if !options.checkOnly && options.write then WriteFiles(disk, e) else disk,
       Outcome(changed, |e.meta.fallbackKeys|, !options.checkOnly && options.write && changed))
  }

  // ----- assumptions on the parameters -----

  /** Cache keys do not collide and are never empty; the collation is a consistent order, which may find different
    * strings equal. */
  ghost predicate Sound(env: Env) {
    Injective(env.cacheHash) && WeakOrder(env.collate) && forall i :: env.cacheHash(i) != ""
  }

  /** The collation tells the keys of the source apart. */
  ghost predicate KeysTold(env: Env, source: seq<Pair>) {
    forall p, q | p in source && q in source && p.key != q.key ::
      env.collate(p.key, q.key) || env.collate(q.key, p.key)
  }

  ghost predicate DistinctKeys(pairs: seq<Pair>) {
    forall i, j | 0 <= i < j < |pairs| :: pairs[i].key != pairs[j].key
  }

  // ----- facts about the memory -----

  /** What `MemLoad` establishes and every update keeps. */
  ghost predicate GoodMemory(memory: seq<TmEntry>) {
    && (forall i, j | 0 <= i < j < |memory| :: memory[i].cacheKey != memory[j].cacheKey)
    && (forall e | e in memory :: e.cacheKey != "" && !IsBlank(e.translated))
  }

  lemma {:induction false} MemSetGets(memory: seq<TmEntry>, entry: TmEntry, cacheKey: string)
    ensures MemGet(MemSet(memory, entry), cacheKey) ==
      if cacheKey == entry.cacheKey then Some(entry) else MemGet(memory, cacheKey)
  {
    if memory != [] && memory[0].cacheKey != entry.cacheKey {
      MemSetGets(memory[1..], entry, cacheKey);
    }
  }

  lemma {:induction false} MemSetElements(memory: seq<TmEntry>, entry: TmEntry)
    ensures forall e | e in MemSet(memory, entry) ::
      e == entry || (e in memory && (GoodMemory(memory) ==> e.cacheKey != entry.cacheKey))
  {
    if memory != [] {
      assert memory == [memory[0]] + memory[1..];
      assert GoodMemory(memory) ==> GoodMemory(memory[1..]);
      MemSetElements(memory[1..], entry);
      forall e | e in memory[1..] && GoodMemory(memory) ensures e.cacheKey != memory[0].cacheKey {
        var i :| 0 <= i < |memory[1..]| && memory[1..][i] == e;
        assert memory[i + 1] == e;
      }
    }
  }

  lemma {:induction false} MemSetGood(memory: seq<TmEntry>, entry: TmEntry)
    requires GoodMemory(memory) && entry.cacheKey != "" && !IsBlank(entry.translated)
    ensures GoodMemory(MemSet(memory, entry))
  {
    if memory != [] {
      assert GoodMemory(memory[1..]);
      MemSetGood(memory[1..], entry);
      MemSetElements(memory[1..], entry);
      MemSetElements(memory, entry);
      var rest := MemSet(memory[1..], entry);
      if memory[0].cacheKey != entry.cacheKey {
        forall j | 0 <= j < |rest| ensures memory[0].cacheKey != rest[j].cacheKey {
          assert rest[j] in rest;
          if rest[j] != entry {
            var i :| 0 <= i < |memory[1..]| && memory[1..][i] == rest[j];
            assert memory[i + 1] == rest[j];
          }
        }
      }
    }
  }

  lemma {:induction false} MemSetNew(memory: seq<TmEntry>, entry: TmEntry)
    requires forall e | e in memory :: e.cacheKey != entry.cacheKey
    ensures MemSet(memory, entry) == memory + [entry]
  {
    if memory != [] {
      MemSetNew(memory[1..], entry);
    }
  }

  lemma {:induction false} MemLoadGood(lines: seq<TmEntry>)
    ensures GoodMemory(MemLoad(lines))
    ensures GoodMemory(lines) ==> MemLoad(lines) == lines
  {
    if lines != [] {
      var front, last := lines[..|lines| - 1], lines[|lines| - 1];
      MemLoadGood(front);
      if last.cacheKey != "" && !IsBlank(last.translated) {
        MemSetGood(MemLoad(front), last);
      }
      if GoodMemory(lines) {
        assert last in lines;
        MemSetNew(front, last);
        assert lines == front + [last];
      }
    }
  }

  lemma {:induction false} MemGetElement(memory: seq<TmEntry>, cacheKey: string)
    ensures MemGet(memory, cacheKey).Some? ==>
      MemGet(memory, cacheKey).value in memory && MemGet(memory, cacheKey).value.cacheKey == cacheKey
    ensures MemGet(memory, cacheKey).None? ==> forall e | e in memory :: e.cacheKey != cacheKey
  {
    if memory != [] {
      assert memory == [memory[0]] + memory[1..];
      MemGetElement(memory[1..], cacheKey);
    }
  }

  /** Two good memories with the same entries answer every lookup alike. */
  lemma SameEntriesSameGets(a: seq<TmEntry>, b: seq<TmEntry>, cacheKey: string)
    requires GoodMemory(a) && (forall e :: e in a <==> e in b)
    ensures MemGet(a, cacheKey) == MemGet(b, cacheKey)
  {
    MemGetElement(a, cacheKey);
    MemGetElement(b, cacheKey);
    if MemGet(a, cacheKey).Some? && MemGet(b, cacheKey).Some? {
      var x, y := MemGet(a, cacheKey).value, MemGet(b, cacheKey).value;
      assert x in a && y in a;
      var i :| 0 <= i < |a| && a[i] == x;
      var j :| 0 <= j < |a| && a[j] == y;
    }
  }

  lemma CacheKeysOrder(collate: (string, string) -> bool)
    requires WeakOrder(collate)
    ensures WeakOrder(ByCacheKey(collate))
  {
    var less := ByCacheKey(collate);
    assert forall a: TmEntry :: less(a, a) == collate(a.cacheKey, a.cacheKey);
    forall a: TmEntry, b: TmEntry, c: TmEntry | less(a, b) && less(b, c) ensures less(a, c) {
      assert collate(a.cacheKey, b.cacheKey) && collate(b.cacheKey, c.cacheKey);
    }
    forall a: TmEntry, b: TmEntry, c: TmEntry | less(a, c) ensures less(a, b) || less(b, c) {
      assert collate(a.cacheKey, c.cacheKey);
    }
  }

  predicate OwnKeys(a: TmEntry, b: TmEntry) {
    a.cacheKey != b.cacheKey
  }

  lemma OwnKeysPairwise(memory: seq<TmEntry>)
    ensures Pairwise(memory, OwnKeys)
        <==> forall i, j | 0 <= i < j < |memory| :: memory[i].cacheKey != memory[j].cacheKey
  {
    forall i, j | 0 <= i < j < |memory|
      ensures OwnKeys(memory[i], memory[j]) <==> memory[i].cacheKey != memory[j].cacheKey
    {
    }
  }

  /** Rendering sorts the entries; loading the rendering gives a memory that renders identically, entries whose cache
    * keys the collation finds equal included. */
  lemma RenderKeeps(memory: seq<TmEntry>, collate: (string, string) -> bool)
    requires GoodMemory(memory) && WeakOrder(collate)
    ensures var r := MemRender(memory, collate);
      && (forall e :: e in r <==> e in memory)
      && GoodMemory(r) && MemLoad(r) == r && MemRender(r, collate) == r
      && (r == [] <==> memory == [])
  {
    hide Sort, WeakOrder, Sorted, Pairwise;
    var less := ByCacheKey(collate);
    var r := MemRender(memory, collate);
    CacheKeysOrder(collate);
    SortSorts(memory, less);
    SortFixesSorted(r, less);
    forall e { SortMembers(memory, less, e); }
    OwnKeysPairwise(memory);
    SortPairwise(memory, less, OwnKeys);
    OwnKeysPairwise(r);
    MemLoadGood(r);
    assert memory != [] ==> memory[0] in r;
    assert r != [] ==> r[0] in memory;
  }

  lemma {:induction false} ByTextHashDomain(memory: seq<TmEntry>, locale: string, textHash: string)
    ensures textHash in ByTextHash(memory, locale) <==>
      exists e :: e in memory && Reusable(e, locale) && e.textHash == textHash
    ensures textHash in ByTextHash(memory, locale) ==>
      var e := ByTextHash(memory, locale)[textHash]; e in memory && Reusable(e, locale) && e.textHash == textHash
  {
    if memory != [] {
      assert memory == memory[..|memory| - 1] + [memory[|memory| - 1]];
      ByTextHashDomain(memory[..|memory| - 1], locale, textHash);
      assert memory[|memory| - 1] in memory;
    }
  }

  // ----- what the key loop decides, key by key -----

  datatype Verdict = Cached(entry: TmEntry) | Copied(entry: TmEntry) | Kept(text: string) | Untranslated

  /** The decision for one key against the memory the loop started with. */
  function VerdictOf(c: Context, memory: seq<TmEntry>, pair: Pair): Verdict {
    var textHash := c.env.textHash(pair.text);
    var cached := MemGet(memory, CacheKeyOf(c.env, pair.key, pair.text));
    var flagged := pair.key in c.previousFallback;
    if cached.Some? && !(c.env.allowTranslate && flagged) then Cached(cached.value)
    else if textHash in c.byText && (flagged || pair.key !in c.existing) then Copied(c.byText[textHash])
    else if pair.key in c.existing && !(c.env.allowTranslate && flagged) then Kept(c.existing[pair.key])
    else Untranslated
  }

  function NextAfter(next: map<string, string>, key: string, v: Verdict): map<string, string> {
    match v
    case Cached(e) => next[key := e.translated]
    case Copied(e) => next[key := e.translated]
    case Kept(text) => next[key := text]
    case Untranslated => next
  }

  function MemoryAfter(c: Context, memory: seq<TmEntry>, pair: Pair, v: Verdict): seq<TmEntry> {
    if v.Copied? then MemSet(memory, CopyFor(c.env, v.entry, pair.key, pair.text)) else memory
  }

  ghost function NextOf(c: Context, m0: seq<TmEntry>, next: map<string, string>, pairs: seq<Pair>): map<string, string>
    decreases |pairs|
  {
    if pairs == [] then next
    else NextOf(c, m0, NextAfter(next, pairs[0].key, VerdictOf(c, m0, pairs[0])), pairs[1..])
  }

  ghost function MemoryOf(c: Context, m0: seq<TmEntry>, memory: seq<TmEntry>, pairs: seq<Pair>): seq<TmEntry>
    decreases |pairs|
  {
    if pairs == [] then memory
    else MemoryOf(c, m0, MemoryAfter(c, memory, pairs[0], VerdictOf(c, m0, pairs[0])), pairs[1..])
  }

  ghost function PendingAt(c: Context, m0: seq<TmEntry>, pair: Pair): seq<Item> {
    if VerdictOf(c, m0, pair).Untranslated? then [ItemOf(c.env, pair)] else []
  }

  ghost function PendingOf(c: Context, m0: seq<TmEntry>, pairs: seq<Pair>): seq<Item> {
    if pairs == [] then [] else PendingAt(c, m0, pairs[0]) + PendingOf(c, m0, pairs[1..])
  }

  /** A key stays flagged when a remembered or existing text of a flagged key is reused. */
  ghost predicate StaysFlagged(c: Context, m0: seq<TmEntry>, pair: Pair) {
    var v := VerdictOf(c, m0, pair);
    (v.Cached? || v.Kept?) && pair.key in c.previousFallback
  }

  ghost function FlaggedAt(c: Context, m0: seq<TmEntry>, pair: Pair): seq<string> {
    if StaysFlagged(c, m0, pair) then [pair.key] else []
  }

  ghost function FlaggedOf(c: Context, m0: seq<TmEntry>, pairs: seq<Pair>): seq<string> {
    if pairs == [] then [] else FlaggedAt(c, m0, pairs[0]) + FlaggedOf(c, m0, pairs[1..])
  }

  lemma DecideIs(c: Context, m0: seq<TmEntry>, l: Loop, p: Pair)
    requires MemGet(l.memory, CacheKeyOf(c.env, p.key, p.text)) == MemGet(m0, CacheKeyOf(c.env, p.key, p.text))
    ensures var v := VerdictOf(c, m0, p);
      Decide(c, l, p) == Loop(NextAfter(l.next, p.key, v), MemoryAfter(c, l.memory, p, v),
                              l.pending + PendingAt(c, m0, p), l.fallback + FlaggedAt(c, m0, p))
  {
  }

  /** Copies made for one key never disturb the decision for another. */
  lemma {:induction false} DecideAllIs(c: Context, m0: seq<TmEntry>, l: Loop, pairs: seq<Pair>)
    requires Injective(c.env.cacheHash) && DistinctKeys(pairs)
    requires forall p | p in pairs ::
      MemGet(l.memory, CacheKeyOf(c.env, p.key, p.text)) == MemGet(m0, CacheKeyOf(c.env, p.key, p.text))
    ensures DecideAll(c, l, pairs) == Loop(NextOf(c, m0, l.next, pairs), MemoryOf(c, m0, l.memory, pairs),
      l.pending + PendingOf(c, m0, pairs), l.fallback + FlaggedOf(c, m0, pairs))
    decreases |pairs|
  {
    if pairs != [] {
      var l' := Decide(c, l, pairs[0]);
      DecideIs(c, m0, l, pairs[0]);
      forall q | q in pairs[1..]
        ensures MemGet(l'.memory, CacheKeyOf(c.env, q.key, q.text)) == MemGet(m0, CacheKeyOf(c.env, q.key, q.text))
      {
        CopyElsewhere(c, m0, l.memory, pairs, q);
      }
      DecideAllIs(c, m0, l', pairs[1..]);
      AppendAssoc(l.pending, PendingAt(c, m0, pairs[0]), PendingOf(c, m0, pairs[1..]));
      AppendAssoc(l.fallback, FlaggedAt(c, m0, pairs[0]), FlaggedOf(c, m0, pairs[1..]));
    } else {
      assert l.pending + [] == l.pending && l.fallback + [] == l.fallback;
    }
  }

  lemma CopyElsewhere(c: Context, m0: seq<TmEntry>, memory: seq<TmEntry>, pairs: seq<Pair>, q: Pair)
    requires Injective(c.env.cacheHash) && DistinctKeys(pairs) && pairs != [] && q in pairs[1..]
    ensures q in pairs
    ensures MemGet(MemoryAfter(c, memory, pairs[0], VerdictOf(c, m0, pairs[0])), CacheKeyOf(c.env, q.key, q.text))
         == MemGet(memory, CacheKeyOf(c.env, q.key, q.text))
  {
    CacheKeysDiffer(c.env, pairs, q);
    var v := VerdictOf(c, m0, pairs[0]);
    if v.Copied? {
      MemSetGets(memory, CopyFor(c.env, v.entry, pairs[0].key, pairs[0].text), CacheKeyOf(c.env, q.key, q.text));
    }
  }

  lemma CacheKeysDiffer(env: Env, pairs: seq<Pair>, q: Pair)
    requires Injective(env.cacheHash) && DistinctKeys(pairs) && pairs != [] && q in pairs[1..]
    ensures q in pairs && q.key != pairs[0].key
    ensures CacheKeyOf(env, q.key, q.text) != CacheKeyOf(env, pairs[0].key, pairs[0].text)
  {
    var i :| 0 <= i < |pairs[1..]| && pairs[1..][i] == q;
    assert pairs[i + 1] == q;
    assert CacheInput(env.provider, env.model, env.locale, q.key, env.textHash(q.text)).key == q.key;
  }

  lemma {:induction false} NextOfElsewhere(c: Context, m0: seq<TmEntry>, next: map<string, string>, pairs: seq<Pair>,
                                           key: string)
    requires forall p | p in pairs :: p.key != key
    ensures var r := NextOf(c, m0, next, pairs); (key in r <==> key in next) && (key in r ==> r[key] == next[key])
    decreases |pairs|
  {
    if pairs != [] {
      NextOfElsewhere(c, m0, NextAfter(next, pairs[0].key, VerdictOf(c, m0, pairs[0])), pairs[1..], key);
    }
  }

  /** What the loop leaves for a key is what its verdict says. */
  lemma {:induction false} NextOfAt(c: Context, m0: seq<TmEntry>, next: map<string, string>, pairs: seq<Pair>,
                                    pair: Pair)
    requires DistinctKeys(pairs) && pair in pairs && pair.key !in next
    ensures var r, key := NextOf(c, m0, next, pairs), pair.key;
      match VerdictOf(c, m0, pair)
      case Cached(e) => key in r && r[key] == e.translated
      case Copied(e) => key in r && r[key] == e.translated
      case Kept(text) => key in r && r[key] == text
      case Untranslated => key !in r
    decreases |pairs|
  {
    var next' := NextAfter(next, pairs[0].key, VerdictOf(c, m0, pairs[0]));
    if pair == pairs[0] {
      NextOfElsewhere(c, m0, next', pairs[1..], pair.key);
    } else {
      assert pair in pairs[1..] && pair.key != pairs[0].key by {
        assert pairs == [pairs[0]] + pairs[1..];
        var i :| 0 <= i < |pairs| && pairs[i] == pair;
      }
      NextOfAt(c, m0, next', pairs[1..], pair);
    }
  }

  /** The memory gains exactly the copies: one under each copied key's own cache key. */
  lemma {:induction false} MemoryOfGets(c: Context, m0: seq<TmEntry>, memory: seq<TmEntry>, pairs: seq<Pair>,
                                        pair: Pair)
    requires Injective(c.env.cacheHash) && DistinctKeys(pairs) && pair in pairs
    ensures var cacheKey := CacheKeyOf(c.env, pair.key, pair.text);
      var v := VerdictOf(c, m0, pair);
      MemGet(MemoryOf(c, m0, memory, pairs), cacheKey) ==
        if v.Copied? then Some(CopyFor(c.env, v.entry, pair.key, pair.text)) else MemGet(memory, cacheKey)
    decreases |pairs|
  {
    var cacheKey := CacheKeyOf(c.env, pair.key, pair.text);
    var v0 := VerdictOf(c, m0, pairs[0]);
    var memory' := MemoryAfter(c, memory, pairs[0], v0);
    if v0.Copied? {
      MemSetGets(memory, CopyFor(c.env, v0.entry, pairs[0].key, pairs[0].text), cacheKey);
    }
    if pair in pairs[1..] {
      CacheKeysDiffer(c.env, pairs, pair);
      MemoryOfGets(c, m0, memory', pairs[1..], pair);
    } else {
      assert pairs == [pairs[0]] + pairs[1..] && pair == pairs[0];
      MemoryOfOthers(c, m0, memory', pairs, cacheKey);
    }
  }

  lemma {:induction false} MemoryOfOthers(c: Context, m0: seq<TmEntry>, memory: seq<TmEntry>, pairs: seq<Pair>,
                                          cacheKey: string)
    requires Injective(c.env.cacheHash) && DistinctKeys(pairs) && pairs != []
    requires forall p | p in pairs[1..] :: CacheKeyOf(c.env, p.key, p.text) != cacheKey || p.key == pairs[0].key
    requires cacheKey == CacheKeyOf(c.env, pairs[0].key, pairs[0].text)
    ensures MemGet(MemoryOf(c, m0, memory, pairs[1..]), cacheKey) == MemGet(memory, cacheKey)
  {
    forall p | p in pairs[1..] ensures CacheKeyOf(c.env, p.key, p.text) != cacheKey {
      CacheKeysDiffer(c.env, pairs, p);
    }
    MemoryOfUntouched(c, m0, memory, pairs[1..], cacheKey);
  }

  lemma {:induction false} MemoryOfUntouched(c: Context, m0: seq<TmEntry>, memory: seq<TmEntry>, pairs: seq<Pair>,
                                             cacheKey: string)
    requires forall p | p in pairs :: CacheKeyOf(c.env, p.key, p.text) != cacheKey
    ensures MemGet(MemoryOf(c, m0, memory, pairs), cacheKey) == MemGet(memory, cacheKey)
    decreases |pairs|
  {
    if pairs != [] {
      var v0 := VerdictOf(c, m0, pairs[0]);
      if v0.Copied? {
        MemSetGets(memory, CopyFor(c.env, v0.entry, pairs[0].key, pairs[0].text), cacheKey);
      }
      MemoryOfUntouched(c, m0, MemoryAfter(c, memory, pairs[0], v0), pairs[1..], cacheKey);
    }
  }

  /** The context's text index really is the index of the memory it was built from. */
  ghost predicate Indexed(c: Context, m0: seq<TmEntry>) {
    c.byText == ByTextHash(m0, c.env.locale)
  }

  /** Copying keeps the memory good and adds no text hash that was not indexed already. */
  lemma {:induction false} MemoryOfGood(c: Context, m0: seq<TmEntry>, memory: seq<TmEntry>, pairs: seq<Pair>)
    requires Indexed(c, m0) && GoodMemory(memory) && Sound(c.env)
    requires forall e | e in memory && Reusable(e, c.env.locale) :: e.textHash in c.byText
    ensures var r := MemoryOf(c, m0, memory, pairs);
      GoodMemory(r) && forall e | e in r && Reusable(e, c.env.locale) :: e.textHash in c.byText
    decreases |pairs|
  {
    if pairs != [] {
      var v0 := VerdictOf(c, m0, pairs[0]);
      if v0.Copied? {
        var copy := CopyFor(c.env, v0.entry, pairs[0].key, pairs[0].text);
        ByTextHashDomain(m0, c.env.locale, c.env.textHash(pairs[0].text));
        MemSetGood(memory, copy);
        MemSetElements(memory, copy);
      }
      MemoryOfGood(c, m0, MemoryAfter(c, memory, pairs[0], v0), pairs[1..]);
    }
  }

  lemma {:induction false} PendingOfAt(c: Context, m0: seq<TmEntry>, pairs: seq<Pair>)
    requires DistinctKeys(pairs)
    ensures forall item | item in PendingOf(c, m0, pairs) ::
      exists p :: p in pairs && VerdictOf(c, m0, p).Untranslated? && item == ItemOf(c.env, p)
    ensures forall p | p in pairs && VerdictOf(c, m0, p).Untranslated? :: ItemOf(c.env, p) in PendingOf(c, m0, pairs)
    ensures DistinctItems(PendingOf(c, m0, pairs))
  {
    if pairs != [] {
      PendingOfAt(c, m0, pairs[1..]);
      assert pairs == [pairs[0]] + pairs[1..];
      var rest := PendingOf(c, m0, pairs[1..]);
      forall i | 0 <= i < |rest| ensures rest[i].key != pairs[0].key {
        assert rest[i] in rest;
        var p :| p in pairs[1..] && VerdictOf(c, m0, p).Untranslated? && rest[i] == ItemOf(c.env, p);
        var k :| 0 <= k < |pairs[1..]| && pairs[1..][k] == p;
        assert pairs[k + 1] == p;
      }
      DistinctItemsCons(PendingAt(c, m0, pairs[0]), rest, pairs[0].key);
    }
  }

  lemma DistinctItemsCons(first: seq<Item>, rest: seq<Item>, key: string)
    requires |first| <= 1 && (forall i | 0 <= i < |first| :: first[i].key == key)
    requires DistinctItems(rest) && forall i | 0 <= i < |rest| :: rest[i].key != key
    ensures DistinctItems(first + rest)
  {
  }

  lemma {:induction false} FlaggedOfAt(c: Context, m0: seq<TmEntry>, pairs: seq<Pair>, key: string)
    ensures key in FlaggedOf(c, m0, pairs) <==> exists p :: p in pairs && p.key == key && StaysFlagged(c, m0, p)
  {
    if pairs != [] {
      FlaggedOfAt(c, m0, pairs[1..], key);
      assert pairs == [pairs[0]] + pairs[1..];
      assert pairs[0] in pairs;
    }
  }

  // ----- storing the translations -----

  ghost predicate DistinctCacheKeys(items: seq<Item>) {
    forall i, j | 0 <= i < j < |items| :: items[i].cacheKey != items[j].cacheKey
  }

  ghost predicate AllNonBlank(values: seq<string>) {
    forall v | v in values :: !IsBlank(v)
  }

  lemma {:induction false} StoreAllElsewhere(env: Env, l: Loop, items: seq<Item>, values: seq<string>, now: string)
    requires |items| == |values|
    ensures var r := StoreAll(env, l, items, values, now);
      && r.pending == l.pending && r.fallback == l.fallback
      && (forall k | forall i | 0 <= i < |items| :: items[i].key != k ::
            (k in r.next <==> k in l.next) && (k in r.next ==> r.next[k] == l.next[k]))
      && (forall k | forall i | 0 <= i < |items| :: items[i].cacheKey != k ::
            MemGet(r.memory, k) == MemGet(l.memory, k))
    decreases |items|
  {
    if items != [] {
      var entry := NewEntry(env, items[0], values[0], now);
      var l' := if values[0] == "" then l
                else l.(next := l.next[items[0].key := values[0]], memory := MemSet(l.memory, entry));
      StoreAllElsewhere(env, l', items[1..], values[1..], now);
      forall k | forall i | 0 <= i < |items| :: items[i].cacheKey != k
        ensures MemGet(l'.memory, k) == MemGet(l.memory, k)
            && forall i | 0 <= i < |items[1..]| :: items[1..][i].cacheKey != k
      {
        MemSetGets(l.memory, entry, k);
        assert items[0].cacheKey != k;
      }
    }
  }

  lemma {:induction false} StoreAllAt(env: Env, l: Loop, items: seq<Item>, values: seq<string>, now: string, i: nat)
    requires |items| == |values| && i < |items| && values[i] != ""
    requires DistinctItems(items) && DistinctCacheKeys(items)
    ensures var r := StoreAll(env, l, items, values, now);
      && items[i].key in r.next && r.next[items[i].key] == values[i]
      && MemGet(r.memory, items[i].cacheKey) == Some(NewEntry(env, items[i], values[i], now))
    decreases |items|
  {
    var entry := NewEntry(env, items[0], values[0], now);
    var l' := if values[0] == "" then l
              else l.(next := l.next[items[0].key := values[0]], memory := MemSet(l.memory, entry));
    if i == 0 {
      StoreAllElsewhere(env, l', items[1..], values[1..], now);
      MemSetGets(l.memory, entry, items[0].cacheKey);
      assert forall j | 0 <= j < |items[1..]| :: items[1..][j] == items[j + 1];
    } else {
      StoreAllAt(env, l', items[1..], values[1..], now, i - 1);
    }
  }

  lemma {:induction false} StoreAllGood(env: Env, l: Loop, items: seq<Item>, values: seq<string>, now: string)
    requires |items| == |values| && AllNonBlank(values) && GoodMemory(l.memory)
    requires forall item | item in items :: item.cacheKey != ""
    ensures GoodMemory(StoreAll(env, l, items, values, now).memory)
    decreases |items|
  {
    if items != [] {
      assert items[0] in items && values[0] in values;
      var entry := NewEntry(env, items[0], values[0], now);
      MemSetGood(l.memory, entry);
      var l' := if values[0] == "" then l
                else l.(next := l.next[items[0].key := values[0]], memory := MemSet(l.memory, entry));
      StoreAllGood(env, l', items[1..], values[1..], now);
    }
  }

  // ----- filling what is left -----

  lemma {:induction false} FillNothing(c: Context, force: bool, l: Loop, items: seq<Item>)
    requires forall item | item in items :: item.key in l.next
    ensures FillPending(c, force, l, items) == l
    decreases |items|
  {
    if items != [] {
      assert items[0] in items;
      FillNothing(c, force, l, items[1..]);
    }
  }

  ghost function KeysOf(items: seq<Item>): (r: seq<string>)
    ensures |r| == |items| && forall i | 0 <= i < |r| :: r[i] == items[i].key
  {
    seq(|items|, i requires 0 <= i < |items| => items[i].key)
  }

  predicate NoneKnown(c: Context, l: Loop, items: seq<Item>) {
    forall i | 0 <= i < |items| :: items[i].key !in l.next && items[i].key !in c.existing
  }

  function FallBackOn(l: Loop, item: Item): Loop {
    l.(next := l.next[item.key := item.text], fallback := l.fallback + [item.key])
  }

  lemma FillStep(c: Context, force: bool, l: Loop, items: seq<Item>)
    requires items != [] && DistinctItems(items) && NoneKnown(c, l, items)
    ensures FillPending(c, force, l, items) == FillPending(c, force, FallBackOn(l, items[0]), items[1..])
    ensures DistinctItems(items[1..]) && NoneKnown(c, FallBackOn(l, items[0]), items[1..])
  {
    assert forall i | 0 <= i < |items[1..]| :: items[1..][i] == items[i + 1];
  }

  lemma {:induction false} FillKeys(c: Context, force: bool, l: Loop, items: seq<Item>)
    requires DistinctItems(items) && NoneKnown(c, l, items)
    ensures var r := FillPending(c, force, l, items);
      r.memory == l.memory && r.pending == l.pending && r.fallback == l.fallback + KeysOf(items)
    decreases |items|
  {
    if items != [] {
      FillStep(c, force, l, items);
      hide FillPending, NoneKnown, DistinctItems;
      FillKeys(c, force, FallBackOn(l, items[0]), items[1..]);
      assert KeysOf(items) == [items[0].key] + KeysOf(items[1..]);
      AppendAssoc(l.fallback, [items[0].key], KeysOf(items[1..]));
    }
  }

  lemma {:induction false} FillOthers(c: Context, force: bool, l: Loop, items: seq<Item>, k: string)
    requires DistinctItems(items) && NoneKnown(c, l, items) && forall i | 0 <= i < |items| :: items[i].key != k
    ensures var r := FillPending(c, force, l, items);
      (k in r.next <==> k in l.next) && (k in r.next ==> r.next[k] == l.next[k])
    decreases |items|
  {
    if items != [] {
      FillStep(c, force, l, items);
      hide FillPending, NoneKnown, DistinctItems;
      assert forall i | 0 <= i < |items[1..]| :: items[1..][i] == items[i + 1];
      FillOthers(c, force, FallBackOn(l, items[0]), items[1..], k);
    }
  }

  lemma {:induction false} FillTexts(c: Context, force: bool, l: Loop, items: seq<Item>, i: nat)
    requires DistinctItems(items) && NoneKnown(c, l, items) && i < |items|
    ensures var r := FillPending(c, force, l, items);
      items[i].key in r.next && r.next[items[i].key] == items[i].text
    decreases |items|
  {
    FillStep(c, force, l, items);
    assert forall k | 0 <= k < |items[1..]| :: items[1..][k] == items[k + 1];
    var l' := FallBackOn(l, items[0]);
    if i > 0 {
      FillTexts(c, force, l', items[1..], i - 1);
    } else {
      FillOthers(c, force, l', items[1..], items[0].key);
    }
  }

  /** Without a provider every pending key falls back to its source text; `force` makes no difference. */
  lemma FillFallsBack(c: Context, force: bool, l: Loop, items: seq<Item>)
    requires DistinctItems(items)
    requires forall item | item in items :: item.key !in l.next && item.key !in c.existing
    ensures var r := FillPending(c, force, l, items);
      && r.memory == l.memory && r.pending == l.pending && r.fallback == l.fallback + KeysOf(items)
      && (forall item | item in items :: item.key in r.next && r.next[item.key] == item.text)
      && (forall k | forall i | 0 <= i < |items| :: items[i].key != k ::
            (k in r.next <==> k in l.next) && (k in r.next ==> r.next[k] == l.next[k]))
  {
    hide FillPending, DistinctItems;
    assert forall i | 0 <= i < |items| :: items[i] in items;
    FillKeys(c, force, l, items);
    var r := FillPending(c, force, l, items);
    forall item | item in items ensures item.key in r.next && r.next[item.key] == item.text {
      var i :| 0 <= i < |items| && items[i] == item;
      FillTexts(c, force, l, items, i);
    }
    forall k | forall i | 0 <= i < |items| :: items[i].key != k
      ensures (k in r.next <==> k in l.next) && (k in r.next ==> r.next[k] == l.next[k])
    {
      FillOthers(c, force, l, items, k);
    }
  }

  // ----- what one completed synchronisation leaves behind -----

  /** A sync completes with one non-blank translation per pending item, or with no provider at all. */
  ghost predicate Completes(env: Env, source: seq<Pair>, disk: Disk, values: seq<string>) {
    env.allowTranslate ==> |values| == |Decided(env, source, disk).pending| && AllNonBlank(values)
  }

  /** The record of a key after a sync: it has a text; an entry under its own cache key carries that very
    * text; and if it is flagged without such an entry, its text hash is not in the memory either. */
  ghost predicate Recorded(env: Env, l: Loop, p: Pair) {
    var own := MemGet(l.memory, CacheKeyOf(env, p.key, p.text));
    && p.key in l.next
    && (own.Some? ==> own.value.translated == l.next[p.key])
    && (p.key in l.fallback && own.None? ==> env.textHash(p.text) !in ByTextHash(l.memory, env.locale))
  }

  /** The state of the key loop, in closed form. */
  lemma DecidedIs(env: Env, source: seq<Pair>, disk: Disk)
    requires Sound(env) && DistinctKeys(source)
    ensures var c, m0 := ContextOf(env, disk), LoadMemory(disk);
      var l := Decided(env, source, disk);
      && Indexed(c, m0) && GoodMemory(m0)
      && l == Loop(NextOf(c, m0, map[], source), MemoryOf(c, m0, m0, source), PendingOf(c, m0, source),
           FlaggedOf(c, m0, source))
      && GoodMemory(l.memory)
      && (forall e | e in l.memory && Reusable(e, env.locale) :: e.textHash in c.byText)
  {
    var c, m0 := ContextOf(env, disk), LoadMemory(disk);
    if !disk.memory.Missing? {
      MemLoadGood(disk.memory.value);
    }
    DecideAllIs(c, m0, Loop(map[], m0, [], []), source);
    forall e | e in m0 && Reusable(e, env.locale) ensures e.textHash in c.byText {
      ByTextHashDomain(m0, env.locale, e.textHash);
    }
    MemoryOfGood(c, m0, m0, source);
  }

  lemma PendingDistinct(env: Env, source: seq<Pair>, disk: Disk)
    requires Sound(env) && DistinctKeys(source)
    ensures var pending := Decided(env, source, disk).pending;
      && DistinctItems(pending) && DistinctCacheKeys(pending)
      && forall item | item in pending :: item.cacheKey != "" &&
           exists p :: (p in source && item == ItemOf(env, p)
                        && VerdictOf(ContextOf(env, disk), LoadMemory(disk), p).Untranslated?)
  {
    DecidedIs(env, source, disk);
    PendingOfAt(ContextOf(env, disk), LoadMemory(disk), source);
    var pending := Decided(env, source, disk).pending;
    forall i, j | 0 <= i < j < |pending| ensures pending[i].cacheKey != pending[j].cacheKey {
      assert pending[i] in pending && pending[j] in pending;
      var p :| p in source && pending[i] == ItemOf(env, p);
      var q :| q in source && pending[j] == ItemOf(env, q);
      assert CacheInput(env.provider, env.model, env.locale, p.key, env.textHash(p.text)).key == p.key;
    }
  }

  /** With a provider: every pending key is stored, and no key is left as a fallback. */
  lemma SettledWithProvider(env: Env, source: seq<Pair>, disk: Disk, force: bool, values: seq<string>, now: string)
    requires Sound(env) && DistinctKeys(source) && env.allowTranslate && Completes(env, source, disk, values)
    ensures var d, l := Decided(env, source, disk), Settled(env, source, disk, force, values, now);
      && l == StoreAll(env, d, d.pending, values, now) && l.fallback == [] && GoodMemory(l.memory)
      && forall i | 0 <= i < |values| ::
           && d.pending[i].key in l.next && l.next[d.pending[i].key] == values[i]
           && MemGet(l.memory, d.pending[i].cacheKey) == Some(NewEntry(env, d.pending[i], values[i], now))
  {
    var c, m0, d := ContextOf(env, disk), LoadMemory(disk), Decided(env, source, disk);
    var stored := StoreAll(env, d, d.pending, values, now);
    DecidedIs(env, source, disk);
    PendingDistinct(env, source, disk);
    forall i | 0 <= i < |values|
      ensures d.pending[i].key in stored.next && stored.next[d.pending[i].key] == values[i]
        && MemGet(stored.memory, d.pending[i].cacheKey) == Some(NewEntry(env, d.pending[i], values[i], now))
    {
      assert values[i] in values;
      StoreAllAt(env, d, d.pending, values, now, i);
    }
    StoreAllElsewhere(env, d, d.pending, values, now);
    StoreAllGood(env, d, d.pending, values, now);
    FillNothing(c, force, stored, d.pending);
    NoneFlaggedWithProvider(env, source, disk);
  }

  lemma NoneFlaggedWithProvider(env: Env, source: seq<Pair>, disk: Disk)
    requires Sound(env) && DistinctKeys(source) && env.allowTranslate
    ensures Decided(env, source, disk).fallback == []
  {
    var c, m0, d := ContextOf(env, disk), LoadMemory(disk), Decided(env, source, disk);
    DecidedIs(env, source, disk);
    if d.fallback != [] {
      assert d.fallback[0] in d.fallback;
      FlaggedOfAt(c, m0, source, d.fallback[0]);
    }
  }

  /** Without one: the memory is what the key loop left, and the pending keys fall back to their source texts. */
  lemma SettledWithoutProvider(env: Env, source: seq<Pair>, disk: Disk, force: bool, values: seq<string>, now: string)
    requires Sound(env) && DistinctKeys(source) && !env.allowTranslate
    ensures var d, l := Decided(env, source, disk), Settled(env, source, disk, force, values, now);
      && l.memory == d.memory && l.fallback == d.fallback + KeysOf(d.pending)
      && (forall item | item in d.pending :: item.key in l.next && l.next[item.key] == item.text)
      && (forall k | forall i | 0 <= i < |d.pending| :: d.pending[i].key != k ::
            (k in l.next <==> k in d.next) && (k in l.next ==> l.next[k] == d.next[k]))
  {
    var c, m0, d := ContextOf(env, disk), LoadMemory(disk), Decided(env, source, disk);
    DecidedIs(env, source, disk);
    PendingDistinct(env, source, disk);
    forall item | item in d.pending ensures item.key !in d.next && item.key !in c.existing {
      var p :| p in source && item == ItemOf(env, p) && VerdictOf(c, m0, p).Untranslated?;
      NextOfAt(c, m0, map[], source, p);
    }
    FillFallsBack(c, force, d, d.pending);
  }

  lemma {:induction false} PairOfKey(pairs: seq<Pair>, p: Pair, q: Pair)
    requires DistinctKeys(pairs) && p in pairs && q in pairs && p.key == q.key
    ensures p == q
  {
    var i :| 0 <= i < |pairs| && pairs[i] == p;
    var j :| 0 <= j < |pairs| && pairs[j] == q;
  }

  /** A key the loop decided is left alone by everything that follows. */
  lemma SettledKeeps(env: Env, source: seq<Pair>, disk: Disk, force: bool, values: seq<string>, now: string, p: Pair)
    requires Sound(env) && DistinctKeys(source) && Completes(env, source, disk, values) && p in source
    requires !VerdictOf(ContextOf(env, disk), LoadMemory(disk), p).Untranslated?
    ensures var d, l := Decided(env, source, disk), Settled(env, source, disk, force, values, now);
      && p.key in l.next && p.key in d.next && l.next[p.key] == d.next[p.key]
      && MemGet(l.memory, CacheKeyOf(env, p.key, p.text)) == MemGet(d.memory, CacheKeyOf(env, p.key, p.text))
  {
    var c, m0, d := ContextOf(env, disk), LoadMemory(disk), Decided(env, source, disk);
    DecidedIs(env, source, disk);
    PendingDistinct(env, source, disk);
    NextOfAt(c, m0, map[], source, p);
    forall i | 0 <= i < |d.pending|
      ensures d.pending[i].key != p.key && d.pending[i].cacheKey != CacheKeyOf(env, p.key, p.text)
    {
      assert d.pending[i] in d.pending;
      var q :| q in source && d.pending[i] == ItemOf(env, q) && VerdictOf(c, m0, q).Untranslated?;
      if q.key == p.key {
        PairOfKey(source, p, q);
      }
      assert CacheInput(env.provider, env.model, env.locale, q.key, env.textHash(q.text)).key == q.key;
    }
    if env.allowTranslate {
      SettledWithProvider(env, source, disk, force, values, now);
      StoreAllElsewhere(env, d, d.pending, values, now);
    } else {
      SettledWithoutProvider(env, source, disk, force, values, now);
    }
  }

  /** Which keys are flagged after a completed sync: none with a provider; without one, the keys that were
    * reused while flagged and the keys that were left untranslated. */
  lemma FlaggedAfter(env: Env, source: seq<Pair>, disk: Disk, force: bool, values: seq<string>, now: string,
                     key: string)
    requires Sound(env) && DistinctKeys(source) && Completes(env, source, disk, values)
    ensures var c, m0 := ContextOf(env, disk), LoadMemory(disk);
      key in Settled(env, source, disk, force, values, now).fallback <==>
        !env.allowTranslate &&
        exists p :: (p in source && p.key == key && (StaysFlagged(c, m0, p) || VerdictOf(c, m0, p).Untranslated?))
  {
    var c, m0, d := ContextOf(env, disk), LoadMemory(disk), Decided(env, source, disk);
    DecidedIs(env, source, disk);
    PendingDistinct(env, source, disk);
    PendingOfAt(c, m0, source);
    FlaggedOfAt(c, m0, source, key);
    if env.allowTranslate {
      SettledWithProvider(env, source, disk, force, values, now);
    } else {
      SettledWithoutProvider(env, source, disk, force, values, now);
      if key in KeysOf(d.pending) {
        var i :| 0 <= i < |d.pending| && KeysOf(d.pending)[i] == key;
        assert d.pending[i] in d.pending;
      }
      if p :| p in source && p.key == key && VerdictOf(c, m0, p).Untranslated? {
        assert ItemOf(env, p) in d.pending;
        var i :| 0 <= i < |d.pending| && d.pending[i] == ItemOf(env, p);
        assert KeysOf(d.pending)[i] == key;
      }
    }
  }

  /** Every source key is recorded after a completed sync. */
  lemma KeyRecorded(env: Env, source: seq<Pair>, disk: Disk, force: bool, values: seq<string>, now: string, p: Pair)
    requires Sound(env) && DistinctKeys(source) && Completes(env, source, disk, values) && p in source
    ensures Recorded(env, Settled(env, source, disk, force, values, now), p)
  {
    var c, m0 := ContextOf(env, disk), LoadMemory(disk);
    var d, l := Decided(env, source, disk), Settled(env, source, disk, force, values, now);
    DecidedIs(env, source, disk);
    NextOfAt(c, m0, map[], source, p);
    MemoryOfGets(c, m0, m0, source, p);
    FlaggedAfter(env, source, disk, force, values, now, p.key);
    ByTextHashDomain(l.memory, env.locale, env.textHash(p.text));
    if VerdictOf(c, m0, p).Untranslated? {
      PendingOfAt(c, m0, source);
      var i :| 0 <= i < |d.pending| && d.pending[i] == ItemOf(env, p);
      if env.allowTranslate {
        SettledWithProvider(env, source, disk, force, values, now);
      } else {
        SettledWithoutProvider(env, source, disk, force, values, now);
      }
    } else {
      SettledKeeps(env, source, disk, force, values, now, p);
      if p.key in l.fallback {
        SettledWithoutProvider(env, source, disk, force, values, now);
        var q :| q in source && q.key == p.key && (StaysFlagged(c, m0, q) || VerdictOf(c, m0, q).Untranslated?);
        PairOfKey(source, p, q);
      }
    }
  }

  /** Exactly which keys end without a memory entry for their present text: those whose existing text was kept,
    * and without a provider those that fell back to the source. */
  lemma NoOwnEntryIff(env: Env, source: seq<Pair>, disk: Disk, force: bool, values: seq<string>, now: string, p: Pair)
    requires Sound(env) && DistinctKeys(source) && Completes(env, source, disk, values) && p in source
    ensures var v := VerdictOf(ContextOf(env, disk), LoadMemory(disk), p);
      MemGet(Settled(env, source, disk, force, values, now).memory, CacheKeyOf(env, p.key, p.text)).None? <==>
        v.Kept? || (v.Untranslated? && !env.allowTranslate)
  {
    hide AllNonBlank, NextOf, PendingOf, FlaggedOf, MemoryOf;
    var c, m0 := ContextOf(env, disk), LoadMemory(disk);
    var d := Decided(env, source, disk);
    DecidedIs(env, source, disk);
    MemoryOfGets(c, m0, m0, source, p);
    if VerdictOf(c, m0, p).Untranslated? {
      if env.allowTranslate {
        PendingOfAt(c, m0, source);
        var i :| 0 <= i < |d.pending| && d.pending[i] == ItemOf(env, p);
        SettledWithProvider(env, source, disk, force, values, now);
      } else {
        SettledWithoutProvider(env, source, disk, force, values, now);
      }
    } else {
      SettledKeeps(env, source, disk, force, values, now, p);
    }
  }

  /** With a provider a text may be older than its source: exactly an unflagged existing text without an entry for
    * the present source text is taken over as it is, and it stays unflagged. */
  lemma OldTextsAre(env: Env, source: seq<Pair>, disk: Disk, force: bool, values: seq<string>, now: string, p: Pair)
    requires Sound(env) && DistinctKeys(source) && Completes(env, source, disk, values) && p in source
    requires env.allowTranslate
    ensures var c, l := ContextOf(env, disk), Settled(env, source, disk, force, values, now);
      var cacheKey := CacheKeyOf(env, p.key, p.text);
      && (MemGet(l.memory, cacheKey).None? <==>
            p.key in c.existing && p.key !in c.previousFallback && MemGet(LoadMemory(disk), cacheKey).None?)
      && (MemGet(l.memory, cacheKey).None? ==>
            p.key in l.next && l.next[p.key] == c.existing[p.key] && p.key !in l.fallback)
  {
    hide AllNonBlank, NextOf, PendingOf, FlaggedOf, MemoryOf, Settled, Decided;
    NoOwnEntryIff(env, source, disk, force, values, now, p);
    if VerdictOf(ContextOf(env, disk), LoadMemory(disk), p).Kept? {
      SettledKeeps(env, source, disk, force, values, now, p);
      DecidedIs(env, source, disk);
      NextOfAt(ContextOf(env, disk), LoadMemory(disk), map[], source, p);
      FlaggedAfter(env, source, disk, force, values, now, p.key);
    }
  }

  // ----- the main results -----

  lemma SourceKeysDistinct(props: Props)
    requires WellFormed(props)
    ensures DistinctKeys(Flatten(props))
  {
    forall i, j | 0 <= i < j < |Flatten(props)| ensures Flatten(props)[i].key != Flatten(props)[j].key {
      FlatKeysPrefixFree(props, i, j);
    }
  }

  lemma {:induction false} ToMapAt(pairs: seq<Pair>, i: nat)
    requires DistinctKeys(pairs) && i < |pairs|
    ensures pairs[i].key in ToMap(pairs) && ToMap(pairs)[pairs[i].key] == pairs[i].text
  {
    if i < |pairs| - 1 {
      ToMapAt(pairs[..|pairs| - 1], i);
    }
  }

  ghost predicate AfterSync(env: Env, props: Props, disk: Disk, force: bool, values: seq<string>, now: string,
                            after: Disk)
  {
    var source := Flatten(props);
    Completes(env, source, disk, values) &&
    after == WriteFiles(disk, ExpectedFiles(env, source, disk, Settled(env, source, disk, force, values, now), now))
  }

  /** Loading what a sync wrote: the same texts, the same flags, and a memory with the same entries. */
  lemma Reload(env: Env, props: Props, disk: Disk, force: bool, values: seq<string>, now: string, after: Disk)
    requires Sound(env) && WellFormed(props) && AfterSync(env, props, disk, force, values, now, after)
    ensures var source, c := Flatten(props), ContextOf(env, after);
      var l := Settled(env, source, disk, force, values, now);
      && DistinctKeys(source)
      && (forall p | p in source :: p.key in l.next && p.key in c.existing && c.existing[p.key] == l.next[p.key])
      && (forall k :: k in c.previousFallback <==> k in l.fallback)
      && LoadMemory(after) == MemRender(l.memory, env.collate) && GoodMemory(l.memory)
      && (forall e :: e in LoadMemory(after) <==> e in l.memory)
  {
    var source := Flatten(props);
    var l := Settled(env, source, disk, force, values, now);
    SourceKeysDistinct(props);
    FlattenUndoesRebuild(props, l.next);
    var pairs := Retext(source, l.next);
    assert Flatten(LoadLocale(after)) == pairs;
    forall p | p in source
      ensures p.key in l.next && p.key in ToMap(pairs) && ToMap(pairs)[p.key] == l.next[p.key]
    {
      KeyRecorded(env, source, disk, force, values, now, p);
      var i :| 0 <= i < |source| && source[i] == p;
      ToMapAt(pairs, i);
    }
    DedupeElements(l.fallback);
    DedupedSorted(l.fallback, env.collate);
    DecidedIs(env, source, disk);
    if env.allowTranslate {
      SettledWithProvider(env, source, disk, force, values, now);
    } else {
      SettledWithoutProvider(env, source, disk, force, values, now);
    }
    RenderKeeps(l.memory, env.collate);
  }

  lemma DedupedSorted(keys: seq<string>, collate: (string, string) -> bool)
    ensures forall k :: k in Sort(Dedupe(keys), collate) <==> k in keys
  {
    DedupeElements(keys);
    forall k ensures k in Sort(Dedupe(keys), collate) <==> k in keys {
      SortMembers(Dedupe(keys), collate, k);
      assert k in Dedupe(keys) <==> k in Elements(Dedupe(keys));
      assert k in keys <==> k in Elements(keys);
    }
  }

  /** In the second sync every key is reused: from the memory when it has an own entry, else from the file. */
  lemma SecondVerdict(env: Env, props: Props, disk: Disk, force: bool, values: seq<string>, now: string, after: Disk,
                      p: Pair)
    requires Sound(env) && WellFormed(props) && AfterSync(env, props, disk, force, values, now, after)
    requires p in Flatten(props)
    ensures var c, m := ContextOf(env, after), LoadMemory(after);
      var l := Settled(env, Flatten(props), disk, force, values, now);
      var v := VerdictOf(c, m, p);
      && p.key in l.next
      && ((v.Cached? && v.entry.translated == l.next[p.key]) || v == Kept(l.next[p.key]))
  {
    var source := Flatten(props);
    var l := Settled(env, source, disk, force, values, now);
    Reload(env, props, disk, force, values, now, after);
    KeyRecorded(env, source, disk, force, values, now, p);
    FlaggedAfter(env, source, disk, force, values, now, p.key);
    SameEntriesSameGets(l.memory, LoadMemory(after), CacheKeyOf(env, p.key, p.text));
    ByTextHashDomain(l.memory, env.locale, env.textHash(p.text));
    ByTextHashDomain(LoadMemory(after), env.locale, env.textHash(p.text));
  }

  /** The key loop of the second sync leaves nothing pending and changes neither texts, flags nor memory. */
  lemma SecondDecided(env: Env, props: Props, disk: Disk, force: bool, values: seq<string>, now: string, after: Disk)
    requires Sound(env) && WellFormed(props) && AfterSync(env, props, disk, force, values, now, after)
    ensures var source := Flatten(props);
      var l, d := Settled(env, source, disk, force, values, now), Decided(env, source, after);
      && d.pending == [] && d.memory == LoadMemory(after)
      && (forall p | p in source :: p.key in l.next && p.key in d.next && d.next[p.key] == l.next[p.key])
      && (forall k :: k in d.fallback <==> k in l.fallback)
  {
    var source, c, m := Flatten(props), ContextOf(env, after), LoadMemory(after);
    var l, d := Settled(env, source, disk, force, values, now), Decided(env, source, after);
    Reload(env, props, disk, force, values, now, after);
    DecidedIs(env, source, after);
    forall p | p in source
      ensures VerdictOf(c, m, p).Cached? || VerdictOf(c, m, p).Kept?
      ensures p.key in l.next && p.key in d.next && d.next[p.key] == l.next[p.key]
    {
      SecondVerdict(env, props, disk, force, values, now, after, p);
      NextOfAt(c, m, map[], source, p);
    }
    AllReused(c, m, m, source);
    forall k ensures k in d.fallback <==> k in l.fallback {
      FlaggedOfAt(c, m, source, k);
      FlaggedAfter(env, source, disk, force, values, now, k);
    }
  }

  lemma {:induction false} AllReused(c: Context, m0: seq<TmEntry>, memory: seq<TmEntry>, pairs: seq<Pair>)
    requires forall p | p in pairs :: VerdictOf(c, m0, p).Cached? || VerdictOf(c, m0, p).Kept?
    ensures MemoryOf(c, m0, memory, pairs) == memory && PendingOf(c, m0, pairs) == []
    decreases |pairs|
  {
    if pairs != [] {
      assert pairs[0] in pairs;
      AllReused(c, m0, memory, pairs[1..]);
    }
  }

  lemma SameRetext(source: seq<Pair>, a: map<string, string>, b: map<string, string>)
    requires forall p | p in source :: p.key in a && p.key in b && a[p.key] == b[p.key]
    ensures Retext(source, a) == Retext(source, b)
  {
    forall i | 0 <= i < |source| ensures Retext(source, a)[i] == Retext(source, b)[i] {
      assert source[i] in source;
    }
  }

  /** Two lists of keys that are told apart sort alike if they have the same keys. */
  lemma SameFlags(collate: (string, string) -> bool, before: seq<string>, fallback: seq<string>)
    requires WeakOrder(collate) && forall k :: k in before <==> k in fallback
    requires forall k, m | k in before && m in before && k != m :: collate(k, m) || collate(m, k)
    ensures Sort(Dedupe(before), collate) == Sort(Dedupe(fallback), collate)
  {
    hide WeakOrder, Sort, Dedupe;
    DedupedComparable(before, collate);
    DedupedComparable(fallback, collate);
    SortsAlike(Dedupe(before), Dedupe(fallback), collate);
  }

  lemma DedupedComparable(keys: seq<string>, collate: (string, string) -> bool)
    requires forall k, m | k in keys && m in keys && k != m :: collate(k, m) || collate(m, k)
    ensures Comparable(Dedupe(keys), collate) && forall k :: k in Dedupe(keys) <==> k in keys
  {
    hide Dedupe;
    DedupeElements(keys);
    var once := Dedupe(keys);
    forall k ensures k in once <==> k in keys {
      assert k in once <==> k in Elements(once);
      assert k in keys <==> k in Elements(keys);
    }
    forall i, j | 0 <= i < j < |once| ensures Told(collate)(once[i], once[j]) {
      assert once[i] in once && once[j] in once && once[i] != once[j];
    }
  }

  /** Metadata that already says what a sync would say is kept, generation time included. */
  lemma SameMeta(env: Env, total: nat, previous: File<Meta>, before: seq<string>, fallback: seq<string>, now: string,
                 later: string)
    requires Sort(Dedupe(before), env.collate) == Sort(Dedupe(fallback), env.collate)
    ensures var meta := NextMeta(env, total, previous, before, now);
      NextMeta(env, total, Rendered(meta), fallback, later) == meta
  {
  }

  /** With a provider nothing is flagged; without one the flagged keys are keys of the source. */
  lemma FlagsTold(env: Env, source: seq<Pair>, disk: Disk, force: bool, values: seq<string>, now: string)
    requires Sound(env) && DistinctKeys(source) && Completes(env, source, disk, values)
    requires env.allowTranslate || KeysTold(env, source)
    ensures var flagged := Settled(env, source, disk, force, values, now).fallback;
      forall k, m | k in flagged && m in flagged && k != m :: env.collate(k, m) || env.collate(m, k)
  {
    hide Settled, Decided, Sound;
    var flagged := Settled(env, source, disk, force, values, now).fallback;
    if env.allowTranslate {
      SettledWithProvider(env, source, disk, force, values, now);
    } else {
      forall k | k in flagged ensures exists p :: p in source && p.key == k {
        FlaggedAfter(env, source, disk, force, values, now, k);
      }
    }
  }

  /** The second sync expects exactly the files the first one wrote. */
  lemma ExpectsTheSame(env: Env, props: Props, disk: Disk, force: bool, values: seq<string>, now: string, after: Disk,
                       force': bool, later: string)
    requires Sound(env) && WellFormed(props) && AfterSync(env, props, disk, force, values, now, after)
    requires env.allowTranslate || KeysTold(env, Flatten(props))
    ensures var source := Flatten(props);
      && Decided(env, source, after).pending == []
      && ExpectedFiles(env, source, after, Settled(env, source, after, force', [], later), later)
         == ExpectedFiles(env, source, disk, Settled(env, source, disk, force, values, now), now)
  {
    hide Flatten;
    var source := Flatten(props);
    var l, d := Settled(env, source, disk, force, values, now), Decided(env, source, after);
    SecondDecided(env, props, disk, force, values, now, after);
    SourceKeysDistinct(props);
    FlagsTold(env, source, disk, force, values, now);
    SameFlags(env.collate, l.fallback, d.fallback);
    assert Settled(env, source, after, force', [], later) == d;
    SameRetext(source, d.next, l.next);
    SameMeta(env, |source|, disk.meta, l.fallback, d.fallback, now, later);
    assert MemRender(d.memory, env.collate) == MemRender(l.memory, env.collate) by {
      Reload(env, props, disk, force, values, now, after);
      RenderKeeps(l.memory, env.collate);
    }
  }

  /** What a completed sync does to the disk and reports. */
  function SyncResult(env: Env, props: Props, disk: Disk, options: Options, values: seq<string>,
                      now: string): (Disk, Outcome)
    requires env.allowTranslate ==> |values| == |Decided(env, Flatten(props), disk).pending|
  {
    var source := Flatten(props);
    Conclude(env, disk, options,
      ExpectedFiles(env, source, disk, Settled(env, source, disk, options.force, values, now), now))
  }

  /** Sync is a fixed point of itself. After a completed sync that was asked to write, a second sync with
    * the same source and configuration has nothing to translate, expects exactly the files that are there
    * (texts, flags, metadata, glossary and memory), and so reports no change and leaves the disk alone,
    * whatever its options, with or without a provider. Without one the collation must tell the source's keys apart. */
  lemma SyncIsFixedPoint(env: Env, props: Props, disk: Disk, first: Options, values: seq<string>, now: string,
                         second: Options, later: string)
    requires Sound(env) && WellFormed(props) && Completes(env, Flatten(props), disk, values)
    requires env.allowTranslate || KeysTold(env, Flatten(props))
    requires first.write && !first.checkOnly
    ensures var after := SyncResult(env, props, disk, first, values, now).0;
      && Decided(env, Flatten(props), after).pending == []
      && var (same, outcome) := SyncResult(env, props, after, second, [], later);
         same == after && !outcome.changed && !outcome.wrote
         && outcome.fallbackCount == SyncResult(env, props, disk, first, values, now).1.fallbackCount
  {
    hide Flatten, WellFormed, Sound, Settled, Decided, KeysTold, ExpectedFiles;
    var source := Flatten(props);
    var e := ExpectedFiles(env, source, disk, Settled(env, source, disk, first.force, values, now), now);
    var after := SyncResult(env, props, disk, first, values, now).0;
    assert after == WriteFiles(disk, e);
    ExpectsTheSame(env, props, disk, first.force, values, now, after, second.force, later);
  }

  /** With a provider a completed sync flags nothing: as many keys are translated as there are. */
  lemma ProviderLeavesNoFallback(env: Env, props: Props, disk: Disk, force: bool, values: seq<string>, now: string)
    requires Sound(env) && WellFormed(props) && env.allowTranslate && Completes(env, Flatten(props), disk, values)
    ensures var source := Flatten(props);
      var meta := ExpectedFiles(env, source, disk, Settled(env, source, disk, force, values, now), now).meta;
      meta.fallbackKeys == [] && meta.translatedKeys == meta.totalKeys == |source|
  {
    SourceKeysDistinct(props);
    SettledWithProvider(env, Flatten(props), disk, force, values, now);
  }

  /** The rebuilt locale has exactly the source keys in source order, each with the text the sync decided,
    * and only source keys are flagged. */
  lemma ResultCoversTheSource(env: Env, props: Props, disk: Disk, force: bool, values: seq<string>, now: string)
    requires Sound(env) && WellFormed(props) && Completes(env, Flatten(props), disk, values)
    ensures var source := Flatten(props);
      var l := Settled(env, source, disk, force, values, now);
      var e := ExpectedFiles(env, source, disk, l, now);
      && |Flatten(e.locale)| == |source|
      && (forall i | 0 <= i < |source| :: source[i].key in l.next
            && Flatten(e.locale)[i] == Pair(source[i].key, l.next[source[i].key]))
      && (forall k | k in e.meta.fallbackKeys :: exists p :: p in source && p.key == k)
  {
    var source := Flatten(props);
    var l := Settled(env, source, disk, force, values, now);
    SourceKeysDistinct(props);
    FlattenUndoesRebuild(props, l.next);
    forall i | 0 <= i < |source| ensures source[i].key in l.next {
      KeyRecorded(env, source, disk, force, values, now, source[i]);
    }
    DedupedSorted(l.fallback, env.collate);
    forall k | k in l.fallback ensures exists p :: p in source && p.key == k {
      FlaggedAfter(env, source, disk, force, values, now, k);
    }
  }

  /** Without a provider: a flagged key loses its flag exactly when its text is in the memory under another
    * cache key but not under its own; an unflagged key gains one exactly when it is nowhere to be found. */
  lemma FlagsWithoutProvider(env: Env, props: Props, disk: Disk, force: bool, now: string, p: Pair)
    requires Sound(env) && WellFormed(props) && !env.allowTranslate && p in Flatten(props)
    ensures var source, c := Flatten(props), ContextOf(env, disk);
      var meta := ExpectedFiles(env, source, disk, Settled(env, source, disk, force, [], now), now).meta;
      var own := MemGet(LoadMemory(disk), CacheKeyOf(env, p.key, p.text)).Some?;
      var shared := env.textHash(p.text) in ByTextHash(LoadMemory(disk), env.locale);
      && (p.key in c.previousFallback ==> (p.key !in meta.fallbackKeys <==> shared && !own))
      && (p.key !in c.previousFallback ==> (p.key in meta.fallbackKeys <==> !own && !shared && p.key !in c.existing))
  {
    var source, c, m0 := Flatten(props), ContextOf(env, disk), LoadMemory(disk);
    SourceKeysDistinct(props);
    FlaggedAfter(env, source, disk, force, [], now, p.key);
    DedupedSorted(Settled(env, source, disk, force, [], now).fallback, env.collate);
    forall q | q in source && q.key == p.key ensures q == p {
      PairOfKey(source, p, q);
    }
  }
}
