# Verified models of OpenClaw's algorithms and state machines

This project models, in Dafny, the parts of the repository that decide something: the translation sync of the
control UI, the RPC client and the worker pools it and its sister scripts run on, two hand-written scanners, the
chain of startup respawns with its signal supervisor, and four compact algorithms from the release and bench
scripts. `dafny verify dfyconfig.toml` checks all of it.

Code that changes things in place is modelled by classes and loops whose contracts equate them with a
specification function. State machines are a pure `Step` function, a class whose methods refine it, and lemmas
about every run of steps. What the source promises is proved about those functions.

## What is modelled

**Translation sync** (`scripts/control-ui-i18n.ts`).
`TranslationTree` flattens a nested locale map to dotted keys and rebuilds it, with the names every object inherits;
`RoundTrip` says exactly which maps come back; `LocaleObjects` does the same with the cursor loop over mutable objects. `TranslationBatches` packs pending strings into prompts. `BatchTranslation` is
the retry-and-halve loop over an arbitrary backend. `RpcClient` is the serialised client as an event machine.
`BatchAttempts` reads retries and halvings off the log of attempts, `RpcAnswers` what callers are told off the events, and
`ClientDiscipline` joins the two sides: no reply is credited to another batch. `LocaleSync` says what a completed sync
leaves in the files, `LocaleSyncSpec` is a whole run with its four endings as a function, and `LocaleSyncRun` is the run
itself with its loops, one shared client and the writes. `LocaleSyncOutcome` says what any run does to the four files, in
terms of what is in them.

**Pools, the avatar memo and the JPEG walker** (`scripts/update-clawtributors.ts`,
`scripts/check-temp-path-guardrails.ts`).
`WorkerPool` interleaves workers that share one counter, in both forms the repository has. `VisibleEntries` puts the
promise memo into the interleaved state. `JpegHeader` walks the segments of sections B.1.1 and B.2.2 of ITU-T T.81.

**Scanners** (`scripts/check-temp-path-guardrails.ts`). `QuoteScanner` holds the two scanners and the quote automaton
they share; `QuoteRules` says what is quoted, nested and a top-level comma on the text itself.

**Startup** (`src/entry.respawn.ts`, `src/entry.compile-cache.ts`). `RespawnPlan` builds the two plans and follows
chains of processes; `RespawnConditions` says exactly when there is a plan; `RespawnSupervisor` is the parent with its signal bridge and two timers.

**Release and bench scripts.** `ProcessTree` sums CPU time over a process tree, `MarkerBlock` rewrites the lines
between two markers and `BlockText` spells out the text it writes, `SchemaRegistry` names schemas by structure, `SparkleBuild` and `Appcast` compute and check build
numbers, and `AppcastRules` gives every complaint its condition on items and dates.

`JsText`, `Separated`, `Sorting` and `Lists` hold the text, splitting, sorting and filtering behaviour of JavaScript that
the others share.

## What is found

- Keeping an RPC client after a failed prompt can credit a late reply to the next prompt
  (`RpcClient.KeepingAFailedClientMiscredits`); a prompt is safe to write exactly when every earlier one has had its
  `agent_end` (`RpcClient.SafeToWriteIff`). The sync discards a client after any failure, and that is enough
  (`ClientDiscipline.NoReplyIsCreditedToAnotherBatch`).
- Flattening and rebuilding gives a locale map back exactly when its names are distinct and dot-free, no nested object is
  empty, no object has the empty name at the top, no object has a name inherited from `Object.prototype`, and nothing has
  the name `__proto__` (`RoundTrip.RebuiltIff`). What the insertions of another map do to the objects outside it makes no
  difference (`RoundTrip.RoundTripIff`). `RoundTrip.DottedNameLosesText` and `RoundTrip.InheritedNameLosesText` are maps
  that lose a text.
- A check of a locale is a rehearsal: it touches no file, and reports a change exactly if the same run with leave to write
  would make one (`LocaleSyncOutcome.WritesOnlyWhenAsked`, `LocaleSyncOutcome.CheckRehearses`).
- A sync run with a provider fails exactly when the usable replies leave out a pending item; they cover a proper prefix of
  the pending items then, no item being translated twice (`LocaleSyncSpec.EndingsAre`).
- After a completed sync with a provider a second one changes nothing; without a provider neither, if the collation tells
  the keys of the source apart (`LocaleSync.SyncIsFixedPoint`).
- With a provider configured, an unflagged existing text whose source text has changed is taken over as it is and stays
  unflagged (`LocaleSync.OldTextsAre`).
- The branch of the pending loop that keeps an existing text when `--force` is not given is never taken in a sync that
  completes: with a provider every pending key has a translation, and without one a key with an existing text is not
  pending (`LocaleSync.SettledWithProvider`, `LocaleSync.SettledWithoutProvider`).
- Section B.1.1.2 of T.81 allows fill bytes before a marker; the JPEG walker takes the first of them for a marker.
  `JpegHeader.FillByteHidesFrame` is an image whose size is lost to one fill byte. Behind segments of any length without
  fill bytes, in a rest shorter than 0xC000 bytes whose markers are 0xC0 or above, it finds the frame exactly when there
  is no fill byte before it, and nothing otherwise (`JpegHeader.FoundIffNoFill`).
- The splitter gives a comma-joined list of arguments back exactly when all are trimmed, all but the last are closed, and
  the last is not empty and has no top-level comma (`QuoteScanner.SplitUndoesJoinIff`).
- A marker block is rewritten idempotently exactly when its end marker occurs neither in its start marker nor in an
  indented replacement line; otherwise the text grows with every use (`MarkerBlock.IdempotentIff`).
- A chain of startup respawns has at most four processes, a bound that is met, and at most three while certificates
  and argument policy hold still (`RespawnPlan.ChainsAreShort`, `RespawnPlan.BoundIsMet`,
  `RespawnPlan.SteadyChainsAreShorter`).

## Model

| member | source | states |
|---|---|---|
| `TranslationTree.RebuildUndoesFlatten` | scripts/control-ui-i18n.ts:328-355 | for maps with distinct dot-free names, no empty nested object, no object under an inherited name or under the empty name at the top, and nothing under `__proto__`, inserting every flattened pair gives back the map, property order included |
| `RoundTrip.RebuiltIff` | scripts/control-ui-i18n.ts:328-355 | and for no other maps |
| `RoundTrip.RoundTripIff` | scripts/control-ui-i18n.ts:340-355 | the same whatever an insertion that leaves the map does to the names later lookups inherit |
| `RoundTrip.OneTextAtMost` | scripts/control-ui-i18n.ts:340-355 | an insertion adds at most one text, and in a tidy map one only if it replaces nothing, stays inside the map and does not assign `__proto__` |
| `TranslationTree.FlattenUndoesRebuild` | scripts/control-ui-i18n.ts:1618-1621 | flattening a map rebuilt with other texts returns exactly those texts under the same keys |
| `TranslationTree.FlatKeysPrefixFree` | scripts/control-ui-i18n.ts:328-338 | flat keys are distinct and none is the dotted prefix of another, so no insertion overwrites an earlier one |
| `TranslationTree.FlattenIntoAppends` | scripts/control-ui-i18n.ts:328-338 | flattening below a prefix appends one pair per leaf, in order, keyed by the dotted path |
| `TranslationTree.SplitJoin` | scripts/control-ui-i18n.ts:340-341 | splitting a dotted key at its dots recovers the path it was joined from |
| `RoundTrip.DottedNameLosesText` | scripts/control-ui-i18n.ts:340-355 | one map outside that condition: with a dot inside a name a text is lost on the round trip |
| `RoundTrip.InheritedNameLosesText` | scripts/control-ui-i18n.ts:344-353 | an object under any of the twelve inherited names is lost, for the cursor leaves the map; under any other name it comes back |
| `LocaleObjects.StoreRefines` | scripts/control-ui-i18n.ts:340-355 | the cursor's assignments change the tree below the root as the pure insertion says, share no object, and touch only objects below the cursor |
| `LocaleObjects.LocaleBuilder.SetNestedValue` | scripts/control-ui-i18n.ts:340-355 | the in-place cursor loop gives the pure insertion's tree, which stays as it is when the cursor leaves the map by an inherited name |
| `LocaleObjects.BuildLocaleMap` | scripts/control-ui-i18n.ts:1618-1621 | the loop over all pairs builds the rebuilt tree |
| `LocaleObjects.FlattenTranslations` | scripts/control-ui-i18n.ts:328-338 | the recursive in-place flattening fills the map as the pure flattening says |
| `TranslationBatches.BuildTranslationBatches` | scripts/control-ui-i18n.ts:1114-1138 | the loop with its running size computes the greedy batches |
| `TranslationBatches.GreedyIsPartition` | scripts/control-ui-i18n.ts:914-916 | the batches concatenate to the items in order, none is empty, each has at most 20 items, and any of two or more fits the budget |
| `TranslationBatches.GreedyIsOptimal` | scripts/control-ui-i18n.ts:1114-1138 | no contiguous partition under the same limits has fewer batches |
| `TranslationBatches.BatchesAreFull` | scripts/control-ui-i18n.ts:914-1138 | in numbers: 1 to 20 items a batch, 2 + 10 characters an item besides keys and texts within the budget from two items on, and the first item of the next batch would break a limit |
| `BatchTranslation.ClientAccess.TranslateBatch` | scripts/control-ui-i18n.ts:1381-1443 | the retry loop with its recursion and shared client equals the recursive specification |
| `BatchTranslation.TranslateBounded` | scripts/control-ui-i18n.ts:1381-1443 | a batch of n >= 1 keys costs at most 4n - 2 prompts, whatever the backend does |
| `BatchTranslation.BoundAttained` | scripts/control-ui-i18n.ts:1381-1443 | against the worst backend it costs exactly 4n - 2 prompts and succeeds |
| `BatchTranslation.WorstBackendIsWorst` | scripts/control-ui-i18n.ts:1381-1443 | such a backend exists for every batch |
| `BatchTranslation.TranslateAccounts` | scripts/control-ui-i18n.ts:1396-1430 | a batch fails, or returns exactly the requested keys, each with a non-blank text from the reply to a sub-batch that contained it |
| `BatchTranslation.TranslateCovers` | scripts/control-ui-i18n.ts:1381-1443 | the item lists of the prompts with a usable reply, in order, are exactly the batch if it succeeds and a proper prefix of it if it fails: no item is translated twice |
| `BatchTranslation.TranslateTexts` | scripts/control-ui-i18n.ts:1396-1430 | without repeated keys the texts of a batch are those of its usable replies, item by item |
| `BatchTranslation.TranslateFails` | scripts/control-ui-i18n.ts:1381-1443 | a batch that is given up carries the error of its last attempt, a missing client included |
| `BatchTranslation.TranslateDiscards` | scripts/control-ui-i18n.ts:1527-1542 | over one client every prompt but its last succeeded, and a client still in use never failed |
| `BatchAttempts.AttemptsAre` | scripts/control-ui-i18n.ts:1389-1441 | the first attempt is for the whole batch; after a timeout on n >= 2 items the very next one is for the first (n + 1) / 2 of them, after a timeout on one item there is none; any other error is followed by exactly one more for the same items |
| `BatchAttempts.TranslateLogs` | scripts/control-ui-i18n.ts:1391-1412 | attempts are numbered on; each prompts unless it needs a client and cannot have one, a client being there exactly after a success; the prompts sent are the attempts that prompt |
| `BatchAttempts.UsableIff` | scripts/control-ui-i18n.ts:1396-1407 | a reply is usable exactly if it has a non-blank text for every item, and otherwise the error names the first item without one |
| `RpcClient.PiRpcClient.RunNextPrompt` | scripts/control-ui-i18n.ts:1269-1334 | the next callback of the promise chain does one `Turn` step: start a prompt, or reject it on a closed client |
| `RpcClient.PiRpcClient.HandleStdoutLine` | scripts/control-ui-i18n.ts:1221-1267 | a line from the process does its step: settle, mark or ignore |
| `RpcClient.PiRpcClient.HandleTimeout` | scripts/control-ui-i18n.ts:1289-1301 | an expired timer does its step: close the client, then reject its own prompt |
| `RpcClient.PiRpcClient.HandleProcessClose` | scripts/control-ui-i18n.ts:1197-1202 | process close does its step: closed, pending prompt rejected |
| `RpcClient.RunConsistent` | scripts/control-ui-i18n.ts:1140-1348 | in every run calls settle in call order, prompts are written in call order, and the one pending prompt is the one armed timeout |
| `RpcClient.AtMostOneInFlight` | scripts/control-ui-i18n.ts:1269-1334 | a written prompt is unsettled exactly if it is the pending one |
| `RpcAnswers.SettlesAs` | scripts/control-ui-i18n.ts:1183-1348 | in every reachable state what one more event settles, closes and writes: `agent_end` resolves the pending prompt with its own translation or rejects it with its own error, each other end has its own words, and nothing else settles anything |
| `RpcAnswers.RunKeeps` | scripts/control-ui-i18n.ts:1269-1334 | every call is written with its own message |
| `RpcAnswers.TranslationsAreAnswers` | scripts/control-ui-i18n.ts:1256-1264 | whatever a caller gets for a translation is what the `agent_end` line it is credited with carried, never an error |
| `RpcClient.HistoryGrows` | scripts/control-ui-i18n.ts:1336-1347 | nothing un-settles, and after close nothing is written |
| `RpcClient.NeverStuck` | scripts/control-ui-i18n.ts:1269-1334 | in every reachable state with an unsettled call the next turn and timeout settle one more |
| `RpcClient.DiscardingCallerIsSafe` | scripts/control-ui-i18n.ts:1221-1267 | if the process answers in order and no prompt starts after a failure, every translation is credited to its own prompt |
| `ClientDiscipline.CarefulIsDisciplined` | scripts/control-ui-i18n.ts:1396-1410 | a caller that awaits every prompt and asks none after a failure starts none after a failure |
| `ClientDiscipline.ReachFailsOnce` | scripts/control-ui-i18n.ts:1381-1443 | however batches and resets follow each other, only the last prompt of a client can have failed |
| `ClientDiscipline.SyncReaches` | scripts/control-ui-i18n.ts:1521-1594 | a sync uses its clients by batches and resets only |
| `ClientDiscipline.NoReplyIsCreditedToAnotherBatch` | scripts/control-ui-i18n.ts:1140-1348 | for each client of such a use and every run that serves its prompts, each translation is the text of the `agent_end` line that answers the prompt of its own batch |
| `RpcClient.KeepingAFailedClientMiscredits` | scripts/control-ui-i18n.ts:1221-1267 | counterexample: a kept client credits a late answer to the next prompt |
| `RpcClient.SafeToWriteIff` | scripts/control-ui-i18n.ts:1275-1313 | another prompt is safe in all causal runs exactly when all earlier prompts have had their `agent_end` |
| `LocaleSync.RenderKeeps` | scripts/control-ui-i18n.ts:485-514 | rendering the memory keeps its entries, and loading a rendering renders identically, also where the collation finds cache keys equal |
| `LocaleSync.ByTextHashDomain` | scripts/control-ui-i18n.ts:516-528 | the index holds a text hash exactly if some entry for the locale with a non-blank text has it |
| `LocaleSync.DecideAllIs` | scripts/control-ui-i18n.ts:1478-1519 | copies made for one key never disturb the decision for another: the loop is one verdict per key |
| `LocaleSync.SettledWithProvider` | scripts/control-ui-i18n.ts:1544-1571 | with a provider every pending key is stored with its translation and no key is a fallback |
| `LocaleSync.SettledWithoutProvider` | scripts/control-ui-i18n.ts:1595-1608 | without one the pending keys fall back to their source texts and the memory stays |
| `LocaleSync.FlaggedAfter` | scripts/control-ui-i18n.ts:1478-1519 | exactly which keys are flagged after a completed sync |
| `LocaleSync.KeyRecorded` | scripts/control-ui-i18n.ts:1478-1608 | every source key has a text, its own memory entry carries that text, and a flagged key without one has no text-hash entry either |
| `LocaleSync.NoOwnEntryIff` | scripts/control-ui-i18n.ts:1478-1519 | exactly which keys end without a memory entry for their present text: those whose existing text was kept, and without a provider those that fell back |
| `LocaleSync.OldTextsAre` | scripts/control-ui-i18n.ts:1506-1512 | with a provider these are exactly the unflagged existing texts without an entry for the present source text, taken over as they are |
| `LocaleSync.SyncIsFixedPoint` | scripts/control-ui-i18n.ts:1452-1715 | after a completed writing sync a second one has nothing pending and expects exactly the files that are there, with a provider always, and without one if the collation tells the source's keys apart |
| `LocaleSync.ProviderLeavesNoFallback` | scripts/control-ui-i18n.ts:1623-1659 | a completed sync with a provider leaves no fallback key, so translated equals total |
| `LocaleSync.ResultCoversTheSource` | scripts/control-ui-i18n.ts:1618-1659 | the result has exactly the source keys in source order, and fallback keys are among them |
| `LocaleSync.FlagsWithoutProvider` | scripts/control-ui-i18n.ts:1478-1519 | without a provider a flagged key loses its flag exactly when its text hash but not its own cache key is in the memory |
| `LocaleSyncRun.DecideKeys` | scripts/control-ui-i18n.ts:1478-1519 | the key loop computes the specified decisions |
| `LocaleSyncSpec.TranslateAllTraced` | scripts/control-ui-i18n.ts:1545-1571 | the batches together give each pending item one non-blank text, out of the reply to a prompt for its key |
| `LocaleSyncSpec.TranslateAllDiscards` | scripts/control-ui-i18n.ts:1527-1542 | over all batches a client that failed once is not used again |
| `LocaleSyncSpec.EndingsAre` | scripts/control-ui-i18n.ts:1571-1715 | with a provider a run fails exactly when the usable replies to the prompts it sent leave out a pending item, and they cover a proper prefix then; the failure is the error of the last attempt, skipped if the provider is optional and that error refuses the credentials; otherwise the run is done or refused for its placeholders; only a run that is done touches a file, without provider or pending keys no client is touched, and otherwise none is left open |
| `LocaleSyncSpec.FetchedTexts` | scripts/control-ui-i18n.ts:1545-1571 | the texts of a completed translation step are those of the usable replies, item by item over all batches |
| `LocaleSyncSpec.TextsHaveSources` | scripts/control-ui-i18n.ts:1478-1571 | every entry of the memory a run leaves carries a text that was there before for the same text hash, or the translation of a pending item out of a reply to a prompt for it |
| `LocaleSyncSpec.SecondRunIsDone` | scripts/control-ui-i18n.ts:1452-1715 | after a writing run that is done the next one is done as well: no prompt, same files, reported unchanged (without a provider: if the collation tells the source's keys apart) |
| `LocaleSyncOutcome.WritesOnlyWhenAsked` | scripts/control-ui-i18n.ts:1675-1715 | a run that only checks or was not asked to write leaves every file alone, and a run that is done reports `wrote` exactly if some file is different afterwards |
| `LocaleSyncOutcome.CheckRehearses` | scripts/control-ui-i18n.ts:1669-1715 | what any run reports as changed is what the same run with leave to write would change |
| `LocaleSyncOutcome.RunLeaves` | scripts/control-ui-i18n.ts:1478-1705 | what a run that is done and may write leaves in the four files: the text of every source key and its own memory entry field by field, all other entries, the flags, the metadata and their date, and the glossary |
| `LocaleSyncOutcome.RunAsks` | scripts/control-ui-i18n.ts:1501-1550 | every attempt of a run fits one prompt and asks only for source keys for which the files have no text that will do |
| `LocaleSyncOutcome.PlaceholdersDecide` | scripts/control-ui-i18n.ts:1615 | a run with all its translations is done if every text has the placeholders of its source and refused if one has not |
| `LocaleSyncOutcome.TranslationServesOthers` | scripts/control-ui-i18n.ts:1478-1571 | a text translated in one run is never pending in a later one for another key with the same text |
| `LocaleSyncOutcome.LoadedAre` | scripts/control-ui-i18n.ts:485-504 | loading the memory keeps of each cache key the last line that has one and a translation |
| `LocaleSyncOutcome.AuthErrorIff` | scripts/control-ui-i18n.ts:877-885 | an error refuses the credentials exactly if one of four texts occurs in it in any case |
| `LocaleSyncRun.StoreBatch` | scripts/control-ui-i18n.ts:1552-1571 | exactly the batch's translations are stored under their items, blanks passed over |
| `LocaleSyncRun.TranslatePending` | scripts/control-ui-i18n.ts:1521-1594 | the loop over the batches is the fold of translations over the greedy batches, client and error included |
| `LocaleSyncRun.SyncLocale` | scripts/control-ui-i18n.ts:1452-1715 | files, client and ending of a run are those of the pure run |
| `LocaleSyncRun.SyncTwice` | scripts/control-ui-i18n.ts:1452-1715 | two runs in a row, under the same condition: if the first is done, so is the second, with no prompt and no change |
| `WorkerPool.Pool.TakeIndex` | scripts/update-clawtributors.ts:497-501 | the code between two awaits that claims an index is one `Take` step |
| `WorkerPool.EveryRun` | scripts/update-clawtributors.ts:490-506 | in every interleaving indices are claimed in order and once, no two workers hold the same one, runs are bounded, and no state is stuck |
| `WorkerPool.PoolIsSequential` | scripts/update-clawtributors.ts:490-506 | an ended pool is fulfilled exactly when no mapper throws, and then equals the sequential map in order |
| `WorkerPool.InFlightBounded` | scripts/update-clawtributors.ts:497-504 | for every job, in every interleaving, no more mapper calls are in flight than the job has workers |
| `WorkerPool.PoolsStayWithinLimits` | scripts/check-temp-path-guardrails.ts:256-262 | so at most max(1, min(limit, n)) in the mapping pool and max(1, min(24, n)) in the file-reading pool |
| `WorkerPool.CounterIs` | scripts/check-temp-path-guardrails.ts:228-233 | in every run the shared counter is the number of claims, in the form that takes before it looks plus the workers that have ended |
| `WorkerPool.ReadsInInputOrder` | scripts/check-temp-path-guardrails.ts:223-263 | the second pool yields exactly the readable files in input order |
| `VisibleEntries.AvatarMemo.IsDefaultGitHubAvatar` | scripts/update-clawtributors.ts:439-451 | the memo answers from its map or starts one probe and remembers it |
| `VisibleEntries.DecideFromProbesOnce` | scripts/update-clawtributors.ts:439-451 | however the memo is asked, each normalised login is probed at most once |
| `VisibleEntries.DecisionsAgree` | scripts/update-clawtributors.ts:472-488 | every decision agrees with the one finding of its login |
| `VisibleEntries.EveryRunProbesOnce` | scripts/update-clawtributors.ts:439-451 | in every interleaving, at every moment, the memo was asked for the claimed entries in their order and each login was probed at most once |
| `VisibleEntries.AtMostEightAwaited` | scripts/update-clawtributors.ts:476 | at most eight probes are awaited at once |
| `VisibleEntries.VisibleInOrder` | scripts/update-clawtributors.ts:472-506 | in every interleaving that has ended the visible entries are those the one probe of each login shows, in input order |
| `JpegHeader.ReadJpegDimensions` | scripts/update-clawtributors.ts:546-590 | on every byte list the loop reads only in bounds, ends, and computes the specified walk |
| `JpegHeader.WalkFindsFrame` | scripts/update-clawtributors.ts:546-590 | after segments and standalone markers the result is the first frame's height and width |
| `JpegHeader.WalkIsSound` | scripts/update-clawtributors.ts:546-590 | a size only comes from a complete header behind a frame marker |
| `JpegHeader.ReadFindsFrame` | scripts/update-clawtributors.ts:546-590 | the same for a whole stream from SOI on |
| `JpegHeader.FillByteHidesFrame` | scripts/update-clawtributors.ts:556-572 | an image whose size is found, and not found behind one fill byte |
| `JpegHeader.FoundIffNoFill` | scripts/update-clawtributors.ts:546-590 | behind segments of any length without fill bytes, with any fill bytes before the segments and frame after them, in fewer than 256 * low bytes with markers of at least low: the first frame's size exactly when there is no fill byte, and nothing otherwise |
| `JpegHeader.ReadIffNoFill` | scripts/update-clawtributors.ts:546-590 | the same for a whole stream from SOI on, the part after the fill-free segments shorter than 0xC000 bytes with markers from 0xC0 |
| `QuoteScanner.FindMatchingParen` | scripts/check-temp-path-guardrails.ts:72-95 | the result is the least later index where unquoted parentheses balance, and -1 means there is none |
| `QuoteScanner.SplitTopLevelArguments` | scripts/check-temp-path-guardrails.ts:97-162 | the loop computes the trimmed pieces of the specified scan |
| `QuoteScanner.SplitterFollowsFinder` | scripts/check-temp-path-guardrails.ts:191-194 | between a parenthesis and its match the quote states agree, the splitter's depth is the finder's minus one, and the clamp is never needed |
| `QuoteScanner.PiecesRejoin` | scripts/check-temp-path-guardrails.ts:97-162 | for any input the untrimmed pieces rejoin to the input, a blank last piece dropped from the result |
| `QuoteScanner.SplitUndoesJoinIff` | scripts/check-temp-path-guardrails.ts:97-162 | splitting a comma-joined list returns it exactly when all arguments are trimmed, all but the last are closed, and the last is not empty and has no top-level comma |
| `QuoteRules.QuoteIs` | scripts/check-temp-path-guardrails.ts:36-70 | every text reads as plain characters and quoted pieces that end at the first mark with an even number of backslashes before it, and the quote state is whether and with which mark the reading is left open |
| `QuoteRules.DepthIs` | scripts/check-temp-path-guardrails.ts:72-95 | the finder's depth counts the parentheses outside quotes |
| `QuoteRules.DepthsAre` | scripts/check-temp-path-guardrails.ts:114-151 | the splitter's depths are the brackets of each kind open outside quotes, one that closes nothing being passed over |
| `QuoteRules.CutsAre` | scripts/check-temp-path-guardrails.ts:152-156 | a piece ends exactly at a comma outside quotes and outside all brackets |
| `RespawnPlan.BuildCliRespawnPlan` | src/entry.respawn.ts:61-128 | the builder with its edited copies computes the specified plan |
| `RespawnConditions.CliPlanIff` | src/entry.respawn.ts:61-128 | exactly when there is a CLI plan, on variables, options and arguments: not exempt, not switched off, not on Windows, and certificates or the warning need it; and everything the plan contains |
| `RespawnConditions.CachePlanIff` | src/entry.compile-cache.ts:104-138 | exactly when there is a compile-cache plan, and everything it contains |
| `RespawnConditions.DecisionIs` | src/entry.ts:85-122 | the compile cache comes first, the CLI only without a cache plan |
| `RespawnConditions.OptedOutChains` | src/entry.respawn.ts:77-86 | with respawning switched off, or on Windows, a chain has no CLI respawn and at most two processes |
| `RespawnPlan.RespawnSetsMarker` | src/entry.respawn.ts:92-119 | every respawn sets a marker that was not set, and none unsets one |
| `RespawnPlan.ChainsAreShort` | src/entry.compile-cache.ts:104-138 | any chain has at most one compile-cache and at most two CLI respawns |
| `RespawnPlan.ChainsKeepArguments` | src/entry.respawn.ts:112-128 | along a chain the arguments after the script stay, and the warning flag is added at most once and never twice |
| `RespawnPlan.ChildArguments` | src/entry.compile-cache.ts:130-137 | what one plan does to options, script and arguments of the child |
| `RespawnPlan.SteadyChainsAreShorter` | src/entry.respawn.ts:92-119 | while certificates and argument policy hold still there is at most one CLI respawn |
| `RespawnPlan.BoundIsMet` | src/entry.respawn.ts:61-128 | a chain with one compile-cache and two CLI respawns exists |
| `RespawnPlan.ChainsKeepVariables` | src/entry.compile-cache.ts:125-130 | along a whole chain a variable that no entry point touches and no plan sets or removes keeps its value |
| `RespawnPlan.RespawnServesItsReason` | src/entry.respawn.ts:92-119 | a cache child neither has nor requests a compile cache; a CLI child has the certificates and the suppressed warning it was respawned for |
| `RespawnPlan.ShimIsReplaced` | src/entry.respawn.ts:34-44 | a version manager's shim is replaced by `node` whatever its directory, case and trailing slashes, any other executable is kept |
| `RespawnSupervisor.Supervisor.OnSignal` | src/process/child-process-bridge.ts:24-32 | a signal schedules the exit once and is then passed on |
| `RespawnSupervisor.Supervisor.RequestChildTermination` | src/entry.respawn.ts:163-175 | the first timer sends SIGTERM and arms the second |
| `RespawnSupervisor.Supervisor.OnChildExit` | src/entry.compile-cache.ts:212-218 | both copies of the exit handler do the same step |
| `RespawnSupervisor.RunConsistent` | src/entry.respawn.ts:143-207 | in every run SIGTERM and force kill go out at most once, a grace period apart and in that order, signals are all passed on, and the parent is gone two grace periods after the first |
| `RespawnSupervisor.ChildIsSent` | src/entry.respawn.ts:156-175 | in every run exactly which signals the child is sent, in which order and when: those that come, SIGTERM, and SIGKILL or on Windows SIGTERM |
| `RespawnSupervisor.NoTimerOutlivesTheParent` | src/entry.respawn.ts:146-155 | once the parent has exited no timer is armed |
| `RespawnSupervisor.PunctualTimes` | src/entry.compile-cache.ts:173-235 | with punctual timers: SIGTERM at 1000 ms, force kill and exit at 2000 ms after the first signal |
| `RespawnSupervisor.ExitsOnce` | src/entry.respawn.ts:190-205 | the parent exits by the last event or not at all, with the child's code on a normal exit and 1 otherwise; no kill follows child exit or error |
| `RespawnSupervisor.TimeEndsTheParent` | src/entry.respawn.ts:163-184 | from every moment after a signal the clock and the two timers alone lead to an exit with code 1 |
| `RespawnSupervisor.RepeatedSignalsChangeNothing` | src/entry.respawn.ts:176-184 | leaving out all signals after the first changes neither timers, own kills nor exit |
| `ProcessTree.ReadProcessTreeCpuMs` | scripts/bench-gateway-startup.ts:636-672 | for any table the stack loop ends and returns the CPU sum over the pids reachable from the root through non-zero pids, each once |
| `ProcessTree.BuildTable` | scripts/bench-gateway-startup.ts:636-654 | the maps hold the last CPU time of each pid and all children of each parent |
| `ProcessTree.TreeIsLeast` | scripts/bench-gateway-startup.ts:659-671 | the reachable pids are the least set that holds the root and is closed under non-zero children |
| `ProcessTree.SumRowByRow` | scripts/bench-gateway-startup.ts:650-667 | the sum is the sum of the tree's rows when no pid is listed twice, and never more |
| `MarkerBlock.ReplacesByLine` | scripts/sync-moonshot-docs.ts:15-51 | the rewrite by text indices is the rewrite of whole lines between splitting and joining, failures included |
| `MarkerBlock.UseByLines` | scripts/sync-moonshot-docs.ts:38-50 | lines before the start line and after the end line are untouched, except that a final newline right after the end line is dropped |
| `BlockText.TextAfterUse` | scripts/sync-moonshot-docs.ts:21-50 | for any text, with the first start marker, the first end marker from there on and their lines: what stands before the start marker on its line is put before the markers and every line, which keep their order, and the rest stays |
| `BlockText.FailsWithoutPlaces` | scripts/sync-moonshot-docs.ts:21-28 | a use fails exactly without such places, and names the missing marker |
| `BlockText.BlockStands` | scripts/sync-moonshot-docs.ts:40-50 | the lines of the result: line by line the markers and the replacement lines behind the indent, and the lines around them |
| `MarkerBlock.IdempotentIff` | scripts/sync-moonshot-docs.ts:15-51 | a second use succeeds, and changes nothing exactly when the end marker is neither in the start marker nor in an indented line; otherwise the text grows |
| `MarkerBlock.UseKeepsStanding` | scripts/sync-moonshot-docs.ts:89-107 | a use whose lines lie apart leaves another block standing |
| `MarkerBlock.SecondRoundChangesNothing` | scripts/sync-moonshot-docs.ts:89-107 | if each use finds its markers, is clean and keeps apart from the blocks before it, going through all uses once more changes nothing |
| `MarkerBlock.ReadyUsesSettle` | scripts/sync-moonshot-docs.ts:89-107 | the same from a condition on the first text alone: every use is found and clean, no two overlap, and none brings in another's start marker |
| `SchemaRegistry.StableIffEquivalent` | scripts/protocol-gen-swift.ts:103-117 | canonical values are equal exactly for values equal up to key order at every depth |
| `SchemaRegistry.SignatureIffEquivalent` | scripts/protocol-gen-swift.ts:119-121 | the same for signatures |
| `SchemaRegistry.Registry.RegisterNamedSchema` | scripts/protocol-gen-swift.ts:123-135 | the two maps and the set of duplicates keep up with the registrations |
| `SchemaRegistry.Registry.NamedSchema` | scripts/protocol-gen-swift.ts:137-142 | lookup by identity first, by structure only if allowed |
| `SchemaRegistry.StructuralNameIffUnique` | scripts/protocol-gen-swift.ts:123-142 | structure gives a name exactly when one and only one registered schema equals the given one up to key order |
| `SchemaRegistry.StructuralNameIgnoresOrder` | scripts/protocol-gen-swift.ts:123-135 | the structural name does not depend on the order of registrations |
| `SparkleBuild.MatchIff` | scripts/sparkle-build.ts:12-20 | the pattern matches exactly the texts put together from its groups, and finds those |
| `SparkleBuild.MatchesVersions` | scripts/sparkle-build.ts:12-20 | the same, the texts spelt out character by character |
| `SparkleBuild.FloorsAreArithmetic` | scripts/sparkle-build.ts:22-51 | a text has floors exactly when it denotes a date, and joining digit strings is year*10^6 + month*10^4 + day*100 + lane |
| `SparkleBuild.LaneOfSuffix` | scripts/sparkle-build.ts:39-48 | the lane of a suffix is the number at its end capped at 89, or 1 |
| `SparkleBuild.BuildsOrderLexicographically` | scripts/sparkle-build.ts:54-57 | canonical builds compare as (year, month, day, lane) |
| `SparkleBuild.ReleaseIsAboveItsDay` | scripts/sparkle-build.ts:39-51 | a release stands above every suffixed version of its day |
| `SparkleBuild.FloorsStraddleLaneBuildMin` | scripts/sparkle-build.ts:36-51 | legacy floors are below 10^9, and lane floors are at or above it exactly from year 1000 on |
| `Appcast.CollectErrors` | scripts/release-check.ts:608-665 | both loops compute the specified errors |
| `Appcast.AdoptionIsLaneEra` | scripts/release-check.ts:642-649 | the sorted and capped date means: late enough, or no earlier than an item with a lane build |
| `Appcast.PassesIff` | scripts/release-check.ts:608-665 | exactly which appcasts pass |
| `AppcastRules.ErrorsAre` | scripts/release-check.ts:608-665 | exactly which complaints are made, on the items' tags and the dates their versions denote |
| `AppcastRules.PassesOn` | scripts/release-check.ts:608-665 | exactly which appcasts pass: there are items, each has a build number, and none with a calendar version is below the floor of its date |
| `Appcast.ErrorsIgnoreOrder` | scripts/release-check.ts:608-665 | the multiset of errors does not depend on item order |

## Left out

- Locale objects: properties are kept in insertion order, so names that look like array indices, which JavaScript lists
  first, are not modelled. An insertion that leaves the map leaves the map alone; what it does to the shared object it
  arrives at, where an assignment can also fail, is not modelled.
- `TranslationBatches.BuildTranslationBatches`: the character budget is an integer, so a fractional budget stands for its
  floor, which gives the same comparisons.
- `ClientDiscipline.NoReplyIsCreditedToAnotherBatch`: the two logs are tied by what a usable answer is, a prompt the client
  resolved; how the text of a prompt is made is a parameter.
- `RpcClient.PiRpcClient.HandleStdoutLine`: a line that holds the JSON value `null` makes the handler of the source throw
  while a prompt is pending, unawaited by anyone; the model ignores such a line.
- `RpcClient`: heartbeats, progress text, stderr, the boot delay and the kill after close are left out; parsing an
  `agent_end` payload is an arbitrary reply.
- `BatchTranslation`: the delay between attempts and the prompt text are left out.
- `LocaleSync`: text hash, cache hash, collation and placeholder extraction are parameters; the cache hash is injective and
  never empty, and the collation is a consistent order, which may find different strings equal; sorting is stable.
  Rendering a file and loading it again is the identity. One sync sees one clock value. The source map is one that
  flattening and rebuilding gives back.
- `LocaleSync.SyncIsFixedPoint`: without a provider a second sync could list flagged keys the collation finds equal in
  another order, as pending keys are flagged last in the first sync; such source keys are excluded.
- `LocaleSyncRun.SyncLocale`: a missing source locale and files that cannot be parsed are not modelled.
- `WorkerPool`: what a mapper does between its awaits is one outcome per index.
- `JpegHeader.FoundIffNoFill`: when more bytes follow the first fill byte, the walker skips ahead to wherever the misread
  length leads, and what it finds there is not characterised. PNG reading and the HTTP probe are left out.
- `QuoteScanner`: comment stripping and the regular expression that finds the call are left out.
- `RespawnPlan`: the argument policy and the search for certificate files are parameters. A runtime that splits a child's
  arguments elsewhere than at the script is not modelled. Install detection and cache directories are left out.
- `RespawnSupervisor`: timers fire at most a given slack late; the event loop ending early because both timers
  are unreferenced is not modelled, nor are the error texts in which the two copies differ.
- `ProcessTree.ReadProcessTreeCpuMs`: running and parsing `ps` is left out; rows come as numbers.
- `MarkerBlock`: markers are non-empty and lie within one line; the rendered lines and the files are parameters.
- `SchemaRegistry.SignatureIffEquivalent`: `JSON.stringify` is a parameter, injective on JSON values; the place of
  index-like keys, which come first whatever the sort, is not modelled, as it is the same for equal key sets.
- `Appcast.CollectErrors`: items come with their tags read; a version with more digits than a double holds exactly is the
  exact number, which compares with the floors in the same way.
- `SparkleBuild`: the command line is left out.
- README rewriting, scores, argument parsers, statistics, wrappers over libraries and the cross-system release checks would
  add orchestration or easy members.
