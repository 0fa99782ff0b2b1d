# Verified model of the caches and the dedup engine

The repository speeds up a game engine by hooking it: a hook may answer from a cache or use a faster
data structure, but it must leave what the stock engine would have left. This project models the code
behind that promise and proves it.

## How it is built

- **Tables.** `Probing` is the open addressing all tables share, on a view that says which key each slot
  holds. `MarkedTables`, `HandleSets`, `NodeFlagSets`, `EpochCache`, `ListCache`, `RepeatTables` and
  `NodeTables` build on it (`ListCache` is direct-mapped, `OutdatedHits` continues `EpochCache`, the last two
  count with `Sums`). Functions on sequences say what an operation does; a class does it on an array with the
  source's loops and is proved against them; lemmas prove what the functions are for.
- **Epoch protocol.** `EpochProtocol` is a step machine: any number of threads, effects and ticks as
  bump / mutate / bump brackets that nest and overlap, evaluations in phases. `EpochBrackets` adds what a
  bump does to what was cached before it. `TickCache` and
  `FamilyCache` put the real key and the real table into it, and model the two handlers; their
  `HandleFollowsProtocol` lemmas tie the handlers to the steps, and `HookIsTransparent` closes the result for
  the hooks themselves.
- **Family lists.** `FamilyDedup` has the engine's linear scans as the reference and the set-based form;
  `FamilyLists` has the per-thread mirror and its runs.
- **Decision table.** `DecisionTable` is a step machine over single atomic accesses; `DecisionCalls` says what
  whole calls return; `TickCache` joins the verdicts to the handler.
- **Keys.** `ContextWords` (the stream that is hashed) and `FamilyKey` (the 64-bit mix).
- **Smaller cores.** `VersionsJson`, `VersionsParser`, `VersionsPrinter`, `VersionOrder`,
  `TriggerService`, `SaveLoad`.

## What is assumed

- The result of a cacheable evaluation depends on its context and the state of the game only, and an
  evaluation that no mutation overlaps returns it. One that a mutation overlaps may return anything.
- A family builder's list depends on the low 32 bits of its character's handle, the builder, its two filter
  flags and the state (`FamilyCache.ByHandle`).
- The state changes only while an effect is open, or, for family lists, an effect or a tick.
- Contexts met in one run have different 128-bit keys unless their word streams are equal, and their
  current, previous and root references avoid the reserved pattern (type 0, sub 0xD00D)
  (`TickCache.NoCollision`). The family key needs no such assumption.
- Every atomic access is one step, in one order that all threads see, and the 32-bit epoch does not wrap
  around.
- The padding of a 16-byte list entry is not part of its value.
- Slot hashes, the engine, the deflate library and the checksum are arbitrary functions. Capacities are
  powers of two, so masking a hash is written as the remainder.

## Where a property needs a condition

- A hit whose epoch was read while an effect is open can be stale, for every evaluator that tells two
  states apart (`EpochProtocol.NoisyHitCanBeStale`, shown for the real caches by
  `TickCache.TickNoisyHitCanBeStale` and `FamilyCache.FamilyNoisyHitCanBeStale`). The theorem
  is therefore about reads with no such bracket open.
- With epochs that go back, as when a handler stores under the epoch it read before a nested evaluation,
  `EpochCache` can return a value that a later store under the same key and epoch had replaced. Which orders
  of epochs admit it is stated exactly (`OutdatedHits.OutdatedHitExactly`): two stores in the epoch, and then
  twice one outside it and one inside. It is harmless where the stores agree
  (`EpochCache.AgreeingStoresHitExactly`), which is what the protocol needs.
- The handle 0xFFFFFFFF is never found in a `HandleSet`, so the fast dedup is the engine's exactly when it
  is offered at most once, and only to a list that lacks it (`FamilyDedup.FoldExact`). Valid characters do
  not carry it.
- The mirror of a list is trusted when the list's buffer, count and last handle are those the last hooked
  operation left. An outside change that keeps all three and changes the handles misleads it
  (`FamilyLists.UnfairShows`); any other is harmless (`FamilyLists.ShowingIsFair`).
- `mark_impure` before the verdict of a racing claim is stored would be overwritten
  (`DecisionTable.UnguardedMarkIsLost`). The handler marks only after it was given verdict 1
  (`TickCache.PoisoningFollowsVerdict`), and then poison is final.
- The family mix never collides, not even for the all-zero triple, whose stand-in key no other triple
  reaches (`FamilyKey.KeysNeverCollide`).
- A merge counts a dropped slot once, however many records it stood for, so the overflow counters of
  `RepeatTable` and `NodeTable` can undercount after merges. The models carry the difference as `lost`.
- The comment at plugins/accel_save_load/src/plugin.cpp:180 calls the ceiling 1 TiB; the last capacity
  tried is the first one above it, up to 2 TiB (`SaveLoad.ServedOutcome`). The message at line 216 says the
  engine loads stock, the header of the function that it aborts; the function returns 0 either way.

## Model

| member | source | states |
|---|---|---|
| Probing.PlaceKeepsCoherent | core/include/ck3accel/trigger_cache.h:100-127 | Filling the slot a bounded probe chose keeps every other key where searches find it, and makes the new key found there |
| Probing.AbsentKey | core/include/ck3accel/trigger_cache.h:100-112 | In a coherent table a search fails exactly when the key is in no slot, so stopping at the first empty slot loses nothing |
| Probing.PlaceIs | core/include/ck3accel/trigger_cache.h:114-127 | A key goes to the first of the slots hash, hash + 1 and so on, modulo the size, that is free or holds it |
| Probing.NoPlaceExactly | core/include/ck3accel/trigger_cache.h:114-127 | It finds no place exactly when all the probes hold other keys |
| EpochCache.StoreIsMapUpdate | core/include/ck3accel/trigger_cache.h:100-127 | Within its epoch a store is a map update despite stale-slot reuse; an overflowing store had no entry to lose |
| EpochCache.OverflowsExactly | core/include/ck3accel/trigger_cache.h:114-127 | A store overflows exactly when the 32 slots from the key's low word on are live with other keys |
| EpochCache.RunIsMap | core/include/ck3accel/trigger_cache.h:93-142 | With epochs that never go back the table is the reference map of the current epoch, and no key has two live slots |
| EpochCache.HitWasStored | core/include/ck3accel/trigger_cache.h:100-127 | In any order of epochs a hit was stored under exactly that key and epoch |
| EpochCache.AgreeingStoresHitExactly | core/include/ck3accel/trigger_cache.h:100-127 | If the stores of a key in an epoch agree, every hit is that value even with duplicate live slots |
| OutdatedHits.OutdatedHitExactly | core/include/ck3accel/trigger_cache.h:100-127 | An order of epochs admits an outdated hit in an epoch exactly when it has two stores in it and then twice one outside and one inside; so coming back to an epoch at most once is safe |
| OutdatedHits.OutdatedHitIsInterrupted | core/include/ck3accel/trigger_cache.h:100-127 | For any capacity, keys and values, an outdated hit shows that pattern among the run's stores |
| OutdatedHits.OutOfOrderHitIsOutdated | core/include/ck3accel/trigger_cache.h:114-127 | The shortest run, six stores, after which a lookup returns a replaced value |
| EpochCache.Cache.LookUp | core/include/ck3accel/trigger_cache.h:100-112 | The probe loop returns what the lookup function says and counts a hit or a miss |
| EpochCache.Cache.Put | core/include/ck3accel/trigger_cache.h:114-127 | The probe loop leaves the table the store function says and counts a store or an overflow |
| ContextWords.ReadWords | core/include/ck3accel/trigger_cache.h:58-91 | The word stream can be read back to the context, null references, skip flag and both scope stores included |
| ContextWords.WordsDetermineContext | core/include/ck3accel/trigger_cache.h:74-91 | Equal streams mean equal contexts |
| ContextWords.ReservedPatternCollides | core/include/ck3accel/trigger_cache.h:65-69 | With the reserved reference allowed two different contexts share a stream |
| EpochProtocol.StepKeepsInv | core/src/tick_epoch.cpp:34-51 | Every step of every thread keeps the invariant over open brackets, pending stores and entry tags |
| EpochProtocol.QuietHitsAreExact | plugins/accel_tick_cache/src/plugin.cpp:216-246 | In every run a hit whose epoch was read with no mutating bracket open equals the evaluator in the state at that read |
| EpochProtocol.QuietEntriesAreCurrent | core/src/tick_epoch.cpp:34-51 | In every run, while no mutating bracket is open, an entry of the current epoch in any thread's log holds what the evaluator returns now |
| EpochProtocol.NoisyHitCanBeStale | core/src/tick_epoch.cpp:36-42 | For any context two states tell apart there is a run with a stale hit read inside an effect |
| EpochProtocol.CallBegins | plugins/accel_tick_cache/src/plugin.cpp:229-235 | A call makes a run that ends served with the cached value or goes on evaluating under the epoch read |
| EpochProtocol.CallEnds | plugins/accel_tick_cache/src/plugin.cpp:240-245 | The rest of a call stores the result under the epoch read earlier, or discards it |
| EpochBrackets.BumpStartsAfresh | core/src/tick_epoch.cpp:34-51 | After any run, the bump that opens or closes an effect or a tick, or a frame's, leaves every lookup under the new epoch a miss, on every thread and for every key, and nothing pending that carries it |
| EpochBrackets.HitsComeFromInside | core/src/tick_epoch.cpp:36-51 | In every run a hit under an epoch begun by a bump was stored after the bump, by an evaluation of that thread that read the epoch after it, so nothing evaluated before a bracket opened is served inside |
| EpochBrackets.InTickIsExact | core/src/tick_epoch.cpp:44-51 | In every reachable state the tick counter is the number of ticks between their increment and their decrement |
| TickCache.TickConfigIsSound | plugins/accel_tick_cache/src/plugin.cpp:228-235 | The hashed context key with the epoch cache meets the protocol's assumptions |
| TickCache.TickHitsAreExact | plugins/accel_tick_cache/src/plugin.cpp:216-246 | Words, hash, table, epochs and interleaving together: quiet hits are the engine's result for that context |
| TickCache.HandleFollowsProtocol | plugins/accel_tick_cache/src/plugin.cpp:216-246 | The handler returns and logs what the protocol's steps do, whatever else runs while it evaluates, and its read is quiet exactly when no effect is open |
| TickCache.HookIsTransparent | plugins/accel_tick_cache/src/plugin.cpp:216-246 | End to end: after any run of any threads, a handler call whose epoch is read with no effect open serves, on a hit, what the engine's evaluator returns for its context in the state at the read, and otherwise returns what its chain returns |
| TickCache.TickNoisyHitCanBeStale | plugins/accel_tick_cache/src/plugin.cpp:229-235 | For this very table and key: any context two states tell apart has a run with a stale hit read inside an effect |
| TickCache.PoisonedClassIsBypassed | plugins/accel_tick_cache/src/plugin.cpp:221-246 | In every reachable state of the decision table, a call begun after its class was poisoned is bypassed whatever verdict it got |
| TickCache.PoisoningFollowsVerdict | plugins/accel_tick_cache/src/plugin.cpp:222-242 | A call that poisons its class was given verdict 1 before the class was poisoned, so its mark is a step of the table's machine |
| TickCache.MissedCall | plugins/accel_tick_cache/src/plugin.cpp:236-245 | A call past the gates that misses poisons its class exactly when the saved scopes moved; then it stores nothing, and otherwise exactly its result under its context's key and the epoch read |
| TickCache.StoredResultIsServed | plugins/accel_tick_cache/src/plugin.cpp:232-245 | What such a call stored, the next call of the context in the epoch returns without running its chain, if one of the key's 32 slots had room |
| TickCache.FirstCallAfterBumpMisses | plugins/accel_tick_cache/src/plugin.cpp:229-235 | After any run, a call under the epoch of a bump that just happened hits nothing |
| TickCache.PoisonedOnceBypassedLater | plugins/accel_tick_cache/src/plugin.cpp:221-245 | After a missed call that moved the scopes, and its mark, every later call of the class is bypassed, whatever all threads do in between |
| TickCache.TickHandler | plugins/accel_tick_cache/src/plugin.cpp:216-246 | The handler on the array returns what a protocol run of the call returns, poisons and stores as MissedCall says, and with any gate closed only runs its chain |
| FamilyKey.UnmixMix | core/include/ck3accel/family_list_cache.h:32-34 | The mix of xor-shifts and odd multiplications modulo 2^64 is undone step by step |
| FamilyKey.KeysNeverCollide | core/include/ck3accel/family_list_cache.h:29-36 | Different (character, selector, filter) triples never share a key, the all-zero one included |
| ListCache.HitIsLastStore | core/include/ck3accel/family_list_cache.h:47-64 | A lookup returns a list exactly when the last store to its slot was that list for that key and epoch |
| ListCache.Cache.LookUp | core/include/ck3accel/family_list_cache.h:47-56 | Returns the slot's list on a live match only, a cached empty list included, and counts the hit |
| ListCache.Cache.Put | core/include/ck3accel/family_list_cache.h:58-64 | Replaces the slot's entry and counts an eviction when another key was there |
| FamilyCache.FamilyConfigIsSound | plugins/accel_family_cache/src/plugin.cpp:148-161 | The family key with the list cache meets the protocol's assumptions outright |
| FamilyCache.RequestsNeverCollide | plugins/accel_family_cache/src/plugin.cpp:148-150 | Two requests have one key exactly when character, builder and both filter flags agree |
| FamilyCache.FamilyHitsAreExact | plugins/accel_family_cache/src/plugin.cpp:125-170 | In every run a hit whose epoch was read outside effects and ticks is the list a fresh build gives |
| FamilyCache.HandleFollowsProtocol | plugins/accel_family_cache/src/plugin.cpp:125-170 | The hooked builder leaves the list and the log that the protocol's steps leave, and its read is quiet exactly when no effect and no tick is open |
| FamilyCache.HookIsTransparent | plugins/accel_family_cache/src/plugin.cpp:125-170 | End to end: after any run of any threads, a hooked builder whose epoch is read with no effect and no tick open replays, on a hit, the list the builder gives for that character, selector and flags in the state at the read, and otherwise leaves what the original leaves |
| FamilyCache.MissedCall | plugins/accel_family_cache/src/plugin.cpp:162-169 | A call past the gates that misses leaves the built list and stores exactly it, unless it has more than 2^20 entries |
| FamilyCache.StoredListIsReplayed | plugins/accel_family_cache/src/plugin.cpp:148-169 | The next call for the same character, builder and flags in the same epoch leaves that list without building it |
| FamilyCache.FirstCallAfterBumpMisses | plugins/accel_family_cache/src/plugin.cpp:151-161 | After any run, a call under the epoch of a bump that just happened replays nothing |
| FamilyCache.FamilyNoisyHitCanBeStale | plugins/accel_family_cache/src/plugin.cpp:148-161 | For this very cache and key: any triple whose list differs between two states has a run with a stale hit read inside an effect |
| FamilyCache.DetourBuilder | plugins/accel_family_cache/src/plugin.cpp:125-170 | The replay loop and the store on the objects leave what a protocol run of the call leaves, and with any gate closed or a list that is not empty only the original runs |
| HandleSets.HandleSet.constructor | core/include/ck3accel/family_dedup.h:58 | The set starts empty with 1024 slots |
| HandleSets.HandleSet.Contains | core/include/ck3accel/family_dedup.h:60-69 | The probe loop ends and answers membership of the mathematical set |
| HandleSets.HandleSet.Insert | core/include/ck3accel/family_dedup.h:72-84 | Adds the handle, says whether it was new, and keeps the table coherent, at most half full and at most max(1024, 4 times the largest count) |
| HandleSets.HandleSet.Clear | core/include/ck3accel/family_dedup.h:86-90 | Leaves the empty set at the same capacity |
| HandleSets.HandleSet.Grow | core/include/ck3accel/family_dedup.h:105-112 | Doubles the capacity and keeps the set; the inserts inside never grow again |
| NodeFlagSets.NodeFlagSet.Contains | core/include/ck3accel/trigger_cache.h:149-155 | Answers membership, the node zero by its flag |
| NodeFlagSets.NodeFlagSet.Insert | core/include/ck3accel/trigger_cache.h:156-163 | Adds the node to the mathematical set and keeps the table coherent and at most half full |
| NodeFlagSets.NodeFlagSet.Grow | core/include/ck3accel/trigger_cache.h:167-177 | Putting every node back without looking for it keeps the set |
| FamilyDedup.LinearFoldIsFirstNew | core/test/test_family_dedup.cpp:61-92 | The engine's scans leave the old list followed by the first occurrences of the candidates not in it |
| FamilyDedup.FirstNewIsDuplicateFree | core/test/test_family_dedup.cpp:61-74 | What is appended has no duplicates and is exactly the candidates that were not listed |
| FamilyDedup.FoldExact | core/include/ck3accel/family_dedup.h:143-150 | Any sequence of unique-adds on a synced set leaves the engine's list exactly when the invalid handle is offered at most once to a list that lacks it |
| FamilyDedup.WalkExact | core/include/ck3accel/family_dedup.h:156-174 | On any graph, filter, skip and starting list the walk leaves the engine's list, under the same exact condition, and the set stays synced |
| FamilyDedup.RelativesExactly | core/include/ck3accel/family_dedup.h:157-174 | A handle is offered exactly when a child other than the skipped one, or a child of such a child, is valid, passes the flags and carries it |
| FamilyDedup.WalkNeverOffersInvalid | core/include/ck3accel/family_dedup.h:54-56 | When valid characters carry valid handles the condition always holds |
| FamilyDedup.SyncSetFromList | core/include/ck3accel/family_dedup.h:132-141 | The rebuilt set holds the list's character handles that fit 32 bits and are valid |
| FamilyDedup.AddUnique | core/include/ck3accel/family_dedup.h:144-150 | List and set after one add |
| FamilyDedup.Walk | core/include/ck3accel/family_dedup.h:157-174 | The nested loops add the walk's candidates in order, each child before its own children |
| FamilyLists.StepKeepsMirror | plugins/accel_family_lists/src/plugin.cpp:144-205 | A hooked or outside step keeps the mirror trustworthy and all lists as the engine leaves them |
| FamilyLists.MirroredRunIsEngineRun | plugins/accel_family_lists/src/plugin.cpp:129-205 | One mirror, any lists, any interleaving: if no outside action keeps the buffer, count and last handle the last hooked operation left and changes the handles, all lists end as the engine leaves them |
| FamilyLists.AppendOnlyRunIsEngineRun | plugins/accel_family_lists/src/plugin.cpp:144-149 | Appends made behind the mirror's back, as while the plugin is off, are always fair |
| FamilyLists.WrongTrustShows | plugins/accel_family_lists/src/plugin.cpp:144-149 | If the fingerprint matches a list of other content, adding some valid handle gives another list than the engine's |
| FamilyLists.ShowingIsFair | plugins/accel_family_lists/src/plugin.cpp:144-149 | An outside action is fair when it touches another list, or changes the followed list's buffer, count or last handle |
| FamilyLists.UnfairShows | plugins/accel_family_lists/src/plugin.cpp:144-149 | After any unfair outside action some valid handle, added next, gives another list than the engine's |
| FamilyLists.Mirror.Sync | plugins/accel_family_lists/src/plugin.cpp:144-156 | After sync, early return or not, the set holds exactly the list's handles, provided that a list of the same buffer, count and last handle holds the handles noted |
| FamilyLists.Mirror.NotePushed | plugins/accel_family_lists/src/plugin.cpp:158-162 | The noted fingerprint is the list's and is trusted |
| FamilyLists.Mirror.DetourAddUnique | plugins/accel_family_lists/src/plugin.cpp:165-177 | The hooked add leaves the engine's list unless the invalid handle is added twice |
| FamilyLists.Mirror.DetourWalker | plugins/accel_family_lists/src/plugin.cpp:179-205 | The hooked walk leaves the engine's list exactly when the invalid handle is offered at most once |
| DecisionTable.StepKeepsInv | plugins/accel_tick_cache/src/plugin.cpp:129-164 | Every atomic step of every thread keeps the table invariant |
| DecisionTable.OneClaimPerClass | plugins/accel_tick_cache/src/plugin.cpp:129-147 | However many threads race, a class holds at most one slot |
| DecisionTable.VerdictsOnlyAdvance | plugins/accel_tick_cache/src/plugin.cpp:138-153 | A slot keeps its class and its verdict only moves 0 to 1 or 2 and 1 to 2 |
| DecisionTable.PoisonIsFinal | plugins/accel_tick_cache/src/plugin.cpp:129-164 | Verdict 1 is given for whitelisted classes only, and never to a call that began after the class was poisoned |
| DecisionTable.MarkingIsNeverLost | plugins/accel_tick_cache/src/plugin.cpp:148-164 | A mark never runs out of probes before it reaches the class's slot |
| DecisionTable.UnguardedMarkIsLost | plugins/accel_tick_cache/src/plugin.cpp:139-153 | A mark without a preceding verdict 1 can be overwritten by a racing claim |
| DecisionCalls.CallAlone | plugins/accel_tick_cache/src/plugin.cpp:129-147 | An uninterrupted call returns the verdict its class's slot holds, or takes the first free slot and returns 1 exactly for a whitelisted class, or finds neither and returns 2; nothing else changes |
| DecisionCalls.StoredVerdictIsReturned | plugins/accel_tick_cache/src/plugin.cpp:129-147 | A class that holds a slot is given the verdict in it, and that is 1 for a whitelisted class not poisoned once it is stored |
| DecisionCalls.RefusedForCause | plugins/accel_tick_cache/src/plugin.cpp:129-147 | In every reachable state a whitelisted class not poisoned is refused only when the table has no room for it or another call has claimed its slot and not stored the verdict |
| DecisionCalls.MarkAlone | plugins/accel_tick_cache/src/plugin.cpp:148-164 | An uninterrupted mark poisons its class and no other |
| DecisionCalls.CallAfterPoison | plugins/accel_tick_cache/src/plugin.cpp:129-164 | A call begun after its class was poisoned is never given 1, whatever runs beside it |
| RepeatTables.NoOverflowIsExact | core/include/ck3accel/repeat_table.h:32-106 | Without overflow a table says exactly the counts and inconsistencies of its records, however merged |
| RepeatTables.TallyMeans | core/include/ck3accel/repeat_table.h:60-69 | Without overflow and saturation the tally is the number of records, of distinct keys, of keys recorded more than once and of keys seen with two results |
| RepeatTables.SameRecordsSameTally | core/include/ck3accel/repeat_table.h:55-69 | Merging is a homomorphism: the same records in any tables, merged in any order, give the same tally |
| RepeatTables.RecordsAreConserved | core/include/ck3accel/repeat_table.h:32-69 | While no key's count saturates, counts, overflow and what dropped slots lost add up to the records |
| RepeatTables.RecordsOnlyLoseNothing | core/include/ck3accel/repeat_table.h:32-51 | Without merges nothing is lost beyond the overflow counter |
| RepeatTables.NeverOvercounts | core/include/ck3accel/repeat_table.h:32-106 | No key is ever counted more often than it was recorded, overflow or not |
| RepeatTables.OnlyNewKeysOverflow | core/include/ck3accel/repeat_table.h:32-51 | A key in the table never overflows, and what does not overflow is in the table afterwards |
| RepeatTables.RepeatTable.Record | core/include/ck3accel/repeat_table.h:32-51 | The bounded probe loop leaves the table the record function says |
| RepeatTables.RepeatTable.MergeSlot | core/include/ck3accel/repeat_table.h:92-106 | The bounded probe loop folds one slot in, saturating, or counts it as overflow |
| RepeatTables.RepeatTable.MergeFrom | core/include/ck3accel/repeat_table.h:55-58 | The other table's slots and overflow are folded in |
| RepeatTables.RepeatTable.GetTally | core/include/ck3accel/repeat_table.h:60-69 | The accumulating loop gives the tally of the slots |
| RepeatTables.RepeatTable.Reset | core/include/ck3accel/repeat_table.h:71-74 | Leaves the empty table |
| NodeTables.RunIsSound | core/include/ck3accel/attrib_tables.h:32-90 | After any run each key has one slot, the used count is right and at most half the slots are used |
| NodeTables.RunWeighs | core/include/ck3accel/attrib_tables.h:32-85 | No key gets more counts or cycles than were recorded, and exactly those when nothing overflowed |
| NodeTables.RecordsAreConserved | core/include/ck3accel/attrib_tables.h:32-85 | Counts, overflow and what dropped slots lost add up to the total, which is the number of records; counts and overflow alone never exceed it and equal it when no merge drops a slot |
| NodeTables.DroppedExactly | core/include/ck3accel/attrib_tables.h:34-46 | What is dropped is a new key that found the table half full or its 64 probes in use |
| NodeTables.NodeTable.Record | core/include/ck3accel/attrib_tables.h:32-47 | The bounded probe loop with the half-load check leaves the table the record function says |
| NodeTables.NodeTable.MergeSlot | core/include/ck3accel/attrib_tables.h:68-82 | One slot of the other table is added, set or dropped |
| NodeTables.NodeTable.MergeFrom | core/include/ck3accel/attrib_tables.h:67-85 | The used slots, total and overflow of the other table are folded in |
| NodeTables.NodeTable.Reset | core/include/ck3accel/attrib_tables.h:87-90 | Clears each slot's flag and the counters and nothing else |
| VersionsJson.ReadFile | core/src/versions_json.cpp:11-128 | Every written file parses to what it means, whatever its spacing, escapes, field order, unknown fields and trailing text |
| VersionsJson.FileRead | core/src/versions_json.cpp:11-128 | Every text that parses is a written file with that meaning |
| VersionsJson.ParseIsExact | core/src/versions_json.cpp:15-32 | A text parses to a list exactly when it is a written file that means the list |
| VersionsJson.UsableIsExact | core/src/versions_json.cpp:140-147 | An entry is dropped exactly when its timestamp is 0 and its hash starts with PENDING_; the others stay, in order |
| VersionsPrinter.PrintThenParse | core/src/versions_json.cpp:11-151 | For any strings, any 32-bit timestamps and any number of entries, parsing the printed text returns the entries |
| VersionsParser.Parser.SkipWs | core/src/versions_json.cpp:47-51 | The loop moves past exactly the leading white space |
| VersionsParser.Parser.ParseString | core/src/versions_json.cpp:52-65 | The escape loop ends and reads what the grammar function reads |
| VersionsParser.Parser.ParseInt | core/src/versions_json.cpp:71-77 | The digit loop and the 64-bit conversion read what the grammar function reads, or fail |
| VersionsParser.Parser.ParseStringArray | core/src/versions_json.cpp:78-91 | The item loop ends and reads what the grammar function reads, or fails |
| VersionsParser.Parser.ParseEntry | core/src/versions_json.cpp:92-127 | The field loop ends and reads what the grammar function reads, or fails |
| VersionsParser.Parser.Parse | core/src/versions_json.cpp:15-32 | The whole reader ends on every text and reads what the grammar function reads, or fails |
| VersionsParser.LoadVersionsJson | core/src/versions_json.cpp:132-151 | None if the text does not parse, else the entries that are no placeholders, in order |
| VersionsParser.FindMatch | core/src/versions_json.cpp:153-164 | The first entry with that timestamp and hash, or none if there is none |
| VersionOrder.ParseComponent | core/src/plugin_gate.cpp:16-30 | The value of the leading digits clamped at 10^15, computed without leaving 64 bits |
| VersionOrder.SplitDotted | core/src/plugin_gate.cpp:32-45 | The loop splits at every dot |
| VersionOrder.SplitIsExact | core/src/plugin_gate.cpp:32-45 | The parts are the one list of dot-free strings that joins to the text |
| VersionOrder.CompareVersions | core/src/plugin_gate.cpp:49-60 | The sign of the lexicographic comparison of the vectors padded with zeroes |
| VersionOrder.OrderIsTotal | core/src/plugin_gate.cpp:49-60 | Of before, after and equal exactly one holds |
| VersionOrder.OrderIsTransitive | core/src/plugin_gate.cpp:49-60 | The order is transitive, strictly if one step is strict |
| VersionOrder.TrailingZero | core/src/plugin_gate.cpp:49-60 | A further component makes no difference exactly when it is worth zero |
| VersionOrder.TrailingDotZero | core/src/plugin_gate.cpp:49-60 | A version and the same with ".0" behind compare equal |
| VersionOrder.DifferenceDecides | core/src/plugin_gate.cpp:49-60 | The first component worth a different number decides, whatever follows; the smaller comes first |
| VersionOrder.ComponentIsNumber | core/src/plugin_gate.cpp:16-30 | A component that starts with a decimal number is worth that number, up to 10^15 |
| TriggerService.RegisteredIsTheStableSort | core/src/trigger_service.cpp:69-77 | The handler list is the one stable sort by descending priority of the registrations that found room |
| TriggerService.ChainVisitsInOrder | core/src/trigger_service.cpp:32-40 | The chain visits the handlers in list order, each once with its own user value, and ends at the original |
| TriggerService.DetourIsTransparent | core/src/trigger_service.cpp:35-44 | If every handler is result-preserving the hooked evaluator is the original one |
| TriggerService.Service.Register | core/src/trigger_service.cpp:69-77 | Inserts behind all handlers of at least its priority; a null handler or a full list changes nothing |
| SaveLoad.DrainReader | plugins/accel_save_load/src/plugin.cpp:105-121 | The read loop ends and leaves the buffer and the reader as the drain function says |
| SaveLoad.DrainIsExact | plugins/accel_save_load/src/plugin.cpp:105-121 | The drain succeeds exactly when the reader owns up to enough bytes before it first returns 0 |
| SaveLoad.DrainTakesExactly | plugins/accel_save_load/src/plugin.cpp:105-121 | A drain that succeeds took exactly as many calls as deliver the bytes wanted, and those deliver exactly that many |
| SaveLoad.ServedDrain | plugins/accel_save_load/src/plugin.cpp:105-121 | However a stream is cut up, over-reported counts included, the buffer is the stream |
| SaveLoad.Inflate | plugins/accel_save_load/src/plugin.cpp:169-191 | The doubling loop ends without leaving 64 bits |
| SaveLoad.WriteAll | plugins/accel_save_load/src/plugin.cpp:224-235 | The write loop makes exactly the chunks of the output |
| SaveLoad.ChunksHoldData | plugins/accel_save_load/src/plugin.cpp:224-235 | The chunks join to the output; each but the last is of 8 MiB, and the last has one byte to 8 MiB |
| SaveLoad.Decompress | plugins/accel_save_load/src/plugin.cpp:124-256 | All or nothing: 1 and the whole checked output written, or 0 and nothing written |
| SaveLoad.ServedOutcome | plugins/accel_save_load/src/plugin.cpp:124-256 | For any chunking the text is written exactly when it fits the last capacity and its checksum is the expected one; up to 1 TiB always fits |
| SaveLoad.OutcomeExactly | plugins/accel_save_load/src/plugin.cpp:124-256 | An output is written exactly when the buffer and the decompressor can be had, the reader owns up to enough bytes, the input inflates to it at a capacity all smaller ones of which were tried, too small and at most 1 TiB, and its checksum is the expected one |

## Left out

- The 128-bit hasher and the slot hashes: arbitrary functions; only the word stream and the family mix are modelled.
- Raw deflate and CRC-32: functions of the input, and of the capacity.
- Weak memory orders and the wrap-around of the 32-bit epoch.
- Windows, MinHook, structured exceptions, RTTI and pointer layouts: reading a context, a character or a class name is a parameter that may fail.
- The throttle of the frame bump (plugins/accel_family_cache/src/plugin.cpp:95-102): a bump may come at any time.
- The runtime switches: an operation made while a plugin is off is an outside action of `FamilyLists` or a bypassed call of the handlers.
- The lock of the trigger service and handlers that re-enter the hook: re-entry is part of what the original evaluator does.
- `NodeTable::top_n`, `StackTable` (the node table with a chain of frames as the key), `FunctionTable` and the other probe tables: they would repeat what is here.
- accel_ui_trigger_cache: it bumps for main-thread effects only, so the theorem belongs to the core epoch service.
- Statistics, logging and metrics, except the counters of the two caches.
- The plugin gate's decision chain, the crash sentinel, the loader, the overlay and the proxies.
- RepeatTables.RepeatTable.MergeFrom: does not model merging a table into itself, which the plugins never do.
- NodeTables.NodeTable.MergeFrom: does not model merging a table into itself, which the plugins never do.
- NodeTables.NodeTable.Record: counts and cycles are unbounded, because 64-bit counters do not wrap around in any run.
- FamilyLists.Mirror.DetourWalker: the list counts entries up to any length; a negative engine count, which reads as empty, is not modelled.
- SaveLoad.Reader.Read: bytes a reader writes beyond what it was asked for, outside the buffer, are not modelled.
