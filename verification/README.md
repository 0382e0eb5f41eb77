# Verified models of the adapter cores

Each module models one stateful core of the USP adapters and proves what that core is for. Code that changes
state step by step is modelled by classes and methods with loops, proved against a specification; code that
runs concurrently is modelled by its steps, and the results are about every run, over every interleaving.
`dafny verify dfyconfig.toml` checks everything.

- **The ordered parallel pipeline** (`utils/pipeliner.go`): `Pipeline_Model.dfy` has the steps of generator,
  workers, placer, closer and reader; `Pipeline_Invariant.dfy` the invariant that ties indices in flight to the
  window of slots; `Pipeline_Results.dfy` order, window, completeness, progress and termination;
  `Pipeline_Errors.dfy` says exactly when an iterator's error can be hidden from the reader, and exactly when
  the placer's panic can happen; `Pipeline_Close.dfy` that the closer ends everything.
- **The manual-reset event** (`utils/event.go`): `Event.dfy`. No wakeup is lost or doubled.
- **The life of a Parquet file** (`file/client.go`): `File_Model.dfy` has the steps of the poll loop, the decode
  goroutines, `Close` and the disk; `File_Results.dfy` shutdown safety and decode ownership;
  `File_Close.dfy` that Close's wait ends; `File_Convergence.dfy` re-decoding after rewrites; `File_Adapter.dfy` the
  map of entries changed in place.
- **Multi-line framing** (`file/client.go`): `Framing.dfy` and, for the text shipped and for any layout,
  `Framing_Text.dfy`.
- **Deduplication over whole runs**: `Deduping.dfy` (`utils/deduping.go`, rotating buckets), `Harmony_Emails.dfy`
  (scrolls over those buckets), `Sliding_Dedupe.dfy` with `Okta.dfy` and `Proofpoint.dfy` (culled maps).
  `Okta_Coverage.dfy` and `Proofpoint_Coverage.dfy` say that what is asked for leaves nothing out, and when.
- **A cursor through time**: `Harmony_Events.dfy`. What was shipped covers what lies behind the cursor;
  `Harmony_Polls.dfy` says what one poll does, read off the gateway's replies.
- **Path queries over JSON trees** (`utils/json.go`): `Json_Model.dfy`, `Json_Results.dfy`, `Json_Agreement.dfy`.
- **Arguments to trees** (`utils/env_parse.go`): `Cli_Model.dfy`, `Cli_Results.dfy`,
  `Cli_Failures.dfy` for panics and collisions, `Cli_Values.dfy` for the leaves, and `Cli_Builder.dfy`, in which nested maps are changed in place behind a walking reference.
- **The incremental tokenizer** (`utils/stream_tokenizer.go`): `Tokenizer.dfy`.
- `Options.dfy`, `Sequences.dfy`, `Strings.dfy` and `Times.dfy` are shared vocabulary.

## What the proofs found

Where the code does not do what its comments or its shape suggest, the code is modelled as it stands, the
failure is proved with a run or an input, and the exact condition under which it cannot happen is proved too.

- Pipeline: once the iterator has failed or the closer was called, `evReady` is no longer cleared
  (`utils/pipeliner.go:154`), and the reader can pick a nil instead of the result due. Without the closer that
  happens in some run exactly when the iterator fails at a call that is not the first
  (`PipelineErrors.ErrorMaskedIff`). The placer can then find its slot taken and panic. With a mapper that
  never returns nil this happens, over all runs, exactly when nParallel > 1 and the iterator yields at least nParallel
  elements, since closing at the wrong moment is enough (`PipelineErrors.PlacerPanicsIff`); without the closer, exactly
  when the iterator fails after k elements with 2 <= nParallel <= k (`PipelineErrors.PlacerPanicsUnclosedIff`). The
  safe halves hold for every mapper (`PipelineErrors.NeverPanics`). With the closer called first, the reader can
  release more of the semaphore than is held (`PipelineResults.CloseFirstOverReleases`).
- Tokenizer: a one-byte segment ended by a token in the same call is dropped (`utils/stream_tokenizer.go:24`), so
  the result depends on how the stream is cut; exactly the streams in which no call ends such a segment survive
  (`Tokenizer.LosslessIff`).
- Parquet: a path can have two shipping goroutines after the poll loop saw its file missing mid-decode, and only
  then. A file can be settled although another content of it was decoded, for two reasons: the inode is taken by
  the poll loop but size and time by the decode, and size and time are taken before the content is read
  (`file/client.go:676-724`). So a file replaced during a decode by one of equal size and time is missed
  (`FileConvergence.SwapBackIsMissed`), and so is one rewritten in place during the read and then put back with its
  old time, though size and time tell the contents apart (`FileConvergence.RewriteDuringReadIsMissed`). Which
  courses of the disk allow this is stated exactly (`FileConvergence.MissedIff`).
- Emails: no state is shipped twice exactly when lookback, one second and the time a scroll is worked through fit
  into all buckets but one (`HarmonyEmails.ShippedOnceIff`). The sizing in `Start` reaches that for lookbacks that
  leave about 23 hours, and for no longer one: the comment at `harmony/client.go:257-272` promises more than the
  extra hour gives (`HarmonyEmails.SizingCoversIff`). Two different non-empty ids have states with the same key exactly when
  one of them followed by `|` begins the other (`HarmonyEmails.KeysCollideIff`).
- Events: records in the fraction of a second before the cursor may not have been asked for yet; coverage up to
  the cursor itself holds exactly when the cursor is a record's time, a whole second, or not past the start
  (`HarmonyEvents.CoversToCursorIff`). Within its second the cursor can go back.
- Okta: a request never reaches back more than half an hour (`okta/client.go:160-165`), so when no poll is answered for
  longer than that, the time before is not asked for again. Exactly then something is left out
  (`OktaCoverage.CoveredIff`). Proofpoint goes on where the last answered query ended, so no outage leaves a gap
  (`ProofpointCoverage.NothingMissed`).
- JSON paths: on lists `findElem` spends a wildcard and `checkForElem` does not, so they may disagree, in either
  direction (`JsonResults.CheckMisses`, `JsonResults.CheckInvents`). They agree on every tree exactly for the paths
  without wildcards (`JsonAgreement.AgreeIff`), and for every path on trees without lists.
- Arguments: an array grows by at most one element per argument (`utils/env_parse.go:57-61`), so a gap makes the next
  access panic, as does an index into what is no array (`CliFailures.GapPanics`, `CliFailures.IndexIntoLeafPanics`).
  One path panics exactly when it reaches such an index (`CliFailures.PutFailsIff`); a list of indices into one new array
  does exactly when the first is beyond what `make` grants or a later one leaves a gap after those before it (`CliFailures.IndexArgsPanicIff`).

## Model

| member | source | states |
|---|---|---|
| PipelineModel.ShiftInPlace | utils/pipeliner.go:138-149 | shifting the slots in place drops the first, keeps the order of the others, and labels the last with the next index |
| PipelineModel.PlaceInPlace | utils/pipeliner.go:217-257 | the placer's search stores a record in the first fitting slot, tells whether the reader is woken, and panics exactly if that slot holds an element |
| PipelineInvariant.GlobalStep | utils/pipeliner.go:48-257 | every step of everybody keeps the account of tokens, workers and channel contents |
| PipelineInvariant.CleanStep | utils/pipeliner.go:124-257 | every step keeps each index of the window in exactly one place, or the reader has just picked too early |
| PipelineInvariant.CleanPlace | utils/pipeliner.go:217-257 | the placer finds a free slot that carries the record's index |
| PipelineInvariant.CleanTake | utils/pipeliner.go:124-158 | taking a result moves the window up by one and keeps `evReady` right |
| PipelineResults.OrderedResults | utils/pipeliner.go:42-48 | in every run the result of each index, before a nil, is what the mapper returns for the iterator's element of that index, and an error is the iterator's own of that index and the last result |
| PipelineResults.NilResult | utils/pipeliner.go:205-214 | without the closer and without an error, a nil is the iterator's or stands for an element the mapper makes nil of, and is the last result |
| PipelineResults.WindowUntilEnd | utils/pipeliner.go:124-149 | until the reader picked a nil or an error, what is in flight lies in (taken, taken + n], each record in one place, and no panic happened without the closer |
| PipelineResults.NeverOverReleases | utils/pipeliner.go:124-130 | without the closer the reader never releases a token that is not held |
| PipelineResults.CloseFirstOverReleases | utils/pipeliner.go:159-169 | with the closer first, some run does, in every configuration |
| PipelineResults.CompleteResults | utils/pipeliner.go:42-48 | a reader that stopped has received what the mapper returns for each of the k elements, in order, then nil, and nothing panicked |
| PipelineResults.Progress | utils/pipeliner.go:88-120 | until the reader has stopped some step is possible, also while it waits for `evReady` |
| PipelineResults.LeftDecreases | utils/pipeliner.go:124-257 | every step but the closer's lowers a measure that is bounded below |
| PipelineResults.RunLength | utils/pipeliner.go:48-257 | so runs over an iterator that stops have a bounded length |
| PipelineResults.EveryMaximalRunDelivers | utils/pipeliner.go:42-48 | a run that cannot be continued has delivered everything, then nil |
| PipelineClose.ClosedGoesOn | utils/pipeliner.go:159-170 | after the closer, with the reader outside, some other goroutine can go on until the pipeline is finished or has panicked |
| PipelineClose.CloseLeftDecreases | utils/pipeliner.go:159-170 | every step but the reader's lowers a measure, and the reader's leave it |
| PipelineClose.ClosingEnds | utils/pipeliner.go:39-46 | after the closer at most 9n + 11 steps of others are left in any run, and when none is possible all goroutines have come to their end, or there was a panic |
| PipelineErrors.ErrorMaskedIff | utils/pipeliner.go:151-156 | if the k-th call of the iterator fails, some run without the closer hands the reader a nil instead of a due result if and only if k is positive |
| PipelineErrors.PlacerPanicsIff | utils/pipeliner.go:231-253 | over all runs, with a mapper that never returns nil, the placer can find its slot taken if and only if n > 1 and the iterator yields at least n elements |
| PipelineErrors.PlacerPanicsUnclosedIff | utils/pipeliner.go:231-253 | with the same mappers, without the closer it can if and only if the iterator fails after k elements with 2 <= n <= k |
| PipelineErrors.NeverPanics | utils/pipeliner.go:217-257 | whatever the mapper does, under the complement of the first condition the placer panics in no run, and under the complement of either no run without the closer panics at all |
| Events.RemoveWaiterKeepsOthers | utils/event.go:91-94 | swap-removal takes one occurrence of the one waiter and keeps all others |
| Events.RemoveWaiterDistinct | utils/event.go:91-94 | and keeps the list free of duplicates |
| Events.Event.Set | utils/event.go:23-37 | everybody listed gets one token and a closed channel, none of the sends finds a full or closed channel, and the list is empty |
| Events.Event.Clear | utils/event.go:39-47 | the event is unset and no waiter is touched |
| Events.Event.Register | utils/event.go:57-66 | a set event is not waited for; otherwise exactly one new waiter is listed |
| Events.Event.Expire | utils/event.go:69-81 | a waiter still listed is taken off, exactly it; one already signalled leaves the list alone |
| Events.Event.Select | utils/event.go:83-88 | WaitFor answers true only if signalled and false only after the timeout |
| Events.Event.ReadyIffSignalled | utils/event.go:57-89 | a waiter's receive can go on exactly if it was signalled |
| Events.Event.ExactlyOneState | utils/event.go:57-94 | a waiter is listed once, or signalled, or removed, and only one of these |
| FileAdapterMap.FileAdapter.ScanEntries | file/client.go:197-338 | walking the map in any order removes exactly the entries whose file is gone, and those with a finished decode whose file has another inode, both being known, or another size or time |
| FileAdapterMap.FileAdapter.SpawnMatches | file/client.go:340-381 | every unknown match before cancellation gets one entry of its own, with the inode found, and one count of the wait group; known ones are left alone |
| FileAdapterMap.FileAdapter.DropTailEntryIfMatch | file/client.go:782-795 | only the very entry is removed |
| FileAdapterMap.ScanOneKeeps | file/client.go:197-228 | the scan in place and the scan step of the step system keep the same entries |
| FileAdapterMap.PathsAfterAre | file/client.go:340-381 | the paths with an entry afterwards are those from before and the matches that could be looked at |
| FileResults.StepKeeps | file/client.go:172-441 | every step of poll loop, decodes, Close and disk keeps locking, shutdown and ownership |
| FileResults.CloseIsSafe | file/client.go:581-621 | no decode joins after Close held the mutex, no row is shipped after the wait, and Close does not wait holding the mutex |
| FileResults.CloseIsNotStuck | file/client.go:591-611 | while Close waits for decodes, one of them or the poll loop can go on, without shipping one more row |
| FileClose.WaitLeftFalls | file/client.go:581-621 | while Close waits, every step of the poll loop and every step of a decode but shipping a row lowers a measure, and no other step of anybody raises it |
| FileClose.WaitEnds | file/client.go:591-611 | so in any run from there only so many such steps are left, and when none is possible the wait can be passed |
| FileResults.ScanRemovesIff | file/client.go:203-228 | the scan step removes an entry exactly if its decode is over and the file is another one by its inode, whatever its size and time, or has another size or time; no other entry is touched |
| FileResults.OneShipperPerPath | file/client.go:203-215 | two goroutines that can still ship rows of one path are the same, for every path whose file was not seen missing mid-decode |
| FileResults.FailureDropsOwnEntry | file/client.go:782-795 | in every reachable state a failing decode removes its own entry and no other |
| FileResults.MissingFileDoublesShippers | file/client.go:316-323 | without that exception two goroutines can ship rows of one path |
| FileConvergence.RankNeverRises | file/client.go:197-228 | while a file stays as it is and decodes succeed, no step takes it further from being settled |
| FileConvergence.DecodeEndLowersRank | file/client.go:744-780 | the end of its decode brings it nearer |
| FileConvergence.PollCycleConverges | file/client.go:197-381 | a poll cycle without a running decode ends with the file settled or the right decode running, whatever happened before |
| FileConvergence.SettledMeansDecoded | file/client.go:752-757 | a settled entry comes from a completed decode that recorded the final size and time, and its inode, if both are known, is the file's |
| FileConvergence.SettledForGood | file/client.go:197-381 | after such a cycle, from the first moment at which no decode of the entry runs, the file is settled and stays so whatever else happens, as long as nothing about it changes or fails |
| FileConvergence.MissedIff | file/client.go:348-380 | on a given course of the disk some run ends with the file settled although another content was decoded if and only if, after a disk that gave a fitting inode, the file is opened with the final size and time but another content, or is rewritten in place before the end of the read |
| FileConvergence.FinalVersionDecoded | file/client.go:744-780 | on every other course of the disk a settled entry has decoded the final content |
| FileConvergence.LastingIsDecoded | file/client.go:754-757 | in particular if the final size and time, once there, stay with the final content |
| FileConvergence.RewriteDuringReadIsMissed | file/client.go:676-724 | a file rewritten in place between stat and read and put back is settled with the content in between decoded, for all sizes and times |
| FileConvergence.SwapBackIsMissed | file/client.go:348-370 | a file replaced for the duration of the decode by one of equal size and time is settled undecoded, even if the inodes are known and differ |
| Framing.HandleMultiLine | file/client.go:512-549 | groups shipped and lines pending are the trimmed non-empty lines in order, cut at every point where the braces balance; the counter is the balance of the pending lines |
| Framing.FramedUnique | file/client.go:528-548 | there is only one such cut |
| Framing.ObjectsFramed | file/client.go:512-549 | pretty-printed objects without braces in strings are cut object by object |
| Framing.PrettyPrintedRecovered | file/client.go:512-549 | so the groups found are the printed objects, with nothing pending |
| FramingText.AnyLayoutRecovered | file/client.go:512-549 | the same for objects spread over lines in any layout, each balancing at its end and not before |
| FramingText.ShippedText | file/client.go:512-549 | the i-th text shipped for pretty-printed objects is the i-th object without line breaks and indentation |
| Framing.BlanksTrimmed | file/client.go:521-524 | blank lines are passed over, and of other lines spaces, tabs and line ends at either end go, nothing else |
| Deduping.BucketCount | utils/deduping.go:25-32 | as many buckets as windows fit into the time to live, at least one; a window above it is refused |
| Deduping.LocalDeduper.constructor | utils/deduping.go:33-44 | a new deduper knows nothing |
| Deduping.LocalDeduper.Rotate | utils/deduping.go:46-56 | a rotation empties the oldest bucket and keeps every other key at its age |
| Deduping.LocalDeduper.CheckAndAdd | utils/deduping.go:61-79 | the answer is whether the key was last admitted fewer than nBuckets rotations ago; otherwise it is admitted |
| Deduping.LocalDeduper.OneBucketPerKey | utils/deduping.go:61-79 | each key is in one bucket at most |
| Deduping.LocalDeduper.FoundIn | utils/deduping.go:65-73 | and that is the bucket of the rotation of its last admission |
| Deduping.RotationsTakeTime | utils/deduping.go:46-56 | m rotations since an admission take at least m - 1 windows |
| Deduping.Retained | utils/deduping.go:25-79 | a key is known for at least nBuckets - 1 windows after its admission |
| HarmonyEmails.SameEntityKeys | harmony/client.go:763-780 | records of one entity share a key exactly if they were updated at the same time, created where no update is given |
| HarmonyEmails.EmailKeyInjective | harmony/client.go:763-780 | the key tells entity and state apart if no id holds the separator |
| HarmonyEmails.SeparatorInId | harmony/client.go:763-780 | and may not otherwise |
| HarmonyEmails.KeysCollideIff | harmony/client.go:763-780 | two different ids, neither empty, have states with the same key if and only if one of them followed by the separator begins the other |
| HarmonyEmails.EmailsWorker.ShipPage | harmony/client.go:738-751 | one page ships the unknown keys in order, admits them, and ends at the first new record that is refused, no earlier and no later, with doStop set |
| HarmonyEmails.EmailsWorker.RunOneEmailsQuery | harmony/client.go:691-761 | how a scroll ends, what it shipped, that no new record before its end was refused, and that only a refused one leaves a key admitted but unshipped, with doStop set; it is complete only at a page worked through that is empty or has no handle |
| HarmonyEmails.PollEnds | harmony/client.go:679-761 | every ending has its reason on the last page or in the page limit, and every page before it had records and a handle and was asked for without doStop |
| HarmonyEmails.ScrollRead | harmony/client.go:679-761 | a scroll that ends at page m is read to that page unless stopped, failed or refused, and every key on any of its pages is known afterwards, and shipped if it was not before |
| HarmonyEmails.AcceptedEach | harmony/client.go:748-750 | record by record, none of those worked through was new and refused |
| HarmonyEmails.EmailsWorker.FetchEmailsForSaas | harmony/client.go:659-674 | over a worker's whole run, whatever rotations and other workers do between polls, every poll is as above, the shipped keys are those of the polls in order, only the last poll may have left one key unshipped, and the loop ends at the first moment, before or after a poll, at which doStop is found set |
| HarmonyEmails.PollShipsTheNew | harmony/client.go:738-751 | of the keys read, those unknown before are shipped once each and all are known afterwards, nothing else |
| HarmonyEmails.NoDuplicates | harmony/client.go:257-272 | no key is let through twice over any run if lookback, a second and working time fit into all buckets but one |
| HarmonyEmails.DuplicatePossible | harmony/client.go:257-272 | otherwise some run ships a key twice |
| HarmonyEmails.ShippedOnceIff | harmony/client.go:257-272 | both together: shipped once exactly under that condition |
| HarmonyEmails.SizingCoversIff | harmony/client.go:257-272 | the sizing of Start meets the condition exactly while lookback, a second and working time fit into 23 hours |
| HarmonyEvents.EventsWorker.RunOneEventsQuery | harmony/client.go:485-535 | the query's answer, what it shipped and whether it stopped the worker, for every way it can go |
| HarmonyEvents.EventsWorker.FetchEventsForService | harmony/client.go:444-483 | the polling loop over any script of polls ends where the reference run does |
| HarmonyEvents.Coverage | harmony/client.go:444-535 | while the worker runs, every record from the start to the second of the cursor was shipped or lies in a window skipped as canceled |
| HarmonyEvents.ShippedFromGateway | harmony/client.go:510-524 | only records of the gateway are shipped |
| HarmonyEvents.CursorNeverBack | harmony/client.go:537-546 | the second of the cursor never decreases |
| HarmonyEvents.CursorBackWithinSecond | harmony/client.go:510-514 | the cursor itself can, within its second |
| HarmonyEvents.FailedIsAskedAgain | harmony/client.go:473-474 | a failed window leaves the cursor, and the next one holds it |
| HarmonyEvents.CoversToCursorIff | harmony/client.go:451-477 | coverage up to the cursor itself holds if and only if it is a record's time, a whole second, or not past the start |
| HarmonyPolls.PagesFetched | harmony/client.go:499-533 | which pages are followed, what is shipped of them, what the latest time is, and which of four endings a fetch has |
| HarmonyPolls.PollMoves | harmony/client.go:444-535 | what a poll does to cursor, shipped records, skipped windows and worker for every answer of the gateway |
| SlidingDedupe.NewItemsAppend | okta/client.go:213-222 | a set that never forgets lets the same events through however they are cut into replies |
| SlidingDedupe.OnceEach | okta/client.go:213-222 | and every id once |
| SlidingDedupe.OfferRemembers | okta/client.go:213-222 | an event not before the cut is in the map exactly if its id was ever seen |
| Okta.OktaAdapter.Cull | okta/client.go:224-229 | entries go by their age at the moment the loop reaches them; none that a later request could return goes |
| Okta.OktaAdapter.MakeOneRequest | okta/client.go:148-234 | the request asks up to now, from half an hour before or from the start if that is later; the events that come out are those a set that never forgets would let through, and what is older than that half hour is forgotten |
| Okta.OktaAdapter.FetchEvents | okta/client.go:114-146 | over any run the keyed events due are the first of every id among all replies the servers gave to what was asked at the times of the polls, each as above; all are shipped, in order, unless one is refused, then those before it are, doStop is set, and the refused one came out of the last poll; without doStop every server was polled |
| OktaCoverage.CoveredIff | okta/client.go:156-165 | the windows of the answered polls leave no gap from the start to the last of them if and only if, in whole seconds, each of these polls comes at most half an hour after the start or an earlier one |
| OktaCoverage.HalfHourApart | okta/client.go:156-165 | polls at most half an hour apart do |
| OktaCoverage.NothingMissed | okta/client.go:114-234 | then every event with an id that the servers hold for that time comes out exactly once |
| Proofpoint.IntervalEnd | proofpoint_tap/client.go:150-157 | no interval is longer than an hour, and one that stops before now is 59 minutes long |
| Proofpoint.Cull | proofpoint_tap/client.go:224-228 | exactly the entries at or above the threshold stay |
| Proofpoint.ProofpointTapAdapter.MakeOneRequest | proofpoint_tap/client.go:142-269 | the request goes from two minutes before `since` to now, or to 59 minutes later if that is over an hour; messages and clicks that come out are what sets that never forget would let through, each tagged with the list it came from, and the next start is not before this one |
| Proofpoint.ProofpointTapAdapter.FetchEvents | proofpoint_tap/client.go:108-140 | the same for messages and clicks, the end by a refusal included, where each poll starts where the query of the last successful one ended, and every event carries the tag of the list of the reply it came from |
| ProofpointCoverage.NothingMissed | proofpoint_tap/client.go:108-155 | every message and click with an id that the server holds from the start to where any answered query ended comes out exactly once, whatever polls fail |
| JsonModel.FindElem | utils/json.go:384-452 | the nodes found and how often each place is found, for every order in which maps are walked |
| JsonResults.SameResults | utils/json.go:384-452 | two runs of a query find the same multiset of nodes |
| JsonResults.FoundExists | utils/json.go:384-452 | only places of the tree are found |
| JsonResults.TrailingStar | utils/json.go:397-414 | a trailing star at a map finds every node of the subtree once |
| JsonResults.PlainPath | utils/json.go:423-447 | a path of names and indices finds exactly the places that spell it, lists in between not counting for names, each once |
| JsonResults.IndexedElement | utils/json.go:432-437 | `[i]` asks a list for its element i, counted from zero |
| JsonResults.SignedElement | utils/json.go:432-437 | with a plus sign as well, and behind a minus sign only zero is there |
| JsonResults.NoSuchElement | utils/json.go:432-437 | brackets around anything else ask for nothing |
| JsonResults.FindsGlob | utils/json.go:416-448 | paths are patterns over the places of any tree: a name matches itself, `?` any one, a star any number of steps, also none at a map; on the way through a list names pass, wildcards are used up and indices choose |
| JsonResults.FindsMatchings | utils/json.go:397-448 | and each place is found once for every way in which the pattern matches it, whatever the tree |
| JsonResults.MatchingsIffGlob | utils/json.go:416-448 | the pattern matches if and only if there is such a way |
| JsonResults.CheckForElem | utils/json.go:454-504 | the answer for every order in which maps are walked |
| JsonResults.PresentIffFinds | utils/json.go:384-504 | checkForElem is true if and only if findElem finds something, without wildcards or without lists |
| JsonAgreement.AgreeIff | utils/json.go:384-504 | they agree on every tree if and only if the path has no wildcard |
| JsonAgreement.WildcardDisagrees | utils/json.go:441-448 | for every path with a wildcard, a tree on which they disagree |
| JsonResults.CheckMisses | utils/json.go:441-448 | with both, a node found may not be reported |
| JsonResults.CheckInvents | utils/json.go:494-499 | and one reported may not be found |
| JsonResults.TokenizePath | utils/json.go:506-515 | tokens are the non-empty parts between slashes |
| JsonResults.PathAppend | utils/json.go:506-515 | joining paths joins their tokens, so extra slashes add nothing |
| JsonResults.PathOfTokens | utils/json.go:506-515 | every list of names without slashes is the path that joins them |
| CliResults.PutFrame | utils/env_parse.go:44-98 | setting one path leaves every path that parts from it as it was |
| CliResults.PutGet | utils/env_parse.go:44-98 | the path set reads the leaf |
| CliResults.StepOfName | utils/env_parse.go:12-45 | a name whose text does not end in digits in brackets behind something on the same line is read as itself |
| CliResults.StepOfNoDigits | utils/env_parse.go:12-45 | so are last brackets without a number in them |
| CliResults.StepOfBracketed | utils/env_parse.go:12-50 | any other goes to that element of the array named on the last line before the bracket, and is passed over if the index is beyond an int |
| CliResults.StepOfItem | utils/env_parse.go:45-50 | a name with an index in brackets is read as that element |
| CliResults.ParseArgOf | utils/env_parse.go:29-41 | the argument for a line is read as that line |
| CliResults.PutItems | utils/env_parse.go:51-79 | elements in ascending order find their array just long enough and fill it |
| CliResults.RoundTrip | utils/env_parse.go:18-99 | spelling out a tree, of any names without separators that do not end in an index, as arguments and parsing them gives the tree back, each leaf converted, under the prefix if there is one |
| CliFailures.PutFailsIff | utils/env_parse.go:44-98 | one path panics if and only if walking it reaches an index without room, and collides if and only if it reaches, before its end, something that is no tree |
| CliFailures.IndicesPanicIff | utils/env_parse.go:56-65 | indices into an array that is there panic if and only if one of them is beyond the length reached so far |
| CliFailures.IndexArgsPanicIff | utils/env_parse.go:51-65 | arguments that set elements of one new array panic if and only if the first is too large for an array or a later one leaves a gap after those before it |
| CliFailures.GapPanics | utils/env_parse.go:57-65 | a gap panics |
| CliFailures.IndexIntoLeafPanics | utils/env_parse.go:56 | an index into a leaf panics |
| CliValues.ShowConvertIff | utils/env_parse.go:140-176 | a value written as an argument is read back as itself if and only if a field of that kind can hold it |
| CliValues.SignedNumeral | utils/env_parse.go:146-166 | digits with or without leading zeros are a number within 64 bits, and a sign is allowed exactly where negative numbers are |
| CliValues.ShowNumber | utils/env_parse.go:146-166 | a decimal numeral is read back as its number exactly within 64 bits, signed or unsigned |
| CliBuilder.TreeBuilder.SetPath | utils/env_parse.go:44-98 | walking down and changing nested maps in place does to the whole tree what setting the path does |
| CliBuilder.TreeBuilder.ParseCLI | utils/env_parse.go:26-99 | so do all arguments in turn, up to the first that fails, with the same failure |
| CliBuilder.TreeBuilder.Grow | utils/env_parse.go:51-61 | an array is made large enough or grows by at most one, and nothing else changes |
| CliBuilder.ThroughOwner | utils/env_parse.go:72-77 | each nested map is reached through one place only, so changing it changes the tree there |
| Tokenizer.StreamTokenizer.Add | utils/stream_tokenizer.go:14-47 | lines and carry are the split of what was carried and the cleaned argument; every line and the carry keep the limit, or nothing is reported or carried |
| Tokenizer.AddAll | utils/stream_tokenizer.go:14-47 | calls one after another give the reference run |
| Tokenizer.RunIsCleanedSplit | utils/stream_tokenizer.go:14-47 | without a limit any cutting gives the split of the stream, less the one-byte segments ended within a call |
| Tokenizer.FeedUnsplit | utils/stream_tokenizer.go:19-45 | a split loses nothing and leaves no token in a line |
| Tokenizer.LosslessIff | utils/stream_tokenizer.go:24 | the result is the split of the whole stream, however cut, if and only if no call ends a one-byte segment |
| Tokenizer.CuttingMatters | utils/stream_tokenizer.go:24 | the same two bytes give different lines when cut differently |

## Left out

- Pipeline: a non-positive nParallel is refused before anything starts, so configurations have n >= 1 where that matters; the closer's second release is one step that may or may not happen; several readers at once are not modelled.
- Pipeline events: `evReady` and `evDone` are flags there; their waiters are the subject of `Event.dfy`.
- Event: `Wait` on the condition variable and its broadcast; the time a sleep takes.
- Live tails in the file adapter (reactivation, inactivity, rotation of tailed files) and Close's wait for them; Parquet by magic bytes instead of by name; gzip, size cap and decoding are steps that succeed or fail.
- File contents: a read that overlaps a rewrite in place may get anything; a file that was replaced or removed while open keeps what it held.
- HarmonyEmails.EmailsWorker.FetchEmailsForSaas: other workers and rotations come between polls there; interleavings within a poll are in the results about every timeline of offers and rotations (NoDuplicates, ShippedOnceIff).
- FileAdapterMap.FileAdapter.ScanEntries: the disk and the decodes stand still during the scan; every interleaving with them is in the step system instead.
- Framing: ticks and counters between lines; `handleLine` is what a shipped string is given to.
- Deduping: `Close`; wall-clock scheduling beyond a rotation coming at least a window after the one before.
- Harmony: authentication, request bodies and retries; a request is a scripted reply. A scroll's working time per record is the parameter `delay`. Endless chains of event pages. Where a record of the gateway is timed within an inclusive or exclusive end of the window is left open.
- Okta and Proofpoint: the end of the requested interval matters only as the latest time of a returned event; warnings about large maps; events without an id are passed through by the same code but nothing is claimed about them.
- OktaCoverage.NothingMissed, ProofpointCoverage.NothingMissed: what the servers hold does not change; an event that turns up only after its time was asked for is caught by the overlap of the windows or not at all.
- Clocks are non-decreasing readings, one per call.
- Servers are taken at their word where a result says so: Okta's and Proofpoint's return nothing older than asked for, and nothing from the future, and Proofpoint's end of query does not go back behind the overlap; Harmony's gateway returns the records of the queried window.
- JSON: auto-expansion of strings that hold JSON; extractors and typed getters; nil and empty typed lists are leaves; index tokens beyond an int are beyond any list.
- Arguments: the type map built by reflection is a function from a path to its kind, and conversion of leaves is a parameter of the tree results; which texts are floats is a predicate; marshalling the tree into the output struct; memory exhausted by a large array that `make` still grants. Lengths at which `make` itself panics are modelled, with the limit of 64-bit platforms of 48-bit addresses (`MAX_LEN`). For the largest int as an index the code panics or never ends, and both are the same outcome here.
- CliBuilder.TreeBuilder.SetPath: nested maps are numbered cells rather than heap objects; arrays are values of their entry, which nothing else refers to.
- Tokenizer.StreamTokenizer.Add: a negative MaxSize, which the code would treat as a limit nothing meets; ExpectedSize only reserves room.
- Adapters whose logic is request building, token fetching and shipping; `uspclient` and its buffers are one ship step that succeeds or fails.
