# Verified models of My Claude Code

A Dafny model of the decision logic of My Claude Code: the desktop shell's supervision loops, the
locked edits of the stored tiers and route pauses, the pause ledger of custom providers, the
reassembly of an event stream, the pending-voice index, two redactors, the document renderer's text
passes, the reference-table printer and parser, the credential pool and the model list.

`dafny verify dfyconfig.toml` checks everything.

## How it is laid out

| file | what it holds |
|---|---|
| `Options.dfy` | the optional value |
| `Text.dfy` | the Python string operations the code is written with: strip, split, join, partition, comma lists, stable deduplication, `replace` and `re.sub`, with their inverse laws |
| `Replacement.dfy` | how `str.replace` acts on texts put side by side |
| `Json.dfy` | JSON values |
| `Ladder.dfy` | the shell's three decisions on the status document |
| `Supervision.dfy` | `watch_health` and `wait_for_start` over a trace of probe answers and clock readings |
| `LadderRun.dfy` | the ladder thread beside the threads that press Retry, quit and close the window, as interleaved atomic steps |
| `LockedEdits.dfy` | many writers stepping through acquire, load, build, save, release, with and without the lock |
| `PauseLists.dfy` | the pause lists of the routes, where their settings come from, and what a settings write makes of them |
| `HarnessTiers.dfy`, `RoutePause.dfy` | the tier edit and the pause click as instances of that protocol |
| `PauseLedger.dfy` | disabling and enabling a custom provider |
| `ServedRefs.dfy` | what disabling does to the refs that the routes serve |
| `Reassembly.dfy` | an assistant message from its events |
| `VoiceIndex.dfy` | the two-key index of pending voices |
| `SecretRedaction.dfy`, `TokenRedaction.dfy` | redaction by known secret, and by shape |
| `FenceStrip.dfy`, `HtmlLines.dfy` | the HTML-line stripper of the document renderer, and its line patterns as grammars |
| `Anchors.dfy` | its heading anchors and contents |
| `ReferenceTable.dfy` | the configuration reference's tables |
| `CredentialPool.dfy` | the comma-joined key pool |
| `ModelCatalog.dfy` | the `/v1/models` list |

Loops that update variables and objects that update fields are methods and classes, each tied by its
`ensures` to a specification function; the lemmas are about those functions. What comes from outside
is a parameter: probe answers, clock readings, whether a settings write is accepted, `json.loads`,
`json.dumps`, `str.lower`, `str.upper`, the visibility filter. Durations are reals.

## Where the code falls short of what it says

- An accepted settings write makes the server go on with the managed file and the locked sources alone.
  A pause list that only the repo `.env` has is dropped by any write that is not of it, once the managed
  file has anything in it (`RepoListIsDropped`; `OtherListStays` and `WhatLasts` are exact). So a click on
  one route can lift pauses on another, and disabling one provider can lift pauses of refs that name
  another, or of its own refs (`ServedRefIsPaused`).
- A settings write skips, without an error, every key whose value comes from the process environment or
  an explicit env file. A pause click on such a route is answered as made and is not
  (`PauseHonoured`, `LockedClickDoesNothing`); disabling a provider puts pauses on the ledger that were
  never made (`LockedListIsRecorded`).
- Disabling and enabling a provider does not restore a pause list when a route's primary holds a
  comma: the pause is written as two refs and looked for as one. `DisableEnableRestores` gives the
  exact condition, `CommaPrimaryStaysPaused` the failing family. In the same way a pause click on a
  ref with a comma pauses the pieces and not the ref (`ClickDoesWhatItSays`, `PauseHonoured`).
- The stored form of a secret setting cannot be `********`: a pool edit that would leave that as the
  only key is answered as made and is dropped (`EditsAreHonoured`, `AddedMaskIsDropped`).
- A tier file that cannot be read for a moment loads as empty, and the edit then saves over it
  (`EveryCellHoldsItsLastEdit` says what is left).
- `redacted` can leave a secret when a marker that it inserts holds one, carried through the rest of
  the loop (`ExactlyWhenMarkersClear` is exact), or when an end of a marker completes one
  (`OverlapCompletesASecret`).
- Heading anchors collide when one slug is another slug with a suffix in use (`AnchorsDistinctIff`).
- A caption whose text is a fence opens a fence in the stripped document (`FenceSafety`,
  `ACaptionCanOpenAFence`).
- Escaping a pipe does not keep `parse_table` from splitting at it (`TableRoundTrip`, `EscKeepsPipes`).
- Seeding a voice under ids in use breaks the index unless it takes over whole entries
  (`SeedKeepsValid`).

## Model

| member | source | states |
|---|---|---|
| `Supervision.WatchHealth` | desktop-shell/src-tauri/src/lib.rs:324-382 | for every probe trace, each probe gets the reactions of its own unbroken failure run, and the loop ends at the first probe that finds the window left or the budget run out; the saturating counter makes no difference |
| `Supervision.WhatIsShown` | desktop-shell/src-tauri/src/lib.rs:329-378 | of any such watch: the error page with the log is shown exactly by the probe at which the watch gave up, after the text that the server does not answer; the tray says running after a healthy probe, reconnecting after a failed one whose run has reached the threshold, and nothing is shown on leaving or below the threshold |
| `Supervision.SpentBudget` | desktop-shell/src-tauri/src/lib.rs:348-354 | the budget is spent exactly when the unbroken failures that end here reach the threshold and the first of them was recorded at least the reconnect budget ago |
| `Supervision.RunLengthMeaning` | desktop-shell/src-tauri/src/lib.rs:326-352 | the run length is n exactly when the last n probes failed and the one before did not |
| `Supervision.PagesAlternate` | desktop-shell/src-tauri/src/lib.rs:335-367 | banner and dashboard reload strictly alternate, banner first, and the last is a banner exactly while an outage is on show |
| `Supervision.VerdictsEscalate` | desktop-shell/src-tauri/src/ladder.rs:103-117 | within one failure run the verdicts go Ignore, Waiting, Failed in that order, a run below the threshold has painted nothing, and Failed comes exactly when the budget has run out |
| `Supervision.OutageEnds` | desktop-shell/src-tauri/src/lib.rs:324-382 | under an outage that does not end the budget has run out within max(1, threshold, ceil(budget / poll) + 1) failed probes, wherever the outage starts |
| `Supervision.WaitForStart` | desktop-shell/src-tauri/src/lib.rs:297-320 | the first check that is healthy or past the budget ends the wait; the answer is true exactly when a check was healthy, and every earlier check shows one page |
| `Supervision.StartDecides` | desktop-shell/src-tauri/src/lib.rs:297-320 | one of the first max(1, ceil(budget / interval) + 1) checks ends the wait |
| `LadderRun.PassAccounting` | desktop-shell/src-tauri/src/lib.rs:621-628 | in every interleaving, passes begun are at most one more than installs run plus Retry presses |
| `LadderRun.PassesArePaidFor` | desktop-shell/src-tauri/src/lib.rs:428-557 | the invariant behind it: an announced pass and a press still pending are already paid for |
| `LadderRun.RetryConsumesAFreshPress` | desktop-shell/src-tauri/src/lib.rs:183-191 | a return of wait_for_retry for a Retry follows a press made after that wait cleared the flag, with no pass in between |
| `LadderRun.RetryOrInstallBeginsAPass` | desktop-shell/src-tauri/src/lib.rs:621-628 | a taken press, and a finished install, lead to the next pass unless the thread is to quit or its window is gone |
| `LadderRun.PressBeginsAPass` | desktop-shell/src-tauri/src/lib.rs:183-191 | a press at any moment of a wait ends it, and the next pass begins |
| `LadderRun.FlagsSayWhatHappened` | desktop-shell/src-tauri/src/lib.rs:183-191 | the quit flag and the missing window say what the run has had; a press is pending exactly when it came after the last clear and the last swap |
| `LadderRun.WhatAPassDoes` | desktop-shell/src-tauri/src/lib.rs:428-557 | the server is watched exactly after a status that says healthy or a start that answered, spawned exactly after one that says free and spawn, and an install runs exactly when nothing is installed |
| `LadderRun.SpawnOncePerPass` | desktop-shell/src-tauri/src/lib.rs:428-557 | mcc-server is spawned only after this pass's own status said free and spawn, and once in a pass |
| `LadderRun.QuittingStopsPasses` | desktop-shell/src-tauri/src/lib.rs:621-628 | after quitting, or after the window is lost, no pass begins beyond the one whose check of the flag was already made and whose window is still there |
| `LadderRun.NeverStuck` | desktop-shell/src-tauri/src/lib.rs:428-557 | until the thread ends, one of its own actions is enabled |
| `LadderRun.StoppingEnds` | desktop-shell/src-tauri/src/lib.rs:183-191 | after quitting, or after the window is lost, the thread has ended after at most ten more actions of its own, whatever the others do |
| `LadderRun.EndsOnlyForAReason` | desktop-shell/src-tauri/src/lib.rs:621-628 | and it ends for no other reason |
| `LockedEdits.NoLostUpdate` | src/my_claude_code/api/admin_harness_routes.py:93-98 | in every interleaving of locked writers, at every moment, the document is the initial one with exactly the saved edits applied in lock order |
| `LockedEdits.UnlockedLosesUpdate` | src/my_claude_code/api/admin_harness_routes.py:93-98 | without the lock a run is reachable in which both writers finish and one edit is gone |
| `HarnessTiers.EditSetsOneCell` | src/my_claude_code/config/harness_tiers.py:170-191 | an edit sets its own (agent, tier) cell and no other |
| `HarnessTiers.DocumentRoundTrip` | src/my_claude_code/config/harness_tiers.py:193-203 | storable tiers written to the document and loaded come back the same |
| `HarnessTiers.LoadedIsStorable` | src/my_claude_code/config/harness_tiers.py:119-278 | whatever JSON the file holds, or none, what is loaded from it can be stored |
| `HarnessTiers.AgentsAreRead` | src/my_claude_code/config/harness_tiers.py:119-150 | an agent is loaded from the last section that names it and says something of a tier, and not at all if there is none |
| `HarnessTiers.TiersAreRead` | src/my_claude_code/config/harness_tiers.py:209-227 | a tier is loaded from the last object that names it |
| `HarnessTiers.RefsAreRead` | src/my_claude_code/config/harness_tiers.py:261-278 | a list is loaded as the usable refs in it, each once, in the order in which they first come |
| `HarnessTiers.RefIsRead` | src/my_claude_code/config/harness_tiers.py:241-258 | a string is loaded as the ref in it without outer blanks, if a tier may hold that |
| `HarnessTiers.ValidRefMeaning` | src/my_claude_code/config/harness_tiers.py:281-298 | a tier may hold exactly the texts with a first slash, something that is not blank on both sides of it, and no spelling of `mcc` before it |
| `JsonValues.MergedMeaning` | src/my_claude_code/config/harness_tiers.py:119-203 | of a repeated key of a parsed object the first place and the last value count |
| `HarnessTiers.EditIsStorable` | src/my_claude_code/config/harness_tiers.py:170-191 | an accepted edit keeps the tiers storable |
| `HarnessTiers.CleanList` | src/my_claude_code/api/admin_harness_routes.py:210-216 | the stripped, non-blank refs, first occurrences in order |
| `HarnessTiers.SetHarnessTier` | src/my_claude_code/api/admin_harness_routes.py:164-207 | a request is refused exactly for an unknown agent, an unknown tier, or a ref that is not one; an accepted one is storable and says what the payload says, cleaned |
| `HarnessTiers.EveryCellHoldsItsLastEdit` | src/my_claude_code/api/admin_harness_routes.py:219-227 | in every interleaving, every cell of the stored document holds the last committed edit of it in lock order, or what it held at the start; a read that fails inside the lock counts as empty |
| `HarnessTiers.UnlockedTierEditIsLost` | src/my_claude_code/api/admin_harness_routes.py:219-227 | without the lock a finished tier edit can be gone from the document |
| `RoutePause.SetRoutePause` | src/my_claude_code/api/admin_routes.py:1172-1213 | the errors, and the one key an accepted click edits |
| `RoutePause.ClickDoesWhatItSays` | src/my_claude_code/api/admin_routes.py:1203-1211 | what an accepted click makes of every ref on every route: on the clicked list a pause adds the ref, or its pieces if it has commas, and an unpause takes the ref away; a locked list stays; any other list becomes what the write starts from |
| `RoutePause.PauseHonoured` | src/my_claude_code/api/admin_routes.py:1203-1211 | after a pause click the ref is paused if and only if it was before or it has no comma and the list is not locked; after an unpause click it is not if and only if it was not before or the list is not locked |
| `RoutePause.LockedClickDoesNothing` | src/my_claude_code/config/admin/persistence.py:118-123 | a click on a locked list leaves a pause list as it was if and only if that list is locked or is what the write starts from |
| `RoutePause.NoPauseClickIsLost` | src/my_claude_code/runtime/application.py:194-213 | in every interleaving of any clicks inside the config lock, a ref is paused exactly as the last committed click to say anything of it says (a pause speaks for every piece of its ref); if none does, exactly when it is on the list the first committed click on the route finds; on a locked list as at the start |
| `RoutePause.OtherRoutes` | src/my_claude_code/config/admin/persistence.py:104-114 | what any number of clicks on other routes leave of a list: what the managed file said of it, or the repo `.env` if a click found the file empty, or nothing |
| `RoutePause.UnlockedClickIsLost` | src/my_claude_code/api/admin_routes.py:1179-1183 | building outside the lock can drop a click |
| `PauseLists.RefsAfterWrite` | src/my_claude_code/config/admin/persistence.py:87-138 | what an accepted write makes of any pause list: a locked one is as it was, one that is written is what the update says, and any other is what the write starts from, the managed file or, when that is empty, the repo `.env` |
| `PauseLists.OtherListStays` | src/my_claude_code/config/admin/persistence.py:104-114 | a list that a write is not of stays if and only if it is locked or is what the write starts from |
| `PauseLists.WhatLasts` | src/my_claude_code/config/admin/persistence.py:104-114 | that is so for every list in the managed file; for one outside it exactly when it is locked, or is empty beside a file with something in it, or is the repo `.env`'s and the file is empty |
| `PauseLists.SettledByWrite` | src/my_claude_code/config/admin/persistence.py:165-175 | after an accepted write it is so for every list, unless that write emptied the managed file |
| `PauseLists.RepoListIsDropped` | src/my_claude_code/config/admin/validation.py:22-41 | a list that only the repo `.env` has, beside a managed file with anything in it, is in force at the start and empty after any accepted write that is not of it |
| `PauseLedger.ShippedRoutesAreDistinct` | src/my_claude_code/config/admin/values.py:93-104 | the shipped routes own different pause lists |
| `PauseLedger.UpdatesPausingProvider` | src/my_claude_code/config/admin/route_refs.py:74-101 | the loop computes the planned pause lists and the list of exactly the pairs it adds |
| `ServedRefs.LedgerRecordsUnpaused` | src/my_claude_code/config/admin/route_refs.py:85-101 | an accepted disable adds to the ledger exactly the pairs of a route and a ref that it serves as primary or fallback, that names the provider and is not paused, each once, route by route and in the order of serving |
| `ServedRefs.DisablePauses` | src/my_claude_code/config/admin/route_refs.py:85-101 | what an accepted disable makes of every ref on every route: if the route serves a ref of the provider that was not paused, the refs that were paused and every piece of a served ref of the provider are paused; if not, the list is what the write starts from |
| `ServedRefs.ServedRefIsPaused` | src/my_claude_code/api/admin_custom_routes.py:503-527 | a served ref of the provider without a comma is paused afterwards if and only if some served ref of the provider was not paused or the write starts from its pause; so always if it was not paused itself |
| `PauseLedger.NamesMeaning` | src/my_claude_code/config/admin/route_refs.py:43-44 | a ref names a provider exactly when it is that name without a slash, or begins with it and a slash |
| `PauseLedger.UpdatesUnpausing` | src/my_claude_code/config/admin/route_refs.py:104-119 | the loop over pairs grouped by key computes the lists without exactly those pairs |
| `PauseLedger.RefsAfterDisable` | src/my_claude_code/config/admin/route_refs.py:74-101 | after a disable a pause list that gains refs and is not locked starts with the old one, has no duplicate, and gains exactly what the new refs parse to; a locked one is as it was; any other is what the write starts from |
| `PauseLedger.RefsAfterEnable` | src/my_claude_code/config/admin/route_refs.py:104-119 | after an enable a pause list that loses refs and is not locked is the old one without the ledger's refs for it; a locked one is as it was; any other is what the write starts from |
| `PauseLedger.Admin.UpdateCustomProvider` | src/my_claude_code/api/admin_custom_routes.py:345-397 | the whole new state of a switch on or off, refused writes, locked lists and the sources of every setting included |
| `PauseLedger.SwitchKeepsTheRest` | src/my_claude_code/api/admin_custom_routes.py:345-397 | a switch touches no other provider; a refused write changes no setting and no ledger; an accepted enable empties the ledger and a disable only adds to it |
| `PauseLedger.SwitchIsHonoured` | src/my_claude_code/api/admin_custom_routes.py:345-397 | over any run a provider is on or off as it was last switched, whether the writes were accepted or not |
| `PauseLedger.Admin.PauseRoutesFor` | src/my_claude_code/api/admin_custom_routes.py:503-527 | an accepted write pauses on the lists that are not locked and puts all the pauses on the ledger; a refused one does neither |
| `PauseLedger.Admin.UnpauseRoutesFor` | src/my_claude_code/api/admin_custom_routes.py:530-551 | an accepted write lifts on the lists that are not locked and empties the ledger; a refused one does neither |
| `PauseLedger.DisableEnableRestores` | src/my_claude_code/api/admin_custom_routes.py:376-397 | disable then enable brings a pause list back as the identical sequence if and only if it is locked; or it gains refs, none of the paused ones is on the ledger already, and every gained ref parses to refs that are paused or lifted again; or it gains none and is what the two writes start from, without the ledger's refs |
| `PauseLedger.RestoresBesideAFile` | src/my_claude_code/api/admin_custom_routes.py:376-397 | when the managed file has settings: if and only if it is locked, or it is restorable and in the file, or gains a pause, or is empty |
| `PauseLedger.LockedListIsRecorded` | src/my_claude_code/api/admin_custom_routes.py:503-527 | on a locked list the ledger records pauses that were not made |
| `PauseLedger.PlainRoutesAreRestorable` | src/my_claude_code/config/admin/route_refs.py:74-101 | a route is restorable when the ledger has nothing for its list and its primary has no comma |
| `PauseLedger.CommaPrimaryStaysPaused` | src/my_claude_code/config/admin/route_refs.py:74-101 | with an empty pause list, an empty chain and nothing on the ledger for the list, a route is not restorable when its primary is any two refs joined by a comma, the first one naming the provider |
| `PauseLedger.UserPausesSurvive` | src/my_claude_code/api/admin_custom_routes.py:503-551 | over every run of disables, enables, refused writes, key edits, user pauses (of refs with commas too) and unpauses, a pause the user made of pairs on no ledger stays until the user takes it back, and so does one that was there, if its list is what a write starts from |
| `PauseLedger.LedgerPairIsLifted` | src/my_claude_code/api/admin_custom_routes.py:530-551 | an accepted enable with a ledger lifts a pause exactly when its list is not locked and its pair is on the ledger, or its list loses no ref and the write does not start from it |
| `PauseLedger.LedgersStayOwn` | src/my_claude_code/config/admin/route_refs.py:74-101 | every operation keeps a provider's ledger to refs that name the provider |
| `PauseLedger.EnableLeavesOthersAlone` | src/my_claude_code/api/admin_custom_routes.py:530-551 | enabling one provider lifts a pause of a ref that names another exactly when it writes, the list is not locked and loses no ref, and the write does not start from that pause |
| `Reassembly.CollectBlocks` | smoke/lib/e2e.py:670-697 | the event loop holds every started block as its own events have grown it, and raises exactly for an event without an index |
| `Reassembly.AssistantContentFromEvents` | smoke/lib/e2e.py:670-710 | the content is every started block, in start order, grown by its own events alone |
| `Reassembly.FinishTwice` | smoke/lib/e2e.py:699-710 | finishing a block listed twice changes nothing the second time |
| `Reassembly.ReassemblyUndoesInterleaving` | smoke/lib/e2e.py:670-710 | whatever the interleaving, each block comes out grown by its own deltas, in start order |
| `Reassembly.StreamedBlockComesBack` | smoke/lib/e2e.py:679-710 | a block comes back from its own deltas if and only if it is what its start and its chunks say; deltas of other kinds count for nothing |
| `Reassembly.FieldGoesOn` | smoke/lib/e2e.py:685-697 | a streamed field goes on from the string it starts with, from the `str()` of anything else, or from nothing, and no other field changes |
| `Reassembly.RoundTrip` | smoke/lib/e2e.py:670-710 | for any blocks, any chunking into text, thinking or JSON deltas and any interleaving, the content is the blocks if and only if each is what its start and its chunks say |
| `Reassembly.UsualStreams` | smoke/lib/e2e.py:670-710 | text and thinking that start empty, tool calls that stream their input, and blocks sent whole, calls without arguments among them, are what their start and chunks say |
| `Reassembly.DeltasOfDifferentBlocksCommute` | smoke/lib/e2e.py:679-697 | swapping adjacent deltas of different blocks changes nothing |
| `Reassembly.EarlyDeltaIsIgnored` | smoke/lib/e2e.py:681-684 | a delta for a block that has not started changes nothing |
| `VoiceIndex.FakePlatform.SeedPendingVoice` | smoke/lib/e2e.py:428-439 | stores the result under its voice key and its status key and touches no other |
| `VoiceIndex.FakePlatform.CancelPendingVoice` | smoke/lib/e2e.py:441-462 | finds a result by either key, removes both, and names what to delete |
| `VoiceIndex.FakePlatform.CancelAllPendingVoices` | smoke/lib/e2e.py:464-474 | returns each pending result once and empties the index |
| `VoiceIndex.FakePlatform.CancelPendingVoicesInScope` | smoke/lib/e2e.py:476-491 | returns each result of the scope once and removes them |
| `VoiceIndex.FakePlatform.PendingVoiceCount` | smoke/lib/e2e.py:493-500 | counts the distinct pending results |
| `VoiceIndex.SeedKeepsValid` | smoke/lib/e2e.py:428-439 | seeding keeps the index valid if and only if it takes over whole entries, fresh ids in particular |
| `VoiceIndex.CancelRemovesBothKeys` | smoke/lib/e2e.py:441-462 | cancelling by either key leaves neither, keeps every other result, and keeps the index valid |
| `VoiceIndex.ScopeCancelIsExact` | smoke/lib/e2e.py:476-491 | a scoped cancel removes exactly the scope's entries |
| `VoiceIndex.ScopeResults` | smoke/lib/e2e.py:476-491 | the results of a scoped cancel are the pending ones of the scope |
| `VoiceIndex.PendingAreAsSeeded` | smoke/lib/e2e.py:428-439 | over any run, fresh ids or not, every pending result, and so every one the bulk cancels hand back, names both messages of its seeding for deletion |
| `VoiceIndex.Conservation` | smoke/lib/e2e.py:428-500 | over every run with fresh ids, the results ever seeded are those handed back and those pending, as multisets |
| `SecretRedaction.Redacted` | smoke/lib/config.py:490-502 | the loop over the environment, and that its result holds no secret under the exact condition |
| `SecretRedaction.ExactlyWhenMarkersClear` | smoke/lib/config.py:490-502 | for every environment, in any order, whose secrets are detached from the markers: no secret is left in any text if and only if the loop clears each marker that it can insert |
| `SecretRedaction.PlainSecretsAreDetached` | smoke/lib/config.py:501 | secrets without angle brackets are detached from every marker |
| `SecretRedaction.RedactionIsComplete` | smoke/lib/config.py:490-502 | for every environment, brackets or not: no secret is left in any text when each secret is off its own marker and those of later secrets, and cannot be read in them |
| `SecretRedaction.EverySecretGoes` | smoke/lib/config.py:490-502 | said of the environment itself: a value of four characters or more of a variable with KEY, TOKEN, SECRET, WEBHOOK or AUTH in its name is in no redacted text, under that condition on such variables |
| `SecretRedaction.NoSecretNoChange` | smoke/lib/config.py:490-502 | an environment without such a variable leaves every text as it is |
| `SecretRedaction.SurroundingsStay` | smoke/lib/config.py:501 | with one such variable the text before its first occurrence stays, the occurrence becomes the marker with its name, and the rest is redacted in turn |
| `SecretRedaction.OneSecretExactly` | smoke/lib/config.py:490-502 | one detached secret is always cleared if and only if it cannot be read in its marker |
| `SecretRedaction.TextWithoutSecrets` | smoke/lib/config.py:490-502 | a text without any secret is left as it is |
| `SecretRedaction.SecretBecomesMarker` | smoke/lib/config.py:501 | a secret that holds no earlier one is itself turned into its marker, carried through the later secrets |
| `SecretRedaction.OverlapCompletesASecret` | smoke/lib/config.py:501 | a secret that ends in the start of a later secret's marker is completed by that marker |
| `Replacement.ReplaceSplits` | smoke/lib/config.py:501 | replacement works on the two sides of a border that no occurrence lies across |
| `Replacement.StayApart` | smoke/lib/config.py:501 | and such a border stays one under replacement by a marker that is off the secret |
| `Replacement.ReplaceRemoves` | smoke/lib/config.py:501 | one replacement removes what it looks for and brings back no text that its marker is off and does not hold |
| `TokenRedaction.RedactTextCleans` | scripts/dev/record_anthropic_oauth_exchange.py:50-52 | no redacted text has a run of forty token characters or an `sk-ant-` before a token character |
| `TokenRedaction.FixedPoints` | scripts/dev/record_anthropic_oauth_exchange.py:50-52 | redaction changes a text exactly when it has one |
| `TokenRedaction.CleanMeaning` | scripts/dev/record_anthropic_oauth_exchange.py:36-37 | clean means: nowhere `sk-ant-` before a token character, and nowhere forty token characters in a row |
| `TokenRedaction.RedactTextTwice` | scripts/dev/record_anthropic_oauth_exchange.py:50-52 | redacting again changes nothing |
| `TokenRedaction.RedactsWordByWord` | scripts/dev/record_anthropic_oauth_exchange.py:36-37 | words are redacted independently and the separators stay |
| `TokenRedaction.RedactedWord` | scripts/dev/record_anthropic_oauth_exchange.py:50-52 | a word without a key is kept unless it is long; otherwise the first key and all after it is one marker, and what precedes it is kept unless it is long |
| `TokenRedaction.RedactCleans` | scripts/dev/record_anthropic_oauth_exchange.py:55-62 | every string value at every depth is clean, and nothing but string values changes |
| `TokenRedaction.RedactedAt` | scripts/dev/record_anthropic_oauth_exchange.py:55-62 | at every path of a document, a string becomes that string redacted, any other scalar stays, and the redaction has a part exactly where the document has one |
| `TokenRedaction.RedactFixedPoints` | scripts/dev/record_anthropic_oauth_exchange.py:55-62 | a document is left alone exactly when it is clean |
| `TokenRedaction.RedactTwice` | scripts/dev/record_anthropic_oauth_exchange.py:55-62 | redacting a document again changes nothing |
| `TokenRedaction.RedactHeaders` | scripts/dev/record_anthropic_oauth_exchange.py:65-73 | the loop over the headers; every value written is clean, and hidden by name where it must be |
| `TokenRedaction.LastOfANameWins` | scripts/dev/record_anthropic_oauth_exchange.py:65-73 | the value written is that of the last header with the lowered name |
| `TokenRedaction.HeaderNames` | scripts/dev/record_anthropic_oauth_exchange.py:65-73 | no header is dropped and none invented |
| `TokenRedaction.WriteFixture` | scripts/dev/record_anthropic_oauth_exchange.py:81-97 | what is written never says `sk-ant`, and is refused exactly when it would |
| `TokenRedaction.BarePrefixSurvives` | scripts/dev/record_anthropic_oauth_exchange.py:92-93 | the refusal is needed: the bare prefix passes redaction |
| `FenceStrip.StripHtmlOnlyLines` | src/my_claude_code/api/docs_render.py:85-153 | the loop writes the texts of the surviving lines |
| `FenceStrip.EachLineGetsItsOutcome` | src/my_claude_code/api/docs_render.py:111-152 | every written line is what its own source line calls for, and every line that calls for something is written |
| `FenceStrip.OriginsIncrease` | src/my_claude_code/api/docs_render.py:85-153 | nothing is reordered or repeated |
| `FenceStrip.FencedCodeIsUntouched` | src/my_claude_code/api/docs_render.py:104-106 | every fence line and every line between fences survives verbatim, exactly once |
| `FenceStrip.WhatVanishes` | src/my_claude_code/api/docs_render.py:88-97 | the lines that vanish are exactly the HTML-only lines outside fences that are no autolinks |
| `HtmlLines.HtmlOnlyMeaning` | src/my_claude_code/api/docs_render.py:49 | the pattern of HTML-only lines matches exactly the lines made of blanks and one tag or more with blanks after each |
| `HtmlLines.FenceMeaning` | src/my_claude_code/api/docs_render.py:50 | the fence pattern matches exactly the lines that begin with three backticks or tildes, blanks aside |
| `HtmlLines.SummaryMeaning` | src/my_claude_code/api/docs_render.py:54-56 | the summary pattern matches with this title exactly when the line is an opening and a closing summary tag around it, in any mix of cases, with blanks around them |
| `HtmlLines.AutolinkMeaning` | src/my_claude_code/api/docs_render.py:60 | the autolink pattern matches exactly the lines made of a scheme and a rest in angle brackets, with blanks around them |
| `HtmlLines.WrappedMeaning` | src/my_claude_code/api/docs_render.py:65 | the pattern of wrapped lines matches exactly a tag, anything, and a closing tag, with blanks around them |
| `HtmlLines.TagsAreRemoved` | src/my_claude_code/api/docs_render.py:138 | what is left of texts with tags between them is the texts, stripped |
| `HtmlLines.ElementOutcome` | src/my_claude_code/api/docs_render.py:111-152 | a line outside a fence that is one element becomes nothing if it has no text, its text in bold if it is a summary, and its bare text otherwise |
| `HtmlLines.OtherLinesStay` | src/my_claude_code/api/docs_render.py:111-152 | autolinks, and lines that match none of the other patterns, stay as they are |
| `FenceStrip.FenceSafety` | src/my_claude_code/api/docs_render.py:85-153 | every kept line has the same in-fence status in the output as in the input, and the end too, if and only if no line is unwrapped to a fence |
| `FenceStrip.ACaptionCanOpenAFence` | src/my_claude_code/api/docs_render.py:127-141 | any fence text in a paragraph element is such a line |
| `FenceStrip.DelimitersAreFences` | src/my_claude_code/api/docs_render.py:50 | every opening or closing fence of CommonMark 0.31.2 section 4.5 matches the pattern |
| `FenceStrip.ToggleAgrees` | src/my_claude_code/api/docs_render.py:109-115 | the toggle agrees with section 4.5 on every prefix exactly when every line the pattern matches is a fence for the standard where it stands |
| `FenceStrip.SingleFormAgrees` | src/my_claude_code/api/docs_render.py:109-115 | on documents with a single fence form the toggle is the standard's state |
| `FenceStrip.CodeBlocksSurvive` | src/my_claude_code/api/docs_render.py:104-106 | so what such a document shows as code by the standard's reading is never touched |
| `Anchors.SlugsAreNormal` | src/my_claude_code/api/docs_render.py:156-157 | every slug is non-empty, of a-z and 0-9 with single inner dashes, whatever the heading |
| `Anchors.SlugFixedPoints` | src/my_claude_code/api/docs_render.py:156-157 | the slugs are exactly the fixed points; slugifying is idempotent |
| `Anchors.SlugSaysRuns` | src/my_claude_code/api/docs_render.py:156-157 | the pieces of a slug between its dashes are the runs of a-z and 0-9 in the lowered heading; a heading without any gives `section` |
| `Anchors.RunsAreTheRuns` | src/my_claude_code/api/docs_render.py:156-157 | these runs are exactly the maximal ones, from left to right |
| `Anchors.SameSlug` | src/my_claude_code/api/docs_render.py:156-157 | two headings have the same slug exactly when they have the same runs, none counting as the word section |
| `Anchors.SuffixedInjective` | src/my_claude_code/api/docs_render.py:177 | slug and number can be read back from a suffixed anchor |
| `Anchors.AnchorsDistinctIff` | src/my_claude_code/api/docs_render.py:173-177 | anchors are pairwise distinct if and only if no slug is another slug with a suffix in use |
| `Anchors.NoNumberedSlugs` | src/my_claude_code/api/docs_render.py:173-177 | so they are when no slug is another one followed by a dash and a number |
| `Anchors.NumberedHeadingCollides` | src/my_claude_code/api/docs_render.py:173-177 | two equal headings and one spelled like the second anchor collide |
| `Anchors.AnchorFor` | src/my_claude_code/api/docs_render.py:173-177 | the k-th repeat of a slug gets suffix k - 1, and the counts stay those of the slugs so far |
| `Anchors.Decorate` | src/my_claude_code/api/docs_render.py:180-199 | every heading token gets its anchor as id, no other token changes, and the headings two and three deep are listed |
| `Anchors.IdMeaning` | src/my_claude_code/api/docs_render.py:173-177 | the id of a heading is the slug of the inline text after its opening token, with the number of earlier headings of that slug after a dash if there are any |
| `Anchors.ContentsMeaning` | src/my_claude_code/api/docs_render.py:180-199 | the contents are exactly the headings two and three deep, in the order of the document, with their ids, texts and depths |
| `Anchors.IdsDistinctIff` | src/my_claude_code/api/docs_render.py:180-199 | no two headings of a document share an id, exactly when their slugs do not clash |
| `Anchors.IdsAreUrlSafe` | src/my_claude_code/api/docs_render.py:180-199 | every id is a non-empty text of a-z, 0-9 and dashes |
| `ReferenceTable.ParseTable` | scripts/gen_claude_config_reference.py:692-700 | the rows after header and separator, up to the first line that is no table row |
| `ReferenceTable.RowRoundTrip` | scripts/gen_claude_config_reference.py:697 | a printed row reads back as its trimmed cells if and only if no cell holds a pipe |
| `ReferenceTable.EscKeepsPipes` | scripts/gen_claude_config_reference.py:879-882 | escaping neither hides a pipe nor brings one in |
| `ReferenceTable.EscapedText` | scripts/gen_claude_config_reference.py:879-882 | an escaped text is one line without outer blanks in which every pipe has its backslash |
| `ReferenceTable.EscapedLinksAreAbsolute` | scripts/gen_claude_config_reference.py:879-882 | no link relative to the documentation site is left |
| `ReferenceTable.ValuesCellReads` | scripts/gen_claude_config_reference.py:896-938 | split at its backticks the values cell gives the values in order, then the default, and the words between them; a dash alone says that there is neither |
| `ReferenceTable.PurposeSays` | scripts/gen_claude_config_reference.py:896-938 | the purpose comes after the marks of the flags and a dash, if and only if a flag is set |
| `ReferenceTable.ByNameFacts` | scripts/gen_claude_config_reference.py:901 | sorting keeps exactly the entries, orders them by name and keeps the order of namesakes |
| `ReferenceTable.LeqMeaning` | scripts/gen_claude_config_reference.py:901 | the order of names is that of their first difference, a name before its continuations |
| `ReferenceTable.FlagsTell` | scripts/gen_claude_config_reference.py:885-893 | the marks tell exactly which flags are set, and there are none exactly when no flag is |
| `ReferenceTable.EnvTable` | scripts/gen_claude_config_reference.py:896-915 | header, separator and one row per entry in name order; fails exactly for an unknown control |
| `ReferenceTable.SettingTable` | scripts/gen_claude_config_reference.py:918-938 | the same with the example column |
| `ReferenceTable.TableRoundTrip` | scripts/gen_claude_config_reference.py:692-700 | a printed table, wherever it stands, parses to the trimmed cells of its entries in name order if and only if no printed field of any entry holds a pipe |
| `CredentialPool.Collect` | src/my_claude_code/api/admin_routes.py:680-687 | the loop over the submitted keys |
| `CredentialPool.NewKeysAre` | src/my_claude_code/api/admin_routes.py:680-687 | the added keys are exactly the submitted ones not yet there, each once |
| `CredentialPool.AddingDeduplicates` | src/my_claude_code/api/admin_routes.py:680-699 | adding to a duplicate-free pool is a stable deduplication of pool and paste |
| `CredentialPool.Pool.Add` | src/my_claude_code/api/admin_routes.py:658-714 | every refusal and when it comes; otherwise the new keys are appended, unless the mask would be the only key, and added + skipped = submitted |
| `CredentialPool.Pool.Delete` | src/my_claude_code/api/admin_routes.py:718-747 | every refusal and when it comes; otherwise exactly the key at the index goes, unless the mask would be the only key left |
| `CredentialPool.RunRefines` | src/my_claude_code/api/admin_routes.py:658-747 | over any run of adds and deletes, parsing the stored text gives the list the same edits make of the parsed list, the mask's included |
| `CredentialPool.EditsAreHonoured` | src/my_claude_code/config/admin/persistence.py:124-125 | the pool is all along what the edits ask for if and only if none of them would leave the mask as the only key |
| `CredentialPool.AddedMaskIsDropped` | src/my_claude_code/config/admin/persistence.py:124-125 | adding the mask to an empty pool stores nothing |
| `CredentialPool.RunDistinct` | src/my_claude_code/api/admin_routes.py:658-747 | a duplicate-free pool stays duplicate-free |
| `CredentialPool.RunKeepsOrder` | src/my_claude_code/api/admin_routes.py:658-747 | keys that are never deleted keep their order over any run |
| `CredentialPool.DeleteUndoesAdd` | src/my_claude_code/api/admin_routes.py:658-747 | deleting the key just appended undoes adding it, if and only if the mask is not the only other key |
| `CredentialPool.OnlyTheLastUndoes` | src/my_claude_code/api/admin_routes.py:729-732 | deleting any other position does not |
| `ModelCatalog.IdsDecode` | src/my_claude_code/core/gateway_model_ids.py:20-51 | both ids of a provider/model ref decode to it and to whether thinking is off; those of any other ref do not decode |
| `ModelCatalog.DecodesOnlyIds` | src/my_claude_code/core/gateway_model_ids.py:20-51 | and nothing else decodes |
| `ModelCatalog.ModelList.AppendUnique` | src/my_claude_code/api/model_catalog.py:175-181 | list and seen set stay the first-of-each-id form of the candidates met so far |
| `ModelCatalog.ModelList.AppendVariants` | src/my_claude_code/api/model_catalog.py:184-207 | the candidates a provider ref adds |
| `ModelCatalog.BuildModelsListResponse` | src/my_claude_code/api/model_catalog.py:96-163 | the list is the first-of-each-id form of the full candidate sequence, with its own ends as first and last id |
| `ModelCatalog.FirstOfEachIdFacts` | src/my_claude_code/api/model_catalog.py:175-181 | ids are pairwise distinct, no id is lost, and each model kept is the first with its id |
| `ModelCatalog.FirstsInOrder` | src/my_claude_code/api/model_catalog.py:175-181 | the models kept are in the order of their first occurrences |
| `ModelCatalog.ListIsInOrder` | src/my_claude_code/api/model_catalog.py:96-163 | configured models come first, then the cached ones, the fixed aliases and the tiers |
| `ModelCatalog.ListedModelsAreNamed` | src/my_claude_code/api/model_catalog.py:96-163 | every listed model is a visible source under one of its ids and display names, a fixed alias, or, when enabled, a tier named by its caption and the model its route leads to |
| `ModelCatalog.WhatIsOffered` | src/my_claude_code/api/model_catalog.py:104-125 | which of a ref's two ids is listed, in both directions; a hidden ref has neither |
| `ModelCatalog.VisibleModelIsListed` | src/my_claude_code/api/model_catalog.py:104-125 | a visible model is listed under its own ref, also where a tier alias has the same id |
| `ModelCatalog.AliasesAreOffered` | src/my_claude_code/api/model_catalog.py:131-157 | the Claude aliases are always listed, the tier aliases in both spellings when enabled |
| `Text.SplitJoin` | scripts/gen_claude_config_reference.py:697 | splitting undoes joining for pieces without the separator |
| `Text.FieldsRoundTrip` | src/my_claude_code/config/credentials.py:4-8 | clean entries survive the trip through their comma-separated text |
| `Text.ParseRefsRoundTrip` | src/my_claude_code/config/model_refs.py:46-66 | clean distinct refs survive formatting and parsing |
| `Text.SubIntroducesNothing` | scripts/dev/record_anthropic_oauth_exchange.py:50-52 | what occurs in the output of a substitution, apart from what the replacement brings in, occurred in the input where nothing matched |

## Left out

- ExactlyWhenMarkersClear: is for secrets that are detached from the markers; for those that hold a marker or share an end with one, which needs an angle bracket in the secret, a sufficient condition (`RedactionIsComplete`) and a failing family (`OverlapCompletesASecret`) are given, not an exact one.
- UserPausesSurvive: a user pause of a pair that a ledger already holds is not covered, because an enable does lift it (`LedgerPairIsLifted`); nor is a pause from before the run on a list that a write does not start from, because any write lifts it (`OtherListStays`).
- SingleFormAgrees: block containers of CommonMark (lists, quotes, indented code, HTML blocks) are not modelled.
- The floating point of the Rust timings, and the panics of `Duration::from_secs_f64` on values it cannot hold: seconds are reals.
- The error page of `show_dashboard` for an address that does not parse.
- The order of the tuples returned by the two bulk voice cancels, and the key order of dictionaries in general.
- Values of streamed blocks that are not strings, beyond their `str()`; integer-like indices such as booleans.
- The order in which Python keeps the keys of the tier document it writes: the model lists agents and tiers in their fixed order; reading does not depend on it. A model of `null` in a tier request is the empty string.
- `splitlines` before and the newline join after the HTML stripper; lines are given.
- The Unicode case tables: `lower` and `upper` are parameters, and ASCII lower-casing is used for tier names.
- The recursion of `_decorate` into inline children, link targets and table classes; headings cannot occur there.
- `updates_removing_provider`, and with it the deletion of a provider; `prune_paused_refs`, which no write of pause lists alone reaches.
- Concurrent updates of the same custom provider or the same credential: one at a time here.
- The validation inside a settings write: whether it accepts is an input. The repo `.env`, the locked sources and the managed file are not edited by hand during a run, a restart is no step of a run, and a value written to the managed file is taken to read back unchanged (python-dotenv is not part of this model).
- `configured_chat_model_refs` and the visibility patterns: the refs and the filter are inputs of the model list.
- The routing, rotation and rate-limit engines, HTTP handlers, processes, sockets, tray and window calls, file I/O and analytics.
- The classifiers of single values, the masking of secrets for display, and the wording of messages.
- The constant tables (control labels, captions and dates of the fixed models, table headings): they are written out as they stand, and nothing is proved about them.
