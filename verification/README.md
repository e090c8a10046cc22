# A verified model of the orchestrator's hard parts

This project models the parts of the repository that carry real state, branching or arithmetic, and proves what
those parts are for. Loops and objects that change step by step are methods and classes, each proved against a
specification function; the protocol results are theorems over every run of a state machine whose steps are the
original's Redis calls, with a failed call, a lost answer or a crash allowed between any two of them.

| file | what it models |
|---|---|
| `RedisStreams.dfy` | one stream with a consumer group, as Redis 7 keeps it: entries, pending list, dead letters, lost counter, XAUTOCLAIM's paged scan |
| `ReclaimSweep.dfy` | the reclaim loop of the stream client, and quarantine, reject and terminal acknowledgement |
| `StreamDelivery.dfy` | any number of consumers on that server, with crashes and lost replies anywhere |
| `JsonPaths.dfy` | JSON payloads, deletion by location, and what a list of deletions takes away |
| `ClosedSchemas.dfy` | closed schemas: validity, what a validator reports, the true place of a report, pruning |
| `TolerantReader.dfy` | the reader that forgives unexpected fields: grouping, variants, first valid one |
| `TolerantValidation.dfy`, `StrayDeletions.dfy` | what that reader accepts and deletes, for every schema and payload |
| `ToleranceLimits.dfy` | messages on which it does not do what a newer publisher would wish |
| `ComposeCommand.dfy` | the Compose command-line grammar and the scanners that read the same list again |
| `ComposeSources.dfy` | the depth-first walk over `extends` files with one visited set |
| `ComposePlan.dfy` | manager overrides, effective validation, and the persisted snapshot |
| `ScaffoldLeases.dfy` | timed leases and the cancel key of scaffold jobs |
| `ProvisionerOutage.dfy` | the provisioner's outage record, retry budget and terminal marker |
| `ProactiveDelivery.dfy` | bounded delivery of proactive messages |
| `WorkerBroker.dfy` | input leases and active turns of a worker |
| `ServerAllocation.dfy` | the admission search, its refusal reasons, and what is done about them |
| `PortAllocation.dfy` | port allocation under retry |
| `Interpolation.dfy` | Compose's `$` interpolation scanner |
| `ProjectSlug.dfy`, `StackNames.dfy` | slug generation, sweep prefixes, and recovering a slug from a container name |
| `EnvContract.dfy` | merging environment-contract fragments |
| `RateLimit.dfy` | the per-user sliding window |
| `Multisets.dfy` | a fact about repeated list elements that `EnvContract` and `TolerantValidation` share |

## What the proofs found

Each of these is a lemma with a concrete input or an exact condition; the code is modelled as it is.

- A trim that overtakes the readers removes unread entries without any trace: no pending entry, no dead letter,
  no count (`StreamDelivery.UnreadTrimIsSilent`). These are exactly the published entries that are neither
  delivered nor in the stream (`PublishedIsReadOrTrimmed`).
- An entry whose body was trimmed leaves the pending list when it is claimed, and is counted by a later call. If
  the consumer dies in between, nothing records it (`StreamDelivery.CrashedReportIsSilent`). With no page
  half-reported, the lost counter is right exactly if no report was lost so (`LostCountIsExact`). The only other ways
  out of the pending list are the handler's own acknowledgement and, for a rejected entry, a dead letter that was
  written (`LeavesPendingOnlyBy`).
- A dead letter that was written need not stay: its stream is capped as every other. Reject more messages than the
  cap, without any failure, and of each but the newest thousand there is no trace left, in no list, stream or count
  (`StreamDelivery.EvictedLettersAreSilent`). A body that was written is gone exactly if the cap evicted it, which
  takes at least a thousand newer letters (`GoneExactlyIfEvicted`).
- A provisioner that dies between counting an outage attempt and saving the incident leaves a record no later run
  can settle; this is the only such record (`ProvisionerOutage.SettlesUnlessStuck`, `CrashBetweenWritesIsStuck`).
- The bound on Telegram calls is read from the group's delivery count, which is zero once the entry has been
  acknowledged. Each listener that starts after that can add one more attempt, and the resulting bound is reached;
  one listener is never late (`ProactiveDelivery.CallsBounded`, `BoundIsReached`, `OneListenerIsBounded`).
- A broker that stops between handing out a turn and recording it leaves that turn unsupervised for good
  (`WorkerBroker.CrashBeforeRecordIsMissed`).
- Tolerant validation deletes by error location, and a location is not always the field's place. A union member's
  name that is a payload key leads astray, and then a valid entry nobody reported is deleted and the message is
  accepted without it (`ToleranceLimits.KnownEntryIsDeleted`). Deletion takes exactly the unexpected fields iff the
  locations lead to their places (`TolerantValidation.DeletionIsExact`).
- In an undiscriminated union inside a message, the complaints of all members are forgiven together. So a message
  that is merely newer for its own member is rejected if another member misses a field
  (`ToleranceLimits.NestedUnionIsStrict`), and if all members complain of unexpected fields only, fields that one
  of them knows are deleted (`KnownFieldsAreLost`). `TolerantValidation.NestedExact` says exactly what is accepted.
- An unknown field spelled like the tag of its message, or like its own union member, is not forgiven; and an added
  field can turn one message of a union into another (`ToleranceLimits.FieldNamedLikeItsTag`,
  `FieldNamedLikeItsModel`, `AdditionCanChangeTheMessage`).
- A scaffold job whose refresh is one lease late is still running when teardown is told that everything is over
  (`ScaffoldLeases.LateRefreshGoesUnseen`). Only such jobs are missed, and none outlives its next refresh
  (`MissedExactlyIfLate`).
- The docstring of the fragment merge says that sorting owners makes the reported conflict deterministic. That
  holds exactly for lists in which no owner occurs twice; any repeated owner lets the order of the list decide
  (`EnvContract.OrderFreeExactly`).
- A sweep prefix without a letter or digit is no prefix of the slugs it is derived for, except in the cases the
  law lists, and a sweep prefix that leaves room for more of the title misses containers
  (`ProjectSlug.SlugPrefixLaw`, `StackNames.ShortPrefixMissesContainers`). The harness's own prefixes
  are long enough.
- The rate limit can be relied on exactly if the sends to one user do not overlap: with k of them under way at a
  time an hour holds up to k - 1 messages above the limit, and some run reaches that (`RateLimit.HourIsBounded`,
  `BoundIsReached`, `LimitNeedsOneAtATime`).
- The helpers that strip file flags would eat the follow flag of `logs -f`; they are only called for commands that
  create containers. On admitted lists that flag is all they misread (`ComposeCommand.LogsWouldBeMangled`,
  `SuffixIsKept`).

## Model

| member | source | states |
|---|---|---|
| `RedisStreams.ScanClaims` | shared/redis/client.py:405-415 | one XAUTOCLAIM page yields an id exactly once if the scan covers it, it is idle long enough and it has a body, and not otherwise; whatever order and number of pending ids |
| `RedisStreams.ScanDeletes` | shared/redis/client.py:405-426 | one page reports an id as lost exactly once if the scan covers it and its body is gone from the stream |
| `RedisStreams.ScanPel` | shared/redis/client.py:405-415 | what a page does to each pending record: dropped if covered and body-less; owned by the claiming consumer, delivered now and counted once more if covered, with a body and last delivered at least the idle time ago; and unchanged otherwise |
| `RedisStreams.ClaimedIsFresh` | shared/redis/client.py:400-406 | a claimed id is the consumer's, delivered now and counted once more, and claimable by nobody before some time has passed |
| `RedisStreams.NobodyClaimsTwice` | shared/redis/client.py:400-406 | two claims at the same instant never return the same id, whatever consumers, cursors and page sizes |
| `RedisStreams.ScanNext` | shared/redis/client.py:405-433 | the returned cursor is 0 or a still pending id, and a page that continues moves past at least one pending id |
| `RedisStreams.ScanStops` | shared/redis/client.py:398-435 | a page looks at no more than ten ids for each one asked for, and replies with no more than asked; it stops early only if one of the two is used up; it answers 0 iff it has looked at all pending ids from the cursor on, and else the least one it has not looked at |
| `RedisStreams.ReadNewFacts` | shared/redis/client.py:480-500 | a read hands out the next unread entries in ascending order, each with its published body, skipping none: as many as asked for, or all there are; they and nothing else join the pending list, as delivered once, now, to the reader |
| `RedisStreams.AckedNeverReturns` | shared/redis/client.py:289-293 | an acknowledged id is off the pending list, and no command of any client puts it there again |
| `RedisStreams.AckedLeavesTheRest` | shared/redis/client.py:289-293 | acknowledging one id changes nothing else |
| `RedisStreams.SilenceMakesClaimable` | shared/redis/client.py:400-406 | a pending entry with a body is claimable once nobody has touched it for the idle time |
| `RedisStreams.LetterLands` | shared/redis/client.py:583-636 | whatever the cap evicts for it, a letter just written is the newest of its stream; a stream below the cap loses nothing, one at the cap stays at it or above |
| `ReclaimSweep.CursorProgress` | shared/redis/client.py:398-435 | every page that does not end the sweep moves the cursor forward and strictly shrinks the pending ids at or past it, empty pages included |
| `ReclaimSweep.SweepExact` | shared/redis/client.py:383-435 | under any interference after each page, an id is yielded exactly once iff it is stale and has a body when the cursor reaches it, and reported lost exactly once iff it has none then |
| `ReclaimSweep.StaleEntryComesBack` | shared/redis/client.py:383-435 | an entry idle long enough when the sweep starts, and left alone until the cursor reaches it, comes back or is counted lost exactly once, behind any number of fresh entries |
| `ReclaimSweep.FreshEntryIsLeft` | shared/redis/client.py:383-435 | an entry last delivered less than the idle time before the cursor reaches it is not yielded |
| `ReclaimSweep.SweepCounts` | shared/redis/client.py:357-374 | the lost counter grows by exactly the ids the sweep reported plus those that others counted during its pages |
| `ReclaimSweep.RedisStreamClient.ReclaimPending` | shared/redis/client.py:383-435 | the cursor loop terminates and leaves the server, the yielded entries and the lost ids exactly as the sweep specification says |
| `ReclaimSweep.RedisStreamClient.ReclaimPage` | shared/redis/client.py:404-430 | one round of the loop: one claim, and one count for each id it reported deleted |
| `ReclaimSweep.RedisStreamClient.RecordLostEntry` | shared/redis/client.py:357-374 | counts one lost entry and changes nothing else |
| `ReclaimSweep.RedisStreamClient.QuarantineEntry` | shared/redis/client.py:583-636 | for every fate of the write and every eviction the cap allows, the letter is the newest of the dead letters unless the write was refused, and true is answered only if the server answered; only then may the caller acknowledge |
| `ReclaimSweep.RedisStreamClient.TerminalAck` | shared/redis/client.py:563-581 | a failed acknowledgement is swallowed and leaves the entry pending |
| `ReclaimSweep.RedisStreamClient.RejectEntry` | shared/redis/client.py:638-658 | a rejected entry leaves the pending list only after its body was written to the dead letters, for every fate of both calls |
| `StreamDelivery.StepKeeps` | shared/redis/client.py:437-777 | the delivery invariant is kept by every step of every consumer: reads, claims, copies with evictions, acknowledgements, reports, failures and crashes |
| `StreamDelivery.NoSilentLoss` | shared/redis/client.py:437-777 | in every run, what was ever pending is still pending, was acknowledged by its handler, was written to the dead letters with its published body, or was handed to a consumer as body-less by a claim; what became of the letter and of the count is the next rows' matter |
| `StreamDelivery.LeavesPendingOnlyBy` | shared/redis/client.py:563-777 | the three ways out of the pending list, step by step, from every reachable state: the handler's own acknowledgement, that of an entry whose body was written to the dead letters, and a claim that finds no body |
| `StreamDelivery.PendingIsTakenOver` | shared/redis/client.py:383-435 | in every run, a pending entry with a body goes to whichever consumer claims from it on once nobody has touched it for the idle time, whoever held it, with its count one up |
| `StreamDelivery.HandledIsSettled` | shared/redis/client.py:563-581 | an undisturbed consumer takes what it handled off the pending list, and nothing else |
| `StreamDelivery.FailedIsKept` | shared/redis/client.py:437-777 | and leaves there what its handler failed on |
| `StreamDelivery.ReportedIsCounted` | shared/redis/client.py:414-422 | an undisturbed consumer counts each body-less id of its page once, after the page's entries |
| `StreamDelivery.RefusedTouchesNothing` | shared/redis/client.py:563-636 | a refused call leaves the server as it was, whichever it is |
| `StreamDelivery.LostAnswer` | shared/redis/client.py:563-636 | a call whose answer is lost did to the server what an answered one does |
| `StreamDelivery.GoneExactlyIfEvicted` | shared/redis/client.py:267-271 | in every run the dead letters are those written without the oldest; a body that was written is gone iff all its letters were evicted, and then as many newer ones as the cap are there; nothing is gone before more were written than the cap |
| `StreamDelivery.LettersLeaveOnlyBy` | shared/redis/client.py:613-615 | only another dead letter, written to a stream at its cap, removes one |
| `StreamDelivery.EvictedLettersAreSilent` | shared/redis/client.py:583-658 | for every n: after n rejected messages and a trim, exactly the newest thousand are in the dead letters, and of the others there is no trace in any list, stream or count |
| `StreamDelivery.LostCountIsExact` | shared/redis/client.py:357-435 | in every run: body-less removals = counted + still to report + lost with a crash or reply; so once no page is half-reported the counter equals the removals iff no report was lost, which holds in runs without crashes and lost replies |
| `StreamDelivery.CrashedReportIsSilent` | shared/redis/client.py:357-435 | a run in which a body-less removal is never counted: its consumer dies before it reports |
| `StreamDelivery.PublishedIsReadOrTrimmed` | shared/redis/client.py:267-295 | what was published is read, still waiting in the stream, or was trimmed before the group read it, and exactly one of the three; so it is lost unread iff it was trimmed unread |
| `StreamDelivery.UnreadTrimIsSilent` | shared/redis/client.py:267-295 | a run in which an unread entry disappears and nothing records it |
| `JsonPaths.DeleteOneRemoves` | shared/redis/client.py:137-147 | following one location removes exactly the place it lands on, or nothing |
| `JsonPaths.DeleteAllRemoves` | shared/redis/client.py:129-148 | following a list of locations removes exactly the places they land on in turn |
| `JsonPaths.SamePayload` | shared/redis/client.py:129-148 | removing two sets of places leaves the same payload iff each place of one lies at or below a place of the other, both ways |
| `JsonPaths.LandOnRemoves` | shared/redis/client.py:129-148 | locations that land on places not inside one another remove exactly those, in any order; the names dropped are all of them if the places differ |
| `ClosedSchemas.ValidIsQuiet` | shared/redis/client.py:193-217 | the validator reports nothing about valid data |
| `ClosedSchemas.ProblemsExact` | shared/redis/client.py:193-217 | what the validator reports about a payload is a finite set, given by recursion over the schema |
| `ClosedSchemas.NoComplaintsMeansValid` | shared/redis/client.py:193-217 | and data about which it reports nothing is valid |
| `ClosedSchemas.ParseIsInjective` | shared/redis/client.py:193-217 | the value carries the whole payload: valid payloads with equal values are equal |
| `ClosedSchemas.ExtraHasPlace` | shared/redis/client.py:129-160 | every reported unexpected field is in the payload, at the place the schema gives for its location |
| `ClosedSchemas.PlacesApart` | shared/redis/client.py:129-160 | without undiscriminated unions no unexpected field lies inside another |
| `ClosedSchemas.RemoveExtra` | shared/redis/client.py:129-148 | removing one unexpected field from its place silences exactly its report: every other report stays, with its place |
| `ClosedSchemas.GrownExactly` | shared/redis/client.py:193-217 | without undiscriminated unions: a payload is a given valid one with unknown fields added, at any depth, iff only unexpected fields are reported and pruning them gives that one back |
| `ClosedSchemas.TagFreeLands` | shared/redis/client.py:129-148 | where no key is spelled like a selecting tag, every location lands on its field |
| `StrayDeletions.Spoiled` | shared/redis/client.py:129-148 | if one unexpected field is looked for in the wrong place, no list of such deletions leaves a valid payload |
| `TolerantReader.DeleteAt` | shared/redis/client.py:129-148 | the loop leaves the payload and the dropped names of the deletion specification, for every list of locations |
| `TolerantReader.GroupByCandidate` | shared/redis/client.py:163-185 | the grouping loop collects each candidate's errors in order, the candidates in the order of their first error, and gives up iff one error has no location |
| `TolerantReader.UnexpectedFieldPrunings` | shared/redis/client.py:163-190 | the two loops offer exactly the variants of the specification, in the order in which the errors first name their candidates |
| `TolerantReader.ValidateToleratingAdditions` | shared/redis/client.py:193-217 | answers with strictly valid data untouched, or with the first variant that validates, and rejects iff none does |
| `TolerantReader.ReadIsAccepted` | shared/redis/client.py:193-217 | for one list of errors, the reader accepts iff some candidate's variant validates |
| `TolerantReader.FirstCandidateDecides` | shared/redis/client.py:186-217 | for one list of errors: of the candidates in the order in which the errors first name them, the first whose variant validates gives the answer; rejected iff there is none |
| `TolerantReader.EveryAnswerIsRead` | shared/redis/client.py:163-217 | whatever answer some candidate allows is the reader's answer for some order of the same errors |
| `TolerantReader.ListingExists` | shared/redis/client.py:178-180 | for every schema and payload there is a report that lists each problem once |
| `TolerantValidation.DeletionIsExact` | shared/redis/client.py:129-148 | for every schema, payload and order: deletion by location leaves the payload without exactly the reported unexpected fields iff the locations, followed in turn, lead to their true places |
| `TolerantValidation.LandedIsTrue` | shared/redis/client.py:129-148 | they do if each lands on its place in the payload as it came and no field lies inside another |
| `TolerantValidation.AcceptedIsStrictlyValid` | shared/redis/client.py:193-217 | for every schema and payload, an accepted value is that of the payload itself, or of a strictly valid variant made from one candidate's unexpected fields alone; the variant is the payload without exactly those fields iff their locations lead to their places |
| `TolerantValidation.WrongIsStillRejected` | shared/redis/client.py:163-217 | for every schema that is not itself a bare union, nested unions included: a payload with a missing field, wrong type or bad tag is rejected, whatever else it carries |
| `TolerantValidation.NestedExact` | shared/redis/client.py:163-217 | for every such schema: a payload that is not valid as it is, is accepted iff everybody who complains, each member of each nested union included, complains of unexpected fields only and deleting all of them leaves a valid payload; value and dropped names are those of that deletion |
| `TolerantValidation.NestedPruning` | shared/redis/client.py:163-217 | where locations lead to places: accepted iff only unexpected fields are reported and the payload without all of them is valid, with its value, for every order of the errors |
| `TolerantValidation.DeleteExtra` | shared/redis/client.py:129-148 | without undiscriminated unions: deleting one unexpected field that lands silences exactly its report |
| `TolerantValidation.RemoveExtras` | shared/redis/client.py:129-148 | removing any set of unexpected fields silences exactly their reports and prunes to the same payload |
| `TolerantValidation.DeleteExtras` | shared/redis/client.py:129-148 | deleting any set of unexpected fields that land, in any order, silences exactly those reports, and each deletion removes a field |
| `TolerantValidation.DeleteAllIsPrune` | shared/redis/client.py:129-190 | deleting all of them is structural pruning, and is valid if nothing else was wrong |
| `TolerantValidation.FlatExact` | shared/redis/client.py:163-217 | without undiscriminated unions: accepted iff unexpected fields are all that is wrong and each location lands on its field; then with the pruned payload's value and exactly those fields named |
| `TolerantValidation.FlatMustLand` | shared/redis/client.py:129-148 | a deletion of unexpected fields that leaves a valid payload found every one of them where it is |
| `TolerantValidation.AdditionsAreTolerated` | shared/redis/client.py:193-217 | unknown fields added at any depth of a valid payload: accepted iff they land, with the old value, exactly the additions dropped |
| `TolerantValidation.TagFreeAdditionsAreTolerated` | shared/redis/client.py:193-217 | in particular if no key is spelled like a tag |
| `TolerantValidation.UnionGroups` | shared/redis/client.py:151-217 | for every top-level union and payload: accepted iff the members behind some candidate complain of unexpected fields only and deleting those leaves a payload the union reads; members whose name is a payload key are one candidate together |
| `TolerantValidation.UnionExact` | shared/redis/client.py:151-217 | a union of closed models, at most one with its name among the payload's keys, each unexpected field found where it is by its location under the member's name: accepted iff some member finds nothing but unexpected fields; the value is the union's reading of that member's pruning, and exactly that member's unexpected fields are dropped, under its name |
| `TolerantValidation.PlainUnionIsReady` | shared/redis/client.py:151-160 | that is so if no key is spelled like a member and the fields land for the members themselves |
| `TolerantValidation.AlwaysReadAs` | shared/redis/client.py:151-217 | over all orders of the errors, every answer has this value iff every member that finds the payload merely newer prunes it to this message |
| `TolerantValidation.UnionAdditionsAreTolerated` | shared/redis/client.py:151-217 | additions to a union's message are accepted; over all orders of the errors the value stays iff every member that finds the larger payload merely newer prunes it back to the message; if only its own does, exactly the additions are dropped |
| `TolerantValidation.NullableUnion` | shared/redis/client.py:193-217 | a union that may be null reads everything else as the union does |
| `ToleranceLimits.AdditionCanChangeTheMessage` | shared/redis/client.py:193-217 | why that proviso is needed |
| `ToleranceLimits.FieldNamedLikeItsModel` | shared/redis/client.py:151-160 | an unknown field spelled like its union member is not forgiven |
| `ToleranceLimits.FieldNamedLikeItsTag` | shared/redis/client.py:137-147 | an unknown field spelled like its message's tag is not forgiven, although it is all that is wrong |
| `ToleranceLimits.NestedUnionIsStrict` | shared/redis/client.py:151-190 | a message that is merely newer for one member of a nested union, rejected because the other member misses a field |
| `ToleranceLimits.KnownFieldsAreLost` | shared/redis/client.py:163-217 | a message with a nested union, accepted without two fields each of which one member knows |
| `ToleranceLimits.KnownEntryIsDeleted` | shared/redis/client.py:137-147 | a message accepted without a valid entry that nobody reported, because a member's name is a key there |
| `ComposeCommand.GrammarExact` | services/worker-manager/src/compose_validator.py:426-483 | the validator admits exactly the lists a grammar generates (file pairs, one subcommand, its safe words), and each has one reading |
| `ComposeCommand.WordsUnique` | services/worker-manager/src/compose_validator.py:455-482 | what follows the subcommand splits into flags, valued flags and positionals in one way only |
| `ComposeCommand.ScannersAgree` | services/worker-manager/src/compose_runner.py:159-240 | on every admitted list the other scanners find the grammar's subcommand, its file selection and exactly its suffix |
| `ComposeCommand.ScannersMove` | services/worker-manager/src/compose_runner.py:159-240 | on any list, admitted or not, how the runner's scanners move past a flag with its value, another flag, and the first argument |
| `ComposeCommand.FlagsAllowed` | services/worker-manager/src/compose_validator.py:26-35 | the flags each subcommand may be given, and no others |
| `ComposeCommand.OneSourceExecuted` | services/worker-manager/src/compose_runner.py:133-143 | the executed command is the fixed project name, project directory and snapshot, then the worker's subcommand and its words; it names one file, the snapshot |
| `ComposeCommand.LogsWouldBeMangled` | services/worker-manager/src/compose_runner.py:173-183 | the strippers misread `logs -f`, so the limit to container-creating commands matters |
| `ComposeCommand.SuffixIsKept` | services/worker-manager/src/compose_runner.py:173-183 | on an admitted list the stripper leaves exactly what follows the file flags iff the flag `-f` is not among the words |
| `ComposeCommand.ScanGlobalFlags` | services/worker-manager/src/compose_validator.py:426-454 | the loop before the subcommand finds the specification's errors, subcommand and rest |
| `ComposeCommand.CheckWords` | services/worker-manager/src/compose_validator.py:455-482 | the loop behind the subcommand counts exactly the errors of the specification |
| `ComposeCommand.ValidateCommand` | services/worker-manager/src/compose_validator.py:426-483 | the index loop counts the errors of the specification and accepts iff the list is admitted |
| `ComposeCommand.Subcommand` | services/worker-manager/src/compose_runner.py:159-171 | the flag-skipping loop returns the first argument that is neither flag nor value |
| `ComposeCommand.StripFileFlags` | services/worker-manager/src/compose_runner.py:173-183 | the copying loop removes every file flag with its value |
| `ComposeCommand.GlobalFileSelection` | services/worker-manager/src/compose_runner.py:225-240 | the scan answers whether a file flag stands before the subcommand |
| `ComposeCommand.SplitFileArgs` | services/worker-manager/src/compose_runner.py:276-286 | the in-place loop splits off the same file pairs and raises iff one lacks its path |
| `ComposeSources.SourceWalk.ValidateSourceTree` | services/worker-manager/src/compose_runner.py:185-223 | the walk terminates on cyclic and shared graphs, covers all it enters, and fails only with a reachable bad source |
| `ComposeSources.AdmitSources` | services/worker-manager/src/compose_runner.py:297-316 | admission succeeds iff every source reachable by `extends`, with the base its declarer was given, is in the workspace and valid; and never if a selected source names an absolute path outside the workspace |
| `ComposeSources.ResolveNames` | services/worker-manager/src/compose_validator.py:494-495 | an absolute path stands for itself under every base, a relative one for its place below the base |
| `ComposeSources.ResolveSteps` | services/worker-manager/src/compose_validator.py:494-495 | empty segments and dots change nothing, names go down, two dots go one up but not above the root |
| `ComposeSources.GoodExactly` | services/worker-manager/src/compose_validator.py:583-697 | a source passes iff it lies in the workspace, is a well-shaped document, uses nothing forbidden, and names only literal paths that resolve into the workspace |
| `ComposeSources.OutsideIsRefused` | services/worker-manager/src/compose_validator.py:486-498 | a source that names a path outside the workspace does not pass: an absolute one by itself, a relative one below its base |
| `ComposeSources.ExtendsLeadsTo` | services/worker-manager/src/compose_runner.py:219-223 | an extended file is visited where its path leads, with its own directory as the base |
| `ComposeSources.ExtendsOnlyTo` | services/worker-manager/src/compose_runner.py:219-223 | and nowhere else |
| `ComposeSources.AdmittedPathsStayInside` | services/worker-manager/src/compose_validator.py:583-697 | no path that an admitted source names leaves the workspace or is interpolated, whether in a service, as the file a service extends, or as a secret or config; and no service uses a forbidden directive |
| `ComposeSources.SameFileTwoBases` | services/worker-manager/src/compose_runner.py:195-205 | one file can be valid under one base and invalid under another, so the visited set must hold both |
| `ComposePlan.Project.ApplyIdentities` | services/worker-manager/src/compose_validator.py:71-88 | the first loop gives every built service the manager's image and drops volume names, or refuses |
| `ComposePlan.Project.ApplyEffectiveOverrides` | services/worker-manager/src/compose_runner.py:93-111 | the in-place passes produce the overridden project, whatever order services are visited in |
| `ComposePlan.OverridesAreIdempotent` | services/worker-manager/src/compose_runner.py:93-111 | applying the overrides to their own result changes nothing |
| `ComposePlan.OnlyContainerNamesRemain` | services/worker-manager/src/compose_validator.py:107-125 | after the overrides the identity check fails iff some service has a container name |
| `ComposePlan.AdmittedPlansKeepTheirShape` | services/worker-manager/src/compose_validator.py:357-365 | a plan that passed effective validation meets the snapshot's identity and build-shape assertions; only a loader directive can still stop it |
| `ComposePlan.WriteSnapshot` | services/worker-manager/src/compose_runner.py:114-129 | a plan is persisted iff every assertion holds, and each of the five refusals names a cause that is there |
| `ComposePlan.Inspect` | services/worker-manager/src/compose_runner.py:430-435 | rewrite, validate, persist: a plan results iff one can be persisted, with every part of it the worker's own, and the snapshot never refuses for identity or build shape |
| `ComposePlan.ImagesAreInjective` | services/worker-manager/src/compose_validator.py:66-69 | equal image names come from equal worker and service digests |
| `ComposePlan.WorkersAreIsolated` | services/worker-manager/src/compose_validator.py:107-125 | plans of two workers that pass the network and identity checks, as every persisted plan does, share no built image and no network |
| `ComposePlan.PersistedPlansClaimNothing` | services/worker-manager/src/compose_runner.py:93-111 | a service of an overridden plan that passes the identity check has no container name, no open ports, and the manager's image if it is built |
| `ComposePlan.PersistedExactly` | services/worker-manager/src/compose_runner.py:430-435 | which plans are persisted: the project with the manager's overrides, iff every part of it is the worker's own and no service loads a further file |
| `ComposePlan.SnapshotExactly` | services/worker-manager/src/compose_runner.py:114-129 | what the assertions before the write let through on their own, whatever was validated before |
| `ComposePlan.ContainedExactly` | services/worker-manager/src/compose_validator.py:718-749 | a service passes iff it has none of the withheld fields set, is on the default network alone, builds inside the workspace with the permitted keys, and its volumes and limits are accepted; what counts as not set is spelled out |
| `ComposePlan.PlanAdmittedExactly` | services/worker-manager/src/compose_validator.py:700-751 | a plan passes iff it has services and each passes under the manager's identity, its one network is the worker's external one, its volumes are local and unnamed, and its secrets and configs come from the workspace |
| `ComposePlan.OverriddenService` | services/worker-manager/src/compose_runner.py:93-111 | of a service only image, ports and missing limits are rewritten, and to what |
| `ComposePlan.OverriddenProject` | services/worker-manager/src/compose_validator.py:71-88 | of a project only services and volume names are rewritten |
| `ComposePlan.PlainProjectIsPersisted` | services/worker-manager/src/compose_runner.py:430-435 | an ordinary project becomes a plan |
| `ScaffoldLeases.RunningJobsHoldLeases` | services/scaffolder/src/consumer.py:49-92 | with punctual refreshes every running job holds an unexpired lease, and its refresh never stops it |
| `ScaffoldLeases.KeyExpiryDropsOnlyExpired` | services/scaffolder/src/consumer.py:49-88 | the key's own expiry never costs anybody an unexpired lease, in any run |
| `ScaffoldLeases.Quiescent` | tests/live/pipeline_helpers.py:1018-1042 | cancel key set and no unexpired lease: no job runs, and none will start while the key persists |
| `ScaffoldLeases.CancelBarsNewJobs` | services/scaffolder/src/consumer.py:49-67 | a job that begins while the project is cancelled gets no lease and does not run; once the key is gone it gets one of 900 seconds |
| `ScaffoldLeases.PollDrains` | tests/live/pipeline_helpers.py:1018-1042 | a poll one lease after the last refresh counts nothing, even if no lease was given back |
| `ScaffoldLeases.ReleasedIsNotCounted` | services/scaffolder/src/consumer.py:91-92 | a lease given back is not counted, and no other lease is touched |
| `ScaffoldLeases.ReleasedStaysAway` | services/scaffolder/src/consumer.py:91-92 | in every continuation of every run |
| `ScaffoldLeases.LateRefreshGoesUnseen` | services/scaffolder/src/consumer.py:120-159 | a job one lease late is running while teardown sees nothing |
| `ScaffoldLeases.LeaseCountsUntilItsEnd` | services/scaffolder/src/consumer.py:49-92 | in every run, punctual or not, a running job's lease counts, and a poll counts it, exactly until one lease after its last registration or refresh |
| `ScaffoldLeases.MissedExactlyIfLate` | tests/live/pipeline_helpers.py:1018-1042 | in every run, after a poll that counted nothing a job runs exactly if it ran at that poll a whole lease or more after its last refresh and has neither ended nor reached another refresh |
| `ScaffoldLeases.LeaseServer.BeginScaffoldWork` | services/scaffolder/src/consumer.py:49-67 | the atomic script registers a lease iff the project is not cancelled |
| `ScaffoldLeases.LeaseServer.RefreshScaffoldLease` | services/scaffolder/src/consumer.py:70-88 | the atomic script extends a lease iff it is still there |
| `ProvisionerOutage.AckedOnlyAfterPublish` | services/infra-service/src/main.py:56-130 | in every run an acked entry had its result published, and publishes are at most one more than the interruptions that followed a publish |
| `ProvisionerOutage.NeverProvisionsAgain` | services/infra-service/src/main.py:305-319 | once an outage record exists, no continuation provisions again |
| `ProvisionerOutage.SilentAfterTerminal` | services/infra-service/src/main.py:63-103 | nothing is published after the terminal marker is set |
| `ProvisionerOutage.SettlesUnlessStuck` | services/infra-service/src/main.py:63-130 | some continuation acknowledges the entry iff its record is not the unreplayable one |
| `ProvisionerOutage.StuckForever` | services/infra-service/src/main.py:106-130 | the unreplayable record never changes again |
| `ProvisionerOutage.CrashBetweenWritesIsStuck` | services/infra-service/src/main.py:68-69 | a crash between the two writes reaches it |
| `ProvisionerOutage.EscalatesWithinBudget` | services/infra-service/src/main.py:63-103 | an undisturbed delivery of a saved incident while the journal is down publishes the failure, marks and acknowledges it iff the attempts before it plus one reach the budget, and otherwise leaves it pending with one more attempt |
| `ProvisionerOutage.TerminalOnlyAtBudget` | services/infra-service/src/main.py:63-103 | in every run the terminal marker is set only once three attempts were counted |
| `ProvisionerOutage.SilentBelowBudget` | services/infra-service/src/main.py:63-83 | below the budget an outage publishes and acknowledges nothing, however the calls end |
| `ProvisionerOutage.UndisturbedDelivery` | services/infra-service/src/main.py:56-130 | what an undisturbed delivery does, case by case, for every record |
| `ProvisionerOutage.CutAnywhere` | services/infra-service/src/main.py:56-130 | a disturbed delivery leaves behind exactly the work of the calls that went through, in order, up to the first that fails |
| `ProvisionerOutage.CutShortMeansRaised` | services/infra-service/src/main.py:56-61 | the history counts a handling as cut short only if it published and then raised |
| `ProvisionerOutage.ProvisionerWorker.HandleIncidentOutage` | services/infra-service/src/main.py:63-103 | the call-by-call method has exactly the specified effect under every fate of every call |
| `ProvisionerOutage.ProvisionerWorker.RetrySavedIncident` | services/infra-service/src/main.py:106-130 | likewise for the retry of a saved incident |
| `ProvisionerOutage.ProvisionerWorker.HandleDelivery` | services/infra-service/src/main.py:296-326 | likewise for the dispatch of one delivery |
| `ProactiveDelivery.AttemptsFacts` | services/telegram_bot/src/proactive.py:68-101 | calls are made one after the other until one does not raise, at most two per attempt; the last one decides the verdict, and a message got through iff one of them let it through |
| `ProactiveDelivery.HandlingExactly` | services/telegram_bot/src/proactive.py:132-180 | what one handling does to the entry, for every plan: it acknowledges iff the entry is invalid, or past the bound with the alert survived, or the last call was accepted, or all calls raised and the alert was survived, and the acknowledgement was not refused |
| `ProactiveDelivery.SomeCallIsLast` | services/telegram_bot/src/proactive.py:68-101 | every handling has a last call, so this covers all |
| `ProactiveDelivery.AckedIsSettled` | services/telegram_bot/src/proactive.py:132-180 | in every run an acked entry got through, was rejected as invalid, or was put into an alert |
| `ProactiveDelivery.CallsBounded` | services/telegram_bot/src/proactive.py:132-180 | in every run, with any number of listeners: at most attempts x 2 Telegram calls for each of three deliveries and for each listener that starts after the acknowledgement |
| `ProactiveDelivery.BoundIsReached` | services/telegram_bot/src/proactive.py:132-180 | for every number of late listeners some run makes exactly that many calls |
| `ProactiveDelivery.OneListenerIsBounded` | services/telegram_bot/src/proactive.py:132-180 | one listener is never late, so the bound is deliveries x attempts x 2 without proviso |
| `ProactiveDelivery.LateListenersBreakTheBound` | shared/redis/client.py:296-308 | n overlapping hand-outs cause 6(n-1) calls, because the delivery count is gone after the acknowledgement; that exceeds one listener's bound iff n is more than four |
| `ProactiveDelivery.ProactiveListener.AttemptProactiveDelivery` | services/telegram_bot/src/proactive.py:68-101 | the retry loop has the specified verdict, calls and remaining world |
| `ProactiveDelivery.ProactiveListener.ProcessProactiveEntry` | services/telegram_bot/src/proactive.py:132-180 | one handling has exactly the specified effect under every fate of its calls |
| `WorkerBroker.AnsweredBeforeAcked` | services/worker-broker/src/main.py:206-224 | in every run, cut short anywhere, an input leaves the pending list only after an output for it was accepted, and the active turn is the input's own |
| `WorkerBroker.TurnIsThePayloads` | services/worker-broker/src/main.py:62-90 | a turn has the attempt, request and positive deadline of its payload; which payloads start none and which are refused |
| `WorkerBroker.TurnIsFenced` | services/worker-broker/src/main.py:220-224 | a turn stays active iff no request of the run answers its own lease up to the comparison, records a newer turn or removes the worker; late answers to other leases, plain or invalid inputs and requests cut short leave it alone |
| `WorkerBroker.WatchedExactly` | services/worker-broker/src/main.py:182-224 | in every run, cut short anywhere, a lease is watched iff the request that handed it out recorded its turn and no request since has ended it |
| `WorkerBroker.SupervisionIsExact` | services/worker-broker/src/main.py:182-224 | in runs of complete requests there is an active turn exactly while the newest turn handed out is pending |
| `WorkerBroker.MissedTurnStaysMissed` | services/worker-broker/src/main.py:182-203 | a turn that was not recorded when it was handed out is never recorded later |
| `WorkerBroker.CrashBeforeRecordIsMissed` | services/worker-broker/src/main.py:187-203 | stopping between the read and the record leaves a pending, unsupervised turn that can still be answered |
| `WorkerBroker.Broker.LeaseNext` | services/worker-broker/src/main.py:182-203 | grants the next input iff there is one and its turn protocol is valid; an invalid one stays pending |
| `WorkerBroker.Broker.Submit` | services/worker-broker/src/main.py:206-224 | output, acknowledgement and turn removal in this order, cut anywhere |
| `ServerAllocation.FindSuitableServer` | services/langgraph/src/allocations.py:239-343 | a server is returned iff a suitable one exists, it has the most headroom of those; a refusal names the first of the five reasons that is true of the fleet |
| `ServerAllocation.ScreenServers` | services/langgraph/src/allocations.py:258-320 | the loop keeps exactly the suitable servers, and remembers each shortage and each rejection iff some server it looked at shows it |
| `ServerAllocation.SuitableMeans` | services/langgraph/src/allocations.py:258-320 | which servers can be chosen, in their own fields, and what their headroom is |
| `ServerAllocation.AdmissionMeans` | shared/server_admission.py:95-110 | which rejection a server meets, in its own fields |
| `ServerAllocation.OnlyBusyIsLeft` | services/langgraph/src/allocations.py:330-343 | the fall-through reason has a witness server |
| `ServerAllocation.ExceedsEveryServer` | services/langgraph/src/allocations.py:361-368 | true iff no server is large enough |
| `ServerAllocation.FutureDecidedBySize` | shared/allocation_disposition.py:62-68 | some future state of the same machines can place the request iff one of them is large enough |
| `ServerAllocation.RefusalHandledRightly` | shared/allocation_disposition.py:62-180 | a truthful refusal goes to an operator iff no future state could satisfy it, waits only if one could, never ends a story, and routes without ambiguity |
| `ServerAllocation.RefuseInadmissibleTarget` | services/langgraph/src/allocations.py:196-236 | a bound host is refused iff the search would not choose it for any request, whatever its size, load, applications and metrics and whatever the other servers |
| `ServerAllocation.AdmissionDecides` | services/langgraph/src/allocations.py:196-236 | the admission check rejects a host iff the search can never choose it |
| `PortAllocation.HistoryKeepsConsistent` | services/langgraph/src/allocations.py:96-193 | over any history of calls, failures and other repositories' work, no module of the application gets a second port |
| `PortAllocation.ReturningCallIsExact` | services/langgraph/src/allocations.py:96-193 | a returning call leaves each requested module with exactly one port |
| `PortAllocation.RepeatedCallIsIdle` | services/langgraph/src/allocations.py:96-193 | a later identical returning call returns the same map |
| `PortAllocation.NothingMoreAllocated` | services/langgraph/src/allocations.py:96-193 | and allocates nothing in between |
| `PortAllocation.NewPortsBelong` | services/langgraph/src/allocations.py:150-193 | what a call of a history adds: ports on the application's own server, for modules asked for that had none; it takes nothing away |
| `PortAllocation.KeyTextInjective` | services/langgraph/src/allocations.py:96-193 | distinct server and port pairs have distinct `handle:port` keys, whatever characters handles hold |
| `PortAllocation.EnsureProjectAllocations` | services/langgraph/src/allocations.py:56-193 | one call, failing at any API call, is a step of such a history; it returns only if the bound host still passes admission, or puts a new application on the suitable server with the most headroom; without a place for the application it raises and changes nothing |
| `PortAllocation.Placement` | services/langgraph/src/allocations.py:96-121 | the bound host through the admission check, a new one through the search, with any call failing |
| `PortAllocation.AllocateMissing` | services/langgraph/src/allocations.py:150-193 | the loop allocates one port for each missing module until a call fails |
| `PortAllocation.AllocationApi.AllocateNextPort` | services/api/src/routers/servers.py:268-320 | the API gives the first port from 8000 on that the server has not allocated, and records it unless the call failed before |
| `Interpolation.InterpolationReferences` | shared/contracts/env_usage.py:189-216 | the scanning loop terminates and returns the names of the per-position specification |
| `Interpolation.ReferencesExact` | shared/contracts/env_usage.py:189-216 | those are the names at exactly the positions after an odd maximal run of dollar signs and before a well-formed name, one each, in text order |
| `Interpolation.BracedNameRefers` | shared/contracts/env_usage.py:200-215 | after one dollar sign a name in braces is a reference iff `}`, `:`, `?`, `+` or `-` follows it |
| `Interpolation.PlainNameRefers` | shared/contracts/env_usage.py:200-215 | a name without braces is one wherever it ends |
| `Interpolation.NamePending` | shared/contracts/env_usage.py:200-215 | a name is reported once, and nothing inside it is |
| `Interpolation.EscapePending` | shared/contracts/env_usage.py:197-199 | skipping two dollar signs loses no reference and keeps the parity of their run |
| `Interpolation.DollarsAreMaximal` | shared/contracts/env_usage.py:194-199 | the run whose parity decides is the maximal one |
| `Interpolation.EscapedIsLiteral` | shared/contracts/env_usage.py:189-190 | a text with every dollar sign doubled refers to nothing |
| `Interpolation.DefaultsAreRead` | shared/contracts/env_usage.py:206-215 | what follows a braced name and its sign is read as if it stood alone, so references in defaults are found |
| `ProjectSlug.SlugifyJoinsWords` | shared/project_slug.py:12-16 | a slug is the words of the lower-cased title with one dash between them |
| `ProjectSlug.SlugifyIsIdempotent` | shared/project_slug.py:12-16 | slugifying a slug changes nothing |
| `ProjectSlug.SlugifyExtends` | shared/project_slug.py:12-16 | the slug of `prefix-rest` is made of both slugs |
| `ProjectSlug.GenerationNeverFails` | shared/project_slug.py:19-41 | generation never raises; the slug is the title's stem followed by the id, at most 40 characters, and matches the pattern |
| `ProjectSlug.KeptExactly` | shared/project_slug.py:25-29 | of the title as much is kept as fits before the id: seven characters, or five behind a marker, without a dash at the cut |
| `ProjectSlug.SlugsAreInjective` | shared/project_slug.py:19-41 | equal slugs have equal project ids, for all titles |
| `ProjectSlug.PrefixIsStem` | shared/project_slug.py:44-53 | the sweep prefix is the stem |
| `ProjectSlug.SlugPrefixLaw` | shared/project_slug.py:44-53 | the sweep prefix of P begins the slug of `P-rest` iff P has a word, or rest has no word, begins with a digit, or has "p" as its first word |
| `ProjectSlug.PrefixIsWholeStem` | shared/project_slug.py:28-29 | the sweep prefix is the whole stem of every extended title iff P fills the base up to its last character |
| `StackNames.StackNamesFromResidue` | scripts/clean_live_tests.py:631-651 | the loop collects exactly the names some finding gives |
| `StackNames.SameLength` | scripts/clean_live_tests.py:33-40 | two prefixes that match one artefact agree on where the id starts, so the order of alternatives does not matter |
| `StackNames.ContainerRoundTrip` | scripts/clean_live_tests.py:631-651 | a container of `prefix-rest`, each dash kept or underscored, with any service and number behind, gives back exactly the slug, among any list of prefixes |
| `StackNames.DirectoryRoundTrip` | scripts/clean_live_tests.py:643-648 | a service directory gives back its slug, whatever path and slashes are around it |
| `StackNames.ShortPrefixMissesContainers` | scripts/clean_live_tests.py:33-40 | a prefix that leaves room for more of the title misses a container |
| `EnvContract.MergeEnvContractFragments` | shared/contracts/env_contract.py:159-181 | the nested loops compute the fold over the fragments sorted by owner |
| `EnvContract.MergeExact` | shared/contracts/env_contract.py:159-181 | merging succeeds iff all declarations of each key are equal, then holds exactly those, and a reported key really conflicts |
| `EnvContract.KeysAreTheUnion` | shared/contracts/env_contract.py:159-181 | the merged keys are the union of the fragments' keys |
| `EnvContract.PermutationKeepsTheContract` | shared/contracts/env_contract.py:159-181 | any permutation of the fragments gives the same success and contract |
| `EnvContract.MovingKeepsTheContract` | shared/contracts/env_contract.py:164-170 | moving a declaration between fragments changes nothing |
| `EnvContract.TwoStages` | shared/contracts/env_contract.py:159-181 | merging two halves and then their contracts equals merging at once, failures included |
| `EnvContract.ReportDependsOnOwnersOnly` | shared/contracts/env_contract.py:168-174 | the whole outcome depends only on the order of each owner's own fragments |
| `EnvContract.ReportIsDeterministic` | shared/contracts/env_contract.py:168-174 | with one fragment per owner every order reports the same key |
| `EnvContract.RepeatedOwnerChangesTheReport` | shared/contracts/env_contract.py:168-174 | for every list of owners with a repetition, two orders of some fragments with these owners report different keys |
| `EnvContract.OrderFreeExactly` | shared/contracts/env_contract.py:168-174 | lists with given owners are reported alike in every order iff no owner occurs twice |
| `RateLimit.HourIsBounded` | shared/notifications.py:243-258 | in every run with at most k sends of a user under way at a time, no hour holds more than k - 1 recorded messages above the limit |
| `RateLimit.BoundIsReached` | shared/notifications.py:87-135 | for every limit and k some such run reaches that bound |
| `RateLimit.NoHourExceedsTheLimit` | shared/notifications.py:243-258 | one send at a time: no hour holds more recorded messages than the limit |
| `RateLimit.RefusedExactlyWhenFull` | shared/notifications.py:243-253 | in every run, overlapping sends included, a check on the pruned list refuses iff the last hour of the whole history is full |
| `RateLimit.LimitNeedsOneAtATime` | shared/notifications.py:87-107 | the limit holds in every run with at most k overlapping sends iff k is at most one |
| `RateLimit.KeepRecent` | shared/notifications.py:249-251 | the filter keeps every time after the cutoff, each at its own place in the order, and nothing else |
| `RateLimit.Notifications.SendTelegramMessage` | shared/notifications.py:87-135 | a send changes the stored lists as check, wait and delivery do, and reports success iff allowed and accepted at the first try or at the plain-text retry |

## Left out

- Redis before version 7, which hands out entries whose body is gone; the repository pins Redis 7.4.
- XAUTOCLAIM with a count of zero: the server rejects it, so the sweep requires a positive count.
- The sweep's interference happens after each page; a page itself is one atomic command, as in Redis.
- The flat and auto-acknowledging `consume`, and when sweeps are due.
- TolerantReader.DeleteAt: works on values, and names a dropped field by its location instead of the dotted text; the copy and in-place edit of nested dictionaries are not captured.
- TolerantValidation.UnionExact: is not about payloads in which two members' names are keys, nor about fields their locations miss; `UnionGroups` says what is accepted then.
- Other caps than the default thousand, and other groups of the same stream: those write to the same dead letters and evict from them too.
- Union members with equal names: the schemas give every member a name of its own.
- The validation engine itself: coercions, defaults, custom validators and messages. A closed-schema validator stands for it.
- Symlinks and real file-system resolution: paths resolve lexically. YAML parsing: documents are given in parsed form.
- ComposePlan.Project.ApplyEffectiveOverrides: rewrites a field holding the project's values; nested dictionaries shared by reference are not captured, nor is the partly rewritten project after a refusal.
- ComposePlan.Inspect: the texts and order of policy errors, the parsing of CPU, memory and volume strings, and workspace containment are parameters; only whether each check passes is used.
- ComposePlan.WorkersAreIsolated: takes the truncated digests of the two workers as different.
- The clock and the expiry of the cancel key, and process death during a script, in ScaffoldLeases: scripts are atomic, and the key's expiry is a step.
- Provisioner messages that fail validation, and the content of results.
- Two simultaneous requests of one worker at the broker: reading and deleting the active turn is not atomic there. Credentials, sessions, status and the Compose proxy of the broker.
- Reservations over runs of allocations: a new application holds none, so their sum is not bounded by capacity.
- PortAllocation.Placement: the reads of the search are one API call, and a failure of any of them is that call's failure.
- The address field of port allocations, ports beyond 65535, and the retry of the port API on a conflict: its transaction is one step.
- Interpolation.InterpolationReferences: the character set is a parameter of which only the punctuation is fixed.
- The shell-text filter and the Python and workflow scanners beside the interpolation scanner.
- ProjectSlug.SlugifyExtends: lower-casing is taken character by character. Python lower-cases a final sigma by its context; neither of its forms is a slug character, so slugs are the same.
- EnvContract.MergeEnvContractFragments: starts after schema validation of the fragments; the canonical JSON bytes of the result are not modelled.
- RateLimit.Notifications.SendTelegramMessage: the replies of Telegram and the two clock readings are parameters.
- Telegram, HTTP, SSH, Docker, GitHub, the front ends, object-relational models and configuration.
