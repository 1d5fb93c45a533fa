# Verified models of TunTun's protocols, parsers and gates

Dafny models of the parts of TunTun that are protocols, parsers or
transformations, each in the form of its source: classes and methods with loops
where the code changes things step by step, functions and lemmas where it
computes, a step relation where processes interleave.

| file | what it models |
|---|---|
| `DirectoryTransaction.dfy` | the crash-safe generated-directory transaction and its recovery |
| `Bundle.dfy`, `BundleReference.dfy`, `Staging.dfy`, `Dispatcher.dfy` | the forced-command dispatcher: content-addressed bundles, staging, the locked state machine |
| `JsonLimits.dfy` | the lexical JSON preflight and the walk over the parsed tree |
| `GitHistory.dfy`, `GitReference.dfy`, `PatternStream.dfy`, `Ustar.dfy`, `UstarReference.dfy` | the incremental readers of the private-data scan |
| `MigrationGraph.dfy` | the migration-graph checker |
| `Supervisor.dfy` | the handshake of scenario run, supervisor and worker |
| `Receipts.dfy`, `FirewallTable.dfy`, `FirewallPackets.dfy`, `FirewallBoot.dfy` | receipt publication, canonical firewall tables, what they let through, the boot protocol |
| `SchemaRefs.dfy` | the reference rewriter for embedded model schemas |
| `Fixtures.dfy` | the schema-directed fixture generator |
| `ReportGate.dfy`, `ReportReference.dfy`, `LargeReport.dfy` | the bilingual report: normalising, signing, verifying, the hard gate; reports of any size |
| `Wrappers.dfy`, `Faults.dfy`, `JsonValue.dfy` | shared types: options, faults, parsed JSON |

A file named `...Reference.dfy` says the same thing once more, of bytes, positions,
fields and sizes of sets, without the functions the model computes with, and proves
that both agree on all inputs.

How failures are modelled.  Before every change of state a step may fail with an
error or be the last the process takes (`Faults.Tick`).  A clause of a contract
that does not mention how the call ended therefore holds at every crash point.
`calm` switches the disturbances off; clauses under `calm` say when a call must
succeed.  Statements about whole runs are lemmas over sequences of states linked
by the same relation the methods establish.

What is taken as given.  SHA-256 and keyed hashes have no collisions (free
constructors).  JSON codecs are functions with a stated round trip.  A rename, an
exchange and an nftables load are atomic.  Same-user writers honour the parent
lock, and a new directory differs in identity from the live one.  Ratios are exact
rationals.  `GateBeforeSuccess` takes the two receipts of its run to fit their size
limit.  In `GitHistory` and `PatternStream` a byte is the character with its
value.

Where code and expectation part.  Five expectations are false of the code as it
is, and the model keeps the code.  The private-key pattern is missed when it lies
across the windows of a scan (`PatternStream.LongKeyIsMissed`, exact condition
`DetectedIffInOneWindow`).  A gate may pass before any later apply has succeeded
(`FirewallBoot.UnretainedApplyOpens`): from a given state if and only if the
documents restore, a receipt can be published and no degraded receipt is present,
or its folder would take another, which a failing publication of some call, apply
or gate, then loses (`GateBeforeSuccess`); an undisturbed refusal leaves one
(`RefusalHolds`).  Not every later run can clean up after an interrupted one
(`DirectoryTransaction.AnotherRenderIsRefused`, exact condition in
`WriteThenRecover`).  Generated values may break keywords the generator skips
(`Fixtures.SkippedKeywordsMatter`, condition `Agrees`, exact in direct schemas).
With 100000 rows or more the rounded threshold may pass a ratio below 19/20
(`LargeReport.LowRatioIsAccepted`, exact in `ReportGate.ThresholdExact` and
`GateRowByRow`).

## Model

| member | source | states |
|---|---|---|
| `DirectoryTransaction.PublishedIsWhole` | scripts/contract_generator_common.py:1950-2088 | Over any history of writer runs, each finished, failed or killed at any step, the published directory is the initial one or the whole render of one run, never a mixture |
| `DirectoryTransaction.SnapshotsAreWhole` | scripts/contract_generator_common.py:2091-2124 | Any snapshot a reader obtains is such a whole generation with no transaction pending; right after a finished run it is that run's render |
| `DirectoryTransaction.OutputParent.Write` | scripts/contract_generator_common.py:1950-2088 | One run with its trailing recovery is one step of such a history, keeps every journalled transaction recoverable, publishes when undisturbed if and only if the disk is ready for its render, whatever run came before, leaves no transaction behind an error whose recovery is undisturbed, and strands a successor with the same render only in the one named way |
| `DirectoryTransaction.OutputParent.WriteThenRecover` | scripts/contract_generator_common.py:1829-2088 | After a run with one render, ended in any way, an undisturbed recovery for another render goes through if and only if there is no transaction, it is journalled for the same names, or it is unambiguous for the other render; otherwise nothing is touched |
| `DirectoryTransaction.AnotherRenderIsRefused` | scripts/contract_generator_common.py:1628-1637 | Whenever an entry as far as one run wrote it is not a beginning of the same entry of another render, that run leaves a disk which its own successor cleans up and the other refuses |
| `DirectoryTransaction.OutputParent.Attempt` | scripts/contract_generator_common.py:1966-2072 | The same up to the first error |
| `DirectoryTransaction.OutputParent.Prepare` | scripts/contract_generator_common.py:1972-1999 | Until the commit the published directory is untouched and what is on disk can be cleaned up |
| `DirectoryTransaction.OutputParent.BuildStage` | scripts/contract_generator_common.py:1972-1988 | Every interruption leaves a private stage whose files are prefixes of the render; a return leaves the whole render |
| `DirectoryTransaction.OutputParent.WriteIntent` | scripts/contract_generator_common.py:1612-1626 | The intent appears whole, by one rename, and only with a complete stage; before that the leftovers stay unambiguous |
| `DirectoryTransaction.OutputParent.Commit` | scripts/contract_generator_common.py:2024-2037 | The commit rename publishes exactly the candidate and keeps the baseline for the recovery |
| `DirectoryTransaction.OutputParent.Publish` | scripts/contract_generator_common.py:2024-2072 | From the commit on the candidate is published, whatever happens to the cleanup |
| `DirectoryTransaction.OutputParent.Reconcile` | scripts/contract_generator_common.py:1829-1947 | Recovery never changes the published directory; on a decoded intent it answers "pre" or "post" only, and undisturbed exactly, if the receipts of published and staged directory put the disk on that side of the commit, and if on neither raises with the disk as it was; keeps journalled transactions recoverable at every crash point |
| `DirectoryTransaction.OutputParent.ReconcileJournaled` | scripts/contract_generator_common.py:1851-1947 | The journalled branch: the answer is the side the receipts prove, and undisturbed that side is answered; a state on neither side is refused untouched; an interrupted pass leaves a recoverable transaction or an empty one |
| `DirectoryTransaction.OutputParent.RecoverRepeatedly` | scripts/contract_generator_common.py:1829-1947 | After any number of disturbed recoveries an undisturbed one ends with the same published directory and no transaction; its label is the true side as long as the intent was still there, "pre" for an emptied transaction, "none" for a removed one |
| `DirectoryTransaction.OutputParent.RemoveReceipted` | scripts/contract_generator_common.py:1683-1705 | Only a directory every entry of which the receipt records is emptied, any other is refused untouched; an interruption leaves a remnant of it |
| `DirectoryTransaction.OutputParent.RemoveUnjournaled` | scripts/contract_generator_common.py:1750-1816 | Goes through exactly on unambiguous leftovers and otherwise touches nothing; an interruption leaves unambiguous leftovers or the stranded shape |
| `DirectoryTransaction.OutputParent.OpenSnapshot` | scripts/contract_generator_common.py:2091-2124 | Reads the published contents with no transaction pending; succeeds, when undisturbed, exactly then |
| `DirectoryTransaction.ClassifyIsCommitted` | scripts/contract_generator_common.py:1890-1919 | The receipts tell the two sides apart: POST if and only if the commit rename happened |
| `DirectoryTransaction.JournalledIsDecided` | scripts/contract_generator_common.py:1851-1919 | Every check of the recovery passes on a journalled transaction and decides its true side |
| `DirectoryTransaction.ClassifyIsSide` | scripts/contract_generator_common.py:1893-1919 | For every disk and intent, the classification is before the commit, after it or neither, each said of receipts and entries |
| `DirectoryTransaction.DecideIsRecognised` | scripts/contract_generator_common.py:1851-1919 | The chain of checks of the recovery admits exactly the disks that are recognisably on one side, and what it then removes is authorised by a receipt |
| `DirectoryTransaction.UnambiguousExact` | scripts/contract_generator_common.py:1750-1816 | What may be removed without an intent is exactly a leftover of a run with this render: prefixes of it, and an intent file not yet renamed |
| `DirectoryTransaction.ExactReceiptIsIdentity` | scripts/contract_generator_common.py:1387-1414 | A receipt matches exactly the directory it was taken of |
| `DirectoryTransaction.SubsetReceiptIsRemnant` | scripts/contract_generator_common.py:1387-1414 | In subset mode it matches exactly what is left of that directory after unlinking entries |
| `Dispatcher.Root.HandleStage` | scripts/reachy_a05_forced_dispatcher.py:589-631 | From any valid state, whatever the trees look like: keeps the state valid and, if every named bundle was stored and valid, keeps that at every failure point; answers exactly the accepted requests, and only with the bundle named and its tree validated; a bundle already named changes nothing |
| `Dispatcher.Root.HandleActivate` | scripts/reachy_a05_forced_dispatcher.py:634-662 | The same for activate: only what is staged, and validates when looked at again, becomes active |
| `Dispatcher.Root.HandleRemove` | scripts/reachy_a05_forced_dispatcher.py:740-782 | The state stops naming the bundle before its tree goes and no other tree changes; every other bundle stays staged or active as it was, at every failure point; an answered removal of a named or stored bundle raises the generation by one and has status "removed" if and only if nothing is left; of any other it changes nothing |
| `Dispatcher.Root.HandleVerifyAbsent` | scripts/reachy_a05_forced_dispatcher.py:785-841 | Answers exactly when the bundle is neither named, stored nor in staging |
| `Dispatcher.Root.HandleRunPtt` | scripts/reachy_a05_forced_dispatcher.py:665-737 | Validates the active bundle and hands off its entrypoint with the bytes its manifest commits to; refuses a bundle that does not validate |
| `Dispatcher.Root.PublishState` | scripts/reachy_a05_forced_dispatcher.py:1460-1555 | The state file is exactly the old or exactly the new record at every failure point; a stale expectation changes nothing |
| `Dispatcher.Root.Materialize` | scripts/reachy_a05_forced_dispatcher.py:954-1058 | A generation appears under its digest only if it validates; nothing else changes; goes through exactly for materialisable plans |
| `Dispatcher.GenerationGrows` | scripts/reachy_a05_forced_dispatcher.py:1460-1555 | Over every run the generation never decreases and grows with every publication |
| `Dispatcher.ExpectedGenerationConsumedOnce` | scripts/reachy_a05_forced_dispatcher.py:602-662 | No two publications of a run consume the same expected generation |
| `Dispatcher.NamedIsStored` | scripts/reachy_a05_forced_dispatcher.py:589-662 | Over every run of requests, answered, rejected or killed, each bundle the state names is stored and is what its digest says |
| `Dispatcher.NamedTreeNeverChanges` | scripts/reachy_a05_forced_dispatcher.py:589-662 | A bundle named at two points of a run is the same tree at both, however often it was removed and staged again |
| `Dispatcher.NamedWasStaged` | scripts/reachy_a05_forced_dispatcher.py:589-662 | A bundle named at any point of a run was staged by a request of the run or named at its start |
| `Dispatcher.ForgottenBy` | scripts/reachy_a05_forced_dispatcher.py:589-782 | A bundle named at one point of a run and not at a later one was given up by a publication that removed it or staged another |
| `Dispatcher.StatusTells` | scripts/reachy_a05_forced_dispatcher.py:1562-1626 | A state record is valid if and only if its status says which of the two places holds a bundle and its generation is a safe positive integer |
| `Dispatcher.ReplayStage` | scripts/reachy_a05_forced_dispatcher.py:602-631 | A stage request sent twice gets the same answer, leaves the state that answer tells of, and changes no generation but the one it stored |
| `Dispatcher.ReplayActivate` | scripts/reachy_a05_forced_dispatcher.py:639-662 | So does an activate request, which changes no generation |
| `Dispatcher.ReplayRemove` | scripts/reachy_a05_forced_dispatcher.py:747-782 | So does a remove request, which changes no generation but the one removed |
| `Dispatcher.StageAgain` | scripts/reachy_a05_forced_dispatcher.py:602-606 | An answered stage request that comes again changes neither state nor generations, whatever happens to it, and gets the same answer |
| `Dispatcher.ActivateAgain` | scripts/reachy_a05_forced_dispatcher.py:639-641 | So for activate |
| `Dispatcher.RemoveAgain` | scripts/reachy_a05_forced_dispatcher.py:747-758 | So for remove |
| `Dispatcher.StageAcceptsDeliverable` | scripts/reachy_a05_forced_dispatcher.py:602-631 | A new plan is accepted exactly when its stream delivers a manifest and what that manifest lists |
| `Bundle.SameDigestSameTree` | scripts/reachy_a05_forced_dispatcher.py:1153-1370 | Two trees valid under one digest are equal in files, bytes, executable bits and directories |
| `Bundle.SurvivingPlanIsManifest` | scripts/reachy_a05_forced_dispatcher.py:907-946 | A plan whose tree validates lists manifest.json first and then exactly the manifest's artifacts in order |
| `Bundle.ParseStagePayload` | scripts/reachy_a05_forced_dispatcher.py:907-946 | The one-pass parser accepts exactly the well-formed plans |
| `Bundle.ValidateBundleDirectory` | scripts/reachy_a05_forced_dispatcher.py:1153-1204 | The record-by-record check accepts exactly the trees that are the bundle the digest names |
| `Bundle.SameFilesSameTree` | scripts/reachy_a05_forced_dispatcher.py:1280-1370 | The walk for unlisted entries leaves no room for a difference between two trees with the same listed files |
| `BundleReference.ValidatesExact` | scripts/reachy_a05_forced_dispatcher.py:1153-1370 | A tree validates if and only if it is a good one, said of files and paths: the manifest hashes to the digest and decodes, every listed file is there with size, hash and mode, the entrypoint is among them, nothing else is there |
| `BundleReference.PlanExact` | scripts/reachy_a05_forced_dispatcher.py:907-946 | A stage plan is accepted if and only if it lists good, distinct records within the limits, the manifest among them, and its digest is over all of them |
| `BundleReference.RecordsExact` | scripts/reachy_a05_forced_dispatcher.py:1207-1252 | So for the artifact records of a manifest |
| `BundleReference.WalkExact` | scripts/reachy_a05_forced_dispatcher.py:1280-1370 | The walk finds nothing unlisted if and only if every entry is a listed file or lies on the way to one |
| `BundleReference.PathExact` | scripts/reachy_a05_forced_dispatcher.py:1905-1926 | The accepted paths, by character codes and lengths |
| `BundleReference.JoinIsUndone` | scripts/reachy_a05_forced_dispatcher.py:1905-1926 | The text of a path determines its components |
| `Staging.StagedIffDeliverable` | scripts/reachy_a05_forced_dispatcher.py:954-993 | Building and validating succeeds for exactly the deliverable plans |
| `Staging.WriteAllIsBuild` | scripts/reachy_a05_forced_dispatcher.py:1061-1138 | Writing artifacts as the stream arrives equals cutting the stream first and building afterwards |
| `Staging.SplitIsConcat` | scripts/reachy_a05_forced_dispatcher.py:1061-1138 | Cutting a stream gives some bodies if and only if they are it, in order, with the announced sizes and hashes |
| `Staging.DeliverableValidates` | scripts/reachy_a05_forced_dispatcher.py:1066-1204 | The tree of a deliverable plan validates |
| `Staging.ValidatedIsDeliverable` | scripts/reachy_a05_forced_dispatcher.py:1066-1204 | A plan whose tree validates was deliverable |
| `JsonLimits.LexicalIsParsed` | scripts/assurance_common.py:416-468 | For every value and every spelling of it the lexical pass counts the tokens, containers and depth of the parsed tree |
| `JsonLimits.BothGuards` | scripts/assurance_common.py:416-525 | Both guards accept the same documents |
| `JsonLimits.Preflight` | scripts/assurance_common.py:416-468 | The index loop accepts exactly the texts whose whole-text scan is within the limits; a refusal's reason is true |
| `JsonLimits.Walk` | scripts/assurance_common.py:499-525 | The worklist accepts exactly the trees within the limits; a refusal's reason is true |
| `JsonLimits.Visit` | scripts/assurance_common.py:503-525 | One step of the worklist conserves tokens, containers and the depth verdict over value and stack |
| `JsonLimits.ScanValue` | scripts/assurance_common.py:416-468 | Scanning a written value advances the counters by exactly what the value uses |
| `JsonLimits.FitsIsDepth` | scripts/assurance_common.py:499-525 | The per-container depth test is a test of the depth of the tree |
| `GitHistory.HistoryStream.Objects` | scripts/verify_private_data.py:2158-2198 | However the pipe splits the bytes, and whatever earlier scans charged to the budget, the generator yields what the whole-input reading yields and fails as it fails; a timeout only cuts it short |
| `GitHistory.HistoryStream.NextObject` | scripts/verify_private_data.py:2158-2198 | One object is taken exactly as the whole-input reading takes it, and the rest stays unread |
| `GitHistory.HistoryStream.Pump` | scripts/verify_private_data.py:2104-2121 | While objects are read the buffer limit is out of reach and no byte is lost |
| `GitHistory.HistoryStream.ReadLineOrEof` | scripts/verify_private_data.py:2132-2144 | Gives the first line, end of file, or the true reason for neither |
| `GitHistory.HistoryStream.ReadExact` | scripts/verify_private_data.py:2123-2130 | Gives exactly the next bytes, or the stream is shorter |
| `GitHistory.HistoryStream.CopyBody` | scripts/verify_private_data.py:2146-2156 | Copies exactly the body in bounded pieces |
| `GitHistory.DecodeEncode` | scripts/verify_private_data.py:2104-2198 | Every sequence of new, correctly hashed objects within budget is read back exactly and in order |
| `GitHistory.EncodeDecode` | scripts/verify_private_data.py:2104-2198 | And nothing else is read without a failure: the bytes are the encoding of such a sequence |
| `GitHistory.HeaderRoundTrip` | scripts/verify_private_data.py:1956-1980 | A header line parses to the header it was written from |
| `GitHistory.HeaderIsCanonical` | scripts/verify_private_data.py:1956-1980 | An accepted header line is the only spelling of its header |
| `GitHistory.HeaderFits` | scripts/verify_private_data.py:1956-1980 | Headers of objects within the size limit fit the line limit |
| `GitReference.ReadExactly` | scripts/verify_private_data.py:2158-2198 | For every byte sequence and budget: it is read as some objects without a failure if and only if it is their lines and bodies one after the other and each is new, of a known kind, correctly hashed and within what the budget still allows |
| `GitReference.FailureTells` | scripts/verify_private_data.py:1956-2198 | Every reason an object is refused for is true of the bytes |
| `PatternStream.PatternsStream` | scripts/verify_private_data.py:341-402 | Each reason is reported at most once and exactly when its pattern lies in one window; size mismatches and overruns are reported |
| `PatternStream.DetectedIffInOneWindow` | scripts/verify_private_data.py:363-391 | For any pattern and any chunking: detected if and only if a match lies inside one chunk with its overlap |
| `PatternStream.OverlapSuffices` | scripts/verify_private_data.py:363-391 | Detection is sound, and complete for matches of at most 257 bytes, independent of chunking |
| `PatternStream.CredentialsAreExact` | scripts/verify_private_data.py:51-54 | The credential pattern is detected if and only if it occurs in the whole input |
| `PatternStream.CredentialExact` | scripts/verify_private_data.py:51-54 | The matcher accepts exactly the language of the credential expression |
| `PatternStream.PrivateKeyExact` | scripts/verify_private_data.py:51-54 | So for the private-key expression |
| `PatternStream.OverlapIsTight` | scripts/verify_private_data.py:363-391 | One byte more than the overlap allows can be missed |
| `PatternStream.LongKeyIsMissed` | scripts/verify_private_data.py:532-548 | The private-key pattern is not: for every length, a key header at the start of an archive member, which arrives as a 512-byte prefix and full reads, is detected if and only if it fits the prefix |
| `MigrationGraph.GraphFindings` | scripts/check_migration_ownership.py:183-277 | Findings of every kind are characterised; with all flags on there are none if and only if the revisions are distinct and form one chain from one root to one head |
| `MigrationGraph.FindCycles` | scripts/check_migration_ownership.py:228-252 | The path walk terminates and reports each cycle of single-parent revisions exactly once and nothing else |
| `MigrationGraph.WalkUp` | scripts/check_migration_ownership.py:231-242 | One walk follows single parents until it leaves the graph, meets finished work or itself |
| `MigrationGraph.Reachable` | scripts/check_migration_ownership.py:254-267 | The worklist terminates with exactly the descendants of the root |
| `MigrationGraph.CleanIsChain` | scripts/check_migration_ownership.py:196-277 | A graph without findings is one chain |
| `MigrationGraph.ChainIsClean` | scripts/check_migration_ownership.py:196-277 | One chain is a graph without findings |
| `MigrationGraph.CleanIsOneChain` | scripts/check_migration_ownership.py:183-277 | The same in terms of the migration files |
| `MigrationGraph.ByRevision` | scripts/check_migration_ownership.py:74-78 | Groups every occurrence of every revision once |
| `MigrationGraph.Unique` | scripts/check_migration_ownership.py:191-196 | Duplicates are exactly the revisions that occur twice; the rest form the graph |
| `MigrationGraph.Edges` | scripts/check_migration_ownership.py:197-204 | Merge and orphan findings are exactly the merges and orphans, and the counter counts children |
| `MigrationGraph.Forks` | scripts/check_migration_ownership.py:205-215 | Fork findings are exactly the parents with several children |
| `MigrationGraph.Strict` | scripts/check_migration_ownership.py:216-277 | Root and head counts, cycles and detached revisions are reported exactly |
| `Supervisor.ReturnMeansReaped` | scripts/run_scenarios.py:1436-1518 | In every interleaving with every timeout and death in which nobody else writes to the pipe: when the parent returns, the worker named in the ready frame is reaped, was reaped whenever a byte of the stopped frame had been sent, and the supervisor has exited with 0; when it raises, that handshake took place too or the forced cleanup was made |
| `Supervisor.Reachable` | scripts/run_scenarios.py:172-251 | Every reachable state of parent, supervisor, worker and pipes keeps the protocol invariant |
| `Supervisor.StepKeeps` | scripts/run_scenarios.py:172-251 | Each step of each process keeps it |
| `Supervisor.EndsByCollectOrForce` | scripts/run_scenarios.py:1475-1506 | The parent ends by collecting the supervisor after the handshake or through the forced cleanup, by nothing else |
| `Supervisor.MismatchIsForced` | scripts/run_scenarios.py:1436-1500 | In every run, whoever writes whatever to the pipe: if the bytes read are not the two frames of one worker, or a read passed the limit, or a step of the handshake timed out or failed, the parent ends through the forced cleanup; if the run itself timed out, it does not return |
| `Supervisor.EveryRunTraces` | scripts/run_scenarios.py:1257-1307 | In every run what the parent has read is fixed by how far it got, whatever the pieces and whoever wrote them; once past the stopped frame it has read everything and nobody is left to write |
| `Supervisor.QuietRunReturns` | scripts/run_scenarios.py:172-251 | Some run in which nothing goes wrong returns, and is one the reaping theorem speaks of |
| `Supervisor.CanFinish` | scripts/run_scenarios.py:172-251 | The handshake never gets stuck: every run without a failure, a timeout or a foreign write, however the steps interleave and whenever the worker ends, can be carried on until the parent has collected the supervisor, and it then returns unless an exception was on its way |
| `Supervisor.WorkerMayEndFirst` | scripts/run_scenarios.py:199-251 | A worker that ends by itself, and is reaped before the parent asks, is no obstacle to that |
| `Supervisor.NoFalseAlarm` | scripts/run_scenarios.py:1436-1500 | In every such run nothing the parent reads is ever a reason for the forced cleanup |
| `Supervisor.WorkerLives` | scripts/run_scenarios.py:172-251 | In every run the worker is born by the one fork, dies, and only then is reaped, by the supervisor; nobody writes to a pipe that everybody has closed |
| `Supervisor.SupervisorExits` | scripts/run_scenarios.py:220-251 | The supervisor exits with 0 only after the stopped frame, and with 97 exactly on an overlong or wrong request, whose worker it kills, or when the kill takes too long |
| `Supervisor.WhenRead` | scripts/run_scenarios.py:1257-1307 | Whoever reads takes at most one byte more than a frame may have, the parent nothing behind the first line; it gives reading up exactly at an overlong or a cut-off line |
| `Supervisor.WhenGivenUp` | scripts/run_scenarios.py:1436-1500 | Every wait of the parent may end in the forced cleanup, and nothing else it does |
| `Supervisor.StrangersAreForced` | scripts/run_scenarios.py:1257-1282 | Whoever writes any other line before the ready frame, supervisor or a worker that outlived it, brings on the forced cleanup |
| `Supervisor.SettingExists` | scripts/run_scenarios.py:126-158 | For every nonce of the length in use there are frames as these statements require |
| `Supervisor.FirstLineIsReady` | scripts/run_scenarios.py:1257-1282 | The first line the parent can read is the supervisor's ready line, whatever the pieces |
| `Supervisor.CollectKeeps` | scripts/run_scenarios.py:1354-1382 | An exit status collected after the stopped frame tells of a reaped worker |
| `Receipts.Repository.ReplaceAtomic` | deploy/reachy/boot_gate.py:142-217 | A return leaves exactly the new receipt and nothing else changed; every other ending is a publication whose effect on the folder is fixed by the steps that took effect: nothing is replaced in a folder that does not take it, and a replaced receipt is gone only if the last fallback unlinked it; undisturbed it returns if and only if the folder takes it |
| `Receipts.PublicationIsFailClosed` | deploy/reachy/boot_gate.py:142-217 | Readers see the old outcome, the new receipt or a refusal: the old one unless the marker stayed, a refusal after the replace as soon as one fallback took effect, the new receipt only if none did |
| `Receipts.RequiredIsLastReplaced` | deploy/reachy/boot_gate.py:104-217 | After any number of publications whatever can be required is what the last replacement wrote, or the initial receipt |
| `Receipts.Repository.Require` | deploy/reachy/boot_gate.py:104-140 | Yields the receipt exactly when nothing blocks, the file is private and the payload parses |
| `Receipts.FolderExact` | deploy/reachy/boot_gate.py:104-187 | When a receipt can be required and when one can be published, in terms of marker, quarantine, mode, kind and size |
| `Receipts.Repository.Prepare` | deploy/reachy/boot_gate.py:143-187 | Up to the durable marker the receipt is untouched |
| `Receipts.Repository.RemoveMarker` | deploy/reachy/boot_gate.py:284-295 | Either the marker is gone or the folder is blocked by a fallback that took effect |
| `Receipts.Repository.FailClosed` | deploy/reachy/boot_gate.py:297-310 | The folder ends blocked exactly when some fallback took effect; when the first works, the marker is back and the receipt untouched |
| `Receipts.Repository.RestoreMarker` | deploy/reachy/boot_gate.py:341-361 | A restored marker blocks even if its restoring is reported as failed |
| `Receipts.Repository.MakeUnclaimable` | deploy/reachy/boot_gate.py:320-338 | The receipt loses its mode, its name, both or neither, as the steps took effect |
| `Receipts.Repository.WriteTemp` | deploy/reachy/boot_gate.py:560-566 | Short writes still leave the whole payload |
| `Receipts.Repository.ReadAtMost` | deploy/reachy/boot_gate.py:569-580 | Chunked reads give the whole payload, or it is over the bound |
| `FirewallTable.CanonicalSemantics` | deploy/reachy/apply_firewall.py:174-209 | The loop computes the canonical meaning of a document, or refuses with it |
| `FirewallTable.ListingMeansScript` | deploy/reachy/apply_firewall.py:174-209 | A listing that shows the entries of a script in order has the script's meaning, whatever its handles, positions and counters |
| `FirewallTable.SemanticsOfScript` | deploy/reachy/apply_firewall.py:174-209 | The meaning of a script is its entries in order without volatile fields |
| `FirewallTable.WithoutVolatileTwice` | deploy/reachy/apply_firewall.py:514-524 | Stripping volatile fields is idempotent |
| `FirewallTable.FullIsEmergencyAndMore` | deploy/reachy/render_firewall.py:94-147 | For all inputs the full table means the emergency table, with its three chains that drop, and four further rules, so the two never agree |
| `FirewallTable.RulesDeterminePeer` | deploy/reachy/render_firewall.py:94-134 | Equal full tables let in the same interface, address, link address and port |
| `FirewallPackets.EmergencyLets` | deploy/reachy/render_firewall.py:138-288 | For every packet and hook the emergency table, evaluated rule by rule, lets it through if and only if it is loopback, address configuration or one of the listed ICMP messages in the right direction; nothing is forwarded |
| `FirewallPackets.FullLets` | deploy/reachy/render_firewall.py:94-288 | For every peer, packet and hook the full table lets through that and exactly the TCP traffic over IPv4 with this peer on its interface: from its link address to port 22 with the established answers, and to its port with the established answers |
| `FirewallPackets.TableLets` | deploy/reachy/render_firewall.py:150-171 | Whatever its rules: a table with these three chains lets a packet through if and only if a rule of that chain accepts it |
| `FirewallTable.CommandMeans` | deploy/reachy/apply_firewall.py:184-208 | A command is accepted if and only if it has a meaning, bookkeeping or one object of the table added or listed, and contributes that object |
| `FirewallTable.SemanticsExact` | deploy/reachy/apply_firewall.py:174-209 | A document has a meaning if and only if it is a list of such commands with one table |
| `FirewallTable.CanonicalForgetsVolatile` | deploy/reachy/apply_firewall.py:514-524 | Two values have the same canonical form if and only if they differ in nothing but handles, positions and counter values |
| `FirewallTable.ScriptReplaces` | deploy/reachy/render_firewall.py:138-171 | Executed on any table, a script leaves exactly its own entries |
| `FirewallBoot.GateBeforeSuccess` | deploy/reachy/apply_firewall.py:320-401 | "No gate until a later apply succeeds", exactly: for every state, some run lets a gate pass before an apply has succeeded if and only if the documents restore, the receipt folder takes a receipt and no degraded receipt is present, or one is present in a folder that would take another, which a call then loses |
| `FirewallBoot.DegradedReceiptHolds` | deploy/reachy/boot_gate.py:472-535 | In every run: while a degraded receipt is present no gate passes; between it and a gate that does lies an apply that took all its steps, or a call (an apply, or a gate that could not read whether a degraded receipt is there) that unlinked its own degraded receipt after replacing the old one |
| `FirewallBoot.RefusalHolds` | deploy/reachy/boot_gate.py:498-535 | So after an undisturbed refusal whose degraded folder takes a receipt, or has one, the gate waits for such a call |
| `FirewallBoot.NoGateUntilApply` | deploy/reachy/apply_firewall.py:320-401 | In every run of apply and gate calls: after a call that failed with the emergency table observed a gate passes only after an apply that succeeded in the gate's circumstances, or was cut off in an admitted state, with nothing changed since |
| `FirewallBoot.GateIffApplyStands` | deploy/reachy/boot_gate.py:472-535 | For an undisturbed gate that condition is exact: it succeeds if and only if such an apply stands |
| `FirewallBoot.NoGateUntilSuccess` | deploy/reachy/apply_firewall.py:320-401 | If no apply in between dies half-way or loses the emergency table, the gate waits for one that takes all its steps with the same boot, key, build, documents and neighbour |
| `FirewallBoot.SuccessAdmits` | deploy/reachy/boot_gate.py:425-469 | What an apply that took all its steps leaves is admitted for exactly the calls with the same boot, key, build, documents and neighbour |
| `FirewallBoot.GateFollowsApply` | deploy/reachy/boot_gate.py:425-535 | A gate that succeeds names an apply of the run for the same boot, key, build, documents and neighbour whose inputs are the gate's and whose full table is live |
| `FirewallBoot.ReceiptIsFromApply` | deploy/reachy/boot_gate.py:363-398 | Any receipt that can be required was stored by an apply of the run for the table it had rendered and observed |
| `FirewallBoot.UnretainedApplyOpens` | deploy/reachy/apply_firewall.py:355-376 | A run that breaks "until an apply succeeds": a gate that cannot read its key refuses without a degraded receipt, an apply publishes its receipt although the publication raises and cannot re-install the emergency table, and an undisturbed gate passes |
| `FirewallBoot.Host.ApplyForCurrentBoot` | deploy/reachy/apply_firewall.py:320-401 | Returns only with the live table meaning the rendered ruleset and a matching receipt stored, so that the gate would admit; every other ending is described phase by phase: what each left of table, receipt and degraded receipt, and that the reason names a phase that leaves the table so; undisturbed it succeeds if and only if the documents restore and the folder takes the receipt, and otherwise leaves a degraded receipt whenever its folder takes one |
| `FirewallBoot.Host.GateCurrentBoot` | deploy/reachy/boot_gate.py:472-535 | Succeeds only, and when undisturbed exactly, in admitted states and then changes nothing; otherwise the table stays or becomes the emergency one; an undisturbed refusal leaves a degraded receipt if and only if there was one or its folder takes one, and one that is present is left alone; a gate that cannot read whether there is one publishes over it |
| `FirewallBoot.Host.Check` | deploy/reachy/boot_gate.py:425-523 | The checks pass only, and when undisturbed exactly, in admitted states; an undisturbed check reports every degraded receipt that is present, and a check that cannot read its status is like any other failure |
| `FirewallBoot.Host.Attest` | deploy/reachy/apply_firewall.py:325-367 | The attempt: what it stores, and that a return is an admitted state |
| `FirewallBoot.Host.IssueReceipt` | deploy/reachy/boot_gate.py:363-398 | A receipt is stored only for a table whose meaning is the rendered one |
| `FirewallBoot.Host.ApplyRuleset` | deploy/reachy/apply_firewall.py:229-247 | Returns only with the live table meaning the ruleset, which lets through exactly that and the traffic of its peer |
| `FirewallBoot.Host.InstallEmergency` | deploy/reachy/apply_firewall.py:212-226 | Returns only with the live table meaning the emergency table, which lets through exactly the recovery traffic |
| `FirewallBoot.Host.Tell` | deploy/reachy/boot_gate.py:401-422 | Stores the degraded receipt for the emergency table and reason, undisturbed if and only if its folder takes it |
| `FirewallBoot.EmergencyIsNotFull` | deploy/reachy/render_firewall.py:138-147 | A table loaded from the emergency script is nobody's full table |
| `FirewallBoot.RefusedTraffic` | deploy/reachy/apply_firewall.py:320-401 | After every call that failed with the emergency table observed, exactly the recovery traffic passes |
| `FirewallBoot.AdmittedTraffic` | deploy/reachy/boot_gate.py:425-535 | In every state a gate admits, exactly that and the traffic of the restored peer passes |
| `SchemaRefs.EmbeddingPreservesMeaning` | scripts/contract_generator_common.py:116-163 | At every place that holds a reference, which is a $ref or an entry of a discriminator mapping, the text was local and has become, in the document, a reference to the rewriting of what it referred to |
| `SchemaRefs.ReferencesKeepMeaning` | scripts/contract_generator_common.py:94-163 | For every local reference: it resolves in the document exactly when it resolved in the schema, to the rewriting |
| `SchemaRefs.EmbeddingPlaceByPlace` | scripts/contract_generator_common.py:116-163 | For every place of a schema: it is in the document too; if it holds a reference, that one points to the same place of the embedded schema; otherwise keys, length and text are unchanged |
| `SchemaRefs.SupportedExact` | scripts/contract_generator_common.py:94-145 | A schema is rewritten if and only if each of its references, at whatever depth, is a local text; any other is refused |
| `SchemaRefs.ChildExact` | scripts/contract_generator_common.py:90-91 | Pointer tokens and children correspond one to one: escaped keys of an object, numerals of an array |
| `SchemaRefs.ContainerExists` | scripts/contract_generator_common.py:148-163 | For every container pointer whose tokens unescape there is a document that holds the models there |
| `SchemaRefs.WalkOfRewritten` | scripts/contract_generator_common.py:116-145 | Walking any pointer commutes with rewriting |
| `SchemaRefs.RewritingIsInjective` | scripts/contract_generator_common.py:116-145 | Rewriting loses nothing: keys and everything else determine the original |
| `SchemaRefs.EscapeIsUndone` | scripts/contract_generator_common.py:90-91 | RFC 6901 unescaping undoes the escaping, which leaves no slash |
| `SchemaRefs.EscapeIsInjective` | scripts/contract_generator_common.py:90-91 | Distinct names have distinct escapes |
| `SchemaRefs.ModelIsFound` | scripts/contract_generator_common.py:148-163 | The container holds each model under its escaped name |
| `SchemaRefs.BuildModelSchemas` | scripts/contract_generator_common.py:102-163 | Refuses exactly the containers that do not begin with a slash or end with one; succeeds exactly for the others with at least one model, distinct names and schemas all of whose references are local, and then holds every rewritten schema |
| `Fixtures.Factory.SchemaValue` | scripts/contract_fixture_builders.py:304-436 | Every value returned for a schema whose skipped keywords agree satisfies it, through references, unions, objects and arrays; without unions, keywords beside references and patterns on UUIDs, it satisfies it only if they agree; while UUIDs last it builds, or refuses, exactly what the schema foresees; every UUID ever drawn is new, failed branches included |
| `Fixtures.Factory.Union` | scripts/contract_fixture_builders.py:337-357 | The value is one of a branch the generator may use, and as right for it as promised |
| `Fixtures.Factory.ObjectValue` | scripts/contract_fixture_builders.py:360-374 | The object has exactly the required properties and satisfies the schema if, and in direct schemas only if, theirs agree; while UUIDs last one is built if and only if each required property is described and can be built |
| `Fixtures.Factory.ArrayValue` | scripts/contract_fixture_builders.py:375-391 | The array has the least number of items and satisfies the schema if, and in direct schemas only if, the item schema agrees |
| `Fixtures.Factory.Typed` | scripts/contract_fixture_builders.py:359-436 | The same for every typed schema; a string draws a UUID if and only if it is one |
| `Fixtures.Factory.Referenced` | scripts/contract_fixture_builders.py:311-326 | A reference is right through its definition or registered model and the keywords beside it |
| `Fixtures.Factory.Uuid` | scripts/contract_fixture_builders.py:280-285 | A drawn UUID was never drawn before, and none is lost |
| `Fixtures.TextExact` | scripts/contract_fixture_builders.py:392-423 | A generated string satisfies its schema if and only if its format text fits the bounds and the pattern |
| `Fixtures.PlainExact` | scripts/contract_fixture_builders.py:328-335 | For scalars without references and unions satisfaction is the conjunction of the whole-value keywords |
| `Fixtures.FirstChoiceIs` | scripts/contract_fixture_builders.py:328-335 | An enumeration gives its first choice that is not null |
| `Fixtures.ScalarsAreLeast` | scripts/contract_fixture_builders.py:392-436 | A plain string is the shortest nonempty one within its bounds, an integer is its minimum or zero |
| `Fixtures.RefSplits` | scripts/contract_fixture_builders.py:311-326 | A reference is satisfied exactly by what satisfies its target and the keywords beside it |
| `Fixtures.UnionSplits` | scripts/contract_fixture_builders.py:337-357 | A union exactly by what satisfies some branch and the keywords beside it |
| `Fixtures.SkippedKeywordsMatter` | scripts/contract_fixture_builders.py:328-406 | Soundness without the condition is false: the generator returns a UUID beyond its bound and a constant of another type |
| `Ustar.Source.ScanUstar` | scripts/verify_private_data.py:614-685 | Accepts only byte sequences that are exactly valid headers, bodies, zero padding, two end blocks and trailing zero blocks, and visits their entries in order; accepts every such sequence from an undisturbed source |
| `Ustar.ScanWritten` | scripts/verify_private_data.py:614-685 | Any list of regular files, with names in one or both name fields, written out and scanned is visited once each, in order, with its whole name and body |
| `Ustar.Source.NextEntry` | scripts/verify_private_data.py:617-640 | One header with its body and padding is taken off the front, or the first zero block |
| `Ustar.Source.ReadEntry` | scripts/verify_private_data.py:623-678 | Takes exactly the announced body and its padding |
| `Ustar.Source.ReadEnd` | scripts/verify_private_data.py:619-684 | Accepts exactly a second end block and bounded trailing zero blocks |
| `Ustar.Source.ReadExact` | scripts/verify_private_data.py:201-210 | Gives exactly the next bytes, or the source is shorter |
| `Ustar.Source.ReadMember` | scripts/verify_private_data.py:328-338 | The member reader hands out exactly the member |
| `Ustar.CheckHeader` | scripts/verify_private_data.py:623-667 | Passes exactly the valid headers with an admissible size |
| `Ustar.ArchiveIsBlocks` | scripts/verify_private_data.py:614-685 | The entries of an accepted archive fill whole blocks |
| `Ustar.FieldRoundTrip` | scripts/verify_private_data.py:578-582 | A closed octal field reads back as its number |
| `Ustar.HeaderIsValid` | scripts/verify_private_data.py:585-640 | A written header passes every check and gives back the joined name, size and kind |
| `UstarReference.HeaderExact` | scripts/verify_private_data.py:578-640 | A block is a valid header if and only if, by positions and bytes, it is one for some size and name: magic, checksum over the block with blanks in its place, octal fields, components of the path |
| `UstarReference.EntryExact` | scripts/verify_private_data.py:623-667 | An entry is valid if and only if there is a visit its bytes describe, and it is that one |
| `UstarReference.OctalExact` | scripts/verify_private_data.py:578-582 | A field reads as a number if and only if its digits, between blanks and NULs, spell it |
| `UstarReference.NameExact` | scripts/verify_private_data.py:585-603 | A name is safe if and only if it is a path of components that are not empty, a dot or two dots and hold no slash or backslash |
| `UstarReference.EndExact` | scripts/verify_private_data.py:619-684 | The end of an archive, in blocks |
| `ReportGate.GateRowByRow` | evals/verify_bilingual_report.py:503-522 | For any number of rows the gate passes if and only if every row is clean and two shares, each a number of rows selected by their fields, reach 19/20 or miss it by no more than rounding forgives |
| `ReportGate.GateBelowHundredThousand` | evals/verify_bilingual_report.py:503-522 | Below 100000 rows that is at least 19/20 |
| `ReportReference.VerifyExact` | evals/verify_bilingual_report.py:120-218 | For every payload, signature, expectation and time: a report verifies if and only if it is bound as expected, fresh, signed over one that differs at most in the spelling of its arrays, and its rows, inventory, coverage, totals and gate are good, each said of rows and identifiers |
| `ReportReference.MetricsExact` | evals/verify_bilingual_report.py:438-470 | The totals are the sums over the rows and the sizes of the selected sets of rows |
| `ReportReference.CoverageExact` | evals/verify_bilingual_report.py:400-435 | Coverage: every turn has a row and every row a turn, and cases of either kind have exactly one |
| `ReportReference.InventoryExact` | evals/verify_bilingual_report.py:270-305 | Which inventories are accepted |
| `ReportReference.RowsExact` | evals/verify_bilingual_report.py:308-397 | Which lists of rows are accepted |
| `ReportReference.CanonicalExact` | evals/verify_bilingual_report.py:192-218 | Two payloads are signed alike if and only if they differ at most in the spelling of arrays |
| `ReportGate.ThresholdExact` | evals/verify_bilingual_report.py:497-505 | For every ratio: the rounded threshold test passes if and only if the shortfall is at most what rounding forgives |
| `ReportGate.ThresholdIsNineteenTwentieths` | evals/verify_bilingual_report.py:497-505 | Below 100000 rows that is at least 19/20 |
| `ReportGate.ManyRowsRoundUp` | evals/verify_bilingual_report.py:497-505 | Above it a smaller ratio can pass |
| `LargeReport.LowRatioIsAccepted` | evals/verify_bilingual_report.py:120-218 | A whole report of 100019 rows, fewer than 19 in 20 of which follow the language, is prepared, signed and verifies |
| `LargeReport.ReportVerifies` | evals/verify_bilingual_report.py:400-522 | For every number of rows and of following rows there is a report covering a full inventory that verifies if and only if the ratio is enough |
| `ReportGate.RoundIsNearest` | evals/verify_bilingual_report.py:497-500 | Rounding gives the nearest integer, ties to even |
| `ReportGate.CleanIsSafe` | evals/verify_bilingual_report.py:503-520 | The 100 percent adversarial check is implied by the zero counts |
| `ReportGate.DenominatorsAreExact` | evals/verify_bilingual_report.py:400-470 | The ratios of an accepted report are over exactly one row for each adversarial and each benign case |
| `ReportGate.RowsMatchTurns` | evals/verify_bilingual_report.py:400-435 | Accepted results stand one to one with the turns of the inventory |
| `ReportGate.SignedIsVerified` | evals/verify_bilingual_report.py:120-218 | A signed report, however its arrays are spelled on arrival, verifies exactly while fresh and with an open gate |
| `ReportGate.VerifiedIsPrepared` | evals/verify_bilingual_report.py:120-218 | Whatever verifies is what the builder prepares from its own rows, signed |
| `ReportGate.PreparedIsCanonical` | evals/verify_bilingual_report.py:192-218 | Re-normalising a prepared payload is the identity |
| `ReportGate.NormalRowsTwice` | evals/verify_bilingual_report.py:308-397 | Normalising normalised results changes and refuses nothing |
| `ReportGate.NormalInventoryTwice` | evals/verify_bilingual_report.py:270-305 | So for the inventory |
| `ReportGate.NormalizeCaseResults` | evals/verify_bilingual_report.py:308-397 | The row loop accepts exactly well-formed rows with distinct keys and gives their normal form |

## Left out

- System calls, ACLs, umask, extended attributes, link counts, ownership and inode probing: they are atomic steps that may fail, and receipts are identity values.
- The order in which directory entries are listed: receipts hold their entries as maps; the sum of 32 entries of 4 MiB cannot reach the total limit, which is therefore not modelled, nor is the size limit of the intent file.
- DirectoryTransaction.OutputParent.RemoveUnjournaled: not restartable once it has begun to empty a stage that has a temporary intent, as in the source; the stranded shape is named in its contract.
- DirectoryTransaction.OutputParent.Reconcile: an emptied transaction directory is answered "pre", as in the source, whatever happened before.
- The exec handoff, sealed import snapshot and wheel capture of the dispatcher, its framing of requests and the depth of its runtime record.
- Dispatcher.Root.PublishState: does not promise that a rejected request left the state unchanged, because a failing last sync rejects with the new record in place.
- The budget of directory entries in the generation walk, and the textual form of artifact paths, which are sequences of components.
- Float spellings and duplicate keys as parse errors: `JsonLimits` speaks of texts that are spellings of a value.
- The standard-error pipe, process reaping and inventories of the history scan; timeouts are failures that may come at any read.
- The suffix, audio and archive dispatch of the private-data scan, zip and gzip, and the findings that header and body bytes of a tar member give rise to.
- Ustar.Source.ScanUstar: a source that hands out short reads before its end may be refused in the trailing blocks, as in the source, so the other direction is stated for undisturbed sources.
- Finding texts, paths and order of the migration checker; file parsing and ownership checks.
- Fairness of the supervisor handshake: every wait of the model may time out; `CanFinish` says that a run can be finished, not that it is.
- The network and process guards inside the scenario worker, and what the run makes of the worker's output.
- Parent-directory creation and modes in the receipt repository beyond a step that may fail; power loss and reboots, since the receipts live on a volatile file system: a run is the calls of one boot.
- Neighbour and route binding: its digest is read from the machine and compared.
- Percent-encoding of references as URI fragments.
- Fixtures.Factory.SchemaValue: for unions, and for references with keywords beside them, agreement (every usable branch or definition is narrower than those keywords) is sufficient and not necessary, because one value may fit where not all do.
- The vocabulary check of the generator, whose result is the typed schema the model starts from; builders of registered models; recursion deeper than the interpreter allows ends in an error, as in the source.
- Field types, closed field sets and date parsing of the report, and everything the production gate refuses to do.
- Probes, runners, judges, corpora, migrations, admin interface and command lines.
