# Distributed: a Dafny model of the framework's hard cores

Distributed is a CQRS and event-sourcing framework: aggregates record events through generated
methods, projections carry them to clients, and a command-line tool generates client projects.
This project models the parts whose correctness is not visible in any one function, and proves
what they promise for every input, every run or every reachable state. `dafny verify
dfyconfig.toml` checks all of it.

## What is modelled

**Client project generation** (`Paths`, `ClientTree`, `ClientSync`, `ClientCheck`, `ClientStops`,
`ClientRecovery`, `ClientRefusals`, `ClientFailures`, `ClientRules`, `ClientGenerator`). The
generator validates a project against the output directory and its previous manifest, deletes the
files it owns and no longer produces, and writes the new ones, the manifest last. The output
directory is a file tree, each file-system call is one atomic step, and a stop can follow any
step. Proved: exactly when a project is accepted, what a completed run leaves, when a run fails
half-way and what calling it again does, that only owned files are deleted, when `--check` agrees
with a write, what is on disk after a stop at any step, and exactly when a rerun after every such
stop reaches the same tree.

**Recorders and replay** (`Recorder`, `Frames`, `Fuel`, `Histories`, `Replay`, `Identities`,
`Recording`, `Ledger`, `Snapshots`, `Analyses`, `Parts`, `Aggregates`). A small statement
language stands for the Rust bodies of `#[sourced]` methods, with a big-step semantics for
guard, enqueue, digest, body and capture. Proved: what one call and what a run records, queues
and captures; hydrating recorded events gives the live aggregate as committed, also where a
recorder asks for an empty id in order to take one; the ledger of the repository's tests keeps
its books; a snapshot plus its tail equals full replay, the snapshot cache is invisible; and the
three static analyses find exactly what they look for and are sound with respect to the
semantics.

**The client protocol** (`Decimals`, `JsStrings`, `JsonKeys`, `Envelope`, `WireForms`, `Clocks`,
`AnonymousClocks`, `GraphClone`). Unsigned 64-bit numbers as decimal strings, parsing of
snapshots, live frames and command receipts, vector comparison of projection positions, the
snapshots an operation keeps, retained record clocks, and the cloning of an arbitrary
JavaScript object graph into a frozen tree.

**Canonical encodings** (`Characters`, `IdentityCodec`, `SchemaText`). Length-prefixed byte
identities with their decoders, and the canonical schema string.

**Text, graph and cache algorithms** (`NestingScanner`, `ManagedBlock`, `DependencyClosure`,
`BuildCache`, `MutationSyntax`, `MutationPrinter`, `MutationStream`). The JSON nesting scanner,
the managed block in `AGENTS.md`, the dependency worklist, the receipt-guarded build, and the
mutation document parser with a printer for every accepted spelling.

`Wrappers` and `Collections` hold what several models share.

Code that updates things in place is modelled by classes and methods with loops, each proved
equal to a specification function; the theorems are about those functions.

## Promises that hold only under a condition

- A written client project passes `--check` exactly when every path's portable spelling is
  itself a project file with the same contents. A path with a doubled slash is written and then
  reported as drifted (`ClientCheck.CheckAfterWrite`, `ClientCheck.DoubledSlashDrifts`).
- A validated run still fails half-way exactly when project paths run through each other or
  cannot be opened, or the old manifest names one place twice (`ClientSync.RunCompletes`): for
  any two names, the files `a` and `a/b` (`ClientFailures.NestedPathsFail`); and an old manifest
  that names a marked module with one slash and with two (`ClientFailures.TwinModulesFail`).
  Called again on what it left, it is finished exactly when the project's paths can be written
  (`ClientFailures.CallsExact`).
- A completing run never shows the new manifest over incomplete files, if and only if paths
  that name one place have one text, and a start that already has the new manifest is complete
  and loses no project file to the deletions (`ClientStops.ManifestMeansComplete`). Each part
  has completing runs that break it: two texts for `a/b` and `a//b`
  (`ClientFailures.TwoTextsMislead`), the new manifest without its file
  (`ClientFailures.ManifestBeforeFileMisleads`), and a manifest that spells the project's own
  module with two slashes, so that the run deletes it (`ClientFailures.OwnModuleDeletedMisleads`).
- A completing run can be stopped after any step and run again to the same end, if and only if
  it is recoverable (`ClientRecovery.RecoveryExact`): no project path runs through
  `manifest.json`; and for the modules declared by the old manifest, and again for those declared
  by the new one, no module path runs through a project path or a directory, a project text in a
  module's place carries the marker, no two modules share a project place, and every project
  file is expected under its portable spelling or stands in a module's place. Each part has
  runs that break it and cannot be repeated: a doubled slash
  (`ClientRefusals.DoubledSlashRefused`), a file below `manifest.json`
  (`ClientRefusals.ManifestDirectoryRefused`), a manifest that declares nothing
  (`ClientRefusals.UnreadableManifestRefused`), an old module in the way
  (`ClientRefusals.PreviousModuleInTheWay`), such as one that becomes a directory
  (`ClientRefusals.ModuleBecomesDirectory`).
- Replay reproduces the live aggregate only when recorder bodies do not call recorders: a
  nested recorder is recorded as well and its body replays twice
  (`Replay.NestedRecorderReplaysTwice`). Hydration starts with the stored id, so a recorder that
  asks for an empty id is skipped. That loses nothing where all that hangs on the question is
  taking the id (`Identities.SelfIdentifyingReplays`, with the ledger and the counter of the
  repository's own tests as instances). It loses what else the recorder wrote
  (`Replay.UnsettledIdLosesEvents`). A body that fails after the digest leaves a history that
  can no longer be hydrated; `Replay.ReplayReproduces` has this as an if-and-only-if.
- Known-value inference is wrong when a nested statement behind the last top-level assignment
  writes the field (`Analyses.NestedWriteIsMissed`), and the generated event set misses events
  recorded through a helper (`Analyses.IndirectEventIsMissed`).
- Merging the managed block again changes nothing exactly when neither the container's name nor
  a skill's text holds the closing marker (`ManagedBlock.SkillsMergeIsStable`).
- The build receipt stays true exactly while every build finds the modules its dependencies ask
  for. So it does in every run in which no prepare is cut short over an old receipt
  (`BuildCache.WholeRunIsTrue`), in particular without crashes and failing builds
  (`BuildCache.CalmRunIsWhole`). It does not when a prepare installs, is cut off or fails to
  build, and the lock file is then put back: `dependencies_changed` compares with the receipt,
  not with `node_modules` (`BuildCache.UnreadyCanLie`, `BuildCache.RevertedLockIsUnready`).
- The bytes hashed for a list of files determine it among all lists exactly when it is empty, or
  is one file whose contents hold no later path between two NULs: two files always hash like one
  file that holds the frame (`BuildCache.HashInputExact`, `BuildCache.NulCollides`). Among lists
  without NULs, but for one in the last file, they always do (`BuildCache.HashInputDistinct`).
- A bare path in a mutation document reads back exactly when it does not itself start with
  `input` (`MutationPrinter.PathReadsBack`).
- Whether retained clock evidence is refused depends on its order, though what an accepted
  order leaves does not (`AnonymousClocks.RefusalDependsOnOrder`,
  `AnonymousClocks.OrderDoesNotMatter`). Every order is accepted exactly when the evidence has
  one model for each scope, agrees with the committed clocks, has no two clocks that differ only
  in the tombstone and no live revision after a deletion of its incarnation, and fits
  (`AnonymousClocks.EveryOrderExact`).

## Model

| member | source | states |
|---|---|---|
| Paths.JoinNames | distributed_cli/src/cli.rs:1857-1874 | the portable spelling of a list of names reads back as those names and is its own portable spelling |
| Paths.NamesValid | distributed_cli/src/cli.rs:1876-1889 | the components of any path string are non-empty names without separators or dots |
| ClientSync.OnlyOwnedFilesAreDeleted | distributed_cli/src/cli.rs:2081-2144 | every file a run deletes was named by the previous manifest (or is the version 1 routes file), is not in the new project, and carried the compiler's marker |
| ClientSync.InspectExact | distributed_cli/src/cli.rs:2102-2144 | a declared module is deleted exactly when its place holds a text of at most 8 MiB that opens with the compiler's marker, written out, passed over exactly when nothing is there or in the way, and refused otherwise |
| ClientSync.DeletedFilesAreMarked | distributed_cli/src/cli.rs:2128-2142 | every file a planned run deletes is declared and opens with the marker text, or is the version 1 routes file with its own |
| ClientSync.UnmarkedIsRefused | distributed_cli/src/cli.rs:2136-2141 | a declared module whose place holds anything else refuses the run |
| ClientSync.CandidatesAccepted | distributed_cli/src/cli.rs:2082-2092 | the previous operations are refused exactly when one of them has no valid module path |
| ClientSync.CandidatesExact | distributed_cli/src/cli.rs:2081-2096 | the stale candidates are exactly the listed module paths that the project no longer produces |
| ClientSync.InspectTargetMeaning | distributed_cli/src/cli.rs:1965-2020 | the target check accepts exactly when no existing directory stands in the file's place and no existing file in its way |
| ClientSync.RemovesOutcome | distributed_cli/src/cli.rs:1901-1908 | deleting succeeds exactly when all places are distinct files, and removes them and nothing else |
| ClientSync.RunConverges | distributed_cli/src/cli.rs:1891-1963 | from any tree, a completed run leaves exactly the project's files and contents |
| ClientSync.RunCompletes | distributed_cli/src/cli.rs:1891-1923 | a validated run completes exactly when the project is writable and the stale files are distinct places |
| ClientCheck.CheckAfterWrite | distributed_cli/src/cli.rs:2161-2203 | after a completed write the checker accepts exactly the coherent projects |
| ClientCheck.DoubledSlashDrifts | distributed_cli/src/cli.rs:1876-1889 | for any two names, a project whose path doubles the slash is written into an empty directory and then fails the check |
| ClientCheck.DriftMeaning | distributed_cli/src/cli.rs:2161-2203 | the drift reported is every expected file with other text, every missing one and every unexpected one, and nothing else |
| ClientStops.StoppedBetween | distributed_cli/src/cli.rs:1891-1923 | a planned run stopped after any step, or failing, leaves old files, new files with their new contents, and nothing missing but planned deletions; the manifest is the old one unless the run completed |
| ClientRecovery.PlanExact | distributed_cli/src/cli.rs:1925-1963 | a tree that passed the target check is planned, deleting nothing twice, exactly when no declared module is blocked, every file is expected or a module, and no two modules share a file |
| ClientRecovery.WriteIsVisible | distributed_cli/src/cli.rs:1910-1922 | every project file but the manifest is on disk, with its directories, at some step where the manifest is still the old one |
| ClientRecovery.RepeatsExact | distributed_cli/src/cli.rs:1891-1963 | a finished run can be repeated exactly when no project path runs through the manifest and the modules its own manifest declares are safe |
| ClientRefusals.FirstRunIsRecoverable | distributed_cli/src/cli.rs:1891-1923 | a first run with a manifest that names no operations and any other file recovers from a stop at every step |
| ClientRecovery.RecoveryExact | distributed_cli/src/cli.rs:1891-1963 | rerunning after a stop at each step ends in the tree of an undisturbed run, if and only if the start and the project meet the conditions listed above |
| ClientRefusals.DoubledSlashRefused | distributed_cli/src/cli.rs:1925-1963 | for any two names, a project whose only path doubles the slash is written and then refused |
| ClientRefusals.ManifestDirectoryRefused | distributed_cli/src/cli.rs:2038-2044 | a project with a file below the manifest's path is written and then refused |
| ClientRefusals.UnreadableManifestRefused | distributed_cli/src/cli.rs:2046-2080 | a project whose manifest does not declare its modules is written and then refused |
| ClientRefusals.PreviousModuleInTheWay | distributed_cli/src/cli.rs:2102-2144 | a completing run with a new file below, above or without the marker in the place of a previous module, or in the place of two, has a stop after which a rerun fails |
| ClientRefusals.ModuleBecomesDirectory | distributed_cli/src/cli.rs:2102-2121 | when the old manifest names an absent module and the project has a file below that path, the run completes and some stop before its end cannot be recovered |
| ClientFailures.NestedPathsFail | distributed_cli/src/cli.rs:1914-1921 | for any two names, a project with the files `a` and `a/b` passes validation over an empty directory and fails to be written |
| ClientFailures.TwinModulesFail | distributed_cli/src/cli.rs:1901-1908 | when the old manifest names one marked file with one slash and with two, the run passes validation, deletes the file, and fails at the second deletion with nothing else changed |
| ClientFailures.FailedCallIsPlanned | distributed_cli/src/cli.rs:1891-1908 | a project that can be written and yet fails has lost at least one stale file and nothing else, and passes validation again |
| ClientFailures.CallsComplete | distributed_cli/src/cli.rs:1891-1963 | calling such a project again completes, after at most one failure for each file of the directory, in the tree of a run that never failed |
| ClientFailures.CallsExact | distributed_cli/src/cli.rs:1891-1963 | some number of calls finishes a validated project exactly when its paths can be written |
| ClientStops.ManifestMeansComplete | distributed_cli/src/cli.rs:1910-1922 | at no step of a completing run does the new manifest stand over incomplete files, if and only if one place has one text and the start is honest |
| ClientFailures.TwoTextsMislead | distributed_cli/src/cli.rs:1910-1922 | a project with two texts for one place, spelled with one slash and with two, completes and leaves its manifest over a file it does not have so |
| ClientFailures.ManifestBeforeFileMisleads | distributed_cli/src/cli.rs:1910-1922 | over a directory with the new manifest and not the new file the run completes, and the manifest misleads before its first step |
| ClientFailures.OwnModuleDeletedMisleads | distributed_cli/src/cli.rs:2081-2144 | from a complete start whose manifest spells the project's own module with two slashes, the run deletes the module under the new manifest and writes it again |
| ClientStops.WriteOrderManifestLast | distributed_cli/src/cli.rs:1910-1913 | the manifest is the last file in the order of writing |
| ClientRules.ModulePathExact | distributed_cli/src/cli.rs:2147-2159 | the module paths taken from a manifest are exactly `operations` and a name that ends in `.ts` after at least one character |
| ClientRules.Utf8Exact | distributed_cli/src/cli.rs:1729-1742 | every character's bytes are those of UTF-8: a lead byte that tells their number, continuation bytes, and the character's own number |
| ClientRules.Utf8LengthExact | distributed_cli/src/cli.rs:1729-1742 | what the size limits measure is the number of bytes of the text's UTF-8 form |
| ClientRules.ManifestRule | distributed_cli/src/cli.rs:2022-2049 | the previous manifest is the text at `manifest.json`: none declares nothing, and a directory or anything but text there refuses |
| ClientRules.ManifestAccepted | distributed_cli/src/cli.rs:2046-2092 | a previous manifest is taken exactly when it has at most 16 MiB, version 1 or 2, and operations that all name modules |
| ClientRules.DeclaredExact | distributed_cli/src/cli.rs:2081-2100 | it then declares exactly the modules it lists that the project no longer has, once each, and for version 1 the routes file |
| ClientRules.PlanRules | distributed_cli/src/cli.rs:1891-1963 | a project is accepted exactly when its 1 to 8192 paths are plain and different, each can be reached, every declared module can be removed or is gone, and each of at most 8192 files is expected or declared |
| ClientRules.WriteOrderExact | distributed_cli/src/cli.rs:1912-1913 | every file is written once, in the order of the characters of the paths, the manifest last |
| ClientRules.LastSpellingWins | distributed_cli/src/cli.rs:1912-1921 | a place that several paths name ends with the text of the last of them in that order |
| ClientGenerator.OutputDirectory.WriteGenerated | distributed_cli/src/cli.rs:1915-1920 | creating the parents one by one and writing one file runs exactly those steps, stopping at the first failure |
| ClientGenerator.OutputDirectory.RemoveStale | distributed_cli/src/cli.rs:1901-1908 | the deleting loop runs exactly the planned deletions |
| ClientGenerator.OutputDirectory.WriteFiles | distributed_cli/src/cli.rs:1914-1921 | the writing loop runs exactly the steps of its files in order |
| ClientGenerator.OutputDirectory.CandidateFiles | distributed_cli/src/cli.rs:2081-2096 | the loop over the previous operations computes the ordered stale candidates, or refuses |
| ClientGenerator.OutputDirectory.OwnedFiles | distributed_cli/src/cli.rs:2102-2144 | the ownership loop keeps the candidates that exist and carry the marker, and refuses on any other file |
| ClientGenerator.OutputDirectory.StaleGenerated | distributed_cli/src/cli.rs:2022-2145 | reads the manifest and returns the owned stale files, or refuses |
| ClientGenerator.OutputDirectory.WriteClientProject | distributed_cli/src/cli.rs:1891-1923 | a refusal changes nothing; a completed write leaves exactly the project, and passes the check exactly when coherent |
| ClientGenerator.OutputDirectory.ReadFiles | distributed_cli/src/cli.rs:2161-2203 | the loop over the expected files gathers every difference, or ends at the first file that cannot be read |
| ClientGenerator.OutputDirectory.CheckClientProject | distributed_cli/src/cli.rs:2161-2203 | agrees exactly on clean trees, cannot check exactly when the project, the directory or a file cannot be read, and otherwise reports every difference |
| Frames.NeverReturns | distributed_macros/src/sourced.rs:254-286 | an expression the early-exit check accepts never returns early, whatever the state and arguments |
| Parts.NoExitExact | distributed_macros/src/sourced.rs:254-286 | the early-exit check refuses exactly the bodies in which a `?` or a `return` occurs, however deep |
| Frames.KeepsSlot | distributed_macros/src/sourced.rs:1041-1066 | code that does not write a field, and calls only methods that do not, leaves it unchanged |
| Frames.RunsTogether | distributed_macros/src/sourced.rs:767-810 | non-interference: code that does not read the hidden fields, but for tests of the id under which it is only taken, runs the same from states that agree elsewhere |
| Fuel.MoreFuel | distributed_macros/src/sourced.rs:767-810 | an expression that ends within a bound on calls and loop turns has the same result under any larger bound |
| Fuel.MoreFuelCall | distributed_macros/src/shared.rs:145-220 | so has a whole recorder call |
| Histories.CallGrows | src/entity/entity.rs:407-466 | whatever a recorder call runs, nested recorders included, the history only grows, and while replaying the entity does not change |
| Replay.SkippedChangesNothing | distributed_macros/src/shared.rs:145-199 | a call whose guard says no, guards that ask helpers included, leaves fields, history, queue and captures unchanged |
| Replay.RunTogether | src/aggregate/aggregate.rs:125-138 | replaying what any run of calls recorded ends in step with the run on what those calls may look at, with its id or still the stored one, and succeeds exactly when no recorded body failed |
| Replay.ReplayReproduces | src/aggregate/aggregate.rs:98-123 | hydrating the history of any terminating run whose recorders look at the id only to take it, or once it is settled, succeeds exactly when no recorded body failed, and then gives the live aggregate as committed: the same fields, id and history, nothing pending, queued or poisoned, and ready to record |
| Identities.SelfIdentifyingReplays | src/aggregate/aggregate.rs:98-123 | every run of a new aggregate whose recorders look at the id only to take it is so rebuilt, whether it ends with an id or without |
| Identities.LedgerReplays | tests/replay_property/aggregate.rs:20-46 | every run of a new ledger, in any order of its calls, is rebuilt by hydration, though its `open` asks for an empty id |
| Identities.CounterReplays | tests/snapshots/main.rs:16-26 | every run of a new counter, whose `add` takes the id where there is none, is rebuilt by hydration |
| Replay.UnsettledIdLosesEvents | src/aggregate/aggregate.rs:98-123 | for every id, an event whose guard asks for an empty id and whose body sets it and one more field is recorded live and skipped on hydration, losing that field |
| Recording.CallExact | distributed_macros/src/shared.rs:145-220 | a live call is skipped exactly when its guard says no; else recorded exactly when its arguments encode, with the next sequence number, queued with it, and captured exactly when the entity was not poisoned and the capture is accepted |
| Recording.CaptureExact | src/entity/entity.rs:521-585 | on any entity a capture succeeds exactly without poison, with a last event that is uncommitted and carries the version, and an accepted body; a failure poisons and changes nothing else |
| Recording.RunExact | src/entity/entity.rs:407-466 | over every run the history grows by exactly the recorded calls, numbered on, and the entity ends poisoned exactly when it began so or some capture was refused |
| Recording.RunQueues | distributed_macros/src/shared.rs:200-220 | where payloads encode, the queue holds exactly the recorded events in order, and nothing where nothing is enqueued |
| Recording.AcceptedRunsCapture | src/entity/entity.rs:521-590 | where captures are accepted, no run from an entity in good order poisons it, and each uncommitted domain event has its one pending occurrence |
| Ledger.LedgerKeepsBooks | tests/replay_property/aggregate.rs:20-46 | every run of the ledger, by the semantics of its bodies, ends with its fields at the sheet that plain arithmetic books, and its history grown by exactly the accepted commands |
| Ledger.BookIsSolvent | tests/replay_property/aggregate.rs:33-39 | the balance is what went in less what came out, and never negative |
| Replay.RunExtends | src/entity/entity.rs:407-466 | over any run of any program the history only grows |
| Replay.NestedRecorderReplaysTwice | distributed_macros/src/sourced.rs:970-999 | a recorder called from a recorder's body is applied once live and twice on replay |
| Snapshots.ExpandSnapshot | distributed_macros/src/snapshot.rs:43-135 | the loop over the struct's fields retains exactly the unskipped fields other than the entity, takes the id from the custom field, the field `id` or the entity, and refuses a missing, skipped or entity id field |
| Snapshots.ReplayTogether | src/snapshot/repository.rs:162-175 | replay from two states that agree on the fields it reads succeeds from both or neither and stays in step |
| Snapshots.TailIsSuffix | src/snapshot/repository.rs:151-160 | on a contiguous history the events after a version are exactly the suffix from it |
| Snapshots.SnapshotPlusTail | src/snapshot/repository.rs:111-149 | restoring any snapshot along a history and replaying the later events agrees with full replay on all retained fields, and on the id unless the chosen field did not hold it and the tail does not set it |
| Snapshots.CacheExact | src/snapshot/repository.rs:51-120 | a record of another id, type or schema, ahead of the stream, or that does not decode is a miss and loads by full replay; any other is restored and followed by the later events |
| Snapshots.CacheIsTransparent | src/snapshot/repository.rs:190-220 | no record, a miss and a genuine record all load the same aggregate |
| Snapshots.LiveSnapshotIsGenuine | src/snapshot/repository.rs:177-188 | the snapshot taken of the live aggregate at commit is the snapshot of the prefix replay, so its record is genuine for every later history |
| Analyses.InferKnownStateValues | distributed_macros/src/sourced.rs:1041-1066 | the loop reports exactly the fields whose last top-level assignment is a known constant; a later unknown one drops the field |
| Analyses.KnownEvaluates | distributed_macros/src/sourced.rs:1068-1119 | an expression recognised as constant evaluates to that constant and changes nothing |
| Analyses.KnownValuesAreSound | distributed_macros/src/sourced.rs:1041-1119 | if nothing nested behind the last assignment writes the field, every completed run leaves it at the reported value |
| Analyses.WrittenIsKnown | distributed_macros/src/sourced.rs:1068-1119 | every constant, written as `None`, a qualified path, a boolean, string or character literal, an owned string or `Some` of one, with any grouping, is recognised with its value |
| Analyses.KnownIsWritten | distributed_macros/src/sourced.rs:1068-1119 | nothing else is recognised |
| Analyses.ReportedExact | distributed_macros/src/sourced.rs:1041-1066 | a field is reported with what its last top-level assignment is known to assign, and only so |
| Analyses.NestedWriteIsMissed | distributed_macros/src/sourced.rs:1045-1047 | a nested write is skipped without dropping the entry, so the run ends with another value than the reported one |
| Analyses.CallAccounts | distributed_macros/src/sourced.rs:310-374 | one accepted recorder call captures the domain event it recorded exactly once, or poisons the entity |
| Analyses.RunsAccount | src/entity/entity.rs:521-590 | over every run, pending occurrences are exactly those the uncommitted records owe, in order and with their sequence numbers, unless a capture failed |
| Analyses.EventSetIsComplete | distributed_macros/src/sourced.rs:1129-1191 | every occurrence captured by running a method that reaches recorders directly, a plain one or an event method without a domain marker, is in its generated event set |
| Parts.EventSetExact | distributed_macros/src/sourced.rs:1129-1191 | the event set holds exactly the domain events whose recorder is called on `self` somewhere in the body |
| Analyses.IndirectEventIsMissed | distributed_macros/src/sourced.rs:1181-1191 | an event recorded through a helper is captured and missing from the event set |
| Aggregates.Aggregate.CallRecorder | distributed_macros/src/shared.rs:145-220 | the generated method, step by step on the object, does what the semantics of a call says |
| Aggregates.Aggregate.ReplayInto | src/aggregate/aggregate.rs:125-138 | the replay loop folds the records, stops at the first that cannot be applied, and always clears the replaying flag |
| Aggregates.Aggregate.RestoreFromSnapshot | distributed_macros/src/snapshot.rs:177-187 | assigning the fields one by one leaves every snapshot value in place, the chosen id in the entity, and all other fields as they were |
| Decimals.RenderCanonical | js/src/protocol.ts:992 | the rendering of a number has no leading zero and reads back as the number |
| Decimals.CompareIsNumeric | js/src/protocol.ts:1005-1011 | comparing canonical strings by length and then character by character is numeric comparison |
| Decimals.CanonicalDecimalExact | js/src/protocol.ts:986-999 | exactly the renderings of 0 to 2^64 - 1 are accepted |
| Decimals.RenderedOrder | js/src/protocol.ts:1005-1011 | renderings of any two numbers compare as the numbers do |
| Decimals.IncrementDigits | js/src/replica/distributed-replica/clocks.ts:179-195 | the carry loop over the digit array computes the incremented string |
| Decimals.IncrementIsSuccessor | js/src/replica/distributed-replica/clocks.ts:179-195 | incrementing the rendering of n gives the rendering of n + 1, accepted unless it passes 64 bits |
| JsStrings.UnitsDistinct | js/src/protocol.ts:760-776 | different texts have different UTF-16 code units |
| JsonKeys.StringifyReadsBack | js/src/protocol.ts:760-776 | the key of any array of JavaScript strings, read by the grammar of RFC 8259, is that array |
| JsonKeys.StringifyIsWellFormed | js/src/protocol.ts:760-776 | the key has no lone surrogate, whatever the strings hold |
| JsonKeys.StringifyDistinct | js/src/protocol.ts:760-776 | two arrays of JavaScript strings have the same JSON key exactly when they are equal, lone surrogates included |
| Envelope.ValidateLiveSnapshot | js/src/protocol.ts:627-657 | the check with its projection map accepts exactly the matching frames |
| Envelope.LiveFrameBijection | js/src/protocol.ts:627-657 | with supported live metadata a frame is accepted exactly when indexes are comparable and indexes and cursors are in one-to-one correspondence on projection, position and token |
| Envelope.LatestCursorsResume | js/src/protocol.ts:411-438 | whatever cursors an accepted envelope leaves the replica with are accepted unchanged as a resume request |
| Envelope.ParsedIndexes | js/src/protocol.ts:544-594 | accepted indexes have distinct projections, at most 64 resume cursors, and each resume cursor repeats its index's projection and position |
| Envelope.ParsedCursors | js/src/protocol.ts:596-625 | accepted cursors are at most 64, well formed and distinct by projection |
| Envelope.CheckObservations | js/src/protocol.ts:499-511 | the loop with its key sets accepts exactly when every observation is this command's, expected, and reported once |
| Envelope.AcceptedCommand | js/src/protocol.ts:440-542 | in every accepted receipt observations answer distinct expectations of the command, so are no more than them, and a revalidating receipt carries no evidence |
| WireForms.RecordExact | js/src/protocol.ts:659-690 | a record revision is accepted exactly when its named fields say a well-formed one, and is that one |
| WireForms.SnapshotExact | js/src/protocol.ts:544-594 | so is a snapshot, with its limits of 4096 items and 64 resume cursors |
| WireForms.LiveExact | js/src/protocol.ts:596-625 | so is live metadata |
| WireForms.CommandExact | js/src/protocol.ts:440-542 | so is a command receipt, with its states, its observations and what a revalidating one must lack |
| WireForms.LatestCursorsExact | js/src/replica/distributed-replica/clocks.ts:120-132 | an accepted envelope leaves the cursors of supported live metadata, none where live is not supported, and else the resume cursors of the indexes |
| Clocks.RevisionOrder | src/projection_protocol.rs:783-791 | record revisions are comparable exactly within one scope, and there form a total order |
| Clocks.ChangeOrder | src/projection_protocol.rs:842-851 | change positions are comparable exactly within one topology, partition and epoch, and there form a total order |
| Clocks.InputOrder | src/projection_protocol.rs:621-631 | input positions are comparable exactly within one topology, partition, source and epoch, and there form a total order |
| Clocks.ClientAgreesWithServer | src/projection_protocol.rs:621-631 | change and input positions up to the server's maximum are accepted by the client and ordered as the server orders them |
| Clocks.ClientAgreesOnRecords | src/projection_protocol.rs:783-791 | record revisions in one scope are ordered by the client, incarnation first, as the server orders them |
| Clocks.CompareIndexVector | js/src/replica/distributed-replica/clocks.ts:53-80 | the loop with its two flags computes the disposition |
| Clocks.VectorMeaning | js/src/replica/distributed-replica/clocks.ts:53-80 | equal or higher means the same projections and scopes with no position going back, equal or lower the converse |
| Clocks.VectorTracks | js/src/replica/distributed-replica/clocks.ts:106-118 | the clock map of a snapshot holds exactly the clocks of its indexes |
| Clocks.SnapshotMeaning | js/src/replica/distributed-replica/clocks.ts:82-104 | against the state an operation keeps a snapshot is fresh exactly without a scope, equal or higher exactly in the same scope with no position going back, and equal or lower conversely, empty index lists included |
| Clocks.RunNeverGoesBack | js/src/replica/distributed-replica/impl.ts:1538-1549 | over any run of snapshots in which the state is neither cleared nor started over, the scope stays and no position goes back, whatever lower snapshots arrive |
| Clocks.ObserveExact | js/src/replica/distributed-replica/impl.ts:1538-1549 | a frame that starts over, is first or is not behind in the same scope is kept with exactly its clocks; one behind changes nothing; any other clears the state |
| Clocks.RunKeepsHighest | js/src/replica/distributed-replica/impl.ts:1538-1549 | such a run ends with a state that covers every frame and is the start or one of them |
| AnonymousClocks.RetainsLatest | js/src/replica/distributed-replica/impl.ts:2557-2618 | after any accepted evidence each scope has the latest clock shown for its one model, nothing that was not shown, and no deletion undone within its incarnation |
| AnonymousClocks.OrderDoesNotMatter | js/src/replica/distributed-replica/impl.ts:2557-2618 | two accepted orders of the same evidence leave the same clocks |
| AnonymousClocks.CapacityHolds | js/src/replica/distributed-replica/impl.ts:2576-2587 | no accepted evidence takes the client beyond its capacity of scopes |
| AnonymousClocks.EveryOrderExact | js/src/replica/distributed-replica/impl.ts:2557-2618 | every order of the evidence is accepted exactly when it is compatible: one model for each scope, agreement with the committed clocks, no clash between clocks not before them, and room for the new scopes |
| AnonymousClocks.RefusalDependsOnOrder | js/src/replica/distributed-replica/impl.ts:2605-2616 | any deletion and any later live revision of its incarnation are refused in that order and accepted in the other |
| AnonymousClocks.Retained.Count | js/src/replica/distributed-replica/impl.ts:2577-2580 | the counting loop gives the number of scopes known or pending |
| AnonymousClocks.Retained.RetainEvidence | js/src/replica/distributed-replica/impl.ts:2557-2618 | one piece of evidence updates the pending clocks as specified, or is refused and changes nothing |
| GraphClone.UnfoldsUnique | js/src/protocol.ts:889-973 | a value has at most one well-formed unfolding |
| GraphClone.CloneExact | js/src/protocol.ts:889-973 | on every heap, cyclic or shared, the clone returns a tree exactly when it is the value's well-formed unfolding and at most 64 levels high |
| GraphClone.ActiveSetIsRedundant | js/src/protocol.ts:895-907 | the same clone without the set of active ancestors gives the same verdict and tree on every heap |
| GraphClone.CyclesAndDepthRefused | js/src/protocol.ts:895-907 | no value on a cycle and no value with a chain of more than 64 steps is accepted |
| GraphClone.CloneIsCanonical | js/src/protocol.ts:947-970 | objects that differ only in the order their keys were created have the same clone |
| GraphClone.LessExact | js/src/protocol.ts:951 | keys are ordered by their first differing code unit, a prefix first |
| GraphClone.CloneOfCopy | js/src/protocol.ts:889-973 | cloning anything laid out as an accepted result, shared or not, gives that result |
| GraphClone.CloneIdempotent | js/src/protocol.ts:889-973 | laying out an accepted result as fresh objects and cloning it again gives that result |
| GraphClone.Cloner.Clone | js/src/protocol.ts:889-908 | the recursive clone computes the specified tree and on success restores the active set |
| GraphClone.Cloner.CloneArray | js/src/protocol.ts:923-943 | the loop over indexes clones the items in order, refusing holes, accessors and undefined |
| GraphClone.Cloner.CloneRecord | js/src/protocol.ts:949-972 | the loop over sorted keys clones the entries in key order |
| IdentityCodec.TakeInvertsPrefix | src/projection_protocol.rs:1013-1025 | taking a length prefix gives back the value and the rest |
| IdentityCodec.TakeIsPrefix | src/projection_protocol.rs:1018-1025 | whatever is taken was length-prefixed exactly so |
| IdentityCodec.BigEndianOrder | src/projection_protocol.rs:1013-1025 | of two numbers of one width the first byte that differs is the smaller one's smaller byte |
| IdentityCodec.NameExact | src/projection_protocol.rs:925-951 | a name is accepted exactly when it is text of 1 to 128 bytes without control and white-space characters |
| IdentityCodec.TopologyCodecExact | src/projection_protocol.rs:264-320 | exactly the encodings of valid topologies decode, each to the topology it encodes |
| IdentityCodec.ReencodeCheckNeverFires | src/projection_protocol.rs:311-318 | bytes that pass every earlier check are their own re-encoding |
| IdentityCodec.TopologyPrefixFree | src/projection_protocol.rs:241-255 | no topology encoding is a prefix of another; in particular encoding is injective |
| IdentityCodec.SourceNameCodecExact | src/projection_protocol.rs:456-509 | exactly the encodings of valid source names decode, and the last check never fires |
| IdentityCodec.SourceNamePrefixFree | src/projection_protocol.rs:456-465 | no source-name encoding is a prefix of another |
| IdentityCodec.EncodingsNeverCoincide | src/projection_protocol.rs:49-53 | a topology and a source name never share an encoding, nor a prefix |
| IdentityCodec.Buffer.AppendLengthPrefixed | src/projection_protocol.rs:1013-1016 | appends the eight length bytes and the value to the buffer |
| IdentityCodec.CanonicalBytes | src/projection_protocol.rs:241-255 | appending the components in place builds the specified encoding |
| IdentityCodec.CanonicalNameBytes | src/projection_protocol.rs:456-465 | appending the name in place builds the specified encoding |
| SchemaText.SchemaIsInjective | distributed_macros/src/shared.rs:223-259 | two schema strings are equal only if role, type, version, container text and every field's name, type and serde text are |
| SchemaText.SchemaReadsBack | distributed_macros/src/shared.rs:223-259 | read part by part in the announced order, every schema string gives back its role, type, version, serde text and fields |
| SchemaText.FrameEnds | distributed_macros/src/shared.rs:236-244 | a length-prefixed text gives back the text and what follows, whatever they contain |
| NestingScanner.ValidateJsonNesting | build.rs:337-368 | the one-pass loop accepts exactly when the scan state machine does |
| NestingScanner.ScanMeasuresDepth | build.rs:337-368 | on every JSON text, with any strings, escapes and white space, the scan accepts exactly when brackets nest at most 24 deep, and ends outside a string at depth zero |
| NestingScanner.RunValue | build.rs:342-365 | met at any depth, a value leaves the scan where it was or fails it, by its own depth |
| NestingScanner.ScanOnAnyBrackets | build.rs:337-368 | on any text without quotes, JSON or not, the scan accepts exactly when no stretch opens more than 24 brackets more than it closes |
| ManagedBlock.MergeIsStable | distributed_cli/src/skills.rs:197-220 | for any markers of this shape, merging a merged text again is never refused, and changes nothing exactly when the body is free of the closing marker |
| ManagedBlock.SkillsMergeIsStable | distributed_cli/src/skills.rs:175-220 | the same for the skills block, in terms of the container's name and the skills' texts |
| ManagedBlock.ReplaceKeepsText | distributed_cli/src/skills.rs:203-207 | replacing an older block keeps the text before and after it byte for byte |
| ManagedBlock.AppendKeepsText | distributed_cli/src/skills.rs:208-214 | a text without markers is kept up to its trailing newlines, and the block follows a blank line |
| ManagedBlock.MergeAccepts | distributed_cli/src/skills.rs:197-220 | a text takes the block exactly when it holds both markers, the opening one first, or neither; no text and a blank one give the block alone |
| ManagedBlock.FindsEnd | distributed_cli/src/skills.rs:203-206 | the closing marker is found where the body first has it or else where the body ends; no occurrence straddles a join |
| ManagedBlock.BuildBlock | distributed_cli/src/skills.rs:175-190 | pushing the lines one by one builds the specified block |
| DependencyClosure.PackageSources | distributed_cli/src/wasm_pures.rs:286-351 | on every graph the worklist ends, and hashes the files of exactly the local packages the root reaches through local ones |
| DependencyClosure.OtherPackagesDoNotMatter | distributed_cli/src/wasm_pures.rs:302-345 | changing, adding or removing a package that is not reached leaves the hashed packages as they were |
| BuildCache.RunKeepsTruth | distributed_cli/src/js_framework.rs:277-380 | over every interleaving of edits, crashes and prepares in which each build is ready, the receipt records the build of its inputs |
| BuildCache.CachedIsFresh | distributed_cli/src/js_framework.rs:292-308 | whenever the cached path is taken after such a run, dist is what a fresh build would make |
| BuildCache.PrepareExact | distributed_cli/src/js_framework.rs:277-380 | a prepare succeeds exactly when there are dependencies and the receipt records the package as it stands, or it may build and the build succeeds against fresh modules or those the receipt's dependencies installed; what it leaves is stated in full |
| BuildCache.FirstPrepareBuilds | distributed_cli/src/js_framework.rs:316-339 | a package that was never built is built by its first prepare, with its receipt, and checks from then on |
| BuildCache.PrepareDelivers | distributed_cli/src/js_framework.rs:277-380 | a prepare that succeeds on a ready world leaves dist as a fresh build of unchanged sources, whichever path it took |
| BuildCache.WholeRunIsReady | distributed_cli/src/js_framework.rs:277-380 | from modules that match the receipt, every run in which no prepare begins an install over an old receipt and ends without a new one is ready throughout, and the modules still match |
| BuildCache.WholeRunIsTrue | distributed_cli/src/js_framework.rs:277-380 | so its receipt stays true and its next build is ready, whatever is edited |
| BuildCache.CalmRunIsWhole | distributed_cli/src/js_framework.rs:316-351 | a run without crashes whose builds do not fail is such a run |
| BuildCache.UnreadyCanLie | distributed_cli/src/js_framework.rs:316-333 | in every world where a build is not ready there is a build function for which the prepare makes a true receipt false |
| BuildCache.RevertedLockIsUnready | distributed_cli/src/js_framework.rs:316-319 | a changed lock, a prepare that installs and crashes or fails to build, and the lock put back lead to an unready build |
| BuildCache.LocalPackage.PublishDist | distributed_cli/src/js_framework.rs:481-551 | removing stale files and writing differing ones leaves exactly the staged files |
| BuildCache.LocalPackage.PrepareLocalPackage | distributed_cli/src/js_framework.rs:277-380 | the steps on the package directory and its receipt do what the specified prepare does |
| BuildCache.HashInputDistinct | distributed_cli/src/js_framework.rs:665-685 | among lists without NUL bytes, but for one in the last file, the hashed bytes determine the list of files |
| BuildCache.HashInputExact | distributed_cli/src/js_framework.rs:660-687 | among all sorted lists the hashed bytes determine the list exactly when it is empty or one file without a later path between two NULs |
| BuildCache.NulCollides | distributed_cli/src/js_framework.rs:681-684 | any two files hash like one file that holds the frame, whatever follows |
| MutationPrinter.DocumentReadsBack | distributed_macros/src/mutation.rs:177-224 | every valid document reads back as the operations it says, however its tables, paths, commas, aliases and argument order are spelled |
| MutationPrinter.DocumentExact | distributed_macros/src/mutation.rs:177-305 | the parser accepts exactly the tokens that a well-formed document prints, and returns what that document says |
| MutationPrinter.OperationReadsBack | distributed_macros/src/mutation.rs:253-305 | every spelling of an operation reads back as that operation |
| MutationPrinter.ItemsReadBack | distributed_macros/src/mutation.rs:384-416 | keys and set blocks in any order and number read back as all keys and all set bindings |
| MutationPrinter.PathReadsBack | distributed_macros/src/mutation.rs:419-424 | every spelling of a path reads back as the path exactly unless it is bare and starts with the input segment |
| MutationPrinter.ModelReadsBack | distributed_macros/src/mutation.rs:307-346 | words joined by single underscores name the model made of the words with their first characters in upper case |
| MutationStream.Stream.InputPath | distributed_macros/src/mutation.rs:619-635 | the loop over dots consumes and returns what the grammar says |
| MutationStream.Stream.Bindings | distributed_macros/src/mutation.rs:367-382 | the loop over bindings returns what the grammar says |
| MutationStream.Stream.ObjectArg | distributed_macros/src/mutation.rs:348-365 | the loop over object arguments returns the last one |
| MutationStream.Stream.TakeOperation | distributed_macros/src/mutation.rs:253-305 | one operation with its arguments is consumed and returned as the grammar says |
| MutationStream.Stream.Operations | distributed_macros/src/mutation.rs:200-207 | the loop over operations with optional commas returns what the grammar says |
| MutationStream.UpdateArgs | distributed_macros/src/mutation.rs:384-416 | the nested loops over keys and set blocks return what the grammar says |

## Left out

- Replay.ReplayReproduces: for the methods the run calls, asks that guards only look and do not return early, that bodies call only helper methods and not recorders, and that before the id is settled it is looked at only in tests that the stored id refuses, as the whole guard of a recorder without a return type or in an `if` without `else`, with straight code behind them that writes nothing but the id. Nested recorders, and other writes behind such a test, make the statement false; no condition on the text of a body is both necessary and sufficient.
- Recorder bodies: calls outside the aggregate are functions of their arguments, so a body that reads a clock or a random source is not modelled.
- Replay.ReplayReproduces: calls that do not terminate are excluded; the interpreter counts nested calls and loop turns, every statement holds for every count, and a run that exhausts it has no result.
- Ledger.LedgerKeepsBooks: amounts are unbounded, so the 64-bit overflow of a balance is not modelled.
- Snapshots.SnapshotPlusTail: asks that the recorders of the tail do not look at skipped fields, and that the aggregate keeps its set of fields; the snapshot payload is the retained fields themselves, and its serialization is not modelled.
- Analyses.KnownValuesAreSound: one direction; a nested write of the same constant would leave the value right.
- Analyses.EventSetIsComplete: for methods that reach recorders directly or through helpers that record nothing.
- GraphClone.CloneIdempotent: the freezing of result objects and the error path in the message are not modelled, and enumeration order of integer-like keys is JavaScript's own.
- BuildCache.UnreadyCanLie: the package build, npm and the tool versions are parameters; version and exports, which the source identity covers, are not separate fields of the receipt.
- BuildCache.LocalPackage.PublishDist: a file standing where the build has a directory, or the reverse, is not modelled.
- ClientRecovery.RecoveryExact: for runs that would complete undisturbed, `ClientFailures.CallsExact` covering those that fail; each file-system call is atomic, and a torn write of one file is not modelled, nor are symbolic links, permissions and file sizes on disk.
- Clocks.RunNeverGoesBack: one operation's own stream; the handoff between query and live sources and the comparison with shared indexes are not modelled.
- DependencyClosure.PackageSources: a package's source files are given; collecting them from its targets is not modelled.
- Envelope.AcceptedCommand: the projection delta inside a receipt is a parameter; fields the parsers copy through unread are dropped; strings on the wire are texts, so lone surrogates occur only in `JsonKeys`.
- Trace-context injection, trusted presets, authorization headers, HTTP and WebSocket clients: their decisions each show in a single branch.
- Upcasters: the replayed view is the recorded one.
- SHA-256 and FNV-1a: digests are taken to be collision free and stand for what they digest.
- UTF-8 decoding, Unicode uppercasing, the language's keywords and manifest parsing are parameters; every statement holds whatever they are.
- The WASM stamp and the projection-body fingerprint text: they promise less than the receipt and the schema string, and nothing is claimed for them.
- Projection stores, outbox claims, locks, bus adapters and the rest of the browser replica.
- The classic mutation form and the derive macros that only emit tokens.
- Rust macros, panics and closures inside recorder bodies lie outside the statement language.
