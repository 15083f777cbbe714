# Research registry: a Dafny model of its hard parts

The research registry is a local-first store of questions, sources, excerpts, claims and reports. This project models
the six parts of it whose correctness is not local to one function, and proves what they promise for every input, every
run and every crash point. Each part is a specification (datatypes and functions), the code in its own imperative form
proved against that specification where the original is imperative, and laws about the specification. The modules named
`...Meaning`, `SplitterScripts`, `BundleStream` and `ManagedBlockSettings` say what an operation comes to in terms of
their own (literal characters, stored columns, the lists of a bundle, traces of schemas) and prove that the
specification is that, so that the specification's own helper functions need not be taken on trust.

| part | files |
|---|---|
| Postgres script splitter | `PostgresSplitter` (automaton and loop), `SplitterLaws`, `SplitterTokens`, `SplitterScripts`, `SplitterBundles` |
| Registry store | `ScopedKeys`, `RegistryStore`, `RegistryLaws`, `PublishGraph`, `RegistryService` (the class), `RegistryRuns`, `CreateMeaning`, `PublishMeaning` |
| Capture queue | `Replay`, `ReplayLaws`, `ReplayLinks`, `ReplaySources`, `ReplayMeaning`, `CaptureQueue` (the class), `FlushMeaning`, `QueueSystem` (processes, lock, crashes), `QueueFlush`, `QueueLinks` |
| Migration runner | `Migrations`, `MigrationLaws`, `MigrationMeaning`, `MigrationRunner` (the classes), `BundleChecksum`, `BundleStream` |
| Codex install and uninstall | `ManagedBlock`, `ManagedBlockLaws`, `ManagedBlockSettings`, `CodexInstall` (the class), `CodexInstallLaws`, `CodexInstallRuns` (runs with crashes), `CodexInstallBlocks` (which block), `CodexMeaning` |
| BibTeX reader | `Bibtex` (specification and loops), `BibtexRoundTrip` |

`PyText` holds Option, Result and the Python string operations the others share (`strip`, `index`, `in`).
`dafny verify dfyconfig.toml` checks everything.

Main results, in one line each:

- The splitter's flag-and-index loop computes a pure five-mode automaton; its raw segments are the only decomposition of
  the script at top-level `;`, splitting is compositional, and every statement it returns splits into itself alone. Every
  script is a list of lexical elements given by literal characters, and its statements are the trimmed texts between its
  semicolons.
- In every run of registry operations, stored references stay in one namespace, keys and natural keys stay unique, the
  unique constraint never fires; in every governed run, public records rest on public, snapshotted evidence only. Each
  create is refused, finds an old row or stores exactly the row its payload and caller call for.
- The publish worklist and the separately written cascade reach the same records: exactly the reachable ones. A
  publication succeeds if and only if its caller may publish in the root's namespace and nothing the root rests on blocks
  it, and then changes exactly the rows it should.
- After any number of replays of a bundle cut off anywhere, one complete replay leaves the very store and report of an
  uninterrupted one; under any interleaving of enqueuers, flushers, other clients and crashes, no envelope is lost, and
  a bundle whose keys nobody else uses ends up with its report and claims linked as it lists them. Whether an excerpt
  rests on the source its annotation recorded, and whether a replay succeeds at all, can be read off the store and the
  bundle before the replay; a completed one leaves the bundle's own rows under one answered question.
- The migration runner accepts exactly the checksum-matching prefixes of its package; over any sequence of calls the
  history only grows and stays such a prefix; staged migration is direct migration. A call succeeds if and only if a
  trace leads over all statements of the migrations it is to run, and leaves the schema where that trace ends. A dry
  run foretells the real run, and of a known target changes an unversioned database if and only if a SQLite upgrade is
  needed that gets as far as its first script.
- The checksum's byte stream is spelled out byte by byte and can be read back, so equal streams mean equal bundles up to
  order and newline style.
- Over any run of Codex installs and uninstalls with crashes between steps, from any home: the managed block is lost
  exactly by a complete uninstall that meets both markers without an end marker behind the first begin marker, a skill
  link exactly by an install that finds another managed link at its path; no skill ever loses all its links. Where config
  and saved state hold different blocks, which of them goes is exact too. From a home whose block stands alone, whose
  links in place contradict no saved one and which holds no two different blocks, nothing is lost, text for text. Install
  followed by uninstall restores a home, under the row's hypotheses, exactly when the config ended in the block.
- The BibTeX reader terminates on every text and inverts a printer, whatever layout and delimiters the printer uses; what
  can be printed is said with literal characters.

Where a promise fails, a lemma names the condition: `SplitterBundles.BundleRunsCommonThenDialect`,
`RegistryRuns.UncascadedPublishKeepsTrustIff`, `RegistryRuns.InsertKeepsTrustIff`, `ReplayLaws.AdmitRefinds`,
`CreateMeaning.FocusTopicHasSlugIff`, `ReplayMeaning.ReplaySucceedsIff`, `ReplaySources.ExcerptRestsOnItsOwnIff`,
`MigrationLaws.FailureAndDryRunWriteNothing`, `MigrationLaws.DryRunMayCommitUpgrade`,
`MigrationLaws.PlanForetellsMigrate`, `ManagedBlockLaws.RemoveUndoesUpsert`, `ManagedBlockLaws.UpsertOverBlock`,
`CodexInstallRuns.CommandLosesBlockIff`, `CodexInstallRuns.CommandDropsLinkIff`,
`CodexInstallBlocks.CommandLosesTextIff`, `CodexInstallRuns.NestedBeginLocksTheState`,
`BibtexRoundTrip.UnclosedTextIsCut`. Inputs that show a failure are in
`CodexInstallRuns.MisorderedLeftoverLosesBlock`, `CodexInstallRuns.LinkInPlaceWins`,
`CodexInstallBlocks.NewerBlockIsDropped` and `ReplaySources.SecondContentIsLost`.

## Model

| member | source | states |
|---|---|---|
| PostgresSplitter.Step | src/research_registry/db.py:131-212 | a move of the automaton takes at least one character, never reads past the text, keeps the mode well formed, and ends a statement only at a `;` in plain SQL |
| PostgresSplitter.TagLength | src/research_registry/db.py:93 | a recognised dollar tag is at least two characters, begins and ends with `$` and holds only tag characters |
| SplitterTokens.TagIsRecognised | src/research_registry/db.py:93 | a tag is recognised if and only if the text begins with `$`, a name and `$`, where the name is empty or a letter or `_` followed by letters, digits and `_`; and then it is that tag, whole |
| PostgresSplitter.SplitPostgresScript | src/research_registry/db.py:123-216 | the loop over one index and four mode variables, of which at most one is active at any step, returns the statements of the automaton; the index always advances |
| SplitterLaws.JoinSegments | src/research_registry/db.py:123-216 | nothing is lost: the raw segments joined by `;` give back the text, from every mode |
| SplitterLaws.SegmentsAreTheDecomposition | src/research_registry/db.py:123-216 | a list of texts is the splitter's segments if and only if joining it with `;` gives the script, no text holds a top-level `;`, and every text but the last ends in plain SQL |
| SplitterLaws.UncutPrefix | src/research_registry/db.py:123-216 | a prefix of a text without top-level `;` has none either, wherever it stops, inside tokens included |
| SplitterLaws.SplitIsFixedPoint | src/research_registry/db.py:123-216 | every statement of any script splits into itself alone, although stripping may remove the newline that closed its last comment |
| SplitterLaws.SplitComposes | src/research_registry/db.py:123-216 | if scanning `a` ends in plain SQL, the statements of `a;b` are those of `a` followed by those of `b` |
| SplitterBundles.BundleRunsCommonThenDialect | src/research_registry/migration_runner.py:84-89 | for all texts, a bundle runs its common statements and then its dialect's if and only if, where the common SQL ends (`Final`) inside a quote, dollar quote or block comment, the dialect SQL is blank, and otherwise the common SQL ends at a top-level `;` or the dialect's begins at one |
| SplitterTokens.QuotedTextHidesSemicolons | src/research_registry/db.py:166-181 | between single or double quotes any list of characters, doubled quotes and escaped characters is read from plain SQL back to plain SQL without a cut |
| SplitterTokens.BlockCommentHidesSemicolons | src/research_registry/db.py:141-154 | a block comment nested to any depth, lone slashes and stars included, is read without a cut and ends where its own opener is matched |
| SplitterTokens.DollarQuoteHidesSemicolons | src/research_registry/db.py:156-164 | for every tag name, a dollar-quoted body hides everything up to the first occurrence of its own tag |
| SplitterTokens.LineCommentHidesSemicolons | src/research_registry/db.py:134-139 | a line comment hides everything up to its newline |
| SplitterScripts.ScriptIsSplit | src/research_registry/db.py:123-216 | for every list of plain characters, comments, quoted and dollar-quoted texts and semicolons, closed or ending inside one of them, splitting the printed text gives the non-blank texts between the semicolons, trimmed, in order |
| SplitterScripts.EveryScriptIsLexical | src/research_registry/db.py:123-216 | every script is the printed text of such a list |
| ScopedKeys.PrefixFree | src/research_registry/service.py:4080-4098 | a text starts with the prefix of at most one namespace, whatever characters the ids hold |
| ScopedKeys.ScopedKeysNeverCollide | src/research_registry/service.py:4080-4098 | scoped keys of different namespaces differ, for all raw keys |
| ScopedKeys.ScopingIsIdempotent | src/research_registry/service.py:4080-4098 | scoping a scoped key changes nothing |
| ScopedKeys.ScopingIsInjective | src/research_registry/service.py:4080-4098 | within a namespace, different keys that do not carry the prefix stay different |
| RegistryLaws.FindByKeyFindsTheHolder | src/research_registry/service.py:4100-4129 | the lookup by dedupe key finds the one row of the namespace that carries the scoped key, and nothing if there is none |
| RegistryLaws.UniqueNeverFires | src/research_registry/service.py:4080-4129 | when the lookup in one namespace finds nothing, no row of any namespace carries the scoped key |
| RegistryLaws.InsertKeepsValid | src/research_registry/service.py:171-943 | an insert that passed the checks keeps typed references, home namespaces, scoped and unique keys and unique natural keys |
| RegistryLaws.AdmitRefusesExactly | src/research_registry/service.py:4041-4078 | a create is refused if and only if it names a record that is missing or of another namespace, or, when no row of its key exists yet, links a record twice; a refusal writes nothing |
| RegistryLaws.AdmitIsIdempotent | src/research_registry/service.py:171-943 | the same create again, with a dedupe key or a natural key, returns the same id and writes nothing |
| RegistryLaws.CosmeticChangeKeeps | src/research_registry/service.py:3351-3375 | changes of visibility, index state and status alone keep every invariant of the store |
| RegistryLaws.CreateQuestionKeeps | src/research_registry/service.py:235-339 | creating a question, with or without its focus topic, keeps the store valid and delivers a question of the write namespace |
| RegistryLaws.CreateExcerptKeeps | src/research_registry/service.py:597-724 | creating an excerpt, with or without its source, keeps the store valid and delivers an excerpt of the write namespace |
| RegistryLaws.CreateReportKeeps | src/research_registry/service.py:850-943 | creating a report and answering its question keeps the store valid and delivers a report of the write namespace |
| CreateMeaning.StoredRowsNameStoredRows | src/research_registry/service.py:4041-4078 | in a consistent store every record a row names, column by column, is stored in the row's own namespace |
| CreateMeaning.AdmitTransacts | src/research_registry/service.py:4041-4129 | a create transaction succeeds if and only if every record its columns name is stored in the namespace and a row carries its key, a twin exists, or it links nothing twice; it returns the carrier, else the twin, else stores exactly its row under a free id |
| CreateMeaning.TopicWrites | src/research_registry/service.py:171-226 | only a local caller, an admin or one with the ingest scope creates a topic, in the namespace named or, without being an admin, in their own; the row stored is private |
| CreateMeaning.QuestionWrites | src/research_registry/service.py:235-339 | the same of a question; with a focus, first the focus's topic under its key, then the question under the topic found or stored |
| CreateMeaning.SessionWrites | src/research_registry/service.py:405-480 | the same of a session |
| CreateMeaning.SourceWrites | src/research_registry/service.py:495-582 | the same of a source; a missing hash counts as empty |
| CreateMeaning.ExcerptWrites | src/research_registry/service.py:597-724 | the same of an excerpt, its source first; the topic is the one named or the question's |
| CreateMeaning.ClaimWrites | src/research_registry/service.py:739-835 | the same of a claim; the topic is the one named or the question's |
| CreateMeaning.ReportWrites | src/research_registry/service.py:850-943 | the same of a report, and one that was stored answers its question and changes nothing else |
| CreateMeaning.FocusKeyTellsSlug | src/research_registry/service.py:248 | in one namespace, focuses of different slugs look their topics up under different keys |
| CreateMeaning.FocusTopicHasSlugIff | src/research_registry/service.py:235-260 | the topic found or stored for a focus has its slug if and only if no topic of another slug carries the focus's key |
| PublishGraph.ReachIsReachability | src/research_registry/service.py:3377-3444 | the recursive account of the publish graph is reachability: a record is in it exactly when a path of links leads to it |
| PublishGraph.ClosedSetHoldsReach | src/research_registry/service.py:3377-3444 | any set closed under links that holds the root holds everything reachable |
| PublishGraph.DescendantsAreTheRest | src/research_registry/service.py:3446-3478 | what the cascade reads off a record's columns is everything reachable from it besides itself |
| PublishGraph.MarkKeepsReach | src/research_registry/service.py:3351-3478 | making any set of records public changes no record's links and nothing about what is reachable from any record |
| RegistryServices.RegistryService.RequireMutationRelationships | src/research_registry/service.py:4041-4078 | the loop accepts exactly the references that are stored rows of the namespace |
| RegistryServices.RegistryService.CheckThenInsert | src/research_registry/service.py:850-943 | one create transaction on the tables does what its specification says and keeps the store consistent |
| RegistryServices.RegistryService.AddTopic | src/research_registry/service.py:171-226 | the whole new state and result of creating a topic |
| RegistryServices.RegistryService.AddQuestion | src/research_registry/service.py:235-339 | the whole new state and result of creating a question, its topic's transaction first |
| RegistryServices.RegistryService.AddSession | src/research_registry/service.py:405-480 | the whole new state and result of creating a session |
| RegistryServices.RegistryService.AddSource | src/research_registry/service.py:495-582 | the whole new state and result of creating a source |
| RegistryServices.RegistryService.AddExcerpt | src/research_registry/service.py:597-724 | the whole new state and result of creating an excerpt, its source's transaction first |
| RegistryServices.RegistryService.AddClaim | src/research_registry/service.py:739-835 | the whole new state and result of creating a claim |
| RegistryServices.RegistryService.AddReport | src/research_registry/service.py:850-943 | the whole new state and result of creating a report; only one that was inserted answers its question |
| RegistryServices.RegistryService.CollectPublishGraph | src/research_registry/service.py:3377-3444 | the worklist ends and returns exactly the records reachable from the root |
| RegistryServices.RegistryService.CascadePublish | src/research_registry/service.py:3446-3478 | the recursive cascade makes public exactly what is reachable from the root besides the root |
| RegistryServices.RegistryService.CheckPublication | src/research_registry/service.py:1361-1406 | the checks, which write nothing, refuse with the specified error or return exactly the records reachable from the root |
| RegistryServices.RegistryService.WritePublication | src/research_registry/service.py:1409-1418 | the writes make public exactly the reachable records, or the root alone, and no other column changes |
| RegistryServices.RegistryService.PublishRecord | src/research_registry/service.py:1361-1419 | every check precedes the first write; on success exactly the collected graph (or, uncascaded, the root) becomes public, on failure nothing changes |
| PublishMeaning.PublicationSucceedsIff | src/research_registry/service.py:1361-1406 | on a consistent store a publication succeeds if and only if the root is stored, the caller is local, an admin who names the root's namespace, or has the publish scope and that namespace, and no record a chain of links leads to is native or lacks a required snapshot |
| PublishMeaning.PublicationChanges | src/research_registry/service.py:1407-1418 | the root and, in a cascade, all it rests on become public and indexed as asked, all of them in the root's namespace; every other row stays as it was |
| RegistryRuns.RunKeeps | src/research_registry/service.py:171-943 | in every reachable state references stay home and keys are unique; along every run rows are never lost, never change owner and never become private again |
| RegistryRuns.UniqueNeverFiresInRuns | src/research_registry/service.py:4080-4129 | from an empty store, no create of any run is refused by the global unique constraint |
| RegistryRuns.GraphStaysHome | src/research_registry/service.py:3377-3444 | a publish graph never leaves its root's namespace |
| RegistryRuns.NamespaceCheckIsTheRoots | src/research_registry/service.py:1395-1406 | the node-by-node namespace check of a publication fails if and only if the root's own namespace is another |
| RegistryRuns.PublicRecordsRestOnPublicEvidence | src/research_registry/service.py:1957-1982 | over every run of authenticated creates and cascaded publications from an empty store, whatever a public record reaches is public, and snapshotted where required |
| RegistryRuns.RunKeepsTrust | src/research_registry/service.py:3903-3932 | the same as an invariant, from any state that has it |
| RegistryRuns.UncascadedPublishKeepsTrustIff | src/research_registry/service.py:1409-1418 | a publication without cascade keeps public evidence public if and only if the root's direct links are public already |
| RegistryRuns.InsertKeepsTrustIff | src/research_registry/service.py:3903-3932 | an inserted row keeps it if and only if the row is private, or its links are public and no snapshot is lacking |
| Replay.StepsAreServiceCalls | src/research_registry/capture_queue.py:366-503 | each step of a replay is the service operation it calls, made with the payload the replay builds |
| ReplayLaws.AdmitRefinds | src/research_registry/service.py:4100-4129 | a create made again in any later store writes nothing and succeeds; it returns the same row if and only if no other row has come to carry the key, which is looked up first |
| ReplayLaws.SameRowRefound | src/research_registry/service.py:4100-4129 | no other row has, where none was added to the table or the key alone tells rows apart |
| ReplayLaws.RepeatsQuietly | src/research_registry/capture_queue.py:331-503 | an attempt on a store that an earlier attempt left repeats its steps without writing and learns the same ids, up to the source looked up last |
| ReplayLaws.ContinuesAlike | src/research_registry/capture_queue.py:331-503 | an attempt that starts where another stopped goes on exactly as that one would have |
| ReplayLaws.CrashesLeaveNoTrace | src/research_registry/capture_queue.py:331-503 | after any number of attempts cut off anywhere, a complete replay leaves the store and result of one that was never interrupted |
| ReplayLaws.CompletedReplayIsFinal | src/research_registry/capture_queue.py:331-503 | after a complete replay, further attempts, whole or cut off, change nothing and return the same report |
| ReplayMeaning.ReplaySucceedsIff | src/research_registry/capture_queue.py:331-364 | whatever crashes came before, a replay succeeds if and only if every finding cites annotations of the bundle, the report cites its findings, and the first finding of each temporary id and the report cite nothing twice unless their claim or report is stored already |
| ReplayMeaning.FirstReplaySucceedsIff | src/research_registry/capture_queue.py:331-364 | the same on an empty store, where it is a condition on the bundle's lists alone |
| ReplayMeaning.ReplayLeavesTheBundle | src/research_registry/capture_queue.py:366-503 | a completed replay of a bundle none of whose keys was taken leaves its session, excerpts, claims and report with the bundle's texts and visibilities, all about one answered question and in one session, excerpts and claims under that question's topic; where nothing in the namespace was that question or topic already, question and topic are the bundle's too |
| ReplayLinks.CompletedReplayIsStored | src/research_registry/capture_queue.py:331-503 | whatever crashes came before, a completed replay leaves exactly one row under each key of the bundle: its session, every annotation's excerpt, every finding's claim and the report |
| ReplayLinks.CompletedReplayIsLinked | src/research_registry/capture_queue.py:331-503 | for a bundle with a queue's id (`queue_…`) none of whose keys the store held before, the report so left is the one returned, linked to the claims and the claims to the excerpts as the bundle lists them, and its question is answered, whatever crashes came before |
| ReplaySources.ExcerptRestsOnItsOwnIff | src/research_registry/capture_queue.py:402-422 | whatever crashes came before, after a completed replay the excerpt of an annotation new to the store rests on a source with the annotation's locator and hash if and only if, before the replay, any source under the locator's key had them and so had the first earlier annotation of the locator that needed a new source |
| ReplaySources.SecondContentIsLost | src/research_registry/capture_queue.py:414-422 | from an empty store, of two annotations with one locator and different hashes the later one's excerpt rests on another source than recorded |
| CaptureQueues.ReplayBundle | src/research_registry/capture_queue.py:331-364 | the method with its dictionaries, calling the service, does to the registry what the step sequence does |
| CaptureQueues.CaptureQueue.Enqueue | src/research_registry/capture_queue.py:198-204 | one envelope is appended, the others stay |
| CaptureQueues.CaptureQueue.Flush | src/research_registry/capture_queue.py:225-250 | the loop's new file, result lists and registry: foreign envelopes kept, replayed ones dropped, failed ones kept with one more retry |
| FlushMeaning.MayReplayIff | src/research_registry/capture_queue.py:308-313 | a flush may replay an envelope if and only if its namespace is the backend's and, where both name a URL, the URLs differ at most in slashes at the end |
| FlushMeaning.FlushDealsWithAll | src/research_registry/capture_queue.py:225-250 | a flush deals with the envelopes in order: another backend's is passed on as it is; one whose bundle's lists are sound is dropped and its report reported and stored; any other keeps its bundle, with one retry more and an error, and is reported as failed |
| CaptureQueues.FlushConserves | src/research_registry/capture_queue.py:225-250 | the pending bundles, with multiplicity, are those still in the file and those replayed completely |
| CaptureQueues.FlushReportsTheReplayed | src/research_registry/capture_queue.py:225-250 | the ids reported as flushed are those of the bundles replayed completely, in order, with one report each |
| CaptureQueues.FlushReportsAreStored | src/research_registry/capture_queue.py:225-250 | each of those reports is, when the flush is over, the row that carries its own bundle's report key |
| CaptureQueues.ForeignEnvelopesAreKept | src/research_registry/capture_queue.py:308-313 | in every file, mixed ones included, the envelopes of another backend or namespace pass through a flush untouched and in order |
| QueueSystem.NoEnvelopeIsLost | src/research_registry/capture_queue.py:198-306 | under any interleaving of enqueuers, flushers and other clients with crashes between steps, every appended bundle is in the file or fully stored, and the file holds nothing else |
| QueueSystem.MutualExclusion | src/research_registry/capture_queue.py:278-306 | two processes are never both inside the lock |
| QueueSystem.EffectIsOnce | src/research_registry/capture_queue.py:331-503 | in every reachable state each key of a bundle is carried by at most one row, however often the bundle was replayed |
| QueueFlush.UndisturbedFlush | src/research_registry/capture_queue.py:225-250 | whatever steps a flush that is left alone takes: when it is through, file and registry are those of the flush loop and the lock is given back; and it can get through |
| QueueLinks.DroppedBundlesAreLinked | src/research_registry/capture_queue.py:198-503 | in every run in which other bundles have ids apart and other clients add no claim or report under the bundle's keys: once an envelope of the bundle has left the file, its report and claims are stored and linked as it lists them, whatever interleaves and crashes |
| MigrationMeaning.RunIsTrace | src/research_registry/migration_runner.py:522-529 | statements run through if and only if a trace of schemas leads over all of them, end where it ends, and fail if and only if a trace breaks off at one |
| MigrationMeaning.MigrateHasWay | src/research_registry/migration_runner.py:385-644 | a real run or dry run succeeds if and only if the target names a prefix of the package, the history or the legacy schema records a prefix with what those migrations promise, nothing non-transactional is to be run for real, and a trace leads over all statements to be run |
| MigrationMeaning.WayComes | src/research_registry/migration_runner.py:385-489 | whatever way that is says what the call reports (verified, pending, applied, adopted, skipped, current) and leaves: the schema at the end of the trace over all statements of all applied migrations, and a history of exactly those recorded and applied |
| MigrationLaws.SuccessAccountsForAll | src/research_registry/migration_runner.py:385-489 | a successful migrate verified or applied every selected migration, in order, and leaves none pending |
| MigrationLaws.FailureAndDryRunWriteNothing | src/research_registry/migration_runner.py:405-489 | a failed call and a dry run leave the committed state as it was if and only if the target is unknown, or no legacy upgrade is needed on SQLite, or it raises before its first script, or what it committed on the way is the state before |
| MigrationLaws.DryRunMayCommitUpgrade | src/research_registry/migration_runner.py:531-547 | on a database without a history table, a dry run of a known target changes the committed state if and only if the legacy upgrade is needed, the dialect is SQLite and the upgrade gets to its first script, and then leaves what was committed on the way |
| MigrationLaws.DryRunGuard | src/research_registry/migration_runner.py:531-547 | what can be checked before the call: where no upgrade is needed or the dialect is not SQLite, a dry run of any database changes nothing; otherwise one that goes through has changed a database without a history table |
| MigrationLaws.EarlyFailureIsRolledBack | src/research_registry/service.py:2463-2473 | on a SQLite file of version 3 with no table but `schema_meta`, where the upgrade's first statement raises, every call fails and leaves the file as it was |
| MigrationLaws.DryRunIsFaithful | src/research_registry/migration_runner.py:405-489 | for every database: with nothing skipped, the real run succeeds if and only if the dry run does, and applies, verifies and adopts what that said; with something skipped the real run is refused; a refused run leaves what the dry run leaves, which is the state before outside the committing branch |
| MigrationLaws.HistoryIsAGrowingPrefix | src/research_registry/migration_runner.py:385-489 | over any sequence of migrations, dry runs and failures, no recorded checksum is lost or changed and the history stays a prefix of the package |
| MigrationLaws.RepeatingIsCurrent | src/research_registry/migration_runner.py:385-489 | for a package that is not empty, repeating a successful migrate changes nothing and reports "current", exactly as long as the schema still validates |
| MigrationLaws.StagedIsDirect | src/research_registry/migration_runner.py:385-555 | for a package that is not empty, migrating to one target and then to a later one leaves the same schema and history as migrating straight to the later one, adopted legacy databases included |
| MigrationLaws.PlanForetellsMigrate | src/research_registry/migration_runner.py:337-359 | a plan accounts for the same migrations as the migrate it announces, and its pending ones are those applied except if and only if the history is empty, the schema is a legacy one (`schema_meta` is there) and the package starts with a flat migration |
| MigrationRunners.MigrationRunner.ValidateApplied | src/research_registry/migration_runner.py:572-644 | the scan with its `seen_pending` flag accepts a history if and only if it is a checksum-matching prefix of the package on a schema with the promised tables and columns |
| MigrationRunners.MigrationRunner.SelectMigrations | src/research_registry/migration_runner.py:491-497 | the loop selects the prefix that ends with the target, and nothing for an unknown target |
| MigrationRunners.MigrationRunner.BootstrapSchema | src/research_registry/migration_runner.py:531-555 | an unversioned database is started, adopted with the flat migrations recorded, upgraded or refused; the connection's committed and working states are the specified ones, and an upgrade that raises before its first script has committed nothing |
| MigrationRunners.MigrationRunner.ApplyMigrations | src/research_registry/migration_runner.py:522-529 | each executable migration's statements and then its record, in order, or a failure |
| MigrationRunners.MigrationRunner.MigrateDatabase | src/research_registry/migration_runner.py:385-489 | the transaction on the connection, with its rollbacks, leaves exactly the specified committed state and report |
| BundleChecksums.NormalizeJoinsLines | src/research_registry/migration_runner.py:308-314 | the two replacement passes join the text's lines, whichever newline ends them, with LF |
| BundleChecksums.NormalizeKeepsExactlyTheLines | src/research_registry/migration_runner.py:308-314 | two texts normalize alike if and only if they have the same lines; normalizing is idempotent and changes exactly the texts with a CR |
| BundleChecksums.UnframeFrames | src/research_registry/migration_runner.py:315-318 | a reader recovers the list of names and contents from the length-framed stream |
| BundleChecksums.PreimageIsDecodable | src/research_registry/migration_runner.py:303-319 | from the digested stream it recovers the sorted bundle with normalized newlines |
| BundleChecksums.PreimageDeterminesBundle | src/research_registry/migration_runner.py:303-319 | two bundles digest the same stream if and only if they hold the same names with the same lines, in whatever order they were listed |
| BundleChecksums.ChecksumDeterminesBundle | src/research_registry/migration_runner.py:303-319 | so do their checksums, if the digest separates the two streams |
| BundleStream.StreamIsSpelled | src/research_registry/migration_runner.py:303-319 | the digested stream is the opening text, a zero byte and, for each component in the byte order of names, four bytes of length, the name, eight bytes of length and the lines joined by LF; it exists if and only if all lengths fit |
| BundleChecksums.BundleChecksum | src/research_registry/migration_runner.py:303-319 | the digest loop feeds exactly that stream, or raises where a length does not fit its prefix |
| ManagedBlockSettings.RenderedSettingsAreRead | src/research_registry/local_manager.py:182-196 | read line by line, the rendered block sets `url` to the URL and `"x-api-key"` to the key |
| ManagedBlocks.RenderedTableIsMarkerFree | src/research_registry/local_manager.py:182-196 | what is rendered between the marker lines holds no marker if the URL and the key hold none |
| ManagedBlocks.BlockIsFound | src/research_registry/local_manager.py:241-253 | the searches for the markers find exactly the written block behind text without a begin marker |
| ManagedBlockLaws.RemoveCuts | src/research_registry/local_manager.py:241-253 | removal leaves the text before and after the block, trimmed and joined by a blank line, and extraction returns the block |
| ManagedBlockLaws.UpsertWithoutBlock | src/research_registry/local_manager.py:211-219 | without a block in it a config is refused if and only if it defines the server's table itself; otherwise the block is written behind it, on a line of its own, and behind text after a blank line |
| ManagedBlockLaws.UpsertReplaces | src/research_registry/local_manager.py:199-219 | upsert over a block keeps the text around it and replaces the block |
| ManagedBlockLaws.RemoveUndoesUpsert | src/research_registry/local_manager.py:199-253 | removing the block just added gives the text back if and only if the text is empty or ends in exactly one newline, and holds no stray begin marker |
| ManagedBlockLaws.RenderedBlockIsUndone | src/research_registry/local_manager.py:182-219 | the same for the block rendered from a URL and a key; a missing key is an error |
| ManagedBlockLaws.SecondUpsertReplaces | src/research_registry/local_manager.py:199-219 | on text without markers a second upsert acts as if it had been the only one if and only if the text is empty or ends in at most one newline after text |
| ManagedBlockLaws.UpsertOverBlock | src/research_registry/local_manager.py:199-219 | over any config with both markers: with an end marker behind the begin marker a further upsert replaces the earlier one, but for one more newline at the end when text follows the block; otherwise the first upsert's block stays and the text only grows |
| ManagedBlockLaws.AppendedBlockIsExtracted | src/research_registry/codex_install.py:534-538 | a block put back is found by the next installation, which saves the same text |
| ManagedBlockLaws.UninstallRestores | src/research_registry/codex_install.py:266-271 | taking out the one block and appending it again keeps the block, and restores the exact file if and only if it ended in the block, alone or after one blank line |
| CodexInstalls.CodexHome.CaptureLegacyState | src/research_registry/codex_install.py:342-379 | an earlier saved block stays, else the config's is saved; links found now win over saved ones |
| CodexInstalls.CodexHome.ApplyLegacyRemoval | src/research_registry/codex_install.py:413-428 | the block is cut out of the config, which is deleted when nothing is left, and the managed links are removed |
| CodexInstalls.CodexHome.InstallCodex | src/research_registry/codex_install.py:431-498 | an installation runs exactly its steps, state file first; an error or a dry run leaves everything alone |
| CodexInstalls.CodexHome.RestorationPlan | src/research_registry/codex_install.py:501-601 | the loop's announced changes and remaining state are the planned ones |
| CodexInstalls.CodexHome.ApplyRestoration | src/research_registry/codex_install.py:617-658 | the block is appended and free paths are linked, nothing else |
| CodexInstalls.CodexHome.UninstallCodex | src/research_registry/codex_install.py:691-760 | an uninstallation runs exactly its steps, restoration before the state file goes; an error or a dry run leaves everything alone |
| CodexMeaning.InstallGoesThroughIff | src/research_registry/codex_install.py:282-379 | an installation is planned if and only if the state file is absent or readable (each marker once in the block, the begin marker first, every link known) and the config, if it holds both markers, has an end marker behind the first begin marker |
| CodexMeaning.UninstallGoesThroughIff | src/research_registry/codex_install.py:282-339 | an uninstallation is planned if and only if the state file is absent or readable |
| CodexMeaning.InstallIsComplete | src/research_registry/codex_install.py:342-428 | a complete installation takes away exactly the managed links, saves them over earlier ones, saves the config's block unless one was saved, and takes the block out of the config |
| CodexMeaning.OnlyTheBlockLeavesNoConfig | src/research_registry/codex_install.py:413-428 | over a written block it leaves no config if and only if only white space stood before the block and only newlines behind it |
| CodexMeaning.UninstallIsComplete | src/research_registry/codex_install.py:501-658 | a complete uninstallation puts the saved block behind a config without markers or a table of its own, restores exactly the saved links whose path is free and whose target exists, and keeps saved exactly what it could not restore |
| CodexInstallLaws.PlanIsWhatApplyDoes | src/research_registry/codex_install.py:501-658 | the plan announces a config change if and only if the apply step makes it, announces exactly the links it creates, and nothing else changes |
| CodexInstallLaws.ExtractedLoads | src/research_registry/codex_install.py:309-316 | what installation saves can be loaded again if and only if the block holds no second begin marker |
| CodexInstallRuns.InstallAtCut | src/research_registry/codex_install.py:431-498 | cut off after any step, an installation has written the state file and then taken away at most the block and managed links |
| CodexInstallRuns.UninstallAtCut | src/research_registry/codex_install.py:691-760 | cut off before its last step, an uninstallation has touched neither the state file nor a link in place, and added only saved links |
| CodexInstallRuns.CommandLosesBlockIff | src/research_registry/codex_install.py:413-760 | for every home, command and cut: a complete block is in the config or saved afterwards if and only if one was before and the command is not a complete uninstall, with a block saved, of a config with both markers and no end marker after the first begin marker |
| CodexInstallRuns.CommandDropsLinkIff | src/research_registry/codex_install.py:342-379 | for every home, command and cut: a link is in place or saved afterwards if and only if it was before and the command is not an installation that found another managed link at its path |
| CodexInstallRuns.RunLosesExactly | src/research_registry/codex_install.py:413-760 | over every run of installs and uninstalls from any home, crashes included, block and link are kept if and only if they were there and no command of the run is one of those two |
| CodexInstallRuns.NothingIsLost | src/research_registry/codex_install.py:413-760 | none is, from a home whose block, if any, stands alone and whose links in place contradict no saved one; every run leaves such a home, and `CodexInstallBlocks.BlockTextIsKept` says when it is the same block |
| CodexInstallRuns.PathsAreKept | src/research_registry/codex_install.py:342-379 | from any home, no run leaves a skill without a link, in place or saved, that had one |
| CodexInstallRuns.LinkInPlaceWins | src/research_registry/codex_install.py:342-379 | a home, with two known targets, on which an installation loses a saved link to the one in place |
| CodexInstallRuns.UninstallLosesBlockIff | src/research_registry/codex_install.py:541-570 | for any config, a complete uninstall loses the saved block if and only if both markers are present with no end marker after the first begin marker |
| CodexInstallRuns.MisorderedLeftoverLosesBlock | src/research_registry/codex_install.py:541-570 | such a config can be what an installation leaves: with stray markers around the block, install and uninstall lose it |
| CodexInstallRuns.NestedBeginLocksTheState | src/research_registry/codex_install.py:282-316 | a block with a second begin marker is saved in a form no later install or uninstall accepts; without one, uninstalling goes through |
| CodexInstallBlocks.CommandLosesTextIff | src/research_registry/codex_install.py:342-760 | for every home, command, cut and block text: the block is in the config or saved afterwards if and only if it was before and the command is neither an installation that removes it while another is saved nor a complete uninstall that finds another managed config, or an installation brings it out from behind the removed one |
| CodexInstallBlocks.RunLosesTextExactly | src/research_registry/codex_install.py:342-760 | over every run from any home, crashes included: a block that no command loses is kept, and unless one brings it out, it is kept if and only if it was there and none loses it |
| CodexInstallBlocks.BlockTextIsKept | src/research_registry/codex_install.py:342-760 | from a home whose block stands alone, whose links agree and whose config and state hold no two different blocks, every run keeps the very block and leaves such a home |
| CodexInstallBlocks.NewerBlockIsDropped | src/research_registry/codex_install.py:342-379 | an installation over a written block while another is saved keeps the saved one and loses the newer |
| CodexInstallLaws.UninstallUndoesInstall | src/research_registry/codex_install.py:431-760 | from a home without a state file, with one block that stands alone, no other registry table and link targets that exist: a complete install and a complete uninstall leave no state file and the same links and block, and the very same home if and only if the config ended in the block |
| Bibtex.ParseBibtexValue | src/research_registry/external_ingest.py:443-464 | the cursor loops return the value at an index and where the reader goes on, possibly one past the end |
| Bibtex.ParseBibtexFields | src/research_registry/external_ingest.py:421-440 | the loop ends on every text and returns the field map, skipping empty values and cleaning the others |
| Bibtex.ParseBibtexEntries | src/research_registry/external_ingest.py:277-305 | the loop ends on every text and returns the non-empty field maps in order |
| BibtexRoundTrip.CloseBraceReads | src/research_registry/external_ingest.py:287-295 | the depth loop reads through balanced text and stops behind the brace that closes it |
| BibtexRoundTrip.ValueReads | src/research_registry/external_ingest.py:443-464 | a braced, quoted or bare value is read back and the cursor ends right behind it |
| BibtexRoundTrip.FieldReads | src/research_registry/external_ingest.py:421-440 | a field in any layout of blanks, line breaks, commas and equals signs is read back, whatever follows it; an empty value counts for nothing |
| BibtexRoundTrip.ParseInvertsPrint | src/research_registry/external_ingest.py:277-305 | reading printed entries gives every entry's fields, in order, for any layout and delimiters, said with literal characters, any balanced text behind the last field that is none, and any text without `@` between the entries |
| BibtexRoundTrip.MeantIsTheFields | src/research_registry/external_ingest.py:421-440 | for names that differ when lower-cased and already clean values, those are exactly the fields that were printed with a value |
| BibtexRoundTrip.NameCaseDoesNotMatter | src/research_registry/external_ingest.py:421-440 | of two printed fields of an entry, wherever they stand, whose names differ only in case (the alphabet is spelled out), the reader keeps the later if it has a value: it reads what it would without the earlier one, with the later one's value unless the name comes again |
| BibtexRoundTrip.UnclosedTextIsCut | src/research_registry/external_ingest.py:287-296 | an entry or value whose brace is never closed loses its last character |
| BibtexRoundTrip.UnclosedQuoteIsRead | src/research_registry/external_ingest.py:455-460 | a quoted value whose quote is never closed is read whole to the end of the entry |

## Left out

Registry and queue:

- The v2 deposit, review, projection, blob and refresh services; a flush replays v1 bundles only. Which records the
  native v2 tables forbid to publish is a parameter of a publication.
- SQLite and Postgres themselves: each `with self.connect()` block is one atomic step, and a failed one writes nothing.
  The transaction that `create_excerpt` opens for a check before the one that inserts is folded into it.
- Identifiers are drawn from a counter instead of random UUIDs; all that is used of them is that they are fresh.
- Columns no decision reads (texts, timestamps, slugs of public namespaces, audit log, search index, review and index
  state operations) are one text per row or absent. Error messages of a replay are one text.
- Lookups by locator and hash take the one row there is; the proof that there is at most one makes their `ORDER BY` moot.
- Authentication beyond the scopes, the admin flag and the namespace that creates and publications read; locator checks.
- ReplayLaws.CrashesLeaveNoTrace: assumes that nobody else writes between the attempts, because another client may
  create the topic, question or source first; `QueueSystem` states what holds with other writers.
- ReplaySources.ExcerptRestsOnItsOwnIff: assumes the same, and a bundle with a queue's id; of two annotations with one
  temporary id the later finds the excerpt of the earlier and is not spoken of.
- ReplayMeaning.ReplaySucceedsIff: for bundles with a queue's id (`queue_...`), as `CaptureQueue` makes them.
- QueueSystem.NoEnvelopeIsLost: a bundle counts as fully stored when its session, excerpts, claims and report are there
  under the bundle's keys; topic, question and source may have been found under other keys.
- QueueLinks.DroppedBundlesAreLinked: for bundles with a queue's id, and other bundles whose id neither begins nor extends
  it, as random ids of one length are. The question's status is left out, since another client may set it again.
- JSON Lines framing and torn appends: the file is a sequence of envelopes, and an append is one step.

Splitter and migrations:

- The SQLite splitter (`sqlite3.complete_statement`): the statements of a SQLite script are a function parameter.
- The effect of a statement and of the legacy upgrade are function parameters. The upgrade either raises before its
  first script or leaves what was last committed on the way, because on SQLite Python's `executescript` commits the open
  transaction; which schemas make it raise is the parameter's part.
- Lock acquisition between runners, timestamps, `verify` (which reads as `plan` does), loading and parsing of manifests.
- SHA-256: the digest is a function parameter. Component contents are valid UTF-8; on invalid bytes the code raises.
- `sorted` on names is modelled as sorting of their UTF-8 encodings, which is the same order.

Codex install:

- Plugin payload files, directories, file modes and the `codex` commands: they touch neither the config nor the state
  file nor the links; where one fails, the run is cut off at that step.
- Config text is what text mode reads, with newlines translated. The state file is its JSON value; two saved links for
  one path, which only a hand-edited file can hold, are not modelled. Link targets exist or not for the whole command.
- CodexInstallRuns.NothingIsLost: for configs that are not managed or whose one block has no marker before or after it,
  and links in place that contradict no saved one; `CodexInstallRuns.RunLosesExactly` states what holds of every home.
- ManagedBlockLaws.SecondUpsertReplaces: for text without any marker; with a stray marker upsert cuts elsewhere.

BibTeX:

- `_clean_text` is a function parameter; DOI, date and locator heuristics on the fields are not modelled.

HTTP, MCP and CLI front ends, Docker files, templates, ranking and the legacy research heuristics hold no property of
this kind.
