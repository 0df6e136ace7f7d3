# Aetheris: verified models of the runtime's core algorithms

Aetheris is a durable-execution runtime written in Go. This project models seven of its parts in Dafny
4.11 and proves what they promise, or exactly when they keep the promise:

- **Task graphs** (`Graphs`, `Kahn`, `GraphRun`, `TaskGraph`): the execution aggregate with Kahn's
  sort, the ready queue, the node states and recursive skipping. `TaskGraph.TaskGraphExecution` is the
  class; `GraphRun` is the same state machine as a value, and every class method's contract says which
  step of it is taken.
- **Hash chain, redaction, evidence** (`Text`, `Ndjson`, `HashChain`, `Redaction`, `Ledger`,
  `Evidence`, `Backfill`): the event chain, masks and re-chaining, the ledger check, export, signing and
  verification of evidence packages, and the hash backfill of an interleaved event file.
- **Effects** (`Effects`): the two result indexes, idempotent execution, record and replay.
- **Chunkers** (`Stepping`, `TokenSplitter`, `StructuralSplitter`).
- **Approval** (`Approval`): the human-approval protocol as interleaved steps with an explicit lock.
- **Failover** (`Failover`) and **routing advice** (`Advisor`).

`Wrappers` holds the option and result types. `dafny verify dfyconfig.toml` checks everything.

## What library code becomes

SHA-256, the JSON codec, timestamp parsing, value formatting and encryption are the function fields of
`Text.Platform`; `Platform.Lawful` lists the laws relied on (digests are non-empty hexadecimal, decoding
inverts encoding, an encoded value is one clean line, canonical timestamps parse to themselves and
contain no `|`), and `Platform.Delimits` adds, for what a signature covers, that a printed object tells where
it ends. `LawfulPlatform.LawsCanBeMet` exhibits a platform that keeps them all. No theorem assumes
an injective hash: where one needs collision freedom it names the two inputs that would have to collide.
Encryption takes the nonce drawn for it as an argument. Ed25519 is `Evidence.Signer`; its one law is that
the matching public key accepts a signature, which is never empty (`LawfulPlatform.SignerLawsCanBeMet`
exhibits such a scheme). Clocks, generated identifiers, the called functions, context
cancellation and fallback selection are parameters. An arbitrary map iteration order is an arbitrary
choice. Scores and multipliers are real numbers. A ZIP archive is a map from names to contents.

## Where the code differs from what it says or suggests

- The advisor's comments say the first candidate is selected when no rank is set
  (`pkg/routing/advisor_noop.go:61` and line 118); the code compares scores, so the first one is selected
  exactly when no other has a higher score, nor the same score and a smaller identifier
  (`Advisor.UnrankedFirstIsSelectedIff`; a failing input: `Advisor.UnrankedFirstIsNotAlwaysSelected`).
- The design says the decision hash covers all other fields
  (`docs/artifacts/2026-05-26-routing-advisor-contract/arch-design.md:166`); the code leaves out the fallback
  reason codes, so changing them is never detected (`Advisor.FallbackReasonsAreNotCovered`). A changed decision
  verifies exactly when header, selection and candidates are the same up to order
  (`Advisor.ChangedDecisionVerifiesIff`).
- Redaction covers the events of a package and not its ledger, whose results are printed as they are
  (`Evidence.RedactedPackagesAreIdenticalIff`).
- The exported proof always claims a validated ledger, but export does not check the ledger: a package is
  accepted exactly when the ledger is consistent (`Evidence.ExportThenVerify`), and for every stream there
  is a ledger with which it is exported and refused (`Evidence.SomeLedgerIsExportedAndRefused`).
- Running the backfill on its own output does not reproduce a file with undated records: it does exactly
  when every record is dated, is handled at the same time again, or has its two hash inputs collide
  (`Backfill.OutputIsAFixedPointIff`).
- The backfill hashes a record without payload as `null`, but read as evidence the record has the empty text for
  its payload: the output verifies exactly when payloads are strings and times the hashed ones, or inputs collide
  (`Backfill.BackfilledJobVerifiesIff`, `Backfill.RecordWithoutPayloadIsRefused`).
- The hash of `proof.json` is computed after the manifest has been printed, so no manifest declares it
  (`Evidence.NoManifestDeclaresTheProof`), and verification skips a proof file that is missing. Acceptance under
  a public key therefore means an accepted signature exactly when there is a proof file
  (`Evidence.KeyDecidesOnlyWithAProof`): a package without it is accepted under every key when its ledger is
  consistent (`Evidence.ExportWithoutItsProof`).
- A failed call is remembered as an empty success (`Effects.FailureIsRememberedAsEmptySuccess`); a live retry is
  answered as the first call exactly when that did not fail (`Effects.LiveRetryAnswersAlikeIff`).
- A decision submitted after the deadline expires the request without answering it; the caller then
  waits until its context ends (`Approval.WaiterIsAnsweredUnlessExpiredLate`; such a run:
  `Approval.LateSubmissionLeavesTheCallerWaiting`). Some run can come to a standstill exactly when the decision
  `pending` may be submitted (`Approval.CanStandStillIff`; such a run: `Approval.PendingDecisionCanDeadlock`).
- An overlap of at least the chunk size never gets a long paragraph finished
  (`StructuralSplitter.StepLoopEndsIff`), and a paragraph of exactly the chunk size can be preceded by an
  empty chunk (`StructuralSplitter.EmptyChunkIff`).
- An edge to an unknown node makes the cycle test wrong in both directions: it succeeds exactly when as many
  unknown targets are listed as nodes are left out (`Graphs.LengthTestIsExact`), so it can refuse an acyclic
  graph (`Graphs.UnknownTargetFailsTheLengthTest`) and pass a cyclic one
  (`Graphs.UnknownTargetCanHideACycle`).

## Model

| member | source | states |
|---|---|---|
| Graphs.PeelingDecidesAcyclicity | internal/agent/domain/task_graph.go:176-181 | on a well-formed graph the length test succeeds exactly when no closed walk exists, and then all nodes are listed |
| Graphs.PeeledSetIsUnique | internal/agent/domain/task_graph.go:153-174 | the nodes listed, and their number, do not depend on the arbitrary start and queue order |
| Graphs.BackwardClosedSetHasCycle | internal/agent/domain/task_graph.go:176-179 | a non-empty set in which each node has a predecessor contains a cycle, by walking back and the pigeonhole principle |
| Graphs.PeeledExactlyWhenFree | internal/agent/domain/task_graph.go:144-174 | for any graph: an identifier is listed exactly when it has a table entry and no walk from a cycle, or from an identifier without an entry, leads to it |
| Graphs.LengthTestIsExact | internal/agent/domain/task_graph.go:176-179 | distinct identifiers, any edges: the length of the list, and that the test succeeds exactly when as many unknown targets are listed as nodes are left out |
| Graphs.UnknownTargetFailsTheLengthTest | internal/agent/domain/task_graph.go:149-151 | for acyclic graphs with known sources the test succeeds exactly when all targets are nodes |
| Kahn.InDegrees | internal/agent/domain/task_graph.go:145-151 | one entry per node and edge target, counting its incoming edges |
| Kahn.RemoveEdges | internal/agent/domain/task_graph.go:167-174 | removing one node's edges queues exactly the targets left without open incoming edges, once each |
| Kahn.Sort | internal/agent/domain/task_graph.go:153-174 | for any graph: a repetition-free list with every source before its target, to which nothing can be added |
| TaskGraph.TaskGraphExecution.BuildIndex | internal/agent/domain/task_graph.go:96-135 | index, dependency sets, states and ready queue; the aggregate is usable exactly for distinct identifiers and no stale dependencies |
| TaskGraph.TaskGraphExecution.TopologicalSort | internal/agent/domain/task_graph.go:138-182 | returns an order exactly on acyclic graphs when well-formed, and with distinct identifiers exactly when as many unknown targets are listed as nodes are left out |
| TaskGraph.TaskGraphExecution.MarkNodeRunning | internal/agent/domain/task_graph.go:197-208 | errors for unknown and not-ready nodes with nothing changed, else the start step |
| TaskGraph.TaskGraphExecution.MarkNodeCompleted | internal/agent/domain/task_graph.go:211-224 | whatever the node's state: the finish step on the whole aggregate, other node data unchanged |
| TaskGraph.TaskGraphExecution.MarkNodeFailed | internal/agent/domain/task_graph.go:227-239 | whatever the node's state: it fails and exactly the nodes reached from it over pending nodes are skipped |
| TaskGraph.TaskGraphExecution.UpdateDependentNodes | internal/agent/domain/task_graph.go:242-255 | the edge-by-edge release of pending successors |
| TaskGraph.TaskGraphExecution.SkipDependentNodes | internal/agent/domain/task_graph.go:258-269 | terminates on every graph; skips only pending nodes reached over pending nodes and leaves no such node pending |
| TaskGraph.SkipIsExact | internal/agent/domain/task_graph.go:258-269 | that soundness and closure determine the skipped set: reachability over pending nodes |
| TaskGraph.TaskGraphExecution.FindNode | internal/agent/domain/task_graph.go:272-279 | the linear search agrees with the index |
| TaskGraph.TaskGraphExecution.AreAllDependenciesMet | internal/agent/domain/task_graph.go:282-293 | true exactly for known nodes with all dependencies completed |
| TaskGraph.TaskGraphExecution.GetReadyNodes | internal/agent/domain/task_graph.go:185-194 | the ready nodes of the queue in queue order |
| TaskGraph.TaskGraphExecution.IsCompleted | internal/agent/domain/task_graph.go:296-298 | where the invariant of runs holds: true exactly when every node is completed |
| TaskGraph.TaskGraphExecution.GetProgress | internal/agent/domain/task_graph.go:301-314 | the numbers of completed, failed and skipped nodes |
| TaskGraph.GiveAll | internal/agent/domain/task_graph.go:197-239 | a disciplined caller takes the aggregate to exactly the state of the run of its marks, so every theorem about runs is one about the aggregate |
| TaskGraph.ProgressIsTotalWhenSettled | internal/agent/domain/task_graph.go:301-314 | the three counts add up to the total exactly when every node is completed, failed or skipped |
| GraphRun.ReleaseIsExact | internal/agent/domain/task_graph.go:242-255 | visiting edges in order readies, once each, exactly the pending successors with all dependencies completed |
| GraphRun.ReleaseAppends | internal/agent/domain/task_graph.go:242-255 | what is released goes to the end of the ready queue, in the order of the edges |
| GraphRun.RootsInOrder | internal/agent/domain/task_graph.go:121-134 | the ready queue starts with the nodes without dependencies, in the order of the nodes |
| GraphRun.FinishIsExact | internal/agent/domain/task_graph.go:211-255 | a finish readies exactly the pending successors whose last open dependency it was, behind the queue as it was; nothing else changes state |
| GraphRun.RunInv | internal/agent/domain/task_graph.go:197-269 | the invariant every disciplined run keeps: completed set, queue, dependencies of released and pending nodes, origin of skips |
| GraphRun.SkippedExactlyDownstreamOfFailure | internal/agent/domain/task_graph.go:227-269 | in every reachable state a node is skipped exactly when edges lead to it from a failed node |
| GraphRun.ReadyQueueAgreesWithRecomputation | internal/agent/domain/task_graph.go:185-255 | the queue lists, without repetition, exactly the unmarked nodes whose dependencies are all completed |
| GraphRun.CompletionTestIsExact | internal/agent/domain/task_graph.go:296-298 | the counting test holds exactly when every node is completed |
| GraphRun.NoDeadlock | internal/agent/domain/task_graph.go:197-255 | acyclic: while a node is pending one is ready or running; nothing possible exactly when all are completed, failed or skipped |
| GraphRun.RunsAreShort | internal/agent/domain/task_graph.go:197-239 | any disciplined run, on cyclic graphs too, has at most two marks per node |
| GraphRun.OnlyPeeledNodesRun | internal/agent/domain/task_graph.go:138-255 | only nodes the sort lists are ever released, so none on a cycle |
| GraphRun.StuckRunCompletedThePeeledNodes | internal/agent/domain/task_graph.go:138-255 | a failure-free run that cannot go on has completed exactly the nodes the sort lists |
| GraphRun.SortedOrderIsExecutable | internal/agent/domain/task_graph.go:137-182 | running the nodes one by one in the returned order is a disciplined run completing exactly them |
| HashChain.ValidateChain | pkg/proof/hash.go:40-72 | accepts exactly the valid chains, else reports the first bad event and what is wrong there |
| HashChain.PreimageLayout | pkg/proof/hash.go:25-37 | split at bars, the hashed text is job id, type, the parts of the payload, time and previous hash, in this order |
| HashChain.PreimageIsUnambiguous | pkg/proof/hash.go:25-37 | bar-free job id and type, any payload: equal preimages mean equal hashed fields |
| HashChain.PreimageDeterminesIffBarFree | pkg/proof/hash.go:25-37 | against arbitrary events a preimage determines its event exactly when job id, type and payload are bar-free |
| HashChain.BarLetsTheChainBeReread | pkg/proof/hash.go:25-37 | a bar in one job id, type or payload of a valid chain gives another valid chain with the same preimages and last hash that says something else |
| HashChain.RootHashCommits | pkg/proof/hash.go:25-72 | two valid chains with equal last hash agree in length and all hashed fields, or contain a collision |
| Redaction.RedactData | pkg/redaction/engine.go:44-66 | all masks in order on an object payload, each encryption under a nonce of its own; null kept; anything else an error |
| Redaction.MaskedFieldIsMaskedOnce | pkg/redaction/engine.go:69-109 | under distinct top-level masks each masked field is its mask applied to the original |
| Redaction.OtherFieldsAreKept | pkg/redaction/engine.go:69-109 | a field that starts no mask path is untouched |
| Redaction.MaskingHidesExactlyTheRest | pkg/redaction/engine.go:44-109 | payloads masked under nonces of their own are equal exactly when unmasked fields and what each mask shows are equal |
| Redaction.WhatEachModeShows | pkg/redaction/engine.go:90-108 | remove shows nothing, redact only presence, hash only the salted digest, encryption the ciphertexts |
| Redaction.EachMaskIsWritten | pkg/redaction/engine.go:44-109 | for event and global rules with distinct top-level paths, what an object payload holds under each name afterwards, value by value for every mode |
| Redaction.MaskReachesItsPath | pkg/redaction/engine.go:69-109 | a mask with a dotted path masks the value at that path and keeps every value whose path is elsewhere; a missing step changes nothing |
| Redaction.RedactEventsForExport | pkg/proof/export.go:190-223 | the loop computes the redacted, re-chained stream or the first error; what such a stream hides is stated next |
| Redaction.RedactedStreamHides | pkg/proof/export.go:190-223 | event by event: no api_key, token, password or secret is left, ssn and credit_card are starred, email and phone are their salted digests, every other field is as it was, and a payload without fields stays |
| Redaction.RedactedStreamIsAChain | pkg/proof/export.go:206-222 | a redacted stream is a valid chain with the same length, identifiers, jobs, types and times |
| Redaction.RedactionSucceedsIff | pkg/proof/export.go:206-215 | redaction succeeds exactly when every non-blank payload is an object or null |
| Redaction.RedactedStreamsAreIdenticalIff | pkg/proof/export.go:190-223 | redacted streams, hashes included, are identical exactly when they look the same event by event |
| Redaction.ObjectPayloadsLookTheSameIff | pkg/proof/export.go:206-215 | two object payloads look the same once masked exactly when their views agree |
| Redaction.ExportedStreamsAreIdenticalIff | pkg/proof/export.go:190-223 | redacted streams of object payloads are identical, hashes included, exactly when they agree in id, job, type, time and in what the export masks show |
| Redaction.SecretsDoNotShow | pkg/proof/export.go:190-223 | streams that differ only in the values of redacted fields and the value or presence of removed ones give identical redacted streams |
| Redaction.ExportedStreamIsDeterministic | pkg/proof/export.go:204 | without an encryption key in use the redaction draws nothing: any random source gives the same stream |
| Redaction.ExportMasksAvoidLedgerFields | pkg/proof/export.go:191-203 | the eight export masks are distinct top-level masks that touch none of the fields the ledger check reads |
| Ledger.ValidateLedgerConsistency | pkg/proof/verify.go:181-242 | accepts exactly the aligned ledgers; a reported error is a misalignment that is there |
| Ledger.LedgerConsistentIff | pkg/proof/verify.go:181-242 | accepted exactly when the last finished event of each key is borne out by the last entry with that key (same tool if it names one, committed if it succeeded) and every committed entry has a finished event |
| Ledger.RedactionKeepsLedgerVerdict | pkg/proof/verify.go:181-242 | for every ledger the verdict on the redacted stream is the verdict on the original |
| Ndjson.PrintNdjson | pkg/proof/export.go:226-251 | one printed record and a newline per record |
| Ndjson.PrintedFileSplits | pkg/proof/export.go:226-251 | split at newlines, the file is the printed records and an empty rest |
| Ndjson.ParseNdjson | pkg/proof/verify.go:245-278 | the records of the trimmed non-blank lines, or the number of the first line that does not parse |
| Ndjson.EachLineIsARecord | pkg/proof/verify.go:245-278 | a file reads as these records exactly when each line parses as the record in its place |
| Ndjson.ReadInvertsPrintRecords | pkg/proof/verify.go:245-278 | parsing inverts printing for records that survive as clean lines |
| Evidence.EventSurvivesPrinting | pkg/proof/types.go:58-67 | an event with a canonical time survives JSON and is printed as a clean line |
| Evidence.EventIsReadIff | pkg/proof/verify.go:245-260 | a line is read as an event exactly when its fields, absent and null ones being empty, read as the event |
| Evidence.InvocationSurvivesPrinting | pkg/proof/types.go:70-82 | so does a tool invocation, with or without its optional field |
| Evidence.ManifestSurvivesPrinting | pkg/proof/types.go:33-44 | the printed manifest parses back, declared file hashes included |
| Evidence.OtherFieldIsReadIff | pkg/proof/types.go:33-44 | how counts, times and hash tables are read, absent and null ones included |
| Evidence.ExportEvidence | pkg/proof/export.go:30-187 | succeeds exactly on a named job whose stores answer, with a valid non-empty chain and possible redaction, and yields the package, signed when there is a key; otherwise the error is the first that applies |
| Evidence.ManifestTells | pkg/proof/export.go:92-116 | read back, the manifest tells version, job, time, the two counts, first and last hash, the given or default versions, and for each declared file the hash of what is in the package |
| Evidence.ProofTells | pkg/proof/export.go:122-157 | read back, the proof tells job, last hash, two claims and the producer, and with a signing key a signature over the printed manifest, events file and ledger file, its time and the given or default key identifier |
| Evidence.ExportedPackageHides | pkg/proof/export.go:56-64 | the events read from the package of a redacted export hide, under the salt of the export, what they should, and are a chain |
| Evidence.CheckFileHashes | pkg/proof/verify.go:84-96 | no errors exactly when every declared file is there with the declared hash; an error is reported exactly when it is there |
| Evidence.VerifyEvidence | pkg/proof/verify.go:31-178 | accepts exactly when the manifest, the events and whatever there is of ledger and proof pass their checks, the proof's signature among them if a public key is given; what each result flag means; every reported error is there, and every error that is there is reported, of the ledger's inconsistencies one |
| Evidence.PackageIsAcceptedIff | pkg/proof/verify.go:31-178 | the package of a valid chain is accepted exactly when the ledger is consistent with it and the public key, if any, is content; it holds that chain |
| Evidence.ExportThenVerify | pkg/proof/export.go:30-187 | any successful export, redacted or not, signed or not, is accepted exactly when the ledger fits the original stream and the public key, if any, is content |
| Evidence.SignedExportIsAcceptedIff | pkg/proof/signature.go:27-57 | with its proof file, an export is accepted under the key it was signed with exactly when the ledger fits, and an unsigned one is refused under every key |
| Evidence.RedactedPackagesAreIdenticalIff | pkg/proof/export.go:56-185 | redacted packages of object payloads are identical exactly when the streams agree in what the export masks show and the ledgers, which are not redacted, are the same |
| Evidence.SignedTextIsUnambiguous | pkg/proof/signature.go:27-38 | two signed texts are the same exactly when manifest, events and ledger are, although they are printed without separators |
| Evidence.SignatureCoversWhatIsRead | pkg/proof/verify.go:280-310 | the signature checks of two readable packages are about the same text exactly when manifest, events and ledger read the same |
| Evidence.ExportWithoutItsProof | pkg/proof/verify.go:143-175 | without its proof file, signed or not and whatever the key, it is accepted exactly when the ledger fits |
| Evidence.MissingFilesAreNotChecked | pkg/proof/verify.go:123-175 | without ledger and proof a package is accepted on manifest and chain alone, and a signature over it covers an empty ledger |
| Evidence.NoManifestDeclaresTheProof | pkg/proof/export.go:90-159 | read back, the manifest declares the three other files and not the proof |
| Evidence.SomeLedgerIsExportedAndRefused | pkg/proof/export.go:122-129 | every exportable stream is exported, and then refused, with a ledger of one committed entry without a key |
| Evidence.SameRootSameEvidence | pkg/proof/verify.go:153-157 | two accepted packages with one root hash hold the same stream up to identifiers, or a collision |
| Backfill.BackfillHashes | cmd/cli/main.go:489-530 | the output lines, the count, and on error the first bad line with the count before it; what is hashed of a record is stated next |
| Backfill.EventSays | cmd/cli/main.go:533-572 | what an event takes from its record (a string payload as it is, a missing one as null, any other as a text that decodes to it) and which record is refused for what |
| Backfill.OrderAndContentAreKept | cmd/cli/main.go:516-523 | one record per non-blank line, in order, changed only in its link and hash |
| Backfill.EveryJobIsAChain | cmd/cli/main.go:507-514 | for any interleaving, and whatever the other jobs' records, the events of a job whose records are dated form a valid chain |
| Backfill.BackfilledJobVerifiesIff | cmd/cli/main.go:489-530 | read as the events file of a package, the output gives a job a valid chain exactly when each of its records has a string payload and the time it was hashed with, or collides with what was hashed |
| Backfill.PlainFileVerifies | cmd/cli/main.go:489-530 | so a file of dated records with string payloads reads as events, those of each job being a valid chain |
| Backfill.RecordWithoutPayloadIsRefused | cmd/cli/main.go:559-563 | a dated record without payload is hashed as null and read as the empty text: its job is no chain when read, unless the two collide |
| Backfill.RerunReproducesIff | cmd/cli/main.go:489-530 | running it on its own output goes through, and reproduces the records exactly when each is dated, handled at the same time, or has its own two preimages collide |
| Backfill.OutputIsAFixedPointIff | cmd/cli/main.go:526-527 | the same as a statement about the written file |
| Backfill.RerunIsStable | cmd/cli/main.go:489-530 | a file of dated records is reproduced at any later time |
| Backfill.UndatedRecordIsNotStable | cmd/cli/main.go:548-550 | an undated record handled at another time has another preimage, and is reproduced exactly when the two digests are equal |
| Effects.MemorySystem.Execute | pkg/effects/memory.go:33-92 | replay by identifier, then key, else forbidden; live: cached by key or stored under both indexes |
| Effects.HowResultsAreMarked | pkg/effects/memory.go:33-92 | case by case what is returned and stored, and with which origin a stored result is marked |
| Effects.ReplayByIdentifier | pkg/effects/memory.go:35-41 | replaying a live call's identifier answers with that call's answer, whatever the request says, asks nobody and changes nothing; a request of another kind fails |
| Effects.MemorySystem.Complete | pkg/effects/memory.go:97-118 | the data is set under the identifier and under every key referring to it, nothing else changes |
| Effects.MemorySystem.Clear | pkg/effects/memory.go:137-144 | both indexes empty |
| Effects.MemorySystem.Call | pkg/effects/tool.go:55-92 | the common course of the three wrappers: execute, take the cached data or ask the caller and complete; which requests share a key and when the caller is asked is stated next |
| Effects.KeysTellKinds | pkg/effects/tool.go:134-150 | tool, HTTP and LLM key spaces are disjoint |
| Effects.KeysTellTexts | pkg/effects/llm.go:108-128 | requests of one kind share a key exactly when they print alike, the fallback standing in only for a failed print, or the digests coincide: whole ones, for HTTP their first 16 characters |
| Effects.CallerIsAskedIff | pkg/effects/memory.go:33-92 | in any run from the start the caller is asked exactly by a live call whose key no live call since the last clear had |
| Effects.CallerIsAskedForNewRequests | pkg/effects/memory.go:33-92 | without such coincidences: exactly when no live call since the last clear issued the same request |
| Effects.LiveCallRelaysItsCaller | pkg/effects/tool.go:55-92 | an asked caller's answer or error is what the call returns |
| Effects.CallerRunsAtMostOncePerKey | pkg/effects/memory.go:33-118 | in any sequential mix of live and replayed calls the caller runs at most once per key between two clears |
| Effects.IndexesAgree | pkg/effects/memory.go:33-118 | with fresh identifiers each keyed result is the one stored under its identifier, and keys never share identifiers |
| Effects.NoTypeAssertionFails | pkg/effects/llm.go:86-92 | a cached hit always carries the wrapper's own response type |
| Effects.ReplayReproducesTheLiveRun | pkg/effects/memory.go:33-54 | a replayed request invokes nobody, changes nothing and answers as live exactly when that live call did not fail |
| Effects.RecordThenReplay | pkg/effects/http.go:52-83 | with succeeding callers a whole replayed sequence returns the same replies in order, without invocations or changes |
| Effects.LiveRetryAnswersAlikeIff | pkg/effects/memory.go:56-92 | a request repeated live invokes nobody, changes nothing, and is answered as the first time exactly when that call did not fail |
| Effects.FailureIsRememberedAsEmptySuccess | pkg/effects/llm.go:94-98 | after a failed call the same live request returns an empty success without asking the caller |
| TokenSplitter.TokenizeInvertsDetokenize | internal/splitter/token.go:99-107 | tokenizing inverts joining on whitespace-free non-empty tokens |
| TokenSplitter.TokenizeSplitsAtSpace | internal/splitter/token.go:99-101 | the tokens of a text are those before any of its white space and those behind it |
| TokenSplitter.DetokenizedTextSplits | internal/splitter/token.go:104-107 | a chunk text is its tokens with single spaces between them |
| TokenSplitter.SplitByTokens | internal/splitter/token.go:61-96 | the chunks are exactly the windows given in closed form, with their count, indices and token counts |
| TokenSplitter.ChunksAreBounded | internal/splitter/token.go:110-121 | every chunk holds one to max tokens and records their number |
| TokenSplitter.NeighboursShare | internal/splitter/token.go:72-86 | every chunk but the last has max tokens, and the next one begins with the last overlap of them, or with none if the overlap is no smaller, and goes on |
| TokenSplitter.ChunksReassemble | internal/splitter/token.go:61-96 | dropping carried-over prefixes and concatenating gives back the token list |
| TokenSplitter.Split | internal/splitter/token.go:42-58 | only positive options replace the defaults, and the content's tokens are recovered |
| StructuralSplitter.SplitLongParagraph | internal/splitter/structural.go:154-170 | exactly the rounded-up number of pieces, each at its step, consecutively numbered |
| StructuralSplitter.PieceSays | internal/splitter/structural.go:154-170 | in plain numbers where each piece begins and ends, and how many there are |
| StructuralSplitter.StepLoopEndsIff | internal/splitter/structural.go:158 | the stepping loop passes the end exactly when the overlap is smaller than the size |
| StructuralSplitter.PiecesReassemble | internal/splitter/structural.go:154-170 | the leading step-sized parts concatenate to the paragraph |
| StructuralSplitter.MergeAndSplit | internal/splitter/structural.go:99-151 | the chunks are those of a run over all paragraphs, state by state, with the final flush; what is merged and carried over is stated next |
| StructuralSplitter.GreedySays | internal/splitter/structural.go:104-144 | greedily means: only too long paragraphs are cut, each further paragraph of a group fits behind the text so far, and the first one of a group behind another did not fit into that one |
| StructuralSplitter.CollectedChunkSays | internal/splitter/structural.go:120-144 | byte by byte: the paragraphs joined by single spaces, and behind a longer collected chunk its last overlap bytes and two spaces before them |
| StructuralSplitter.MergedChunks | internal/splitter/structural.go:99-151 | of the returned chunks: consecutive indices, bounded sizes, no fitting paragraph cut, and exactly when one is empty |
| StructuralSplitter.MergedChunksReassemble | internal/splitter/structural.go:99-151 | the paragraphs are grouped in order, greedily; dropping from each chunk what it carries over gives back all paragraphs joined group by group, and long ones from the leading parts of their pieces |
| StructuralSplitter.ChunksAreBounded | internal/splitter/structural.go:99-151 | indices are consecutive and no chunk exceeds size + overlap + 2 |
| StructuralSplitter.ShortParagraphsStayWhole | internal/splitter/structural.go:120-144 | every non-empty paragraph that fits occurs whole in some chunk |
| StructuralSplitter.EmptyChunkIff | internal/splitter/structural.go:120-124 | an empty chunk is emitted exactly when a paragraph of the chunk size starts the run or follows a long one |
| Approval.RunInv | examples/ai-customer-bot/human_review.go:81-213 | the invariant every interleaving of decisive submissions keeps |
| Approval.SubmissionDecides | examples/ai-customer-bot/human_review.go:179-213 | a submission in time to a pending registered request makes its decision the status and sends it if there is room; too late it expires the request; otherwise nothing happens |
| Approval.SentWasSubmitted | examples/ai-customer-bot/human_review.go:121-213 | in any run, from any state, a decision sent other than the expiry was sent before or submitted in time for that request |
| Approval.CallerGetsWhatWasSubmitted | examples/ai-customer-bot/human_review.go:121-213 | from the start: what a caller gets is the expiry or was submitted in time for its request |
| Approval.AtMostOneResponse | examples/ai-customer-bot/human_review.go:121-172 | at most one response per request is ever sent, it is the stored status, and it is what the caller gets |
| Approval.DecidedStaysDecided | examples/ai-customer-bot/human_review.go:179-204 | a status that has left pending never changes again |
| Approval.LockHolderIsNeverBlocked | examples/ai-customer-bot/human_review.go:130-163 | the goroutine holding the lock at its send always finds room in the channel |
| Approval.SomeStepIsPossible | examples/ai-customer-bot/human_review.go:99-172 | while a timeout goroutine is not through or a caller is leaving, some thread can step |
| Approval.WaiterIsAnsweredUnlessExpiredLate | examples/ai-customer-bot/human_review.go:188-191 | after the timeout goroutine a waiting caller has its response exactly unless a late submission expired the request |
| Approval.LateExpiryIsNeverAnswered | examples/ai-customer-bot/human_review.go:188-191 | after a late submission no response is ever sent or received |
| Approval.PendingDecisionCanDeadlock | examples/ai-customer-bot/human_review.go:193-210 | a concrete run with the pending decision into a state without any possible step |
| Approval.NoStepIsPossibleIff | examples/ai-customer-bot/human_review.go:121-210 | whatever was submitted, no thread can step exactly when a timeout goroutine holds the lock before a full channel and nobody waits |
| Approval.CanStandStillIff | examples/ai-customer-bot/human_review.go:121-210 | some run submitting only given decisions comes to a standstill exactly when the pending one is among them |
| Approval.LateSubmissionLeavesTheCallerWaiting | examples/ai-customer-bot/human_review.go:188-191 | a run with a late submission that ends with the caller waiting, the timeout goroutine through and nothing to receive |
| Failover.ContainsAny | pkg/routing/router.go:138-151 | substring search, never matching the empty string |
| Failover.DetermineFallbackReason | pkg/routing/failover.go:172-202 | the first matching class; never quality, and none only without an error |
| Failover.ClassSays | pkg/routing/failover.go:172-202 | each class by the texts an error contains |
| Failover.FallbackSays | pkg/routing/router.go:83-126 | the fallback is the first model registered one tier down, at the economy tier the first of that tier, for quality one tier up, and the model itself where none is registered |
| Failover.CalculateRetryDelay | pkg/routing/failover.go:205-220 | the capped delay, cut to whole milliseconds |
| Failover.DelaySays | pkg/routing/failover.go:205-220 | the uncapped delay starts at the configured one and is multiplied from attempt to attempt; the wait is the lesser of it and the cap, cut to whole milliseconds |
| Failover.ExecuteWithFailover | pkg/routing/failover.go:71-169 | which models are called, how often, how the loop ends, what it returns and every wait |
| Failover.NextCallGoes | pkg/routing/failover.go:87-163 | along a run: which model is called after a failed call, with and without hot switching |
| Failover.PersistentFailureUsesTheBudget | pkg/routing/failover.go:87-169 | exactly maxRetries + 1 calls if all fail and nothing is cancelled |
| Failover.TiersNeverDecrease | pkg/routing/router.go:83-126 | along the calls tiers never decrease, move at most one per call and not past the economy tier |
| Failover.RegistriesFileByTier | pkg/routing/model.go:214-221 | registering any models one after another files each under its own tier, which is what the fallback relies on |
| Failover.DelaysGrow | pkg/routing/failover.go:205-211 | with a multiplier of at least one delays do not shrink and stay within cap and uncapped value |
| Failover.TotalWaitIsCapped | pkg/routing/failover.go:111-163 | the total wait is at most the number of waits times the cap |
| Failover.TotalWaitIsGeometric | pkg/routing/failover.go:205-220 | and at most the geometric sum |
| Failover.WaitsOfARunAreBounded | pkg/routing/failover.go:87-169 | the waits of any run, however it ends, add up to at most maxRetries times the cap and at most the geometric sum over maxRetries |
| Advisor.BetterIsAStrictOrder | pkg/routing/advisor_noop.go:131-152 | irreflexive, asymmetric, transitive, and total on different capability identifiers |
| Advisor.SelectBestCandidate | pkg/routing/advisor_noop.go:120-128 | an unbeaten candidate |
| Advisor.SelectedSays | pkg/routing/advisor_noop.go:117-152 | the selected candidate has the least positive rank if any is ranked, otherwise the highest score; none that ties with it has a smaller identifier |
| Advisor.LessIff | pkg/routing/advisor_noop.go:140-151 | identifiers are compared at their first difference |
| Advisor.SelectionIsOrderIndependentIff | pkg/routing/advisor_noop.go:120-128 | every permutation gives the same selection exactly when one candidate is unbeaten |
| Advisor.SelectionIgnoresOrder | pkg/routing/advisor_noop.go:120-152 | distinct identifiers make the selection order-independent |
| Advisor.UnrankedFirstIsSelectedIff | pkg/routing/advisor_noop.go:117-151 | without ranks the first candidate is selected exactly when none has a higher score, nor the same score and a smaller identifier |
| Advisor.UnrankedFirstIsNotAlwaysSelected | pkg/routing/advisor_noop.go:117-128 | two unranked candidates of which the second is selected |
| Advisor.SortedPermutationIsUnique | pkg/routing/advisor_hash.go:88-91 | whatever sorting does, the result is determined when the key tells elements apart |
| Advisor.TiesAllowTwoSortings | pkg/routing/advisor_hash.go:88-91 | and only then |
| Advisor.HashIgnoresOrder | pkg/routing/advisor_hash.go:60-117 | the hash ignores the order of candidates and of reason codes when equal identifiers mean equal candidates, in particular when they are distinct |
| Advisor.HashIgnoresOrderOfDistinctIDs | pkg/routing/advisor_hash.go:60-117 | the case of distinct identifiers |
| Advisor.HashBindsTheDecision | pkg/routing/advisor_hash.go:83-117 | two decisions with one hash agree in header, selection and candidates up to order, or their printed texts collide |
| Advisor.TamperingIsDetected | pkg/routing/advisor_hash.go:119-135 | a decision changed in header, selection or candidates, other than in order, no longer verifies under its recorded hash, unless the texts collide |
| Advisor.VerificationSays | pkg/routing/advisor_hash.go:119-135 | when a decision verifies and which error it fails with |
| Advisor.FallbackReasonsAreNotCovered | pkg/routing/advisor_hash.go:28-43 | a verified decision verifies with any other fallback reason codes |
| Advisor.ChangedDecisionVerifiesIff | pkg/routing/advisor_hash.go:83-135 | without collision and when identifiers decide, a changed decision verifies exactly when header, selection and candidates are the same up to order |
| Advisor.Decide | pkg/routing/advisor_noop.go:62-109 | the whole decision: the selection, each header field with its default, and a hash that verifies; and that it fails exactly without candidates or when the marshaller does |
| Advisor.ReorderedDecisionVerifies | pkg/routing/advisor_hash.go:121-135 | a verified decision still verifies after reordering |

## Left out

- Adding nodes and edges one at a time: the constructor takes the assembled graph. Index entries made by
  adding a node point into a slice that later additions may reallocate, and are rebuilt by `BuildIndex`.
- Node type, configuration, tool and workflow names: carried along unread.
- Duplicate node identifiers during a run: the model of the marks starts from a usable index; building and
  sorting accept any graph.
- Update in place of nested JSON maps by the masks: payloads are values here, and a masked payload is a new value.
- JSON details below the codec laws: duplicate keys, case-insensitive field matching, invalid UTF-8, number ranges.
- The job metadata summary: the metadata file is an opaque text that verification never parses.
- Reading and writing files and ZIP archives: contents are parameters. The event and ledger stores are what they answer.
- Effects under concurrent calls: execution checks and stores under separate lock acquisitions, so the at-most-once
  claim is sequential, as here. Timestamps and durations of results are not modelled.
- The timed tool wrapper: it follows the same course as the plain one, the timeout being part of the request only.
- Time, random and sleep effects: they never complete their stored results, so replay claims do not cover them.
- The in-memory tool ledger of the domain package: lookups and status changes that would only add easy members.
- Rune counts of structural chunks and chunk identifiers; splitting a text into paragraphs.
- The text of approval comments, approver names and update times; a timeout and a cancellation take the same step.
- Model selection strategies before the failover loop, and the tier of a model changing while the loop runs.
- Floating-point rounding, infinities and not-a-number scores.
- Metrics, HTTP handlers, other commands, configuration and storage back ends.
