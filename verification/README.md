# Verified core of the migration control plane

A Dafny model of the parts of the control plane whose correctness is not visible from any one function: the
strict-schema compiler and the governed model call, the process supervisor and its idempotent worker, the append-only
artifact store, the hash-chained audit trail, command templates, runtime versions and certification, and the repair
lifecycle. Each module follows one component of the backend.

`dafny verify dfyconfig.toml` checks the whole project.

## How the pieces are modelled

- **Strict schemas** (`Json`, `StrictSchema`, `SchemaMeaning`, `SchemaReading`, `SchemaNarrowing`, `SchemaWidening`).
  JSON documents keep their members in insertion order. The recursive compiler takes the interpreter's recursion limit
  as an argument, so a cyclic `$ref` fails rather than diverges. `SchemaMeaning` gives an independent validation
  semantics after JSON Schema 2020-12 in two readings: *open*, as the standard says (`SchemaReading` spells it out keyword
  by keyword), and *closed*, as strict output behaves. Assertion keywords (`type`, `enum`, ...) have an arbitrary meaning,
  so the theorems hold for every one of them. Compiling means exactly the closed reading, and the closed reading only
  narrows the open one.
- **Governed call** (`Usage`, `GovernedCall`). The provider is any function from attempts to outcomes; costs are reals.
- **Supervisor** (`Supervisor`). Two readers and one consumer as interleaved atomic steps; appending to the shared list
  and putting on the queue are separate steps. The decoder is any incremental decoder. `Supervise` is the consumer's
  loop under an arbitrary schedule, and every schedule is shown to be a run of the step relation.
- **Execution worker** (`ExecutionWorker`). A class with the record dictionary; runs are sequences of invocations. Both
  the supervisor and the writing of the log may raise.
- **Artifact store** (`StoreNames`, `ArtifactStore`, `ArtifactListing`, `ArtifactOrder`, `ArtifactCrash`, `LocalStore`).
  The file system below one run root is a map from paths to bytes, and the store is a map from runs to those. Runs of
  writes, and runs in which every write stops at an arbitrary point, are sequences of states.
- **Audit trail** (`AuditTrail`). Rows in their database order; the digest is an injective function of the canonical
  content.
- **Command templates** (`CommandTemplates`). The matcher is modelled as the source builds it: escape the pattern,
  replace escaped placeholders, parse the result as a regular expression.
- **Versions, certification, resolution** (`Decimals`, `Versions`, `RuntimeCertification`, `RuntimeResolution`).
- **Repair lifecycle and validation targets** (`RepairLifecycle`, `ValidationTargets`).
- `Orders`, `Text` and `Wrappers` hold what several of them share.

## Where the code does less than one would expect

- The listing is not exact for all names: a stored `.meta.json` makes it fail, and a stored `b.meta.json.meta.json` next
  to `b` makes it fail or list too much (`ArtifactListing.ListingExact` gives the exact condition).
- An envelope written with an empty `created_by` or `policy_version` comes back with the defaults, and text with a
  carriage return comes back with line feeds (`ArtifactStore.EnvelopeRoundTrip`, `ArtifactStore.TextRoundTrip`).
- The listing is documented as ordered by relative path but sorts the sidecars' paths: `plan.json` comes before `plan`.
  `ArtifactOrder.OvertakesIff` says for which pairs, `ArtifactOrder.DocumentedListingIff` for which stores.
- After stops, the listing is exact if and only if no payload, orphans included, is named like the sidecar of a file that
  exists (`ArtifactCrash.CrashRunLists`); `ArtifactCrash.OrphanTakenOver` shows how the name search grants such a name.
- Compilation may fail to narrow where a reference has siblings, where `required` names something outside `properties`,
  and where an enumerated value is an object. At the root of a document it narrows exactly if the siblings allow
  whatever the compiled definition accepts (`SchemaWidening.RefNarrowsIff`), if `required` stays inside `properties` or
  the output accepts no object (`SchemaWidening.RequiredNarrowsIff`), and, for a bare enumeration, if every listed value
  compiles to a listed one (`SchemaWidening.EnumerationNarrowsIff`). `SchemaWidening.RefSiblingWidens`,
  `SchemaWidening.RequiredNameWidens` and `SchemaWidening.EnumeratedObjectWidens` are instances where it does not.
- The enlarged budget and the low-effort controls go with the second attempt whatever made the first one fail.
- An audit entry whose (time, id) does not come after every stored row breaks the trail, and nothing appended later
  mends it (`AuditTrail.AppendsIntactIff`).
- The argument matcher accepts lists no bindings can render: repeated placeholders with different texts, and quotes
  (`CommandTemplates.RenderableIff` gives the exact condition).
- The repair statuses applying and applied cannot be reached (`RepairLifecycle.ReachableIff`).
- The second RxJS minimum, 7.4.0, never decides, because 6.5.3 already admits every later version
  (`RuntimeResolution.SourceAllowedIff`).
- A run whose supervisor raises something other than OSError, or whose log cannot be written after the process was
  started, is not recorded, so its key can start again: at most once exactly if at most one call with the key is approved
  up to and including the first that is remembered (`ExecutionWorker.StartedAtMostOnceIff`);
  `ExecutionWorker.RaisingLogStartsAgain` is an instance with two starts.

## Model

| member | source | states |
|---|---|---|
| `StrictSchema.VisitStrict` | backend/app/llm_gateway/azure_gateway.py:635-674 | Whatever compiles is strict at every schema position: no `$ref`, `$defs` or stripped keyword (property names are untouched), every object node closed with `required` equal to its sorted property names |
| `StrictSchema.CompiledNode` | backend/app/llm_gateway/azure_gateway.py:624-674 | Every compiled object lacks each of the eighteen stripped keywords by name, and one that describes objects has `additionalProperties` false and `required` rebuilt from its properties |
| `StrictSchema.RequiredIsSorted` | backend/app/llm_gateway/azure_gateway.py:670-670 | `required` lists exactly the property names, each as often as it occurs, in code point order |
| `StrictSchema.FixedIffStrict` | backend/app/llm_gateway/azure_gateway.py:635-674 | With enough recursion headroom, the documents the compiler leaves unchanged, member order included, are exactly the strict ones |
| `StrictSchema.CompileIdempotent` | backend/app/llm_gateway/azure_gateway.py:631-674 | Compiling the output again, against its own definitions, gives the same document |
| `StrictSchema.CompileTerminates` | backend/app/llm_gateway/azure_gateway.py:631-674 | With a rank that falls along references between the definitions the document reaches, compilation ends within the document height plus rank times definitions height |
| `StrictSchema.CyclicNeverCompiles` | backend/app/llm_gateway/azure_gateway.py:640-642 | A document that reaches a cycle of definitions compiles under no recursion limit |
| `StrictSchema.CompileSucceedsIff` | backend/app/llm_gateway/azure_gateway.py:635-674 | With enough recursion headroom, compilation succeeds exactly when no position reached, through references included, is a dynamic dictionary, has `properties` that are no object or refers into definitions that are no object; a rejection names a flaw the document has |
| `StrictSchema.CompilableIff` | backend/app/llm_gateway/azure_gateway.py:631-674 | Some recursion limit compiles the document if and only if its reachable references can be ranked, so that none leads into a cycle, and no flaw is reachable |
| `StrictSchema.BareObjectIff` | backend/app/llm_gateway/azure_gateway.py:643-653 | An object node without `properties` is rejected as a dynamic dictionary unless its `additionalProperties` is `false`, and then compiles whenever its members do |
| `StrictSchema.SuccessReachesNoFlaw` | backend/app/llm_gateway/azure_gateway.py:640-653 | A successful visit has no flaw along any chain of references |
| `StrictSchema.RejectionReachesFlaw` | backend/app/llm_gateway/azure_gateway.py:640-653 | A rejection other than exhausted recursion comes with a chain of references that leads to a flaw of that kind |
| `StrictSchema.SuccessVisitsReferences` | backend/app/llm_gateway/azure_gateway.py:640-642 | A successful visit has successfully compiled every definition it refers to, strictly deeper |
| `StrictSchema.ReferenceCompiles` | backend/app/llm_gateway/azure_gateway.py:640-642 | A reference compiles to what the definition named by its last path segment compiles to, or to `{}` where there is none |
| `StrictSchema.VisitPropertiesGet` | backend/app/llm_gateway/azure_gateway.py:658-662 | Every property survives under its own name with its own compiled schema, whatever it is called |
| `StrictSchema.VisitFieldsGet` | backend/app/llm_gateway/azure_gateway.py:654-666 | A keyword is in the output exactly when it was in the input and is not dropped, with its compiled value |
| `StrictSchema.CloseShape` | backend/app/llm_gateway/azure_gateway.py:667-671 | Closing keeps the properties and all other members and seals the node over exactly those properties |
| `SchemaNarrowing.CompileMeansClosed` | backend/app/llm_gateway/azure_gateway.py:631-674 | For every instance: the compiled document accepts it if and only if the closed reading of the original, with its definitions, accepts it |
| `SchemaNarrowing.CompileSound` | backend/app/llm_gateway/azure_gateway.py:624-674 | On the fragment with lone references and `required` inside `properties`, asked of the document and the definitions it can reach, everything the compiled document accepts, the original accepts with the dropped keywords erased |
| `SchemaMeaning.Exact` | backend/app/llm_gateway/azure_gateway.py:635-672 | The same equivalence for one visit at any position and any evaluation depths that suffice |
| `SchemaNarrowing.ClosedNarrows` | backend/app/llm_gateway/azure_gateway.py:640-642 | Inlining references and closing objects only ever removes instances |
| `SchemaNarrowing.Monotone` | backend/app/llm_gateway/azure_gateway.py:635-672 | A deeper evaluation never rejects what a shallower one accepted, in both readings |
| `SchemaWidening.RequiredOutsideProperties` | backend/app/llm_gateway/azure_gateway.py:670-670 | If `required` names something outside `properties`, no object satisfies both the compiled node and the original |
| `SchemaWidening.RequiredNarrowsIff` | backend/app/llm_gateway/azure_gateway.py:667-671 | A document whose members are in the strict fragment widens nothing if and only if its own `required` stays inside its properties or its output accepts no object |
| `SchemaWidening.RequiredNameWidens` | backend/app/llm_gateway/azure_gateway.py:670-670 | The same for `required` naming something outside `properties`, under every meaning of the assertion keywords |
| `SchemaWidening.RefSiblingsAreLost` | backend/app/llm_gateway/azure_gateway.py:640-642 | A reference compiles to its compiled definition whatever its siblings say, while the original rejects what a sibling forbids |
| `SchemaWidening.RefNarrowsIff` | backend/app/llm_gateway/azure_gateway.py:640-642 | A document that is a reference with any siblings widens nothing if and only if the siblings allow every instance the compiled definition accepts |
| `SchemaWidening.RefSiblingWidens` | backend/app/llm_gateway/azure_gateway.py:640-642 | A concrete document with a sibling beside `$ref`: it compiles, and the output accepts an instance the document rejects |
| `SchemaWidening.EnumeratedValuesAreRewritten` | backend/app/llm_gateway/azure_gateway.py:635-666 | In any document, the compiled enumeration lists the compiled values, and the original rejects such a value unless it was listed too |
| `SchemaWidening.EnumerationNarrowsIff` | backend/app/llm_gateway/azure_gateway.py:635-666 | Compiling an enumeration narrows it if and only if every listed value compiles to a listed value |
| `SchemaWidening.EnumeratedObjectWidens` | backend/app/llm_gateway/azure_gateway.py:655-656 | A concrete enumeration of one object: it compiles, and the output accepts an instance the document rejects |
| `SchemaWidening.CompiledBareObjects` | backend/app/llm_gateway/azure_gateway.py:643-653 | An object node without `properties` that compiles accepts no object but the empty one, as the original reads |
| `GovernedCall.RetryBudgetGrows` | backend/app/llm_gateway/azure_gateway.py:583-585 | The enlarged budget is above the requested one exactly below 32768, and never above 32768 |
| `GovernedCall.RetryBudgetIs` | backend/app/llm_gateway/azure_gateway.py:583-585 | The enlarged budget is twice the requested one, or 1024 more if that is more, up to 32768 |
| `GovernedCall.TokenLimitedIff` | backend/app/llm_gateway/azure_gateway.py:587-589 | Of all errors a response state raises, those seen as token-limited are exactly the incomplete ones without an error envelope whose reason, read over unsafe characters, begins with `max_output_tokens` |
| `GovernedCall.LimitReasons` | backend/app/llm_gateway/azure_gateway.py:587-589 | The reason `max_output_tokens` counts as token-limited; `content_filter` and no reason do not |
| `GovernedCall.MessageIsCut` | backend/app/llm_gateway/azure_gateway.py:772-775 | The message reports the safe characters of the reason, at most eighty |
| `GovernedCall.CallLoop` | backend/app/llm_gateway/azure_gateway.py:478-524 | The loop ends, computes the recursive retry semantics and sends exactly its requests, at most max(2, retries + 1); it returns a usage if and only if the deciding attempt got a usable response within the budgets, and that usage reports the response's tokens and their price |
| `GovernedCall.AfterAttemptAgrees` | backend/app/llm_gateway/azure_gateway.py:511-520 | The two interacting raise conditions amount to: a token-limited response is retried once from the first attempt, other errors while retryable and within the allowance |
| `GovernedCall.CallSucceedsIff` | backend/app/llm_gateway/azure_gateway.py:489-522 | For every provider: the call succeeds if and only if the attempt that decides it replied with status completed or none, no error envelope and no problem, and the run's totals with it stay within the budgets |
| `GovernedCall.ContinuesIff` | backend/app/llm_gateway/azure_gateway.py:511-522 | An attempt is followed by another exactly for a token-limited response to the first one, or another passing error while the allowance lasts, read off the provider's outcome |
| `GovernedCall.Gateway.Complete` | backend/app/llm_gateway/azure_gateway.py:478-524 | Result, success condition and requests as above; the remembered manifest is that of the last request sent, or unchanged |
| `GovernedCall.SendsShape` | backend/app/llm_gateway/azure_gateway.py:478-491 | For all outcomes: attempt numbers increase below the bound, and the enlarged budget and controls go with attempt 1 and no other |
| `GovernedCall.SendsIff` | backend/app/llm_gateway/azure_gateway.py:479-489 | The requests sent are those of exactly the attempts, up to the deciding one, that reach the transport |
| `GovernedCall.RequestsAreJustified` | backend/app/llm_gateway/azure_gateway.py:511-522 | Every attempt before a request that was sent is one the rules allow to be retried |
| `GovernedCall.TokenLimitRetriedOnce` | backend/app/llm_gateway/azure_gateway.py:513-517 | A token-limited response from the second attempt on ends the call with a retryable error carrying its attempt |
| `GovernedCall.TokenLimitEarnsARetry` | backend/app/llm_gateway/azure_gateway.py:493-500 | From the first attempt it is retried even with a transport allowance of zero |
| `GovernedCall.TransientIsRetried` | backend/app/llm_gateway/azure_gateway.py:518-524 | An error that may pass, below the allowance, leads to another attempt |
| `GovernedCall.ReturnedIsAdmitted` | backend/app/llm_gateway/azure_gateway.py:505-510 | A returned usage was admitted together with all usages before it and has no failed calls |
| `GovernedCall.BudgetsHold` | backend/app/llm_gateway/azure_gateway.py:505-510 | Over every sequence of calls for any mix of runs, no run's returned usages exceed a positive token or cost budget |
| `Usage.AdmittedIff` | backend/app/llm_gateway/mock_gateway.py:233-288 | A call is admitted exactly within the token budget and, unless failed calls pre-empt the check, within the cost budget |
| `Usage.DecisionIff` | backend/app/llm_gateway/mock_gateway.py:233-288 | Each budget decision, its precedence and its thresholds in terms of the run's totals |
| `Usage.TotalsSplit` | backend/app/llm_gateway/mock_gateway.py:215-230 | Totals of a run add up over any split of the records, whatever records of other runs lie between |
| `Supervisor.StepKeepsInv` | backend/app/command_execution/worker.py:630-676 | Every step of a reader or the consumer keeps the invariant: per stream, decoded, appended and put texts differ only by the item in hand; sentinels balance finished readers |
| `Supervisor.RunKeepsInv` | backend/app/command_execution/worker.py:630-676 | The same over every interleaving |
| `Supervisor.ExitDeliversEverything` | backend/app/command_execution/worker.py:630-681 | In every interleaving, when the consumer leaves the queue is empty and each stream's decoded texts were appended once and delivered once, in order |
| `Supervisor.ConsumerNeverStarves` | backend/app/command_execution/worker.py:661-676 | Once both readers have finished the consumer always finds a message |
| `Supervisor.NeverStuck` | backend/app/command_execution/worker.py:630-676 | From every reachable state a bounded continuation without further input lets the consumer leave |
| `Supervisor.QuietRunsEnd` | backend/app/command_execution/worker.py:630-676 | Every continuation without further input, cancellation or expiry, in any interleaving, has at most the remaining number of steps |
| `Supervisor.StoppedIsFinished` | backend/app/command_execution/worker.py:661-676 | A reachable state in which no such step is possible is one the consumer has left with both sentinels |
| `Supervisor.PlayedIsARun` | backend/app/command_execution/worker.py:661-676 | Every schedule of thread turns and consumer passes is an interleaving of the protocol's steps |
| `Supervisor.Supervise` | backend/app/command_execution/worker.py:630-702 | There is a result exactly when the schedule closes both streams; stdout and stderr consist of the decoded texts, each at the offset the lengths before it give, the callback's calls are all of them in order, and the status follows cancellation, then the exit code |
| `Supervisor.ConcatJoins` | backend/app/command_execution/worker.py:680-681 | Joining puts each text after those before it, and nothing else |
| `Supervisor.ConcatAppend` | backend/app/command_execution/worker.py:680-681 | Joining more texts appends their joining |
| `Supervisor.ConsumerPass` | backend/app/command_execution/worker.py:661-676 | One pass records cancellation and deadline, takes at most one message, and calls back exactly for text |
| `Supervisor.CrossStreamOrderMayDiffer` | backend/app/command_execution/worker.py:638-643 | A run in which the shared list and the queue order the two streams differently |
| `ExecutionWorker.Worker.Run` | backend/app/command_execution/worker.py:786-872 | Answer and new records are those of the specification: replay, rejection, start failure, result, or nothing remembered when the supervisor or the log write raises |
| `ExecutionWorker.Worker.Record` | backend/app/command_execution/worker.py:874-911 | A log that can be written gives the execution, which is remembered under a non-empty key; one that cannot leaves the records as they were |
| `ExecutionWorker.Worker.Remember` | backend/app/command_execution/worker.py:923-925 | A result is recorded under (run id, key) exactly when the key is not empty |
| `ExecutionWorker.StartCount` | backend/app/command_execution/worker.py:786-872 | Over every sequence of runs a key starts exactly once for each run that started and left nothing remembered, and once more exactly if its record is no rejection |
| `ExecutionWorker.StartsAreOpenCalls` | backend/app/command_execution/worker.py:786-872 | Read off the calls alone: a key starts once for each approved call with it up to and including the first that is remembered |
| `ExecutionWorker.StartedAtMostOnceIff` | backend/app/command_execution/worker.py:786-872 | A key starts at most once if and only if at most one call with it is approved up to and including the first that is remembered |
| `ExecutionWorker.RecordedIffSettled` | backend/app/command_execution/worker.py:918-925 | A key has a record if and only if some call with it neither raised nor failed to log |
| `ExecutionWorker.AtMostOneStart` | backend/app/command_execution/worker.py:786-872 | If the supervisor returns or raises OSError and the log can be written, one start per (run id, key) at most |
| `ExecutionWorker.RaisingLogStartsAgain` | backend/app/command_execution/worker.py:855-872 | If the log write raises, an approved key starts a second time |
| `ExecutionWorker.RecordsPersist` | backend/app/command_execution/worker.py:918-925 | A record never changes once made |
| `ExecutionWorker.LaterRunsReplay` | backend/app/command_execution/worker.py:795-805 | Later requests with a key get the first result marked as a replay, rejections included, whatever else they say |
| `ExecutionWorker.ReplayHasSource` | backend/app/command_execution/worker.py:918-925 | Only an earlier request with the same run id and the same key can be replayed |
| `ExecutionWorker.NoKeyNoStart` | backend/app/command_execution/worker.py:301-306 | A request whose key is empty or blank never starts a process; unless replayed it is rejected whenever its log can be written |
| `ExecutionWorker.ApprovedIff` | backend/app/command_execution/worker.py:301-320 | A request is approved exactly if it asks for no shell, has a key that is not blank, a positive timeout after the default has been applied, registered profiles, the supported cancellation policy, and passes the remaining checks |
| `ExecutionWorker.UncheckedNeverStarts` | backend/app/command_execution/worker.py:301-314 | A run that fails any of the fixed checks starts no process, whatever has been recorded |
| `StoreNames.ResolveAvailable` | backend/app/artifact_store/local_store.py:186-201 | The search ends and returns the candidate if free, else the least version from 2 up with both names free, at most the number of files plus 2 |
| `StoreNames.BlocksOne` | backend/app/artifact_store/local_store.py:192-201 | One file stands in the way of at most one version |
| `StoreNames.AvailableUnique` | backend/app/artifact_store/local_store.py:186-201 | The specification of the search determines its result |
| `StoreNames.VersionedIsPlain` | backend/app/artifact_store/local_store.py:197-197 | A numbered name never ends in `.meta.json` |
| `StoreNames.VersionedName` | backend/app/artifact_store/local_store.py:193-197 | The number goes before the last extension: `base.ext` becomes `base__v2.ext` |
| `StoreNames.VersionedBare` | backend/app/artifact_store/local_store.py:193-197 | A name without an extension gets the number at its end |
| `StoreNames.SidecarBase` | backend/app/artifact_store/local_store.py:249-255 | Going to the sidecar and back is the identity both ways, and a sidecar is never its own payload |
| `ArtifactStore.WriteAddsTwoFiles` | backend/app/artifact_store/local_store.py:95-146 | A write creates exactly two files that were absent and leaves every other file as it was |
| `ArtifactStore.WriteKeepsInv` | backend/app/artifact_store/local_store.py:95-146 | The files stay exactly the payloads and sidecars of the artifacts written, all intact |
| `ArtifactStore.RunInv` | backend/app/artifact_store/local_store.py:95-146 | The same at every point of every run of writes |
| `ArtifactStore.ReadBack` | backend/app/artifact_store/local_store.py:278-315 | An intact artifact reads as its ref, its text with normalised newlines and its envelope with defaults |
| `ArtifactStore.EarlierArtifactsStayReadable` | backend/app/artifact_store/local_store.py:162-166 | In every run each artifact keeps its bytes and reads back at every later point |
| `ArtifactStore.ReadCarriesRequest` | backend/app/artifact_store/local_store.py:278-315 | What is read back is what the writing request said, defaults and stage included, at the granted path, with the digest of the stored bytes; its text is unchanged without carriage returns, and each CR LF and lone CR of it is one line feed |
| `ArtifactStore.StageIff` | backend/app/artifact_store/local_store.py:329-333 | The stage of a path is what follows `stages`, else the layout folder it begins with |
| `ArtifactStore.ContentTypes` | backend/app/artifact_store/local_store.py:335-345 | Which artifact types get each content type |
| `ArtifactStore.TextRoundTrip` | backend/app/artifact_store/local_store.py:312-312 | Text comes back unchanged exactly when it has no carriage return |
| `ArtifactStore.CrLfIsOne` | backend/app/artifact_store/local_store.py:312-312 | CR LF comes back as one line feed, wherever it stands |
| `ArtifactStore.LoneCrIsOne` | backend/app/artifact_store/local_store.py:312-312 | A carriage return without a line feed after it comes back as a line feed |
| `ArtifactStore.EnvelopeRoundTrip` | backend/app/artifact_store/local_store.py:284-298 | An envelope comes back unchanged exactly when producer and policy version are not empty |
| `ArtifactListing.ListingExact` | backend/app/artifact_store/local_store.py:148-160 | For completed writes the listing is exactly the written refs, in the order of the sidecars' paths, if and only if no stored name is `.meta.json` and no two are `b` and `b.meta.json.meta.json`; otherwise it fails or has too many entries |
| `ArtifactListing.ListingIff` | backend/app/artifact_store/local_store.py:148-160 | With orphans and leftover temporary files present as well: the listing is exactly the artifacts if and only if no payload is named like the sidecar of a file that exists |
| `ArtifactListing.CleanIff` | backend/app/artifact_store/local_store.py:252-255 | For completed writes that condition is the one on names alone |
| `ArtifactListing.RunListing` | backend/app/artifact_store/local_store.py:148-160 | The same after every run of writes |
| `ArtifactListing.PlainNamesAreClean` | backend/app/artifact_store/local_store.py:148-160 | Names that do not end in `.meta.json` always list exactly |
| `ArtifactListing.ConfusingNameIsGranted` | backend/app/artifact_store/local_store.py:190-191 | Next to plain artifacts the name search does hand out the confusing name |
| `ArtifactOrder.OvertakesIff` | backend/app/artifact_store/local_store.py:154-154 | Two paths and their sidecars compare differently exactly when the first name begins the corresponding part of the other and what follows there, in the sidecar, sorts below `.meta.json` |
| `ArtifactOrder.DocumentedListingIff` | backend/app/artifact_store/local_store.py:148-160 | After every run of writes the listing is, as documented, all refs ordered by relative path if and only if the names are clean and none overtakes another |
| `ArtifactOrder.PlanIsOvertaken` | backend/app/artifact_store/local_store.py:149-154 | `plan` and `plan.json` in one directory are listed in the wrong order |
| `Orders.LexLeqIff` | backend/app/artifact_store/local_store.py:154-154 | Sequences compare at their first difference, and one that begins the other comes first |
| `ArtifactCrash.CrashRunLists` | backend/app/artifact_store/local_store.py:144-160 | At every point of every run with any stops and any names: the listing is exactly the completed artifacts if and only if no payload, orphans included, is named like the sidecar of a file that exists; otherwise it fails or has too many entries |
| `ArtifactCrash.CrashRunInv` | backend/app/artifact_store/local_store.py:317-321 | At every point of every such run the completed artifacts are intact and every other file is their sidecar, an orphan or a leftover temporary file |
| `ArtifactCrash.StopKeepsAccount` | backend/app/artifact_store/local_store.py:144-145 | One attempt, stopped anywhere, adds exactly an artifact, an orphan, a leftover or nothing |
| `ArtifactCrash.PlainRunsAreUnmistaken` | backend/app/artifact_store/local_store.py:190-201 | Candidates that do not end in `.meta.json` always meet the condition, so their runs list exactly the completed artifacts |
| `ArtifactCrash.CompletedReadsBack` | backend/app/artifact_store/local_store.py:162-166 | A completed write keeps its bytes and reads back at every later point, whatever stops follow and whatever the names |
| `ArtifactCrash.ListedMatchHash` | backend/app/artifact_store/local_store.py:278-283 | Whatever the store holds, a listing that succeeds gives each ref a payload with that checksum |
| `ArtifactCrash.StopKeepsOrphan` | backend/app/artifact_store/local_store.py:190-201 | No write is granted an orphan's path, whatever the names; the orphan stays one exactly unless the write's payload takes its sidecar's name |
| `ArtifactCrash.OrphanForever` | backend/app/artifact_store/local_store.py:190-201 | Over every run an orphan's bytes stay, its path is never granted again, and it stays an orphan exactly as long as no payload takes its sidecar's name |
| `ArtifactCrash.OrphanTakenOver` | backend/app/artifact_store/local_store.py:190-191 | The name search grants an orphan's sidecar name, and the listing then fails on content that is no metadata |
| `LocalStore.LocalStore.constructor` | backend/app/artifact_store/local_store.py:79-81 | An empty, valid store |
| `LocalStore.LocalStore.AtomicWrite` | backend/app/artifact_store/local_store.py:317-321 | Temporary file and rename together change only the target |
| `LocalStore.LocalStore.WriteFiles` | backend/app/artifact_store/local_store.py:144-145 | Payload and sidecar are the only files written, in a run root that is created if missing |
| `LocalStore.LocalStore.WriteText` | backend/app/artifact_store/local_store.py:95-146 | The run gains exactly the requested artifact at the name the search determines, all other runs stay as they are, and the store stays valid |
| `LocalStore.LocalStore.ReadAt` | backend/app/artifact_store/local_store.py:162-166 | Reading the path of any artifact written to the run so far returns it |
| `LocalStore.LocalStore.List` | backend/app/artifact_store/local_store.py:148-160 | The listing of a run is exactly what was written to it, in sidecar order, if and only if its names are clean; a run without a root lists nothing |
| `LocalStore.LocalStore.ReadById` | backend/app/artifact_store/local_store.py:168-180 | Searching all runs: with clean names and distinct ids an id finds its artifact in whichever run; an id never written finds nothing |
| `LocalStore.ListSorted` | backend/app/artifact_store/local_store.py:154-160 | The accumulating loop computes the listing, stopping at the first unreadable entry |
| `LocalStore.SearchById` | backend/app/artifact_store/local_store.py:173-180 | The loop returns the first readable match in directory order, or the first error met before it |
| `LocalStore.FindByIdFinds` | backend/app/artifact_store/local_store.py:173-180 | In any directory order the artifact with the id is the one found |
| `LocalStore.FindByIdMisses` | backend/app/artifact_store/local_store.py:180-180 | An id that was never written is reported as not found |
| `AuditTrail.TailDeterminesTrail` | backend/app/domain/execution_audit.py:53-73 | Two trails that re-bind from GENESIS and end in one checksum have the same length and agree entry by entry in every field and in the instant, however it is written |
| `AuditTrail.TamperingShows` | backend/app/domain/execution_audit.py:57-73 | Any change of a field, an instant, the order or the number of entries breaks a link or changes the tail |
| `AuditTrail.BindIff` | backend/app/domain/execution_audit.py:57-73 | Two entries get one checksum if and only if they agree in every field, in the instant and in the checksum bound |
| `AuditTrail.BindShape` | backend/app/domain/execution_audit.py:72-73 | Binding sets the two checksums and nothing else |
| `AuditTrail.FirstEntry` | backend/app/domain/execution_audit.py:53-73 | The first entry of an intact trail is bound to GENESIS |
| `AuditTrail.KeyLeqIff` | backend/app/services/execution_audit_service.py:156-162 | Rows are ordered by instant, aware or naive, then by id |
| `AuditTrail.AppendIntactIff` | backend/app/services/execution_audit_service.py:87-139 | Appending to an intact trail keeps it intact exactly when the entry sorts after every row by (time, id) |
| `AuditTrail.OrderedAppendsStayIntact` | backend/app/services/execution_audit_service.py:87-139 | Appends in (time, id) order give an intact trail of exactly those entries |
| `AuditTrail.AppendsIntactIff` | backend/app/services/execution_audit_service.py:87-139 | Over every sequence of appends with distinct ids the trail is intact if and only if they came in (time, id) order |
| `AuditTrail.DisorderTwists` | backend/app/services/execution_audit_service.py:87-139 | Appends out of order leave, for good, a row bound to the checksum of a later row |
| `AuditTrail.TwistedIsBroken` | backend/app/services/execution_audit_service.py:163-195 | A trail with such a row is never intact |
| `AuditTrail.Trail.Append` | backend/app/services/execution_audit_service.py:87-139 | The new row is bound to the last row's checksum and stored in database order |
| `AuditTrail.VerifyTrail` | backend/app/services/execution_audit_service.py:163-203 | Intact if and only if every link holds; otherwise the reported row is the first broken one; the count is of links that hold |
| `AuditTrail.BreakFacts` | backend/app/services/execution_audit_service.py:190-195 | Counting verified rows and remembering the first broken one agree on whether the trail is intact |
| `CommandTemplates.ReadingsAgree` | backend/app/domain/command.py:194-195 | The expression built by escaping and substituting reads every pattern as the renderer does: same literals, same placeholders, and no character left that would act as an operator |
| `CommandTemplates.EscapedHoleIff` | backend/app/domain/command.py:194-195 | A placeholder starts in the escaped pattern exactly where it starts in the pattern |
| `CommandTemplates.MatchIff` | backend/app/domain/command.py:194-197 | An argument matches exactly when it is the pattern with every placeholder occurrence independently filled by a non-empty text over the match alphabet |
| `CommandTemplates.FitsIff` | backend/app/domain/command.py:195-195 | A placeholder matches any character but white space and what the planning validator takes for shell syntax |
| `CommandTemplates.FillingHasNoSpace` | backend/app/domain/command.py:169-175 | Nothing that fills a placeholder, in matching or in rendering, contains white space |
| `CommandTemplates.HoleIsRead` | backend/app/domain/command.py:152-158 | A placeholder is a lower-case letter and further letters, digits and underscores, in braces |
| `CommandTemplates.ArgumentsMatch` | backend/app/domain/command.py:190-198 | The loop accepts exactly equal counts with every argument such a filling |
| `CommandTemplates.RenderIff` | backend/app/domain/command.py:152-175 | Rendering succeeds exactly when every placeholder has an admissible binding, and the result is the filled pattern |
| `CommandTemplates.RenderArguments` | backend/app/domain/command.py:152-166 | The same for all arguments; the result always matches, so the final error is never raised |
| `CommandTemplates.RenderableIff` | backend/app/domain/command.py:152-175 | Arguments can be rendered if and only if admissible texts that agree on equal names fill the patterns to them |
| `CommandTemplates.MatchesIff` | backend/app/domain/command.py:190-198 | Arguments match if and only if texts over the match alphabet, agreeing or not, fill the patterns to them |
| `CommandTemplates.RenderableWithoutRepeats` | backend/app/domain/command.py:152-198 | Without repeated names, exactly the fillings without quotes can be rendered |
| `CommandTemplates.PatternShellFree` | backend/app/domain/planning.py:77-82 | A pattern passes the shell check exactly when its literal characters do |
| `CommandTemplates.RenderingIsShellFreeIff` | backend/app/domain/planning.py:77-82 | A rendering passes the shell check exactly when its pattern does |
| `CommandTemplates.MatcherIsLaxer` | backend/app/domain/command.py:168-198 | Two matched argument lists that no bindings render: one repeats a placeholder with different texts, one has a quote |
| `Versions.ParseStr` | backend/app/domain/execution_profile.py:31-39 | Parsing a digit-free prefix, a printed version and a suffix not starting with a digit yields the version |
| `Versions.StrRoundTrip` | backend/app/domain/execution_profile.py:31-39 | Parsing a printed version yields it |
| `Versions.ParseFinds` | backend/app/domain/execution_profile.py:31-36 | Parsing finds the leftmost version that is not part of a longer number, and fails exactly if the text has none |
| `Versions.AtLeastIsTotalOrder` | backend/app/domain/execution_profile.py:41-42 | The comparison is a total order |
| `Versions.AnyIff` | backend/app/domain/runtime_compatibility.py:37-45 | A list of ranges is equivalent to the map from each major to its least minimum |
| `Versions.BothIff` | backend/app/domain/runtime_compatibility.py:31-45 | Satisfying source and target lists is meeting, per major, the larger minimum |
| `RuntimeCertification.DecisionIff` | backend/app/domain/runtime_certification.py:41-118 | Allowed exactly for a certified profile or an in-intersection runtime whose three tools share one known runtime id; certified implies allowed; the class is UNSUPPORTED exactly when not allowed |
| `RuntimeCertification.DecisionReports` | backend/app/domain/runtime_certification.py:76-118 | A decision reports the node runtime's id and both versions without a leading v |
| `RuntimeResolution.Resolve` | backend/app/domain/execution_profile.py:148-171 | Fails on another policy version and reports source blockers; otherwise offers the profiles of exactly the candidates whose every check passes, in descending order, with status, selection and blockers following their number |
| `RuntimeResolution.CompatibleProfiles` | backend/app/domain/execution_profile.py:161-165 | The loop collects, in order, the profiles of exactly the candidates whose every check passes |
| `RuntimeResolution.EligibleDescribe` | backend/app/domain/execution_profile.py:224-239 | Every profile offered is that of a compatible candidate and repeats each of its facts under its own name |
| `RuntimeResolution.BlockerIff` | backend/app/domain/execution_profile.py:189-207 | Each reason is given exactly if its check fails |
| `RuntimeResolution.NodeAllowedIff` | backend/app/domain/execution_profile.py:195-196 | The Node versions that pass: 18 from 18.19.1, 20 from 20.11.1, and 22 |
| `RuntimeResolution.LowerIff` | backend/app/domain/execution_profile.py:193-193 | Platform names are compared letter by letter, in either case |
| `RuntimeResolution.ConcludeIff` | backend/app/domain/execution_profile.py:166-171 | All eligible profiles as a multiset, in descending order; status and selection follow their number |
| `RuntimeResolution.SourceAllowedIff` | backend/app/domain/execution_profile.py:150-159 | The source versions that pass, as plain bounds |
| `RuntimeResolution.SourceBlockerIff` | backend/app/domain/execution_profile.py:150-159 | Each reason against the source is given exactly if its check fails |
| `RuntimeResolution.BeforeIsPreorder` | backend/app/domain/execution_profile.py:166-166 | The sort key orders any two profiles, transitively |
| `RuntimeResolution.BeforeIff` | backend/app/domain/execution_profile.py:166-166 | A higher Node version comes first; among equal ones, the later profile id |
| `RuntimeResolution.StaleIff` | backend/app/domain/execution_profile.py:182-187 | With an injective digest an issued profile is current for exactly the candidates that agree on every bound field under the same policy |
| `RuntimeResolution.FreshIsNotStale` | backend/app/domain/execution_profile.py:182-187 | A profile is never stale against the candidate it was issued for |
| `RepairLifecycle.EvaluateIff` | backend/app/domain/repair_lifecycle.py:106-136 | Evaluation allows exactly the table's transitions and gives the reason that applies; sealing never hides a legal one |
| `RepairLifecycle.CanIff` | backend/app/domain/repair_lifecycle.py:71-90 | The table, read backwards: from where each status can be entered |
| `RepairLifecycle.DeadEnds` | backend/app/domain/repair_lifecycle.py:62-90 | The statuses without a way on are the sealed ones and apply_failed |
| `RepairLifecycle.ReachableIff` | backend/app/domain/repair_lifecycle.py:71-90 | A repair can get into every status but applying and applied, which nothing leads to |
| `RepairLifecycle.CanPassIff` | backend/app/domain/repair_lifecycle.py:71-90 | Validation can still be passed from exactly the statuses that are no failure and not sealed |
| `RepairLifecycle.RunLength` | backend/app/domain/repair_lifecycle.py:71-90 | For any legal run, steps plus the remaining rank are bounded by the starting rank plus two per recovery |
| `RepairLifecycle.RepairLength` | backend/app/domain/repair_lifecycle.py:71-90 | A repair takes at most 13 steps plus two per recovery |
| `RepairLifecycle.RepairLengthIsTight` | backend/app/domain/repair_lifecycle.py:71-90 | For every number of recoveries some repair takes that many steps |
| `RepairLifecycle.RevisitNeedsRecovery` | backend/app/domain/repair_lifecycle.py:71-90 | Returning to a status requires a recovery: that is the only cycle |
| `RepairLifecycle.SealedIsLast` | backend/app/domain/repair_lifecycle.py:62-68 | A sealed status ends its run |
| `RepairLifecycle.PassingOrder` | backend/app/domain/repair_lifecycle.py:71-90 | A run from frozen evidence to validation_passed goes through waiting_g10, approved_pending_execution, applied_verified and waiting_g11 in that order |
| `ValidationTargets.ExecutableGroups` | backend/app/domain/planning.py:288-306 | Succeeds exactly for supported checks, with the groups of the deduplicated executable ones; otherwise names the first unsupported check |
| `ValidationTargets.TargetUnion` | backend/app/domain/planning.py:309-346 | Fails exactly on an unsupported target or an empty union, with the code fixed by whether the first unsupported target is a policy check; otherwise returns the union |
| `ValidationTargets.RunsIff` | backend/app/domain/planning.py:47-51 | A plan runs build, test or lint exactly if it has commands for builds, tests or lint; nothing else is supported |
| `ValidationTargets.UnionIsOrderedDedup` | backend/app/domain/planning.py:328-340 | The union lists each executable target once, at its first occurrence, in order, and nothing else |
| `ValidationTargets.UnionExtends` | backend/app/domain/planning.py:330-330 | Policy targets come first |
| `ValidationTargets.LeadingEntriesAreThePolicyGroups` | backend/app/domain/planning.py:288-346 | The leading entries of the union map one for one to the policy's executable groups |

## Left out

- Error texts and schema paths of a rejected schema; the kind of error is modelled.
- Schemas with `oneOf`, `not`, `if` or `contains`, which are not monotone, and object values in assertion keywords; the shape, idempotence and termination results cover them, the meaning results do not.
- Whether a document narrows when several nested nodes are outside the strict fragment: the conditions are for the root.
- SchemaNarrowing.CompileSound: one direction only, because closing really narrows; the exact meaning of the output is `SchemaNarrowing.CompileMeansClosed`.
- HTTP transport, back-off sleeping, deployment routing, redaction and prompts of the gateway; an attempt's outcome is a parameter.
- The free-text part of provider error messages other than the incomplete-response one.
- Floating-point rounding of costs: costs are reals; the per-agent, per-stage and per-task call counters are not modelled.
- Process creation, Windows job objects, signals and the process tree; the reads of each stream, cancellation and expiry are any sequence.
- Exceptions raised by the output callback, and the one-second limit on joining threads that have already ended.
- The UTF-8 decoder's own behaviour: it is any incremental decoder.
- Supervisor.Supervise: says nothing about time; that the process ends is not provable, only that the protocol never gets stuck.
- Registry, executable and working-directory checks of the execution policy; they are one parameter after the modelled checks. What the worker's log holds is opaque; that its write may raise is modelled.
- A fixed run root, path normalisation, symbolic links, directories as such and id patterns of the artifact store; a path is a list of directory names and a final non-empty name.
- UTF-8, JSON and SHA-256 of the store: the codec is any with decode after encode and load after dump the identity.
- LocalStore.LocalStore.AtomicWrite: takes the random part of the temporary name as an argument that is not in use.
- Temporary names in crash runs are fresh, and so are their sidecar names: the random part is a parameter of the attempt.
- In-place sorting of listings and profiles: sorting is a function on values, stable as the source's.
- Database sessions, locks and the missing-run error of the audit service; appends to one run are sequential.
- Unicode digits in version texts: digits are ASCII. Policy version and guidance texts of a resolution, and the reasons of a certification decision, are not kept.
- GovernedCall.Judge does not keep provider ids and other evidence attached to errors.
- Database migrations, API contracts, routers, settings, the frontend, baseline qualification and parity mining: declarations, input and output or flat branching.
