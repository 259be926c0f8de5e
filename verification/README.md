# StateGuard, proved

StateGuard audits payment integrations. These Dafny files model its central algorithms and protocols and
prove what each is for. `dafny verify dfyconfig.toml` checks everything.

| files | what they model |
|---|---|
| `TicketingStore`, `TicketingMerchant`, `TicketingProtocol`, `TicketingFulfilment`, `TicketingRecords` | the example merchant's webhook protocol: one process, runs with restarts, its deliberately wrong twin, and any interleaving of processes over one store |
| `NameResolution`, `ImportedStrings`, `InstanceResolution` | resolving names, strings of other modules and framework instances backwards over module bindings |
| `CallReachability` | bounded breadth-first reachability in the baseline mapper |
| `GlobMatching`, `ProjectWalk`, `DiscoveredFiles` | glob matching and the pruning walk over project files |
| `Identity` | stable identities built by joining and hashing |
| `PaymentGraph`, `ApplicabilityContracts`, `AssertionTexts`, `ApplicabilityEngine`, `PaymentFacts`, `ApplicabilityCatalog`, `ApplicabilityGating`, `ApplicabilityStates`, `ApplicabilityPolicy`, `ApplicabilityEvidence` | which scenarios apply to a payment graph, and why the result always passes its contract |
| `ScenarioResults`, `VerificationChecks`, `RunNormalization`, `RunIdentities`, `RunContents`, `CiGate`, `ReleaseDecision` | from scenario results to checks, findings, summary and the release gate's exit code |
| `SettlementGrouping`, `ReferenceMatching`, `ReconciliationVerifier`, `ReconciliationDecisions`, `ReconciliationPipeline` | reconciliation of ledger records with settlements and bank transactions |
| `RuntimeSessions`, `FailureLabDispatch`, `Sg01Execution` | dispatching requests over a runtime session and closing it |
| `Foundations` | optional values, filters, string and tuple order, stable sort |

Conventions. The digest behind identities is a parameter assumed injective with hexadecimal output (the code
truncates SHA-256 to 32 digits). Fingerprints and canonical texts are function parameters, so are segment
matching (`fnmatchcase`), the texts of assertion keys (`AssertionTexts` shows that the product's own will do), text
folding, similarity scores and signature validity. Money is whole cents, dates are day numbers. A Python exception is a result value: `None`, `Refused`, `Raised`, `ServerError`. Methods
follow the code's loops and state changes and are proved against functions; the lemmas then say what those
functions mean. `TicketingRecords`, `DiscoveredFiles`, `PaymentFacts`, `ApplicabilityStates`, `ApplicabilityPolicy`,
`RunContents` and `ReconciliationDecisions` say what an operation answers on the fields of its inputs alone.

Where the code does less than one might expect, the model keeps the code and a lemma says so:

* `TicketingFulfilment.ExactlyOnceIff`: delivery is at most once; it is exactly once if and only if no process
  is lost while fulfilling the event, and `CrashLosesThePass` is a run where one is.
* `NameResolution.ResolveStringAlwaysAgreesIff`: a string read as an attribute of a bound name is looked up as
  written, not under the name it stands for; the condition is exact and `AttributeOfAliasIsMisread` an input.
* `ImportedStrings.ImportedStringIsExecuted`: a string is not found that another module binds through a
  further name, re-exports without binding it, or reaches as an attribute of a name it holds; the condition is
  exact, and `AliasedConstantIsLost`, `ReexportedConstantIsLost` and `AttributeThroughModuleIsLost` are inputs.
* `RunNormalization.SurplusIsRefused`, `RunNormalization.CheckIsValidIff`: results that pass their own contract
  are refused when they have more requests than their assertion has roles, or list a diagnostic twice;
  `RepeatedDiagnosticIsRefused` gives inputs of the second kind.
* `NameResolution.ResolveReferenceIsExecution`: a name that recurs along its own alias chain is not resolved,
  although execution binds it; the condition is exact.
* `InstanceResolution.ResolutionEndsIffNoRepeatedJump`: resolution diverges exactly when a cross-module jump
  recurs inside itself, as two modules that re-export each other show.
* `ReferenceMatching.StrongEdgeIsOverlookedIff`: two references without a letter or digit can mask a later
  exact match; the condition is exact, and `ReconciliationVerifier.MaskingChangesDecisionIff` says what that
  does to the decision on any candidates.

## Model

| member | source | states |
|---|---|---|
| `TicketingStore.Database.ClaimWebhookEvent` | examples/ticketing_merchant/app/storage.py:36-44 | One atomic claim: true exactly when the event was unclaimed, and then the claimed table gains that event and nothing else changes. |
| `TicketingStore.Database.RecordRosterBinding` | examples/ticketing_merchant/app/storage.py:47-53 | Appends one roster row and returns its row number; claims and passes stay. |
| `TicketingStore.Database.RecordAdmissionPass` | examples/ticketing_merchant/app/storage.py:56-62 | Appends one pass row and returns its row number; claims and roster stay. |
| `TicketingMerchant.MerchantProcess.constructor` | examples/ticketing_merchant/app/main.py:12-23 | A start or restart: memory is empty and statuses are fresh while the database keeps its tables. |
| `TicketingMerchant.MerchantProcess.RazorpayWebhook` | examples/ticketing_merchant/app/main.py:26-56 | The corrected handler, branch for branch, takes memory, statuses, tables and response to those of its specification. |
| `TicketingMerchant.MerchantProcess.RazorpayWebhookVulnerable` | examples/ticketing_merchant/templates/main.vulnerable.py:26-59 | The wrong twin, which fulfils first and looks for duplicates afterwards, against its specification. |
| `TicketingMerchant.MerchantProcess.CheckoutComplete` | examples/ticketing_merchant/app/main.py:59-80 | The checkout handler against its specification: one pass, no roster row, no claim. |
| `TicketingMerchant.MemoryIsOnlyACache` | examples/ticketing_merchant/app/main.py:41-49 | Over every run of any processes with restarts, responses and tables equal those of a handler without the in-memory set. |
| `TicketingMerchant.ClaimedAfter` | examples/ticketing_merchant/app/main.py:44-50 | After a run exactly the initially claimed and the validly delivered events are claimed. |
| `TicketingMerchant.PassesCountNewlyCapturedEvents` | examples/ticketing_merchant/app/main.py:44-56 | Webhook passes added equal the number of initially unclaimed events whose first valid delivery is a capture. |
| `TicketingMerchant.DatabaseOnlyPasses` | examples/ticketing_merchant/app/main.py:50-55 | The corrected handler binds one roster row and mints one pass per capture whose event was neither claimed before nor delivered earlier. |
| `TicketingMerchant.ExtraPassesOfTheTwin` | examples/ticketing_merchant/templates/main.vulnerable.py:44-59 | On every run the twin mints one extra pass, and binds one extra roster row, per valid capture whose event was claimed initially or delivered earlier. |
| `TicketingMerchant.TwinAgreesOnDistinctEvents` | examples/ticketing_merchant/templates/main.vulnerable.py:44-59 | On runs of distinct unclaimed events the twin leaves the same roster and pass tables. |
| `TicketingProtocol.StepKeepsInvariant` | examples/ticketing_merchant/app/main.py:41-56 | Every commit, crash, failure or restart at any process keeps the protocol invariant. |
| `TicketingProtocol.AtMostOnceInEveryRun` | examples/ticketing_merchant/app/main.py:44-56 | In every interleaving of any number of processes: passes(e) <= roster(e) <= 1, a pass implies the claim, and every memory is within the claimed table. |
| `TicketingProtocol.UninterruptedStepsAreTheHandler` | examples/ticketing_merchant/app/main.py:26-56 | The protocol's steps, taken by one process without interruption, are the sequential handler. |
| `TicketingProtocol.SettledIsFinal` | examples/ticketing_merchant/app/storage.py:36-44 | An event that is claimed with nobody fulfilling it keeps its row counts for ever. |
| `TicketingProtocol.LosingTheClaimantSettles` | examples/ticketing_merchant/app/main.py:44-56 | A crash or failure of the process fulfilling an event leaves it claimed, without its pass, and with nobody to fulfil it. |
| `TicketingFulfilment.AccountStep` | examples/ticketing_merchant/app/main.py:44-56 | Every step of every process keeps the account: rows of an event are exactly those its claim, its fulfiller and its losses entail. |
| `TicketingFulfilment.ExactlyOnceIff` | examples/ticketing_merchant/app/main.py:44-56 | Over every run from an initial state an unclaimed event gets its pass if and only if it is claimed by a valid capture, nobody is still fulfilling it, and no process was lost fulfilling it; the roster row likewise, counting only losses before it. |
| `TicketingFulfilment.CrashLosesThePass` | examples/ticketing_merchant/app/main.py:46-54 | The run Start, Receive, Claim, Crash, Start, Receive, Claim: enabled from every initial state, and it ends with the capture claimed, delivered again and without row or pass. |
| `TicketingRecords.RunRecords` | examples/ticketing_merchant/app/main.py:26-80 | Over every run of whole requests with restarts: the roster and the passes grow by one row for the payment of every first valid capture of an unclaimed event, in order, the passes also by one for the payment of every genuine checkout; exactly the arrived events are claimed; and every request is answered by what it is and what arrived before it. |
| `TicketingRecords.TwinRecords` | examples/ticketing_merchant/templates/main.vulnerable.py:26-59 | The twin binds a row for the payment of every valid capture, claims the captured events, and says duplicate exactly of what was claimed or captured before. |
| `TicketingRecords.StatusesFollowAnswers` | examples/ticketing_merchant/app/main.py:51-79 | The payment status becomes captured exactly with a captured answer to a webhook, the order status exactly with one to a checkout. |
| `TicketingRecords.RowsTellThePayment` | examples/ticketing_merchant/app/main.py:44-56 | In every interleaving, with crashes and failures: every row added is for the payment of the signed capture that was received and claimed its event, or is a pass for the payment of a checkout step; each checkout mints one pass, in order. |
| `NameResolution.AliasesForScope` | src/stateguard/discovery/resolution.py:96-120 | The alias table of a scope holds exactly the names bound by one import. |
| `NameResolution.CanonicalizeKeepsTail` | src/stateguard/discovery/resolution.py:131-141 | Canonicalising a longer reference is canonicalising its front and appending the tail. |
| `NameResolution.NearestScopeDecides` | src/stateguard/discovery/resolution.py:131-141 | A reference to a name, or into it, starts with what the nearest scope that imports or writes the name imports under it; it stays as written if that scope only writes the name or there is none. |
| `NameResolution.SortedBindingsAreInOrder` | src/stateguard/discovery/fastapi.py:40-60 | A module's bindings are put in order of position before anything is resolved. |
| `NameResolution.EnvironmentBindsLatest` | src/stateguard/discovery/fastapi.py:62-73 | What forward execution binds to a name before a position is its latest earlier binding, evaluated where that binding stands. |
| `NameResolution.TextOfIsEndText` | src/stateguard/discovery/fastapi.py:118-146 | Reading a name in forward execution, attributes through what their head is bound to, is reading the end of its chain of literal references. |
| `NameResolution.ResolveStringAgreesIff` | src/stateguard/discovery/fastapi.py:118-146 | Backward resolution with one lookup of other modules equals execution with another exactly when the chain ends at a value or the lookups at its end agree. |
| `NameResolution.ResolveStringIsExecution` | src/stateguard/discovery/fastapi.py:118-146 | For any argument of a call, the resolver gives the string the call receives after every earlier binding has run: a literal always, nothing for neither literal nor reference, and a reference unless its chain ends at an attribute of a bound name. |
| `NameResolution.ResolveStringAlwaysAgreesIff` | src/stateguard/discovery/fastapi.py:127-146 | They agree whatever other modules hold if and only if the end is no attribute of a bound name, or is canonical as written for the name it stands for. |
| `NameResolution.AttributeOfAliasIsMisread` | src/stateguard/discovery/fastapi.py:127-146 | After `from k import b`, `c = b`, `Q = c.P` execution reads k.b.P and the resolver looks up c.P. |
| `NameResolution.ResolveReferenceIsExecution` | src/stateguard/discovery/fastapi.py:75-97 | Resolving a reference gives nothing or exactly the dotted name execution binds; it gives that name if and only if no name recurs along the alias chain. |
| `NameResolution.RecurringAliasIsLost` | src/stateguard/discovery/fastapi.py:82-86 | A concrete module on which execution binds a name and the resolver gives nothing. |
| `ImportedStrings.OwnerIsLongest` | src/stateguard/discovery/fastapi.py:100-112 | The module a canonical name goes through is the longest one that it extends by a dot. |
| `ImportedStrings.OwnedByLongest` | src/stateguard/discovery/fastapi.py:100-114 | A name in a module is looked up in that module under that name, unless a longer module name begins it. |
| `ImportedStrings.ExecutedIffLeads` | src/stateguard/discovery/fastapi.py:99-116 | Executing the other modules imports a string exactly where a chain of names, read off bindings and aliases alone, leads to a literal. |
| `ImportedStrings.ImportedStringIsExecuted` | src/stateguard/discovery/fastapi.py:99-116 | A string the resolver imports is the one execution imports; they differ exactly when a chain of names leads to a string and the latest binding of its first name is no literal. |
| `ImportedStrings.ResolveStringInProgram` | src/stateguard/discovery/fastapi.py:99-146 | For any argument of a call in a module of a program, resolution agrees with execution of the whole program exactly when the argument is no reference, or the chain in the module ends at a value, or the name as written has the literal that the name it stands for leads to, or neither has one. |
| `ImportedStrings.AliasedConstantIsLost` | src/stateguard/discovery/fastapi.py:115-116 | `BASE = "/v1"`, `PREFIX = BASE` in another module: execution imports the string, the resolver nothing. |
| `ImportedStrings.ReexportedConstantIsLost` | src/stateguard/discovery/fastapi.py:115-116 | `P = "/v1"` in module a, `from a import P` in k, `from k import P`, `Q = P` in m: execution reads the string in Q, the resolver nothing. |
| `ImportedStrings.AttributeThroughModuleIsLost` | src/stateguard/discovery/fastapi.py:113-114 | `P = "/v1"` in module a, `import a as b` in k, `from k import b`, `Q = b.P` in m: execution reads the string in Q, the resolver nothing, since it looks for no attributes of another module's names. |
| `InstanceResolution.AnswerIsCollected` | src/stateguard/discovery/fastapi.py:204-263 | Every instance the resolver answers with is one of the collected instances. |
| `InstanceResolution.AnswerIsAtTheTrailsEnd` | src/stateguard/discovery/fastapi.py:204-263 | An answer is the instance constructed at the latest binding that the reference leads to, hop by hop through bindings and imports. |
| `InstanceResolution.NameIsItsLatestBinding` | src/stateguard/discovery/fastapi.py:204-232 | A name is the instance at its latest binding before the position, else what that binding refers to, else what the name imports; a name already being resolved is none. |
| `InstanceResolution.ModuleNameComesFirst` | src/stateguard/discovery/fastapi.py:248-263 | The module's own name decides first: a reference to an instance is that instance, an attribute of an instance is none, and only otherwise is the canonical form looked up. |
| `InstanceResolution.ImportIsReadInItsModule` | src/stateguard/discovery/fastapi.py:234-246 | A canonical name directly in a known module is read there when the module has run; any other is no instance. |
| `InstanceResolution.ResolutionEndsIffNoRepeatedJump` | src/stateguard/discovery/fastapi.py:234-263 | The recursion ends if and only if no cross-module jump is taken while still inside it, and then all sufficient depths agree on the answer. |
| `InstanceResolution.RankedResolutionEnds` | src/stateguard/discovery/fastapi.py:204-263 | Whenever cross-module jumps go to modules of smaller rank, every resolution ends. |
| `InstanceResolution.MutualReexportNeverEnds` | src/stateguard/discovery/fastapi.py:246 | The cycle guard is dropped at a module jump: two modules that re-export each other are never resolved. |
| `CallReachability.FrontIsNearest` | spike-test/state_guard_spike/mappers/baseline.py:80-91 | With the front of the queue at a depth, everything within that many calls has been seen. |
| `CallReachability.FrontDepthIsShortest` | spike-test/state_guard_spike/mappers/baseline.py:80-91 | The depth at the front is the length of a shortest path to its symbol, because the queue is first-in-first-out. |
| `CallReachability.Reachable` | spike-test/state_guard_spike/mappers/baseline.py:80-91 | The result is exactly the symbols within the bound of a start, or all reachable ones without a bound. |
| `CallReachability.BuildAdjacency` | spike-test/state_guard_spike/mappers/baseline.py:105-108 | The adjacency holds exactly the call edges into known symbols. |
| `CallReachability.TransitiveCaptured` | spike-test/state_guard_spike/mappers/baseline.py:110-114 | Exactly the symbols whose distance from the captured callees is one to three. |
| `CallReachability.WithinIsPathLength` | spike-test/state_guard_spike/mappers/baseline.py:80-91 | Reachability by levels is the existence of a path of at most that length. |
| `GlobMatching.MatchConcatenation` | src/stateguard/discovery/files.py:42-55 | A path matches p followed by q exactly when it splits into a part matching p and a part matching q. |
| `GlobMatching.AnyRunMatchesAll` | src/stateguard/discovery/files.py:45-50 | `**` matches every run of segments, the empty one included. |
| `GlobMatching.AdjacentRunsCollapse` | src/stateguard/discovery/files.py:45-50 | Adjacent `**` mean one. |
| `GlobMatching.RunInTheMiddle` | src/stateguard/discovery/files.py:45-55 | p followed by `**` matches exactly the paths with a front matching p. |
| `GlobMatching.MatchIffCuts` | src/stateguard/discovery/files.py:42-55 | A path matches exactly when it can be cut into consecutive runs, any run for each `**` and one matching segment for every other pattern segment. |
| `ProjectWalk.DiscoverPythonFiles` | src/stateguard/discovery/files.py:110-202 | The explicit-stack walk with pruning logs, over all its iterations, exactly the events of the recursive reading of the tree, and sorts them; it fails exactly when the root cannot be read. |
| `ProjectWalk.BelowExact` | src/stateguard/discovery/files.py:62-71 | Pruned recursion counts every event exactly as often as filtering the unpruned tree does. |
| `ProjectWalk.SnapshotsAreExact` | src/stateguard/discovery/files.py:66-71 | The snapshots are every regular, readable, selected file without a link or an unreadable directory above it, each exactly once. |
| `ProjectWalk.SnapshotsAreStrictlySorted` | src/stateguard/discovery/files.py:201 | Snapshots come in strictly increasing order of recorded path. |
| `ProjectWalk.DiagnosticsAreExact` | src/stateguard/discovery/files.py:127-202 | The diagnostics are exactly those that the unpruned tree calls for, each once, ordered by path and code. |
| `DiscoveredFiles.DiscoveryExact` | src/stateguard/discovery/files.py:58-202 | Files and diagnostics exactly, on the tree, the cuts of the patterns and the names: a file is wanted if it ends in .py, an include pattern covers it, no exclude pattern and no mandatory exclusion does; links, unreadable directories and files, and undecodable files are reported exactly where they stand. |
| `Identity.HeadReadsBack` | src/stateguard/contracts/identity.py:64-67 | A separator-free first component can be read back from a joined text. |
| `Identity.JoinInjective` | src/stateguard/contracts/identity.py:65 | Joining is injective on lists of separator-free components. |
| `Identity.JoinPrefixReadsBack` | src/stateguard/contracts/identity.py:65 | Separator-free leading components can be read back whatever follows them. |
| `Identity.StableIdInjective` | src/stateguard/contracts/identity.py:64-67 | Distinct separator-free components give distinct identities of one kind. |
| `Identity.JoinNeedsSeparatorFreedom` | src/stateguard/contracts/identity.py:65 | Without separator-freedom two different lists join to the same text. |
| `ApplicabilityContracts.RollUpPrevails` | src/stateguard/applicability/contracts.py:196-213 | A roll-up is a state exactly when a core assertion has it and none has a prevailing one: APPLICABLE, NEEDS_INPUT, INDETERMINATE, NOT_APPLICABLE. |
| `ApplicabilityContracts.RollUpIsFlat` | src/stateguard/applicability/contracts.py:231-245 | Rolling up instance states equals rolling up all their assertions at once. |
| `ApplicabilityContracts.RollUpIsUnordered` | src/stateguard/applicability/contracts.py:196-213 | The order of the assertions does not matter. |
| `ApplicabilityEngine.NormalControls` | src/stateguard/applicability/engine.py:106-161 | The loop over edges yields the specified controls, sorted by canonical text. |
| `ApplicabilityEngine.SelectRegressionMutations` | src/stateguard/applicability/engine.py:499-538 | The dictionary of dictionaries keeps, per carrier and state, the mutation of the last fitting edge; selected are the mutations of carriers with both states. |
| `ApplicabilityEngine.AssessPolicy` | src/stateguard/applicability/engine.py:242-375 | Every assessment satisfies the policy contract. |
| `ApplicabilityCatalog.ControlsExact` | src/stateguard/applicability/engine.py:119-160 | There is a control exactly for each CALLS edge from an ingress to the resolved customer value that records a call path. |
| `ApplicabilityStates.ControlsAreJoins` | src/stateguard/applicability/engine.py:119-160 | The same field by field on nodes and edges, the identity's components included. |
| `ApplicabilityCatalog.ControlIdNamesTheEdge` | src/stateguard/applicability/engine.py:139-147 | A control identity determines its connectivity edge, whatever the call-path texts contain. |
| `ApplicabilityCatalog.ControlsAreGood` | src/stateguard/applicability/contracts.py:292-294 | Controls are told apart by identity and by edge; each has a call path, identities of the right kinds, and the kind and route of the ingress it names. |
| `ApplicabilityCatalog.ControlInstances` | src/stateguard/applicability/engine.py:1207-1335 | The loop over webhook controls builds one instance per served control; it reports a skip only for SG-08, and always when it built nothing from something. |
| `ApplicabilityCatalog.ControlScenario` | src/stateguard/applicability/engine.py:761-1002 | Each scenario over webhook controls is its specification, the fallback instance included. |
| `ApplicabilityCatalog.TrustScenario` | src/stateguard/applicability/engine.py:1004-1122 | The nested loops over ingresses and their controls build the specified SG-05 and SG-06 scenarios. |
| `ApplicabilityCatalog.SubjectsAreGood` | src/stateguard/applicability/engine.py:751-755 | The subjects of a scenario are distinct, refer to controls and ingresses that exist, and match the control to its ingress. |
| `ApplicabilityCatalog.InstanceIdsDiffer` | src/stateguard/applicability/contracts.py:243-244 | Distinct subjects of a scenario have distinct instance identities. |
| `ApplicabilityCatalog.InstanceKeepsControlIdentity` | src/stateguard/applicability/contracts.py:298-341 | Every instance repeats its control's ingress, route and value identities, or names none; its assertions refer to no other control. |
| `ApplicabilityCatalog.ScenarioIsValid` | src/stateguard/applicability/contracts.py:236-245 | Every scenario has an instance, rolls up, and has unique instance identities. |
| `ApplicabilityCatalog.EvaluationIsValid` | src/stateguard/applicability/contracts.py:290-355 | For every valid graph, resolution and policy the evaluation passes the whole artifact contract: eight scenarios, all nonempty and consistent. |
| `ApplicabilityCatalog.EvaluateApplicability` | src/stateguard/applicability/engine.py:1353-1366 | The evaluation as the code runs it returns a valid artifact and the specified policy, controls and scenarios. |
| `ApplicabilityStates.InstancesExact` | src/stateguard/applicability/engine.py:732-1350 | A scenario has an instance for everything it is about and for nothing else, each with exactly the assertions, roles, states, reason codes and citations that the graph and the policy call for. |
| `ApplicabilityStates.ValueVerdictStates` | src/stateguard/applicability/engine.py:459-479 | In SG-01 to SG-04 and SG-07 a control's value assertion needs input exactly without a policy confirmed for the present evidence, applies exactly when every gate is open, is indeterminate otherwise and never not applicable; with reason code and citations. |
| `ApplicabilityStates.RegressionVerdictStates` | src/stateguard/applicability/engine.py:915-934 | The optional regression assertion: indeterminate exactly with reduced coverage, applicable exactly when both states are written through one carrier on a covered route. |
| `ApplicabilityStates.MutationVerdictStates` | src/stateguard/applicability/engine.py:1065-1087 | The mutation assertions of SG-05 and SG-06 in all states, with reason code and the mutations cited. |
| `ApplicabilityStates.TrustVerdictStates` | src/stateguard/applicability/engine.py:1034-1064 | The value assertions of SG-05 and SG-06 in all states, with reason code and citations. |
| `ApplicabilityStates.LateVerdictStates` | src/stateguard/applicability/engine.py:1209-1335 | Which assertions SG-08 has for a control and their states: the first obstacle decides, in order missing or stale policies, unknown states or reduced coverage, value that does not wait for capture. |
| `ApplicabilityStates.CatalogVerdictStates` | src/stateguard/applicability/engine.py:431-456 | The catalogue instance: input needed exactly with an ingress and no unique customer value, indeterminate exactly when that is settled and coverage is partial, else not applicable; and always not applicable where SG-07 lacks its checkout or SG-08 all its controls. |
| `ApplicabilityStates.ScenarioRollsUp` | src/stateguard/applicability/engine.py:420-428 | A scenario's state is the prevailing one among its core assertions. |
| `ApplicabilityStates.WebhookScenarioStates` | src/stateguard/applicability/engine.py:769-1002 | Such a scenario with something to run against needs input exactly without a current policy, applies exactly when some control's gates are open, and is indeterminate otherwise. |
| `ApplicabilityStates.CatalogueScenarioStates` | src/stateguard/applicability/engine.py:431-456 | A scenario with nothing to run against, in all states. |
| `ApplicabilityPolicy.PolicyAssessed` | src/stateguard/applicability/engine.py:242-375 | The policy assessment field by field: observed states, status, suggestion, mismatch, and whether each confirmation is for the present fingerprint. |
| `ApplicabilityPolicy.FingerprintsCover` | src/stateguard/applicability/engine.py:301-343 | What the two policy fingerprints are over: the paths, branches and coverage-reducing diagnostics of all controls, or of the webhook controls with their ingresses. |
| `ApplicabilityGating.CapturedEvidenceIff` | src/stateguard/applicability/engine.py:592-626 | Captured evidence exists exactly when the control comes from a POST webhook, a matched captured branch on its route reaches its value, and no coverage-reducing diagnostic touches the route. |
| `ApplicabilityGating.CustomerValueGate` | src/stateguard/applicability/engine.py:679-729 | The customer-value assertion of SG-01, 02, 03, 04 or 07 is APPLICABLE exactly when its instance is about a control all of whose gates are open. |
| `ApplicabilityGating.ScenarioAppliesIff` | src/stateguard/applicability/engine.py:769-1002 | Such a scenario applies exactly when some control's gates are all open: policy confirmed and current, capture required (SG-01), captured webhook evidence, one 2xx acknowledgement (SG-03), a linked checkout control (SG-07). |
| `ApplicabilityGating.SuggestionIff` | src/stateguard/applicability/engine.py:281-299 | A policy is suggested exactly when coverage is whole, every control's route shows the one payment state and none shows the other. |
| `ApplicabilityGating.RegressionAppliesIff` | src/stateguard/applicability/engine.py:499-538 | The regression assertion applies exactly when matched branches on the fully covered route write both payment states through one carrier, whichever mutations the dictionaries keep. |
| `ApplicabilityGating.TrustValueAppliesIff` | src/stateguard/applicability/engine.py:1034-1062 | The value assertion of SG-05 applies exactly with captured webhook evidence, that of SG-06 exactly with a checkout binding; neither asks for a policy. |
| `ApplicabilityGating.MutationAppliesIff` | src/stateguard/applicability/engine.py:1065-1082 | The mutation assertion of SG-05 or SG-06 applies exactly when there is a captured-path or protected mutation on the ingress's route, for a POST webhook or a bound checkout. |
| `ApplicabilityGating.LateAssertionsIff` | src/stateguard/applicability/engine.py:1209-1335 | Which SG-08 assertions apply, over both policies, their currency, the route states and the evidence. |
| `ApplicabilityGating.CurrentIffSameEvidence` | src/stateguard/applicability/engine.py:344-375 | A policy counts as confirmed and current exactly when the merchant confirmed one under the fingerprint of the evidence found now. |
| `ApplicabilityEvidence.CitedEvidenceExists` | src/stateguard/evidence/normalization.py:158-167 | Everything an assertion cites is an existing node, edge or control, so the projection of evidence never refuses it. |
| `VerificationChecks.SummarizeChecks` | src/stateguard/evidence/contracts.py:633-660 | The counting loop gives, for every result state and tier, how many checks have it; the denominator is the number of applicable checks. |
| `VerificationChecks.CoverageIsVerifiedShare` | src/stateguard/evidence/contracts.py:516-538 | With dynamic evidence exactly on verified checks, the coverage numerator is the number of verified checks and at most the denominator. |
| `VerificationChecks.CriticalFindingsAreTheFailures` | src/stateguard/evidence/contracts.py:615-630 | Critical findings are as many as failed checks, and every finding repeats its check's identity, key and kind. |
| `VerificationChecks.FindingsAreTheOpenChecks` | src/stateguard/evidence/contracts.py:615-630 | The findings are those of the checks that neither passed nor fail to apply, one each, in order, with identity, key, kind and criticality. |
| `RunNormalization.AssertionAuthorities` | src/stateguard/evidence/normalization.py:112-129 | Succeeds exactly when assertion identities are canonical and no authority occurs twice. |
| `ScenarioResults.ObservedRequests` | src/stateguard/failure_lab/contracts.py:441-467 | A valid result observed distinct requests, some if it is verified, under a session and an input. |
| `ScenarioResults.VerifiedRestsOn` | src/stateguard/failure_lab/contracts.py:441-538 | What a verified result of each scenario rests on: number and kind of requests, input, control, and a complete dynamic authority with the observed requests in order. |
| `ScenarioResults.ValidResultIsSealed` | src/stateguard/failure_lab/contracts.py:441-538 | What every valid result obeys: schema, seal, tier, request authority, and where grounded inputs may occur. |
| `RunNormalization.ExecutionResults` | src/stateguard/evidence/normalization.py:132-146 | Succeeds exactly when every result is valid and no two answer the same assertion, and then indexes them all. |
| `RunNormalization.VerifiedFitsRoles` | src/stateguard/evidence/normalization.py:515-516 | A verified result never has surplus requests, except a late sequence of two events against the policy-outcome assertion. |
| `RunNormalization.SurplusIsRefused` | src/stateguard/evidence/normalization.py:515-516 | For every assertion with a control, any session and any distinct requests that are more than its roles, there is a valid, unverified result under the right authority that is refused for surplus requests. |
| `RunNormalization.RepeatedDiagnosticIsRefused` | src/stateguard/evidence/contracts.py:328-343 | For every assertion and any diagnostic there is a valid, unverified result under the right authority that is refused because it lists the diagnostic twice. |
| `RunNormalization.CheckIsValidIff` | src/stateguard/evidence/contracts.py:516-538 | For a valid result the check and its runtime evidence pass their contracts exactly when no diagnostic is listed twice. |
| `RunNormalization.TargetsExact` | src/stateguard/evidence/normalization.py:204-249 | The mutation and acknowledgement targets are exactly the cited and the observed ones of the right kind, in order and without repetition. |
| `RunContents.TargetListsTold` | src/stateguard/evidence/normalization.py:204-249 | The same on reasons and observations. |
| `RunNormalization.BuildVerificationRun` | src/stateguard/evidence/normalization.py:705-886 | Succeeds exactly on what normalisation, the contracts of results, checks and semantics, and the run's contract accept, grounding and times included, and returns the checks in run order; a refusal names something that is the case. |
| `AssertionTexts.ProductTextsAreGood` | src/stateguard/applicability/contracts.py:60-72 | The product's key and invariant texts contain no separator, and keys have different texts. |
| `RunIdentities.EvaluationIsFromEngine` | src/stateguard/applicability/engine.py:1364-1390 | What an evaluation returns is an artifact the results below apply to. |
| `RunIdentities.SameInstanceId` | src/stateguard/contracts/identity.py:211-214 | An instance identity determines scenario and subject, across scenarios. |
| `RunIdentities.AuthoritiesAreSound` | src/stateguard/evidence/normalization.py:121-128 | Neither authority error can be raised for an artifact of the engine. |
| `RunIdentities.TargetsTellSubject` | src/stateguard/evidence/normalization.py:178-250 | The targets of a check carry the ingress, route, value and edge of the subject the assertion is about. |
| `RunIdentities.CheckKeyNamesTheAssertion` | src/stateguard/evidence/contracts.py:419-467 | A check key determines its assertion, whatever mutations and acknowledgements were observed at run time. |
| `RunIdentities.CheckIdNamesTheAssertion` | src/stateguard/contracts/identity.py:231-236 | A check identity determines its assertion. |
| `RunIdentities.ChecksDiffer` | src/stateguard/evidence/contracts.py:745-751 | All checks of one run have pairwise distinct identities and pairwise distinct logical keys. |
| `RunIdentities.AdmittedIffProper` | src/stateguard/evidence/normalization.py:733-800 | A valid result is admitted exactly when it is under this artifact, this definition and the assertion's control, has no surplus request and no repeated diagnostic, and any grounding is the run's. |
| `RunIdentities.GroundedChecksIff` | src/stateguard/evidence/contracts.py:780-786 | At most one check is grounded exactly when at most one answer with dynamic evidence is built from the run's resource. |
| `RunIdentities.EngineRunIsAccepted` | src/stateguard/evidence/normalization.py:686-914 | For an artifact of the engine the build fails only over what its caller can see to: current artifacts, and valid, proper results one to one with the assertions. |
| `RunContents.RunIsAcceptedIff` | src/stateguard/evidence/normalization.py:686-914 | The same written out: current artifacts and semantics, times in order, one valid result for every listed assertion and no other, each under the assertion's artifact, definition and control, within its roles, without a repeated diagnostic, with a grounded input only from the run's resource, and at most one grounded dynamic result. |
| `RunContents.RunTells` | src/stateguard/evidence/normalization.py:732-886 | An accepted run has one check for every result and every listed assertion; each repeats their identities, verdict, reason, input, requests and authority, calls exactly dynamic evidence on a grounded input grounded, and they stand by scenario, instance and assertion. |
| `RunContents.EqualKeysIff` | src/stateguard/evidence/contracts.py:419-467 | Two checks of runs of the engine, one run or two, have equal keys only for the same project, scenario, assertion and target identities and for the same fulfilment policy in SG-01 and both policies in SG-08; and they do if their mutations and acknowledgements agree as well, whatever the policies of other scenarios. |
| `RunContents.VerifiedChecksAreEvidenced` | src/stateguard/evidence/contracts.py:516-538 | A check of an accepted run is verified exactly with dynamic evidence, and then has input, requests, session, capability and transcript; only SG-01 is grounded, by its own input. |
| `RunIdentities.AcceptedRunIsDynamic` | src/stateguard/evidence/contracts.py:516-538 | Every check of an accepted run meets its contract, so verdicts are verified exactly with dynamic evidence and coverage is the verified share. |
| `CiGate.CountResults` | src/stateguard/ci/gate.py:27-38 | The counting loop gives the six counts. |
| `CiGate.ExitCodeMeans` | src/stateguard/ci/gate.py:82-97 | Exit code 1 exactly when some check failed, 0 exactly when none failed, every core check passed or does not apply, and one passed. |
| `CiGate.EvaluateCiGate` | src/stateguard/ci/gate.py:58-110 | For a run with unique check keys the result satisfies its whole contract; every count is the number of checks, or of core checks, with that result; status, reason and exit code follow from which checks failed, are open or apply; and the blockers repeat exactly the checks that stop the release, in order. |
| `CiGate.GateCounts` | src/stateguard/ci/contracts.py:101-125 | Core counts never exceed all counts, per state and in total; the two blocking counts are the counts of those states. |
| `CiGate.BlockersAreTheStops` | src/stateguard/ci/gate.py:61-77 | A check is a blocker exactly when it failed or is a core check without a verdict, and every blocker is well formed. |
| `CiGate.BlockersAreDistinct` | src/stateguard/ci/contracts.py:138-140 | No logical key blocks twice. |
| `CiGate.BlockerClasses` | src/stateguard/ci/contracts.py:141-156 | Blockers of each class are as many as the checks counted for it. |
| `CiGate.FailuresCountedAlike` | src/stateguard/evidence/contracts.py:615-658 | Proven failures, critical findings and the summary's failures are one number. |
| `ReleaseDecision.ChecksAreTheAssertions` | src/stateguard/evidence/normalization.py:732-872 | The checks of a run and the assertions of the artifact correspond one to one, with roles and results. |
| `ReleaseDecision.ExitCodeIff` | src/stateguard/ci/gate.py:82-97 | From engine to exit code: 1 exactly when some assertion failed; 0 exactly when none failed, every core assertion passed or does not apply, and one passed. |
| `ReleaseDecision.ExitCodeOfResults` | src/stateguard/ci/gate.py:82-97 | The same on the results: 1 exactly when some result failed, 0 exactly when none did, every core assertion is answered by a pass or does not apply, and one by a pass. |
| `SettlementGrouping.GroupSettlements` | spike-test/spike/models.py:155-162 | The dictionary-building loop yields one group per settlement, in order of first occurrence. |
| `SettlementGrouping.GroupsPartition` | spike-test/spike/models.py:155-162 | Groups are nonempty, keep the order of their components, and together hold every component exactly as often as given. |
| `SettlementGrouping.GroupingConservesMoney` | spike-test/spike/models.py:81-91 | The reconstructed amounts of all groups add up to all credits less all debits. |
| `SettlementGrouping.SettledOnIsEarliest` | spike-test/spike/models.py:65-67 | The settlement date is the earliest of its components. |
| `ReferenceMatching.BestIsFirstMaximum` | spike-test/spike/baseline_matcher.py:31-33 | The picked edge is the first of the highest score. |
| `ReferenceMatching.WholeScoreIff` | spike-test/spike/baseline_matcher.py:16-28 | An edge of score 1 is strong, unless both references normalise to nothing and read differently. |
| `ReferenceMatching.BestIsStrongIffSomeIs` | spike-test/spike/verifier.py:38-47 | If the reference looked for keeps a letter or digit, the best edge is strong exactly when some edge is. |
| `ReferenceMatching.StrongEdgeIsOverlookedIff` | spike-test/spike/baseline_matcher.py:31-42 | In either direction, a strong edge is overlooked exactly when a blank mismatch stands before the first strong edge. |
| `ReferenceMatching.OverlookedExample` | spike-test/spike/baseline_matcher.py:31-33 | An input on which the strong edge is overlooked. |
| `ReconciliationVerifier.ChecksAreCompatibility` | spike-test/spike/verifier.py:117-176 | The nine hard checks pass exactly on the pairs that the separate compatibility test accepts. |
| `ReconciliationVerifier.StrongLinkIff` | spike-test/spike/verifier.py:33-59 | The verifier sees a source link exactly when two of the three pairs have a strong edge that no blank reference masks. |
| `ReconciliationVerifier.SingleCandidateDecision` | spike-test/spike/verifier.py:205-254 | One candidate is verified exactly when its pair is compatible and strongly linked or the only compatible one. |
| `ReconciliationDecisions.FitsIff` | spike-test/spike/verifier.py:74-91 | The compatibility test on the records: sound structure, equal amounts and currencies, incoming money, and dates within four and three days of the earliest component. |
| `ReconciliationDecisions.ConflictIff` | spike-test/spike/verifier.py:117-196 | A contradicting check fails exactly when structure, amount, currency or direction conflict; a date alone never does. |
| `ReconciliationDecisions.LinkedIff` | spike-test/spike/verifier.py:33-59 | The source link on the references: two of the three pairs share one, read the same or alike in letters and digits, before which no blank one stands. |
| `ReconciliationDecisions.ReferencesAreFirstSeen` | spike-test/spike/models.py:69-71 | The references of a settlement are the nonempty ones of its components, once each, in order of first occurrence. |
| `ReconciliationDecisions.OnlyFitIff` | spike-test/spike/verifier.py:94-103 | The nested sum over settlements and banks is one exactly when the pair that fits is the only one. |
| `ReconciliationDecisions.DecisionIff` | spike-test/spike/verifier.py:199-258 | For any candidates, on the records alone: verified exactly when one proposed identity is proven, by the last candidate that proposes it; an exception exactly when no proposed pair fits and some proposed pair is linked and conflicts; open otherwise. |
| `ReconciliationVerifier.SufficientAreDeservingUnmasked` | spike-test/spike/verifier.py:33-59 | The sufficient identities are exactly the deserving ones that no blank reference masks. |
| `ReconciliationVerifier.MaskingChangesDecisionIff` | spike-test/spike/verifier.py:205-254 | For any candidates: a case with one deserving identity goes to REVIEW exactly when that one is masked, and a case with several is verified exactly when masking leaves one. |
| `ReconciliationVerifier.CountOneIsUnique` | spike-test/spike/verifier.py:94-103 | If the nested sum over settlements and banks is one, the pair is the only compatible one. |
| `ReconciliationVerifier.VerifiedIsSound` | spike-test/spike/verifier.py:199-221 | A verified decision selects a proposed, compatible pair that is strongly linked or the only compatible pair. |
| `ReconciliationVerifier.DecisionByIdentities` | spike-test/spike/verifier.py:205-254 | Status and selected identity as a function of the set of proposed identities. |
| `ReconciliationVerifier.SameIdentitiesSameDecision` | spike-test/spike/verifier.py:205-254 | Order, repetition and origin of candidates do not matter. |
| `ReconciliationVerifier.AddingCandidates` | spike-test/spike/verifier.py:205-254 | More candidates never make a verified case an exception or select another identity, never settle a case with several sufficient identities, and settle an open one only by an added identity. |
| `ReconciliationPipeline.GenerateBaselineCandidates` | spike-test/spike/baseline_matcher.py:45-75 | The nested loops give every ledger identity the specified list of candidates. |
| `ReconciliationPipeline.FromLedgersExact` | spike-test/spike/baseline_matcher.py:51-74 | A candidate is proposed exactly for the triples whose ledger and settlement are related and at least two of whose three edges are. |
| `ReconciliationPipeline.BaselineExact` | spike-test/spike/baseline_matcher.py:45-75 | The same on the references: some component's is related to the ledger's, and the ledger's or some component's to the bank's; with the label of the candidate. |
| `ReconciliationPipeline.BaselineIsKnown` | spike-test/spike/baseline_matcher.py:66-73 | Baseline candidates name existing settlements and bank transactions. |
| `ReconciliationPipeline.HybridKeepsBaselineDecisions` | spike-test/spike/evaluate.py:180-202 | The second stage leaves every settled decision unchanged, settles an open case only by an identity it added, and keeps cases with several sufficient candidates open. |
| `RuntimeSessions.RuntimeSession.Send` | src/stateguard/runtime/session.py:309-362 | One request is recorded and met as the session responds to its position. |
| `RuntimeSessions.RuntimeSession.Close` | src/stateguard/runtime/session.py:378-415 | One close is recorded; it seals a transcript, is refused, or raises. |
| `FailureLabDispatch.SendAll` | src/stateguard/application/failure_lab.py:325-355 | Requests go out in order up to the first that is not answered; without an ingress nothing is sent. |
| `FailureLabDispatch.DispatchManagedSequence` | src/stateguard/application/failure_lab.py:309-361 | The session is closed exactly once on every path, raising ones included; results are the answers; no failure is reported exactly when all requests were answered. |
| `FailureLabDispatch.ResultsAnswerAPrefix` | src/stateguard/application/failure_lab.py:325-355 | The k-th result answers the k-th request, and the first request without a result was not answered. |
| `FailureLabDispatch.ExactTranscriptSplits` | src/stateguard/application/failure_lab.py:364-389 | An exact transcript splits by dispatched request with no event lost or counted twice; each request is received exactly once, in order, on the one ingress and route. |
| `FailureLabDispatch.ExactIffAttributed` | src/stateguard/application/failure_lab.py:364-389 | The exactness test accepts precisely the attributed transcripts. |
| `FailureLabDispatch.ReceivedExact` | src/stateguard/application/failure_lab.py:374-378 | The received requests are those of the events that report one received, in order. |
| `Sg01Execution.SendOne` | src/stateguard/application/failure_lab.py:618-657 | The try statement and its close: at most one request, exactly one close. |
| `Sg01Execution.ExecuteSg01` | src/stateguard/application/failure_lab.py:475-779 | With a gate shut nothing is touched and the reason names the first such gate; with all open the session is closed exactly once whatever happens, at most the one request is sent, and every outcome, verdict, reason or raise, is characterised by what was opened, met and sealed. |

## Left out

- Filesystem, SQLite, HTTP, subprocess and signal mechanics: a tree, a store with atomic commits, and scripted
  request outcomes stand for them.
- The dashboard, the command line, the control API and provider calls.
- The scenario evaluators SG-01 to SG-08, graph construction and semantic context building: their outputs are inputs.
- TicketingStore.Database.RecordRosterBinding: the row keeps which event caused it; the code stores only the
  payment. The extra part is used to state at-most-once per event and is read by no handler.
- TicketingMerchant.MemoryIsOnlyACache: a sequential run follows tables, memories and responses; the two status
  fields of a process appear in the handler contracts only, because no handler reads them.
- InstanceResolution.ResolutionEndsIffNoRepeatedJump: resolution is a recursion cut at a depth, and ending
  means that some depth suffices.
- NameResolution.ResolveReferenceIsExecution: import statements have no position in the modelled execution. A
  name that is assigned and later imported is read as assigned, by the code's resolver and by the model;
  Python would read the import. A name bound by two imports of one scope is no alias, so the module that reads
  it reads it as written; Python would read the later import. The same goes for a name that nothing binds or
  imports, where Python raises.
- NameResolution.TextOfIsEndText: what a name holds in execution is a string or a dotted name. Classes and
  instances have no attributes, so a string kept in a class is read by neither side.
- ImportedStrings.Executed: execution of the other modules is followed through a bounded number of imports;
  the results hold for every bound. A dotted name goes through the longest module it begins with, in the code and
  in the model; Python may instead find a name of the package that hides the submodule, depending on the form of
  the import, which a canonical name does not record.
- Collecting framework instances and routes (`collect_instances`, `analyze_fastapi`): only appends records.
- The scores, weights and lexicons of the baseline mapper: sums of constants.
- Resolving links in the project root, and files outside it, before the walk starts: the walk gets a resolved tree.
- ProjectWalk.DiscoverPythonFiles: a file's content is unreadable, undecodable or decodable; digests and sizes
  of the files are not kept.
- ApplicabilityEngine.SelectRegressionMutations: the selection is filtered from the graph's nodes before it is
  sorted, where the code sorts dictionary values; the two agree because canonical texts are distinct.
- ApplicabilityCatalog.ControlScenario: one method with the scenario as its parameter stands for the code's five
  like-shaped blocks and SG-08.
- The helper `customer_value_allowed`: one expression over two policies and a state.
- How a test resource is acquired: a run's grounding is the run it was made for, a time, a status and two
  fingerprints. Times are points on one clock.
- ScenarioResults.ObservedRequests: what the scenarios demand of the counts, sequences, status codes and reasons
  of a verified result is one parameter of the contract, the fingerprint of a result another; the schema
  version, the counts of requests, their kinds, the inputs and the controls are modelled. The patterns and
  lengths of identity strings are not.
- RunNormalization.BuildVerificationRun: whether the source spans of a check can be read is a parameter; what the
  source references and relevant-authority snapshots hold, the schema versions of a run and its fingerprint are
  not part of a run here. The code computes the last two itself, just before its contract compares them.
- RunIdentities.EngineRunIsAccepted: the refusals it speaks of are those of `BuildVerificationRun`, with the
  same snapshots and run fingerprint left out.
- The SG-02 to SG-08 executors in the Failure Lab: they repeat the open, dispatch and close structure that
  `DispatchManagedSequence` and `ExecuteSg01` have.
- RuntimeSessions.RuntimeSession.Send: how a session meets a request, transport and process included, is a
  parameter; recorded are the request and its position.
- RuntimeSessions.RuntimeSession.Close: stopping the process and sealing the transcript are one scripted outcome;
  recorded is that a close was made.
- Sg01Execution.ExecuteSg01: which verdict a trustworthy transcript leads to is left to the evaluator.
- Reasons and details written for people in reconciliation checks, descriptions, semantic scores and metrics.
