# Component composition and the Driftwood generator, verified

This project models two parts of the repository and proves properties of them in Dafny.

**Component composition** is one chain of programs, modelled from end to end:

1. The compiler checks a profile: call names, mounts, aliases and cycles (`Composition`, `CycleSearch`),
   the guards and artifact flow of each component's steps (`StepChecks`), and the preconditions on the
   bound context (`Preconditions`).
2. The dispatcher rechecks the compiled document with its own depth-first walk and computes the closure
   of the requested entries (`ClosureWalk`, `Closure`, `ClosureProperties`); `Declarations` and `VisitOrder` say in
   which order it lists calls and components. `CheckAgreement` connects the two checks.
3. The runtime executes the closure. `StepExecution` and `Conditional` say what one component's steps do
   for any answers the model gives, `StepTurns` which answers end a run, and `StepReports` what the answers have to
   do with what the model reported. `StepReachability` reduces all runs to finitely many choices of which steps
   fail and which flags their texts set, and `FlagTexts` says which flags one text can set. Their tables are plain
   JavaScript objects, which `JsObject` models: a string stored under `__proto__` is lost, and a key that was never
   stored may name an inherited member. `AliasTable` is the runtime's table of call aliases, whose keys join two
   names; `KeyClash` says when they clash in an accepted profile, and what follows. `Ledger` is the
   shared state of a root run (turn pool, reservations, attempts, cancellation, call trace) as a transition
   system whose events may come in any order; `LedgerRules` says field by field what each event does,
   `LedgerProperties` what every run keeps;
   `ReservationChain` proves that the first nested chain of calls is never starved. `InvocationRuntime` is
   the `ComponentInvocationRuntime` class itself, with its loops, recursion and `finally` refunds; a ghost
   history shows that each of its states is a ledger state, and the model step is an arbitrary environment.
4. `ProfileRun` puts the three in a row: it compiles, closes, constructs and runs one profile.

**The Driftwood generator** builds order lines that add up to the cent (`OrderLines`), and injects
declared faults into a clean dataset (`KeyedDiff`, `FaultInjection`, `DuplicateOrders`).

`Graphs` holds the graph definitions (walks, reachability, cycles, longest walks) that the compiler's
search, the dispatcher's walk and the runtime's depth table are all stated against. `Profile` holds the
authored and compiled documents, `Prelude` the shared datatypes.

Five statements are false of the code as one would first write them. Each comes with an input and a condition:

- A failed step that another step watches is not always handled: the failure of a step named `__proto__` is
  never recorded (`SwallowedFailureExample`). In a run that returns, every failure was handled if and only if
  no step of that name failed (`NoSwallowedFailure`); no run swallows one if and only if no choice runs a step of
  that name and makes it fail (`NeverSwallowsExactly`).
- A consumed artifact is not always what its producer wrote. The runtime files the output of a step without
  `produces` under the step's name, so such a step can replace an artifact (`ShadowExample`); an artifact named
  `__proto__` is never stored (`LostArtifactExample`); and one named like another inherited member reads as
  present when its producer was skipped (`InheritedArtifactExample`). `ConsumedArtifactExact` gives the exact
  condition for each run, `AlwaysFromProducerExactly` and `AlwaysSuppliedExactly` those for all runs.
- A step is not always limited to the calls it declares. The runtime's alias table is keyed by caller id and step
  name joined with U+0000, which either may contain, so two caller steps can share a key. In the profile of
  `ClashExample`, which both checks accept and whose call graph is acyclic, a run enters a call no step declares
  in its trace and is then cancelled as a re-entry by a call that is declared. Every prepared step looks up exactly
  its own declarations if and only if under no prepared step's key a foreign declaration takes effect
  (`LookupsExact`); it is enough that no component id contains U+0000, or that no step name does
  (`PlainProfileKeepsApart`). The results on authorised traces and re-entry carry that condition as `KeysApart`.
- `PreconditionsSurviveTrip` is an if-and-only-if; `NonTextSelectorCompilesButIsRefused` is an input that
  compiles and is then refused.
- `DuplicatesStayDeclaredExactly` is an if-and-only-if on the ids of the copied rows; `RepeatedItemEscapes` is a
  dataset that fails it, and unique row keys imply it (`UniqueKeysStayDeclared`).

The code and its documentation disagree once: `docs/spec/component-composition.md:450` says admission
reserves `min(12, remaining root turns)` for a child, while the code first holds back turns for the
child's own descendants. The model follows the code, and the reservation theorems depend on it.

`dafny verify dfyconfig.toml` checks the whole project.

## Model

| member | source | states |
|---|---|---|
| CycleSearch.FirstComponentCallCycle | core/src/compile.rs:887-932 | for every graph with in-range edges: returns nothing if and only if the graph has no closed walk; a returned list is a closed walk along edges with no other repeat |
| CycleSearch.Search.Visit | core/src/compile.rs:888-920 | the recursive visit finishes a node and all it reaches without recolouring anything finished or active and restores the stack, or returns a real cycle |
| CycleSearch.Search.Enter | core/src/compile.rs:894-895 | colouring and pushing keeps the active nodes a walk on the stack and shrinks the unseen set, the termination measure |
| CycleSearch.Search.Leave | core/src/compile.rs:917-918 | finishing a node whose successors are finished keeps the finished set closed under calls and free of cycles |
| CycleSearch.Search.CloseCycle | core/src/compile.rs:904-911 | the stack search for an active callee never fails, and the slice it yields is a simple cycle |
| CycleSearch.CycleFromStack | core/src/compile.rs:905-911 | any suffix of a duplicate-free walk closed by an edge back to its first node is a simple cycle |
| Composition.CheckComponentComposition | core/src/compile.rs:795-874 | passes if and only if mounts are unique, every call is well named, uniquely aliased, mounted and not to itself, and the call graph on mount names is acyclic; every failure names a real defect of its kind |
| Composition.IndexMounts | core/src/compile.rs:799-808 | succeeds exactly when mount identities are distinct, and then the index is a bijection with positions |
| Composition.StepEdges | core/src/compile.rs:819-859 | succeeds exactly when all calls of one step are acceptable; a failure's tag describes an offending call |
| Composition.CallsMeaning | core/src/compile.rs:819-859 | the calls of a profile are acceptable if and only if every mount is loaded and in every step aliases differ, both names are well formed, and each target is another mounted component |
| Composition.CalleeIndex | core/src/compile.rs:836-857 | resolves a target exactly when it is well named, mounted and not the caller, and tells the three failures apart |
| Composition.ProfileEdges | core/src/compile.rs:810-860 | the adjacency list names exactly the declared targets of every mount, or some mount has the reported defect |
| Composition.EdgesAreRenamed | core/src/compile.rs:810-871 | the index graph searched for cycles is, after renaming, exactly the graph of declared calls |
| Composition.EffectiveRequiredCapabilities | core/src/compile.rs:948-961 | keeps the authored list as a prefix, adds only the invocation capability, and only for a component that declares calls, which always ends up with it |
| Profile.StepTargetsMeaning | core/src/compile.rs:819-858 | a target is collected if and only if some step declares a call to it |
| Profile.CallNameMeaning | core/src/compile.rs:876-885 | a well-formed call name is lower-case letters, digits and underscores, not starting with a digit |
| Closure.ComponentDependencies | dispatcher/claude-agent-sdk/src/closure.ts:35-61 | succeeds exactly when callers require the capability and aliases are unique per step; the list then has exactly one entry per declared call, ascending by component, step and position; an error names a node that has the defect |
| Declarations.AllListed | dispatcher/claude-agent-sdk/src/closure.ts:45-58 | the k-th entry of the list is the call declared at the k-th place of the document, for places in ascending order that leave none out |
| Closure.ResolveComponentClosure | dispatcher/claude-agent-sdk/src/closure.ts:67-157 | returns the plan if and only if ids are unique, roots are entrypoints, declarations are sound and no root reaches a missing mount, a self-call or a cycle; roots are as requested or all entrypoints in document order, each entry lists its components in first-visit order of callees as declared, and dependencies, components and callees are the kept ones in document order; every error names a real defect of its kind |
| Closure.WalkEntries | dispatcher/claude-agent-sdk/src/closure.ts:104-140 | the per-root loop fails exactly at a root that reaches a defect, with an error that describes one the first such root reaches, and its union is exactly what the entries list |
| Closure.RootNodes | dispatcher/claude-agent-sdk/src/closure.ts:79-93 | succeeds exactly when every requested root is a mounted entrypoint |
| Closure.OutgoingMap | dispatcher/claude-agent-sdk/src/closure.ts:96-102 | the map the walk follows has every mount as a key and its declared callees in order |
| ClosureWalk.Walker.Walk | dispatcher/claude-agent-sdk/src/closure.ts:109-137 | the recursion over shared lists computes the walk function, restores the active list, and adds to the union exactly what it visited |
| ClosureWalk.Walked | dispatcher/claude-agent-sdk/src/closure.ts:109-137 | a successful walk only extends the visit order, includes its node, and never starts at an active node |
| ClosureWalk.WalkedSound | dispatcher/claude-agent-sdk/src/closure.ts:109-137 | between calls: active nodes form a walk, everything visited is reachable, and what is visited but not active is closed and acyclic; an error means the root reaches a node not mounted, one that calls itself, or one on a longer cycle, as its tag says |
| ClosureWalk.EntryWalkExact | dispatcher/claude-agent-sdk/src/closure.ts:106-139 | one entry's walk throws if and only if its root reaches a missing mount or a cycle; otherwise it lists, without repeats and root first, exactly what the root reaches |
| VisitOrder.EntryInOrder | dispatcher/claude-agent-sdk/src/closure.ts:109-137 | the visit order is depth first: each next node is the first unvisited callee, in list order, of the last visited node that has one, until every callee is visited |
| Closure.EntryInVisitOrder | dispatcher/claude-agent-sdk/src/closure.ts:127-139 | the same by places in the document: each next component is what the last visited component with an unvisited callee declares first among these |
| ClosureWalk.WalkedAgree | dispatcher/claude-agent-sdk/src/closure.ts:109-137 | two graphs that agree on a region closed under calls are walked identically, errors included |
| ClosureProperties.EdgesAreDependencies | dispatcher/claude-agent-sdk/src/closure.ts:95-102 | the graph walked is exactly the graph of declared dependencies |
| ClosureProperties.PlanIsExact | dispatcher/claude-agent-sdk/src/closure.ts:138-142 | every entry is duplicate-free, starts with its root and is exactly its reachable set; the components are exactly the mounts some root reaches |
| ClosureProperties.PlanIsEdgeClosed | dispatcher/claude-agent-sdk/src/closure.ts:143-145 | the plan keeps every dependency whose caller it keeps, in declaration order, so the target condition never drops one |
| ClosureProperties.CalleesAreTargets | dispatcher/claude-agent-sdk/src/closure.ts:146-149 | the callees are exactly the mounts some kept dependency targets, and no target is missing |
| ClosureProperties.PlanDependenciesAcyclic | dispatcher/claude-agent-sdk/src/closure.ts:109-145 | the dependencies handed to the runtime contain no cycle |
| ClosureProperties.UnreachableMountsIrrelevant | dispatcher/claude-agent-sdk/src/closure.ts:104-156 | adding, removing or changing mounts that no requested root reaches changes neither acceptance nor any part of the plan |
| CheckAgreement.AllDependenciesMeaning | dispatcher/claude-agent-sdk/src/closure.ts:45-58 | a dependency is listed if and only if some step of some mount declares that call |
| CheckAgreement.SameGraph | dispatcher/claude-agent-sdk/src/closure.ts:95-102 | the dispatcher reads from the compiled document exactly the graph the compiler checked |
| CheckAgreement.AcceptedProfileResolves | dispatcher/claude-agent-sdk/src/closure.ts:63-66 | a profile the compiler accepts is refused by the dispatcher for no set of entrypoints |
| CheckAgreement.AcceptedProfileResolvesByDefault | dispatcher/claude-agent-sdk/src/closure.ts:79-79 | the same when no entries are requested and the roots are all entrypoints |
| CheckAgreement.ChecksAgree | core/src/compile.rs:795-874 | when every mount is reachable and call names are well formed, the compiler and the dispatcher accept exactly the same profiles |
| CheckAgreement.AcceptedProfileRunsAcyclic | dispatcher/claude-agent-sdk/src/closure.ts:142-156 | for an accepted profile the runtime receives an acyclic call graph with every callee prepared |
| StepChecks.CheckWhenGuards | core/src/compile.rs:994-1052 | passes exactly when guards and conditional flags pair up and every guard is known, non-blank and dotted for flags; fails at the first bad step with a tag that describes it |
| StepChecks.GuardsMeaning | core/src/compile.rs:994-1052 | acceptance means exactly the conditional steps are guarded, by one of the three guards, on a target that is not blank and for flags contains a dot |
| StepChecks.CheckStepDataflow | core/src/compile.rs:1077-1170 | passes exactly when names and artifacts are new and everything consumed or guarded on comes from strictly earlier steps; fails at the first bad step with a tag that describes it |
| StepChecks.DataflowMeaning | core/src/compile.rs:1077-1170 | acceptance means names differ, artifacts differ, everything consumed is produced earlier, and the step watched or the artifact a guard looks at, up to the first dot for flags, is that of an earlier step |
| StepChecks.NamesUnique | core/src/compile.rs:1086-1102 | in an accepted component a step name or an artifact identifies its step |
| Conditional.ReadFlag | dispatcher/claude-agent-sdk/src/conditional.ts:67-78 | the loop decides whether following the dotted path from the parsed artifact ends at true; any missing step reads as false |
| Conditional.SegmentsSpellTarget | dispatcher/claude-agent-sdk/src/conditional.ts:67-69 | the segments a flag target is read by, joined by dots, spell the target, and none of them contains a dot |
| Conditional.RepairFoldTarget | dispatcher/claude-agent-sdk/src/conditional.ts:108-117 | a fold target is the step immediately before, the one the guard names, with its artifact consumed; and no such step is passed over |
| Conditional.OnFailureFiresOnFailure | dispatcher/claude-agent-sdk/src/conditional.ts:123-134 | whichever shape an `on_failure` guard takes, the step is skipped exactly when its target is not recorded as failed, and is a repair exactly when that target is the preceding step and its artifact is consumed |
| Conditional.RunRepairLoop | dispatcher/claude-agent-sdk/src/conditional.ts:146-155 | the first attempt not to fail within the bound decides: a success recovers, a rejection passes its error on; otherwise exactly the bound was attempted |
| StepExecution.RunKeepsInvariant | dispatcher/claude-agent-sdk/src/componentInvocation.ts:751-783 | after every step of every run of an accepted component: outcomes are those of the steps that ran, nothing being recorded under `__proto__`; a watching step ran exactly when its target was seen to fail; and the final text is the last success |
| StepTurns.TurnExactly | dispatcher/claude-agent-sdk/src/componentInvocation.ts:739-784 | what one answer does: a text or a tolerated failure is filed under what the step produces, or its name, with its outcome; an exhausted budget, a cancellation or an unauthorised call ends the run with that error, whoever watches; any other failure ends it unless a step watches and the step is no repair; a failed repair ends it with an error of its own |
| StepTurns.TerminalFailureEndsRun | dispatcher/claude-agent-sdk/src/componentInvocation.ts:740-742 | such a terminal failure of an executed step is the result of the whole run, whatever comes after it |
| StepTurns.ReturningRunTolerates | dispatcher/claude-agent-sdk/src/componentInvocation.ts:740-783 | in a run that returns, every failed step was watched, was no repair, and failed with no terminal error |
| StepReports.AnswersAreReported | dispatcher/claude-agent-sdk/src/componentInvocation.ts:707-726 | where every turn has at most one report, every step that ran and answered did so with the text a model step of its name returned to this frame |
| StepExecution.NoSwallowedFailure | dispatcher/claude-agent-sdk/src/componentInvocation.ts:679-784 | when the executor returns, every failed step had all its watchers run, a chain of them ending in a success, and the returned text coming from a later step, if and only if no step named `__proto__` failed |
| StepExecution.UnseenFailureSwallowed | dispatcher/claude-agent-sdk/src/componentInvocation.ts:778-782 | no step that watches a step named `__proto__` ever runs, so its failure is never handled |
| StepExecution.SwallowedFailureExample | dispatcher/claude-agent-sdk/src/componentInvocation.ts:679-784 | an accepted component whose watched step fails, whose watcher is skipped, and whose executor returns normally |
| StepReachability.RunIsChosen | dispatcher/claude-agent-sdk/src/componentInvocation.ts:751-783 | answers that fail and set flags as a choice prescribes execute exactly the steps whose guards hold of the choice |
| StepReachability.ChoiceIsRun | dispatcher/claude-agent-sdk/src/componentInvocation.ts:751-783 | every possible choice of failing steps and set flags is made by some run, up to any step |
| StepReachability.RunIsChoice | dispatcher/claude-agent-sdk/src/componentInvocation.ts:751-783 | and every run that does not throw makes a possible choice |
| StepReachability.CanRunExactly | dispatcher/claude-agent-sdk/src/conditional.ts:123-134 | some run executes a step if and only if some possible choice chooses it |
| StepReachability.GuardOnUnconditional | dispatcher/claude-agent-sdk/src/conditional.ts:85-101 | a guard on an unconditional step: `on_failure` can fire unless the target is named `__proto__`, `on_flag` exactly when some text sets the flag, `on_missing` never |
| StepReachability.NeverSwallowsExactly | dispatcher/claude-agent-sdk/src/componentInvocation.ts:679-784 | no run of an accepted component swallows a failure if and only if no possible choice runs a step named `__proto__` and makes it fail |
| FlagTexts.FlagsSetExactly | dispatcher/claude-agent-sdk/src/conditional.ts:67-78 | for a parser that reads every document, some text sets exactly the given flags if and only if flags of one path go together and no set path leads on from another |
| FlagTexts.PossibleExactly | dispatcher/claude-agent-sdk/src/conditional.ts:67-78 | so possible choices are decided on the flag paths, but for the texts of failed steps |
| StepExecution.FailureIsRecovered | dispatcher/claude-agent-sdk/src/componentInvocation.ts:688-692 | builds that recovery chain for any tolerated failure, when every failure was recorded |
| StepExecution.UnwatchedFailureThrows | dispatcher/claude-agent-sdk/src/componentInvocation.ts:741-743 | a failed unconditional step that nothing watches ends the run with an error |
| StepExecution.WatchedIsEarlier | core/src/compile.rs:1124-1133 | a step guarded on a failure always comes after the step it watches |
| StepExecution.ConsumedArtifactExact | dispatcher/claude-agent-sdk/src/componentInvocation.ts:502-504 | in any run that reaches a consumer, the artifact has a unique strictly earlier producer, and holds its text if and only if the producer ran, the artifact is not named `__proto__`, and no later step that ran borrowed the key as its name |
| StepExecution.DataflowIsSound | core/src/compile.rs:1054-1076 | with the two name spaces apart: if the producer ran, the consumer reads its text if and only if the artifact is not named `__proto__`; if it did not, it is conditional and the consumer finds nothing if and only if the name is not inherited |
| StepExecution.LostArtifactExample | dispatcher/claude-agent-sdk/src/componentInvocation.ts:780-781 | an accepted component whose producer runs and whose consumer reads an inherited object |
| StepExecution.InheritedArtifactExample | dispatcher/claude-agent-sdk/src/conditional.ts:91-92 | an accepted component whose skipped artifact reads as present, so that its fallback is skipped too |
| StepReachability.AlwaysFromProducerExactly | dispatcher/claude-agent-sdk/src/componentInvocation.ts:502-504 | in every run that executes a consumer after its producer ran, the consumer reads the producer's text, if and only if in every possible choice that runs both the artifact is not named `__proto__` and no step between them that runs borrows its key |
| StepReachability.AlwaysSuppliedExactly | dispatcher/claude-agent-sdk/src/componentInvocation.ts:502-504 | in every run that executes a consumer it reads its producer's text, if and only if moreover every possible choice that runs the consumer runs the producer |
| StepReachability.ChainsRunTogether | dispatcher/claude-agent-sdk/src/conditional.ts:87-88 | when everything that may fail does, all steps reached from unconditional ones along recordable failures run |
| StepReachability.ChainedBorrowerOverwrites | dispatcher/claude-agent-sdk/src/componentInvocation.ts:780-781 | so a borrower of the key, a producer before it and a consumer after it, each reached along such failures, make the consumer read the wrong text in some run |
| StepExecution.ShadowReplacesArtifact | dispatcher/claude-agent-sdk/src/componentInvocation.ts:780-781 | an unconditional borrower between producer and consumer replaces the artifact in every run that reaches the consumer |
| StepExecution.ShadowExample | core/src/compile.rs:1077-1170 | a concrete component both checks accept whose third step reads another step's text |
| Ledger.ResolveLimits | dispatcher/claude-agent-sdk/src/componentInvocation.ts:217-252 | accepted exactly when every supplied limit is an integer from 1 to its default, a deadline is finite and no dollar cap is asked for; supplied limits are used as given |
| LedgerRules.LimitsAsSupplied | dispatcher/claude-agent-sdk/src/componentInvocation.ts:217-252 | every resolved limit is the supplied integer or its default of 8, 32, 65536, 1048576, 40 and 12, and the deadline is the supplied one or none |
| LedgerRules.CancelRules | dispatcher/claude-agent-sdk/src/componentInvocation.ts:575-616 | cancelling sets the flag to its first time and nothing else; a check does so only past the deadline, and then throws |
| LedgerRules.ReserveRules | dispatcher/claude-agent-sdk/src/componentInvocation.ts:668-677 | a root step takes the pool less one child allowance per level below it, but at least one turn, into a new account, and throws on an empty pool |
| LedgerRules.ChargeRules | dispatcher/claude-agent-sdk/src/componentInvocation.ts:629-642 | a malformed report changes nothing and throws; an excessive one is counted, empties the account and throws; any other is counted and drawn |
| LedgerRules.InvocationRules | dispatcher/claude-agent-sdk/src/componentInvocation.ts:798-863 | the checks of an invocation decide in their order, each with its reply and its effect on every field; only a passed one takes an attempt, turns and a trace entry |
| LedgerRules.MalformedRequestTakesNothing | dispatcher/claude-agent-sdk/src/componentInvocation.ts:813-814 | in every state a malformed request is never admitted and leaves trace, attempts, pool and accounts alone; unless the run is cancelled or the alias unknown its reply is the invalid-request error and the run goes on |
| LedgerRules.FinishRules | dispatcher/claude-agent-sdk/src/componentInvocation.ts:873-912 | a completion refunds the account and writes one ending: late once cancelled, and otherwise that of the value the outcome calls for, error by error |
| LedgerProperties.TurnsConserved | dispatcher/claude-agent-sdk/src/componentInvocation.ts:629-677 | in every reachable state of any interleaving: the pool and every reservation are non-negative, and pool plus live reservations plus charges equals the limit |
| LedgerProperties.HonestRunsStayWithinLimit | dispatcher/claude-agent-sdk/src/componentInvocation.ts:629-642 | if each step reports at most what it was handed, the observed total never exceeds the limit, and once reservations are refunded the pool is exactly the rest |
| LedgerProperties.TraceIsAuthorisedForest | dispatcher/claude-agent-sdk/src/componentInvocation.ts:834-858 | in every reachable state: entry i is attempt i+1 within the limit, every entry is a looked-up call of a prepared step, one level below an earlier entry or the root, and no component repeats on a path; if no alias key clashes, every entry is a dependency its step declares |
| LedgerProperties.ClashEscapes | dispatcher/claude-agent-sdk/src/componentInvocation.ts:618-623 | for the root's steps that condition is necessary: if a foreign declaration takes effect under such a step's key, its first invocation enters an undeclared call in the trace or fires the re-entry check |
| LedgerProperties.AncestryIsWalk | dispatcher/claude-agent-sdk/src/componentInvocation.ts:868-869 | in a trace of declared calls the path to a call is a walk of declared dependencies from the root, one node longer than its depth |
| LedgerProperties.NoReentry | dispatcher/claude-agent-sdk/src/componentInvocation.ts:818-821 | on an acyclic call graph whose alias keys do not clash no alias a step looks up leads back into the active path |
| LedgerProperties.ReentryBranchUnreachable | dispatcher/claude-agent-sdk/src/componentInvocation.ts:818-821 | so the only security failure an invocation can raise there is an alias its step does not look up |
| LedgerProperties.CancellationIsAbsorbing | dispatcher/claude-agent-sdk/src/componentInvocation.ts:575-616 | once set, the flag never changes, no invocation adds an entry or takes turns or attempts, every check throws, and every later completion is late and yields the cancelled error |
| LedgerProperties.AdmitEffect | dispatcher/claude-agent-sdk/src/componentInvocation.ts:798-837 | an invocation either admits exactly one child with one attempt and one account, or leaves trace, attempts and accounts alone; raising always means the run is cancelled |
| LedgerProperties.AliasIsDeclared | dispatcher/claude-agent-sdk/src/componentInvocation.ts:618-623 | if no alias key clashes, every alias a prepared step can look up is one of its own declared dependencies |
| AliasTable.IndexEdges | dispatcher/claude-agent-sdk/src/componentInvocation.ts:555-562 | fails exactly when a callee is not prepared; otherwise each caller step gets the aliases filed under its joined key, a later declaration winning |
| AliasTable.LooksUpOwnExactly | dispatcher/claude-agent-sdk/src/componentInvocation.ts:618-623 | every alias a step looks up is one it declares with that callee if and only if every declaration in effect under its key is one it makes itself |
| AliasTable.LookupExact | dispatcher/claude-agent-sdk/src/componentInvocation.ts:618-623 | where no step declares one alias for two callees, a step looks up exactly its own declarations under the same condition |
| AliasTable.PlainNamesKeepApart | dispatcher/claude-agent-sdk/src/componentInvocation.ts:556-556 | the condition holds when no component id contains U+0000, or no step name does |
| KeyClash.LookupsExact | dispatcher/claude-agent-sdk/src/componentInvocation.ts:555-562 | in an accepted profile every prepared step looks up exactly its own declarations if and only if under no prepared step's key a foreign declaration takes effect |
| KeyClash.PlainProfileKeepsApart | dispatcher/claude-agent-sdk/src/componentInvocation.ts:556-556 | in an accepted profile it is enough that no mount id contains U+0000, or that no step name does |
| KeyClash.ClashExample | dispatcher/claude-agent-sdk/src/componentInvocation.ts:555-562 | a profile both checks accept, with an acyclic call graph, whose run enters an undeclared call in its trace and then fires the re-entry check |
| ReservationChain.FirstChainNeverStarves | dispatcher/claude-agent-sdk/src/componentInvocation.ts:668-677 | where no alias key clashes, entering a root step with L+1 turns lets a first chain of L calls all be admitted with at least one turn; with D times the child allowance plus one, each gets the whole allowance; before each call anything may happen that leaves pool, attempts and cancellation alone |
| ReservationChain.ChecksAndChargesAreQuiet | dispatcher/claude-agent-sdk/src/componentInvocation.ts:629-642 | cancellation checks before the deadline and charges on a component's own account are such events |
| ReservationChain.ChainAdmitted | dispatcher/claude-agent-sdk/src/componentInvocation.ts:822-832 | from a pool of one turn per link, every call of a nested chain is admitted with at least one turn |
| ReservationChain.ChainFullyFunded | dispatcher/claude-agent-sdk/src/componentInvocation.ts:822-832 | from a pool with a full allowance per level, every call of the chain gets exactly the full allowance |
| ReservationChain.CalleeDepth | dispatcher/claude-agent-sdk/src/componentInvocation.ts:822-823 | the depth multiplied into the hold-back covers the calls still to come and falls at every call |
| InvocationRuntime.ComponentInvocationRuntime.ValidState | dispatcher/claude-agent-sdk/src/componentInvocation.ts:528-544 | every state the object can be in is balanced, has a trace of looked-up calls, authorised if no alias key clashes, and never a cancellation in the future |
| InvocationRuntime.ComponentInvocationRuntime.Cancel | dispatcher/claude-agent-sdk/src/componentInvocation.ts:575-579 | is the ledger's cancel event: the first cancellation time is kept |
| InvocationRuntime.ComponentInvocationRuntime.ThrowIfCancelled | dispatcher/claude-agent-sdk/src/componentInvocation.ts:610-616 | throws exactly when the run is then cancelled, the deadline included |
| InvocationRuntime.ComponentInvocationRuntime.ChargeTurns | dispatcher/claude-agent-sdk/src/componentInvocation.ts:629-642 | is the ledger's charge event: counts the report, draws the account down or empties it and throws |
| InvocationRuntime.ComponentInvocationRuntime.MaxDescendantDepth | dispatcher/claude-agent-sdk/src/componentInvocation.ts:644-657 | on an acyclic graph the answer and every cached value are longest-path lengths for any order of queries, and the visiting fallback is never taken |
| InvocationRuntime.ComponentInvocationRuntime.DescendantDepthForStep | dispatcher/claude-agent-sdk/src/componentInvocation.ts:659-665 | one more than the longest path from any alias of the step, attained by one of them |
| InvocationRuntime.ComponentInvocationRuntime.StepDepthAgrees | dispatcher/claude-agent-sdk/src/componentInvocation.ts:659-665 | the computed depth is the one the reservation theorems assume |
| InvocationRuntime.ComponentInvocationRuntime.ReserveRootStep | dispatcher/claude-agent-sdk/src/componentInvocation.ts:668-677 | is the ledger's reservation event: opens one new account, or throws and changes nothing |
| InvocationRuntime.ComponentInvocationRuntime.EnterRootStep | dispatcher/claude-agent-sdk/src/componentInvocation.ts:668-677 | the reservation is made with the exact depth of what the step can call |
| InvocationRuntime.ComponentInvocationRuntime.Refuse | dispatcher/claude-agent-sdk/src/componentInvocation.ts:804-832 | the checks of an invocation in their order, with the cancellation a security failure sets |
| InvocationRuntime.ComponentInvocationRuntime.Admit | dispatcher/claude-agent-sdk/src/componentInvocation.ts:798-863 | is the ledger's invocation event with the callee's exact depth |
| InvocationRuntime.ComponentInvocationRuntime.Complete | dispatcher/claude-agent-sdk/src/componentInvocation.ts:873-912 | is the ledger's completion event: result, trace ending and refund on every path |
| InvocationRuntime.ComponentInvocationRuntime.InvokeCall | dispatcher/claude-agent-sdk/src/componentInvocation.ts:798-914 | the first failing check decides what the step is handed: cancelled (or past the deadline) and unauthorised throw, a malformed request and an exhausted limit come back as their errors, and none adds to the trace or the attempts; a passed call adds its own trace entry and one attempt, and once cancelled yields the cancelled error; a malformed request takes no turns; it only throws when the run is cancelled |
| InvocationRuntime.ComponentInvocationRuntime.RunChild | dispatcher/claude-agent-sdk/src/componentInvocation.ts:863-912 | the delivered value is the one the child's ending calls for, and the child's account is refunded however it ends |
| InvocationRuntime.ComponentInvocationRuntime.Attempt | dispatcher/claude-agent-sdk/src/componentInvocation.ts:703-746 | the model step never starts once cancelled, past the deadline or without a turn, and otherwise runs once; its report is charged in full and decides the answer, which is a text only for a well-formed report within the turns held in a run neither cancelled nor past its deadline |
| InvocationRuntime.ComponentInvocationRuntime.Settle | dispatcher/claude-agent-sdk/src/componentInvocation.ts:721-739 | a report counts as success only if it is charged in full and the run is not cancelled; a failed step is charged too, and a charging error replaces its own |
| InvocationRuntime.ComponentInvocationRuntime.ExecuteStep | dispatcher/claude-agent-sdk/src/componentInvocation.ts:694-749 | a failure is rethrown exactly when nothing watches the step or the error is an exhausted budget, a cancellation or an unauthorised call; the answer is that of the frame's one new report; a root step's account is closed on every path |
| InvocationRuntime.ComponentInvocationRuntime.ExecuteComponent | dispatcher/claude-agent-sdk/src/componentInvocation.ts:679-784 | whatever the environment does, the loop takes the decisions of the executor specification on the answers received, which are those of the reports made to this frame, turn by turn; in a frame that returns no executed step failed terminally; one that fails does so with the error its answers end in, or as cancelled, and does nothing if stopped before; it refunds every account opened meanwhile, and counts every reported turn |
| InvocationRuntime.ComponentInvocationRuntime.ExecuteSteps | dispatcher/claude-agent-sdk/src/componentInvocation.ts:751-783 | the step loop returns exactly the final text, or throws exactly the error, of the executor specification on the answers received, which are those of the reports made to this frame |
| InvocationRuntime.ComponentInvocationRuntime.RunRoot | dispatcher/claude-agent-sdk/src/componentInvocation.ts:581-608 | at the end all accounts are refunded, pool plus charges is the limit, every turn reported is counted once, an honest environment never overspends, the answers are those of the reports made to the root frame, a malformed request runs nothing, a run cancelled or past its deadline returns no result and one stopped before runs no step, any other failure is the error the answers end in, the trace is a forest of looked-up calls, authorised if no alias key clashes, and model steps number at most (1 + maxAttempts) frames' worth |
| ProfileRun.CompileProfile | core/src/compile.rs:169-237 | succeeds exactly when the profile composes safely and every mounted component passes both step checks; the node of a mount has its id, its entrypoint flag, its component's steps and required capabilities, with the invocation capability for callers |
| ProfileRun.Prepare | dispatcher/claude-agent-sdk/src/closure.ts:67-157 | for an accepted profile, entrypoint roots and acceptable limits neither the closure nor the index of callees can fail, and the runtime starts fresh with exactly the plan's dependencies, the plan's roots and callees with their own checked steps, the resolved limits and an acyclic call graph |
| ProfileRun.RunProfile | dispatcher/claude-agent-sdk/src/componentInvocation.ts:581-608 | for such a profile and the runtime so built: every turn is counted once and conserved, an honest environment stays within the resolved limit, model steps are bounded, the trace is a forest of looked-up calls that is authorised and never re-enters if no alias key clashes, and a returned text is the root's final text for the reports made to it, with every failed step handled if and only if none named `__proto__` failed; a malformed request runs nothing, and any other failure is a cancellation or the error the root's answers end in |
| ProfileRun.AcyclicNeverReenters | dispatcher/claude-agent-sdk/src/componentInvocation.ts:818-821 | in every history on an acyclic graph whose alias keys do not clash, every security failure of an invocation is an alias its step does not look up |
| InvocationRuntime.ComponentInvocationRuntime.constructor | dispatcher/claude-agent-sdk/src/componentInvocation.ts:546-571 | starts in the ledger's initial state with the whole limit in the pool |
| Preconditions.ResolvePreconditionArgs | core/src/compile.rs:494-528 | succeeds exactly when every reference names a declared and bound parameter; every `$param:name` is then what `name` is bound to, and every other value is kept |
| Preconditions.EvaluatePreconditions | core/src/compile.rs:403-447 | succeeds exactly when every condition resolves and passes; an error describes the first condition that does not |
| Preconditions.VerifyContextPreconditions | core/src/compile.rs:44-110 | accepts exactly the arrays of well-formed, resolved conditions that all pass; an error describes the first that does not |
| Preconditions.PinnedMetric | core/src/compile.rs:647-656 | a named metric is decided by the first metric of that name: it passes if additive or semi-additive, fails if not additive, and is unanswerable without additivity or without such a metric |
| Preconditions.AnyMetric | core/src/compile.rs:657-676 | without a name: unanswerable if no metric is declared, and otherwise whether some metric is additive or semi-additive |
| Preconditions.PinnedModel | core/src/compile.rs:612-623 | a named model is decided by the timestamp of the first model of that name, and unanswerable without one |
| Preconditions.AnyModel | core/src/compile.rs:624-625 | without a name: whether some model has a timestamp |
| Preconditions.ShapePredicates | core/src/compile.rs:567-580 | parseability, metrics and dimensions are decided by their own part of the context |
| Preconditions.TimeAndLineage | core/src/compile.rs:579-581 | so are time dimensions and lineage |
| Preconditions.ProbePredicates | core/src/compile.rs:630-640 | the two raw-source probes are unanswerable when the context makes none, and otherwise its answer |
| Preconditions.DeclinedIsUnanswerable | core/src/compile.rs:539-561 | a predicate the context declines is unanswerable |
| Preconditions.ParsedExactly | core/src/compile.rs:53-72 | a condition is read exactly when it is a record of those two fields with a name of the vocabulary |
| Preconditions.AcceptableExactly | core/src/compile.rs:73-95 | no argument may be a reference, and a metric or model selector must be a string with a character that is not white space |
| Preconditions.ParsedIsInverse | core/src/compile.rs:1351-1366 | reading back an emitted condition gives the condition that was emitted |
| Preconditions.PassIsKnown | core/src/compile.rs:539-594 | only predicates of the closed vocabulary can pass, so the vocabulary check rejects nothing the compiler accepted |
| Preconditions.PreconditionsSurviveTrip | core/src/compile.rs:403-447 | what the compiler accepted is accepted at run time on the same context if and only if no resolved value is a reference and every selector is a non-blank string |
| Preconditions.AcceptanceMeansPass | core/src/compile.rs:44-110 | conversely, run-time acceptance means every condition parses, passes, and would compile as it stands |
| Preconditions.NonTextSelectorCompilesButIsRefused | core/src/compile.rs:85-92 | a selector bound to a number compiles as an existential probe and is refused at run time |
| OrderLines.RoundingIsClose | examples/driftwood-wren/generate.py:309-311 | half-up rounding moves a quotient by at most a half and is positive exactly from a half up |
| OrderLines.PriceIsClose | examples/driftwood-wren/generate.py:293-301 | a middle price less the drawn discount is within half a cent a unit, and half a cent, of the exact share |
| OrderLines.LastLine | examples/driftwood-wren/generate.py:308-317 | the slack line meets any remainder exactly, its correction loop runs at most once, its discount is never negative and below one cent a unit for a positive remainder |
| OrderLines.MiddleLines | examples/driftwood-wren/generate.py:292-306 | every line but the last is within half a cent a unit, and half a cent, of its exact share after its drawn discount, or costs one cent a unit where that price would be nothing; the running sum is theirs |
| OrderLines.BuildReconciledItems | examples/driftwood-wren/generate.py:269-323 | for any total and draws the lines sum to the total exactly, ids are consecutive, and the last discount is bounded |
| OrderLines.NoClampOnRealisticOrders | examples/driftwood-wren/generate.py:300-311 | from $20 up, with at most five lines, quantities up to five and weights within a factor of three, neither one-cent clamp is taken |
| OrderLines.OrderBook.FinalizeOrder | examples/driftwood-wren/generate.py:557-592 | header minus stored lines is zero when exact and otherwise exactly the delta with the drawn sign, turned only where a migrated order has too small a last discount to lower; a migrated header keeps its total, and no perturbed discount is negative |
| OrderLines.DiscountShiftsTotal | examples/driftwood-wren/generate.py:570-582 | perturbing the last discount moves the sum of the lines by exactly that much, the other way |
| KeyedDiff.DiffTables | examples/driftwood-wren/generate.py:1432-1447 | reports exactly the tables whose keyed rows differ, with the keys added, removed and changed |
| KeyedDiff.IndexHoldsLast | examples/driftwood-wren/generate.py:1440-1441 | the row a table is compared by under a key is the last one that has it |
| KeyedDiff.NoDifferenceMeansSameRows | examples/driftwood-wren/generate.py:1432-1447 | with unique keys, nothing is reported for a table if and only if it holds the same rows |
| KeyedDiff.ChangedExactly | examples/driftwood-wren/generate.py:1444-1444 | with unique keys, a row rewritten under its key is reported changed if and only if it changed |
| KeyedDiff.CheckDiffMatchesManifest | examples/driftwood-wren/generate.py:1636-1659 | passes if and only if every differing table is declared and every differing key is declared for it |
| KeyedDiff.StaysDeclaredExactly | examples/driftwood-wren/generate.py:1636-1659 | a dataset stays declared if and only if every key that is in one version only, or under different rows, is listed by an entry for its table |
| FaultInjection.InjectStoppedUpdates | examples/driftwood-wren/generate.py:1107-1149 | keeps exactly the snapshots up to 31 March 2026, in order, touches no other table, declares the keys of the others, and fails only on an empty table |
| FaultInjection.StoppedUpdatesExact | examples/driftwood-wren/generate.py:1116-1122 | on every dataset the diff removes exactly the declared keys and touches nothing else |
| FaultInjection.InjectSuddenDrop | examples/driftwood-wren/generate.py:1152-1210 | row by row: an order placed in March 2026 keeps every column but its total, which becomes three tenths to the nearest cent; all else is unchanged, and exactly the ids of those orders are declared |
| FaultInjection.DropShrinks | examples/driftwood-wren/generate.py:1161-1172 | three tenths to the cent is nearer to zero than any non-zero total |
| FaultInjection.SuddenDropChanges | examples/driftwood-wren/generate.py:1152-1210 | with unique ids, the orders reported changed are exactly the window's orders with a non-zero total |
| FaultInjection.SuddenDropStaysDeclared | examples/driftwood-wren/generate.py:1152-1210 | on every dataset only declared orders differ and no other table does |
| FaultInjection.InjectDrift | examples/driftwood-wren/generate.py:1213-1275 | the d-th euro rate of the first half of 2026, in table order, becomes its value times 1 + 0.0015 d to the nearest millionth; every other row and table is untouched, and the keys of those rates are declared |
| FaultInjection.DriftIsUpward | examples/driftwood-wren/generate.py:1214-1220 | the drift never lowers a rate, is nothing on the first day and grows with the days |
| FaultInjection.DriftChanges | examples/driftwood-wren/generate.py:1213-1275 | with unique keys, the rates reported changed are exactly the window's rates whose rounding moved |
| FaultInjection.DriftStaysDeclared | examples/driftwood-wren/generate.py:1213-1275 | on every dataset only declared rates differ and no other table does |
| DuplicateOrders.InjectDuplicates | examples/driftwood-wren/generate.py:1278-1389 | fails exactly when the range names no order or a child table is empty; otherwise, row by row: the orders 1000 to 1004 that exist are appended ascending under the ids after the largest, and so are all items and payments of theirs in table order, each as long as its original and equal to it but for the id and the order, which is the copy's; nothing else changes; and the three manifest entries declare exactly the ids of the order copies and, of child copies whose originals share an id, the last one's |
| DuplicateOrders.ManifestEntries | examples/driftwood-wren/generate.py:1337-1388 | the manifest has one `duplicates` entry per table, none with affected rows: for the orders every fresh id, for items and payments the id of each copy that is the last of its original's id |
| DuplicateOrders.PresentIdsExact | examples/driftwood-wren/generate.py:1290-1299 | the ids copied are exactly the range's ids that name an order, each once |
| DuplicateOrders.IdMapInjective | examples/driftwood-wren/generate.py:1305-1311 | the order id map gives different orders different new ids |
| DuplicateOrders.OrdersDeclaredExactly | examples/driftwood-wren/generate.py:1301-1311 | the new orders are added under exactly the declared, fresh ids, and nothing else in the table changes |
| DuplicateOrders.ChildrenDeclaredExactly | examples/driftwood-wren/generate.py:1313-1329 | the new children are added under fresh ids, and the declared ones are all of them if and only if no copied row repeats a source id |
| DuplicateOrders.ChildrenFollowTheirOrders | examples/driftwood-wren/generate.py:1313-1329 | every copied child belongs to the copy of its original's order, which repeats that order verbatim |
| DuplicateOrders.DuplicatesStayDeclaredExactly | examples/driftwood-wren/generate.py:1278-1389 | the scenario stays within its manifest if and only if no two copied items and no two copied payments share an id |
| DuplicateOrders.RepeatedItemEscapes | examples/driftwood-wren/generate.py:1313-1320 | a dataset with two items under one id for which the scenario adds an item it does not declare |
| DuplicateOrders.UniqueKeysStayDeclared | examples/driftwood-wren/generate.py:1278-1389 | unique row keys are enough for that |
| DuplicateOrders.NewChildrenKeepUnique | examples/driftwood-wren/generate.py:1278-1285 | no copy collides with a primary key |

## Left out

- The Agent SDK, model queries, tools, sessions and transports: the model step is an arbitrary environment that may cancel, invoke any alias and then return, fail with telemetry or throw.
- `normalizeComponentRequest` and `normalizeComponentResult`: reduced to an arbitrary accepted, refused or invalid outcome; byte counts, render blocks and message text are dropped.
- Cost, token usage, `model_turns` and degradation telemetry in the trace: copied values that decide nothing, apart from invalid cost telemetry, which is one way of being malformed.
- The forged-step check of `aliasesFor`: an invocation is an event only for a step of its frame's own component, since only `executeComponent` makes them.
- `boundedMessage`: which texts it can return is a parameter of the results on all runs, and the texts themselves are arbitrary elsewhere.
- The deadline timer and abort signal: the environment may cancel at any point, which covers both. The clock is read once per stretch of code without an await.
- Call ids are positions in the trace, and a reservation is an entry of a list rather than an object; aliasing between frames is not modelled beyond that.
- InvocationRuntime.ComponentInvocationRuntime.RunRoot: an invocation that is still running when its own `runStep` has returned is covered by the theorems over arbitrary interleavings of ledger events, not by the class, whose model step finishes its calls first. Turn totals are unbounded integers; above 2^53 JavaScript's sums lose exactness, which is not modelled.
- The per-frame promise queue: calls of one frame happen one after another.
- `DEFAULT_MAX_REPAIR_ATTEMPTS` is one, as in the code, so a repaired step has one answer in `StepExecution`; `RunRepairLoop` is proved for any bound.
- JSON and YAML: an argument is a string or not a string; a parsed flag document is true, an object or something else, and the parser is a parameter.
- Precondition guardrails, gates, overlays, slots and provenance: mostly one branch or a field copy each.
- Error message text everywhere: errors are tags, and the contracts say what each tag means.
- InvocationRuntime.ComponentInvocationRuntime.constructor: takes the alias index and resolved limits as built by `IndexEdges` and `ResolveLimits`, where their failures are modelled; `ProfileRun.Prepare` calls them in the constructor's place.
- OrderLines.MiddleLines: random draws are arbitrary values in their ranges, and a line's share is the exact fraction of its weight, where the generator rounds a float first.
- FaultInjection.InjectDrift: the drift factor is the exact fraction, where the generator converts a float first.
- Compile checks other than those on calls, guards and artifact flow, between which `compile` interleaves them: they can only refuse more.
- OrderLines.OrderBook.FinalizeOrder: payments and the refund pool, which are appended after the order and its lines, are not modelled.
- Severity, lag and before/after statistics of a manifest, attribution scoring, and DuckDB loading: they do not affect which rows change.
- KeyedDiff.DiffTables: keys are reported as sets, so their order within a table's report is not modelled.
