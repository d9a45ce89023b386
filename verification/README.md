# Yggdrasil core, verified

A Dafny model of the hard parts of yggdrasil-core, the workflow control plane, and proofs about them.

- **Workflow language** (`manifest/workflow.go`): Kahn's sort of the steps, the defaults merge and input
  validation, template rendering, and step conditions. Modules `Graph`, `ExecutionOrder`, `Workflow`,
  `Inputs`, `Template`, `TemplateRoots`, `Rendering`, `Condition`.
- **Protocols over a shared store** (`addons/`): the event-trigger loop, the cron scheduler, and the two
  Heimdall inbox loops. Each is a state machine whose steps belong to any number of workers. `Exec(s, acts)`
  is the state after an arbitrary sequence of steps, crashes included, and the theorems are about every
  `acts`. A class beside each machine holds the stored row and the pass as the code runs it; what a pass
  does is proved to be a run of the machine. Modules `ScheduleTick`, `ScheduleProtocol`, `EventTriggers`,
  `InboxWriter`, `InboxDispatcher`, `InboxPipeline`.
- **Transformations** (`manifest/`): the quickstart compiler and product materialization, with the
  validators their outputs must pass. Modules `QuickstartSteps`, `QuickstartInputs`, `Quickstart`,
  `Product`, `Materialize`.
- **Authorization** (`manifest/`): RBAC, policies and their combination. Modules `Rbac`, `RbacText`,
  `RbacEvaluation`, `Policy`, `Authorization`.

Beside the definitions that follow the code there are lemmas that restate their meaning on the text of the
manifest or the fields of a row, without naming those definitions: which effect words allow and deny, which
tokens name which part of the context, which rows a dispatcher may claim, which source goes with which
renderer.

`Text`, `Values` and `Wrappers` hold the string helpers, the JSON-shaped values and Option/Result.

`dafny verify dfyconfig.toml` checks the whole project.

## What the code does and does not promise

Five properties hold only under a condition. Each has a failing input and a statement of exactly when it
holds.

- Under `catch_up` no run leaves a gap between committed ticks if and only if the workflow has a stored tick
  or a `start_at`, or its window leaves no room for one (`GaplessIffAnchored`, `SkippableIffRoomy`). Without
  an anchor, "one hour ago" differs between workers and a tick is skipped (`UnanchoredSkips`).
- A trigger pair is dispatched at most once in every run if and only if passes do not overlap
  (`OnceIffNoOverlap`); for a set of workers, if and only if no worker whose lock session may die unnoticed
  under a pass has another worker beside it (`OnceIffSessionsSafe`). `LostSessionDispatchesTwice` is the run
  that dispatches twice. That the record precedes the dispatch, and that the cursor passes settled pairs
  only, hold in every run.
- The comment at `addons/heimdall_inbox_writer.go:72-73` says the cursor advances strictly forward. The code
  writes back what each writer saw. It advances in every run if and only if there is at most one writer
  (`ForwardIffSole`); any two can move it back (`SlowWriterMovesCursorBack`). In either case no alert at or
  below it is lost.
- A quickstart step named `smoke-test` beside a smoke test makes the sort report a dependency cycle, and
  nothing else does (`CompiledOrder`); `TakenNameFails` builds such a provider.
- Quickstart defaults are taken over unchecked. The compiled workflow accepts them if and only if each one
  used has its declared type (`DefaultsAccepted`), and resolving again is a fixed point if and only if each
  one used is in coerced form and within its constraints (`ResolutionIsFixedPoint`). In
  `UntypedDefaultRejected` both fail.

## Model

| member | source | states |
|---|---|---|
| Graph.StuckHasCycle | manifest/workflow.go:311-315 | steps that all wait for one another contain a dependency cycle, exhibited by walking it |
| Graph.TopologicalIsAcyclic | manifest/workflow.go:276-318 | an order in which every step follows its dependencies rules out every cycle and every unknown dependency |
| ExecutionOrder.StarvedHasCycle | manifest/workflow.go:296-315 | when the queue runs dry with steps left over, the left-over steps contain a cycle |
| ExecutionOrder.Kahn | manifest/workflow.go:276-318 | the loops over the remaining and dependents tables: on unique ids success if and only if dependencies are known and acyclic, and then a permutation in dependency order that starts with the independent steps as declared; a duplicated id succeeds only if its last step waits for nothing |
| Workflow.WorkflowExecutionOrder | manifest/workflow.go:276-318 | the same for workflow steps, also in terms of their trimmed and lower-cased ids: every step follows those it names, and the steps that name none come first as declared |
| Condition.SplitOnTopLevelOperator | manifest/workflow.go:988-1008 | splits at the first operator outside template braces, with both parts trimmed, or reports none |
| Condition.SplitsHere | manifest/workflow.go:988-1008 | a printed binary expression splits exactly at the operator it was printed with |
| Condition.NeverSplits | manifest/workflow.go:988-1008 | a balanced clause without that operator outside templates never splits |
| Condition.EvaluatePrinted | manifest/workflow.go:926-982 | evaluating the printed text of any or-of-ands gives the tree's truth value, or the same short-circuited error |
| Condition.BlankHolds | manifest/workflow.go:926-930 | a blank condition holds |
| Condition.AndText | manifest/workflow.go:947-956 | two clauses with the and operator between them: the second counts only if the first holds |
| Condition.OrText | manifest/workflow.go:937-946 | two clauses with the or operator between them: the second counts only if the first does not hold |
| Condition.TemplateIsClause | manifest/workflow.go:988-1008 | a text with a template is one clause, whatever operators stand inside the template |
| Inputs.LookupWorkflowPath | manifest/workflow.go:779-813 | the walk finds what following the trimmed parts finds, and nothing for an empty path or part |
| Inputs.LookupIndex | manifest/workflow.go:797-806 | a decimal number steps into an array at that index, and past its end finds nothing |
| Inputs.MergeWorkflowMaps | manifest/workflow.go:362-386 | the map-filling loop computes the recursive merge |
| Inputs.MergeIdempotent | manifest/workflow.go:267-273 | merging the defaults in a second time changes nothing |
| Inputs.RuntimeWins | manifest/workflow.go:362-386 | along any path a runtime value that is no object wins and hides every default below it |
| Inputs.DefaultShows | manifest/workflow.go:362-386 | where both sides are objects and the runtime side lacks the key, the default is found with all below it |
| Inputs.MergeInventsNothing | manifest/workflow.go:362-386 | whatever the merge holds at a path was there on one of the two sides |
| Inputs.ValidateWorkflowInputs | manifest/workflow.go:225-263 | accepts if and only if the merged inputs have no undeclared name where that is forbidden, every required name, and values of the declared types and constraints |
| Inputs.SatisfiesText | manifest/workflow.go:225-263 | the same verdict in terms of what the schema says: closed names, required names, and what each kind asks of a value |
| Inputs.ValidateMerged | manifest/workflow.go:225-273 | validating already merged inputs gives the same verdict |
| Template.RenderWorkflowString | manifest/workflow.go:664-716 | the match-and-build loop computes the left-to-right rendering, with a whole-string token keeping its type |
| Template.ForeignString | manifest/workflow.go:664-716 | text with only foreign tokens renders without error to itself with blanks in the tokens normalized |
| Template.NoNewToken | manifest/workflow.go:80 | normalizing tokens never makes a new token start where none did |
| Template.ReprintedTwice | manifest/workflow.go:664-716 | normalizing twice is normalizing once, and foreign text stays foreign |
| TemplateRoots.ContextTokens | manifest/workflow.go:727-760 | a token under inputs, metadata or each yields the named value itself, or fails |
| TemplateRoots.DispatchTokens | manifest/workflow.go:749-759 | the named fields under auth and workflow, and no others |
| TemplateRoots.StepTokens | manifest/workflow.go:762-777 | each field of a step's result, and no others |
| TemplateRoots.PathRenders | manifest/workflow.go:727-760 | a token over any path under a context root yields what following the path finds |
| TemplateRoots.TokenInText | manifest/workflow.go:664-699 | between other text a token is replaced by the text of what it yields alone |
| Rendering.RenderWorkflowInput | manifest/workflow.go:325-360 | fails if and only if a key or string does not resolve; otherwise the result renders the tree for some order of walking each object |
| Rendering.ForeignNeverFails | manifest/workflow.go:325-360 | a tree without Yggdrasil-rooted tokens never fails to render |
| Rendering.RenderIdempotent | manifest/workflow.go:325-360 | rendering what such a tree rendered to succeeds again and can only give that same tree, whatever the orders of walking |
| Rendering.RenderDeterministic | manifest/workflow.go:325-360 | with distinct rendered keys the order of walking objects does not matter |
| Rendering.TokenFreeUnchanged | manifest/workflow.go:325-360 | a token-free tree is its own and only rendering |
| ScheduleTick.BisectionIsExact | addons/workflow_scheduler.go:454-473 | for all int64 endpoints the wrapping unsigned distance and midpoint are the true ones, across the epoch and over the full range |
| ScheduleTick.Bisect | addons/workflow_scheduler.go:454-473 | at most 64 probes, and for a well-behaved schedule exactly the greatest occurrence not after now, never an invalid exit |
| ScheduleTick.SelectWorkflowScheduleTick | addons/workflow_scheduler.go:424-479 | due exactly when an occurrence lies after the last one fired and not after now; skip picks the greatest such and the least later one, catch_up the least; invalid only for an unknown policy or a missing time |
| ScheduleProtocol.StepKeepsInv | addons/workflow_scheduler.go:186-410 | every step of any worker keeps the protocol invariant |
| ScheduleProtocol.TicksCommittedOnce | addons/workflow_scheduler.go:186-410 | in every run committed ticks strictly increase past the stored cursor, and each is launched at most once and only if committed |
| ScheduleProtocol.NothingAfterEnd | addons/workflow_scheduler.go:261-266 | no run commits a tick by a pass that began after end_at |
| ScheduleProtocol.WinnerIsNext | addons/workflow_scheduler.go:186-410 | under catch_up a pass that wins saw the cursor as it still is, so it commits the very next occurrence |
| ScheduleProtocol.RunIsConsecutive | addons/workflow_scheduler.go:186-410 | with an anchor every run commits exactly the consecutive occurrences after it, whatever was refused on the way |
| ScheduleProtocol.UnanchoredSkips | addons/workflow_scheduler.go:220-240 | the run of two workers that commits an occurrence and a later one past the one between |
| ScheduleProtocol.GaplessIffAnchored | addons/workflow_scheduler.go:186-410 | no run leaves a gap if and only if there is a stored tick or a start_at, or the window has no room to pass over an occurrence |
| ScheduleProtocol.SkippableIffRoomy | addons/workflow_scheduler.go:220-260 | an occurrence can be passed over if and only if one has two more behind it, the first an hour before end_at and the second not after it; always without end_at |
| ScheduleProtocol.ScheduleRow.UpsertWorkflowScheduleState | repository/workflow_trigger.go:32-55 | the row is inserted or advances only past a strictly older tick |
| ScheduleProtocol.ScheduleRow.ProcessScheduledWorkflow | addons/workflow_scheduler.go:186-410 | a pass is a run of its worker's steps, and commits and launches the selected tick unless the lock, the window, a gate, the transaction or a newer row refuses |
| EventTriggers.StepKeepsInv | addons/workflow_event_triggers.go:101-199 | every step of any worker, the loss of the lock session included, keeps the protocol invariant |
| EventTriggers.DispatchedAtMostOnce | addons/workflow_event_triggers.go:101-199 | in every run without overlapping passes, with crashes, lost sessions, hand-offs and replayed batches, each pair is dispatched at most once and has its match record |
| EventTriggers.OnceIffNoOverlap | addons/workflow_event_triggers.go:101-199 | at most once in every run if and only if overlapping passes are ruled out, for any matcher with a match |
| EventTriggers.OnceIffSessionsSafe | addons/workflow_event_triggers.go:101-199 | at most once in every run of some workers if and only if none whose session may die under a pass has another beside it |
| EventTriggers.RecordPrecedesDispatch | addons/workflow_event_triggers.go:384-449 | in every run, overlapping passes included, a step dispatches at most one pair, and its record is in the log before that step |
| EventTriggers.CursorPassesOnlySettledPairs | addons/workflow_event_triggers.go:163-198 | in every run, overlapping passes included, an event the saved cursor has passed lay in a batch all of whose loaded pairs were non-matches, recorded, or reported failures |
| EventTriggers.LockHoldsCursor | addons/workflow_event_triggers.go:163-198 | while every pass loads the trigger and every examination of the pair meets the emergency lock, no run moves the cursor past the event |
| EventTriggers.LostSessionDispatchesTwice | addons/workflow_event_triggers.go:101-199 | for any two workers and any event and trigger that match, the run that dispatches the pair twice |
| EventTriggers.TriggerStore.ProcessMatchedTrigger | addons/workflow_event_triggers.go:384-449 | lock, capacity, dedup read, record and dispatch in that order as the environment answers: a record is added and a run dispatched exactly when no entry of the log records this manifest with this event |
| EventTriggers.TriggerStore.RunWorkflowEventTriggersPass | addons/workflow_event_triggers.go:101-199 | a pass is exactly the worker's sequence of steps from acquiring the lock to releasing it; if nothing refuses, every matching pair of the batch that was not recorded before is dispatched |
| InboxWriter.AlertsAreStretch | addons/heimdall_inbox_writer.go:74-176 | the limited query returns the contiguous stretch of alerts after the cursor |
| InboxWriter.AlertsComplete | addons/heimdall_inbox_writer.go:93-100 | the query leaves out a later alert only when it has reached its limit |
| InboxWriter.AlertsCopiedOnce | addons/heimdall_inbox_writer.go:74-176 | under any interleaving of writers every alert at or below the stored cursor has exactly one inbox row |
| InboxWriter.SoleWriterAdvances | addons/heimdall_inbox_writer.go:74-176 | with a single writer the cursor never moves back |
| InboxWriter.ForwardIffSole | addons/heimdall_inbox_writer.go:70-176 | the cursor advances in every run of a set of writers if and only if there is at most one |
| InboxWriter.SlowWriterMovesCursorBack | addons/heimdall_inbox_writer.go:70-176 | for any two writers, the run in which the slow one moves the shared cursor back |
| InboxWriter.InboxStore.RunHeimdallInboxWriterPass | addons/heimdall_inbox_writer.go:74-176 | a pass is a run of its writer's steps, copies every pending alert up to the first failing insert and saves the highest sequence copied; without failures and with at most a hundred waiting, all are in the inbox |
| InboxDispatcher.RowsExecutedOnce | addons/heimdall_inbox_dispatcher.go:98-268 | in every run each row is executed at most once and only when processed; every row is exactly one of pending, processed and exhausted, with at most ten failures |
| InboxDispatcher.SettledForGood | addons/heimdall_inbox_dispatcher.go:98-268 | no step changes a processed or exhausted row, lowers a failure count or starts a row again |
| InboxDispatcher.CapNeverBinds | addons/heimdall_inbox_dispatcher.go:136-145 | within the failure budget the 300-second cap is never the binding term |
| InboxDispatcher.FailuresAreSpread | addons/heimdall_inbox_dispatcher.go:136-145 | recorded failure k+1 comes more than 5k(k+1) seconds after the first, so exhaustion takes more than 450 seconds |
| InboxDispatcher.ExhaustedRun | addons/heimdall_inbox_dispatcher.go:187-200 | a run in which a row fails ten times and is exhausted |
| InboxDispatcher.ExecutedRun | addons/heimdall_inbox_dispatcher.go:136-145 | for any number of failures within the budget, a run in which the row is then executed |
| InboxDispatcher.InboxTable.SelectPending | addons/heimdall_inbox_dispatcher.go:133-162 | claims an oldest unheld row that is unprocessed, has budget left and was last tried more than ten seconds per failure ago, exactly when there is one |
| InboxDispatcher.InboxTable.RunHeimdallInboxDispatcherPass | addons/heimdall_inbox_dispatcher.go:98-268 | a pass is a run of its worker's steps: the claimed row is marked and executed, or charged with a failure, or left alone when the commit fails |
| InboxPipeline.Projects | addons/heimdall_inbox_writer.go:74-176 | a run of writers and dispatchers together is a run of each, with one table row per insert |
| InboxPipeline.AlertsExecutedOnce | addons/heimdall_inbox_dispatcher.go:98-268 | in every run of the pipeline only firing alerts are executed, none twice, each has at most one row, and none at or below the cursor lacks one |
| QuickstartSteps.ValidateSteps | manifest/integration_quickstart.go:142-164 | accepts if and only if there are steps, with well-formed distinct ids and a use each |
| QuickstartSteps.CompileSteps | manifest/integration_quickstart_compile.go:239-301 | fails if and only if a use does not decode; otherwise each step waits for the one before and the smoke test for the last |
| QuickstartSteps.CompiledText | manifest/integration_quickstart_compile.go:239-263 | a compiled step field by field |
| QuickstartSteps.SmokeText | manifest/integration_quickstart_compile.go:264-283 | the compiled smoke test field by field |
| QuickstartSteps.ChainHasOneOrder | manifest/workflow.go:276-318 | a chain of steps has no dependency order but itself |
| QuickstartSteps.CompiledOrder | manifest/integration_quickstart_compile.go:239-283 | sorting the compiled steps gives the declared order with the smoke test last, unless a step takes the smoke test's name, and then a cycle error |
| QuickstartInputs.ValidateQuestions | manifest/integration_quickstart.go:106-140 | accepts if and only if ids are well formed and distinct, labels given, types known, selects have choices and patterns compile |
| QuickstartInputs.QuestionText | manifest/integration_quickstart.go:106-140 | a valid question in terms of its characters, kinds, choices and pattern |
| QuickstartInputs.CoerceMeans | manifest/integration_quickstart_compile.go:124-168 | exactly which raw values coerce to a value: itself, a whole float or decimal text for an integer, a boolean word for a boolean |
| QuickstartInputs.CoerceInteger | manifest/integration_quickstart_compile.go:131-151 | an integer supplied as number, float or its decimal text comes out the same |
| QuickstartInputs.CoerceTwice | manifest/integration_quickstart_compile.go:124-168 | coercing a coerced value changes nothing |
| QuickstartInputs.BooleanWords | manifest/integration_quickstart_compile.go:152-163 | the words that coerce to each truth value |
| QuickstartInputs.ConstraintsText | manifest/integration_quickstart_compile.go:170-212 | one of the choices for a select, a match for a text, a number within both bounds for an integer |
| QuickstartInputs.ValidateAndDefaultInputs | manifest/integration_quickstart_compile.go:76-114 | accepts if and only if every question has an answer and nothing undeclared is supplied, and then holds the answers and nothing else, the last of several under one id |
| QuickstartInputs.BuildInputSchema | manifest/integration_quickstart_compile.go:214-237 | one property per id with the JSON type, description and secret flag of its last question, and exactly the required ids required |
| QuickstartInputs.PropertyText | manifest/integration_quickstart_compile.go:221-231 | the compiled property field by field |
| QuickstartInputs.DefaultsAccepted | manifest/integration_quickstart_compile.go:76-237 | accepted inputs, as defaults, pass the compiled workflow's own validation if and only if every default used for an omitted input has its declared type |
| QuickstartInputs.ResolutionIsFixedPoint | manifest/integration_quickstart_compile.go:76-114 | resolving the resolved inputs gives them back if and only if the defaults used are coerced and within their constraints |
| QuickstartInputs.UntypedDefaultRejected | manifest/integration_quickstart_compile.go:89-95 | a validated question whose default is taken over, then rejected by the workflow and by a second resolution |
| Quickstart.ValidateQuickstart | manifest/integration_quickstart.go:49-104 | accepts if and only if there are providers with distinct well-formed ids and valid requirements, inputs, steps and smoke test |
| Quickstart.CompileQuickstart | manifest/integration_quickstart_compile.go:28-74 | fails if and only if no provider is named, an input is refused or a use does not decode; otherwise schema, defaults and steps are those of the named provider |
| Quickstart.StartCompiled | manifest/integration_quickstart_compile.go:28-55 | the compiled workflow, sorted and validated by the workflow code, runs in the declared order and accepts its own defaults, with the exact exceptions |
| Quickstart.TakenNameFails | manifest/integration_quickstart_compile.go:239-283 | a validated provider that compiles and whose steps the sort rejects, because one takes the smoke test's name |
| Rbac.AnyPatternMatch | manifest/rbac.go:216-233 | some non-blank trimmed pattern matches as a glob or up to case |
| Rbac.BindingMatchesSubject | manifest/rbac.go:202-210 | some normalized subject of the binding covers both parts, a star covering anything |
| Rbac.ValidateRbacSpec | manifest/rbac.go:23-75 | accepts if and only if roles are given, unique and valid and every binding is complete and names known roles |
| Rbac.MeetsCovered | manifest/rbac.go:83-174 | what an evaluation meets in a specification it meets in any that covers it |
| Rbac.Rearranged | manifest/rbac.go:83-174 | reordering or repeating subjects, bindings, role names and rules, and reordering roles, changes neither what is met nor the verdict |
| Rbac.ValidRearranged | manifest/rbac.go:23-75 | such a rearrangement stays valid as long as roles stay unique |
| Rbac.AnswerableRearranged | manifest/rbac.go:83-107 | such a rearranged request is still answered |
| RbacText.SpecText | manifest/rbac.go:23-75 | a valid specification in terms of its names, effect words, patterns, subjects and role references |
| RbacText.VerdictText | manifest/rbac.go:83-174 | allowed if and only if a rule without effect or with allow reaches a subject through a binding, and none with deny does, all on the manifest's own text |
| RbacText.BoundMet | manifest/rbac.go:123-134 | a role is met exactly when a binding that lists a subject names it |
| RbacText.MetIsCited | manifest/rbac.go:136-153 | a reported match carries the fields of a rule that reaches a subject |
| RbacEvaluation.NormalSubjects | manifest/authorization.go:144-158 | the normalized subjects that count, each once, in order of first appearance |
| RbacEvaluation.NotedReports | manifest/rbac.go:114-164 | the flags say which effects occurred, roles are listed once each, and one rule per match key |
| RbacEvaluation.EventsMet | manifest/rbac.go:123-164 | the nested loops meet exactly what the declarative rule says |
| RbacEvaluation.Accumulate | manifest/rbac.go:109-164 | the four nested loops accumulate the trace of their events |
| RbacEvaluation.EvaluateRbacSubjects | manifest/rbac.go:83-174 | an error exactly for an invalid specification, a blank resource or action or no valid subject; otherwise deny words override allow words among the rules that reach a subject, with exactly the bound roles and the reaching rules reported |
| Policy.ValidatePolicySpec | manifest/policy.go:40-87 | accepts if and only if rules are given, uniquely named and valid, conditions included |
| Policy.RulesText | manifest/policy.go:40-87 | a valid policy in terms of its names, effect words, patterns and conditions |
| Policy.LookupPath | manifest/policy.go:271-297 | the walk finds what the dotted path names, with no empty segment, and does not enter the added subject list |
| Policy.FindPath | manifest/policy.go:271-297 | a path of dot-free segments is followed field by field |
| Policy.ConditionReads | manifest/policy.go:173-176 | the operator gets the field the key names and the expected value, a reference standing for the field it names |
| Policy.EvaluatePolicyConditions | manifest/policy.go:167-193 | matches if and only if all conditions hold, and errs if and only if the first one that does not hold is an error |
| Policy.PolicyFiresText | manifest/policy.go:108-135 | which effects fire, in terms of effect words, patterns and conditions |
| Policy.MatchedText | manifest/policy.go:117-131 | exactly the rules that reach are reported, field by field |
| Policy.EvaluatePolicy | manifest/policy.go:90-148 | an error exactly for invalid rules, blank requests or an erring targeted rule; otherwise a deny word over an allow word over not applicable, with the applicable rules listed in order |
| Authorization.AuthorizationPolicyInput | manifest/authorization.go:91-142 | computes the policy's input, and the caller's map with its subject object completed in place |
| Authorization.InputNamespace | manifest/authorization.go:96-106 | every path into the caller's input is found again under input, and apart from the subject under its flat name |
| Authorization.SubjectSeen | manifest/authorization.go:108-141 | the caller's own subject fields stay, and a missing type or id is that of the first resolved subject |
| Authorization.SubjectsSeen | manifest/authorization.go:116-118 | under subjects the policy finds the caller's own value, or the resolved subjects |
| Authorization.EvaluateAuthorizationSubjects | manifest/authorization.go:22-82 | allowed if and only if a bound RBAC rule allows, none denies and no applicable policy rule denies, on the text of the rules; an error exactly when RBAC or a policy that is reached cannot answer |
| Authorization.PolicyNarrows | manifest/authorization.go:45-82 | what a policy permits is permitted with fewer deny rules and by RBAC alone |
| Product.ValidateRequirements | manifest/product.go:111-143 | accepts if and only if each requirement is valid with its defaults and no two share a key |
| Product.SourceTableText | manifest/product.go:161-262 | a valid source as a table: which fields each kind has and does not have |
| Product.RendererTableText | manifest/product.go:325-395 | a valid renderer as a table: which kinds go together, and who may carry path, include and values |
| Product.DependenciesText | manifest/product.go:94-106 | every depends_on names another component |
| Product.ValidateProductSpec | manifest/product.go:34-109 | accepts if and only if header, components, sources, renderers, targets and dependencies meet the declarative rule |
| Materialize.RewriteComponents | manifest/product_materialize.go:41-91 | stops exactly at a component the generator leaves without objects; otherwise the rewritten components, their traces and the number of calls |
| Materialize.MaterializeProductSpec | manifest/product_materialize.go:31-98 | a valid product is materialized if and only if the generator delivers objects with an apiVersion and a kind for every integration component; the result is valid, differs in integration sources only, and has none left |
| Materialize.ValidStays | manifest/product.go:325-350 | rewriting keeps a valid product valid exactly when the generated objects are valid, because an integration source admits only the renderer an inline source admits |
| Materialize.RewrittenText | manifest/product_materialize.go:52-69 | an integration component is asked about under the product's category and class, and carries what was generated and nothing else of its old source |
| Materialize.TraceText | manifest/product_materialize.go:71-87 | a trace carries the component's name and takes from it only what the generator left blank |
| Materialize.MaterializeTwice | manifest/product_materialize.go:31-98 | materializing the result again succeeds with any generator, calls nothing and gives it back |
| Materialize.TraceAt | manifest/product_materialize.go:71-90 | one trace per generator call, under the names of the integration components in order |

## Left out

Modelled as parameters of the model:

- Cron schedules: any `Next` that returns the least element after an instant of an unbounded set of whole seconds.
- Regular expressions, `path.Match`, `strings.EqualFold`, value printing and the JSON round trip of step uses: arbitrary functions.
- Policy operators: an arbitrary function of operator, value found and value expected that yields true, false or an error; only the left-to-right short circuit is concrete.
- Condition clauses: the comparison inside a clause is an arbitrary function of its text.
- `eventMatchesTrigger`: an arbitrary predicate of event and trigger.
- Locks, gates, broker liveness, transaction outcomes and crashes: decided by the environment at every step.
- The product component generator: an arbitrary function of call number and input.

Assumed of the store:

- Event sequences become visible in increasing order, and the event log only grows.
- A row lock excludes other claims until its transaction ends; committed match records are visible to the dedup read.
- The advisory lock admits one pass at a time while its session lives; a session may die under a pass.

Not modelled, or modelled more simply:

- Text.Lower: folds ASCII letters only, where `strings.ToLower` folds all of Unicode.
- Strings are sequences of runes; byte lengths count UTF-8 bytes only where the code measures bytes.
- Value cloning is the identity, because values are immutable here; aliasing is modelled only for the subject object completed in place.
- QuickstartInputs.CoerceMeans: a float outside the 64-bit integers is refused, where Go's conversion is implementation-defined.
- QuickstartInputs.ResolutionIsFixedPoint: is stated for distinct question ids, which validation guarantees; with a text and an integer question under one id it fails.
- Error texts, log messages, metrics and the bodies of detached runs; an execution is recorded as started.
- HTTP, RabbitMQ and Postgres start-up, retention and cleaner loops, interval parsing: plumbing or single statements.
- `for_each` steps, workflow and trigger validation, dispatch modes, and the capacity, integration, surface, tenant and guardian validators: independent field checks.
