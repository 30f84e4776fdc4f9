# OperationKit admission and lifecycle, in Dafny

This project models the core of OperationKit, a Swift library of operations whose life runs through a fixed set of states.

An operation:
- is made ready only when its conditions are satisfied;
- reports its start, the work it produces and its finish to observers;
- is admitted by a queue that wires up dependencies and mutual-exclusion categories first.

The model covers four pieces.

- **`Operation`** (`operation.dfy`): `OKOperation` is a class with the source's fields.
  - Fields: `state`, `observers`, `conditions`, `internalErrors`, `hasFinishedAlready`, and the executor's `dependencies`.
  - A ghost event log records everything visible from outside:
    - state assignments, with the requested and the resulting state;
    - observer notifications;
    - calls of `execute` and of the completion hook `finished`.
  - Three ghost summaries of that log (`history`, `hookCalls`, `finishNotices`) carry the invariant `Valid`:
    - terminal states absorb;
    - `finished` is reached only through `finish`;
    - the hook has run exactly once after `finish` and never before;
    - each observer has been told of the finish exactly once after `finish`.
  - The `state` setter is the function `Assign`. `SetState` records it.
  - Condition evaluation is split in two:
    - `EvaluateConditions` assigns `evaluatingConditions`;
    - `OnConditionsEvaluated` is the evaluator's completion, which arrives later.
- **`OperationCondition`** (`operation_condition.dfy`): condition results, the `error` accessor, and the evaluator.
  - The evaluator asks every condition in turn.
  - Results arrive in any order into one array slot per condition.
  - The failures are collected slot by slot, plus one `ConditionFailed` if the operation is cancelled.
- **`MutuallyExclusive`** (`mutually_exclusive.dfy`): the constant condition `MutuallyExclusive<T>`, with `T` represented by its printed name, and the `AlertPresentation` alias.
- **`OperationQueue`** (`operation_queue.dfy`): `OKOperationQueue.addOperation` and `addOperations`.
  - The executor is represented by the queue's ghost log of steps. `Admitted` is the hand-over to the executor; `WaitedFor` is `waitUntilFinished`.
  - The exclusivity controller is represented by the calls it receives and the dependency edges it appends to the operation it registers. Which edges it adds is left open: the contracts carry them as `edges`, which is empty when the operation has no categories.
  - `AdmissionSteps` is the exact sequence of steps taken for one item. `BatchSteps` is the sequence for a list.

`SwiftStd` (`swift_std.dfy`) holds `Optional` and the array `flatMap` that drops nil results, which the source uses to build the category list.

Where the code and its documentation differ, the model follows the code:
- A cancelled operation that is then finished stays `cancelled`. `cancelled` is absorbing (`OperationKit/Operation.swift:45-46`), so the `state = .finished` in `finish` has no effect, and `isFinished` stays false.
- `willEnqueue` assigns `pending` from any state. The only restriction is the setter's own assertion that a non-terminal state is not assigned again.
- The condition type carries a type name, an exclusivity flag, an optional dependency and a result. The queue and `MutuallyExclusive` use the exclusivity flag, even though the `OperationCondition` protocol in `OperationKit/OperationCondition.swift:12-19` does not declare it.

## Model

| member | source | states |
|---|---|---|
| Operation.Less | OperationKit/Operation.swift:215-217 | `<` is irreflexive. Nothing is below `initialized`, and `cancelled` is below nothing. |
| Operation.AtMost | OperationKit/Operation.swift:121 | `<=`, derived from `<`, holds exactly for equal states or states below. |
| Operation.Notifications | OperationKit/Operation.swift:109-111 | The observer loops produce one notification per observer, for the i-th observer at position i, all carrying the same notice. |
| Operation.FinishEvents | OperationKit/Operation.swift:196-203 | The events of a first `finish`, in order: first the hook with the combined errors, then the finish notices of all observers, then `finished` assigned last. |
| Operation.StateOrder | OperationKit/Operation.swift:215-220 | Equal raw values means equal states. `<` is a strict total order on states. The terminal states are exactly the last two. |
| Operation.Assign | OperationKit/Operation.swift:44-51 | From `finished` or `cancelled`, the state is kept. From any other state, the requested state is stored, and it differs from the current one (the assertion becomes a precondition). |
| Operation.TerminalAbsorbs | OperationKit/Operation.swift:44-48 | From a terminal state, every series of assignments is accepted and leaves the state unchanged at each step. |
| Operation.HistoryExtends | OperationKit/Operation.swift:44-51 | An assignment the setter accepts keeps the state history well formed. |
| Operation.HistoryTerminalFinal | OperationKit/Operation.swift:44-48 | In a well-formed history, every state after a terminal one is that same state. |
| Operation.NotificationProjections | OperationKit/Operation.swift:199-201 | Notifying observers assigns no state and calls no hook. The finish notifications name exactly the observers, in attachment order. |
| Operation.OKOperation.constructor | OperationKit/Operation.swift:34-65 | A new operation is `initialized`, with no observers, conditions, errors or dependencies, and has not finished. |
| Operation.OKOperation.SetState | OperationKit/Operation.swift:40-57 | The state becomes `Assign(old state, requested)`. The assignment is logged with both values, and the history invariant is kept. |
| Operation.OKOperation.IsReady | OperationKit/Operation.swift:74-86 | Answers yes exactly when the state is `ready` and the executor says ready. A pending operation the executor considers ready moves to `evaluatingConditions`. In every other case nothing changes. |
| Operation.OKOperation.IsExecuting | OperationKit/Operation.swift:87-89 | True exactly in `executing`. |
| Operation.OKOperation.IsFinished | OperationKit/Operation.swift:90-92 | True exactly in `finished`. Then `finish` has run and the hook was called exactly once. |
| Operation.OKOperation.IsCancelled | OperationKit/Operation.swift:93-95 | True exactly in `cancelled`. |
| Operation.OKOperation.Start | OperationKit/Operation.swift:104-114 | Only from `ready`. The events, in order: `executing` assigned; every observer told of the start in attachment order; `execute` entered; then the finish events. The operation ends finished. |
| Operation.OKOperation.Execute | OperationKit/Operation.swift:115-119 | The default `execute` finishes with no extra errors. On a first finish, the hook receives `internalErrors`. |
| Operation.OKOperation.AddDependency | OperationKit/Operation.swift:120-124 | Only while the state is at most `executing`. Appends the item to the executor's dependencies. |
| Operation.OKOperation.Cancel | OperationKit/Operation.swift:125-127 | `cancelWithError(nil)`: no error recorded, and `cancelled` assigned through the setter. |
| Operation.OKOperation.WillEnqueue | OperationKit/Operation.swift:135-137 | Assigns `pending` through the setter. |
| Operation.OKOperation.EvaluateConditions | OperationKit/Operation.swift:138-142 | Only from `pending`. Moves to `evaluatingConditions`. |
| Operation.OKOperation.OnConditionsEvaluated | OperationKit/Operation.swift:143-152 | No failures: `ready` is assigned and nothing else happens. Failures: `cancelled` is assigned, then `finish(failures)` runs. On a first finish, the hook receives `internalErrors` followed by the failures, and the state stays `cancelled`. |
| Operation.OKOperation.AddObserver | OperationKit/Operation.swift:162-166 | Only before `executing`. Appends the observer. |
| Operation.OKOperation.AddCondition | OperationKit/Operation.swift:167-171 | Only before `evaluatingConditions`. Appends the condition. |
| Operation.OKOperation.ProduceOperation | OperationKit/Operation.swift:172-176 | Tells every observer, in attachment order, of the produced item. Nothing else changes. |
| Operation.OKOperation.CancelWithError | OperationKit/Operation.swift:177-183 | Appends the error only when there is one. Always assigns `cancelled` through the setter, so repeated calls keep the state `cancelled`. |
| Operation.OKOperation.FinishWithError | OperationKit/Operation.swift:184-191 | `finish` with the one error, or with none. |
| Operation.OKOperation.Finish | OperationKit/Operation.swift:192-205 | Acts on the first call only. The hook gets `internalErrors + errors`, then every observer is told of the finish in attachment order, then `finished` is assigned last. A cancelled operation stays cancelled. Later calls change nothing. The invariant keeps the hook and each finish notice at exactly once. |
| Operation.OKOperation.FinishOnce | OperationKit/Operation.swift:194-203 | The first `finish`: the events are exactly `FinishEvents` of `internalErrors + errors`, and the state becomes `Assign(old, finished)`. |
| Operation.OKOperation.Announce | OperationKit/Operation.swift:194-201 | Sets the guard. The hook runs once with the combined errors, then every observer is told of the finish. The state is not yet assigned. |
| Operation.OKOperation.Notify | OperationKit/Operation.swift:199-201 | The loop over the observers logs one notification per observer, in attachment order. |
| Operation.OKOperation.FinishedHook | OperationKit/Operation.swift:206-208 | The completion hook does nothing but is recorded, with the errors it received. |
| OperationCondition.ErrorOf | OperationKit/OperationCondition.swift:25-31 | `Failed(e)` gives `e`. `Satisfied` gives nothing. |
| OperationCondition.ResultsOf | OperationKit/OperationCondition.swift:40-49 | One result slot per condition, each holding its own condition's result. |
| OperationCondition.Aggregate | OperationKit/OperationCondition.swift:55-69 | The failures, plus exactly one trailing `ConditionFailed` when cancelled. The length is at most the number of conditions plus one. |
| OperationCondition.FailuresAppend | OperationKit/OperationCondition.swift:55-61 | Failures are collected in input order: they distribute over concatenation. |
| OperationCondition.Failures | OperationKit/OperationCondition.swift:55-61 | At most one failure per result. There are none exactly when every result is `Satisfied`. |
| OperationCondition.FailuresMember | OperationKit/OperationCondition.swift:55-61 | An error is collected exactly when some result failed with it. |
| OperationCondition.AggregateEmpty | OperationKit/OperationCondition.swift:53-71 | The completion sees an empty list exactly when every condition is satisfied and the operation is not cancelled. |
| OperationCondition.AggregateFirstAndLastFail | OperationKit/OperationCondition.swift:55-61 | With the first and last of three conditions failing, the completion gets their two errors, in order. |
| OperationCondition.Evaluate | OperationKit/OperationCondition.swift:36-73 | Every condition is asked, in order, with no short-circuit (`asked` is the whole condition list). A slot receives only the answer of the condition asked for it. Whatever order the completions arrive in, the list passed on is `Aggregate` of the conditions' results in condition order. |
| MutuallyExclusive.Name | OperationKit/MutuallyExclusive.swift:13-15 | The name is `MutuallyExclusive<`, then the type argument's name, then `>`. |
| MutuallyExclusive.NameInjective | OperationKit/MutuallyExclusive.swift:13-15 | Distinct printed type names give distinct condition names, and so distinct categories. |
| MutuallyExclusive.IsMutuallyExclusive | OperationKit/MutuallyExclusive.swift:17-19 | Always true. |
| MutuallyExclusive.DependencyForOperation | OperationKit/MutuallyExclusive.swift:23-25 | Never a dependency. |
| MutuallyExclusive.EvaluateForOperation | OperationKit/MutuallyExclusive.swift:27-29 | Always `Satisfied`, which carries no error. |
| MutuallyExclusive.Instance | OperationKit/MutuallyExclusive.swift:12-30 | The condition's name is its category. It is exclusive, has no dependency, and is satisfied. |
| MutuallyExclusive.AlertPresentation | OperationKit/MutuallyExclusive.swift:36-39 | It is `MutuallyExclusive<Alert>`, with the name `MutuallyExclusive<Alert>`. |
| MutuallyExclusive.InstancesNeverFail | OperationKit/MutuallyExclusive.swift:27-29 | Any number of such conditions contribute no failure to aggregation. |
| OperationQueue.CategoriesMember | OperationKit/OperationQueue.swift:47-51 | A name is a category exactly when some mutually exclusive condition has that type name. |
| OperationQueue.Categories | OperationKit/OperationQueue.swift:47-53 | At most one category per condition. There are none exactly when no condition is mutually exclusive, which is what the `isEmpty` test at line 53 decides. |
| OperationQueue.ConditionOrderKept | OperationKit/OperationQueue.swift:29-51 | Categories and dependencies keep condition order: they distribute over concatenation. |
| OperationQueue.DependenciesMember | OperationKit/OperationQueue.swift:29-34 | An item is a dependency exactly when some condition asks for it. |
| OperationQueue.MutuallyExclusiveAdmission | OperationKit/OperationQueue.swift:47-51 | Adding a `MutuallyExclusive<T>` condition adds its name as the last category and adds no dependency. |
| OperationQueue.CollectDependencies | OperationKit/OperationQueue.swift:29-34 | The loop keeps each non-nil dependency, in condition order. |
| OperationQueue.ExclusivityController.constructor | OperationKit/OperationQueue.swift:55-60 | A new controller has received no calls. |
| OperationQueue.ExclusivityController.AddOperation | OperationKit/OperationQueue.swift:57 | Records one registration call with its categories. It may append dependency edges to the operation, and changes nothing else of it. |
| OperationQueue.ExclusivityController.RemoveOperation | OperationKit/OperationQueue.swift:60 | Records one deregistration call with its categories. |
| OperationQueue.DeregistrationFinished | OperationKit/OperationQueue.swift:59-61 | When the operation finishes, the deregistration observer removes it under the same categories it was registered with. |
| OperationQueue.AttachedObservers | OperationKit/OperationQueue.swift:19-61 | The observers the queue adds: the relay comes first, and a deregistration observer, carrying the same category list, is among them exactly when the list is non-empty. At most two observers are added. |
| OperationQueue.DependencyStepsShape | OperationKit/OperationQueue.swift:36-40 | For each dependency in order, the edge is added and then the dependency is admitted. |
| OperationQueue.AdmissionOrder | OperationKit/OperationQueue.swift:16-72 | For an operation, in order: (1) the relay observer; (2) each dependency's edge and admission, in condition order; (3) registration and then the deregistration observer, when there are categories; (4) `willEnqueue`; (5) admission last. |
| OperationQueue.AdmittedOnceRegisteredIff | OperationKit/OperationQueue.swift:53-72 | The operation is handed to the executor only in the last step. Some step is a registration exactly when its category list is non-empty, and every registration step carries that list. |
| OperationQueue.EarlierStep | OperationKit/OperationQueue.swift:36-62 | No step before the last is the operation's own admission. Any registration step implies there are categories, and it carries them. |
| OperationQueue.BatchStepsAppend | OperationKit/OperationQueue.swift:80-82 | Admitting a list is admitting its first part, then its second part, with nothing in between. The same holds for the controller calls. |
| OperationQueue.BatchSingle | OperationKit/OperationQueue.swift:80-82 | Admitting a one-item list is exactly `addOperation` on that item. |
| OperationQueue.OKOperationQueue.constructor | OperationKit/OperationQueue.swift:12 | A new queue has an empty log. |
| OperationQueue.OKOperationQueue.AddOperation | OperationKit/OperationQueue.swift:16-72 | The log grows by exactly `AdmissionSteps`: a plain item is only admitted, with no observers, edges or registration. The controller gets `Registrations`. An operation is left pending with the same conditions, errors and finish flag. Its observers follow the old ones. Its dependency edges are the old ones, then the edges to its conditions' work items, then the controller's exclusivity edges (none without categories). |
| OperationQueue.OKOperationQueue.PrepareOperation | OperationKit/OperationQueue.swift:17-69 | The managed branch: attachment steps, then `willEnqueue`, which leaves the operation pending. The dependency edges are the old ones, the condition edges, then the exclusivity edges. |
| OperationQueue.OKOperationQueue.Attach | OperationKit/OperationQueue.swift:19-62 | Observers, dependency edges and registration. The edges are the condition edges followed by the controller's exclusivity edges, which are none without categories. The state and the event log are untouched. |
| OperationQueue.OKOperationQueue.Enqueue | OperationKit/OperationQueue.swift:69 | `willEnqueue` runs after all attachment work and makes the operation pending. |
| OperationQueue.OKOperationQueue.WireDependencies | OperationKit/OperationQueue.swift:19-40 | The relay is attached first. Then each dependency, in condition order, becomes an edge and is admitted. |
| OperationQueue.OKOperationQueue.RegisterExclusivity | OperationKit/OperationQueue.swift:47-62 | With categories: one controller registration, whose exclusivity edges are appended to the operation, and a deregistration observer, both with the same list. Without categories: nothing, and no edges. |
| OperationQueue.OKOperationQueue.AdmitDependencies | OperationKit/OperationQueue.swift:36-40 | Each dependency's edge, then its admission into this queue, in order. |
| OperationQueue.OKOperationQueue.AddOperations | OperationKit/OperationQueue.swift:75-89 | Every item goes through `addOperation` in list order. With `wait`, the queue then waits for each item in list order; without it, there are no waits. |
| OperationQueue.OKOperationQueue.AdmitAll | OperationKit/OperationQueue.swift:80-82 | The loop: the log is the batch of each item's admission steps, in list order, and every item is left queued. |
| OperationQueue.OKOperationQueue.AdmitNext | OperationKit/OperationQueue.swift:80-82 | One round: item `i` is admitted. Earlier items stay queued; later ones stay admissible, with their conditions. |
| OperationQueue.OKOperationQueue.AdmitItem | OperationKit/OperationQueue.swift:81 | One item goes through `addOperation` and is left queued. |
| OperationQueue.OKOperationQueue.WaitForAll | OperationKit/OperationQueue.swift:84-88 | Waits for each item, in list order. |
| OperationQueue.OKOperationQueue.RelayProduced | OperationKit/OperationQueue.swift:21-23 | A produced item is admitted into the same queue through `addOperation`, with the same effect on a produced operation. |

## Left out

- Key-value observing (`willChangeValue`/`didChangeValue` and the `keyPath` strings) is not modelled. It is notification plumbing for the executor and changes no field.
- Dispatch groups and global queues are not modelled. The evaluator's concurrency is represented as an arbitrary completion order (`arrivals`) followed by one aggregation step.
- OperationCondition.Evaluate: requires every condition to call its completion exactly once (`IsCompletionOrder`). In the source, a condition that never completes leaves the dispatch group waiting, so the operation stays in `evaluatingConditions` forever. A condition that completes twice unbalances the group. Neither case is modelled.
- The executor (`Foundation.Operation` and `OperationQueue`) is not modelled:
  - `super.isReady` is the parameter `baseReady`;
  - `super.addDependency` appends to `dependencies`;
  - `super.addOperation` is the `Admitted` log step;
  - `waitUntilFinished` is the `WaitedFor` log step.
- The executor's scheduling is not modelled: when it calls `isReady` or `start`, and whether the evaluator's completion ever arrives. Each is a separate method the environment may call.
- Every method is modelled as running alone, one call at a time. The source takes no lock. In particular, the at-most-once guard of `finish` (`OperationKit/Operation.swift:193-194`) is a check followed by a set, and two threads calling `finish` or `finishWithError` together can both pass it. Then the hook and the finish notices run twice. "Exactly once" is proved only for calls that do not overlap. Likewise, the evaluator's completions write the `results` array (`OperationKit/OperationCondition.swift:47`) one at a time in the model.
- A condition's type is identified by its printed, unqualified name, as `\(T.self)` and `\(type(of: condition))` print it. So in the source, two distinct types with the same simple name (nested in different types, or in different modules) share one name and one exclusivity category. The model cannot tell such types apart.
- The `ExclusivityController` implementation is not part of this model. The calls it receives are recorded with their arguments. The dependency edges its `addOperation` adds are left unspecified, so the model does not say which earlier operation of a category a newly registered one waits for.
- The `print` in the default `execute` is not modelled. Subclass overrides of `execute` and `finished` are not modelled; the defaults are.
- Dependencies that conditions ask for are modelled as plain work items, identified by number. An `OKOperation` returned as a condition's dependency is therefore admitted as a plain item.
- Observers are tagged values: the queue's relay, the deregistration observer, and opaque ones. A notification is a logged event. The finish and produce handlers of the queue's observers are `DeregistrationFinished` and `RelayProduced`, which the environment calls.
- Errors are an abstract datatype with a distinguished `ConditionFailed`. The `NSError` construction helpers are not modelled.
- `AlertOperation` (UI presentation) is not modelled.
- The Swift `assert`s become preconditions:
  - `SetState` and `WillEnqueue`: not re-assigning a non-terminal state;
  - `Start`: `ready`;
  - `EvaluateConditions`: `pending`;
  - `AddObserver`, `AddCondition`, `AddDependency`: the attachment windows.
  - The callers' requirements follow from these. `Admissible` asks `addOperation` for an operation before `executing` and not already pending.
- OperationQueue.OKOperationQueue.AddOperations: requires that no operation occurs twice in the list. A repeated operation would be pending at its second `willEnqueue`, which fails the setter's assertion.
- OperationQueue.OKOperationQueue.AddOperations: states only that each item is left queued (consistent and pending). For a single item, `AddOperation` states the full effect on its observers and dependency edges.
- The recursive admission of dependencies is not unfolded: dependencies are plain items, so admitting one takes exactly one step.
