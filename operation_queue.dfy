/** `OKOperationQueue`: the admission pipeline that wires an operation's conditions,
    observers and exclusivity categories to the executor before handing it over.
    The executor itself is represented by the steps recorded in the queue's log, and
    the exclusivity controller by the calls it receives. */
module OperationQueue {
  import opened SwiftStd
  import opened OperationCondition
  import opened Operation
  import MutuallyExclusive

  function CategoryOf(c: Condition): Option<string> {
    if c.isMutuallyExclusive then Some(c.typeName) else None
  }

  /** The exclusivity categories of an operation: the type names of its mutually
      exclusive conditions, in condition order. There are none exactly when no
      condition is mutually exclusive. */
  function Categories(conditions: seq<Condition>): (r: seq<string>)
    ensures |r| <= |conditions|
    ensures r == [] <==> forall i :: 0 <= i < |conditions| ==> !conditions[i].isMutuallyExclusive
  {
    FlatMapEmpty(conditions, CategoryOf);
    FlatMap(conditions, CategoryOf)
  }

  function DependencyOf(c: Condition): Option<nat> {
    c.dependency
  }

  /** The auxiliary work items the conditions ask for, in condition order. */
  function Dependencies(conditions: seq<Condition>): seq<nat> {
    FlatMap(conditions, DependencyOf)
  }

  /** A name is a category exactly when some mutually exclusive condition has that type name. */
  lemma CategoriesMember(conditions: seq<Condition>, name: string)
    ensures name in Categories(conditions) <==>
              exists i :: 0 <= i < |conditions| && conditions[i].isMutuallyExclusive && conditions[i].typeName == name
  {
    FlatMapMember(conditions, CategoryOf, name);
    if exists i :: 0 <= i < |conditions| && CategoryOf(conditions[i]) == Some(name) {
      var i :| 0 <= i < |conditions| && CategoryOf(conditions[i]) == Some(name);
      assert conditions[i].isMutuallyExclusive;
    }
  }

  /** Categories, like dependencies, keep the order of the conditions. */
  lemma ConditionOrderKept(a: seq<Condition>, b: seq<Condition>)
    ensures Categories(a + b) == Categories(a) + Categories(b)
    ensures Dependencies(a + b) == Dependencies(a) + Dependencies(b)
  {
    FlatMapAppend(a, b, CategoryOf);
    FlatMapAppend(a, b, DependencyOf);
  }

  /** An item is a dependency exactly when some condition asks for it. */
  lemma DependenciesMember(conditions: seq<Condition>, d: nat)
    ensures d in Dependencies(conditions) <==>
              exists i :: 0 <= i < |conditions| && conditions[i].dependency == Some(d)
  {
    FlatMapMember(conditions, DependencyOf, d);
  }

  /** Adding a `MutuallyExclusive<T>` condition adds its name as the last category and
      no dependency. */
  lemma MutuallyExclusiveAdmission(conditions: seq<Condition>, typeArgument: string)
    ensures Categories(conditions + [MutuallyExclusive.Instance(typeArgument)])
         == Categories(conditions) + [MutuallyExclusive.Name(typeArgument)]
    ensures Dependencies(conditions + [MutuallyExclusive.Instance(typeArgument)]) == Dependencies(conditions)
  {
    var c := MutuallyExclusive.Instance(typeArgument);
    FlatMapSnoc(conditions, c, CategoryOf);
    FlatMapSnoc(conditions, c, DependencyOf);
  }

  /** The loop of `addOperation` that asks each condition, in order, for its
      auxiliary work item and keeps the ones it gets. */
  method CollectDependencies(conditions: seq<Condition>) returns (dependencies: seq<nat>)
    ensures dependencies == Dependencies(conditions)
  {
    dependencies := [];
    for i := 0 to |conditions|
      invariant dependencies == Dependencies(conditions[..i])
    {
      assert conditions[..i + 1] == conditions[..i] + [conditions[i]];
      FlatMapSnoc(conditions[..i], conditions[i], DependencyOf);
      var dependency := conditions[i].dependency;
      if dependency.Some? {
        dependencies := dependencies + [dependency.value];
      }
    }
    assert conditions[..|conditions|] == conditions;
  }

  /** A call received by the exclusivity controller. */
  datatype ControllerCall =
    | AddedOperation(op: OKOperation, categories: seq<string>)
    | RemovedOperation(op: OKOperation, categories: seq<string>)

  /** The exclusivity controller, of which only the calls it receives and the
      dependency edges it adds are represented. Which edges it adds, to keep operations
      of one category from running together, depends on its own bookkeeping, which is
      not part of this model. */
  class ExclusivityController {
    var calls: seq<ControllerCall>

    constructor ()
      ensures calls == []
    {
      calls := [];
    }

    /** `addOperation(_:categories:)`: records the registration and gives the operation
        the dependency edges (`edges`, in the order added) that enforce its exclusivity;
        which edges those are is left open. */
    method AddOperation(op: OKOperation, categories: seq<string>) returns (edges: seq<Item>)
      modifies this`calls, op`dependencies
      ensures calls == old(calls) + [AddedOperation(op, categories)]
      ensures op.dependencies == old(op.dependencies) + edges
    {
      edges :| true;
      op.dependencies := op.dependencies + edges;
      calls := calls + [AddedOperation(op, categories)];
    }

    /** `removeOperation(_:categories:)`. */
    method RemoveOperation(op: OKOperation, categories: seq<string>)
      modifies this`calls
      ensures calls == old(calls) + [RemovedOperation(op, categories)]
    {
      calls := calls + [RemovedOperation(op, categories)];
    }
  }

  /** The finish handler of a deregistration observer: it removes the finished
      operation from the controller under the observer's categories. */
  method DeregistrationFinished(observer: Observer, op: OKOperation, controller: ExclusivityController)
    requires observer.Deregister?
    modifies controller`calls
    ensures controller.calls == old(controller.calls) + [RemovedOperation(op, observer.categories)]
  {
    controller.RemoveOperation(op, observer.categories);
  }

  /** One step of admission, in the order the queue takes them. */
  datatype Step =
    | ObserverAttached(op: OKOperation, observer: Observer)
    | DependencyAdded(op: OKOperation, dependency: Item)
    | Registered(op: OKOperation, categories: seq<string>)
    | Enqueued(op: OKOperation)
    | Admitted(item: Item)
    | WaitedFor(item: Item)

  function PlainItems(ids: seq<nat>): (r: seq<Item>)
    ensures |r| == |ids| && forall k :: 0 <= k < |ids| ==> r[k] == Plain(ids[k])
  {
    seq(|ids|, k requires 0 <= k < |ids| => Plain(ids[k]))
  }

  /** The observers the queue attaches: the relay, then the deregistration observer
      when there are categories. */
  function AttachedObservers(queue: nat, categories: seq<string>): (r: seq<Observer>)
    ensures 1 <= |r| <= 2 && r[0] == Relay(queue)
    ensures Deregister(categories) in r <==> categories != []
  {
    [Relay(queue)] + if categories == [] then [] else [Deregister(categories)]
  }

  lemma AttachedObserversAppend(observers: seq<Observer>, queue: nat, categories: seq<string>)
    ensures observers + [Relay(queue)] + (if categories == [] then [] else [Deregister(categories)])
         == observers + AttachedObservers(queue, categories)
  {
  }

  /** For each dependency in turn: the edge is added to the operation, then the
      dependency is admitted. */
  function DependencySteps(op: OKOperation, dependencies: seq<nat>): seq<Step>
    decreases |dependencies|
  {
    if dependencies == [] then []
    else
      var d := dependencies[|dependencies| - 1];
      DependencySteps(op, dependencies[..|dependencies| - 1]) + [DependencyAdded(op, Plain(d)), Admitted(Plain(d))]
  }

  /** The steps of attaching a managed operation whose conditions are `conditions`:
      the relay, the dependencies, then the registration and deregistration observer. */
  function AttachSteps(queue: nat, op: OKOperation, conditions: seq<Condition>): seq<Step> {
    var categories := Categories(conditions);
    [ObserverAttached(op, Relay(queue))]
    + DependencySteps(op, Dependencies(conditions))
    + (if categories == [] then [] else [Registered(op, categories), ObserverAttached(op, Deregister(categories))])
  }

  /** The attachment steps, appended one group at a time to an existing log. */
  lemma AttachLog(log: seq<Step>, queue: nat, op: OKOperation, conditions: seq<Condition>)
    ensures var categories := Categories(conditions);
            log + [ObserverAttached(op, Relay(queue))]
            + DependencySteps(op, Dependencies(conditions))
            + (if categories == [] then [] else [Registered(op, categories), ObserverAttached(op, Deregister(categories))])
            == log + AttachSteps(queue, op, conditions)
  {
  }

  /** The steps of preparing a managed operation whose conditions are `conditions`. */
  function PreparationSteps(queue: nat, op: OKOperation, conditions: seq<Condition>): seq<Step> {
    AttachSteps(queue, op, conditions) + [Enqueued(op)]
  }

  /** The preparation steps, appended in two groups to an existing log. */
  lemma PreparationLog(log: seq<Step>, queue: nat, op: OKOperation, conditions: seq<Condition>)
    ensures log + AttachSteps(queue, op, conditions) + [Enqueued(op)] == log + PreparationSteps(queue, op, conditions)
  {
  }

  /** The steps of `addOperation` for an item whose conditions are `conditions`. */
  function AdmissionSteps(queue: nat, item: Item, conditions: seq<Condition>): seq<Step> {
    match item
    case Plain(_) => [Admitted(item)]
    case Managed(op) => PreparationSteps(queue, op, conditions) + [Admitted(item)]
  }

  lemma DependencyStepsSnoc(op: OKOperation, dependencies: seq<nat>, i: nat)
    requires i < |dependencies|
    ensures DependencySteps(op, dependencies[..i + 1])
         == DependencySteps(op, dependencies[..i]) + [DependencyAdded(op, Plain(dependencies[i])), Admitted(Plain(dependencies[i]))]
  {
    assert dependencies[..i + 1][..i] == dependencies[..i];
  }

  /** The dependency steps alternate: the edge to the k-th dependency, then its admission. */
  lemma {:induction false} DependencyStepsShape(op: OKOperation, dependencies: seq<nat>)
    ensures |DependencySteps(op, dependencies)| == 2 * |dependencies|
    ensures forall k :: 0 <= k < |dependencies| ==>
              DependencySteps(op, dependencies)[2 * k] == DependencyAdded(op, Plain(dependencies[k])) &&
              DependencySteps(op, dependencies)[2 * k + 1] == Admitted(Plain(dependencies[k]))
    decreases |dependencies|
  {
    if dependencies != [] {
      var prefix := dependencies[..|dependencies| - 1];
      DependencyStepsShape(op, prefix);
      forall k | 0 <= k < |prefix| ensures prefix[k] == dependencies[k] { }
    }
  }

  /** The shape of `addOperation` for an operation, in order: the relay is attached
      first; every dependency, in condition order, becomes an edge and is admitted; the
      operation is registered with the controller, and then given the deregistration
      observer, when it has categories; `willEnqueue` follows, and the operation is
      admitted last. */
  lemma AdmissionOrder(queue: nat, op: OKOperation, conditions: seq<Condition>)
    ensures var s := AdmissionSteps(queue, Managed(op), conditions);
            var deps := Dependencies(conditions);
            var categories := Categories(conditions);
            && |s| == 3 + 2 * |deps| + (if categories == [] then 0 else 2)
            && s[0] == ObserverAttached(op, Relay(queue))
            && (forall k :: 0 <= k < |deps| ==>
                  s[1 + 2 * k] == DependencyAdded(op, Plain(deps[k])) && s[2 + 2 * k] == Admitted(Plain(deps[k])))
            && (categories != [] ==>
                  s[1 + 2 * |deps|] == Registered(op, categories) &&
                  s[2 + 2 * |deps|] == ObserverAttached(op, Deregister(categories)))
            && s[|s| - 2] == Enqueued(op)
            && s[|s| - 1] == Admitted(Managed(op))
  {
    var deps := Dependencies(conditions);
    var ds := DependencySteps(op, deps);
    DependencyStepsShape(op, deps);
    var s := AdmissionSteps(queue, Managed(op), conditions);
    forall k | 0 <= k < |deps|
      ensures s[1 + 2 * k] == DependencyAdded(op, Plain(deps[k])) && s[2 + 2 * k] == Admitted(Plain(deps[k]))
    {
      assert s[1 + 2 * k] == ds[2 * k];
      assert s[2 + 2 * k] == ds[2 * k + 1];
    }
  }

  /** An operation is handed to the executor exactly once, as the last step, and is
      registered with the controller exactly when it has categories. */
  lemma AdmittedOnceRegisteredIff(queue: nat, op: OKOperation, conditions: seq<Condition>)
    ensures var s := AdmissionSteps(queue, Managed(op), conditions);
            && (forall k :: 0 <= k < |s| - 1 ==> s[k] != Admitted(Managed(op)))
            && (Categories(conditions) != [] <==> exists k :: 0 <= k < |s| && s[k].Registered?)
            && (forall k :: 0 <= k < |s| && s[k].Registered? ==> s[k] == Registered(op, Categories(conditions)))
  {
    var s := AdmissionSteps(queue, Managed(op), conditions);
    var categories := Categories(conditions);
    AdmissionOrder(queue, op, conditions);
    forall k | 0 <= k < |s| - 1
      ensures s[k] != Admitted(Managed(op))
      ensures s[k].Registered? ==> categories != [] && s[k] == Registered(op, categories)
    {
      EarlierStep(queue, op, conditions, k);
    }
    if categories != [] {
      assert s[1 + 2 * |Dependencies(conditions)|].Registered?;
    }
  }

  /** A step before the last is not the operation's own hand-over, and it is a
      registration only when there are categories, and then under those categories. */
  lemma EarlierStep(queue: nat, op: OKOperation, conditions: seq<Condition>, k: nat)
    requires k < |AdmissionSteps(queue, Managed(op), conditions)| - 1
    ensures var s := AdmissionSteps(queue, Managed(op), conditions);
            && s[k] != Admitted(Managed(op))
            && (s[k].Registered? ==> Categories(conditions) != [] && s[k] == Registered(op, Categories(conditions)))
  {
    var s := AdmissionSteps(queue, Managed(op), conditions);
    var deps := Dependencies(conditions);
    AdmissionOrder(queue, op, conditions);
    if 1 <= k <= 2 * |deps| {
      var j := (k - 1) / 2;
      assert j < |deps|;
      if k == 1 + 2 * j {
        assert s[k] == DependencyAdded(op, Plain(deps[j]));
      } else {
        assert s[k] == Admitted(Plain(deps[j]));
      }
    }
  }

  function ConditionsOf(item: Item): seq<Condition>
    reads if item.Managed? then {item.op} else {}
  {
    if item.Managed? then item.op.conditions else []
  }

  /** The operations among `items`. */
  function OperationsOf(items: seq<Item>): (r: set<OKOperation>)
    ensures forall k :: 0 <= k < |items| && items[k].Managed? ==> items[k].op in r
    decreases |items|
  {
    if items == [] then {}
    else
      var n := |items| - 1;
      assert forall k :: 0 <= k < n ==> items[..n][k] == items[k];
      OperationsOf(items[..n]) + (if items[n].Managed? then {items[n].op} else {})
  }

  /** The controller calls `addOperation` makes for an item with these conditions. */
  function Registrations(item: Item, conditions: seq<Condition>): seq<ControllerCall> {
    if item.Managed? && Categories(conditions) != [] then [AddedOperation(item.op, Categories(conditions))] else []
  }

  /** The conditions of each item, in list order. */
  ghost function ConditionsList(items: seq<Item>): (r: seq<seq<Condition>>)
    reads OperationsOf(items)
    ensures |r| == |items| && forall k :: 0 <= k < |items| ==> r[k] == ConditionsOf(items[k])
    decreases |items|
  {
    if items == [] then []
    else
      var front := items[..|items| - 1];
      assert forall k :: 0 <= k < |front| ==> front[k] == items[k];
      ConditionsList(front) + [ConditionsOf(items[|items| - 1])]
  }

  /** The chunks `chunk` gives for `items`, item `k` having the conditions
      `conditions[k]`, one after the other in list order. */
  function Batch<T>(items: seq<Item>, conditions: seq<seq<Condition>>, chunk: (Item, seq<Condition>) -> seq<T>): seq<T>
    requires |conditions| == |items|
    decreases |items|
  {
    if items == [] then []
    else
      var n := |items| - 1;
      Batch(items[..n], conditions[..n], chunk) + chunk(items[n], conditions[n])
  }

  /** One more item adds its chunk at the end. */
  lemma BatchSnocChunk<T>(prefix: seq<T>, items: seq<Item>, conditions: seq<seq<Condition>>, chunk: (Item, seq<Condition>) -> seq<T>, i: nat)
    requires |conditions| == |items| && i < |items|
    ensures prefix + Batch(items[..i], conditions[..i], chunk) + chunk(items[i], conditions[i])
         == prefix + Batch(items[..i + 1], conditions[..i + 1], chunk)
  {
    assert items[..i + 1][..i] == items[..i];
    assert conditions[..i + 1][..i] == conditions[..i];
  }

  /** The chunks of a list are the chunks of its first part, then those of its second part. */
  lemma {:induction false} BatchAppend<T>(a: seq<Item>, ca: seq<seq<Condition>>, b: seq<Item>, cb: seq<seq<Condition>>,
                                          chunk: (Item, seq<Condition>) -> seq<T>)
    requires |ca| == |a| && |cb| == |b|
    ensures Batch(a + b, ca + cb, chunk) == Batch(a, ca, chunk) + Batch(b, cb, chunk)
    decreases |b|
  {
    if b == [] {
      assert a + b == a && ca + cb == ca;
    } else {
      var n := |b| - 1;
      var ab, cab := a + b, ca + cb;
      assert ab[..|ab| - 1] == a + b[..n] && ab[|ab| - 1] == b[n];
      assert cab[..|cab| - 1] == ca + cb[..n] && cab[|cab| - 1] == cb[n];
      BatchAppend(a, ca, b[..n], cb[..n], chunk);
      calc {
        Batch(ab, cab, chunk);
        Batch(a + b[..n], ca + cb[..n], chunk) + chunk(b[n], cb[n]);
        Batch(a, ca, chunk) + Batch(b[..n], cb[..n], chunk) + chunk(b[n], cb[n]);
        Batch(a, ca, chunk) + (Batch(b[..n], cb[..n], chunk) + chunk(b[n], cb[n]));
        Batch(a, ca, chunk) + Batch(b, cb, chunk);
      }
    }
  }

  /** `addOperation`'s steps as a chunk function, for the queue with identity `queue`. */
  function AdmissionChunk(queue: nat): (Item, seq<Condition>) -> seq<Step> {
    (item, conditions) => AdmissionSteps(queue, item, conditions)
  }

  /** The steps of admitting `items` one after the other, item `k` having the
      conditions `conditions[k]`. */
  function BatchSteps(queue: nat, items: seq<Item>, conditions: seq<seq<Condition>>): seq<Step>
    requires |conditions| == |items|
  {
    Batch(items, conditions, AdmissionChunk(queue))
  }

  /** The controller calls made while admitting `items` one after the other. */
  function BatchRegistrations(items: seq<Item>, conditions: seq<seq<Condition>>): seq<ControllerCall>
    requires |conditions| == |items|
  {
    Batch(items, conditions, Registrations)
  }

  /** Admitting one more item adds its steps and its controller calls at the end. */
  lemma BatchSnoc(log: seq<Step>, calls: seq<ControllerCall>, queue: nat, items: seq<Item>, conditions: seq<seq<Condition>>, i: nat)
    requires |conditions| == |items| && i < |items|
    ensures log + BatchSteps(queue, items[..i], conditions[..i]) + AdmissionSteps(queue, items[i], conditions[i])
         == log + BatchSteps(queue, items[..i + 1], conditions[..i + 1])
    ensures calls + BatchRegistrations(items[..i], conditions[..i]) + Registrations(items[i], conditions[i])
         == calls + BatchRegistrations(items[..i + 1], conditions[..i + 1])
  {
    BatchSnocChunk(log, items, conditions, AdmissionChunk(queue), i);
    BatchSnocChunk(calls, items, conditions, Registrations, i);
  }

  /** Admitting a list is admitting its first part and then its second part: items are
      admitted one after the other, in list order, with nothing in between, and so are
      their registrations with the controller. */
  lemma BatchStepsAppend(queue: nat, a: seq<Item>, ca: seq<seq<Condition>>, b: seq<Item>, cb: seq<seq<Condition>>)
    requires |ca| == |a| && |cb| == |b|
    ensures BatchSteps(queue, a + b, ca + cb) == BatchSteps(queue, a, ca) + BatchSteps(queue, b, cb)
    ensures BatchRegistrations(a + b, ca + cb) == BatchRegistrations(a, ca) + BatchRegistrations(b, cb)
  {
    BatchAppend(a, ca, b, cb, AdmissionChunk(queue));
    BatchAppend(a, ca, b, cb, Registrations);
  }

  /** Admitting a single item is exactly `addOperation` on it. */
  lemma BatchSingle(queue: nat, item: Item, conditions: seq<Condition>)
    ensures BatchSteps(queue, [item], [conditions]) == AdmissionSteps(queue, item, conditions)
    ensures BatchRegistrations([item], [conditions]) == Registrations(item, conditions)
  {
    BatchOne(item, conditions, AdmissionChunk(queue));
    BatchOne(item, conditions, Registrations);
  }

  /** The chunks of a one-item list are that item's chunk. */
  lemma BatchOne<T>(item: Item, conditions: seq<Condition>, chunk: (Item, seq<Condition>) -> seq<T>)
    ensures Batch([item], [conditions], chunk) == chunk(item, conditions)
  {
    assert [item][..0] == [] && [conditions][..0] == [];
    assert Batch([item], [conditions], chunk) == [] + chunk(item, conditions);
  }

  function Waits(items: seq<Item>): (r: seq<Step>)
    ensures |r| == |items| && forall k :: 0 <= k < |items| ==> r[k] == WaitedFor(items[k])
  {
    seq(|items|, k requires 0 <= k < |items| => WaitedFor(items[k]))
  }

  /** What `addOperation` demands of an operation through the methods it calls: an
      observer can still be attached (before `executing`) and `willEnqueue` is not
      assigning `pending` a second time. */
  ghost predicate Admissible(item: Item)
    reads if item.Managed? then {item.op} else {}
  {
    item.Managed? ==> item.op.Valid() && item.op.Logged() && Less(item.op.state, Executing) && item.op.state != Pending
  }

  /** What admission leaves in an item: a managed operation is consistent and pending. */
  ghost predicate Queued(item: Item)
    reads if item.Managed? then {item.op} else {}
  {
    item.Managed? ==> item.op.Valid() && item.op.Logged() && item.op.state == Pending
  }

  /** No operation occurs twice in the list. */
  ghost predicate DistinctOperations(items: seq<Item>) {
    forall j, k :: 0 <= j < k < |items| && items[j].Managed? && items[k].Managed? ==> items[j].op != items[k].op
  }

  /** What admission leaves in an operation: it is pending, its conditions, errors and
      finish flag are as they were, the queue's observers follow the ones it had, and
      its dependency edges are the ones it had, then the edges to the auxiliary work
      items of its conditions, then the exclusivity edges `edges` the controller added,
      which are none when the operation has no categories. */
  twostate predicate AdmittedOperation(op: OKOperation, queue: nat, new edges: seq<Item>)
    reads op
  {
    && op.Valid() && op.Logged()
    && op.state == Pending
    && op.conditions == old(op.conditions)
    && op.observers == old(op.observers) + AttachedObservers(queue, Categories(op.conditions))
    && op.dependencies == old(op.dependencies) + PlainItems(Dependencies(op.conditions)) + edges
    && (Categories(op.conditions) == [] ==> edges == [])
    && op.internalErrors == old(op.internalErrors)
    && op.hasFinishedAlready == old(op.hasFinishedAlready)
  }

  /** An item whose operation no step has touched keeps what admission asked of it. */
  twostate lemma Untouched(item: Item)
    requires item.Managed? ==> unchanged(item.op)
    ensures old(Queued(item)) ==> Queued(item)
    ensures old(Admissible(item)) ==> Admissible(item)
    ensures ConditionsOf(item) == old(ConditionsOf(item))
  {
  }

  class OKOperationQueue {
    /** Identifies this queue in the relay observers it attaches. */
    const id: nat
    const controller: ExclusivityController
    /** Every admission step taken, in order; `Admitted` is a hand-over to the executor. */
    ghost var log: seq<Step>

    constructor (id: nat, controller: ExclusivityController)
      ensures this.id == id && this.controller == controller && log == []
    {
      this.id := id;
      this.controller := controller;
      log := [];
    }

    /** `addOperation`: a managed operation is prepared and enqueued; every item is
        then handed to the executor. `edges` are the exclusivity edges the controller
        added to the operation, none for any other item. */
    method AddOperation(item: Item) returns (ghost edges: seq<Item>)
      requires Admissible(item)
      modifies this`log, controller`calls, if item.Managed? then {item.op} else {}
      decreases if item.Managed? then 5 else 0
      ensures log == old(log) + AdmissionSteps(id, item, old(ConditionsOf(item)))
      ensures controller.calls == old(controller.calls) + Registrations(item, old(ConditionsOf(item)))
      ensures item.Plain? ==> edges == []
      ensures item.Managed? ==>
                AdmittedOperation(item.op, id, edges) && item.op.events == old(item.op.events) + [StateAssigned(Pending, Pending)]
    {
      edges := [];
      if item.Managed? {
        edges := PrepareOperation(item.op);
      }
      log := log + [Admitted(item)];
    }

    /** The part of `addOperation` that only a managed operation goes through. */
    method PrepareOperation(op: OKOperation) returns (ghost edges: seq<Item>)
      requires op.Valid() && op.Logged() && Less(op.state, Executing) && op.state != Pending
      modifies this`log, controller`calls, op`observers, op`dependencies, op`state, op`events, op`history
      decreases 4
      ensures log == old(log) + PreparationSteps(id, op, op.conditions)
      ensures controller.calls == old(controller.calls) + Registrations(Managed(op), op.conditions)
      ensures op.Valid() && op.Logged()
      ensures op.state == Pending
      ensures op.observers == old(op.observers) + AttachedObservers(id, Categories(op.conditions))
      ensures op.dependencies == old(op.dependencies) + PlainItems(Dependencies(op.conditions)) + edges
      ensures Categories(op.conditions) == [] ==> edges == []
      ensures op.events == old(op.events) + [StateAssigned(Pending, Pending)]
    {
      ghost var log0 := log;
      assert !op.state.IsTerminal();
      edges := Attach(op);
      Enqueue(op);
      PreparationLog(log0, id, op, op.conditions);
    }

    /** Everything `addOperation` does to an operation before `willEnqueue`: observers,
        dependency edges and the controller registration, with the exclusivity edges
        it brings (`edges`). */
    method Attach(op: OKOperation) returns (ghost edges: seq<Item>)
      requires op.Valid() && Less(op.state, Executing)
      modifies this`log, controller`calls, op`observers, op`dependencies
      decreases 3
      ensures op.Valid() && op.state == old(op.state) && op.events == old(op.events)
      ensures op.observers == old(op.observers) + AttachedObservers(id, Categories(op.conditions))
      ensures op.dependencies == old(op.dependencies) + PlainItems(Dependencies(op.conditions)) + edges
      ensures Categories(op.conditions) == [] ==> edges == []
      ensures log == old(log) + AttachSteps(id, op, op.conditions)
      ensures controller.calls == old(controller.calls) + Registrations(Managed(op), op.conditions)
    {
      WireDependencies(op);
      edges := RegisterExclusivity(op);
      AttachedObserversAppend(old(op.observers), id, Categories(op.conditions));
      AttachLog(old(log), id, op, op.conditions);
    }

    /** The operation is told it is about to be enqueued, which makes it pending. */
    method Enqueue(op: OKOperation)
      requires op.Valid() && op.Logged() && !op.state.IsTerminal() && op.state != Pending
      modifies this`log, op`state, op`events, op`history
      ensures log == old(log) + [Enqueued(op)]
      ensures op.Valid() && op.Logged() && op.state == Pending
      ensures op.events == old(op.events) + [StateAssigned(Pending, Pending)]
      ensures op.observers == old(op.observers) && op.dependencies == old(op.dependencies)
    {
      op.WillEnqueue();
      log := log + [Enqueued(op)];
    }

    /** Attaches the relay observer, then adds each auxiliary work item the conditions
        ask for as a dependency and admits it. */
    method WireDependencies(op: OKOperation)
      requires op.Valid() && Less(op.state, Executing)
      modifies this`log, controller`calls, op`observers, op`dependencies
      decreases 2
      ensures op.Valid()
      ensures op.observers == old(op.observers) + [Relay(id)]
      ensures op.dependencies == old(op.dependencies) + PlainItems(Dependencies(op.conditions))
      ensures log == old(log) + [ObserverAttached(op, Relay(id))] + DependencySteps(op, Dependencies(op.conditions))
      ensures controller.calls == old(controller.calls)
    {
      op.AddObserver(Relay(this.id));
      log := log + [ObserverAttached(op, Relay(this.id))];
      var dependencies := CollectDependencies(op.conditions);
      AdmitDependencies(op, dependencies);
    }

    /** Registers the operation with the exclusivity controller under its categories, if
        it has any, and attaches the observer that deregisters it when it finishes. The
        registration appends the exclusivity edges `edges`; without categories there
        are none. */
    method RegisterExclusivity(op: OKOperation) returns (ghost edges: seq<Item>)
      requires op.Valid() && Less(op.state, Executing)
      modifies this`log, controller`calls, op`observers, op`dependencies
      ensures op.Valid()
      ensures op.dependencies == old(op.dependencies) + edges
      ensures Categories(op.conditions) == [] ==> edges == []
      ensures var categories := Categories(op.conditions);
              && op.observers == old(op.observers) + (if categories == [] then [] else [Deregister(categories)])
              && log == old(log) + (if categories == [] then [] else [Registered(op, categories), ObserverAttached(op, Deregister(categories))])
              && controller.calls == old(controller.calls) + Registrations(Managed(op), op.conditions)
    {
      var categories := Categories(op.conditions);
      edges := [];
      if categories != [] {
        edges := this.controller.AddOperation(op, categories);
        op.AddObserver(Deregister(categories));
        log := log + [Registered(op, categories), ObserverAttached(op, Deregister(categories))];
      } else {
        assert op.observers == old(op.observers) + [];
        assert op.dependencies == old(op.dependencies) + [];
        assert log == old(log) + [];
      }
    }

    /** The dependency loop of `addOperation`: each dependency, in order, becomes an
        edge of `op` and is then admitted into this queue. */
    method AdmitDependencies(op: OKOperation, dependencies: seq<nat>)
      requires AtMost(op.state, Executing)
      modifies this`log, controller`calls, op`dependencies
      decreases 1
      ensures log == old(log) + DependencySteps(op, dependencies)
      ensures controller.calls == old(controller.calls)
      ensures op.dependencies == old(op.dependencies) + PlainItems(dependencies)
    {
      for i := 0 to |dependencies|
        invariant op.dependencies == old(op.dependencies) + PlainItems(dependencies[..i])
        invariant log == old(log) + DependencySteps(op, dependencies[..i])
        invariant controller.calls == old(controller.calls)
      {
        DependencyStepsSnoc(op, dependencies, i);
        op.AddDependency(Plain(dependencies[i]));
        log := log + [DependencyAdded(op, Plain(dependencies[i]))];
        ghost var none := AddOperation(Plain(dependencies[i]));
      }
      assert dependencies[..|dependencies|] == dependencies;
    }

    /** `addOperations`: every item goes through `addOperation`, in list order; when
        `wait` is set the queue then waits for each item, in list order. */
    method AddOperations(items: seq<Item>, wait: bool)
      requires forall k :: 0 <= k < |items| ==> Admissible(items[k])
      requires DistinctOperations(items)
      modifies this`log, controller`calls, OperationsOf(items)
      ensures log == old(log) + BatchSteps(id, items, old(ConditionsList(items))) + (if wait then Waits(items) else [])
      ensures controller.calls == old(controller.calls) + BatchRegistrations(items, old(ConditionsList(items)))
      ensures forall k :: 0 <= k < |items| ==> Queued(items[k])
    {
      AdmitAll(items);
      if wait {
        WaitForAll(items);
      } else {
        assert log == log + [];
      }
    }

    /** The admitting half of `addOperations`: every item goes through `addOperation`,
        in list order. */
    method AdmitAll(items: seq<Item>)
      requires forall k :: 0 <= k < |items| ==> Admissible(items[k])
      requires DistinctOperations(items)
      modifies this`log, controller`calls, OperationsOf(items)
      ensures log == old(log) + BatchSteps(id, items, old(ConditionsList(items)))
      ensures controller.calls == old(controller.calls) + BatchRegistrations(items, old(ConditionsList(items)))
      ensures forall k :: 0 <= k < |items| ==> Queued(items[k])
    {
      ghost var conditions := ConditionsList(items);
      for i := 0 to |items|
        invariant log == old(log) + BatchSteps(id, items[..i], conditions[..i])
        invariant controller.calls == old(controller.calls) + BatchRegistrations(items[..i], conditions[..i])
        invariant forall k :: i <= k < |items| ==> Admissible(items[k]) && ConditionsOf(items[k]) == conditions[k]
        invariant forall k :: 0 <= k < i ==> Queued(items[k])
      {
        BatchSnoc(old(log), old(controller.calls), id, items, conditions, i);
        AdmitNext(items, conditions, i);
      }
      assert items[..|items|] == items && conditions[..|items|] == conditions;
    }

    /** One round of the `addOperations` loop: item `i` goes through `addOperation`
        and is left queued, while the items before it stay queued and the items after
        it stay admissible with their conditions. */
    method AdmitNext(items: seq<Item>, ghost conditions: seq<seq<Condition>>, i: nat)
      requires i < |items| == |conditions|
      requires DistinctOperations(items)
      requires forall k :: i <= k < |items| ==> Admissible(items[k]) && ConditionsOf(items[k]) == conditions[k]
      requires forall k :: 0 <= k < i ==> Queued(items[k])
      modifies this`log, controller`calls, if items[i].Managed? then {items[i].op} else {}
      ensures log == old(log) + AdmissionSteps(id, items[i], conditions[i])
      ensures controller.calls == old(controller.calls) + Registrations(items[i], conditions[i])
      ensures forall k :: i < k < |items| ==> Admissible(items[k]) && ConditionsOf(items[k]) == conditions[k]
      ensures forall k :: 0 <= k <= i ==> Queued(items[k])
    {
      AdmitItem(items[i]);
      forall k | 0 <= k < |items| && k != i
        ensures old(Queued(items[k])) ==> Queued(items[k])
        ensures old(Admissible(items[k])) ==> Admissible(items[k])
        ensures ConditionsOf(items[k]) == old(ConditionsOf(items[k]))
      {
        if items[k].Managed? && items[i].Managed? {
          assert items[k].op != items[i].op;
        }
        Untouched(items[k]);
      }
    }

    /** An item of `addOperations` goes through `addOperation` and is left queued. */
    method AdmitItem(item: Item)
      requires Admissible(item)
      modifies this`log, controller`calls, if item.Managed? then {item.op} else {}
      ensures log == old(log) + AdmissionSteps(id, item, old(ConditionsOf(item)))
      ensures controller.calls == old(controller.calls) + Registrations(item, old(ConditionsOf(item)))
      ensures Queued(item)
    {
      ghost var edges := AddOperation(item);
    }

    /** The waiting half of `addOperations`: the queue waits for each item, in list order. */
    method WaitForAll(items: seq<Item>)
      modifies this`log
      ensures log == old(log) + Waits(items)
    {
      for i := 0 to |items|
        invariant log == old(log) + Waits(items[..i])
      {
        assert Waits(items[..i + 1]) == Waits(items[..i]) + [WaitedFor(items[i])];
        log := log + [WaitedFor(items[i])];
      }
      assert items[..|items|] == items;
    }

    /** The produce handler of the relay observer this queue attaches: the produced
        item is admitted into this same queue. */
    method RelayProduced(item: Item) returns (ghost edges: seq<Item>)
      requires Admissible(item)
      modifies this`log, controller`calls, if item.Managed? then {item.op} else {}
      ensures log == old(log) + AdmissionSteps(id, item, old(ConditionsOf(item)))
      ensures controller.calls == old(controller.calls) + Registrations(item, old(ConditionsOf(item)))
      ensures item.Managed? ==> AdmittedOperation(item.op, id, edges)
    {
      edges := AddOperation(item);
    }
  }
}
