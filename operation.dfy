/** `OKOperation`: an operation whose life runs through a fixed set of states, whose
    readiness waits on its conditions, and whose start, products and finish are
    reported to its observers. */
module Operation {
  import opened SwiftStd
  import opened OperationCondition

  /** `OKOperation.State`, ordered by its raw value. `Finished` and `Cancelled` are terminal. */
  datatype State = Initialized | Pending | EvaluatingConditions | Ready | Executing | Finished | Cancelled {

    function RawValue(): nat {
      match this
      case Initialized => 0
      case Pending => 1
      case EvaluatingConditions => 2
      case Ready => 3
      case Executing => 4
      case Finished => 5
      case Cancelled => 6
    }

    predicate IsTerminal() {
      this == Finished || this == Cancelled
    }
  }

  /** `<` on states: comparison of raw values. No state is below itself or below
      `initialized`, and none is above `cancelled`. */
  predicate Less(a: State, b: State): (r: bool)
    ensures r ==> a != b && a != Cancelled && b != Initialized
  {
    a.RawValue() < b.RawValue()
  }

  /** `<=` on states, as `Comparable` derives it from `<`: equal, or below. */
  predicate AtMost(a: State, b: State): (r: bool)
    ensures r <==> a == b || Less(a, b)
  {
    !Less(b, a)
  }

  /** The source's `==` on states compares raw values; that is equality of states, and
      `<` is a strict total order in which the two terminal states come last. */
  lemma StateOrder(a: State, b: State)
    ensures a.RawValue() == b.RawValue() <==> a == b
    ensures Less(a, b) || a == b || Less(b, a)
    ensures !(Less(a, b) && Less(b, a))
    ensures a.IsTerminal() <==> !Less(a, Finished)
  {
  }

  /** The value the `state` setter leaves in `_state`: a terminal state is kept,
      any other state is replaced by the requested one. Requesting the state already
      held, outside the terminal states, fails the setter's assertion. */
  function Assign(current: State, requested: State): (r: State)
    requires current.IsTerminal() || current != requested
    ensures current.IsTerminal() ==> r == current
    ensures !current.IsTerminal() ==> r == requested && r != current
  {
    if current.IsTerminal() then current else requested
  }

  /** Whether every assignment of `requested`, in turn from `current`, passes the setter's assertion. */
  ghost predicate Assignable(current: State, requested: seq<State>)
    decreases |requested|
  {
    requested == [] ||
    ((current.IsTerminal() || current != requested[0]) &&
     Assignable(Assign(current, requested[0]), requested[1..]))
  }

  /** The states held after each of a series of assignments. */
  ghost function Replay(current: State, requested: seq<State>): (r: seq<State>)
    requires Assignable(current, requested)
    decreases |requested|
  {
    if requested == [] then []
    else var next := Assign(current, requested[0]); [next] + Replay(next, requested[1..])
  }

  /** From a terminal state, any series of assignments is accepted and changes nothing. */
  lemma {:induction false} TerminalAbsorbs(current: State, requested: seq<State>)
    requires current.IsTerminal()
    ensures Assignable(current, requested)
    ensures |Replay(current, requested)| == |requested|
    ensures forall i :: 0 <= i < |requested| ==> Replay(current, requested)[i] == current
  {
    if requested != [] {
      TerminalAbsorbs(current, requested[1..]);
    }
  }

  /** An observer attached to an operation. The queue attaches two kinds: the relay that
      re-admits produced work into the queue with the given identity, and the one that
      deregisters the operation from the exclusivity controller under `categories`.
      Every other observer is opaque. */
  datatype Observer = Relay(queue: nat) | Deregister(categories: seq<string>) | Opaque(id: nat)

  /** A work item handed to the executor: an `OKOperation`, or any other operation. */
  datatype Item = Plain(id: nat) | Managed(op: OKOperation)

  datatype Notice = DidStart | DidProduce(item: Item) | DidFinish

  /** What an operation does that is visible from outside its fields: an assignment to
      `state` (the requested state and the state that results), a notification of an
      observer, an entry into `execute`, a call of the completion hook `finished`. */
  datatype Event =
    | StateAssigned(requested: State, result: State)
    | Notified(observer: Observer, notice: Notice)
    | ExecuteCalled
    | FinishedHookCalled(errors: seq<Error>)

  /** Every observer notified, in attachment order: one notification each, all of the
      same notice. */
  function Notifications(observers: seq<Observer>, notice: Notice): (r: seq<Event>)
    ensures |r| == |observers|
    ensures forall i :: 0 <= i < |r| ==> r[i].Notified? && r[i].observer == observers[i] && r[i].notice == notice
  {
    seq(|observers|, i requires 0 <= i < |observers| => Notified(observers[i], notice))
  }

  /** One round of a notification loop, appended to the log and to the finish notices. */
  lemma NotifyStep(log: seq<Event>, notices: seq<Observer>, observers: seq<Observer>, notice: Notice, i: nat)
    requires i < |observers|
    ensures log + Notifications(observers[..i], notice) + [Notified(observers[i], notice)]
         == log + Notifications(observers[..i + 1], notice)
    ensures (if notice.DidFinish? then notices + observers[..i] + [observers[i]] else notices + [])
         == notices + if notice.DidFinish? then observers[..i + 1] else []
  {
    assert Notifications(observers[..i + 1], notice)
        == Notifications(observers[..i], notice) + [Notified(observers[i], notice)];
    assert observers[..i + 1] == observers[..i] + [observers[i]];
  }

  /** The events of a first call of `finish`: the hook receives the combined errors, every
      observer is told of the finish, and `finished` is assigned to the state last. */
  function FinishEvents(combined: seq<Error>, observers: seq<Observer>, result: State): (r: seq<Event>)
    ensures |r| == |observers| + 2
    ensures r[0] == FinishedHookCalled(combined)
    ensures r[1..|r| - 1] == Notifications(observers, DidFinish)
    ensures r[|r| - 1] == StateAssigned(Finished, result)
  {
    [FinishedHookCalled(combined)] + Notifications(observers, DidFinish) + [StateAssigned(Finished, result)]
  }

  function StateOf(e: Event): Option<State> {
    if e.StateAssigned? then Some(e.result) else None
  }

  function HookOf(e: Event): Option<seq<Error>> {
    if e.FinishedHookCalled? then Some(e.errors) else None
  }

  function FinishNoticeOf(e: Event): Option<Observer> {
    if e.Notified? && e.notice.DidFinish? then Some(e.observer) else None
  }

  /** The finish events, appended one group at a time to an existing log. */
  lemma FinishLog(log: seq<Event>, combined: seq<Error>, observers: seq<Observer>, result: State)
    ensures log + [FinishedHookCalled(combined)] + Notifications(observers, DidFinish) + [StateAssigned(Finished, result)]
         == log + FinishEvents(combined, observers, result)
  {
  }

  /** The successive values of the state, one per assignment. */
  function StatesOf(events: seq<Event>): seq<State> {
    FlatMap(events, StateOf)
  }

  /** The error lists the completion hook received, one per call. */
  function HooksOf(events: seq<Event>): seq<seq<Error>> {
    FlatMap(events, HookOf)
  }

  /** The observers told of the finish, one per notification. */
  function FinishNoticesOf(events: seq<Event>): seq<Observer> {
    FlatMap(events, FinishNoticeOf)
  }

  /** A history of state values ending in `current` (or empty, with the initial state),
      in which a terminal state is only ever followed by itself. Stated one assignment
      at a time; `HistoryTerminalFinal` gives the whole-history reading. */
  ghost predicate HistoryOk(history: seq<State>, current: State)
    decreases |history|
  {
    if history == [] then current == Initialized
    else
      var before := history[..|history| - 1];
      var previous := if before == [] then Initialized else before[|before| - 1];
      && history[|history| - 1] == current
      && HistoryOk(before, previous)
      && (previous.IsTerminal() ==> current == previous)
  }

  /** Recording an assignment keeps the history well formed. */
  lemma HistoryExtends(history: seq<State>, current: State, requested: State)
    requires HistoryOk(history, current)
    requires current.IsTerminal() || current != requested
    ensures HistoryOk(history + [Assign(current, requested)], Assign(current, requested))
  {
    assert (history + [Assign(current, requested)])[..|history|] == history;
  }

  /** In a well-formed history, every state after a terminal one is that same state. */
  lemma {:induction false} HistoryTerminalFinal(history: seq<State>, current: State)
    requires HistoryOk(history, current)
    ensures forall i, j :: 0 <= i < j < |history| && history[i].IsTerminal() ==> history[j] == history[i]
    ensures history != [] && history[0].IsTerminal() ==> current == history[0]
  {
    if history != [] {
      var before := history[..|history| - 1];
      var previous := if before == [] then Initialized else before[|before| - 1];
      HistoryTerminalFinal(before, previous);
      forall i, j | 0 <= i < j < |history| && history[i].IsTerminal() ensures history[j] == history[i] {
        if j == |history| - 1 && i < j - 1 {
          assert before[i] == history[i];
          assert before[|before| - 1] == before[i];
        }
      }
    }
  }

  lemma Projections(a: seq<Event>, b: seq<Event>)
    ensures StatesOf(a + b) == StatesOf(a) + StatesOf(b)
    ensures HooksOf(a + b) == HooksOf(a) + HooksOf(b)
    ensures FinishNoticesOf(a + b) == FinishNoticesOf(a) + FinishNoticesOf(b)
  {
    FlatMapAppend(a, b, StateOf);
    FlatMapAppend(a, b, HookOf);
    FlatMapAppend(a, b, FinishNoticeOf);
  }

  lemma SingleProjections(e: Event)
    ensures StatesOf([e]) == (if e.StateAssigned? then [e.result] else [])
    ensures HooksOf([e]) == (if e.FinishedHookCalled? then [e.errors] else [])
    ensures FinishNoticesOf([e]) == (if e.Notified? && e.notice.DidFinish? then [e.observer] else [])
  {
    assert [e][1..] == [];
  }

  /** Notifications change no state and call no hook; the finish notifications name
      exactly the observers notified, in order. */
  lemma {:induction false} NotificationProjections(observers: seq<Observer>, notice: Notice)
    ensures StatesOf(Notifications(observers, notice)) == []
    ensures HooksOf(Notifications(observers, notice)) == []
    ensures FinishNoticesOf(Notifications(observers, notice)) == if notice.DidFinish? then observers else []
  {
    if observers != [] {
      var head := Notified(observers[0], notice);
      assert Notifications(observers, notice) == [head] + Notifications(observers[1..], notice);
      Projections([head], Notifications(observers[1..], notice));
      SingleProjections(head);
      NotificationProjections(observers[1..], notice);
    }
  }

  /** Appending one event extends the projection it belongs to, if any, and leaves the
      others as they were. */
  lemma LoggedOne(before: seq<Event>, e: Event)
    ensures StatesOf(before + [e]) == if e.StateAssigned? then StatesOf(before) + [e.result] else StatesOf(before)
    ensures HooksOf(before + [e]) == if e.FinishedHookCalled? then HooksOf(before) + [e.errors] else HooksOf(before)
    ensures FinishNoticesOf(before + [e])
         == if e.Notified? && e.notice.DidFinish? then FinishNoticesOf(before) + [e.observer] else FinishNoticesOf(before)
  {
    Projections(before, [e]);
    SingleProjections(e);
    assert StatesOf(before) + [] == StatesOf(before);
    assert HooksOf(before) + [] == HooksOf(before);
    assert FinishNoticesOf(before) + [] == FinishNoticesOf(before);
  }

  /** Appending notifications leaves the state history and the hook calls as they were
      and adds the observers told of a finish. */
  lemma NotifiedLog(before: seq<Event>, observers: seq<Observer>, notice: Notice)
    ensures StatesOf(before + Notifications(observers, notice)) == StatesOf(before)
    ensures HooksOf(before + Notifications(observers, notice)) == HooksOf(before)
    ensures FinishNoticesOf(before + Notifications(observers, notice))
         == FinishNoticesOf(before) + if notice.DidFinish? then observers else []
  {
    Projections(before, Notifications(observers, notice));
    NotificationProjections(observers, notice);
    assert StatesOf(before) + [] == StatesOf(before);
    assert HooksOf(before) + [] == HooksOf(before);
    assert FinishNoticesOf(before) + [] == FinishNoticesOf(before);
  }

  class OKOperation {
    var state: State
    var observers: seq<Observer>
    var conditions: seq<Condition>
    var internalErrors: seq<Error>
    var hasFinishedAlready: bool
    /** The executor's own dependency list. `addDependency` forwards to it, and so do
        the queue, for the auxiliary work items of the conditions, and the exclusivity
        controller, for the edges that keep one category from running together. */
    var dependencies: seq<Item>
    /** Everything the operation has done that is visible from outside, in order. */
    ghost var events: seq<Event>
    /** Three running summaries of `events` (see `Logged`): the states assigned, the
        error lists the completion hook received, and the observers told of the finish. */
    ghost var history: seq<State>
    ghost var hookCalls: seq<seq<Error>>
    ghost var finishNotices: seq<Observer>

    /** The operation's invariant: the state agrees with the history of assignments, in
        which terminal states absorb; `finished` is reached only through `finish`, after
        which the state is terminal; the completion hook has run once if `finish` has run
        and never otherwise, and so has each observer's finish notification. */
    ghost predicate Valid()
      reads this`state, this`hasFinishedAlready, this`observers, this`history, this`hookCalls, this`finishNotices
    {
      && (state == Finished ==> hasFinishedAlready)
      && (hasFinishedAlready ==> state.IsTerminal())
      && HistoryOk(history, state)
      && |hookCalls| == (if hasFinishedAlready then 1 else 0)
      && finishNotices == (if hasFinishedAlready then observers else [])
    }

    /** The summaries are exactly the projections of the event log. */
    ghost predicate Logged()
      reads this`events, this`history, this`hookCalls, this`finishNotices
    {
      && history == StatesOf(events)
      && hookCalls == HooksOf(events)
      && finishNotices == FinishNoticesOf(events)
    }

    constructor ()
      ensures Valid() && Logged()
      ensures state == Initialized && !hasFinishedAlready
      ensures observers == [] && conditions == [] && internalErrors == [] && dependencies == []
      ensures events == []
    {
      state := Initialized;
      observers := [];
      conditions := [];
      internalErrors := [];
      hasFinishedAlready := false;
      dependencies := [];
      events := [];
      history := [];
      hookCalls := [];
      finishNotices := [];
    }

    /** Appends `e` to the event log and to the summary it belongs to. */
    ghost method Record(e: Event)
      requires Logged()
      modifies this`events, this`history, this`hookCalls, this`finishNotices
      ensures Logged()
      ensures events == old(events) + [e]
      ensures history == if e.StateAssigned? then old(history) + [e.result] else old(history)
      ensures hookCalls == if e.FinishedHookCalled? then old(hookCalls) + [e.errors] else old(hookCalls)
      ensures finishNotices
           == if e.Notified? && e.notice.DidFinish? then old(finishNotices) + [e.observer] else old(finishNotices)
    {
      LoggedOne(events, e);
      events := events + [e];
      if e.StateAssigned? {
        history := history + [e.result];
      }
      if e.FinishedHookCalled? {
        hookCalls := hookCalls + [e.errors];
      }
      if e.Notified? && e.notice.DidFinish? {
        finishNotices := finishNotices + [e.observer];
      }
    }

    /** The `state` setter. */
    method SetState(newState: State)
      requires state.IsTerminal() || state != newState
      requires HistoryOk(history, state) && Logged()
      modifies this`state, this`events, this`history
      ensures state == Assign(old(state), newState)
      ensures events == old(events) + [StateAssigned(newState, state)]
      ensures history == old(history) + [state]
      ensures HistoryOk(history, state) && Logged()
    {
      HistoryExtends(history, state, newState);
      LoggedOne(events, StateAssigned(newState, Assign(state, newState)));
      events := events + [StateAssigned(newState, Assign(state, newState))];
      history := history + [Assign(state, newState)];
      state := Assign(state, newState);
    }

    /** The `isReady` getter, with `baseReady` the executor's own answer (dependencies
        finished). A pending operation whose dependencies are finished starts evaluating
        its conditions and answers no; a ready one answers the executor's answer; every
        other state answers no. */
    method IsReady(baseReady: bool) returns (r: bool)
      requires Valid() && Logged()
      modifies this`state, this`events, this`history
      ensures Valid() && Logged()
      ensures r <==> old(state) == Ready && baseReady
      ensures old(state) == Pending && baseReady ==>
                state == EvaluatingConditions &&
                events == old(events) + [StateAssigned(EvaluatingConditions, EvaluatingConditions)]
      ensures !(old(state) == Pending && baseReady) ==> state == old(state) && events == old(events)
    {
      match state
      case Pending =>
        if baseReady {
          EvaluateConditions();
        }
        r := false;
      case Ready =>
        r := baseReady;
      case _ =>
        r := false;
    }

    function IsExecuting(): (r: bool)
      reads this
      ensures r <==> state == Executing
    {
      state == Executing
    }

    /** `isFinished`: true only in the `finished` state, which only `finish` reaches. */
    function IsFinished(): (r: bool)
      reads this
      requires Valid() && Logged()
      ensures r <==> state == Finished
      ensures r ==> hasFinishedAlready && |HooksOf(events)| == 1
    {
      state == Finished
    }

    /** `isCancelled`: true only in the `cancelled` state. */
    function IsCancelled(): (r: bool)
      reads this
      ensures r <==> state == Cancelled
    {
      state == Cancelled
    }

    /** `start`: only from `ready`. Sets `executing`, tells every observer of the start in
        attachment order, then runs `execute`, whose default finishes the operation. */
    method Start()
      requires Valid() && Logged() && state == Ready
      modifies this`state, this`events, this`hasFinishedAlready, this`history, this`hookCalls, this`finishNotices
      ensures Valid() && Logged()
      ensures state == Finished && hasFinishedAlready
      ensures events == old(events) + [StateAssigned(Executing, Executing)]
                        + Notifications(observers, DidStart) + [ExecuteCalled]
                        + FinishEvents(internalErrors, observers, Finished)
    {
      SetState(Executing);
      Notify(DidStart);
      Execute();
    }

    /** The default `execute`: finishes the operation with no errors. */
    method Execute()
      requires Valid() && Logged()
      modifies this`state, this`events, this`hasFinishedAlready, this`history, this`hookCalls, this`finishNotices
      ensures Valid() && Logged() && hasFinishedAlready
      ensures old(hasFinishedAlready) ==> state == old(state) && events == old(events) + [ExecuteCalled]
      ensures !old(hasFinishedAlready) ==>
                state == Assign(old(state), Finished) &&
                events == old(events) + [ExecuteCalled] + FinishEvents(internalErrors, observers, state)
    {
      Record(ExecuteCalled);
      Finish([]);
      assert internalErrors + [] == internalErrors;
    }

    /** `addDependency`: only while the state is at most `executing`. */
    method AddDependency(item: Item)
      requires AtMost(state, Executing)
      modifies this`dependencies
      ensures dependencies == old(dependencies) + [item]
    {
      dependencies := dependencies + [item];
    }

    /** `cancel`: `cancelWithError` with no error. */
    method Cancel()
      requires Valid() && Logged()
      modifies this`internalErrors, this`state, this`events, this`history
      ensures Valid() && Logged()
      ensures internalErrors == old(internalErrors)
      ensures state == Assign(old(state), Cancelled)
      ensures events == old(events) + [StateAssigned(Cancelled, state)]
    {
      CancelWithError(None);
    }

    /** `willEnqueue`: assigns `pending`. */
    method WillEnqueue()
      requires Valid() && Logged()
      requires state.IsTerminal() || state != Pending
      modifies this`state, this`events, this`history
      ensures Valid() && Logged()
      ensures state == Assign(old(state), Pending)
      ensures events == old(events) + [StateAssigned(Pending, state)]
    {
      SetState(Pending);
    }

    /** First half of `evaluateConditions`: only from `pending`; assigns
        `evaluatingConditions` and hands the conditions to the evaluator, whose answer
        arrives later through `OnConditionsEvaluated`. */
    method EvaluateConditions()
      requires Valid() && Logged() && state == Pending
      modifies this`state, this`events, this`history
      ensures Valid() && Logged()
      ensures state == EvaluatingConditions
      ensures events == old(events) + [StateAssigned(EvaluatingConditions, EvaluatingConditions)]
    {
      SetState(EvaluatingConditions);
    }

    /** Second half of `evaluateConditions`, the evaluator's completion: no failures make
        the operation ready; otherwise it is cancelled and finished with the failures. */
    method OnConditionsEvaluated(failures: seq<Error>)
      requires Valid() && Logged()
      requires failures != [] || state.IsTerminal() || state != Ready
      modifies this`state, this`events, this`hasFinishedAlready, this`history, this`hookCalls, this`finishNotices
      ensures Valid() && Logged()
      ensures failures == [] ==>
                hasFinishedAlready == old(hasFinishedAlready) &&
                state == Assign(old(state), Ready) &&
                events == old(events) + [StateAssigned(Ready, state)]
      ensures failures != [] ==>
                hasFinishedAlready &&
                state == Assign(old(state), Cancelled) &&
                events == old(events) + [StateAssigned(Cancelled, state)] +
                          (if old(hasFinishedAlready) then []
                           else FinishEvents(internalErrors + failures, observers, state))
    {
      if failures == [] {
        SetState(Ready);
      } else {
        SetState(Cancelled);
        ghost var cancelled := state;
        assert cancelled.IsTerminal();
        Finish(failures);
        if old(hasFinishedAlready) {
          assert events == old(events) + [StateAssigned(Cancelled, cancelled)] + [];
        }
      }
    }

    /** `addObserver`: only before `executing`. */
    method AddObserver(observer: Observer)
      requires Valid() && Less(state, Executing)
      modifies this`observers
      ensures Valid()
      ensures observers == old(observers) + [observer]
    {
      observers := observers + [observer];
    }

    /** `addCondition`: only before `evaluatingConditions`. */
    method AddCondition(condition: Condition)
      requires Less(state, EvaluatingConditions)
      modifies this`conditions
      ensures conditions == old(conditions) + [condition]
    {
      conditions := conditions + [condition];
    }

    /** `produceOperation`: tells every observer, in attachment order, of the new work
        item; nothing else changes. */
    method ProduceOperation(item: Item)
      requires Valid() && Logged()
      modifies this`events, this`history, this`hookCalls, this`finishNotices
      ensures Valid() && Logged()
      ensures events == old(events) + Notifications(observers, DidProduce(item))
    {
      Notify(DidProduce(item));
    }

    /** `cancelWithError`: records the error, if there is one, and assigns `cancelled`,
        which a finished operation ignores. */
    method CancelWithError(error: Option<Error>)
      requires Valid() && Logged()
      modifies this`internalErrors, this`state, this`events, this`history
      ensures Valid() && Logged()
      ensures internalErrors == old(internalErrors) + (if error.Some? then [error.value] else [])
      ensures state == Assign(old(state), Cancelled)
      ensures events == old(events) + [StateAssigned(Cancelled, state)]
    {
      if error.Some? {
        internalErrors := internalErrors + [error.value];
      }
      SetState(Cancelled);
    }

    /** `finishWithError`: `finish` with the one error, or with none. */
    method FinishWithError(error: Option<Error>)
      requires Valid() && Logged()
      modifies this`state, this`events, this`hasFinishedAlready, this`history, this`hookCalls, this`finishNotices
      ensures Valid() && Logged() && hasFinishedAlready
      ensures old(hasFinishedAlready) ==> state == old(state) && events == old(events)
      ensures !old(hasFinishedAlready) ==>
                state == Assign(old(state), Finished) &&
                events == old(events) +
                          FinishEvents(internalErrors + (if error.Some? then [error.value] else []), observers, state)
    {
      if error.Some? {
        Finish([error.value]);
      } else {
        Finish([]);
      }
    }

    /** `finish`: effective on its first call only. Then the completion hook receives the
        recorded errors followed by `errors`, every observer is told of the finish in
        attachment order, and `finished` is assigned last (which leaves a cancelled
        operation cancelled). Later calls change nothing. */
    method Finish(errors: seq<Error>)
      requires Valid() && Logged()
      modifies this`state, this`events, this`hasFinishedAlready, this`history, this`hookCalls, this`finishNotices
      ensures Valid() && Logged() && hasFinishedAlready
      ensures old(hasFinishedAlready) ==> state == old(state) && events == old(events)
      ensures !old(hasFinishedAlready) ==>
                state == Assign(old(state), Finished) &&
                events == old(events) + FinishEvents(internalErrors + errors, observers, state)
    {
      if !hasFinishedAlready {
        FinishOnce(errors);
      }
    }

    /** The first call of `finish`: the announcement, then `finished` is assigned. */
    method FinishOnce(errors: seq<Error>)
      requires Valid() && Logged() && !hasFinishedAlready
      modifies this`state, this`events, this`hasFinishedAlready, this`history, this`hookCalls, this`finishNotices
      ensures Valid() && Logged() && hasFinishedAlready
      ensures state == Assign(old(state), Finished)
      ensures events == old(events) + FinishEvents(internalErrors + errors, observers, state)
    {
      var combined := internalErrors + errors;
      Announce(combined);
      SetState(Finished);
      FinishLog(old(events), combined, observers, state);
    }

    /** The guard is set, the completion hook receives `combined`, and every observer is
        told of the finish, in attachment order; the state is not yet touched. */
    method Announce(combined: seq<Error>)
      requires Valid() && Logged() && !hasFinishedAlready
      modifies this`events, this`hasFinishedAlready, this`history, this`hookCalls, this`finishNotices
      ensures Logged() && hasFinishedAlready && HistoryOk(history, state) && state != Finished
      ensures |hookCalls| == 1 && finishNotices == observers
      ensures events == old(events) + [FinishedHookCalled(combined)] + Notifications(observers, DidFinish)
    {
      hasFinishedAlready := true;
      FinishedHook(combined);
      Notify(DidFinish);
      assert finishNotices == [] + observers;
    }

    /** Tells every observer of `notice`, in attachment order. */
    method Notify(notice: Notice)
      requires Logged()
      modifies this`events, this`history, this`hookCalls, this`finishNotices
      ensures Logged()
      ensures events == old(events) + Notifications(observers, notice)
      ensures history == old(history) && hookCalls == old(hookCalls)
      ensures finishNotices == old(finishNotices) + if notice.DidFinish? then observers else []
    {
      for i := 0 to |observers|
        invariant Logged()
        invariant events == old(events) + Notifications(observers[..i], notice)
        invariant history == old(history) && hookCalls == old(hookCalls)
        invariant finishNotices == old(finishNotices) + if notice.DidFinish? then observers[..i] else []
      {
        NotifyStep(old(events), old(finishNotices), observers, notice, i);
        Record(Notified(observers[i], notice));
      }
      assert observers[..|observers|] == observers;
    }

    /** The completion hook `finished`, which does nothing unless overridden; its call is recorded. */
    method FinishedHook(errors: seq<Error>)
      requires Logged()
      modifies this`events, this`history, this`hookCalls, this`finishNotices
      ensures Logged()
      ensures events == old(events) + [FinishedHookCalled(errors)]
      ensures history == old(history) && finishNotices == old(finishNotices)
      ensures hookCalls == old(hookCalls) + [errors]
    {
      Record(FinishedHookCalled(errors));
    }
  }
}
