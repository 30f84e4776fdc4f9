/** Conditions, their two-outcome results, and the evaluator that asks every
    condition of an operation and collects the failures in condition order. */
module OperationCondition {
  import opened SwiftStd

  /** An error value. `ConditionFailed` and `ExecutionFailed` are the two codes of the
      kit's own error domain; every other error is carried as its domain and code. */
  datatype Error = ConditionFailed | ExecutionFailed | Other(domain: string, code: int)

  datatype ConditionResult = Satisfied | Failed(error: Error)

  /** The `error` accessor: the payload of `Failed`, nothing for `Satisfied`. */
  function ErrorOf(r: ConditionResult): (e: Option<Error>)
    ensures e.Some? <==> r.Failed?
    ensures e.Some? ==> r == Failed(e.value)
  {
    if r.Failed? then Some(r.error) else None
  }

  /** A condition as the queue and the evaluator see it: the name of its type (used as
      its exclusivity category), whether that category is mutually exclusive, the
      auxiliary work item it asks for, if any (`dependencyForOperation`), and the result
      its `evaluateForOperation` completes with. */
  datatype Condition = Condition(
    typeName: string,
    isMutuallyExclusive: bool,
    dependency: Option<nat>,
    result: ConditionResult)

  /** The result each condition completes with, slot by slot. */
  function ResultsOf(conditions: seq<Condition>): (rs: seq<ConditionResult>)
    ensures |rs| == |conditions|
    ensures forall i :: 0 <= i < |conditions| ==> rs[i] == conditions[i].result
  {
    seq(|conditions|, i requires 0 <= i < |conditions| => conditions[i].result)
  }

  /** The errors of the failed results, in result order: at most one per result, and
      none exactly when every result is `Satisfied`. */
  function Failures(results: seq<ConditionResult>): (r: seq<Error>)
    ensures |r| <= |results|
    ensures r == [] <==> forall i :: 0 <= i < |results| ==> results[i] == Satisfied
  {
    FlatMapEmpty(results, ErrorOf);
    FlatMap(results, ErrorOf)
  }

  /** The list handed to the evaluator's completion: the failures, followed by one
      `ConditionFailed` when the operation was found cancelled at aggregation time. */
  function Aggregate(results: seq<ConditionResult>, cancelled: bool): (r: seq<Error>)
    ensures |r| <= |results| + 1
    ensures !cancelled ==> r == Failures(results)
    ensures cancelled ==> |r| > 0 && r[|r| - 1] == ConditionFailed && r[..|r| - 1] == Failures(results)
  {
    Failures(results) + if cancelled then [ConditionFailed] else []
  }

  /** The failures of a concatenation are the failures of each part, in order. */
  lemma FailuresAppend(a: seq<ConditionResult>, b: seq<ConditionResult>)
    ensures Failures(a + b) == Failures(a) + Failures(b)
  {
    FlatMapAppend(a, b, ErrorOf);
  }

  /** An error is reported exactly when some result failed with it. */
  lemma FailuresMember(results: seq<ConditionResult>, e: Error)
    ensures e in Failures(results) <==> exists i :: 0 <= i < |results| && results[i] == Failed(e)
  {
    FlatMapMember(results, ErrorOf, e);
    if exists i :: 0 <= i < |results| && ErrorOf(results[i]) == Some(e) {
      var i :| 0 <= i < |results| && ErrorOf(results[i]) == Some(e);
      assert results[i] == Failed(e);
    }
  }

  /** The completion sees an empty list, the signal of success, exactly when every
      condition is satisfied and the operation was not cancelled. */
  lemma AggregateEmpty(results: seq<ConditionResult>, cancelled: bool)
    ensures Aggregate(results, cancelled) == [] <==>
              !cancelled && forall i :: 0 <= i < |results| ==> results[i] == Satisfied
  {
  }

  /** Three conditions where the first and the last fail: their two errors, in order. */
  lemma AggregateFirstAndLastFail(e0: Error, e2: Error)
    ensures Aggregate([Failed(e0), Satisfied, Failed(e2)], false) == [e0, e2]
  {
    FailuresAppend([Failed(e0)], [Satisfied, Failed(e2)]);
    FailuresAppend([Satisfied], [Failed(e2)]);
    assert [Failed(e0), Satisfied, Failed(e2)] == [Failed(e0)] + ([Satisfied] + [Failed(e2)]);
  }

  /** An order in which the completions of `n` conditions arrive: `n` completions,
      each for one of the conditions, and every condition completes. */
  ghost predicate IsCompletionOrder(arrivals: seq<nat>, n: nat) {
    && |arrivals| == n
    && (forall k :: 0 <= k < n ==> arrivals[k] < n)
    && (forall i :: 0 <= i < n ==> i in arrivals)
  }

  /** `OperationConditionEvaluator.evaluate`: ask every condition, in order, to evaluate
      (`asked` lists the conditions asked, and a slot can only receive the answer of
      the condition asked for it); let the completions arrive in the order `arrivals`,
      each storing its result in the slot of its own condition; then, once all have
      arrived, collect the failures slot by slot and append `ConditionFailed` if the
      operation is `cancelled` at that point. The list passed to the completion does
      not depend on the order of arrival. */
  method Evaluate(conditions: seq<Condition>, arrivals: seq<nat>, cancelled: bool)
    returns (asked: seq<Condition>, failures: seq<Error>)
    requires IsCompletionOrder(arrivals, |conditions|)
    ensures asked == conditions
    ensures failures == Aggregate(ResultsOf(conditions), cancelled)
  {
    var n := |conditions|;
    var results: array<Option<ConditionResult>> := new Option<ConditionResult>[n](_ => None);

    asked := [];
    for index := 0 to n
      invariant asked == conditions[..index]
    {
      assert conditions[..index + 1] == conditions[..index] + [conditions[index]];
      asked := asked + [conditions[index]];
    }
    assert conditions[..n] == conditions;

    for k := 0 to n
      invariant forall j :: 0 <= j < n ==> results[j] == None || results[j] == Some(asked[j].result)
      invariant forall m :: 0 <= m < k ==> results[arrivals[m]] != None
    {
      var index := arrivals[k];
      results[index] := Some(asked[index].result);
    }
    forall j | 0 <= j < n ensures results[j] == Some(conditions[j].result) {
      assert j in arrivals;
      var m :| 0 <= m < n && arrivals[m] == j;
    }

    ghost var all := ResultsOf(conditions);
    failures := [];
    for i := 0 to n
      invariant forall j :: 0 <= j < n ==> results[j] == Some(all[j])
      invariant failures == Failures(all[..i])
    {
      assert all[..i + 1] == all[..i] + [all[i]];
      FlatMapSnoc(all[..i], all[i], ErrorOf);
      var result := results[i];
      assert result == Some(all[i]);
      if result.Some? && ErrorOf(result.value).Some? {
        failures := failures + [ErrorOf(result.value).value];
      }
    }
    assert all[..n] == all;

    if cancelled {
      failures := failures + [ConditionFailed];
    }
  }
}
