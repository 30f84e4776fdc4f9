/** `MutuallyExclusive<T>`: the condition that marks operations of kind `T` as never
    running at the same time. It is a constant: always satisfied, never asks for an
    auxiliary work item, always exclusive. The type argument `T` is represented by
    the name Swift prints for it. */
module MutuallyExclusive {
  import opened SwiftStd
  import opened OperationCondition

  const Prefix: string := "MutuallyExclusive<"

  /** `name`: "MutuallyExclusive<" followed by the name of `T` and ">". */
  function Name(typeArgument: string): (r: string)
    ensures |r| == |Prefix| + |typeArgument| + 1
    ensures r[..|Prefix|] == Prefix && r[|r| - 1] == '>'
    ensures r[|Prefix|..|r| - 1] == typeArgument
  {
    Prefix + typeArgument + ">"
  }

  /** Distinct printed type names give distinct condition names, and so distinct
      exclusivity categories. */
  lemma NameInjective(a: string, b: string)
    requires Name(a) == Name(b)
    ensures a == b
  {
    var r := Name(a);
    assert a == r[|Prefix|..|r| - 1];
  }

  /** `isMutuallyExclusive`: true whatever `T` is. */
  function IsMutuallyExclusive(): (r: bool)
    ensures r
  {
    true
  }

  /** `dependencyForOperation`: never an auxiliary work item. */
  function DependencyForOperation(): (r: Option<nat>)
    ensures r.None?
  {
    None
  }

  /** `evaluateForOperation`: completes with `satisfied`, which carries no error. */
  function EvaluateForOperation(): (r: ConditionResult)
    ensures r == Satisfied && ErrorOf(r).None?
  {
    Satisfied
  }

  /** The value `MutuallyExclusive<T>()` as a condition record. */
  function Instance(typeArgument: string): (c: Condition)
    ensures c.typeName == Name(typeArgument)
    ensures c.isMutuallyExclusive && c.dependency.None? && c.result == Satisfied
  {
    Condition(Name(typeArgument), IsMutuallyExclusive(), DependencyForOperation(), EvaluateForOperation())
  }

  /** `AlertPresentation`, the alias for `MutuallyExclusive<Alert>`. */
  function AlertPresentation(): (c: Condition)
    ensures c == Instance("Alert")
    ensures c.typeName == "MutuallyExclusive<Alert>"
  {
    Instance("Alert")
  }

  /** However many mutually exclusive conditions an operation carries, and in whatever
      order their completions arrive, they contribute no failure to aggregation. */
  lemma {:induction false} InstancesNeverFail(conditions: seq<Condition>, typeArguments: seq<string>)
    requires |conditions| == |typeArguments|
    requires forall i :: 0 <= i < |conditions| ==> conditions[i] == Instance(typeArguments[i])
    ensures Failures(ResultsOf(conditions)) == []
  {
    var rs := ResultsOf(conditions);
    forall i | 0 <= i < |rs| ensures rs[i] == Satisfied {
      assert rs[i] == Instance(typeArguments[i]).result;
    }
  }
}
