/** The two pieces of the Swift standard library that the operation kit leans on:
    optionals, and `flatMap` over an array with a closure that returns an optional
    (keep the unwrapped values of the non-nil results, in order). */
module SwiftStd {

  datatype Option<+T> = None | Some(value: T)

  /** `s.flatMap(f)` for an `f` returning an optional: the present results, in input order. */
  function FlatMap<T, U>(s: seq<T>, f: T -> Option<U>): (r: seq<U>)
    ensures |r| <= |s|
  {
    if s == [] then []
    else (match f(s[0]) case Some(u) => [u] case None => []) + FlatMap(s[1..], f)
  }

  /** Collecting is order preserving: it distributes over concatenation. */
  lemma {:induction false} FlatMapAppend<T, U>(a: seq<T>, b: seq<T>, f: T -> Option<U>)
    ensures FlatMap(a + b, f) == FlatMap(a, f) + FlatMap(b, f)
  {
    if a == [] {
      assert a + b == b;
    } else {
      assert (a + b)[0] == a[0];
      assert (a + b)[1..] == a[1..] + b;
      FlatMapAppend(a[1..], b, f);
    }
  }

  /** Nothing is collected exactly when every result is absent. */
  lemma {:induction false} FlatMapEmpty<T, U>(s: seq<T>, f: T -> Option<U>)
    ensures FlatMap(s, f) == [] <==> forall i :: 0 <= i < |s| ==> f(s[i]).None?
  {
    if s != [] {
      FlatMapEmpty(s[1..], f);
      forall i | 1 <= i < |s| ensures s[1..][i - 1] == s[i] { }
    }
  }

  /** A value is collected exactly when some element's result is that value. */
  lemma {:induction false} FlatMapMember<T, U>(s: seq<T>, f: T -> Option<U>, u: U)
    ensures u in FlatMap(s, f) <==> exists i :: 0 <= i < |s| && f(s[i]) == Some(u)
  {
    if s != [] {
      FlatMapMember(s[1..], f, u);
      if u in FlatMap(s[1..], f) {
        var i :| 0 <= i < |s[1..]| && f(s[1..][i]) == Some(u);
        assert f(s[i + 1]) == Some(u);
      }
      if exists i :: 0 <= i < |s| && f(s[i]) == Some(u) {
        var i :| 0 <= i < |s| && f(s[i]) == Some(u);
        if i > 0 {
          assert f(s[1..][i - 1]) == Some(u);
        }
      }
    }
  }

  /** Collecting one more element at the end adds its result, if any, at the end. */
  lemma FlatMapSnoc<T, U>(s: seq<T>, x: T, f: T -> Option<U>)
    ensures FlatMap(s + [x], f) == FlatMap(s, f) + (match f(x) case Some(u) => [u] case None => [])
  {
    FlatMapAppend(s, [x], f);
    assert [x][1..] == [];
  }
}
