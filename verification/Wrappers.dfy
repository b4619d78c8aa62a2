/** What several modules share. */
module Wrappers {
  datatype Option<+T> = None | Some(value: T)

  function Max(x: int, y: int): int { if x >= y then x else y }

  /** f applied to every element. */
  function Project<T, U>(f: T -> U, xs: seq<T>): (r: seq<U>)
    ensures |r| == |xs| && forall k | 0 <= k < |r| :: r[k] == f(xs[k])
  { seq(|xs|, k requires 0 <= k < |xs| => f(xs[k])) }

  lemma {:induction false} Regroup<T>(a: seq<T>, b: seq<T>, c: seq<T>)
    ensures a + b + c == a + (b + c)
  {}
}
