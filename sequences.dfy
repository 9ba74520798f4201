/** Order-preserving subsequences: the shape of every `Array.prototype.filter` result. */
module Sequences {

  /** `a` is obtained from `b` by deleting elements; the rest keep their order.
      Either the head of `b` is matched to the head of `a`, or it is skipped. */
  predicate IsSubsequence<T(==)>(a: seq<T>, b: seq<T>)
    decreases |b|
  {
    if b == [] then a == []
    else (a != [] && a[0] == b[0] && IsSubsequence(a[1..], b[1..])) || IsSubsequence(a, b[1..])
  }
}
