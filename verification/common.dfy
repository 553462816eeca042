/** Small shared vocabulary: optional values, results with an error side,
    duplicate-free sequences and a first-match search used by every lookup
    that scans an insertion-ordered dictionary. */
module Common {

  /** A value that may be absent (Python's `None`). */
  datatype Option<+T> = None | Some(value: T)

  /** Either a value or the error the source raises instead. */
  datatype Result<+T, +E> = Success(value: T) | Failure(error: E)

  /** No element occurs twice: the keys of a dictionary in insertion order. */
  predicate Distinct<T(==)>(s: seq<T>) {
    forall i, j :: 0 <= i < j < |s| ==> s[i] != s[j]
  }

  /** Index of the first element satisfying `p`, or `|s|` when there is none:
      the shape of a Python `for ... : if p(x): return x` scan. */
  function FirstIndex<T>(s: seq<T>, p: T -> bool): (k: nat)
    ensures k <= |s|
    ensures k < |s| ==> p(s[k])
    ensures forall j :: 0 <= j < k ==> !p(s[j])
  {
    if |s| == 0 then 0
    else if p(s[0]) then 0
    else 1 + FirstIndex(s[1..], p)
  }
}
