/** Small generic helpers shared by the model: an optional value (the source's `null`)
    and order-preserving sub-lists. */
module Options {

  /** A value that may be absent; `None` stands for a Java `null` reference. */
  datatype Option<+T> = None | Some(value: T)

  /** `a` can be obtained from `b` by deleting elements, keeping the order of the rest. */
  predicate IsSubsequence<T(==)>(a: seq<T>, b: seq<T>)
    decreases |b|
  {
    if |b| == 0 then |a| == 0
    else if |a| > 0 && a[|a| - 1] == b[|b| - 1] then IsSubsequence(a[..|a| - 1], b[..|b| - 1])
    else IsSubsequence(a, b[..|b| - 1])
  }

  /** Dropping the last element of a sub-list keeps it a sub-list. */
  lemma {:induction false} SubsequenceDropLast<T>(a: seq<T>, b: seq<T>)
    requires |a| > 0 && IsSubsequence(a, b)
    ensures IsSubsequence(a[..|a| - 1], b)
    decreases |b|
  {
    var a' := a[..|a| - 1];
    var b' := b[..|b| - 1];
    if a[|a| - 1] == b[|b| - 1] {
      if |a'| > 0 && a'[|a'| - 1] == b[|b| - 1] {
        SubsequenceDropLast(a', b');
      }
    } else {
      if |a'| > 0 && a'[|a'| - 1] == b[|b| - 1] {
        SubsequenceDropLast(a, b');
        SubsequenceDropLast(a', b');
      } else {
        SubsequenceDropLast(a, b');
      }
    }
  }
}
