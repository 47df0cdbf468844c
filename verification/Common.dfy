/** What several parts use. */
module Common {
  datatype Option<T> = None | Some(value: T)

  /** No element stands in two places. */
  ghost predicate NoDup<T>(s: seq<T>) { forall i, j :: 0 <= i < j < |s| ==> s[i] != s[j] }

  function Without<T>(s: seq<T>, i: int): seq<T>
    requires 0 <= i < |s|
  {
    s[..i] + s[i + 1..]
  }

  function Pow2(n: nat): nat { if n == 0 then 1 else 2 * Pow2(n - 1) }

  lemma SmallMultiple(d: int, y: int)
    requires 0 < d && -d < d * y < d
    ensures y == 0
  {
  }
}
