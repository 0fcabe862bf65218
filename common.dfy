/** Small shared vocabulary: optional values, results carrying an error, and
    what it means for a sequence to list a finite set exactly once. */
module Common {

  datatype Option<+T> = None | Some(value: T)

  datatype Result<+T, +E> = Success(value: T) | Failure(error: E)

  /** `s` lists every element of `xs` exactly once (a shuffle of the set). */
  ghost predicate IsEnumeration<T>(s: seq<T>, xs: set<T>)
  {
    && (forall i :: 0 <= i < |s| ==> s[i] in xs)
    && (forall x :: x in xs ==> x in s)
    && (forall i, j :: 0 <= i < j < |s| ==> s[i] != s[j])
  }

  function Max0(n: int): (r: nat)
    ensures r == n || (n < 0 && r == 0)
  {
    if n < 0 then 0 else n
  }

  /** An element of a non-empty set, as a witness for a choice. */
  lemma Pick<T>(s: set<T>) returns (x: T)
    requires s != {}
    ensures x in s
  {
    x :| x in s;
  }
}
