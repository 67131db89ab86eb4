/** Sequences without repeats, and where an element first occurs. */
module Sequences {
  import opened Bytes

  ghost predicate NoDup<T(!new)>(s: seq<T>) {
    forall i, j :: 0 <= i < j < |s| ==> s[i] != s[j]
  }

  method Position<T(==)>(s: seq<T>, x: T) returns (p: Option<nat>)
    ensures match p case None => x !in s case Some(i) => i < |s| && s[i] == x && x !in s[..i]
  {
    for i := 0 to |s|
      invariant x !in s[..i]
    {
      if s[i] == x { return Some(i); }
    }
    return None;
  }
}
