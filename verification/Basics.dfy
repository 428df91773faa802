/** What several modules need and none owns. */
module Basics {
  datatype Option<+T> = None | Some(value: T)

  lemma ConcatAssociative<T>(a: seq<T>, b: seq<T>, c: seq<T>)
    ensures a + (b + c) == (a + b) + c
  {
  }

  /** Chunks put together. */
  function Concat<T>(parts: seq<seq<T>>): seq<T> {
    if parts == [] then [] else Concat(parts[..|parts| - 1]) + parts[|parts| - 1]
  }

  lemma ConcatMore<T>(parts: seq<seq<T>>, more: seq<T>)
    ensures Concat(parts + [more]) == Concat(parts) + more
  {
    assert (parts + [more])[..|parts|] == parts;
  }

  lemma {:induction false} ConcatFirst<T>(parts: seq<seq<T>>)
    requires parts != []
    ensures Concat(parts) == parts[0] + Concat(parts[1..])
  {
    var n := |parts| - 1;
    if n == 0 {
      assert parts[0] + Concat(parts[1..]) == parts[0] == [] + parts[0];
    } else {
      ConcatFirst(parts[..n]);
      assert parts[..n][1..] == parts[1..][..n - 1];
      ConcatAssociative(parts[0], Concat(parts[1..][..n - 1]), parts[n]);
    }
  }
}
