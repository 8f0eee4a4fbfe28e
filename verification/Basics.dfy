/** Shared vocabulary: optional values and facts about sequences. */
module Basics {

  datatype Option<+T> = None | Some(value: T)

  ghost predicate Distinct<T>(s: seq<T>) {
    forall i, j :: 0 <= i < j < |s| ==> s[i] != s[j]
  }

  function Flatten<T>(chunks: seq<seq<T>>): seq<T> {
    if |chunks| == 0 then [] else Flatten(chunks[..|chunks| - 1]) + chunks[|chunks| - 1]
  }

  lemma {:induction false} FlattenPrefix<T>(chunks: seq<seq<T>>, m: nat)
    requires m <= |chunks|
    ensures Flatten(chunks[..m]) <= Flatten(chunks)
  {
    if m == |chunks| {
      assert chunks[..m] == chunks;
    } else {
      FlattenPrefix(chunks[..|chunks| - 1], m);
      assert chunks[..|chunks| - 1][..m] == chunks[..m];
    }
  }
}
