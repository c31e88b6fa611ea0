/** Runs joined end to end. */
module Sequences {
  function Concat<T>(runs: seq<seq<T>>): seq<T> {
    if runs == [] then [] else Concat(runs[..|runs| - 1]) + runs[|runs| - 1]
  }

  lemma {:induction false} ConcatMembers<T>(runs: seq<seq<T>>)
    ensures forall e: T :: e in Concat(runs) <==> exists i :: 0 <= i < |runs| && e in runs[i]
  {
    if runs != [] {
      ConcatMembers(runs[..|runs| - 1]);
      var init := runs[..|runs| - 1];
      assert forall i :: 0 <= i < |init| ==> init[i] == runs[i];
    }
  }
}
