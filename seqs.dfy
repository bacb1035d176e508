/** Sequence utilities shared by every part of the model. */
module Seqs {

  datatype Option<+T> = None | Some(value: T)

  /** The first index whose element satisfies `p`, or None when there is none:
      a linear search from the front, which also serves for a search that returns
      the element found, read through the index. */
  function FindIndex<T>(s: seq<T>, p: T -> bool): (r: Option<nat>)
    ensures r.Some? ==> r.value < |s| && p(s[r.value])
    ensures r.Some? ==> forall j :: 0 <= j < r.value ==> !p(s[j])
    ensures r.None? ==> forall j :: 0 <= j < |s| ==> !p(s[j])
  {
    if |s| == 0 then None
    else if p(s[0]) then Some(0)
    else match FindIndex(s[1..], p)
      case None => None
      case Some(i) => Some(i + 1)
  }
}
