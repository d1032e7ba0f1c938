/** Linear search for the first element of a sequence with a given property. */
module Search {
  import opened Wrappers

  /** The position of the first element of `s` satisfying `p`, or `None` when
      no element does. Both the primary-key lookup of a question and the
      `next(...)` over a question's options are this search. */
  function FirstIndex<T>(s: seq<T>, p: T -> bool): (r: Option<nat>)
    ensures r.None? <==> forall j :: 0 <= j < |s| ==> !p(s[j])
    ensures r.Some? ==> r.value < |s| && p(s[r.value])
    ensures r.Some? ==> forall j :: 0 <= j < r.value ==> !p(s[j])
  {
    if |s| == 0 then None
    else if p(s[0]) then Some(0)
    else
      match FirstIndex(s[1..], p)
      case None => None
      case Some(k) => Some(k + 1)
  }
}
