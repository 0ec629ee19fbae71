/** Small generic helpers shared by the account model. */
module Wrappers {

  datatype Option<+T> = None | Some(value: T)

  /** The position of the last element of `s` that satisfies `p`, if any.
      A row lookup on a column with a unique key. */
  function FindLast<T>(s: seq<T>, p: T -> bool): (r: Option<nat>)
    ensures r.Some? ==> r.value < |s| && p(s[r.value])
    ensures r.Some? ==> forall j :: r.value < j < |s| ==> !p(s[j])
    ensures r.None? <==> forall j :: 0 <= j < |s| ==> !p(s[j])
  {
    if |s| == 0 then None
    else if p(s[|s| - 1]) then Some(|s| - 1)
    else FindLast(s[..|s| - 1], p)
  }
}
