/** The optional value that the source's `Option<T>` stands for. */
module Wrappers {

  datatype Option<+T> = None | Some(value: T)

  /** The index of the first element of `s` that satisfies `p`, as Rust's
      `Iterator::position` computes it. */
  function Position<T>(s: seq<T>, p: T -> bool): (r: Option<nat>)
    ensures r.Some? ==> r.value < |s| && p(s[r.value])
    ensures r.Some? ==> forall j :: 0 <= j < r.value ==> !p(s[j])
    ensures r.None? ==> forall j :: 0 <= j < |s| ==> !p(s[j])
  {
    if s == [] then None
    else if p(s[0]) then Some(0)
    else match Position(s[1..], p)
      case None => None
      case Some(i) => Some(i + 1)
  }
}
