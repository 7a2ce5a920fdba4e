/** Rust's `Option`, as the grid lookups and the event results use it. */
module Wrappers {

  datatype Option<+T> = None | Some(value: T)

  /** `Vec::get`: the element at `i`, or `None` past the end. */
  function Get<T>(s: seq<T>, i: nat): (r: Option<T>)
    ensures r.Some? <==> i < |s|
    ensures r.Some? ==> r.value == s[i]
  {
    if i < |s| then Some(s[i]) else None
  }
}
