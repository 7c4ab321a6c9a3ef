/** The bounds-checked subscript `collection[checked: index]`. */
module BoundsChecked {
  import opened Wrappers

  /**
   * The element at `index` when `index` is one of the collection's indices,
   * and nil otherwise. Every integer is an acceptable argument: the
   * subscript never traps.
   */
  function Checked<T>(s: seq<T>, index: int): (r: Option<T>)
    ensures r.None? <==> index < 0 || |s| <= index
    ensures r.Some? ==> r.value == s[index]
  {
    if 0 <= index < |s| then Some(s[index]) else None
  }
}
