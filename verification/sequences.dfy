/** Searching a sequence, shared by the dataset's duplicate check and the URI pattern. */
module Sequences {
  import opened Wrappers

  /** The first position of `x` in `s`, or None when `x` is absent (`Vec::contains`, `str::find`). */
  function FirstIndex<T(==)>(s: seq<T>, x: T): (r: Option<nat>)
    ensures r.None? <==> x !in s
    ensures r.Some? ==> r.value < |s| && s[r.value] == x && x !in s[..r.value]
  {
    if |s| == 0 then None
    else if s[0] == x then Some(0)
    else match FirstIndex(s[1..], x)
      case None => None
      case Some(i) => assert s[..i + 1] == [s[0]] + s[1..][..i]; Some(i + 1)
  }
}
