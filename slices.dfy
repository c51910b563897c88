/** The Go idiom `append(s[:i], s[i+1:]...)`, which the repositories use to
    delete one element of a slice in place. */
module Slices {

  /** `s` with the element at position `i` spliced out; the others keep
      their order. */
  function RemoveAt<T>(s: seq<T>, i: nat): (r: seq<T>)
    requires i < |s|
    ensures |r| == |s| - 1
    ensures forall k :: 0 <= k < i ==> r[k] == s[k]
    ensures forall k :: i <= k < |r| ==> r[k] == s[k + 1]
  {
    s[..i] + s[i + 1..]
  }
}
