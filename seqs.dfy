/**
 * Sequence utilities shared by several pages.
 */
module Seqs {
  /** `xs.map(f)`: the images of the elements, in order. */
  function Map<T, U>(s: seq<T>, f: T -> U): (r: seq<U>)
    ensures |r| == |s|
    ensures forall k :: 0 <= k < |r| ==> r[k] == f(s[k])
  {
    if s == [] then [] else [f(s[0])] + Map(s[1..], f)
  }
}
