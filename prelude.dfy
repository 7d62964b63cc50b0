/** Small building blocks shared by the modules of the message-cache model. */
module Prelude {

  /** A value that may be absent: JavaScript's `undefined` where an object is expected. */
  datatype Option<+T> = None | Some(value: T)

  /** `Array.prototype.map`: a new array of the same length whose element i is
      `f` applied to element i of the input, in the input's order. */
  function MapSeq<A, B>(s: seq<A>, f: A -> B): (r: seq<B>)
    ensures |r| == |s|
    ensures forall i :: 0 <= i < |s| ==> r[i] == f(s[i])
  {
    if s == [] then [] else [f(s[0])] + MapSeq(s[1..], f)
  }

  /** Mapping distributes over concatenation: the output keeps the input's order. */
  lemma MapSeqAppend<A, B>(s: seq<A>, t: seq<A>, f: A -> B)
    ensures MapSeq(s + t, f) == MapSeq(s, f) + MapSeq(t, f)
  {
  }
}
