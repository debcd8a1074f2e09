/** Element-wise mapping over sequences. */
module Seqs {

  /** `xs.map(f)`: one output per input, in the same order. */
  function MapSeq<A, B>(f: A -> B, xs: seq<A>): (ys: seq<B>)
    ensures |ys| == |xs|
    ensures forall i :: 0 <= i < |xs| ==> ys[i] == f(xs[i])
  {
    if xs == [] then [] else [f(xs[0])] + MapSeq(f, xs[1..])
  }

  /** Mapping distributes over concatenation: the output keeps the input's order. */
  lemma {:induction false} MapSeqAppend<A, B>(f: A -> B, xs: seq<A>, zs: seq<A>)
    ensures MapSeq(f, xs + zs) == MapSeq(f, xs) + MapSeq(f, zs)
  {
    var l, r := MapSeq(f, xs + zs), MapSeq(f, xs) + MapSeq(f, zs);
    assert |l| == |r|;
    forall i | 0 <= i < |l| ensures l[i] == r[i] {
      if i < |xs| {
        assert (xs + zs)[i] == xs[i];
      } else {
        assert (xs + zs)[i] == zs[i - |xs|];
      }
    }
  }
}
