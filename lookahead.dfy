/** `zip_is_last`: tag every element with whether it is the final one, looking
    only one element ahead. */
module Lookahead {

  /** The tagged sequence `zip_is_last` yields. */
  function TagLast<T>(xs: seq<T>): (r: seq<(T, bool)>)
    ensures |r| == |xs|
    ensures forall i :: 0 <= i < |r| ==> r[i].0 == xs[i]
    ensures forall i :: 0 <= i < |r| ==> (r[i].1 <==> i == |xs| - 1)
  {
    seq(|xs|, i requires 0 <= i < |xs| => (xs[i], i == |xs| - 1))
  }

  /** Dropping the first element commutes with tagging: the flag depends only
      on the distance to the end. */
  lemma TagLastTail<T>(xs: seq<T>)
    requires |xs| > 0
    ensures TagLast(xs)[1..] == TagLast(xs[1..])
    ensures TagLast(xs)[0] == (xs[0], |xs| == 1)
  {
  }

  /** The generator's loop over an iterator of `xs`: `next` is the one element
      of lookahead and `pos` the number of elements drawn so far. The output
      keeps every element in order, tags exactly the final one, and is empty
      for an empty input. */
  method ZipIsLast<T>(xs: seq<T>) returns (r: seq<(T, bool)>)
    ensures |r| == |xs|
    ensures forall i :: 0 <= i < |r| ==> r[i].0 == xs[i]
    ensures forall i :: 0 <= i < |r| ==> (r[i].1 <==> i == |xs| - 1)
    ensures r == TagLast(xs)
  {
    r := [];
    if |xs| == 0 {
      return;
    }
    var next := xs[0];
    var pos := 1;
    while true
      invariant 1 <= pos <= |xs|
      invariant next == xs[pos - 1]
      invariant |r| == pos - 1
      invariant forall i :: 0 <= i < |r| ==> r[i] == (xs[i], false)
      decreases |xs| - pos
    {
      var current := next;
      if pos < |xs| {
        next := xs[pos];
        pos := pos + 1;
        r := r + [(current, false)];
      } else {
        r := r + [(current, true)];
        return;
      }
    }
  }
}
