/** Feeding a stream of inputs, one at a time, to a step function that
    updates a state and emits outputs: how a receiver turns the datagrams it
    reads into the frames it queues. */
module Feed {

  /** The final state and every output, in order. */
  function Run<S, I, O>(step: (S, I) -> (S, seq<O>), s: S, xs: seq<I>): (r: (S, seq<O>))
    ensures xs == [] ==> r == (s, [])
    decreases |xs|
  {
    if xs == [] then (s, [])
    else
      var first := step(s, xs[0]);
      var rest := Run(step, first.0, xs[1..]);
      (rest.0, first.1 + rest.1)
  }

  /** Running over a concatenation is running over the first part and then
      continuing from where it stopped: outputs are neither lost nor
      reordered at the boundary. */
  lemma {:induction false} RunAppend<S, I, O>(step: (S, I) -> (S, seq<O>), s: S, xs: seq<I>, ys: seq<I>)
    ensures Run(step, s, xs + ys)
         == (Run(step, Run(step, s, xs).0, ys).0, Run(step, s, xs).1 + Run(step, Run(step, s, xs).0, ys).1)
    decreases |xs|
  {
    if xs == [] {
      assert xs + ys == ys;
      assert [] + Run(step, s, ys).1 == Run(step, s, ys).1;
    } else {
      assert (xs + ys)[0] == xs[0];
      assert (xs + ys)[1..] == xs[1..] + ys;
      var first := step(s, xs[0]);
      RunAppend(step, first.0, xs[1..], ys);
      var mid := Run(step, first.0, xs[1..]);
      var tail := Run(step, mid.0, ys);
      assert first.1 + (mid.1 + tail.1) == (first.1 + mid.1) + tail.1;
    }
  }

  /** A first input that emits nothing only moves the state: the run goes
      on from there with the same outputs. */
  lemma {:induction false} RunSilentFirst<S, I, O>(step: (S, I) -> (S, seq<O>), s: S, xs: seq<I>, next: S)
    requires xs != [] && step(s, xs[0]) == (next, [])
    ensures Run(step, s, xs) == Run(step, next, xs[1..])
  {
    var rest := Run(step, next, xs[1..]);
    assert [] + rest.1 == rest.1;
  }

  /** Running over one more input is one more step from where the run stopped. */
  lemma {:induction false} RunSnoc<S, I, O>(step: (S, I) -> (S, seq<O>), s: S, xs: seq<I>, x: I)
    ensures Run(step, s, xs + [x])
         == (step(Run(step, s, xs).0, x).0, Run(step, s, xs).1 + step(Run(step, s, xs).0, x).1)
  {
    var before := Run(step, s, xs);
    RunAppend(step, s, xs, [x]);
    var one: seq<I> := [x];
    assert one[1..] == [];
    var last := step(before.0, x);
    assert Run(step, before.0, one) == (last.0, last.1 + []);
    assert last.1 + [] == last.1;
  }
}
