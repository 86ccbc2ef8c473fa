/** Left folds of a step function over a sequence, threading a state: the
    shape of every read loop in the pipeline, which handles one input at a
    time and keeps what it needs in a variable. */
module Folds {

  /** What one step emits and the state it leaves. */
  datatype Step<+B, +S> = Step(out: B, state: S)

  /** Everything emitted so far and the current state. */
  datatype Run<+B, +S> = Run(outs: seq<B>, state: S)

  /** The loop that applies `step` to every input in turn, from `start`. */
  function Fold<S, A, B>(step: (S, A) -> Step<B, S>, start: S, xs: seq<A>): (r: Run<B, S>)
    ensures |r.outs| == |xs|
    decreases |xs|
  {
    if |xs| == 0 then Run([], start)
    else
      var p := Fold(step, start, xs[..|xs| - 1]);
      var o := step(p.state, xs[|xs| - 1]);
      Run(p.outs + [o.out], o.state)
  }

  /** Folding a prefix emits a prefix: the loop never revises what it has
      emitted. */
  lemma {:induction false} FoldPrefix<S, A, B>(step: (S, A) -> Step<B, S>, start: S, xs: seq<A>, k: nat)
    requires k <= |xs|
    ensures Fold(step, start, xs[..k]).outs == Fold(step, start, xs).outs[..k]
    decreases |xs|
  {
    if k < |xs| {
      var n := |xs| - 1;
      assert xs[..n][..k] == xs[..k];
      FoldPrefix(step, start, xs[..n], k);
    } else {
      assert xs[..k] == xs;
    }
  }

  /** Output `i` is what one step makes of input `i` in the state the
      earlier inputs left. */
  lemma FoldItem<S, A, B>(step: (S, A) -> Step<B, S>, start: S, xs: seq<A>, i: nat)
    requires i < |xs|
    ensures Fold(step, start, xs).outs[i] == step(Fold(step, start, xs[..i]).state, xs[i]).out
  {
    FoldPrefix(step, start, xs, i + 1);
    var pre := xs[..i + 1];
    assert pre[..i] == xs[..i] && pre[i] == xs[i];
  }

  /** The state after a non-empty input is one step from the state its
      prefix left. */
  lemma FoldLast<S, A, B>(step: (S, A) -> Step<B, S>, start: S, xs: seq<A>)
    requires |xs| > 0
    ensures Fold(step, start, xs).state == step(Fold(step, start, xs[..|xs| - 1]).state, xs[|xs| - 1]).state
  {
  }

  /** One more input is one more step. */
  lemma FoldSnoc<S, A, B>(step: (S, A) -> Step<B, S>, start: S, xs: seq<A>, x: A)
    ensures Fold(step, start, xs + [x]).state == step(Fold(step, start, xs).state, x).state
    ensures Fold(step, start, xs + [x]).outs == Fold(step, start, xs).outs + [step(Fold(step, start, xs).state, x).out]
  {
    assert (xs + [x])[..|xs|] == xs;
  }
}
