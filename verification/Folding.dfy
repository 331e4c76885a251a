/** A register run over a sequence of inputs. */
module Folding {

  /** A byte-at-a-time register started at s and run over data. */
  function Run<S, B>(step: (S, B) -> S, s: S, data: seq<B>): S {
    if data == [] then s else Run(step, step(s, data[0]), data[1..])
  }

  lemma {:induction false} RunConcat<S, B>(step: (S, B) -> S, s: S, a: seq<B>, b: seq<B>)
    ensures Run(step, s, a + b) == Run(step, Run(step, s, a), b)
    decreases |a|
  {
    if a == [] {
      assert a + b == b;
    } else {
      assert (a + b)[1..] == a[1..] + b;
      RunConcat(step, step(s, a[0]), a[1..], b);
    }
  }
}
