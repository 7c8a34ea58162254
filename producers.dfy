/** The producer that a coroutine drives: the caller's iterator body, seen from
    outside as one step function. The model does not compile `yield return`; it
    only needs what one advance of the iterator does. */
module Producers {

  datatype Option<T> = None | Some(value: T)

  /** One advance of the producer. From iteration state `s`, with `x` the value it
      reads from the shared input cell, the body either runs to its next
      `yield return y` and suspends in state `s'` (`Some((s', y))`), or runs off
      its end (`None`). */
  type StepFn<!S, -TIn, TOut> = (S, TIn) -> Option<(S, TOut)>

  /** What the producer does on its own when it is advanced once per input:
      the values it yields, in order, whether it reached its end, and the
      iteration state after the last value it yielded. */
  datatype Trace<S, TOut> = Trace(values: seq<TOut>, finished: bool, last: S)

  /** The producer's own behaviour, independent of any wrapper: advance it once
      per element of `inputs` until it runs off its end. */
  function Drive<S, TIn, TOut>(step: StepFn<S, TIn, TOut>, s: S, inputs: seq<TIn>): (t: Trace<S, TOut>)
    // every input feeds at most one yield; the advance that finds the end consumes an input too
    ensures t.finished ==> |t.values| < |inputs|
    ensures !t.finished ==> |t.values| == |inputs|
    ensures t.values == [] && !t.finished ==> t.last == s
    decreases |inputs|
  {
    if inputs == [] then Trace([], false, s)
    else match step(s, inputs[0])
      case None => Trace([], true, s)
      case Some((s1, y)) =>
        var t := Drive(step, s1, inputs[1..]);
        Trace([y] + t.values, t.finished, t.last)
  }

  /** The producer `foreach (var v in vals) yield return v;`: it ignores its input,
      yields `vals` in order and then ends. Its state is the index of the next value. */
  function ListStep<TIn, TOut>(vals: seq<TOut>): StepFn<nat, TIn, TOut> {
    (i: nat, x: TIn) => if i < |vals| then Some((i + 1, vals[i])) else None
  }

  function Min(a: int, b: int): int { if a < b then a else b }

  /** A list producer started at index `i` yields the next values of the list,
      one per input, and reaches its end exactly when more inputs are supplied
      than values remain. */
  lemma {:induction false} DriveList<TIn, TOut>(vals: seq<TOut>, i: nat, inputs: seq<TIn>)
    requires i <= |vals|
    ensures var t := Drive(ListStep(vals), i, inputs);
            && t.values == vals[i..Min(i + |inputs|, |vals|)]
            && (t.finished <==> i + |inputs| > |vals|)
    decreases |inputs|
  {
    if inputs != [] && i < |vals| {
      DriveList(vals, i + 1, inputs[1..]);
    }
  }

  /** A producer that never runs off its end yields once for every input. */
  lemma {:induction false} DriveEndless<S, TIn, TOut>(step: StepFn<S, TIn, TOut>, s: S, inputs: seq<TIn>)
    requires forall s', x :: step(s', x).Some?
    ensures !Drive(step, s, inputs).finished
    ensures |Drive(step, s, inputs).values| == |inputs|
    decreases |inputs|
  {
    if inputs != [] {
      var s1 := step(s, inputs[0]).value.0;
      DriveEndless(step, s1, inputs[1..]);
    }
  }

  /** The endless producer `while (true) yield return input.Value + 1;`, which
      reads the shared cell on every advance. */
  function EchoStep(): StepFn<(), int, int> {
    (u: (), x: int) => Some(((), x + 1))
  }

  /** Fed on its own, the echo producer answers every input with that input plus one. */
  lemma {:induction false} DriveEcho(inputs: seq<int>)
    ensures |Drive(EchoStep(), (), inputs).values| == |inputs|
    ensures forall i :: 0 <= i < |inputs| ==> Drive(EchoStep(), (), inputs).values[i] == inputs[i] + 1
    decreases |inputs|
  {
    if inputs != [] {
      DriveEcho(inputs[1..]);
    }
  }
}
