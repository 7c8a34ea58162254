/** The coroutine wrapper as the objects it is made of: the shared input cell
    (`Getter`), the producer's enumerator, and the `Coroutine` that owns both and
    drives the enumerator one `MoveNext` per `Resume`. */
module Coroutines {
  import opened Producers
  import opened CoroutineSpec

  /** The input cell, shared by reference between a coroutine and its producer. */
  class Getter<T> {
    var Value: T

    constructor (input: T)
      ensures Value == input
    {
      Value := input;
    }
  }

  /** The enumerator of the producer's iterator body. It keeps the producer's
      iteration state and `Current`, holds the same input cell as the coroutine,
      and on each `MoveNext` runs the body one step on the value the cell holds
      at that moment. `Moves` counts the calls to `MoveNext`. */
  class Enumerator<S, TIn, TOut> {
    const step: StepFn<S, TIn, TOut>
    const input: Getter<TIn>
    var state: S
    var Current: TOut
    var finished: bool
    ghost var Moves: nat

    /** The enumerator of a body that has not started: `Current` holds the default value. */
    constructor (step: StepFn<S, TIn, TOut>, s0: S, defaultOut: TOut, input: Getter<TIn>)
      ensures this.step == step && this.input == input
      ensures state == s0 && Current == defaultOut && !finished && Moves == 0
    {
      this.step := step;
      this.input := input;
      state := s0;
      Current := defaultOut;
      finished := false;
      Moves := 0;
    }

    /** Run the body to its next `yield return` (true, `Current` is the value
        yielded) or off its end (false, `Current` keeps the last value yielded).
        A body that has ended stays ended. */
    method MoveNext() returns (more: bool)
      modifies this
      ensures Moves == old(Moves) + 1
      ensures more == !finished
      ensures old(finished) ==> finished && state == old(state) && Current == old(Current)
      ensures !old(finished) ==>
                match step(old(state), input.Value)
                case None => finished && state == old(state) && Current == old(Current)
                case Some((s1, y)) => !finished && state == s1 && Current == y
    {
      Moves := Moves + 1;
      if finished {
        return false;
      }
      match step(state, input.Value) {
        case None =>
          finished := true;
        case Some((s1, y)) =>
          state, Current := s1, y;
      }
      more := !finished;
    }
  }

  /** A coroutine over a producer: feeds one input per `Resume` through the shared
      cell and returns what the producer yields. `History` is the inputs of the
      calls that were accepted, `Start` the state at construction. */
  class Coroutine<S, TIn, TOut> {
    const inputData: Getter<TIn>
    const enumerator: Enumerator<S, TIn, TOut>
    var Alive: bool
    ghost const DefaultIn: TIn
    ghost const Start: Machine<S, TOut>
    ghost var History: seq<TIn>

    /** The wrapper's state as the pure model sees it. */
    ghost function Model(): Machine<S, TOut>
      reads this, enumerator
    {
      Machine(enumerator.state, enumerator.Current, Alive)
    }

    /** The producer shares this coroutine's input cell; `Alive` is false exactly
        when the producer has ended; the producer was advanced once per accepted
        call; the cell holds the latest accepted input (the default value before
        the first); and the state is what the accepted calls make of the start. */
    ghost predicate Valid()
      reads this, enumerator, inputData
    {
      && enumerator.input == inputData
      && Alive == !enumerator.finished
      && enumerator.Moves == |History|
      && inputData.Value == (if History == [] then DefaultIn else History[|History| - 1])
      && Model() == Run(enumerator.step, Start, History).0
    }

    /** Wraps the producer `step` started in state `s0`, without advancing it. */
    constructor (step: StepFn<S, TIn, TOut>, s0: S, defaultIn: TIn, defaultOut: TOut)
      ensures Valid() && fresh(inputData) && fresh(enumerator)
      ensures Alive && inputData.Value == defaultIn
      ensures enumerator.step == step && enumerator.Moves == 0
      ensures Model() == Init(s0, defaultOut) && Start == Model() && History == []
    {
      var cell := new Getter(defaultIn);
      inputData := cell;
      enumerator := new Enumerator(step, s0, defaultOut, cell);
      Alive := true;
      DefaultIn := defaultIn;
      Start := Init(s0, defaultOut);
      History := [];
    }

    /** Begins or resumes the producer with `input`. A dead coroutine throws
        `CoroutineException` and changes nothing. A live one stores `input` in the
        shared cell, advances the producer exactly once on it, sets `Alive` to
        whether the producer yielded, and returns the producer's `Current`. */
    method Resume(input: TIn) returns (r: Resumption<TOut>)
      requires Valid()
      modifies this, inputData, enumerator
      ensures Valid()
      ensures (Model(), r) == Step(enumerator.step, old(Model()), input)
      ensures !old(Alive) ==> r == CoroutineException && unchanged(this, inputData, enumerator)
      ensures old(Alive) ==> inputData.Value == input && enumerator.Moves == old(enumerator.Moves) + 1
      ensures History == if old(Alive) then old(History) + [input] else old(History)
    {
      if !Alive {
        return CoroutineException;
      }
      inputData.Value := input;
      Alive := enumerator.MoveNext();
      History := History + [input];
      RunSnoc(enumerator.step, Start, old(History), input);
      return Returned(enumerator.Current);
    }
  }

  /** A producer that yields 1, 2 and 3 and ignores its input: the fourth call
      returns 3 again and kills the coroutine, and a fifth call throws. */
  method ResumeThreeValues() {
    var co := new Coroutine<nat, char, int>(ListStep([1, 2, 3]), 0, '\0', 0);
    var r := co.Resume('a');
    assert r == Returned(1) && co.Alive;
    r := co.Resume('b');
    assert r == Returned(2) && co.Alive;
    r := co.Resume('c');
    assert r == Returned(3) && co.Alive;
    r := co.Resume('d');
    assert r == Returned(3) && !co.Alive;
    r := co.Resume('e');
    assert r == CoroutineException && !co.Alive;
  }
}
