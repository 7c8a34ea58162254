# Coroutine wrapper over a C# iterator, in Dafny

The library wraps a delegate that, given the shared input cell, returns an
`IEnumerable<TOut>` (Coroutine.cs:42, 63), as a coroutine with two-way data
passing. The delegate is meant to be an iterator body (a method that uses
`yield return`), and the model covers that kind of producer.
`Coroutine<TIn, TOut>` owns a shared input cell (`Getter<TIn>`), the body's enumerator and a liveness flag `Alive`.
Each `Resume(input)` does three things. It throws `CoroutineException` if the
coroutine is dead. Otherwise it writes `input` into the cell, advances the
enumerator exactly once, and sets `Alive` to whether that advance yielded. It
returns the enumerator's `Current`.

The model has three modules.

- `Producers` (producers.dfy) stands for the caller's iterator body. It is a
  step function `(S, TIn) -> Option<(S, TOut)>`: from iteration state `s`, with
  the value it reads from the cell, the body either runs to its next
  `yield return y` in a new state (`Some`), or runs off its end (`None`).
  `Drive` is the body's own behaviour when advanced once per input; it is the
  reference the coroutine is proved against. Three sample bodies are given: a
  fixed list of values, any endless body, and an echo of the input plus one.
- `CoroutineSpec` (coroutine_spec.dfy) is the wrapper as a pure state machine.
  `Machine` holds the iteration state, `Current` and `Alive`. `Step` is one
  `Resume`, and `Run` is a sequence of calls. The lemmas state the lifecycle:
  a dead coroutine stays dead and always throws, and calls follow the producer
  through three phases. The exactly-N-values case and the endless case are
  stated separately.
- `Coroutines` (coroutine.dfy) holds the objects: `Getter`, `Enumerator` and
  `Coroutine`. Their fields are updated in place, and `Resume` has a `modifies`
  clause. `Coroutine.Valid()` ties the objects together. The enumerator holds
  the same cell as the coroutine, and `Alive` is the negation of "the body has
  ended". The producer was advanced once per accepted call. The cell holds the
  latest accepted input. The fields equal `Run` over the accepted inputs.
  `Resume` is proved to perform exactly one `Step`. `ResumeThreeValues` is an
  example client, not a model of any member of the library: it shows what a
  caller can prove from these contracts alone, for a body yielding 1, 2, 3.

Value of the exhausting call: a compiler-generated C# enumerator keeps
`Current` when `MoveNext` returns false. So the call that finds the end of the
body returns the value of the previous `yield return` again. If the body never
yielded, it returns the default value of `TOut`. The model states this
explicitly (`Step`, `RunFollowsProducer`, `FiniteProducerPhases`). A body
that yields N values therefore returns them on calls 1..N with `Alive` true.
Call N+1 returns the Nth value again and sets `Alive` to false. Call N+2
throws.

`default(TIn)` and `default(TOut)` are constructor parameters (`defaultIn`,
`defaultOut`). The iteration state that `GetEnumerator` hands out is the
parameter `s0`.

Because `Resume` writes the cell before it advances the body
(Coroutine.cs:79-80), the echo body `while (true) yield return input.Value + 1;`
answers inputs 5, 5, 0 with 6, 6, 1 (`EchoSeesLatestInput`).

## Model

| member | source | states |
|---|---|---|
| `Producers.Drive` | Coroutine.cs:40-42 | the body advanced once per input yields at most one value per input; when it ends, the advance that found the end consumed an input; when it has not ended, it yielded once for every input |
| `Producers.DriveList` | Coroutine.cs:42 | a body that yields a fixed list yields the next values of the list, one per input, and ends exactly when more inputs are supplied than values remain |
| `Producers.DriveEndless` | Coroutine.cs:42 | a body that never runs off its end yields once for every input and never ends |
| `Producers.DriveEcho` | Coroutine.cs:40 | a body that reads the cell on every advance and yields it plus one answers each input with that input plus one |
| `CoroutineSpec.Step` | Coroutine.cs:73-82 | on a dead coroutine: `CoroutineException` and no state change; liveness never returns; on a live one, alive afterwards iff the producer yielded on this input; the result is the producer's `Current` afterwards, i.e. the new value, or the previous `Current` when the advance found the end |
| `CoroutineSpec.Run` | Coroutine.cs:75-81 | one outcome per call; a coroutine alive at the end was alive at the start; from a dead state every call throws and the state never changes |
| `CoroutineSpec.RunSnoc` | Coroutine.cs:73-82 | one more call after a sequence of calls is one more `Step` from the state the sequence ended in |
| `CoroutineSpec.RunFollowsProducer` | Coroutine.cs:71-81 | for any producer, with n the number of values it yields on the same inputs: calls 1..n return those values in order; if it ended, call n+1 returns the nth value again (the prior `Current` if n = 0) and every later call throws; alive at the end iff the producer has not ended; final state and `Current` are the producer's last |
| `CoroutineSpec.FiniteProducerPhases` | Coroutine.cs:75-81 | for a producer yielding exactly N values, from construction: calls 1..N return them in order, call N+1 returns the Nth again (the default if N = 0), later calls throw; the coroutine is alive after k calls iff k <= N |
| `CoroutineSpec.InfiniteProducerStaysAlive` | Coroutine.cs:75-81 | a producer that never ends keeps the coroutine alive over any number of calls, and each call returns what the producer yields |
| `CoroutineSpec.EchoSeesLatestInput` | Coroutine.cs:79-80 | every call on an echo coroutine returns that call's own input plus one, never a stale input |
| `Coroutines.Getter.constructor` | Coroutine.cs:28-31 | the new cell holds the given value |
| `Coroutines.Enumerator.constructor` | Coroutine.cs:63 | the enumerator of an unstarted body: initial state, `Current` is the default value, not ended, shares the given cell |
| `Coroutines.Enumerator.MoveNext` | Coroutine.cs:80-81 | runs the body one step on the value the cell holds now: on a yield, the new state and `Current` and true; at the end, false with `Current` kept; an ended body stays ended |
| `Coroutines.Coroutine.constructor` | Coroutine.cs:60-65 | `Alive` is true, the cell holds the default input, the producer has not been advanced, the state is `Init` |
| `Coroutines.Coroutine.Resume` | Coroutine.cs:73-82 | the new state and result are exactly one `Step` on `input`; when dead, `CoroutineException` and nothing changes; when alive, the cell holds `input` and the producer moved exactly once; the invariant `Valid()` is kept |

## Left out

- Producers other than `yield return` bodies: the delegate may return any `IEnumerable<TOut>`, but the model fixes the behaviour of a compiler-generated iterator. It runs nothing at construction, and it keeps `Current` when `MoveNext` returns false. Other enumerables differ: `List<T>`'s enumerator resets `Current` to the default at the end, an array's enumerator throws `InvalidOperationException` from `Current` after the end (with `Alive` already false), and a delegate that is not lazy runs its work at construction and sees only the default input. These cases depend on library code that is not part of this model.
- The C# iterator machinery (`yield return` compilation, `IEnumerable`/`IEnumerator`, `Dispose`, `Reset`): the body is an abstract step function over an explicit iteration state.
- Exceptions thrown by the body during `MoveNext`: the library does not handle them, and `Alive` is then unspecified; the step function is total.
- Thread safety: the library gives none, and the model is sequential.
- The message text and the inner-exception constructors of `CoroutineException`: a failing call is the `CoroutineException` outcome of `Resume`.
- C# access modifiers: the private setter of `Alive` and the private fields cannot be enforced in Dafny; the `modifies` clauses show that only `Resume` writes them and the cell after construction.
- `default(T)`: given as constructor parameters instead of derived from the C# type system.
