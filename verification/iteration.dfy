/** Repeating a step. */
module Iteration {
  function Iterate<T>(step: T -> T, x: T, n: nat): T {
    if n == 0 then x else step(Iterate(step, x, n - 1))
  }

  function Fold<S, E>(next: (S, E) -> S, s: S, events: seq<E>): S {
    if events == [] then s else next(Fold(next, s, events[..|events| - 1]), events[|events| - 1])
  }
}
