/** What several of the models share. */
module Basics {

  datatype Option<T> = None | Some(value: T)

  /** The numbers below n. */
  function UpTo(n: nat): (all: set<nat>)
    ensures forall i: nat :: i in all <==> i < n
    ensures |all| == n
  {
    if n == 0 then {} else UpTo(n - 1) + {n - 1}
  }
}
