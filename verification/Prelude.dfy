/** Definitions every component shares. */
module Prelude {

  datatype Option<+T> = None | Some(value: T)

  function Min(a: int, b: int): int { if a < b then a else b }

  function Max(a: int, b: int): int { if a < b then b else a }

  lemma Assoc<T>(a: seq<T>, b: seq<T>, c: seq<T>)
    ensures (a + b) + c == a + (b + c)
  {
  }

  lemma SubsetSize<T>(a: set<T>, b: set<T>)
    requires a <= b
    ensures |a| <= |b|
  {
    assert b == a + (b - a);
  }
}

/**
  Power loss. An operation that makes several durable writes is described by its
  trace: the durable states it passes through, one per write. `power` is the
  number of writes the machine survives; whatever the operation still wanted to
  do after that never happens, and everything held in memory is forgotten.
  */
module PowerLoss {

  /** The durable state left behind when `power` writes of `trace` got through. */
  function Surviving<S>(start: S, trace: seq<S>, power: nat): S {
    if power == 0 || trace == [] then start
    else if power < |trace| then trace[power - 1]
    else trace[|trace| - 1]
  }

  /** Did every write of `trace` become durable? */
  predicate Completes<S>(trace: seq<S>, power: nat) {
    |trace| <= power
  }

  /** Cutting one operation after another is cutting the first, or the second from where the first ended. */
  lemma SurvivingConcat<S>(start: S, a: seq<S>, b: seq<S>, power: nat)
    ensures Surviving(start, a + b, power) ==
      if power < |a| then Surviving(start, a, power)
      else Surviving(Surviving(start, a, |a|), b, power - |a|)
  {
  }

  /** What a completed trace leaves is what its rest leaves after its first write. */
  lemma SurvivingAll<S>(start: S, next: S, rest: seq<S>)
    ensures Surviving(start, [next] + rest, |[next] + rest|) == Surviving(next, rest, |rest|)
  {
  }
}
