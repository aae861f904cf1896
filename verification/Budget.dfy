/** The query budget: normalisation of its limits, the query counter and the
    semaphore that bounds queries in flight. Each method is one critical
    section of the code, so callers may interleave between calls only. */
module Budget {

  datatype Limits = Limits(maxQueries: int, maxQPS: int, maxConcurrency: int, perTimeout: int, recursionLimit: int)

  const SECOND := 1_000_000_000

  function OrElse(value: int, default: int): int {
    if value <= 0 then default else value
  }

  /** `Validated`: zero and negative limits become safe defaults. */
  function Validated(b: Limits): Limits {
    Limits(OrElse(b.maxQueries, 400), OrElse(b.maxQPS, 50), OrElse(b.maxConcurrency, 1),
           OrElse(b.perTimeout, 3 * SECOND), OrElse(b.recursionLimit, 8))
  }

  ghost predicate Positive(b: Limits) {
    b.maxQueries > 0 && b.maxQPS > 0 && b.maxConcurrency > 0 && b.perTimeout > 0 && b.recursionLimit > 0
  }

  /** The defaults: 400 queries, 50 a second, one at a time, three seconds each,
      8 levels; a limit above zero stays. */
  lemma Defaults(b: Limits)
    ensures Validated(b).maxQueries == (if b.maxQueries > 0 then b.maxQueries else 400)
    ensures Validated(b).maxQPS == (if b.maxQPS > 0 then b.maxQPS else 50)
    ensures Validated(b).maxConcurrency == (if b.maxConcurrency > 0 then b.maxConcurrency else 1)
    ensures Validated(b).perTimeout == (if b.perTimeout > 0 then b.perTimeout else 3_000_000_000)
    ensures Validated(b).recursionLimit == (if b.recursionLimit > 0 then b.recursionLimit else 8)
  {
  }

  /** A validated budget is positive, and the positive budgets are exactly the
      ones that validation leaves alone. */
  lemma ValidatedIsIdentityOnPositive(b: Limits)
    ensures Positive(Validated(b))
    ensures Validated(b) == b <==> Positive(b)
    ensures Validated(Validated(b)) == Validated(b)
  {
  }

  class Counter {
    var remaining: int

    constructor (n: int)
      ensures remaining == OrElse(n, 400) && Valid()
    {
      remaining := if n <= 0 then 400 else n;
    }

    ghost predicate Valid()
      reads this
    {
      remaining >= 0
    }

    /** `Consume`: one unit if there is one; never below zero. */
    method Consume() returns (ok: bool)
      requires Valid()
      modifies this
      ensures Valid()
      ensures ok <==> old(remaining) > 0
      ensures remaining == old(remaining) - if ok then 1 else 0
    {
      if remaining <= 0 {
        return false;
      }
      remaining := remaining - 1;
      return true;
    }
  }

  class Semaphore {
    const width: nat
    var occupied: nat

    constructor (w: int)
      ensures width == OrElse(w, 1) && occupied == 0 && Valid()
    {
      width := if w <= 0 then 1 else w;
      occupied := 0;
    }

    ghost predicate Valid()
      reads this
    {
      0 < width && occupied <= width
    }

    /** `Acquire`, once one of its two cases can proceed: a free slot, or a
        context that is done. If both can, Go picks either; `pick` says which. */
    method Acquire(done: bool, pick: bool) returns (ok: bool)
      requires Valid() && (done || occupied < width)
      modifies this
      ensures Valid()
      ensures ok <==> occupied == old(occupied) + 1
      ensures !ok ==> done && occupied == old(occupied)
    {
      if done && (occupied == width || pick) {
        return false;
      }
      occupied := occupied + 1;
      return true;
    }

    /** `Release`. Receiving from the channel blocks unless a slot is taken. */
    method Release()
      requires Valid() && occupied > 0
      modifies this
      ensures Valid() && occupied == old(occupied) - 1
    {
      occupied := occupied - 1;
    }
  }
}
