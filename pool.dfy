/**
 * SimplePool<T>: a bounded pool of reusable objects (the traversals rent
 * their stacks from one of at most 5). `count` tracks the number of pooled
 * objects; Return keeps an object only while that number stays within
 * `max`. Calls are taken one at a time.
 */
module Pooling {

  /** One call on the pool. */
  datatype PoolOp<T> = RentOp | ReturnOp(obj: T)

  /** The bound the pool actually keeps: `max`, or nothing for a negative `max`. */
  function Capacity(max: int): nat {
    if max < 0 then 0 else max
  }

  /** The pooled objects after one call, the bag taken as the sequence of its objects. */
  function Step<T>(pool: seq<T>, op: PoolOp<T>, max: int): seq<T> {
    match op
    case RentOp => if pool == [] then [] else pool[..|pool| - 1]
    case ReturnOp(obj) => if |pool| + 1 <= max then pool + [obj] else pool
  }

  /** The pooled objects after a sequence of calls. */
  function Replay<T>(pool: seq<T>, ops: seq<PoolOp<T>>, max: int): seq<T>
    decreases |ops|
  {
    if ops == [] then pool else Replay(Step(pool, ops[0], max), ops[1..], max)
  }

  /** One call keeps the pool within its capacity. */
  lemma StepBounded<T>(pool: seq<T>, op: PoolOp<T>, max: int)
    requires |pool| <= Capacity(max)
    ensures |Step(pool, op, max)| <= Capacity(max)
    ensures op.ReturnOp? && |pool| < max ==> Step(pool, op, max) == pool + [op.obj]
    ensures op.ReturnOp? && |pool| >= max ==> Step(pool, op, max) == pool
  {
  }

  /** Whatever the sequence of Rent and Return calls, the pool never holds more than `max` objects. */
  lemma {:induction false} ReplayBounded<T>(pool: seq<T>, ops: seq<PoolOp<T>>, max: int)
    requires |pool| <= Capacity(max)
    ensures |Replay(pool, ops, max)| <= Capacity(max)
    decreases |ops|
  {
    if ops != [] {
      StepBounded(pool, ops[0], max);
      ReplayBounded(Step(pool, ops[0], max), ops[1..], max);
    }
  }

  /** A Rent after a Return that was kept hands back the returned object and restores the pool. */
  lemma ReturnThenRent<T>(pool: seq<T>, obj: T, max: int)
    requires |pool| < max
    ensures Replay(pool, [ReturnOp(obj), RentOp], max) == pool
    ensures Step(pool, ReturnOp(obj), max)[|pool|] == obj
  {
    var rent: seq<PoolOp<T>> := [RentOp];
    var ops := [ReturnOp(obj)] + rent;
    assert ops[1..] == rent && rent[1..] == [];
    assert (pool + [obj])[..|pool|] == pool;
    calc {
      Replay(pool, ops, max);
      Replay(pool + [obj], rent, max);
      Replay(pool, [], max);
    }
  }

  class SimplePool<T> {
    const max: int
    var pool: seq<T>
    var count: int

    /** In sequential use the counter is the number of pooled objects, never above `max`. */
    ghost predicate Valid()
      reads this
    {
      count == |pool| && |pool| <= Capacity(max)
    }

    /** `new SimplePool<T>(max)`: an empty pool. */
    constructor(max: int)
      ensures Valid() && this.max == max && pool == []
    {
      this.max := max;
      pool := [];
      count := 0;
    }

    /**
     * Rent: a pooled object when there is one, with the counter decremented;
     * otherwise `created`, the caller's `new T()`, and nothing changes.
     */
    method Rent(created: T) returns (obj: T)
      requires Valid()
      modifies this
      ensures Valid()
      ensures pool == Step(old(pool), RentOp, max)
      ensures old(pool) == [] ==> obj == created
      ensures old(pool) != [] ==> old(pool) == pool + [obj]
    {
      if |pool| > 0 {
        obj := pool[|pool| - 1];
        pool := pool[..|pool| - 1];
        count := count - 1;
        return;
      }
      obj := created;
    }

    /**
     * Return: the counter is incremented first; the object is kept when the
     * new count is within `max`, otherwise dropped and the counter restored.
     */
    method Return(obj: T)
      requires Valid()
      modifies this
      ensures Valid()
      ensures pool == Step(old(pool), ReturnOp(obj), max)
    {
      count := count + 1;
      if count <= max {
        pool := pool + [obj];
      } else {
        count := count - 1;
      }
    }
  }
}
