/**
 * The default `MoveGenerator.random_moves` (local_search/problems/base/move_generator.py):
 * materialise the available moves and return them in the order of `random.sample`.
 * The random draws are a parameter: draw k picks one of the moves not yet picked.
 */
module MoveGenerator {

  /** Draw k is an index into the pool that is left after k draws. */
  predicate ValidDraws(poolSize: nat, draws: seq<nat>) {
    |draws| <= poolSize && forall k :: 0 <= k < |draws| ==> draws[k] < poolSize - k
  }

  /** Sampling without replacement: every draw removes the drawn element from the pool. */
  function Sample<T>(pool: seq<T>, draws: seq<nat>): (r: seq<T>)
    requires ValidDraws(|pool|, draws)
    ensures |r| == |draws|
    ensures multiset(r) <= multiset(pool)
    ensures |draws| == |pool| ==> multiset(r) == multiset(pool)
  {
    if draws == [] then []
    else
      var i := draws[0];
      var rest := pool[..i] + pool[i + 1..];
      assert pool == pool[..i] + [pool[i]] + pool[i + 1..];
      assert ValidDraws(|rest|, draws[1..]) by {
        forall k | 0 <= k < |draws[1..]| ensures draws[1..][k] < |rest| - k {
          assert draws[1..][k] == draws[k + 1];
        }
      }
      [pool[i]] + Sample(rest, draws[1..])
  }

  /** `random_moves`: all available moves, each exactly once, in a random order. */
  function RandomMoves<M>(available: seq<M>, draws: seq<nat>): (r: seq<M>)
    requires |draws| == |available| && ValidDraws(|available|, draws)
    ensures |r| == |available|
    ensures multiset(r) == multiset(available)
    ensures forall m :: m in r ==> m in available
  {
    var r := Sample(available, draws);
    assert forall m :: m in r ==> m in multiset(r);
    r
  }

  /** Drawing 0 every time keeps the original order. */
  lemma {:induction false} SampleFirstAlways<T>(pool: seq<T>, draws: seq<nat>)
    requires |draws| == |pool|
    requires forall k :: 0 <= k < |draws| ==> draws[k] == 0
    ensures ValidDraws(|pool|, draws) && Sample(pool, draws) == pool
  {
    assert ValidDraws(|pool|, draws);
    if draws != [] {
      assert forall k :: 0 <= k < |draws[1..]| ==> draws[1..][k] == 0;
      SampleFirstAlways(pool[1..], draws[1..]);
      SampleHead(pool, draws);
      assert pool == [pool[0]] + pool[1..];
    }
  }

  /** A first draw of 0 takes the head of the pool and samples the rest from its tail. */
  lemma SampleHead<T>(pool: seq<T>, draws: seq<nat>)
    requires ValidDraws(|pool|, draws) && draws != [] && draws[0] == 0
    ensures ValidDraws(|pool| - 1, draws[1..])
    ensures Sample(pool, draws) == [pool[0]] + Sample(pool[1..], draws[1..])
  {
    var i := draws[0];
    var rest := pool[..i] + pool[i + 1..];
    assert rest == pool[1..];
    ValidTail(|pool|, draws);
    assert Sample(pool, draws) == [pool[i]] + Sample(rest, draws[1..]);
  }

  /** The draws after the first are valid for the pool left after it. */
  lemma ValidTail(poolSize: nat, draws: seq<nat>)
    requires ValidDraws(poolSize, draws) && draws != []
    ensures ValidDraws(poolSize - 1, draws[1..])
  {
    forall k | 0 <= k < |draws[1..]| ensures draws[1..][k] < poolSize - 1 - k {
      assert draws[1..][k] == draws[k + 1];
    }
  }
}
