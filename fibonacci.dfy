/**
  `caching_fibonacci` (goit-pycore-hw-05/task_1.py): a closure that owns a
  dictionary of already computed Fibonacci numbers. The closure and its
  dictionary become an object with a `map` field; each call of
  `caching_fibonacci()` is a fresh object.
*/
module Fibonacci {

  /** The Fibonacci numbers as the inner function defines them, extended by
      0 to every index below 1. */
  function Fib(n: int): (r: nat)
    ensures r == 0 <==> n <= 0
    decreases n
  {
    if n <= 0 then 0
    else if n == 1 then 1
    else Fib(n - 1) + Fib(n - 2)
  }

  /** Only indices from 2 are stored, each with its true Fibonacci number,
      and the stored indices form one run 2, 3, ..., m. */
  ghost predicate Stored(cache: map<int, nat>) {
    && (forall k :: k in cache ==> k >= 2 && cache[k] == Fib(k))
    && (forall j, k :: k in cache && 2 <= j <= k ==> j in cache)
  }

  /** Storing the next number after a complete run keeps the cache sound. */
  lemma StoreNext(cache: map<int, nat>, n: int)
    requires Stored(cache) && n >= 2
    requires forall j :: 2 <= j < n ==> j in cache
    ensures Stored(cache[n := Fib(n)])
  {
  }

  class FibonacciCache {
    /** The `cache` dictionary of the closure. */
    var cache: map<int, nat>

    ghost predicate Valid()
      reads this
    {
      Stored(cache)
    }

    /** `caching_fibonacci()`: a new, empty cache. */
    constructor ()
      ensures Valid()
      ensures cache == map[]
    {
      cache := map[];
    }

    /** The inner `fibonacci(n)`. */
    method Fibonacci(n: int) returns (r: nat)
      requires Valid()
      modifies this
      ensures Valid()
      ensures r == Fib(n)
      ensures forall k :: k in cache <==> k in old(cache) || 2 <= k <= n
      ensures n < 2 || n in old(cache) ==> cache == old(cache)
      decreases n
    {
      if n <= 0 {
        return 0;
      } else if n == 1 {
        return 1;
      }
      if n in cache {
        return cache[n];
      }
      var a := Fibonacci(n - 1);
      var b := Fibonacci(n - 2);
      StoreNext(cache, n);
      cache := cache[n := a + b];
      r := cache[n];
    }
  }

  /** The values the script prints, step by step from the start. */
  lemma TenthAndFifteenth()
    ensures Fib(10) == 55 && Fib(15) == 610
  {
    assert Fib(2) == 1 && Fib(3) == 2 && Fib(4) == 3 && Fib(5) == 5;
    assert Fib(6) == 8 && Fib(7) == 13 && Fib(8) == 21 && Fib(9) == 34;
    assert Fib(10) == 55 && Fib(11) == 89 && Fib(12) == 144 && Fib(13) == 233;
    assert Fib(14) == 377;
  }

  /** The two calls at the end of the file, on one cache. */
  method Demo() returns (tenth: nat, fifteenth: nat)
    ensures tenth == 55 && fifteenth == 610
  {
    var fib := new FibonacciCache();
    tenth := fib.Fibonacci(10);
    fifteenth := fib.Fibonacci(15);
    TenthAndFifteenth();
  }
}
