/** The two doubly recursive load generators: `expensiveComputation` of the
    user service (webservice/main.go) and `fibonacci` of the contention
    simulator (concurrency/main.go), related to an independent, linear
    definition of the Fibonacci numbers. */
module Recurrences {

  /** The pair (F(n), F(n+1)) of Fibonacci numbers, F(0) = 0 and F(1) = 1,
      built bottom-up in n steps. This is the reference the two programs'
      functions are measured against. */
  function FibPair(n: nat): (p: (nat, nat))
  {
    if n == 0 then (0, 1)
    else
      var (a, b) := FibPair(n - 1);
      (b, a + b)
  }

  /** F(n), the n-th Fibonacci number. */
  function Fib(n: nat): nat
  {
    FibPair(n).0
  }

  /** The reference obeys the Fibonacci recurrence. */
  lemma {:induction false} FibRecurrence(n: nat)
    requires n >= 2
    ensures Fib(n) == Fib(n - 1) + Fib(n - 2)
  {
    assert FibPair(n - 1) == (Fib(n - 1), Fib(n - 2) + Fib(n - 1));
  }

  /** The contention simulator's `fibonacci`: arguments up to 1 are returned
      unchanged (negative ones included), larger ones recurse twice. */
  function Fibonacci(n: int): (r: int)
    ensures n <= 1 ==> r == n
    ensures n >= 0 ==> r >= 0
    decreases if n < 0 then 0 else n
  {
    if n <= 1 then n else Fibonacci(n - 1) + Fibonacci(n - 2)
  }

  /** `fibonacci` computes the Fibonacci numbers on the naturals. */
  lemma {:induction false} FibonacciIsFib(n: nat)
    ensures Fibonacci(n) == Fib(n)
    decreases n
  {
    if n >= 2 {
      FibonacciIsFib(n - 1);
      FibonacciIsFib(n - 2);
      FibRecurrence(n);
    }
  }

  /** The incrementers' per-tick workload, `fibonacci(10)`. */
  lemma FibonacciOfTen()
    ensures Fibonacci(10) == 55
  {
    FibonacciIsFib(10);
  }

  /** The user service's `expensiveComputation`: 1 for every argument up to
      1 (negative ones included), otherwise the sum of the two previous
      values. It is always at least 1. */
  function ExpensiveComputation(n: int): (r: int)
    ensures n <= 1 ==> r == 1
    ensures r >= 1
    decreases if n < 0 then 0 else n
  {
    if n <= 1 then 1 else ExpensiveComputation(n - 1) + ExpensiveComputation(n - 2)
  }

  /** `expensiveComputation` is the Fibonacci sequence shifted by one. */
  lemma {:induction false} ExpensiveComputationIsShiftedFib(n: nat)
    ensures ExpensiveComputation(n) == Fib(n + 1)
    decreases n
  {
    if n >= 2 {
      ExpensiveComputationIsShiftedFib(n - 1);
      ExpensiveComputationIsShiftedFib(n - 2);
      FibRecurrence(n + 1);
    } else {
      assert FibPair(1) == (1, 1);
      assert FibPair(2) == (1, 2);
    }
  }

  /** The two programs' functions are the same sequence, one step apart. */
  lemma ExpensiveComputationIsNextFibonacci(n: nat)
    ensures ExpensiveComputation(n) == Fibonacci(n + 1)
  {
    ExpensiveComputationIsShiftedFib(n);
    FibonacciIsFib(n + 1);
  }

  /** The value the `/compute` handler reports, `expensiveComputation(20)`,
      is F(21). */
  lemma ExpensiveComputationOfTwenty()
    ensures ExpensiveComputation(20) == 10946
  {
    ExpensiveComputationIsShiftedFib(20);
    assert FibPair(4) == (3, 5);
    assert FibPair(8) == (21, 34);
    assert FibPair(12) == (144, 233);
    assert FibPair(16) == (987, 1597);
    assert FibPair(21) == (10946, 17711);
  }
}
