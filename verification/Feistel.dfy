/** Feistel networks with the swap left out: odd steps add a function of the left half into the right
    half, even steps one of the right half into the left.  Each step undoes itself, so a run of steps is
    undone by the same steps in reverse order, whatever the step functions are. */
module Feistel {
  datatype Halves<T> = Halves(l: T, r: T) {
    function Swap(): Halves<T> {
      Halves(r, l)
    }
  }

  /** Adding the same value twice changes nothing. */
  ghost predicate Cancels<T(!new)>(add: (T, T) -> T) {
    forall a, b :: add(add(a, b), b) == a
  }

  /** Step k, with step function f(k, _). */
  function Step<T>(add: (T, T) -> T, f: (nat, T) -> T, s: Halves<T>, k: nat): Halves<T> {
    if k % 2 == 1 then Halves(s.l, add(s.r, f(k, s.l))) else Halves(add(s.l, f(k, s.r)), s.r)
  }

  /** Steps 1 to k. */
  function Steps<T>(add: (T, T) -> T, f: (nat, T) -> T, s: Halves<T>, k: nat): Halves<T> {
    if k == 0 then s else Step(add, f, Steps(add, f, s, k - 1), k)
  }

  /** Steps k to 1. */
  function StepsBack<T>(add: (T, T) -> T, f: (nat, T) -> T, s: Halves<T>, k: nat): Halves<T>
    decreases k
  {
    if k == 0 then s else StepsBack(add, f, Step(add, f, s, k), k - 1)
  }

  lemma StepTwice<T(!new)>(add: (T, T) -> T, f: (nat, T) -> T, s: Halves<T>, k: nat)
    requires Cancels(add)
    ensures Step(add, f, Step(add, f, s, k), k) == s
  {
  }

  lemma {:induction false} StepsUndone<T(!new)>(add: (T, T) -> T, f: (nat, T) -> T, s: Halves<T>, k: nat)
    requires Cancels(add)
    ensures StepsBack(add, f, Steps(add, f, s, k), k) == s
  {
    if k > 0 {
      StepTwice(add, f, Steps(add, f, s, k - 1), k);
      StepsUndone(add, f, s, k - 1);
    }
  }

  lemma {:induction false} StepsBackUndone<T(!new)>(add: (T, T) -> T, f: (nat, T) -> T, s: Halves<T>, k: nat)
    requires Cancels(add)
    ensures Steps(add, f, StepsBack(add, f, s, k), k) == s
    decreases k
  {
    if k > 0 {
      StepsBackUndone(add, f, Step(add, f, s, k), k - 1);
      StepTwice(add, f, s, k);
    }
  }

  /** A network of n steps, n even, run again on the swapped halves with its step functions in reverse order,
      passes through its own states backwards. */
  lemma {:induction false} SwappedRetraces<T(!new)>(
    add: (T, T) -> T, f: (nat, T) -> T, g: (nat, T) -> T, s: Halves<T>, n: nat, j: nat)
    requires Cancels(add) && n % 2 == 0 && j <= n
    requires forall k: nat, v :: 1 <= k <= n ==> g(k, v) == f(n + 1 - k, v)
    ensures Steps(add, g, Steps(add, f, s, n).Swap(), j) == Steps(add, f, s, n - j).Swap()
  {
    if j > 0 {
      SwappedRetraces(add, f, g, s, n, j - 1);
      var k: nat := n + 1 - j;
      var before := Steps(add, f, s, k - 1);
      assert Steps(add, f, s, k) == Step(add, f, before, k);
      StepTwice(add, f, before, k);
      StepSwapped(add, f, g, Steps(add, f, s, k), k, j);
    }
  }

  lemma StepSwapped<T(!new)>(add: (T, T) -> T, f: (nat, T) -> T, g: (nat, T) -> T, s: Halves<T>, k: nat, j: nat)
    requires k % 2 != j % 2
    requires forall v :: g(j, v) == f(k, v)
    ensures Step(add, g, s.Swap(), j) == Step(add, f, s, k).Swap()
  {
  }
}
