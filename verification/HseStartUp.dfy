/** The bounded wait for the external oscillator (stm32f10x_rcc.c).

    The hardware may raise and drop the ready flag as it likes: `ready(i)` is what read number `i`
    of the flag sees. The counter is a 32-bit variable. */
module HseStartUp {
  import opened Common

  /** The number of reads at most; with a limit of zero the counter goes once around. */
  function Bound(timeout: nat): nat {
    if timeout == 0 then U32 else timeout
  }

  /** The counter after `n` increments, up to once around. */
  function Counter(n: nat): nat {
    if n == U32 then 0 else n
  }

  /** The wait ends after `n` reads: at the first one that saw the flag, or at the bound. */
  ghost predicate EndsAfter(ready: nat -> bool, timeout: nat, n: nat) {
    && 1 <= n <= Bound(timeout)
    && (forall i: nat :: i < n - 1 ==> !ready(i))
    && (ready(n - 1) || n == Bound(timeout))
  }

  lemma EndsOnce(ready: nat -> bool, timeout: nat, n: nat, m: nat)
    requires EndsAfter(ready, timeout, n) && EndsAfter(ready, timeout, m)
    ensures n == m
  {
  }

  /** RCC_WaitForHSEStartUp: the answer is what one more read sees after the wait. */
  method WaitForHSEStartUp(ready: nat -> bool, timeout: nat) returns (success: bool, n: nat)
    requires timeout < U32
    ensures EndsAfter(ready, timeout, n)
    ensures success == ready(n)
    ensures ready(n - 1) || n == if timeout == 0 then 0x1_0000_0000 else timeout
    ensures 1 <= n <= if timeout == 0 then 0x1_0000_0000 else timeout
  {
    n := 1;
    var counter := 1;
    var seen := ready(0);
    while counter != timeout && !seen
      invariant 1 <= n <= Bound(timeout) && counter == Counter(n)
      invariant seen == ready(n - 1) && forall i: nat :: i < n - 1 ==> !ready(i)
      invariant n < U32 || counter == timeout
      decreases Bound(timeout) - n
    {
      seen := ready(n);
      counter := Counter(counter + 1);
      n := n + 1;
    }
    success := ready(n);
  }

  /** An oscillator that stays ready once it is: the call succeeds exactly when the flag is up at the
      read behind the bound, however early it came. */
  lemma SteadyOscillator(ready: nat -> bool, timeout: nat, n: nat)
    requires EndsAfter(ready, timeout, n)
    requires forall i: nat, j: nat :: i <= j && ready(i) ==> ready(j)
    ensures ready(n) <==> ready(Bound(timeout))
  {
    if ready(Bound(timeout)) && n < Bound(timeout) {
      assert ready(n - 1);
    }
  }
}
