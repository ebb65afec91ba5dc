/** Calls to the database, any of which may fail. */
module Faults {

  /** Which calls fail, by the number of calls made before. */
  type Oracle = nat -> bool

  class Calls {
    const faults: Oracle
    var clock: nat

    constructor (faults: Oracle)
      ensures this.faults == faults && clock == 0
    {
      this.faults := faults;
      clock := 0;
    }

    method Attempt() returns (ok: bool)
      modifies this
      ensures ok == !faults(old(clock)) && clock == old(clock) + 1
    {
      ok := !faults(clock);
      clock := clock + 1;
    }
  }

  /** None of the calls from one time to another fails. */
  predicate NoFault(faults: Oracle, from: nat, to: nat) {
    forall t: nat :: from <= t < to ==> !faults(t)
  }

  lemma NoFaultYet(faults: Oracle, a: nat)
    ensures NoFault(faults, a, a)
  {
  }

  lemma NoFaultJoins(faults: Oracle, a: nat, b: nat, c: nat)
    requires a <= b <= c
    ensures NoFault(faults, a, c) <==> NoFault(faults, a, b) && NoFault(faults, b, c)
  {
  }

  /** How many of n calls in a row succeed before the first that fails. */
  function Successes(faults: Oracle, from: nat, n: nat): (r: nat)
    ensures r <= n && NoFault(faults, from, from + r) && (r < n ==> faults(from + r))
    decreases n
  {
    if n == 0 || faults(from) then 0 else 1 + Successes(faults, from + 1, n - 1)
  }

  lemma {:induction false} SuccessesIs(faults: Oracle, from: nat, n: nat, r: nat)
    requires r <= n && NoFault(faults, from, from + r) && (r < n ==> faults(from + r))
    ensures Successes(faults, from, n) == r
    decreases n
  {
    if r > 0 { SuccessesIs(faults, from + 1, n - 1, r - 1); }
  }
}
