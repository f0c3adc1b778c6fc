/** Interruptions as an input: which of the attempts to talk to the database fail, whatever the reason. */
module Interruptions {
  /** How many of the first `n` attempts are interrupted. */
  function Faults(fails: nat -> bool, n: nat): nat {
    if n == 0 then 0 else Faults(fails, n - 1) + if fails(n - 1) then 1 else 0
  }

  /** As many by `b` as by `a`: none in between. */
  lemma {:induction false} NoFaults(fails: nat -> bool, a: nat, b: nat)
    requires a <= b
    ensures Faults(fails, a) <= Faults(fails, b)
    ensures Faults(fails, b) == Faults(fails, a) <==> forall n :: a <= n < b ==> !fails(n)
  {
    if a < b {
      NoFaults(fails, a, b - 1);
    }
  }
}
