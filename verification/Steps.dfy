/** Equidistant starts, as the loops over the steps of a range go through them. */
module Steps {
  /** The start of the `k`-th of consecutive steps. */
  function StepStart(start: nat, step: nat, k: nat): nat
  {
    if k == 0 then start else StepStart(start, step, k - 1) + step
  }

  lemma {:induction false} StepStartIs(start: nat, step: nat, k: nat)
    ensures StepStart(start, step, k) == start + k * step
  {
    if k > 0 {
      StepStartIs(start, step, k - 1);
      assert k * step == (k - 1) * step + step;
    }
  }

  lemma {:induction false} StepStartsOrdered(start: nat, step: nat, j: nat, k: nat)
    requires j < k
    ensures StepStart(start, step, j) + step <= StepStart(start, step, k)
  {
    if j < k - 1 {
      StepStartsOrdered(start, step, j, k - 1);
    }
  }
}
