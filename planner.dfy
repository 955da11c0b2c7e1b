/** The greedy withdrawal planner: walk the catalog from the largest
    denomination down and take as many units of each as fit into what is
    still owed, never more than the drawer holds. */
module Planner {
  import opened Denominations
  import opened Drawer
  import opened Outcome

  function Min(a: nat, b: nat): (m: nat)
    ensures m <= a && m <= b && (m == a || m == b)
  {
    if a <= b then a else b
  }

  /** Units of a denomination worth `value` cents taken when `remaining`
      cents are still owed and the drawer holds `available` units. A step
      whose guard fails (too little owed, or none in the drawer) takes none. */
  function Take(remaining: nat, value: nat, available: nat): (t: nat)
    requires value > 0
    ensures t <= available
  {
    if remaining >= value && available > 0 then Min(remaining / value, available) else 0
  }

  /** What Take takes fits into what is owed, and either empties the slot
      or leaves less than one unit's value owed. */
  lemma TakeFits(remaining: nat, value: nat, available: nat)
    requires value > 0
    ensures Take(remaining, value, available) * value <= remaining
    ensures var t := Take(remaining, value, available);
      t == available || remaining - t * value < value
  {
  }

  /** Take is the most units that fit both the amount owed and the drawer. */
  lemma TakeIsLargest(remaining: nat, value: nat, available: nat, t: nat)
    requires value > 0
    requires t <= available && t * value <= remaining
    ensures t <= Take(remaining, value, available)
  {
    var q := remaining / value;
    assert remaining < (q + 1) * value;
  }

  /** A slot is left at zero exactly when its guard fails. */
  lemma TakeIsZeroIffSkipped(remaining: nat, value: nat, available: nat)
    requires value > 0
    ensures Take(remaining, value, available) == 0 <==> remaining < value || available == 0
  {
    if remaining >= value && available > 0 {
      TakeIsLargest(remaining, value, available, 1);
    }
  }

  /** Cents still owed when the pass reaches denomination k. */
  function RemainingBefore(k: nat, target: nat, available: seq<nat>): nat
    requires IsSnapshot(available) && k <= DenominationCount
  {
    if k == 0 then target
    else
      var r := RemainingBefore(k - 1, target, available);
      TakeFits(r, Value(k - 1), available[k - 1]);
      r - Take(r, Value(k - 1), available[k - 1]) * Value(k - 1)
  }

  /** Units of denomination k the pass takes. */
  function TakeAt(k: nat, target: nat, available: seq<nat>): nat
    requires IsSnapshot(available) && k < DenominationCount
  {
    Take(RemainingBefore(k, target, available), Value(k), available[k])
  }

  /** The plan the pass builds, one slot per denomination. */
  function GreedyPlan(target: nat, available: seq<nat>): (plan: seq<nat>)
    requires IsSnapshot(available)
    ensures IsSnapshot(plan) && Within(plan, available)
  {
    seq(DenominationCount, k requires 0 <= k < DenominationCount => TakeAt(k, target, available))
  }

  /** Cents still owed after the whole pass. */
  function Leftover(target: nat, available: seq<nat>): nat
    requires IsSnapshot(available)
  {
    RemainingBefore(DenominationCount, target, available)
  }

  /** What has been taken so far plus what is still owed is always the target. */
  lemma {:induction false} GreedyConserves(target: nat, available: seq<nat>, k: nat)
    requires IsSnapshot(available) && k <= DenominationCount
    ensures CentsOf(GreedyPlan(target, available), k) + RemainingBefore(k, target, available) == target
  {
    if k > 0 {
      GreedyConserves(target, available, k - 1);
    }
  }

  /** The amount owed never grows during the pass and never exceeds the target. */
  lemma {:induction false} RemainingNeverIncreases(target: nat, available: seq<nat>, i: nat, j: nat)
    requires IsSnapshot(available) && i <= j <= DenominationCount
    ensures RemainingBefore(j, target, available) <= RemainingBefore(i, target, available) <= target
  {
    if i < j {
      RemainingNeverIncreases(target, available, i, j - 1);
    } else if i > 0 {
      RemainingNeverIncreases(target, available, 0, i);
    }
  }

  /** Greedy maximality at every denomination: the slot takes every unit the
      drawer holds or leaves less than one unit's value owed, no count that
      fits both the drawer and the amount owed exceeds it, and it stays zero
      exactly when its guard fails. */
  lemma GreedyMaximal(target: nat, available: seq<nat>, k: nat, t: nat)
    requires IsSnapshot(available) && k < DenominationCount
    ensures var plan := GreedyPlan(target, available);
      plan[k] == available[k] || RemainingBefore(k + 1, target, available) < Value(k)
    ensures t <= available[k] && t * Value(k) <= RemainingBefore(k, target, available) ==>
      t <= GreedyPlan(target, available)[k]
    ensures GreedyPlan(target, available)[k] == 0 <==>
      RemainingBefore(k, target, available) < Value(k) || available[k] == 0
  {
    var r := RemainingBefore(k, target, available);
    if t <= available[k] && t * Value(k) <= r {
      TakeIsLargest(r, Value(k), available[k], t);
    }
    TakeIsZeroIffSkipped(r, Value(k), available[k]);
    TakeFits(r, Value(k), available[k]);
  }

  /** One step of the pass: what it takes fits into what is owed, and it
      lowers what is owed by exactly the value taken. */
  lemma StepFacts(target: nat, available: seq<nat>, k: nat)
    requires IsSnapshot(available) && k < DenominationCount
    ensures var r, v, a := RemainingBefore(k, target, available), Value(k), available[k];
      TakeAt(k, target, available) == if r >= v && a > 0 then Min(r / v, a) else 0
    ensures TakeAt(k, target, available) * Value(k) <= RemainingBefore(k, target, available)
    ensures RemainingBefore(k + 1, target, available) ==
      RemainingBefore(k, target, available) - TakeAt(k, target, available) * Value(k)
  {
  }

  /** A plan that agrees with the pass slot by slot is the pass's plan. */
  lemma PlanMatchesGreedy(plan: seq<nat>, target: nat, available: seq<nat>)
    requires IsSnapshot(available) && IsSnapshot(plan)
    requires forall k :: 0 <= k < DenominationCount ==> plan[k] == TakeAt(k, target, available)
    ensures plan == GreedyPlan(target, available)
  {
  }

  /** The planner's result: the plan when nothing is left owed, otherwise a
      failure carrying the unmet cents. */
  function Greedy(target: nat, available: seq<nat>): (r: WithdrawalOutcome)
    requires IsSnapshot(available)
    ensures r.Planned? <==> Leftover(target, available) == 0
    ensures r.Planned? ==>
      IsSnapshot(r.plan) && Within(r.plan, available) && DrawerTotal(r.plan) == target
    ensures r.Rejected? ==>
      r.error.CannotMakeChange? && 0 < r.error.missingCents == Leftover(target, available) <= target
  {
    GreedyConserves(target, available, DenominationCount);
    RemainingNeverIncreases(target, available, 0, DenominationCount);
    var leftover := Leftover(target, available);
    if leftover > 0 then Rejected(CannotMakeChange(leftover))
    else Planned(GreedyPlan(target, available))
  }

  /** With at least `target` pennies in the drawer the pass always succeeds:
      whatever the larger denominations leave owed, the pennies cover it. */
  lemma EnoughPenniesSuffice(target: nat, available: seq<nat>)
    requires IsSnapshot(available) && target <= available[DenominationCount - 1]
    ensures Greedy(target, available).Planned?
  {
    RemainingNeverIncreases(target, available, 0, DenominationCount - 1);
  }

  /** Greedy is not a complete change maker: with one quarter and three
      dimes, 30 cents is payable with the dimes alone, yet the pass takes the
      quarter first and is left 5 cents short. */
  lemma GreedyIsIncomplete()
    ensures var drawer := [0, 0, 0, 0, 0, 0, 1, 3, 0, 0];
      var dimesOnly := [0, 0, 0, 0, 0, 0, 0, 3, 0, 0];
      && Greedy(30, drawer) == Rejected(CannotMakeChange(5))
      && Within(dimesOnly, drawer) && DrawerTotal(dimesOnly) == 30
  {
  }

  /** The greedy pass plans the withdrawal of `targetCents` from a drawer
      holding `available`, working on its own copy of the counts. */
  method PlanWithdrawal(targetCents: nat, available: seq<nat>) returns (result: WithdrawalOutcome)
    requires IsSnapshot(available)
    ensures result == Greedy(targetCents, available)
    ensures result.Planned? ==>
      IsSnapshot(result.plan) && Within(result.plan, available) && DrawerTotal(result.plan) == targetCents
    ensures result.Rejected? ==> result.error == CannotMakeChange(Leftover(targetCents, available))
  {
    var plan := new nat[DenominationCount](_ => 0);
    var availableCopy := available;
    var remainingCents := targetCents;
    for i := 0 to DenominationCount
      invariant remainingCents == RemainingBefore(i, targetCents, available)
      invariant forall k :: 0 <= k < i ==> plan[k] == TakeAt(k, targetCents, available)
      invariant forall k :: i <= k < DenominationCount ==> plan[k] == 0
      invariant |availableCopy| == DenominationCount
      invariant forall k :: i <= k < DenominationCount ==> availableCopy[k] == available[k]
    {
      var value := Value(i);
      var denomAvailable := availableCopy[i];
      assert denomAvailable == available[i];
      StepFacts(targetCents, available, i);
      if remainingCents >= value && denomAvailable > 0 {
        var maxCanTake := Min(remainingCents / value, denomAvailable);
        plan[i] := maxCanTake;
        remainingCents := remainingCents - maxCanTake * value;
        availableCopy := availableCopy[i := availableCopy[i] - maxCanTake];
      }
    }
    if remainingCents > 0 {
      return Rejected(CannotMakeChange(remainingCents));
    }
    PlanMatchesGreedy(plan[..], targetCents, available);
    result := Planned(plan[..]);
  }
}
