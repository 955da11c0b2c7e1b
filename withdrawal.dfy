/** A withdrawal request: the checks that run before planning, then the
    greedy plan. The drawer must keep at least $200.00 after any withdrawal. */
module Withdrawal {
  import opened Denominations
  import opened Drawer
  import opened Outcome
  import opened Planner

  /** The balance the drawer must keep, in cents ($200.00). */
  const MinimumDrawerCents: nat := 20000

  /** The checks that run before planning, in order: a non-positive amount,
      then a drawer below the minimum, then an amount above what can be taken
      while keeping the minimum. None means the request may be planned. */
  function CheckWithdrawal(amountCents: int, drawerTotal: nat): (e: Option<WithdrawalError>)
    ensures e.None? <==> 0 < amountCents && amountCents + MinimumDrawerCents <= drawerTotal
    ensures e == Some(InvalidAmount) <==> amountCents <= 0
    ensures e == Some(BelowMinimum(MinimumDrawerCents)) <==>
      0 < amountCents && drawerTotal < MinimumDrawerCents
    ensures e.Some? && e.value.ExceedsAvailable? <==>
      0 < amountCents && MinimumDrawerCents <= drawerTotal < amountCents + MinimumDrawerCents
    ensures e.Some? && e.value.ExceedsAvailable? ==>
      e.value.requestedCents == amountCents &&
      e.value.maxAvailableCents == drawerTotal - MinimumDrawerCents
    ensures e.Some? && e.value.BelowMinimum? ==> e.value.minimumCents == MinimumDrawerCents
  {
    if amountCents <= 0 then Some(InvalidAmount)
    else if drawerTotal < MinimumDrawerCents then Some(BelowMinimum(MinimumDrawerCents))
    else if amountCents > drawerTotal - MinimumDrawerCents then
      Some(ExceedsAvailable(amountCents, drawerTotal - MinimumDrawerCents))
    else None
  }

  /** The outcome of a withdrawal request against a drawer snapshot. */
  function RequestOutcome(amountCents: int, counts: seq<nat>): (r: WithdrawalOutcome)
    requires IsSnapshot(counts)
    ensures CheckWithdrawal(amountCents, DrawerTotal(counts)).Some? ==>
      r == Rejected(CheckWithdrawal(amountCents, DrawerTotal(counts)).value)
    ensures r.Planned? <==>
      CheckWithdrawal(amountCents, DrawerTotal(counts)).None? && Leftover(amountCents, counts) == 0
    ensures r.Rejected? && r.error.CannotMakeChange? ==>
      CheckWithdrawal(amountCents, DrawerTotal(counts)).None? &&
      r.error.missingCents == Leftover(amountCents, counts) > 0
  {
    match CheckWithdrawal(amountCents, DrawerTotal(counts))
    case Some(e) => Rejected(e)
    case None => Greedy(amountCents, counts)
  }

  /** A planned withdrawal hands over exactly the amount asked for, never
      more units of a denomination than the drawer holds, and leaves at
      least the minimum in the drawer. */
  lemma WithdrawalKeepsMinimum(amountCents: int, counts: seq<nat>)
    requires IsSnapshot(counts) && RequestOutcome(amountCents, counts).Planned?
    ensures var plan := RequestOutcome(amountCents, counts).plan;
      && IsSnapshot(plan) && Within(plan, counts)
      && DrawerTotal(plan) == amountCents
      && DrawerTotal(Minus(counts, plan)) == DrawerTotal(counts) - amountCents
      && DrawerTotal(Minus(counts, plan)) >= MinimumDrawerCents
  {
    var plan := RequestOutcome(amountCents, counts).plan;
    MinusTotal(counts, plan);
  }

  /** A drawer below the minimum never yields a plan, whatever is asked. */
  lemma LowDrawerNeverPlans(amountCents: int, counts: seq<nat>)
    requires IsSnapshot(counts) && DrawerTotal(counts) < MinimumDrawerCents
    ensures RequestOutcome(amountCents, counts).Rejected?
    ensures 0 < amountCents ==>
      RequestOutcome(amountCents, counts) == Rejected(BelowMinimum(MinimumDrawerCents))
  {
  }

  /** The check against the minimum only chooses which error is reported:
      dropping it would reject exactly the same requests, since a positive
      amount always exceeds a negative ceiling. */
  lemma MinimumCheckOnlyClassifies(amountCents: int, drawerTotal: nat)
    ensures CheckWithdrawal(amountCents, drawerTotal).None? <==>
      !(amountCents <= 0 || amountCents > drawerTotal - MinimumDrawerCents)
  {
  }

  /** Serves a withdrawal request: run the checks, then plan greedily. */
  method CalculateWithdrawal(amountCents: int, counts: seq<nat>) returns (result: WithdrawalOutcome)
    requires IsSnapshot(counts)
    ensures result == RequestOutcome(amountCents, counts)
  {
    var drawerTotal := DrawerTotal(counts);
    var check := CheckWithdrawal(amountCents, drawerTotal);
    if check.Some? {
      return Rejected(check.value);
    }
    result := PlanWithdrawal(amountCents, counts);
  }

  /** $285.00 in the drawer ($100 x 2, $20 x 3, $5 x 4, 20 quarters) and
      $85.00 asked: the pass skips the $100 bills and takes every $20, $5
      and quarter. */
  lemma ExactWithdrawalExample()
    ensures RequestOutcome(8500, [2, 0, 3, 0, 4, 0, 20, 0, 0, 0]) ==
      Planned([0, 0, 3, 0, 4, 0, 20, 0, 0, 0])
  {
    var drawer := [2, 0, 3, 0, 4, 0, 20, 0, 0, 0];
    assert DrawerTotal(drawer) == 28500;
    assert RemainingBefore(3, 8500, drawer) == 2500;
    assert RemainingBefore(5, 8500, drawer) == 500;
    assert RemainingBefore(7, 8500, drawer) == 0;
    assert RemainingBefore(10, 8500, drawer) == 0;
    assert GreedyPlan(8500, drawer) == [0, 0, 3, 0, 4, 0, 20, 0, 0, 0];
  }

  /** The greedy gap reaches the cashier: $200.00 in bills plus one quarter
      and three dimes, 30 cents asked. The checks pass, and three dimes would
      pay it, yet the request fails 5 cents short. */
  lemma GreedyGapInRequest()
    ensures RequestOutcome(30, [2, 0, 0, 0, 0, 0, 1, 3, 0, 0]) == Rejected(CannotMakeChange(5))
    ensures var dimesOnly := [0, 0, 0, 0, 0, 0, 0, 3, 0, 0];
      Within(dimesOnly, [2, 0, 0, 0, 0, 0, 1, 3, 0, 0]) && DrawerTotal(dimesOnly) == 30
  {
  }

  /** The same drawer asked for $90.00: only $85.00 can be taken. */
  lemma ExceedsAvailableExample()
    ensures RequestOutcome(9000, [2, 0, 3, 0, 4, 0, 20, 0, 0, 0]) ==
      Rejected(ExceedsAvailable(9000, 8500))
  {
  }

  /** $201.00 in bills and no coins, 3 cents asked: allowed by the minimum,
      but no coin is there to pay it. */
  lemma NoCoinsExample()
    ensures RequestOutcome(3, [2, 0, 0, 0, 0, 1, 0, 0, 0, 0]) == Rejected(CannotMakeChange(3))
  {
  }
}
