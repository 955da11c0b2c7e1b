/** What a withdrawal request ends in: a plan, or one classified error that
    keeps the numbers its message reports. */
module Outcome {

  datatype Option<+T> = None | Some(value: T)

  datatype WithdrawalError =
    | InvalidAmount
      /** The drawer holds less than the minimum it must keep. */
    | BelowMinimum(minimumCents: nat)
      /** More was asked for than the drawer can give while keeping its minimum. */
    | ExceedsAvailable(requestedCents: int, maxAvailableCents: int)
      /** The greedy pass left `missingCents` that no remaining unit could cover. */
    | CannotMakeChange(missingCents: nat)

  datatype WithdrawalOutcome =
    | Planned(plan: seq<nat>)
    | Rejected(error: WithdrawalError)
}
