# Till withdrawal planner

A model of the cash-drawer withdrawal calculator of a till-counting page. A
cashier enters how many units of each bill and coin the drawer holds and how
much cash should be taken out. The calculator checks that the drawer keeps at
least $200.00 afterwards, and then picks the bills and coins to hand over,
largest denomination first. Saved drawer records can be deleted by id.

Every amount is an integer number of cents. The drawer snapshot is a sequence
of ten counts in catalog order: $100, $50, $20, $10, $5 and $1 bills, then
quarters, dimes, nickels and pennies.

Modules, one per component:

- `Denominations` (denominations.dfy): the fixed catalog, largest first.
- `Drawer` (drawer.dfy): a snapshot's total and what a plan leaves in it.
- `Outcome` (outcome.dfy): a plan, or an error that keeps the numbers its
  message reports.
- `Planner` (planner.dfy): the greedy pass. `PlanWithdrawal` is the loop over
  an in-place plan array. It is proved equal to the specification `Greedy`,
  which is built from `RemainingBefore`, the cents still owed at each
  denomination. The lemmas about that specification give:
  - conservation: taken plus owed equals the target;
  - the owed amount never grows;
  - greedy maximality at every slot;
  - enough pennies always suffice;
  - greedy is not a complete change maker.
- `Withdrawal` (withdrawal.dfy): the ordered checks, the whole request, and
  the $200.00 minimum kept after every planned withdrawal.
- `Records` (records.dfy): deleting saved records by id.

## Model

| member | source | states |
|---|---|---|
| `Denominations.Value` | script.js:139-150 | every face value is at least one cent |
| `Denominations.CatalogShape` | script.js:139-150 | ten denominations, strictly descending in value, with distinct breakdown keys; the six bills come first and are whole dollars, the four coins are worth less than a dollar |
| `Drawer.DrawerTotal` | script.js:36-46 | the bills-then-coins total equals the catalog sum of count × face value; no slot is worth more than the total |
| `Drawer.CentsOfAllSlots` | script.js:36-46 | the catalog sum, written out, is the source's expression in cents |
| `Drawer.MinusCents` | script.js:277-279 | handing over a plan lowers every prefix sum of the drawer by the plan's prefix sum |
| `Drawer.MinusTotal` | script.js:277-279 | the drawer left after a plan is worth the old total minus the plan's total |
| `Planner.Take` | script.js:153-159 | a step never takes more units than the drawer holds |
| `Planner.TakeFits` | script.js:153-160 | a step's value fits in what is owed, and the step either empties the slot or leaves less than one unit owed |
| `Planner.TakeIsLargest` | script.js:153-157 | any count that fits the drawer and the amount owed is at most what the step takes |
| `Planner.TakeIsZeroIffSkipped` | script.js:153 | a step takes nothing exactly when its guard fails: too little owed or no units |
| `Planner.GreedyPlan` | script.js:119-163 | the plan has one slot per denomination, each within the drawer's count |
| `Planner.GreedyConserves` | script.js:152-163 | after any number of steps, the value taken plus the amount still owed equals the target |
| `Planner.RemainingNeverIncreases` | script.js:153-160 | the owed amount never grows along the pass and never exceeds the target |
| `Planner.GreedyMaximal` | script.js:139-163 | at each denomination the pass takes all units or leaves less than one unit owed; no fitting count is larger; the slot stays 0 exactly when skipped |
| `Planner.Greedy` | script.js:165-177 | success exactly when nothing is owed after the pass; a success is within the drawer and worth exactly the target; a failure carries the positive unmet cents |
| `Planner.EnoughPenniesSuffice` | script.js:149-163 | with at least the target in pennies the pass always succeeds |
| `Planner.GreedyIsIncomplete` | script.js:139-171 | one quarter and three dimes: 30 cents is payable with three dimes, yet the pass fails 5 cents short |
| `Planner.PlanWithdrawal` | script.js:118-178 | the in-place loop returns exactly the specification's outcome, so its plan is exact and within the drawer, and its failure carries the leftover |
| `Withdrawal.CheckWithdrawal` | script.js:74-100 | checks in order: amount ≤ 0 is InvalidAmount whatever the drawer; then a total below 20000 cents is BelowMinimum; then an amount above total − 20000 is ExceedsAvailable, reporting that ceiling; it passes exactly when 0 < amount ≤ total − 20000 |
| `Withdrawal.RequestOutcome` | script.js:74-111 | a failed check's error is the request's outcome (so an amount ≤ 0 is InvalidAmount whatever the drawer, and ExceedsAvailable reports total − 20000); a request is planned exactly when it passes the checks and the greedy pass leaves nothing owed; a change failure happens only after the checks pass |
| `Withdrawal.WithdrawalKeepsMinimum` | script.js:87-113 | a planned withdrawal is worth exactly the amount, stays within the drawer, and leaves total − amount ≥ 20000 cents in the drawer |
| `Withdrawal.LowDrawerNeverPlans` | script.js:74-85 | a drawer below 20000 cents never yields a plan; any positive amount gets BelowMinimum |
| `Withdrawal.MinimumCheckOnlyClassifies` | script.js:79-100 | the minimum check changes only the error reported: without it exactly the same requests would pass |
| `Withdrawal.CalculateWithdrawal` | script.js:68-115 | the request handler returns exactly the specification's outcome |
| `Withdrawal.ExactWithdrawalExample` | script.js:102-177 | $285.00 drawer, $85.00 asked: three $20, four $5 and twenty quarters |
| `Withdrawal.GreedyGapInRequest` | script.js:74-171 | $200.00 in bills, one quarter and three dimes, 30 cents asked: the checks pass, three dimes would pay it, yet the request fails 5 cents short |
| `Withdrawal.ExceedsAvailableExample` | script.js:87-100 | same drawer, $90.00 asked: rejected with the $85.00 ceiling |
| `Withdrawal.NoCoinsExample` | script.js:152-171 | $201.00 in bills only, 3 cents asked: rejected, 3 cents unmet |
| `Records.DeleteRecord` | script.js:381 | no kept record has the id; every kept record came from the list; every record with another id is kept; the list never grows |
| `Records.DeleteDistributes` | script.js:381 | deleting distributes over concatenation, so kept records stay in their original order |
| `Records.DeleteRemovesMatches` | script.js:381 | the list shrinks by exactly the number of records with the id |
| `Records.DeleteAbsentKeepsAll` | script.js:381 | with no record carrying the id the list is unchanged |
| `Records.DeleteIdempotent` | script.js:381 | deleting the same id twice is the same as deleting it once |
| `Records.DeleteSoleMatch` | script.js:381 | when one record alone carries the id, exactly that record is removed |
| `Records.DeleteUniqueRemovesOne` | script.js:298-381 | with unique timestamp ids, deleting the id at position i gives the list without position i |

## Left out

- Reading the form and parsing its fields (`parseInt`/`parseFloat` with the fallback to 0): the counts are passed in as non-negative integers and the amount as integer cents. The model therefore does not cover negative counts typed into the form, which the source does not guard against.
- Floating-point currency: the source keeps dollars as JavaScript numbers. Its coin values (0.25, 0.1, 0.05, 0.01) and the roundings at lines 88 and 132-133 are replaced by exact cents. The source compares the unrounded sales amount with the rounded ceiling, and the planner rounds the amount to cents; the model assumes amounts already in whole cents.
- `Planner.PlanWithdrawal`: the copied counts are decremented as in the source, but the contract does not state their final values. The source never reads them after the decrement: each slot is visited once, reading its count before taking from it.
- `Withdrawal.CheckWithdrawal`: the minimum check's error carries only the $200.00 minimum, because the source's message reports nothing else. It does not carry the drawer total.
- A drawer below the minimum with a non-positive amount is reported as InvalidAmount, not as below the minimum: the source checks the amount first.
- Rendering the plan (`displayWithdrawalResults`), status messages with their timer, clearing the form, the confirmation dialog and the page-load hook: UI work with no decisions.
- Saving, loading and sorting records in browser storage, JSON encoding, and clock reads for ids and dates. These are storage and clock calls; only the filter that deletion applies to the stored list is modelled.
