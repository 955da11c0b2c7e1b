/** The fixed catalog of bills and coins a till drawer holds, largest first.
    Every amount in this model is an integer number of cents. */
module Denominations {

  datatype Category = Bill | Coin

  /** One bill or coin type: the breakdown key it is counted under, its face
      value in cents, and whether it is a bill or a coin. */
  datatype Denomination = Denomination(key: string, cents: nat, category: Category)

  /** The ten denominations in the planner's visiting order. */
  const Catalog: seq<Denomination> := [
    Denomination("bills100", 10000, Bill),
    Denomination("bills50", 5000, Bill),
    Denomination("bills20", 2000, Bill),
    Denomination("bills10", 1000, Bill),
    Denomination("bills5", 500, Bill),
    Denomination("bills1", 100, Bill),
    Denomination("quarters", 25, Coin),
    Denomination("dimes", 10, Coin),
    Denomination("nickels", 5, Coin),
    Denomination("pennies", 1, Coin)
  ]

  const DenominationCount: nat := 10

  /** Face value, in cents, of the k-th denomination of the catalog. */
  function Value(k: nat): (v: nat)
    requires k < DenominationCount
    ensures v >= 1
  {
    Catalog[k].cents
  }

  /** The catalog is strictly descending by face value, every breakdown key names
      one denomination only, bills come before
      coins, every bill is a whole number of dollars and every coin is worth
      less than a dollar. */
  lemma CatalogShape()
    ensures |Catalog| == DenominationCount
    ensures forall i, j :: 0 <= i < j < DenominationCount ==> Value(j) < Value(i)
    ensures forall i, j :: 0 <= i < j < DenominationCount ==> Catalog[i].key != Catalog[j].key
    ensures forall i :: 0 <= i < DenominationCount ==>
      (Catalog[i].category == Bill <==> i < 6)
    ensures forall i :: 0 <= i < 6 ==> Value(i) % 100 == 0
    ensures forall i :: 6 <= i < DenominationCount ==> Value(i) < 100
  {
  }
}
