/** A drawer snapshot: how many units of each catalog denomination the till
    holds, and the total those units are worth. */
module Drawer {
  import opened Denominations

  /** Counts per denomination, in catalog order. The counts are taken by
      value, so nothing computed from a snapshot can change the caller's. */
  predicate IsSnapshot(counts: seq<nat>)
  {
    |counts| == DenominationCount
  }

  /** Cents held in the first n slots: the sum of count times face value. */
  function CentsOf(counts: seq<nat>, n: nat): nat
    requires IsSnapshot(counts) && n <= DenominationCount
  {
    if n == 0 then 0 else CentsOf(counts, n - 1) + counts[n - 1] * Value(n - 1)
  }

  /** Drawer total in cents, computed as the source does: the bills first,
      then the coins, each as a count times its face value. */
  function DrawerTotal(counts: seq<nat>): (total: nat)
    requires IsSnapshot(counts)
    ensures total == CentsOf(counts, DenominationCount)
    ensures forall k :: 0 <= k < DenominationCount ==> counts[k] * Value(k) <= total
  {
    var billsTotal :=
      counts[0] * 10000 + counts[1] * 5000 + counts[2] * 2000 +
      counts[3] * 1000 + counts[4] * 500 + counts[5] * 100;
    var coinsTotal := counts[6] * 25 + counts[7] * 10 + counts[8] * 5 + counts[9] * 1;
    CentsOfAllSlots(counts);
    billsTotal + coinsTotal
  }

  /** The catalog sum written out slot by slot. */
  lemma CentsOfAllSlots(counts: seq<nat>)
    requires IsSnapshot(counts)
    ensures CentsOf(counts, DenominationCount) ==
      counts[0] * 10000 + counts[1] * 5000 + counts[2] * 2000 +
      counts[3] * 1000 + counts[4] * 500 + counts[5] * 100 +
      counts[6] * 25 + counts[7] * 10 + counts[8] * 5 + counts[9] * 1
  {
    assert Value(0) == 10000 && Value(1) == 5000 && Value(2) == 2000 && Value(3) == 1000 && Value(4) == 500;
    assert Value(5) == 100 && Value(6) == 25 && Value(7) == 10 && Value(8) == 5 && Value(9) == 1;
    assert CentsOf(counts, 1) == counts[0] * 10000;
    assert CentsOf(counts, 2) == CentsOf(counts, 1) + counts[1] * 5000;
    assert CentsOf(counts, 3) == CentsOf(counts, 2) + counts[2] * 2000;
    assert CentsOf(counts, 4) == CentsOf(counts, 3) + counts[3] * 1000;
    assert CentsOf(counts, 5) == CentsOf(counts, 4) + counts[4] * 500;
    assert CentsOf(counts, 6) == CentsOf(counts, 5) + counts[5] * 100;
    assert CentsOf(counts, 7) == CentsOf(counts, 6) + counts[6] * 25;
    assert CentsOf(counts, 8) == CentsOf(counts, 7) + counts[7] * 10;
    assert CentsOf(counts, 9) == CentsOf(counts, 8) + counts[8] * 5;
    assert CentsOf(counts, 10) == CentsOf(counts, 9) + counts[9] * 1;
  }

  /** Every slot of `part` is at most the matching slot of `counts`. */
  predicate Within(part: seq<nat>, counts: seq<nat>)
    requires IsSnapshot(part) && IsSnapshot(counts)
  {
    forall k :: 0 <= k < DenominationCount ==> part[k] <= counts[k]
  }

  /** The drawer left after handing over `part`. */
  function Minus(counts: seq<nat>, part: seq<nat>): (rest: seq<nat>)
    requires IsSnapshot(counts) && IsSnapshot(part) && Within(part, counts)
    ensures IsSnapshot(rest)
    ensures forall k :: 0 <= k < DenominationCount ==> rest[k] + part[k] == counts[k]
  {
    seq(DenominationCount, k requires 0 <= k < DenominationCount => counts[k] - part[k])
  }

  /** Handing over `part` lowers the value of every prefix of the drawer by
      exactly the value of the same prefix of `part`. */
  lemma {:induction false} MinusCents(counts: seq<nat>, part: seq<nat>, n: nat)
    requires IsSnapshot(counts) && IsSnapshot(part) && Within(part, counts)
    requires n <= DenominationCount
    ensures CentsOf(Minus(counts, part), n) == CentsOf(counts, n) - CentsOf(part, n)
  {
    if n > 0 {
      MinusCents(counts, part, n - 1);
      var rest := Minus(counts, part);
      assert rest[n - 1] * Value(n - 1) == counts[n - 1] * Value(n - 1) - part[n - 1] * Value(n - 1) by {
        assert rest[n - 1] == counts[n - 1] - part[n - 1];
      }
    }
  }

  /** Handing over `part` lowers the drawer total by exactly its value. */
  lemma MinusTotal(counts: seq<nat>, part: seq<nat>)
    requires IsSnapshot(counts) && IsSnapshot(part) && Within(part, counts)
    ensures DrawerTotal(Minus(counts, part)) == DrawerTotal(counts) - DrawerTotal(part)
  {
    MinusCents(counts, part, DenominationCount);
  }
}
