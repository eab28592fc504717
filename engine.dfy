/**
 * The engine page: the running total of amgu paid, built from the `amguPayments` rows of the
 * engine query, and the asset column of the engine events table.
 */
module Engine {
  import opened Optional
  import opened Decimal

  /** One row of `amguPayments`; `amount` is the integer amount as a decimal string. */
  datatype AmguPayment = AmguPayment(id: string, amount: string, timestamp: string)

  /** `{ ...item, cumulativeAmount: carry }`: the payment row with the running total before it. */
  datatype CumulativePayment = CumulativePayment(payment: AmguPayment, cumulativeAmount: int)

  datatype EngineData = EngineData(amguPayments: Option<seq<AmguPayment>>)

  /** The merged query result; `data` is absent while loading or after an error. */
  datatype QueryResult = QueryResult(data: Option<EngineData>)

  /** `(result.data && result.data.amguPayments) || []`. */
  function AmguPayments(result: QueryResult): (payments: seq<AmguPayment>)
    ensures result.data.None? ==> payments == []
    ensures result.data.Some? && result.data.value.amguPayments.None? ==> payments == []
    ensures result.data.Some? && result.data.value.amguPayments.Some? ==>
      payments == result.data.value.amguPayments.value
  {
    match result.data
    case None => []
    case Some(d) => if d.amguPayments.Some? then d.amguPayments.value else []
  }

  /** Every amount is a decimal digit string, the inputs on which `parseInt(amount, 10)` is modelled. */
  predicate AmountsDecimal(payments: seq<AmguPayment>) {
    forall p :: p in payments ==> IsDecimal(p.amount)
  }

  /** The sum of the parsed amounts of `payments`. */
  function Total(payments: seq<AmguPayment>): nat
    requires AmountsDecimal(payments)
    decreases |payments|
  {
    if payments == [] then 0
    else Total(payments[..|payments| - 1]) + ParseInt(payments[|payments| - 1].amount)
  }

  lemma TotalSnoc(payments: seq<AmguPayment>, i: nat)
    requires AmountsDecimal(payments) && i < |payments|
    ensures Total(payments[..i + 1]) == Total(payments[..i]) + ParseInt(payments[i].amount)
  {
    assert payments[..i + 1][..i] == payments[..i];
  }

  lemma {:induction false} TotalCons(payments: seq<AmguPayment>)
    requires AmountsDecimal(payments) && payments != []
    ensures Total(payments) == ParseInt(payments[0].amount) + Total(payments[1..])
    decreases |payments|
  {
    if |payments| > 1 {
      var init := payments[..|payments| - 1];
      TotalCons(init);
      assert init[1..] == payments[1..][..|payments[1..]| - 1];
    }
  }

  /**
   * The `reduce` of the engine page as a fold: each payment is paired with the carry so far,
   * and the carry grows by the payment's parsed amount.
   */
  function Accumulate(payments: seq<AmguPayment>, carry: int): (series: seq<CumulativePayment>)
    requires AmountsDecimal(payments)
    ensures |series| == |payments|
    decreases |payments|
  {
    if payments == [] then []
    else
      [CumulativePayment(payments[0], carry)]
        + Accumulate(payments[1..], carry + ParseInt(payments[0].amount))
  }

  /** The fold is an exclusive prefix sum: entry `k` holds the carry plus the amounts before `k`. */
  lemma {:induction false} AccumulateAt(payments: seq<AmguPayment>, carry: int, k: nat)
    requires AmountsDecimal(payments) && k < |payments|
    ensures |Accumulate(payments, carry)| == |payments|
    ensures Accumulate(payments, carry)[k] == CumulativePayment(payments[k], carry + Total(payments[..k]))
    decreases |payments|
  {
    var tail := payments[1..];
    var carry' := carry + ParseInt(payments[0].amount);
    if k == 0 {
      if tail != [] {
        AccumulateAt(tail, carry', 0);
      }
    } else {
      AccumulateAt(tail, carry', k - 1);
      TotalCons(payments[..k]);
      assert payments[..k][1..] == tail[..k - 1];
    }
  }

  /** The whole series from carry 0, entry by entry. */
  lemma AccumulatePrefixSums(payments: seq<AmguPayment>)
    requires AmountsDecimal(payments)
    ensures forall k :: 0 <= k < |payments| ==>
      Accumulate(payments, 0)[k] == CumulativePayment(payments[k], Total(payments[..k]))
  {
    forall k | 0 <= k < |payments|
      ensures Accumulate(payments, 0)[k] == CumulativePayment(payments[k], Total(payments[..k]))
    {
      AccumulateAt(payments, 0, k);
    }
  }

  /**
   * Lines 30-34 of the engine page: walk the payments in order, push each one with the carry
   * so far, then add its parsed amount to the carry. The final carry is dropped.
   */
  method AmguCumulative(payments: seq<AmguPayment>) returns (cumulative: seq<CumulativePayment>)
    requires AmountsDecimal(payments)
    ensures cumulative == Accumulate(payments, 0)
    ensures |cumulative| == |payments|
    ensures forall i :: 0 <= i < |payments| ==>
      cumulative[i].payment == payments[i] && cumulative[i].cumulativeAmount == Total(payments[..i])
    ensures |payments| > 0 ==> cumulative[0].cumulativeAmount == 0
  {
    cumulative := [];
    var carry := 0;
    for i := 0 to |payments|
      invariant |cumulative| == i
      invariant carry == Total(payments[..i])
      invariant forall k :: 0 <= k < i ==>
        cumulative[k] == CumulativePayment(payments[k], Total(payments[..k]))
    {
      ghost var before := cumulative;
      cumulative := cumulative + [CumulativePayment(payments[i], carry)];
      assert forall k :: 0 <= k < i ==> cumulative[k] == before[k];
      TotalSnoc(payments, i);
      carry := carry + ParseInt(payments[i].amount);
    }
    AccumulatePrefixSums(payments);
    assert payments != [] ==> payments[..0] == [];
  }

  /** Neighbouring entries differ by exactly the earlier payment's parsed amount. */
  lemma AccumulateStep(payments: seq<AmguPayment>, i: nat)
    requires AmountsDecimal(payments) && i + 1 < |payments|
    ensures Accumulate(payments, 0)[i + 1].cumulativeAmount
      == Accumulate(payments, 0)[i].cumulativeAmount + ParseInt(payments[i].amount)
  {
    AccumulateAt(payments, 0, i);
    AccumulateAt(payments, 0, i + 1);
    TotalSnoc(payments, i);
  }

  /** The running totals never decrease along the series. */
  lemma {:induction false} AccumulateMonotone(payments: seq<AmguPayment>, i: nat, j: nat)
    requires AmountsDecimal(payments) && i <= j < |payments|
    ensures Accumulate(payments, 0)[i].cumulativeAmount <= Accumulate(payments, 0)[j].cumulativeAmount
    decreases j - i
  {
    AccumulateAt(payments, 0, j);
    if i < j {
      AccumulateMonotone(payments, i, j - 1);
      AccumulateStep(payments, j - 1);
    }
  }

  /**
   * The total including the last payment is not part of the series: the last entry falls short
   * of it by exactly the last amount, so when that amount is non-zero no entry reaches it.
   */
  lemma FinalTotalDiscarded(payments: seq<AmguPayment>)
    requires AmountsDecimal(payments) && payments != []
    ensures var series := Accumulate(payments, 0);
      |series| == |payments| &&
      series[|series| - 1].cumulativeAmount + ParseInt(payments[|payments| - 1].amount) == Total(payments)
    ensures ParseInt(payments[|payments| - 1].amount) != 0 ==>
      forall i :: 0 <= i < |payments| ==> Accumulate(payments, 0)[i].cumulativeAmount < Total(payments)
  {
    var n := |payments|;
    AccumulateAt(payments, 0, n - 1);
    TotalSnoc(payments, n - 1);
    assert payments[..n] == payments;
    forall i | 0 <= i < n ensures Accumulate(payments, 0)[i].cumulativeAmount <= Accumulate(payments, 0)[n - 1].cumulativeAmount {
      AccumulateMonotone(payments, i, n - 1);
    }
  }

  /** With no data, or no `amguPayments` in it, there is nothing to accumulate. */
  lemma NoPaymentsNoSeries(result: QueryResult)
    requires result.data.None? || result.data.value.amguPayments.None?
    ensures AmguPayments(result) == [] && Accumulate(AmguPayments(result), 0) == []
  {
  }

  /** The engine events table's asset column: 'ETH' for a 'Thaw' event, 'MLN' for every other one. */
  function EventAsset(event: string): (asset: string)
    ensures asset == "ETH" <==> event == "Thaw"
    ensures asset == "MLN" <==> event != "Thaw"
  {
    if event == "Thaw" then "ETH" else "MLN"
  }
}
