/** The request, instalment and response records of the instalment service
    (`InstalmentRequestModel`, `FacilityModel`, `InstalmentResponseModel`) and
    the three totals the response computes over its instalment list. */
module InstalmentModels {

  datatype Option<T> = None | Some(value: T)

  /** An unsigned 8-bit integer (C# `byte`). */
  newtype Byte = b: int | 0 <= b < 256

  const Int32Min: int := -0x8000_0000
  const Int32Max: int := 0x7FFF_FFFF

  predicate InInt32(n: int)
  {
    Int32Min <= n <= Int32Max
  }

  /** A due date, as offsets from the moment the schedule is built: its year
      is the current year moved `yearsAhead` years on, its month the current
      month moved `monthsAhead` months on, its day the current day. */
  datatype DueDate = DueDate(yearsAhead: int, monthsAhead: int)

  /** One instalment of the schedule. The field names keep the spelling of the
      service (`Orginal`). */
  datatype FacilityModel = FacilityModel(
    id: Byte,
    amount: int,
    shareAmount: real,
    orginalAmount: real,
    remainOrginalAmount: real,
    remainAmount: real,
    facilityDate: DueDate)

  datatype InstalmentRequestModel = InstalmentRequestModel(
    wholeAmount: real,
    profitRate: int,
    countOfLoan: int,
    durationOfLoanPayment: int)

  datatype InstalmentResponseModel = InstalmentResponseModel(
    facilityList: seq<FacilityModel>,
    facilityAmount: real)

  /** The two double columns the response totals. */
  datatype Column = ShareColumn | OriginalColumn

  function ValueIn(record: FacilityModel, column: Column): (value: real)
  {
    match column
    case ShareColumn => record.shareAmount
    case OriginalColumn => record.orginalAmount
  }

  /** Sum of one column of the instalment list (`Select(...).Sum()` over doubles). */
  function SumColumn(list: seq<FacilityModel>, column: Column): (total: real)
  {
    if list == [] then 0.0 else ValueIn(list[0], column) + SumColumn(list[1..], column)
  }

  /** A column of non-negative values has a non-negative total. */
  lemma {:induction false} SumColumnNonNegative(list: seq<FacilityModel>, column: Column)
    ensures (forall i :: 0 <= i < |list| ==> ValueIn(list[i], column) >= 0.0) ==> SumColumn(list, column) >= 0.0
  {
    if list != [] {
      SumColumnNonNegative(list[1..], column);
      if forall i :: 0 <= i < |list| ==> ValueIn(list[i], column) >= 0.0 {
        assert forall i :: 0 <= i < |list[1..]| ==> ValueIn(list[1..][i], column) >= 0.0 by {
          forall i | 0 <= i < |list[1..]| ensures ValueIn(list[1..][i], column) >= 0.0 {
            assert list[1..][i] == list[i + 1];
          }
        }
        assert ValueIn(list[0], column) >= 0.0;
      }
    }
  }

  /** Summing from the head equals the running total LINQ keeps from the
      front: appending a record adds its value. */
  lemma {:induction false} SumColumnAppend(list: seq<FacilityModel>, record: FacilityModel, column: Column)
    ensures SumColumn(list + [record], column) == SumColumn(list, column) + ValueIn(record, column)
  {
    if list == [] {
      assert [record][1..] == [];
    } else {
      assert (list + [record])[1..] == list[1..] + [record];
      SumColumnAppend(list[1..], record, column);
    }
  }

  /** The exact sum of the `Amount` fields, with no range limit. */
  function AmountSum(list: seq<FacilityModel>): (sum: int)
  {
    if list == [] then 0 else list[0].amount + AmountSum(list[1..])
  }

  /** Every running total of the amounts, started from `total`, fits in 32
      bits: after the first j amounts the total is `total + AmountSum(list[..j])`. */
  predicate RunningTotalsFit(list: seq<FacilityModel>, total: int)
  {
    forall j :: 1 <= j <= |list| ==> InInt32(total + AmountSum(list[..j]))
  }

  /** The running totals fit exactly when the first one does and the rest,
      continued from it, do. */
  lemma RunningTotalsFitStep(list: seq<FacilityModel>, total: int)
    requires list != []
    ensures RunningTotalsFit(list, total)
            <==> InInt32(total + list[0].amount) && RunningTotalsFit(list[1..], total + list[0].amount)
  {
    var next := total + list[0].amount;
    forall j | 1 <= j <= |list|
      ensures AmountSum(list[..j]) == list[0].amount + AmountSum(list[1..][..j - 1])
    {
      assert list[..j][1..] == list[1..][..j - 1];
    }
    if RunningTotalsFit(list, total) {
      assert InInt32(total + AmountSum(list[..1]));
      forall j | 1 <= j <= |list[1..]|
        ensures InInt32(next + AmountSum(list[1..][..j]))
      {
        assert InInt32(total + AmountSum(list[..j + 1]));
      }
    }
    if InInt32(next) && RunningTotalsFit(list[1..], next) {
      forall j | 1 <= j <= |list|
        ensures InInt32(total + AmountSum(list[..j]))
      {
        if j > 1 {
          assert InInt32(next + AmountSum(list[1..][..j - 1]));
        }
      }
    }
  }

  /** `Select(s => s.Amount).Sum()` over ints, continuing from `total`: the
      running total is checked, so it fails (None) as soon as it leaves the
      32-bit range; when it succeeds it is the exact sum, in range. */
  function CheckedSumOfAmounts(list: seq<FacilityModel>, total: int): (r: Option<int>)
    ensures r.Some? ==> r.value == total + AmountSum(list)
    ensures r.Some? && list != [] ==> InInt32(r.value)
    ensures InInt32(total) && (forall i :: 0 <= i < |list| ==> list[i].amount == 0) ==> r == Some(total)
    ensures r.Some? <==> RunningTotalsFit(list, total)
  {
    if list == [] then Some(total)
    else
      RunningTotalsFitStep(list, total);
      var next := total + list[0].amount;
      if InInt32(next) then CheckedSumOfAmounts(list[1..], next) else None
  }

  /** `TotalWholeAmount`: the checked int sum of the amounts, as a double;
      None stands for the overflow exception. */
  function TotalWholeAmount(response: InstalmentResponseModel): (t: Option<real>)
    ensures t.Some? ==> t.value == AmountSum(response.facilityList) as real
    ensures t.Some? ==> Int32Min as real <= t.value <= Int32Max as real
    ensures t.Some? <==> RunningTotalsFit(response.facilityList, 0)
  {
    match CheckedSumOfAmounts(response.facilityList, 0)
    case Some(n) => Some(n as real)
    case None => None
  }

  function TotalShareAmount(response: InstalmentResponseModel): (t: real)
    ensures (forall i :: 0 <= i < |response.facilityList| ==> response.facilityList[i].shareAmount >= 0.0)
            ==> t >= 0.0
  {
    SumColumnNonNegative(response.facilityList, ShareColumn);
    SumColumn(response.facilityList, ShareColumn)
  }

  function TotalOriginalAmount(response: InstalmentResponseModel): (t: real)
    ensures (forall i :: 0 <= i < |response.facilityList| ==> response.facilityList[i].orginalAmount >= 0.0)
            ==> t >= 0.0
  {
    SumColumnNonNegative(response.facilityList, OriginalColumn);
    SumColumn(response.facilityList, OriginalColumn)
  }

  /** When every instalment splits the same amount into profit and principal,
      the two column totals add up to that amount times the number of
      instalments. */
  lemma {:induction false} BalancedColumnsSum(list: seq<FacilityModel>, amount: real, count: nat)
    requires count == |list|
    requires forall i :: 0 <= i < |list| ==> list[i].orginalAmount + list[i].shareAmount == amount
    ensures SumColumn(list, ShareColumn) + SumColumn(list, OriginalColumn) == (count as real) * amount
  {
    if list != [] {
      BalancedColumnsSum(list[1..], amount, count - 1);
    }
  }

  /** Scaling a multiple of `a` down keeps it in the 32-bit range. */
  lemma MultipleInRange(m: int, n: int, a: int)
    requires 0 <= m <= n && InInt32(n * a)
    ensures InInt32(m * a)
  {
    if a >= 0 {
      assert 0 <= m * a <= n * a by { MulIntMono(a, m, n); }
    } else {
      assert n * a <= m * a <= 0 by { MulIntMono(-a, m, n); }
    }
  }

  lemma MulIntMono(a: int, m: int, n: int)
    requires 0 <= a && 0 <= m <= n
    ensures 0 <= m * a <= n * a
  {
  }

  /** The checked running total over instalments of one amount `a`, started
      after `k` of them, succeeds exactly when the final total fits in 32 bits. */
  lemma {:induction false} CheckedSumOfEqualAmounts(list: seq<FacilityModel>, a: int, k: nat)
    requires forall i :: 0 <= i < |list| ==> list[i].amount == a
    requires InInt32(k * a)
    ensures CheckedSumOfAmounts(list, k * a)
            == if InInt32((k + |list|) * a) then Some((k + |list|) * a) else None
  {
    if list != [] {
      var next := k * a + list[0].amount;
      assert next == (k + 1) * a;
      if InInt32(next) {
        CheckedSumOfEqualAmounts(list[1..], a, k + 1);
        assert (k + 1 + |list[1..]|) == k + |list|;
      } else {
        if InInt32((k + |list|) * a) {
          MultipleInRange(k + 1, k + |list|, a);
        }
      }
    }
  }
}
