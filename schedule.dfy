/** The schedule builders of class `Instalment`: `GetFacilityInfo` and
    `GetFacilityInfoWithRounding`. Both run one loop over a byte counter that
    accumulates the amount paid so far and appends one instalment record per
    step; they differ only in passing the level amount, each profit share and
    each remaining-balance term through `RoundingNumber`. */
module Instalment {
  import opened InstalmentFormulas
  import opened InstalmentModels

  /** `RoundingNumber` in the rounding builder, the identity in the other. */
  function RoundIf(rounding: bool, x: real): (r: real)
    ensures !rounding ==> r == x
    ensures rounding ==> IsWhole(r) && x <= r < x + 1.0
  {
    if rounding then RoundingNumber(x) else x
  }

  /** `Counter++` on a byte: 255 wraps to 0. */
  function NextCounter(counter: Byte): (next: Byte)
    ensures counter < 255 ==> next as int == counter as int + 1
    ensures counter == 255 ==> next == 0
  {
    ((counter as int + 1) % 256) as Byte
  }

  /** With 255 or more instalments the byte counter can never exceed the
      count, so the loop guard `Counter <= CountOfLoan` never fails. */
  lemma ByteLoopGuardAlwaysHolds(countOfLoan: int, counter: Byte)
    requires countOfLoan >= 255
    ensures NextCounter(counter) as int <= countOfLoan
  {
  }

  /** `months / 12` in C# integer division, which truncates toward zero. */
  function WholeYears(months: int): (years: int)
    ensures months >= 0 ==> 0 <= years && 12 * years <= months < 12 * years + 12
    ensures months < 0 ==> years <= 0 && 12 * years - 12 < months <= 12 * years
  {
    if months >= 0 then months / 12 else -((-months) / 12)
  }

  /** The due date of instalment `counter`: `Year = (Counter * Duration) / 12`
      years on for its year, `(Counter - 1) * Duration` months on for its month. */
  function DueDateOf(counter: int, durationOfLoanPayment: int): (date: DueDate)
    ensures date.monthsAhead == (counter - 1) * durationOfLoanPayment
    ensures counter >= 1 && durationOfLoanPayment >= 0 ==>
              date.monthsAhead + durationOfLoanPayment - 12 < 12 * date.yearsAhead
              <= date.monthsAhead + durationOfLoanPayment
  {
    DueDate(WholeYears(counter * durationOfLoanPayment), (counter - 1) * durationOfLoanPayment)
  }

  /** The month offsets of consecutive due dates are one spacing apart. */
  lemma DueDateMonthsAdvance(counter: int, durationOfLoanPayment: int)
    ensures DueDateOf(counter + 1, durationOfLoanPayment).monthsAhead
            == DueDateOf(counter, durationOfLoanPayment).monthsAhead + durationOfLoanPayment
  {
  }

  /** When the spacing is a whole number of years, the year of a due date is
      one spacing ahead of its month offset: the year is taken from `Counter`
      and the month from `Counter - 1`. */
  lemma DueDateYearRunsOneSpacingAhead(counter: int, years: int)
    requires counter >= 1 && years >= 1
    ensures DueDateOf(counter, 12 * years).yearsAhead * 12
            == DueDateOf(counter, 12 * years).monthsAhead + 12 * years
  {
    assert counter * (12 * years) == 12 * (counter * years);
    assert (12 * (counter * years)) / 12 == counter * years;
  }

  /** What both builders demand of a request: at least one and at most 254
      instalments (the byte counter cannot get past 255; one instalment at
      most per day keeps `365 / CountOfLoan` positive) and a positive rate
      (the annuity formula divides by zero at rate zero). */
  predicate ValidRequest(model: InstalmentRequestModel)
  {
    1 <= model.countOfLoan <= 254 && model.profitRate > 0
  }

  /** The level amount a builder uses: `CalculateFacilityAmount`, rounded in
      the rounding builder. */
  function FacilityAmountOf(model: InstalmentRequestModel, rounding: bool): (facilityAmount: real)
    requires ValidRequest(model)
    ensures rounding ==> IsWhole(facilityAmount)
  {
    RoundIf(rounding, CalculateFacilityAmount(model.wholeAmount, model.profitRate as real,
                                              model.countOfLoan, model.durationOfLoanPayment))
  }

  /** The cast `(int)FacilityAmount` is defined: the value truncates into the
      32-bit range. */
  predicate CastableToInt32(x: real)
  {
    -2147483649.0 < x < 2147483648.0
  }

  /** The amount paid back before instalment `k + 1` of a schedule with level
      amount `facilityAmount`. */
  function PaidBefore(facilityAmount: real, k: int): (paid: real)
  {
    facilityAmount * (k as real)
  }

  /** The rules for record `i` (0-based, so instalment number `i + 1`) of a
      schedule whose level amount is `facilityAmount`: the amount paid before
      it is `facilityAmount * i`, its profit share is accrued on what is left
      of the principal, its principal part is the rest of the level amount,
      and its remaining balances follow `CalculateRemainLoan` except on the
      last instalment, where both are zero. */
  predicate RecordFollowsRules(model: InstalmentRequestModel, rounding: bool, facilityAmount: real,
                               i: nat, record: FacilityModel)
  {
    && record.id as int == i + 1
    && record.amount == TruncateToInt(facilityAmount)
    && record.shareAmount == RoundIf(rounding, CalculateLoanShare(model.wholeAmount, model.profitRate,
                                       model.durationOfLoanPayment, PaidBefore(facilityAmount, i)))
    && record.orginalAmount + record.shareAmount == facilityAmount
    && record.facilityDate == DueDateOf(i + 1, model.durationOfLoanPayment)
    && if i + 1 == model.countOfLoan then
         record.remainAmount == 0.0 && record.remainOrginalAmount == 0.0
       else
         && record.remainOrginalAmount == RoundIf(rounding, CalculateRemainLoan(model.countOfLoan, facilityAmount, i + 1))
         && record.remainAmount == record.remainOrginalAmount + record.shareAmount
  }

  /** The records of `response` are those of a schedule for `model` with level
      amount `response.facilityAmount`: exactly `CountOfLoan` records numbered
      1, 2, ... in order, each following `RecordFollowsRules`. */
  predicate IsSchedule(model: InstalmentRequestModel, rounding: bool, response: InstalmentResponseModel)
  {
    && |response.facilityList| == model.countOfLoan
    && forall i {:trigger RecordFollowsRules(model, rounding, response.facilityAmount, i, response.facilityList[i])} ::
         0 <= i < |response.facilityList| ==>
         RecordFollowsRules(model, rounding, response.facilityAmount, i, response.facilityList[i])
  }

  /** Record `i` of a schedule follows the rules. */
  lemma RecordAt(model: InstalmentRequestModel, rounding: bool, response: InstalmentResponseModel, i: int)
    requires IsSchedule(model, rounding, response) && 0 <= i < |response.facilityList|
    ensures RecordFollowsRules(model, rounding, response.facilityAmount, i, response.facilityList[i])
  {
  }

  /** The loop shared by both builders; `rounding` selects
      `GetFacilityInfoWithRounding`. */
  method BuildFacilityInfo(model: InstalmentRequestModel, rounding: bool) returns (response: InstalmentResponseModel)
    requires ValidRequest(model)
    requires CastableToInt32(FacilityAmountOf(model, rounding))
    ensures response.facilityAmount == FacilityAmountOf(model, rounding)
    ensures IsSchedule(model, rounding, response)
  {
    var facilityAmount := RoundIf(rounding, CalculateFacilityAmount(model.wholeAmount, model.profitRate as real,
                                                                    model.countOfLoan, model.durationOfLoanPayment));
    var facility: seq<FacilityModel> := [];
    var paymentedUntilNow := 0.0;
    var counter: Byte := 1;
    while counter as int <= model.countOfLoan
      invariant 1 <= counter as int <= model.countOfLoan + 1
      invariant |facility| == counter as int - 1
      invariant counter > 1 ==> paymentedUntilNow == PaidBefore(facilityAmount, counter as int - 2)
      invariant forall i :: 0 <= i < |facility| ==>
                  RecordFollowsRules(model, rounding, facilityAmount, i, facility[i])
      decreases model.countOfLoan + 1 - counter as int
    {
      if counter == 1 {
        paymentedUntilNow := 0.0;
        assert paymentedUntilNow == PaidBefore(facilityAmount, 0);
      } else {
        PaidBeforeStep(facilityAmount, counter as int - 2);
        paymentedUntilNow := paymentedUntilNow + facilityAmount;
      }
      var shareAmount := RoundIf(rounding, CalculateLoanShare(model.wholeAmount, model.profitRate,
                                                              model.durationOfLoanPayment, paymentedUntilNow));
      var facilityDate := DueDateOf(counter as int, model.durationOfLoanPayment);
      var record: FacilityModel;
      if counter as int == model.countOfLoan {
        var remainAmount := 0.0;
        record := FacilityModel(counter, TruncateToInt(facilityAmount), shareAmount, facilityAmount - shareAmount,
                                remainAmount, remainAmount, facilityDate);
      } else {
        var remainAmount := RoundIf(rounding, CalculateRemainLoan(model.countOfLoan, facilityAmount, counter as int))
                            + shareAmount;
        record := FacilityModel(counter, TruncateToInt(facilityAmount), shareAmount, facilityAmount - shareAmount,
                                remainAmount - shareAmount, remainAmount, facilityDate);
      }
      assert RecordFollowsRules(model, rounding, facilityAmount, |facility|, record);
      facility := facility + [record];
      counter := NextCounter(counter);
    }
    response := InstalmentResponseModel(facility, facilityAmount);
  }

  lemma PaidBeforeStep(facilityAmount: real, k: int)
    ensures PaidBefore(facilityAmount, k) + facilityAmount == PaidBefore(facilityAmount, k + 1)
  {
  }

  /** `GetFacilityInfo`: the schedule without rounding. */
  method GetFacilityInfo(model: InstalmentRequestModel) returns (response: InstalmentResponseModel)
    requires ValidRequest(model)
    requires CastableToInt32(FacilityAmountOf(model, false))
    ensures IsSchedule(model, false, response)
    ensures response.facilityAmount == CalculateFacilityAmount(model.wholeAmount, model.profitRate as real,
                                                               model.countOfLoan, model.durationOfLoanPayment)
  {
    response := BuildFacilityInfo(model, false);
  }

  /** `GetFacilityInfoWithRounding`: the level amount and every profit share
      and remaining-balance term rounded up to a whole number. */
  method GetFacilityInfoWithRounding(model: InstalmentRequestModel) returns (response: InstalmentResponseModel)
    requires ValidRequest(model)
    requires CastableToInt32(FacilityAmountOf(model, true))
    ensures IsSchedule(model, true, response)
    ensures response.facilityAmount == RoundingNumber(CalculateFacilityAmount(model.wholeAmount, model.profitRate as real,
                                                                              model.countOfLoan, model.durationOfLoanPayment))
  {
    response := BuildFacilityInfo(model, true);
  }

  lemma ScheduleRecordsBalance(model: InstalmentRequestModel, rounding: bool, response: InstalmentResponseModel)
    requires IsSchedule(model, rounding, response)
    ensures forall i :: 0 <= i < |response.facilityList| ==>
              response.facilityList[i].orginalAmount + response.facilityList[i].shareAmount == response.facilityAmount
  {
    forall i | 0 <= i < |response.facilityList|
      ensures response.facilityList[i].orginalAmount + response.facilityList[i].shareAmount == response.facilityAmount
    {
      RecordAt(model, rounding, response, i);
    }
  }

  /** The two float totals of a schedule add up to the level amount once per
      instalment: profit plus principal is `CountOfLoan * FacilityAmount`. */
  lemma ScheduleTotalsBalance(model: InstalmentRequestModel, rounding: bool, response: InstalmentResponseModel)
    requires IsSchedule(model, rounding, response)
    ensures TotalShareAmount(response) + TotalOriginalAmount(response)
            == (model.countOfLoan as real) * response.facilityAmount
  {
    ScheduleRecordsBalance(model, rounding, response);
    BalancedColumnsSum(response.facilityList, response.facilityAmount, model.countOfLoan);
  }

  /** The principal parts of a schedule need not add up to the principal.
      The level amount pays the principal off at the period rate, but each
      share accrues at `ProfitRate * 30 * Duration / 36500` on the principal
      less every whole instalment paid so far. One instalment of 36500 at 1%
      with a one-month spacing costs 36501, of which 30 is profit, so the
      principal column sums to 36471. */
  lemma OriginalTotalNeedNotMatchPrincipal(response: InstalmentResponseModel)
    requires IsSchedule(InstalmentRequestModel(36500.0, 1, 1, 1), false, response)
    requires response.facilityAmount == FacilityAmountOf(InstalmentRequestModel(36500.0, 1, 1, 1), false)
    ensures TotalOriginalAmount(response) == 36471.0
  {
    var model := InstalmentRequestModel(36500.0, 1, 1, 1);
    RecordAt(model, false, response, 0);
    var s := PeriodRate(1.0, 1);
    assert PeriodsPerYear(1) == 365;
    assert s == 1.0 / 36500.0;
    assert Pow(1.0 + s, 1) == 1.0 + s;
    assert response.facilityAmount == 36501.0;
    assert response.facilityList[0].shareAmount == 30.0;
    assert response.facilityList[1..] == [];
    assert SumColumn(response.facilityList, OriginalColumn) == response.facilityList[0].orginalAmount;
  }

  /** `TotalWholeAmount` is the truncated level amount once per instalment,
      or the overflow failure when that product leaves the 32-bit range. */
  lemma ScheduleTotalWholeAmount(model: InstalmentRequestModel, rounding: bool, response: InstalmentResponseModel)
    requires IsSchedule(model, rounding, response)
    ensures var total := model.countOfLoan * TruncateToInt(response.facilityAmount);
            TotalWholeAmount(response) == if InInt32(total) then Some(total as real) else None
  {
    var a := TruncateToInt(response.facilityAmount);
    forall i | 0 <= i < |response.facilityList|
      ensures response.facilityList[i].amount == a
    {
      RecordAt(model, rounding, response, i);
    }
    assert InInt32(0 * a);
    CheckedSumOfEqualAmounts(response.facilityList, a, 0);
  }

  /** The zero forced on the last instalment's principal-only balance is what
      `CalculateRemainLoan` gives there anyway, so every record's
      `RemainOrginalAmount` is the remain term of its own instalment number. */
  lemma ScheduleRemainOrginalFollowsFormula(model: InstalmentRequestModel, rounding: bool,
                                            response: InstalmentResponseModel)
    requires IsSchedule(model, rounding, response)
    ensures forall i :: 0 <= i < |response.facilityList| ==>
              response.facilityList[i].remainOrginalAmount
              == RoundIf(rounding, CalculateRemainLoan(model.countOfLoan, response.facilityAmount, i + 1))
  {
    RoundingNumberFixesWhole(0.0);
    forall i | 0 <= i < |response.facilityList|
      ensures response.facilityList[i].remainOrginalAmount
              == RoundIf(rounding, CalculateRemainLoan(model.countOfLoan, response.facilityAmount, i + 1))
    {
      RecordAt(model, rounding, response, i);
    }
  }

  /** Paying a positive level amount more times pays back more. */
  lemma PaidBeforeIncreasing(facilityAmount: real, i: int, j: int)
    requires facilityAmount > 0.0 && i < j
    ensures PaidBefore(facilityAmount, i) < PaidBefore(facilityAmount, j)
  {
    MulStrict(facilityAmount, i as real, j as real);
  }

  /** A positive principal gives a positive level amount in both builders. */
  lemma FacilityAmountPositive(model: InstalmentRequestModel, rounding: bool)
    requires ValidRequest(model) && model.wholeAmount > 0.0
    ensures FacilityAmountOf(model, rounding) > 0.0
  {
    var raw := CalculateFacilityAmount(model.wholeAmount, model.profitRate as real,
                                       model.countOfLoan, model.durationOfLoanPayment);
    assert raw * (model.countOfLoan as real) > 0.0;
    if raw <= 0.0 {
      MulMono(-raw, 0.0, model.countOfLoan as real);
      assert false;
    }
  }

  /** With a positive principal and spacing, each instalment carries less
      profit than the one before: strictly less without rounding, never more
      with rounding. */
  lemma ScheduleSharesDecrease(model: InstalmentRequestModel, rounding: bool, response: InstalmentResponseModel)
    requires ValidRequest(model) && response.facilityAmount == FacilityAmountOf(model, rounding)
    requires IsSchedule(model, rounding, response)
    requires model.wholeAmount > 0.0 && model.durationOfLoanPayment > 0
    ensures forall i, j :: 0 <= i < j < |response.facilityList| ==>
              response.facilityList[j].shareAmount <= response.facilityList[i].shareAmount
    ensures !rounding ==> forall i, j :: 0 <= i < j < |response.facilityList| ==>
              response.facilityList[j].shareAmount < response.facilityList[i].shareAmount
  {
    var fa := response.facilityAmount;
    var list := response.facilityList;
    FacilityAmountPositive(model, rounding);
    forall i, j | 0 <= i < j < |list|
      ensures list[j].shareAmount <= list[i].shareAmount
      ensures !rounding ==> list[j].shareAmount < list[i].shareAmount
    {
      RecordAt(model, rounding, response, i);
      RecordAt(model, rounding, response, j);
      PaidBeforeIncreasing(fa, i, j);
      var before := CalculateLoanShare(model.wholeAmount, model.profitRate, model.durationOfLoanPayment, PaidBefore(fa, i));
      var after := CalculateLoanShare(model.wholeAmount, model.profitRate, model.durationOfLoanPayment, PaidBefore(fa, j));
      LoanShareStrictlyDecreasing(model.wholeAmount, model.profitRate, model.durationOfLoanPayment,
                                  PaidBefore(fa, i), PaidBefore(fa, j));
      RoundingNumberMonotone(after, before);
    }
  }

  /** With a non-negative principal the principal-only balance never grows
      from one instalment to a later one. */
  lemma ScheduleRemainOrginalNonIncreasing(model: InstalmentRequestModel, rounding: bool,
                                           response: InstalmentResponseModel)
    requires ValidRequest(model) && response.facilityAmount == FacilityAmountOf(model, rounding)
    requires IsSchedule(model, rounding, response)
    requires model.wholeAmount >= 0.0
    ensures forall i, j :: 0 <= i < j < |response.facilityList| ==>
              response.facilityList[j].remainOrginalAmount <= response.facilityList[i].remainOrginalAmount
  {
    var fa := response.facilityAmount;
    var list := response.facilityList;
    if model.wholeAmount > 0.0 {
      FacilityAmountPositive(model, rounding);
    } else {
      RoundingNumberFixesWhole(0.0);
    }
    ScheduleRemainOrginalFollowsFormula(model, rounding, response);
    forall i, j | 0 <= i < j < |list|
      ensures list[j].remainOrginalAmount <= list[i].remainOrginalAmount
    {
      var earlier := CalculateRemainLoan(model.countOfLoan, fa, i + 1);
      var later := CalculateRemainLoan(model.countOfLoan, fa, j + 1);
      RemainLoanNonIncreasing(model.countOfLoan, fa, i + 1, j + 1);
      RoundingNumberMonotone(later, earlier);
    }
  }

  lemma WholeDifference(a: real, b: real)
    requires IsWhole(a) && IsWhole(b)
    ensures IsWhole(a - b) && IsWhole(a + b)
  {
    var d, s := a.Floor - b.Floor, a.Floor + b.Floor;
    assert a - b == d as real && a + b == s as real;
    FloorOfWhole(d);
    FloorOfWhole(s);
  }

  /** In the rounding builder every money field of every record is a whole
      number, the principal part included (it is the difference of two
      rounded values). */
  lemma RoundedScheduleIsWhole(model: InstalmentRequestModel, response: InstalmentResponseModel)
    requires ValidRequest(model) && response.facilityAmount == FacilityAmountOf(model, true)
    requires IsSchedule(model, true, response)
    ensures IsWhole(response.facilityAmount)
    ensures forall i :: 0 <= i < |response.facilityList| ==>
              var r := response.facilityList[i];
              IsWhole(r.shareAmount) && IsWhole(r.orginalAmount)
              && IsWhole(r.remainOrginalAmount) && IsWhole(r.remainAmount)
  {
    var list := response.facilityList;
    forall i | 0 <= i < |list|
      ensures IsWhole(list[i].shareAmount) && IsWhole(list[i].orginalAmount)
              && IsWhole(list[i].remainOrginalAmount) && IsWhole(list[i].remainAmount)
    {
      RecordAt(model, true, response, i);
      var r := list[i];
      assert r.orginalAmount == response.facilityAmount - r.shareAmount;
      WholeDifference(response.facilityAmount, r.shareAmount);
      assert IsWhole(0.0);
      if i + 1 != model.countOfLoan {
        WholeDifference(r.remainOrginalAmount, r.shareAmount);
      }
    }
  }

  /** The month offsets of consecutive records' due dates are one spacing apart. */
  lemma ScheduleDueDatesAdvance(model: InstalmentRequestModel, rounding: bool, response: InstalmentResponseModel)
    requires IsSchedule(model, rounding, response)
    ensures forall i :: 0 <= i < |response.facilityList| - 1 ==>
              response.facilityList[i + 1].facilityDate.monthsAhead
              == response.facilityList[i].facilityDate.monthsAhead + model.durationOfLoanPayment
  {
    forall i | 0 <= i < |response.facilityList| - 1
      ensures response.facilityList[i + 1].facilityDate.monthsAhead
              == response.facilityList[i].facilityDate.monthsAhead + model.durationOfLoanPayment
    {
      RecordAt(model, rounding, response, i);
      RecordAt(model, rounding, response, i + 1);
      DueDateMonthsAdvance(i + 1, model.durationOfLoanPayment);
    }
  }
}
