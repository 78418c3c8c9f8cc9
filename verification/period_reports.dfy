/** The period tracker's read path: the per-contract period summary with
    paid, remaining and execution figures recomputed from payments, the
    statistics over it, and the small classifiers and labels shown next to
    it. */
module PeriodReports {
  import opened Wrappers
  import opened Types
  import opened Collections
  import opened JsText
  import opened JsNumber
  import opened PaymentTotals
  import Contracts

  predicate ByNumber(a: ContractPeriod, b: ContractPeriod) {
    a.period_number <= b.period_number
  }

  /** A period with its figures recomputed once its contract lookup has
      answered: when the contract is found, the period has paid everything
      paid to the contract's number, remaining is the available value minus
      that, and execution is paid over available in percent (0 when nothing
      is available). When it is not found the stored figures stay. */
  function Refigure(docs: seq<ContractDoc>, payments: seq<PaymentRecord>, p: ContractPeriod): (q: ContractPeriod)
    ensures q.(paid_value := p.paid_value, remaining_value := p.remaining_value,
               execution_percentage := p.execution_percentage) == p
    ensures Contracts.GetContractById(docs, p.contract_id).None? ==> q == p
    ensures Contracts.GetContractById(docs, p.contract_id).Some? ==>
      && q.paid_value == TotalPaid(PaymentsOf(payments, Contracts.GetContractById(docs, p.contract_id).value.numero_contrato))
      && q.remaining_value + q.paid_value == p.available_value
      && (p.available_value > 0.0 ==> q.execution_percentage == Percent(q.paid_value, p.available_value))
      && (p.available_value <= 0.0 ==> q.execution_percentage == 0.0)
  {
    match Contracts.GetContractById(docs, p.contract_id)
    case None => p
    case Some(c) =>
      var paid := TotalPaid(PaymentsOf(payments, c.numero_contrato));
      p.(paid_value := paid,
         remaining_value := p.available_value - paid,
         execution_percentage := if p.available_value > 0.0 then Percent(paid, p.available_value) else 0.0)
  }

  /** One pass of the summary loop. The contract is looked up by the
      period's `contract_id`; for the empty id that lookup throws, since
      Firestore refuses an empty document path, and the summary rethrows.
      Otherwise the period comes back refigured. */
  function Enrich(docs: seq<ContractDoc>, payments: seq<PaymentRecord>, p: ContractPeriod)
    : (r: Result<ContractPeriod>)
    ensures r.Err? <==> p.contract_id == ""
    ensures r.Ok? ==> r.value == Refigure(docs, payments, p)
  {
    if p.contract_id == "" then Err(Invalid("empty document path"))
    else Ok(Refigure(docs, payments, p))
  }

  /** `getContractPeriodsSummary` as the service answers it: it fails
      exactly when the id is empty and some stored period carries it, for
      then the contract lookup of that period throws; otherwise it lists the
      summary below. */
  function GetContractPeriodsSummary(st: Store, contractId: string): (r: Result<seq<ContractPeriod>>)
    ensures r.Err? <==> contractId == "" && Count(st.periods, PeriodOf(contractId)) > 0
    ensures r.Ok? ==> r.value == PeriodsSummary(st, contractId)
    ensures contractId != "" ==> r.Ok?
  {
    if contractId == "" && Count(st.periods, PeriodOf(contractId)) > 0 then
      Err(Invalid("empty document path"))
    else
      Ok(PeriodsSummary(st, contractId))
  }

  /** The summary fails exactly when the loop's pass over one of the
      contract's stored periods fails. */
  lemma SummaryFailsOnFailingPass(st: Store, contractId: string)
    ensures GetContractPeriodsSummary(st, contractId).Err? <==>
      exists j :: (0 <= j < |st.periods| && st.periods[j].contract_id == contractId
        && Enrich(st.contracts, st.payments, st.periods[j]).Err?)
  {
    if GetContractPeriodsSummary(st, contractId).Err? {
      CountWitness(st.periods, contractId);
    } else {
      NoFailingPeriod(st, contractId);
    }
  }

  lemma CountWitness(periods: seq<ContractPeriod>, contractId: string)
    requires Count(periods, PeriodOf(contractId)) > 0
    ensures exists j :: 0 <= j < |periods| && periods[j].contract_id == contractId
  {
    if forall j :: 0 <= j < |periods| ==> periods[j].contract_id != contractId {
      CountNone(periods, PeriodOf(contractId));
    }
  }

  lemma NoFailingPeriod(st: Store, contractId: string)
    requires contractId != "" || Count(st.periods, PeriodOf(contractId)) == 0
    ensures forall j :: 0 <= j < |st.periods| && st.periods[j].contract_id == contractId ==>
      Enrich(st.contracts, st.payments, st.periods[j]).Ok?
  {
    if contractId == "" {
      CountZero(st.periods, PeriodOf(contractId));
    }
  }

  /** Every entry of a summary the service returns is the answer of the
      loop's pass over one of the contract's stored periods. */
  lemma SummaryEntriesAreEnriched(st: Store, contractId: string, i: nat)
    requires GetContractPeriodsSummary(st, contractId).Ok?
    requires i < |GetContractPeriodsSummary(st, contractId).value|
    ensures exists j :: (0 <= j < |st.periods| && st.periods[j].contract_id == contractId
      && Enrich(st.contracts, st.payments, st.periods[j]) == Ok(GetContractPeriodsSummary(st, contractId).value[i]))
  {
    SummaryListsStoredPeriods(st, contractId, i);
    var j :| 0 <= j < |st.periods| && st.periods[j].contract_id == contractId &&
      PeriodsSummary(st, contractId)[i] == Refigure(st.contracts, st.payments, st.periods[j]);
    NoFailingPeriod(st, contractId);
  }

  /** The summary once every lookup has answered: the contract's periods in
      ascending number order (store order among equal numbers), each with
      its figures recomputed. */
  function PeriodsSummary(st: Store, contractId: string): (r: seq<ContractPeriod>)
    ensures |r| == Count(st.periods, PeriodOf(contractId))
    ensures forall i :: 0 <= i < |r| ==> r[i].contract_id == contractId
    ensures SortedBy(r, ByNumber)
  {
    var mine := Filter(st.periods, PeriodOf(contractId));
    var sorted := SortBy(mine, ByNumber);
    SortedPeriods(st.periods, contractId);
    Map(sorted, (p: ContractPeriod) => Refigure(st.contracts, st.payments, p))
  }

  /** The periods stored under `contractId`. */
  function PeriodOf(contractId: string): ContractPeriod -> bool {
    (p: ContractPeriod) => p.contract_id == contractId
  }

  /** The contract's periods, sorted by number: all of them, only them, in
      ascending order. */
  lemma SortedPeriods(periods: seq<ContractPeriod>, contractId: string)
    ensures var sorted := SortBy(Filter(periods, PeriodOf(contractId)), ByNumber);
      && |sorted| == Count(periods, PeriodOf(contractId))
      && (forall i :: 0 <= i < |sorted| ==> sorted[i].contract_id == contractId)
      && SortedBy(sorted, ByNumber)
  {
    var mine := Filter(periods, PeriodOf(contractId));
    CountIsFilterLength(periods, PeriodOf(contractId));
    var sorted := SortBy(mine, ByNumber);
    assert forall a: ContractPeriod, b: ContractPeriod :: ByNumber(a, b) || ByNumber(b, a);
    SortBySorted(mine, ByNumber);
    forall i | 0 <= i < |sorted|
      ensures sorted[i].contract_id == contractId
    {
      assert sorted[i] in multiset(mine);
    }
  }

  /** The summary lists exactly the contract's stored periods, each recomputed. */
  lemma {:induction false} SummaryListsStoredPeriods(st: Store, contractId: string, i: nat)
    requires i < |PeriodsSummary(st, contractId)|
    ensures exists j :: (0 <= j < |st.periods| && st.periods[j].contract_id == contractId &&
      PeriodsSummary(st, contractId)[i] == Refigure(st.contracts, st.payments, st.periods[j]))
  {
    var mine := Filter(st.periods, PeriodOf(contractId));
    var sorted := SortBy(mine, ByNumber);
    assert sorted[i] in multiset(mine);
    assert sorted[i] in mine;
    var j :| 0 <= j < |st.periods| && st.periods[j] == sorted[i];
  }

  /** Every period of the summary reports the same paid value: all payments of
      the contract, whatever period they fall in. */
  lemma {:induction false} SummarySamePaid(st: Store, contractId: string, i: nat)
    requires i < |PeriodsSummary(st, contractId)|
    requires Contracts.GetContractById(st.contracts, contractId).Some?
    ensures PeriodsSummary(st, contractId)[i].paid_value ==
      TotalPaid(PaymentsOf(st.payments, Contracts.GetContractById(st.contracts, contractId).value.numero_contrato))
  {
    SummaryListsStoredPeriods(st, contractId, i);
  }

  // ---------------------------------------------------------------------
  // Statistics
  // ---------------------------------------------------------------------

  function PaidOf(p: ContractPeriod): real {
    p.paid_value
  }

  function AvailableOf(p: ContractPeriod): real {
    p.available_value
  }

  datatype CurrentExecution = CurrentExecution(
    periodNumber: int, paidValue: real, remainingValue: real, executionPercentage: real)

  datatype PeriodStatistics = PeriodStatistics(
    totalPaidAllPeriods: real,
    totalAvailableAllPeriods: real,
    overallExecutionPercentage: real,
    completedPeriods: nat,
    totalPeriods: nat,
    currentPeriodExecution: Option<CurrentExecution>)

  /** `calculatePeriodStatistics`. */
  function CalculatePeriodStatistics(ps: seq<ContractPeriod>): (r: PeriodStatistics)
    ensures r.totalPeriods == |ps| && r.completedPeriods <= |ps|
    ensures r.totalPaidAllPeriods == SumOf(ps, PaidOf)
    ensures r.totalAvailableAllPeriods == SumOf(ps, AvailableOf)
    ensures r.totalAvailableAllPeriods > 0.0 ==>
      r.overallExecutionPercentage == Percent(r.totalPaidAllPeriods, r.totalAvailableAllPeriods)
    ensures r.totalAvailableAllPeriods <= 0.0 ==> r.overallExecutionPercentage == 0.0
    ensures r.completedPeriods == |Filter(ps, (p: ContractPeriod) => p.period_status == Completed)|
    ensures r.currentPeriodExecution.None? <==> forall i :: 0 <= i < |ps| ==> ps[i].period_status != Active
    ensures r.currentPeriodExecution.Some? ==> exists i :: (0 <= i < |ps| && ps[i].period_status == Active &&
      (forall j :: 0 <= j < i ==> ps[j].period_status != Active) &&
      r.currentPeriodExecution.value == CurrentExecution(ps[i].period_number, ps[i].paid_value,
        ps[i].remaining_value, ps[i].execution_percentage))
  {
    var paid := SumOf(ps, PaidOf);
    var available := SumOf(ps, AvailableOf);
    var completed := Count(ps, (p: ContractPeriod) => p.period_status == Completed);
    CountIsFilterLength(ps, (p: ContractPeriod) => p.period_status == Completed);
    var k := FindIndex(ps, (p: ContractPeriod) => p.period_status == Active);
    var current :=
      if k < 0 then None
      else Some(CurrentExecution(ps[k].period_number, ps[k].paid_value, ps[k].remaining_value,
                                 ps[k].execution_percentage));
    PeriodStatistics(paid, available, if available > 0.0 then Percent(paid, available) else 0.0,
                     completed, |ps|, current)
  }

  /** `n` copies of `x` added up. */
  function Times(n: nat, x: real): real {
    n as real * x
  }

  /** Periods that all report the same paid value add it once each. */
  lemma StatisticsOfEqualPaid(ps: seq<ContractPeriod>, paid: real)
    requires forall i :: 0 <= i < |ps| ==> ps[i].paid_value == paid
    ensures CalculatePeriodStatistics(ps).totalPaidAllPeriods == Times(|ps|, paid)
  {
    SumConst(ps, PaidOf, paid);
  }

  lemma {:induction false} SummaryAllSamePaid(st: Store, contractId: string, c: Contract)
    requires Contracts.GetContractById(st.contracts, contractId) == Some(c)
    ensures forall i :: 0 <= i < |PeriodsSummary(st, contractId)| ==>
      PeriodsSummary(st, contractId)[i].paid_value == TotalPaid(PaymentsOf(st.payments, c.numero_contrato))
  {
    forall i | 0 <= i < |PeriodsSummary(st, contractId)|
      ensures PeriodsSummary(st, contractId)[i].paid_value == TotalPaid(PaymentsOf(st.payments, c.numero_contrato))
    {
      SummarySamePaid(st, contractId, i);
    }
  }

  /** Over a summary whose contract is found, the paid total counts the
      contract's payments once per period. */
  lemma {:induction false} StatisticsCountPaidPerPeriod(st: Store, contractId: string, c: Contract)
    requires Contracts.GetContractById(st.contracts, contractId) == Some(c)
    ensures CalculatePeriodStatistics(PeriodsSummary(st, contractId)).totalPaidAllPeriods
      == Times(|PeriodsSummary(st, contractId)|, TotalPaid(PaymentsOf(st.payments, c.numero_contrato)))
  {
    var r := PeriodsSummary(st, contractId);
    var paid := TotalPaid(PaymentsOf(st.payments, c.numero_contrato));
    assert forall i :: 0 <= i < |r| ==> r[i].paid_value == paid by {
      SummaryAllSamePaid(st, contractId, c);
    }
    assert CalculatePeriodStatistics(r).totalPaidAllPeriods == Times(|r|, paid) by {
      StatisticsOfEqualPaid(r, paid);
    }
  }

  // ---------------------------------------------------------------------
  // Classifiers and labels
  // ---------------------------------------------------------------------

  datatype Urgency = Urgency(text: string, colorClass: string)

  /** `getPeriodUrgencyStatus` of a days-remaining value (`None` for null). */
  function PeriodUrgencyStatus(days: Option<Num>): (u: Urgency)
    ensures days.None? <==> u.text == "N/A"
    ensures days.Some? && LessThan(days.value, 0.0) <==> u.text == "Vencido"
    ensures days.Some? && !LessThan(days.value, 0.0) && AtMost(days.value, 30.0) <==> u.text == "Urgente"
    ensures days.Some? && !AtMost(days.value, 30.0) && AtMost(days.value, 60.0) <==> u.text == "Atenção"
    ensures days.Some? && !AtMost(days.value, 60.0) <==> u.text == "Normal"
  {
    match days
    case None => Urgency("N/A", "text-gray-500")
    case Some(d) =>
      if LessThan(d, 0.0) then Urgency("Vencido", "text-red-600")
      else if AtMost(d, 30.0) then Urgency("Urgente", "text-red-500")
      else if AtMost(d, 60.0) then Urgency("Atenção", "text-orange-500")
      else Urgency("Normal", "text-green-600")
  }

  /** Position of a label on the scale from most to least urgent. */
  function UrgencyRank(text: string): nat {
    if text == "Vencido" then 0
    else if text == "Urgente" then 1
    else if text == "Atenção" then 2
    else 3
  }

  /** More days left never makes a period more urgent. */
  lemma UrgencyMonotone(a: real, b: real)
    requires a <= b
    ensures UrgencyRank(PeriodUrgencyStatus(Some(Finite(a))).text)
      <= UrgencyRank(PeriodUrgencyStatus(Some(Finite(b))).text)
  {
  }

  /** A days value that is not a number falls through every comparison. */
  lemma UrgencyOfNaN()
    ensures PeriodUrgencyStatus(Some(NaN)).text == "Normal"
  {
  }

  /** `formatPeriodNumber`. */
  function FormatPeriodNumber(n: int, t: PeriodType): (s: string)
    ensures t == OriginalPeriod ==> s == "Período Original"
    ensures t == ExtensionPeriod ==> StartsWith(s, "Prorrogação ")
  {
    if t == OriginalPeriod then "Período Original"
    else "Prorrogação " + IntToString(n - 1)
  }

  /** What follows the prefix of an extension label reads back, as a
      number, as the count of extensions so far. */
  lemma ExtensionLabelNumber(n: int)
    ensures var s := FormatPeriodNumber(n, ExtensionPeriod);
      ToNumber(s[|"Prorrogação "|..]) == Finite((n - 1) as real)
  {
    var s := FormatPeriodNumber(n, ExtensionPeriod);
    assert s[|"Prorrogação "|..] == IntToString(n - 1);
    IntToStringParses(n - 1);
  }

  /** Distinct extension numbers get distinct labels. */
  lemma FormatPeriodNumberInjective(a: int, b: int)
    ensures FormatPeriodNumber(a, ExtensionPeriod) == FormatPeriodNumber(b, ExtensionPeriod) <==> a == b
  {
    var n := |"Prorrogação "|;
    var sa := FormatPeriodNumber(a, ExtensionPeriod);
    var sb := FormatPeriodNumber(b, ExtensionPeriod);
    if sa == sb {
      ExtensionLabelNumber(a);
      ExtensionLabelNumber(b);
      assert sa[n..] == sb[n..];
    }
  }

  /** `hasMultiplePeriods`. */
  function HasMultiplePeriods(ps: seq<ContractPeriod>): bool {
    |ps| > 1
  }

  /** A contract's summary has several periods exactly when the store holds
      at least two periods of the contract. */
  lemma MultiplePeriodsOfSummary(st: Store, contractId: string)
    ensures HasMultiplePeriods(PeriodsSummary(st, contractId))
      <==> Count(st.periods, PeriodOf(contractId)) >= 2
  {
  }
}
