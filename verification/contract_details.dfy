/** The contract details screen: paid and invoiced totals of a contract's
    records, progress against the value with amendments, the comparison with
    the expected progress, the record and term classifiers, and the
    per-installment chart. The days remaining come from the clock and are a
    parameter here. */
module ContractDetails {
  import opened Wrappers
  import opened Types
  import opened Collections
  import opened JsText
  import opened JsNumber
  import opened PaymentTotals
  import PeriodReports

  /** `total_value + (total_amendments_value || 0)`: the value the contract
      is worth with its amendments. */
  function EffectiveValue(c: ContractWithCurrentInfo): real {
    c.total_value + c.total_amendments_value
  }

  /** `Math.round(amount / total * 100)` as a JavaScript number: a whole
      percentage when the value is not zero, an infinity or `NaN` when it is. */
  function Progress(amount: real, total: real): (r: Num)
    ensures total == 0.0 ==> (r.NaN? <==> amount == 0.0) && (r.PosInf? <==> amount > 0.0)
    ensures total != 0.0 ==> r.Finite? && r.v == r.v.Floor as real
  {
    Round(Scale(Div(amount, total), 100.0))
  }

  /** Against a positive value the progress is the percentage rounded to the
      nearest whole number. */
  lemma ProgressNearPercent(amount: real, total: real)
    requires total > 0.0
    ensures Percent(amount, total) - 0.5 < Progress(amount, total).v <= Percent(amount, total) + 0.5
  {
    PercentBounds(amount, total);
  }

  /** `getPaymentProgress`. */
  function PaymentProgress(c: ContractWithCurrentInfo, ps: seq<PaymentRecord>): Num {
    Progress(TotalPaid(ps), EffectiveValue(c))
  }

  /** `getApprovisionedProgress`. */
  function ApprovisionedProgress(c: ContractWithCurrentInfo, ps: seq<PaymentRecord>): Num {
    Progress(TotalInvoiced(ps), EffectiveValue(c))
  }

  /** A contract paid exactly its value is at 100 percent. */
  lemma PaidInFullIsHundred(amount: real, total: real)
    requires total > 0.0 && amount == total
    ensures Progress(amount, total) == Finite(100.0)
  {
    assert amount / total == 1.0;
    assert Scale(Div(amount, total), 100.0) == Finite(100.0);
    RoundInteger(100);
  }

  /** `getExpectedProgress`: the records over `records.length || 1`, as a
      rounded percentage. */
  function ExpectedProgress(ps: seq<PaymentRecord>): (r: real)
    ensures |ps| == 0 ==> r == 0.0
    ensures |ps| > 0 ==> r == 100.0
  {
    var installments := if |ps| == 0 then 1 else |ps|;
    var ratio := |ps| as real / installments as real;
    RecordsOverInstallments(|ps|);
    RoundInteger(0);
    RoundInteger(100);
    Round(Finite(ratio * 100.0)).v
  }

  /** `n` records over `n || 1` installments: 0 for none, else 1. */
  lemma RecordsOverInstallments(n: nat)
    ensures n as real / (if n == 0 then 1 else n) as real == if n == 0 then 0.0 else 1.0
  {
    if n > 0 {
      var x := n as real;
      assert x / x == 1.0;
    }
  }

  datatype ProgressStatus = Above | Below | OnTrack

  /** `getProgressComparison`: above or below with the gap, or on track with
      a gap of 0. A `NaN` progress compares neither way and is on track. */
  function ProgressComparison(actual: Num, expected: real): (r: (ProgressStatus, Num))
    ensures r.0 == OnTrack <==> r.1 == Finite(0.0)
    ensures actual.Finite? ==> r.1 == Abs(Finite(actual.v - expected))
    ensures actual.Finite? ==> (r.0 == Above <==> actual.v > expected) && (r.0 == Below <==> actual.v < expected)
    ensures !actual.Finite? ==> (r.0 == Above <==> actual.PosInf?) && (r.0 == Below <==> actual.NegInf?)
    ensures !r.1.NegInf? && !r.1.NaN?
  {
    if (actual.Finite? && actual.v > expected) || actual.PosInf? then (Above, AddTo(-expected, actual))
    else if (actual.Finite? && actual.v < expected) || actual.NegInf? then (Below, AddTo(expected, Neg(actual)))
    else (OnTrack, Finite(0.0))
  }

  /** The comparison the screen shows for a contract and its records. */
  function Comparison(c: ContractWithCurrentInfo, ps: seq<PaymentRecord>): (ProgressStatus, Num) {
    ProgressComparison(PaymentProgress(c, ps), ExpectedProgress(ps))
  }

  /** With no records the contract is always on track, whatever its value. */
  lemma NoRecordsOnTrack(c: ContractWithCurrentInfo)
    ensures Comparison(c, []).0 == OnTrack
  {
    ProgressOfNothing(EffectiveValue(c));
    assert TotalPaid([]) == 0.0;
    OnTargetIsOnTrack(0.0);
  }

  /** Progress equal to the target, or not a number, is on track. */
  lemma OnTargetIsOnTrack(x: real)
    ensures ProgressComparison(Finite(x), x).0 == OnTrack
    ensures ProgressComparison(NaN, x).0 == OnTrack
  {
  }

  /** Nothing paid is 0 percent, or `NaN` against a value of 0. */
  lemma ProgressOfNothing(total: real)
    ensures Progress(0.0, total) == if total == 0.0 then NaN else Finite(0.0)
  {
    if total != 0.0 {
      assert Div(0.0, total) == Finite(0.0);
      assert Scale(Finite(0.0), 100.0) == Finite(0.0);
      RoundInteger(0);
    }
  }

  /** With records and a positive value, the screen is above target exactly
      when the rounded progress passes 100, and on track when the value is
      paid in full. */
  lemma WithRecordsAgainstHundred(c: ContractWithCurrentInfo, ps: seq<PaymentRecord>)
    requires |ps| > 0 && EffectiveValue(c) > 0.0
    ensures Comparison(c, ps).0 == Above <==> PaymentProgress(c, ps).v > 100.0
    ensures TotalPaid(ps) == EffectiveValue(c) ==> Comparison(c, ps).0 == OnTrack
  {
    if TotalPaid(ps) == EffectiveValue(c) {
      PaidInFullIsHundred(TotalPaid(ps), EffectiveValue(c));
    }
  }

  // ---------------------------------------------------------------------
  // Record status
  // ---------------------------------------------------------------------

  datatype RecordStatus = Paid | Pending | NoPayment

  /** The branch shared by `getPaymentStatusLabel` and
      `getPaymentStatusColor`. */
  function StatusOf(p: PaymentRecord): RecordStatus {
    if RecordPaid(p) > 0.0 then Paid
    else if p.valor_nfe > 0.0 then Pending
    else NoPayment
  }

  function StatusLabel(s: RecordStatus): string {
    match s
    case Paid => "Pago"
    case Pending => "Pendente"
    case NoPayment => "Sem pagamento"
  }

  function StatusColor(s: RecordStatus): string {
    match s
    case Paid => "bg-green-100 text-green-800"
    case Pending => "bg-yellow-100 text-yellow-800"
    case NoPayment => "bg-gray-100 text-gray-800"
  }

  function EntryValue(e: PaymentEntry): real {
    e.valor
  }

  /** A record whose bank orders are none negative and one positive is paid,
      whatever its invoice says; one without bank orders is pending exactly
      when it has a positive invoice. */
  lemma StatusFromEntries(p: PaymentRecord)
    requires forall i :: 0 <= i < |p.pagamentos_fed| ==> p.pagamentos_fed[i].valor >= 0.0
    requires forall i :: 0 <= i < |p.pagamentos_est| ==> p.pagamentos_est[i].valor >= 0.0
    ensures (exists i :: 0 <= i < |p.pagamentos_fed| && p.pagamentos_fed[i].valor > 0.0) ==> StatusOf(p) == Paid
    ensures (exists i :: 0 <= i < |p.pagamentos_est| && p.pagamentos_est[i].valor > 0.0) ==> StatusOf(p) == Paid
    ensures p.pagamentos_fed == [] && p.pagamentos_est == [] ==>
      (StatusOf(p) == Pending <==> p.valor_nfe > 0.0)
  {
    SumCongruent(p.pagamentos_fed, (e: PaymentEntry) => e.valor, EntryValue);
    SumCongruent(p.pagamentos_est, (e: PaymentEntry) => e.valor, EntryValue);
    SumNonNegative(p.pagamentos_fed, EntryValue);
    SumNonNegative(p.pagamentos_est, EntryValue);
    if i :| 0 <= i < |p.pagamentos_fed| && p.pagamentos_fed[i].valor > 0.0 {
      SumPositive(p.pagamentos_fed, EntryValue, i);
    }
    if i :| 0 <= i < |p.pagamentos_est| && p.pagamentos_est[i].valor > 0.0 {
      SumPositive(p.pagamentos_est, EntryValue, i);
    }
  }

  // ---------------------------------------------------------------------
  // Days remaining
  // ---------------------------------------------------------------------

  /** `getDaysRemainingLabel`. */
  function DaysLabel(days: int): (s: string)
    ensures days < 0 <==> s == "Vencido"
  {
    if days < 0 then "Vencido"
    else if days == 0 then "Vence hoje"
    else if days == 1 then "1 dia restante"
    else IntToString(days) + " dias restantes"
  }

  /** Two day counts share a label only when both are overdue or they are
      the same count. */
  lemma DaysLabelInjective(a: int, b: int)
    requires DaysLabel(a) == DaysLabel(b)
    ensures a == b || (a < 0 && b < 0)
  {
    if a >= 2 && b >= 2 {
      SuffixCancel(IntToString(a), IntToString(b), " dias restantes");
      IntToStringInjective(a, b);
    } else if a >= 2 {
      LabelOfMany(a);
      FixedLabels(b);
    } else if b >= 2 {
      LabelOfMany(b);
      FixedLabels(a);
    }
  }

  lemma SuffixCancel(x: string, y: string, t: string)
    requires x + t == y + t
    ensures x == y
  {
    assert x == (x + t)[..|x|];
    assert y == (y + t)[..|y|];
  }

  /** The label of two or more days starts with a digit and is longer than
      every fixed label. */
  lemma LabelOfMany(d: int)
    requires d >= 2
    ensures IsDigit(DaysLabel(d)[0]) && |DaysLabel(d)| > 15
  {
    assert DaysLabel(d)[0] == IntToString(d)[0];
  }

  lemma FixedLabels(d: int)
    requires d < 2
    ensures |DaysLabel(d)| <= 15
  {
  }

  /** `getDaysRemainingColor`. */
  function DaysColor(days: int): string {
    if days < 0 then "text-red-600"
    else if days <= 30 then "text-red-500"
    else if days <= 60 then "text-orange-500"
    else "text-green-600"
  }

  /** The contract's day colours are the period urgency colours of the same
      day count. */
  lemma DaysColorIsUrgencyColor(days: int)
    ensures DaysColor(days) == PeriodReports.PeriodUrgencyStatus(Some(Finite(days as real))).colorClass
  {
  }

  /** `getContractStatusInfo` of a day count. */
  function ContractStatusInfo(days: int): (r: (string, string))
    ensures days < 0 <==> r.0 == "Vencido"
    ensures days >= 0 ==> StartsWith(r.0, "Vence em " + IntToString(days) + " dia")
    ensures r.1 == "bg-red-100 text-red-800" <==> days <= 30
  {
    if days < 0 then ("Vencido", "bg-red-100 text-red-800")
    else if days <= 30 then
      ("Vence em " + IntToString(days) + " dia" + (if days != 1 then "s" else ""), "bg-red-100 text-red-800")
    else if days <= 60 then ("Vence em " + IntToString(days) + " dias", "bg-orange-100 text-orange-800")
    else ("Vence em " + IntToString(days) + " dias", "bg-green-100 text-green-800")
  }

  /** The singular is used for exactly one day. */
  lemma StatusInfoSingular(days: int)
    ensures ContractStatusInfo(days).0 == "Vence em 1 dia" <==> days == 1
  {
    if days >= 0 && ContractStatusInfo(days).0 == "Vence em 1 dia" {
      var s := IntToString(days);
      var t := ContractStatusInfo(days).0;
      assert |s| == 1;
      assert s == t[9..10];
      assert s == "1";
      assert IntToString(1) == "1";
      IntToStringInjective(days, 1);
    }
  }

  // ---------------------------------------------------------------------
  // Installment chart
  // ---------------------------------------------------------------------

  datatype ChartPoint = ChartPoint(installment: string, estimated: real, invoice: real, liquidated: real)

  function PointInvoice(q: ChartPoint): real {
    q.invoice
  }

  function PointLiquidated(q: ChartPoint): real {
    q.liquidated
  }

  function PointEstimated(q: ChartPoint): real {
    q.estimated
  }

  /** `n` followed by the ordinal indicator. */
  function InstallmentLabel(n: int): string {
    IntToString(n) + "ª"
  }

  /** The chart's sort key: the label without its indicator, as an integer. */
  function InstallmentKey(text: string): Num {
    ParseFloat(RemoveAll(text, 'ª'))
  }

  lemma InstallmentKeyOfLabel(n: int)
    ensures InstallmentKey(InstallmentLabel(n)) == Finite(n as real)
  {
    var s := IntToString(n);
    assert 'ª' !in s by {
      forall i | 0 <= i < |s|
        ensures s[i] != 'ª'
      {
        IntToStringChars(n, i);
      }
    }
    RemoveAllAppend(s, "ª", 'ª');
    RemoveAllAbsent(s, 'ª');
    assert RemoveAll("ª", 'ª') == "";
    assert s + "" == s;
    IntToStringParses(n);
  }

  /** One point per record, numbered from `first`. */
  function Points(ps: seq<PaymentRecord>, first: int, estimated: real): (r: seq<ChartPoint>)
    ensures |r| == |ps|
    ensures forall i :: 0 <= i < |ps| ==>
      r[i] == ChartPoint(InstallmentLabel(first + i), estimated, ps[i].valor_nfe, RecordPaid(ps[i]))
  {
    if |ps| == 0 then []
    else
      [ChartPoint(InstallmentLabel(first), estimated, ps[0].valor_nfe, RecordPaid(ps[0]))]
      + Points(ps[1..], first + 1, estimated)
  }

  /** The contract's value spread over `n` installments, or over 12 when
      there are none. */
  function EstimatedInstallment(c: ContractWithCurrentInfo, n: nat): (e: real)
    ensures n > 0 ==> Times(n, e) == EffectiveValue(c)
    ensures n == 0 ==> Times(12, e) == EffectiveValue(c)
  {
    var installments := if n == 0 then 12 else n;
    TimesDiv(installments, EffectiveValue(c));
    EffectiveValue(c) / installments as real
  }

  function Times(n: nat, x: real): real {
    n as real * x
  }

  lemma TimesDiv(n: nat, x: real)
    requires n > 0
    ensures Times(n, x / n as real) == x
  {
  }

  /** The chart: record `i` is installment `i + 1`, estimated at the value
      over the number of records, or over 12 with none. */
  function ChartData(c: ContractWithCurrentInfo, ps: seq<PaymentRecord>): (r: seq<ChartPoint>)
    ensures |r| == |ps|
    ensures forall i :: 0 <= i < |r| ==> r[i].installment == InstallmentLabel(i + 1)
    ensures forall i :: 0 <= i < |r| ==> r[i].estimated == EstimatedInstallment(c, |ps|)
    ensures forall i :: 0 <= i < |r| ==> r[i].invoice == ps[i].valor_nfe && r[i].liquidated == RecordPaid(ps[i])
  {
    Points(ps, 1, EstimatedInstallment(c, |ps|))
  }

  /** The sort on the labels' numbers finds the points already in order: the
      key of point `i` is `i + 1`. */
  lemma ChartKeysAscending(c: ContractWithCurrentInfo, ps: seq<PaymentRecord>, i: nat)
    requires i < |ps|
    ensures InstallmentKey(ChartData(c, ps)[i].installment) == Finite((i + 1) as real)
  {
    InstallmentKeyOfLabel(i + 1);
  }

  /** The chart's invoice and liquidated columns add up to the screen's
      invoiced and paid totals, and with records its estimates add up to the
      contract's value. */
  lemma {:induction false} ChartTotals(c: ContractWithCurrentInfo, ps: seq<PaymentRecord>)
    ensures SumOf(ChartData(c, ps), PointInvoice) == TotalInvoiced(ps)
    ensures SumOf(ChartData(c, ps), PointLiquidated) == TotalPaid(ps)
    ensures |ps| > 0 ==> SumOf(ChartData(c, ps), PointEstimated) == EffectiveValue(c)
  {
    var r := ChartData(c, ps);
    var nfe := (p: PaymentRecord) => p.valor_nfe;
    SumMapPoints(ps, r, PointInvoice, nfe);
    SumMapPoints(ps, r, PointLiquidated, RecordPaid);
    if |ps| > 0 {
      SumConst(r, PointEstimated, EstimatedInstallment(c, |ps|));
    }
  }

  /** Sums over points that correspond record by record. */
  lemma {:induction false} SumMapPoints(ps: seq<PaymentRecord>, r: seq<ChartPoint>,
    g: ChartPoint -> real, f: PaymentRecord -> real)
    requires |r| == |ps|
    requires forall i :: 0 <= i < |ps| ==> g(r[i]) == f(ps[i])
    ensures SumOf(r, g) == SumOf(ps, f)
  {
    if |ps| > 0 {
      SumMapPoints(ps[1..], r[1..], g, f);
    }
  }
}
