/** The dashboard's reductions over payment records: the contract and year
    filter, the twelve month buckets, the totals by funding source and their
    shares, the expected monthly value and what remains to pay, and the
    bank-order (OB) ledger with its date key and its ordering. */
module Dashboard {
  import opened Wrappers
  import opened Types
  import opened Collections
  import opened JsText
  import opened JsNumber
  import opened PaymentTotals

  // ---------------------------------------------------------------------
  // Filters
  // ---------------------------------------------------------------------

  /** The select value that matches everything. */
  const AllOption: string := "all"

  /** A record passes the filter when the contract filter is `all` or its
      contract number, and the year filter is `all` or the decimal text of
      its year. */
  function PaymentMatches(filterContract: string, filterYear: string): PaymentRecord -> bool {
    (p: PaymentRecord) =>
      (filterContract == AllOption || p.numero_contrato == filterContract)
      && (filterYear == AllOption || IntToString(p.ano_competencia) == filterYear)
  }

  /** `filteredPayments`. */
  function FilteredPayments(ps: seq<PaymentRecord>, filterContract: string, filterYear: string)
    : (r: seq<PaymentRecord>)
    ensures Subseq(r, ps)
    ensures forall i :: 0 <= i < |r| ==> PaymentMatches(filterContract, filterYear)(r[i])
    ensures forall i :: 0 <= i < |ps| && PaymentMatches(filterContract, filterYear)(ps[i]) ==> ps[i] in r
    ensures |r| == Count(ps, PaymentMatches(filterContract, filterYear))
    ensures filterContract == AllOption && filterYear == AllOption ==> r == ps
  {
    FilterIsSubseq(ps, PaymentMatches(filterContract, filterYear));
    if filterContract == AllOption && filterYear == AllOption then
      FilterAll(ps, PaymentMatches(filterContract, filterYear));
      Filter(ps, PaymentMatches(filterContract, filterYear))
    else
      Filter(ps, PaymentMatches(filterContract, filterYear))
  }

  /** Comparing the year's text with the selected year's text is comparing
      the years. */
  lemma YearFilterIsExact(p: PaymentRecord, filterContract: string, year: int)
    ensures PaymentMatches(filterContract, IntToString(year))(p) <==>
      (filterContract == AllOption || p.numero_contrato == filterContract) && p.ano_competencia == year
  {
    if IntToString(p.ano_competencia) == IntToString(year) {
      IntToStringInjective(p.ano_competencia, year);
    }
    assert IntToString(year) != AllOption by {
      IntToStringChars(year, 0);
    }
  }

  function ContractMatches(filterContract: string): Contract -> bool {
    (c: Contract) => filterContract == AllOption || c.numero_contrato == filterContract
  }

  /** `filteredContractsForExpected`. */
  function SelectedContracts(cs: seq<Contract>, filterContract: string): (r: seq<Contract>)
    ensures Subseq(r, cs)
    ensures forall i :: 0 <= i < |r| ==> ContractMatches(filterContract)(r[i])
    ensures forall i :: 0 <= i < |cs| && ContractMatches(filterContract)(cs[i]) ==> cs[i] in r
    ensures |r| == Count(cs, ContractMatches(filterContract))
  {
    FilterIsSubseq(cs, ContractMatches(filterContract));
    Filter(cs, ContractMatches(filterContract))
  }

  function GlobalValue(c: Contract): real {
    c.valor_global_anul
  }

  /** `totalContractValue`: the annual global values of the selected contracts. */
  function TotalContractValue(cs: seq<Contract>, filterContract: string): real {
    SumOf(SelectedContracts(cs, filterContract), GlobalValue)
  }

  /** `expectedMonthlyValue`: a twelfth of the selected contracts' annual value. */
  function ExpectedMonthlyValue(cs: seq<Contract>, filterContract: string): (r: real)
    ensures 12.0 * r == TotalContractValue(cs, filterContract)
  {
    TotalContractValue(cs, filterContract) / 12.0
  }

  function ContractNumber(c: Contract): string {
    c.numero_contrato
  }

  function NumberIn(numbers: seq<string>): PaymentRecord -> bool {
    (p: PaymentRecord) => p.numero_contrato in numbers
  }

  /** `remainingToPay`: the selected contracts' annual value minus everything
      ever paid on their numbers, whatever the year filter. */
  function RemainingToPay(cs: seq<Contract>, ps: seq<PaymentRecord>, filterContract: string): real {
    var numbers := Map(SelectedContracts(cs, filterContract), ContractNumber);
    TotalContractValue(cs, filterContract) - TotalPaid(Filter(ps, NumberIn(numbers)))
  }

  /** With one contract number selected that some contract has, what remains
      is the selected value minus everything paid on that number. */
  lemma RemainingForOneContract(cs: seq<Contract>, ps: seq<PaymentRecord>, filterContract: string, k: nat)
    requires filterContract != AllOption
    requires k < |cs| && cs[k].numero_contrato == filterContract
    ensures RemainingToPay(cs, ps, filterContract)
      == TotalContractValue(cs, filterContract) - TotalPaid(PaymentsOf(ps, filterContract))
  {
    var sel := SelectedContracts(cs, filterContract);
    var numbers := Map(sel, ContractNumber);
    assert cs[k] in sel;
    var j :| 0 <= j < |sel| && sel[j] == cs[k];
    assert numbers[j] == filterContract;
    forall i | 0 <= i < |ps|
      ensures NumberIn(numbers)(ps[i]) == ((p: PaymentRecord) => p.numero_contrato == filterContract)(ps[i])
    {
      if ps[i].numero_contrato in numbers {
        var m :| 0 <= m < |numbers| && numbers[m] == ps[i].numero_contrato;
        assert ContractMatches(filterContract)(sel[m]);
      }
    }
    FilterCongruent(ps, NumberIn(numbers), (p: PaymentRecord) => p.numero_contrato == filterContract);
  }

  // ---------------------------------------------------------------------
  // Month buckets
  // ---------------------------------------------------------------------

  const MonthNames: seq<string> := ["Janeiro", "Fevereiro", "Março", "Abril", "Maio", "Junho",
    "Julho", "Agosto", "Setembro", "Outubro", "Novembro", "Dezembro"]

  function InMonth(m: int): PaymentRecord -> bool {
    (p: PaymentRecord) => p.mes_competencia == m
  }

  function Nfe(p: PaymentRecord): real {
    p.valor_nfe
  }

  /** Sum of `f` over the records of competence month `m`. */
  function MonthSum(ps: seq<PaymentRecord>, m: int, f: PaymentRecord -> real): real {
    SumOf(Filter(ps, InMonth(m)), f)
  }

  datatype MonthBucket = MonthBucket(
    name: string, month: int, fed: real, est: real, total: real, nfe: real, expected: real)

  function BucketFed(b: MonthBucket): real {
    b.fed
  }

  function BucketEst(b: MonthBucket): real {
    b.est
  }

  function BucketNfe(b: MonthBucket): real {
    b.nfe
  }

  predicate HasPayments(b: MonthBucket) {
    b.total > 0.0
  }

  /** The bucket of month `m` (1 to 12). */
  function Bucket(ps: seq<PaymentRecord>, m: int, expected: real): (b: MonthBucket)
    requires 1 <= m <= 12
    ensures b.month == m && b.expected == expected && b.total == b.fed + b.est
  {
    var fed := MonthSum(ps, m, RecordFed);
    var est := MonthSum(ps, m, RecordEst);
    MonthBucket(MonthNames[m - 1], m, fed, est, fed + est, MonthSum(ps, m, Nfe), expected)
  }

  /** The buckets of months `lo` to 12. */
  function Buckets(ps: seq<PaymentRecord>, lo: int, expected: real): (r: seq<MonthBucket>)
    requires 1 <= lo <= 13
    ensures |r| == 13 - lo
    ensures forall i :: 0 <= i < |r| ==> r[i] == Bucket(ps, lo + i, expected)
    decreases 13 - lo
  {
    if lo == 13 then []
    else
      var rest := Buckets(ps, lo + 1, expected);
      var r := [Bucket(ps, lo, expected)] + rest;
      assert forall i :: 1 <= i < |r| ==> r[i] == rest[i - 1];
      r
  }

  /** `monthlyData`: the twelve buckets from the first month with a positive
      total on, or all twelve when no month has one. */
  function MonthlyData(ps: seq<PaymentRecord>, expected: real): (r: seq<MonthBucket>)
    ensures 0 < |r| <= 12
    ensures r == Buckets(ps, 1, expected)[12 - |r|..]
    ensures forall i :: 0 <= i < 12 - |r| ==> !HasPayments(Buckets(ps, 1, expected)[i])
    ensures |r| < 12 ==> HasPayments(r[0])
    ensures (forall m :: 1 <= m <= 12 ==> !HasPayments(Bucket(ps, m, expected))) ==> |r| == 12
  {
    var all := Buckets(ps, 1, expected);
    var k := FindIndex(all, HasPayments);
    if k < 0 then
      assert all[0..] == all;
      all
    else
      all[k..]
  }

  /** Months `lo` to 12 of the records' `f`, the rest counted as 0. */
  function FromMonth(lo: int, f: PaymentRecord -> real): PaymentRecord -> real {
    (p: PaymentRecord) => if lo <= p.mes_competencia <= 12 then f(p) else 0.0
  }

  /** The buckets from month `lo` on add up `f` over the records of those
      months, for a bucket field `g` that holds the month's sum of `f`. */
  lemma {:induction false} BucketsFromCover(ps: seq<PaymentRecord>, lo: int, expected: real,
    f: PaymentRecord -> real, g: MonthBucket -> real)
    requires 1 <= lo <= 13
    requires forall m :: 1 <= m <= 12 ==> g(Bucket(ps, m, expected)) == MonthSum(ps, m, f)
    ensures SumOf(Buckets(ps, lo, expected), g) == SumOf(ps, FromMonth(lo, f))
    decreases 13 - lo
  {
    if lo == 13 {
      SumZero(ps, FromMonth(lo, f));
    } else {
      var r := Buckets(ps, lo, expected);
      assert r[1..] == Buckets(ps, lo + 1, expected);
      BucketsFromCover(ps, lo + 1, expected, f, g);
      SumFilterMasked(ps, InMonth(lo), f);
      SumAdd(ps, Mask(InMonth(lo), f), FromMonth(lo + 1, f), FromMonth(lo, f));
    }
  }

  /** When every record's month is between 1 and 12, the buckets partition
      the records: their federal, state and invoice columns add up to the
      totals over all records. */
  lemma MonthlyBucketsPartition(ps: seq<PaymentRecord>, expected: real)
    requires forall i :: 0 <= i < |ps| ==> 1 <= ps[i].mes_competencia <= 12
    ensures SumOf(Buckets(ps, 1, expected), BucketFed) == TotalFed(ps)
    ensures SumOf(Buckets(ps, 1, expected), BucketEst) == TotalEst(ps)
    ensures SumOf(Buckets(ps, 1, expected), BucketNfe) == TotalInvoiced(ps)
  {
    FedPartition(ps, expected);
    EstPartition(ps, expected);
    NfePartition(ps, expected);
  }

  lemma FedPartition(ps: seq<PaymentRecord>, expected: real)
    requires forall i :: 0 <= i < |ps| ==> 1 <= ps[i].mes_competencia <= 12
    ensures SumOf(Buckets(ps, 1, expected), BucketFed) == TotalFed(ps)
  {
    BucketsFromCover(ps, 1, expected, RecordFed, BucketFed);
    SumCongruent(ps, FromMonth(1, RecordFed), RecordFed);
  }

  lemma EstPartition(ps: seq<PaymentRecord>, expected: real)
    requires forall i :: 0 <= i < |ps| ==> 1 <= ps[i].mes_competencia <= 12
    ensures SumOf(Buckets(ps, 1, expected), BucketEst) == TotalEst(ps)
  {
    BucketsFromCover(ps, 1, expected, RecordEst, BucketEst);
    SumCongruent(ps, FromMonth(1, RecordEst), RecordEst);
  }

  lemma NfePartition(ps: seq<PaymentRecord>, expected: real)
    requires forall i :: 0 <= i < |ps| ==> 1 <= ps[i].mes_competencia <= 12
    ensures SumOf(Buckets(ps, 1, expected), BucketNfe) == TotalInvoiced(ps)
  {
    BucketsFromCover(ps, 1, expected, Nfe, BucketNfe);
    SumCongruent(ps, FromMonth(1, Nfe), Nfe);
    SumCongruent(ps, Nfe, (p: PaymentRecord) => p.valor_nfe);
  }

  // ---------------------------------------------------------------------
  // Source shares
  // ---------------------------------------------------------------------

  /** The percentage a source's total is of everything paid; 0 when nothing
      was paid. The one-decimal rendering is not modelled. */
  function Share(part: real, totalPaid: real): (r: real)
    ensures totalPaid <= 0.0 ==> r == 0.0
    ensures 0.0 <= part <= totalPaid ==> 0.0 <= r <= 100.0
  {
    if totalPaid > 0.0 then Percent(part, totalPaid) else 0.0
  }

  /** With something paid, the federal and the state shares add up to 100. */
  lemma SharesAddUp(fed: real, est: real)
    requires fed + est > 0.0
    ensures Share(fed, fed + est) + Share(est, fed + est) == 100.0
  {
    var w := fed + est;
    PercentOfWhole(fed, w);
    PercentOfWhole(est, w);
    MulCancel(Percent(fed, w) + Percent(est, w), 100.0, w);
  }

  lemma MulCancel(x: real, y: real, w: real)
    requires w > 0.0 && x * w == y * w
    ensures x == y
  {
    assert (x - y) * w == 0.0;
  }

  // ---------------------------------------------------------------------
  // The date key
  // ---------------------------------------------------------------------

  /** What `parseDateToTime` hands to the clock: nothing (time 0), a civil
      date from numeric year, month and day parts, or a trimmed text left to
      the platform's date parser. */
  datatype DateKey = NoDate | Civil(year: Num, month: Num, day: Num) | Unparsed(text: string)

  /** `parseDateToTime`: a non-empty date is trimmed and read by
      `ParseTrimmed`. */
  function ParseDateToTime(s: string): (k: DateKey)
    ensures s == "" <==> k == NoDate
    ensures k.Unparsed? ==> k.text == Trim(s)
  {
    if s == "" then NoDate else ParseTrimmed(Trim(s))
  }

  /** Three `/`-parts are day, month and year; otherwise three `-`-parts are
      year, month and day when the first part has four characters, else day,
      month and year; anything else is left as text. */
  function ParseTrimmed(t: string): (k: DateKey)
    ensures k != NoDate
    ensures '/' !in t && '-' !in t ==> k == Unparsed(t)
    ensures k.Unparsed? ==> k.text == t
  {
    IncludesChar(t, '/');
    IncludesChar(t, '-');
    var slash := Split(t, '/');
    var dash := Split(t, '-');
    if Includes(t, "/") && |slash| == 3 then
      Civil(ToNumber(slash[2]), ToNumber(slash[1]), ToNumber(slash[0]))
    else if Includes(t, "-") && |dash| == 3 then
      if |dash[0]| == 4 then Civil(ToNumber(dash[0]), ToNumber(dash[1]), ToNumber(dash[2]))
      else Civil(ToNumber(dash[2]), ToNumber(dash[1]), ToNumber(dash[0]))
    else Unparsed(t)
  }

  lemma SlashParts(t: string, a: string, b: string, c: string)
    requires '/' in t && Split(t, '/') == [a, b, c]
    ensures ParseTrimmed(t) == Civil(ToNumber(c), ToNumber(b), ToNumber(a))
  {
    IncludesChar(t, '/');
  }

  lemma DashParts(t: string, a: string, b: string, c: string)
    requires '/' !in t && '-' in t && Split(t, '-') == [a, b, c]
    ensures |a| == 4 ==> ParseTrimmed(t) == Civil(ToNumber(a), ToNumber(b), ToNumber(c))
    ensures |a| != 4 ==> ParseTrimmed(t) == Civil(ToNumber(c), ToNumber(b), ToNumber(a))
  {
    IncludesChar(t, '/');
    IncludesChar(t, '-');
  }

  lemma Split3(a: string, b: string, c: string, sep: char)
    requires sep !in a && sep !in b && sep !in c
    ensures Split(a + [sep] + b + [sep] + c, sep) == [a, b, c]
  {
    assert a + [sep] + b + [sep] + c == a + [sep] + (b + [sep] + c);
    SplitCons(a, b + [sep] + c, sep);
    SplitCons(b, c, sep);
    SplitNone(c, sep);
  }

  /** Three non-empty-ended digit groups joined by a separator that is not
      white space: their own trim, split back into the groups. */
  lemma DigitDate(a: string, b: string, c: string, sep: char)
    requires AllDigits(a) && AllDigits(b) && AllDigits(c) && |a| > 0 && |c| > 0
    requires !IsSpace(sep) && !IsDigit(sep)
    ensures var s := a + [sep] + b + [sep] + c;
      && s != "" && Trim(s) == s && sep in s && Split(s, sep) == [a, b, c]
      && forall x :: !IsDigit(x) && x != sep ==> x !in s
  {
    var s := a + [sep] + b + [sep] + c;
    assert s[0] == a[0];
    assert s[|s| - 1] == c[|c| - 1];
    TrimNoEdgeSpace(s);
    DigitDateChars(a, b, c, sep);
    Split3(a, b, c, sep);
  }

  lemma DigitDateChars(a: string, b: string, c: string, sep: char)
    requires AllDigits(a) && AllDigits(b) && AllDigits(c)
    ensures var s := a + [sep] + b + [sep] + c;
      sep in s && forall x :: !IsDigit(x) && x != sep ==> x !in s
  {
    var s := a + [sep] + b + [sep] + c;
    assert s[|a|] == sep;
    forall x | !IsDigit(x) && x != sep
      ensures x !in s
    {
      assert x !in a && x !in b && x !in c;
    }
  }

  /** `D/M/Y` reads day first. */
  lemma SlashDayFirst(d: string, m: string, y: string)
    requires AllDigits(d) && AllDigits(m) && AllDigits(y) && |d| > 0 && |y| > 0
    ensures ParseDateToTime(d + "/" + m + "/" + y) == Civil(ToNumber(y), ToNumber(m), ToNumber(d))
  {
    DigitDate(d, m, y, '/');
    SlashParts(d + ['/'] + m + ['/'] + y, d, m, y);
  }

  /** `Y-M-D` with a four-character year reads year first. */
  lemma IsoYearFirst(y: string, m: string, d: string)
    requires AllDigits(d) && AllDigits(m) && AllDigits(y) && |d| > 0 && |y| == 4
    ensures ParseDateToTime(y + "-" + m + "-" + d) == Civil(ToNumber(y), ToNumber(m), ToNumber(d))
  {
    DigitDate(y, m, d, '-');
    DashParts(y + ['-'] + m + ['-'] + d, y, m, d);
  }

  /** `D/M/YYYY` and `YYYY-M-D` with the same digit groups give the same
      date key. */
  lemma SlashAndIsoAgree(d: string, m: string, y: string)
    requires AllDigits(d) && AllDigits(m) && AllDigits(y) && |d| > 0 && |y| == 4
    ensures ParseDateToTime(d + "/" + m + "/" + y) == ParseDateToTime(y + "-" + m + "-" + d)
  {
    SlashDayFirst(d, m, y);
    IsoYearFirst(y, m, d);
  }

  /** `D-M-Y` whose first group is not four characters long reads day
      first. */
  lemma DashDayFirst(d: string, m: string, y: string)
    requires AllDigits(d) && AllDigits(m) && AllDigits(y) && |d| > 0 && |y| > 0 && |d| != 4
    ensures ParseDateToTime(d + "-" + m + "-" + y) == Civil(ToNumber(y), ToNumber(m), ToNumber(d))
  {
    DigitDate(d, m, y, '-');
    DashParts(d + ['-'] + m + ['-'] + y, d, m, y);
  }

  /** A date part written as a hexadecimal literal reads as its value, since
      each part goes through `Number`: `01/0x0C/2024` is 1 December 2024. */
  lemma HexMonthSlashDate(d: string, h: string, y: string)
    requires |d| > 0 && AllDigits(d) && |y| > 0 && AllDigits(y)
    requires |h| > 0 && AllRadixDigits(h, 16)
    ensures ParseDateToTime(d + "/" + ("0x" + h) + "/" + y)
      == Civil(Finite(DigitsValue(y) as real), Finite(RadixValue(h, 16) as real), Finite(DigitsValue(d) as real))
  {
    var m := "0x" + h;
    assert m == ['0', 'x'] + h;
    NoSlashInDigits(h, 16);
    assert '/' !in m;
    DecimalDigitsAreRadixDigits(d);
    DecimalDigitsAreRadixDigits(y);
    NoSlashInDigits(d, 10);
    NoSlashInDigits(y, 10);
    RadixDigitNotSpace(d[0], 10);
    RadixDigitNotSpace(y[|y| - 1], 10);
    SlashDateParts(d, m, y);
    var p := ParseDateToTime(d + "/" + m + "/" + y);
    assert p == Civil(ToNumber(y), ToNumber(m), ToNumber(d));
    DigitsNumber(d);
    DigitsNumber(y);
    PrefixedDigitsNumber('x', h);
    assert ToNumber(m) == Finite(RadixValue(h, 16) as real);
  }

  /** Digits of any radix hold no `/`. */
  lemma NoSlashInDigits(s: string, radix: nat)
    requires AllRadixDigits(s, radix)
    ensures '/' !in s
  {
    assert HexDigitValue('/') == -1;
  }

  lemma DecimalDigitsAreRadixDigits(s: string)
    requires AllDigits(s)
    ensures AllRadixDigits(s, 10)
  {
  }

  /** `D/M/Y` whose edges are not white space and whose parts hold no `/`
      reads its three parts day first, whatever they spell. */
  lemma SlashDateParts(d: string, m: string, y: string)
    requires |d| > 0 && |y| > 0 && !IsSpace(d[0]) && !IsSpace(y[|y| - 1])
    requires '/' !in d && '/' !in m && '/' !in y
    ensures ParseDateToTime(d + "/" + m + "/" + y) == Civil(ToNumber(y), ToNumber(m), ToNumber(d))
  {
    var t := d + ['/'] + m + ['/'] + y;
    assert t[0] == d[0] && t[|t| - 1] == y[|y| - 1] && t[|d|] == '/';
    TrimNoEdgeSpace(t);
    Split3(d, m, y, '/');
    SlashParts(t, d, m, y);
  }

  // ---------------------------------------------------------------------
  // The bank-order ledger
  // ---------------------------------------------------------------------

  datatype Source = Federal | Estadual

  /** One row of the ledger: a bank order with its invoice, source and
      competence, and its date key. */
  datatype ObRow = ObRow(
    id: string,
    referencia_ob: string,
    data_ob: string,
    numero_empenho: string,
    nf: string,
    source: Source,
    mes: int,
    ano: int,
    valor: real,
    time: DateKey)

  function RowValue(r: ObRow): real {
    r.valor
  }

  function FedValue(r: ObRow): real {
    if r.source == Federal then r.valor else 0.0
  }

  function EntryValue(e: PaymentEntry): real {
    e.valor
  }

  function SourceTag(s: Source): string {
    match s
    case Federal => "-fed-"
    case Estadual => "-est-"
  }

  function ToRow(p: PaymentRecord, s: Source): PaymentEntry -> ObRow {
    (e: PaymentEntry) => ObRow(p.id + SourceTag(s) + e.id, e.referencia_ob, e.data_ob, e.numero_empenho,
      p.numero_nf, s, p.mes_competencia, p.ano_competencia, e.valor, ParseDateToTime(e.data_ob))
  }

  /** A record's rows: its federal orders, then its state orders. */
  function RecordRows(p: PaymentRecord): (r: seq<ObRow>)
    ensures |r| == |p.pagamentos_fed| + |p.pagamentos_est|
    ensures forall i :: 0 <= i < |p.pagamentos_fed| ==> r[i] == ToRow(p, Federal)(p.pagamentos_fed[i])
    ensures forall i :: 0 <= i < |p.pagamentos_est| ==>
      r[|p.pagamentos_fed| + i] == ToRow(p, Estadual)(p.pagamentos_est[i])
  {
    Map(p.pagamentos_fed, ToRow(p, Federal)) + Map(p.pagamentos_est, ToRow(p, Estadual))
  }

  /** The rows of `allOBs` before sorting. */
  function AllObs(ps: seq<PaymentRecord>): seq<ObRow> {
    if |ps| == 0 then [] else RecordRows(ps[0]) + AllObs(ps[1..])
  }

  /** Number of bank orders of a list of records. */
  function EntryCount(ps: seq<PaymentRecord>): nat {
    if |ps| == 0 then 0 else |ps[0].pagamentos_fed| + |ps[0].pagamentos_est| + EntryCount(ps[1..])
  }

  /** A record's rows carry its paid amount, and its federal amount on the
      federal rows. */
  lemma RecordRowsTotals(p: PaymentRecord)
    ensures SumOf(RecordRows(p), RowValue) == RecordPaid(p)
    ensures SumOf(RecordRows(p), FedValue) == RecordFed(p)
  {
    var fedRows := Map(p.pagamentos_fed, ToRow(p, Federal));
    var estRows := Map(p.pagamentos_est, ToRow(p, Estadual));
    SumAppend(fedRows, estRows, RowValue);
    SumAppend(fedRows, estRows, FedValue);
    SumMap(p.pagamentos_fed, ToRow(p, Federal), RowValue, (e: PaymentEntry) => e.valor);
    SumMap(p.pagamentos_est, ToRow(p, Estadual), RowValue, (e: PaymentEntry) => e.valor);
    SumMap(p.pagamentos_fed, ToRow(p, Federal), FedValue, (e: PaymentEntry) => e.valor);
    SumZero(estRows, FedValue);
  }

  /** The ledger has one row per bank order; its values add up to what was
      paid, and its federal rows to the federal total. */
  lemma {:induction false} AllObsTotals(ps: seq<PaymentRecord>)
    ensures |AllObs(ps)| == EntryCount(ps)
    ensures SumOf(AllObs(ps), RowValue) == TotalPaid(ps)
    ensures SumOf(AllObs(ps), FedValue) == TotalFed(ps)
  {
    if |ps| > 0 {
      AllObsTotals(ps[1..]);
      RecordRowsTotals(ps[0]);
      SumAppend(RecordRows(ps[0]), AllObs(ps[1..]), RowValue);
      SumAppend(RecordRows(ps[0]), AllObs(ps[1..]), FedValue);
    }
  }

  datatype SortOrder = Asc | Desc

  /** The platform's clock, with `None` standing for `NaN`: the local time
      of a civil date (`new Date(y, m - 1, d).getTime()`, given finite
      parts) and the time the platform's date parser reads from a text. */
  datatype Clock = Clock(civil: (real, real, real) -> Option<int>, parse: string -> Option<int>)

  /** The time a date key stands for: 0 for no date; for a civil date, `NaN`
      as soon as one part is not a finite number, else the clock's reading;
      for a text, the parser's reading, or 0 when that is `NaN`. */
  function TimeOf(clock: Clock, k: DateKey): (t: Option<int>)
    ensures k.Civil? ==> (t.Some? ==> k.year.Finite? && k.month.Finite? && k.day.Finite?)
    ensures k.Civil? && k.year.Finite? && k.month.Finite? && k.day.Finite? ==>
      t == clock.civil(k.year.v, k.month.v, k.day.v)
    ensures !k.Civil? ==> t.Some?
    ensures k.Unparsed? && clock.parse(k.text).Some? ==> t == clock.parse(k.text)
    ensures k.NoDate? ==> t == Some(0)
  {
    match k
    case NoDate => Some(0)
    case Civil(y, m, d) =>
      if y.Finite? && m.Finite? && d.Finite? then clock.civil(y.v, m.v, d.v) else None
    case Unparsed(text) => if clock.parse(text).Some? then clock.parse(text) else Some(0)
  }

  /** Whether every row's date stands for a time, that is, none is `NaN`. */
  predicate AllTimed(rows: seq<ObRow>, clock: Clock) {
    forall i :: 0 <= i < |rows| ==> TimeOf(clock, rows[i].time).Some?
  }

  /** The ledger comparator's verdict that `a` may go before `b` (its
      result is not positive): by time in the chosen direction, and among
      equal times by descending OB reference. When either time is `NaN` the
      comparator's result is `NaN`, which the sort reads as "equal". */
  function ObBefore(clock: Clock, order: SortOrder): (ObRow, ObRow) -> bool {
    (a: ObRow, b: ObRow) =>
      var ta, tb := TimeOf(clock, a.time), TimeOf(clock, b.time);
      if ta.None? || tb.None? then true
      else if ta.value != tb.value then (if order == Asc then ta.value < tb.value else tb.value < ta.value)
      else LexLe(b.referencia_ob, a.referencia_ob)
  }

  lemma ObBeforeTotal(clock: Clock, order: SortOrder)
    ensures TotalRel(ObBefore(clock, order))
  {
    forall a: ObRow, b: ObRow
      ensures ObBefore(clock, order)(a, b) || ObBefore(clock, order)(b, a)
    {
      LexLeTotal(a.referencia_ob, b.referencia_ob);
    }
  }

  /** A `NaN` time makes the comparator inconsistent: a row with a `NaN`
      time may go on either side of two rows that are themselves strictly
      ordered, so no order satisfies all its verdicts and the sort's result
      is left to the engine. */
  lemma NaNTimeBreaksOrder()
    ensures exists clock: Clock, x: ObRow, n: ObRow, y: ObRow ::
      && TimeOf(clock, n.time).None?
      && ObBefore(clock, Asc)(x, n) && ObBefore(clock, Asc)(n, y) && !ObBefore(clock, Asc)(x, y)
  {
    var clock := Clock((y: real, m: real, d: real) => None, (t: string) => Some(1));
    var row := ObRow("", "", "", "", "", Federal, 0, 0, 0.0, NoDate);
    var x, n, y := row.(time := Unparsed("x")), row.(time := Civil(NaN, NaN, NaN)), row;
    assert TimeOf(clock, x.time) == Some(1) && TimeOf(clock, y.time) == Some(0);
    assert ObBefore(clock, Asc)(x, n) && ObBefore(clock, Asc)(n, y) && !ObBefore(clock, Asc)(x, y);
  }

  /** The order the model's sort uses: the comparator's, with a `NaN` time
      read as 0. It agrees with `ObBefore` on rows whose times are numbers,
      and it is a total preorder, so the sort it drives is one the engine
      may produce. */
  function LedgerOrder(clock: Clock, order: SortOrder): (ObRow, ObRow) -> bool {
    (a: ObRow, b: ObRow) =>
      var ta, tb := TimeOrZero(clock, a), TimeOrZero(clock, b);
      if ta != tb then (if order == Asc then ta < tb else tb < ta)
      else LexLe(b.referencia_ob, a.referencia_ob)
  }

  function TimeOrZero(clock: Clock, r: ObRow): int {
    var t := TimeOf(clock, r.time);
    if t.Some? then t.value else 0
  }

  lemma LedgerOrderPreorder(clock: Clock, order: SortOrder)
    ensures TotalRel(LedgerOrder(clock, order))
    ensures TransitiveRel(LedgerOrder(clock, order))
  {
    var le := LedgerOrder(clock, order);
    forall a: ObRow, b: ObRow
      ensures le(a, b) || le(b, a)
    {
      LexLeTotal(a.referencia_ob, b.referencia_ob);
    }
    forall a: ObRow, b: ObRow, c: ObRow | le(a, b) && le(b, c)
      ensures le(a, c)
    {
      if TimeOrZero(clock, a) == TimeOrZero(clock, b) && TimeOrZero(clock, b) == TimeOrZero(clock, c) {
        LexLeTrans(c.referencia_ob, b.referencia_ob, a.referencia_ob);
      }
    }
  }

  /** `allOBs`: the ledger rows of the filtered records, sorted. The result
      is always the same rows with the same total; when no date is `NaN`,
      every row goes before every later one by the comparator, so times run
      in the chosen direction and equal times by descending OB reference. */
  function SortObs(rows: seq<ObRow>, clock: Clock, order: SortOrder): (r: seq<ObRow>)
    ensures multiset(r) == multiset(rows)
    ensures SumOf(r, RowValue) == SumOf(rows, RowValue)
    ensures AllTimed(rows, clock) ==> InLedgerOrder(r, clock, order)
  {
    LedgerSortAgrees(rows, clock, order);
    SumPermutation(SortBy(rows, LedgerOrder(clock, order)), rows, RowValue);
    SortBy(rows, LedgerOrder(clock, order))
  }

  /** Every row may go before every later row by the comparator. */
  predicate InLedgerOrder(r: seq<ObRow>, clock: Clock, order: SortOrder) {
    forall i, j :: 0 <= i < j < |r| ==> ObBefore(clock, order)(r[i], r[j])
  }

  /** Sorting by `LedgerOrder` satisfies every verdict of the comparator
      when no date is `NaN`. */
  lemma LedgerSortAgrees(rows: seq<ObRow>, clock: Clock, order: SortOrder)
    ensures AllTimed(rows, clock) ==> InLedgerOrder(SortBy(rows, LedgerOrder(clock, order)), clock, order)
  {
    var le := LedgerOrder(clock, order);
    LedgerOrderPreorder(clock, order);
    var r := SortBy(rows, le);
    SortBySorted(rows, le);
    if AllTimed(rows, clock) {
      forall i, j | 0 <= i < j < |r|
        ensures ObBefore(clock, order)(r[i], r[j])
      {
        SortedPairwise(r, le, i, j);
        assert r[i] in multiset(rows) && r[j] in multiset(rows);
      }
    }
  }

  /** Both times are numbers, and they run in the chosen direction. */
  predicate TimesInOrder(a: ObRow, b: ObRow, clock: Clock, order: SortOrder) {
    && TimeOf(clock, a.time).Some? && TimeOf(clock, b.time).Some?
    && (order == Asc ==> TimeOf(clock, a.time).value <= TimeOf(clock, b.time).value)
    && (order == Desc ==> TimeOf(clock, a.time).value >= TimeOf(clock, b.time).value)
  }

  /** With no `NaN` date, ascending order lists earlier times first and
      descending order later times first. */
  lemma SortObsDirection(rows: seq<ObRow>, clock: Clock, order: SortOrder)
    requires AllTimed(rows, clock)
    ensures var r := SortObs(rows, clock, order);
      forall i, j :: 0 <= i < j < |r| ==> TimesInOrder(r[i], r[j], clock, order)
  {
    var r := SortObs(rows, clock, order);
    forall i, j | 0 <= i < j < |r|
      ensures TimesInOrder(r[i], r[j], clock, order)
    {
      assert r[i] in multiset(rows) && r[j] in multiset(rows);
      assert ObBefore(clock, order)(r[i], r[j]);
    }
  }
}
