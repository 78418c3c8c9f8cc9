/** The payment history screen: each record's contract, paid total, legacy
    invoice list and settlement status, with records listed newest first. */
module PaymentHistory {
  import opened Wrappers
  import opened Types
  import opened Collections
  import opened PaymentTotals

  /** `getSourceTotal`: the sum of a list of bank orders. */
  function SourceTotal(es: seq<PaymentEntry>): (r: real)
    ensures (forall i :: 0 <= i < |es| ==> es[i].valor >= 0.0) ==> r >= 0.0
  {
    if forall i :: 0 <= i < |es| ==> es[i].valor >= 0.0 then
      SumNonNegative(es, (e: PaymentEntry) => e.valor);
      SumOf(es, (e: PaymentEntry) => e.valor)
    else SumOf(es, (e: PaymentEntry) => e.valor)
  }

  /** The card's paid total is the federal plus the state total, the same
      figure every other screen folds. */
  lemma CardPaidIsRecordPaid(p: PaymentRecord)
    ensures SourceTotal(p.pagamentos_fed) + SourceTotal(p.pagamentos_est) == RecordPaid(p)
  {
  }

  /** The contract shown on a card: the first with the record's number. */
  function ContractOf(cs: seq<Contract>, p: PaymentRecord): (r: Option<Contract>)
    ensures r.None? <==> forall i :: 0 <= i < |cs| ==> cs[i].numero_contrato != p.numero_contrato
    ensures r.Some? ==> exists i :: (0 <= i < |cs| && cs[i] == r.value
      && cs[i].numero_contrato == p.numero_contrato
      && forall j :: 0 <= j < i ==> cs[j].numero_contrato != p.numero_contrato)
  {
    var k := FindIndex(cs, (c: Contract) => c.numero_contrato == p.numero_contrato);
    if k < 0 then None else Some(cs[k])
  }

  /** An invoice as the card lists it. */
  datatype Invoice = Invoice(id: string, numero_nf: string, valor_nfe: real, mes_competencia: int, ano_competencia: int)

  /** The card's invoice list. As the conditional operator binds looser than
      `||`, a record gets one invoice built from its own fields when it
      carries an `invoices` property (`invoicesPresent`) or an invoice number,
      and none otherwise; a missing month or year falls back to the clock's,
      given here as `nowMonth` and `nowYear`. */
  function Invoices(p: PaymentRecord, invoicesPresent: bool, nowMonth: int, nowYear: int): (r: seq<Invoice>)
    ensures |r| <= 1
    ensures |r| == 1 <==> invoicesPresent || p.numero_nf != ""
    ensures |r| == 1 ==> r[0].id == "legacy" && r[0].numero_nf == p.numero_nf && r[0].valor_nfe == p.valor_nfe
    ensures |r| == 1 ==> r[0].mes_competencia == (if p.mes_competencia != 0 then p.mes_competencia else nowMonth)
    ensures |r| == 1 ==> r[0].ano_competencia == (if p.ano_competencia != 0 then p.ano_competencia else nowYear)
  {
    if invoicesPresent || p.numero_nf != "" then
      [Invoice("legacy", p.numero_nf, p.valor_nfe,
        if p.mes_competencia != 0 then p.mes_competencia else nowMonth,
        if p.ano_competencia != 0 then p.ano_competencia else nowYear)]
    else []
  }

  function InvoiceValue(inv: Invoice): real {
    inv.valor_nfe
  }

  /** `totalInvoiceValue`: the record's invoice amount when an invoice is
      listed, else 0. */
  function TotalInvoiceValue(p: PaymentRecord, invoicesPresent: bool, nowMonth: int, nowYear: int): (r: real)
    ensures r == (if invoicesPresent || p.numero_nf != "" then p.valor_nfe else 0.0)
  {
    var invs := Invoices(p, invoicesPresent, nowMonth, nowYear);
    if |invs| == 1 then SumSingle(invs[0], InvoiceValue); SumOf(invs, InvoiceValue)
    else SumOf(invs, InvoiceValue)
  }

  datatype Settlement = FullyPaid | PartiallyPaid

  /** The badge: fully paid when the paid total reaches the listed invoice
      value. */
  function SettlementOf(p: PaymentRecord, invoicesPresent: bool, nowMonth: int, nowYear: int): (s: Settlement)
    ensures s == FullyPaid <==>
      RecordPaid(p) >= (if invoicesPresent || p.numero_nf != "" then p.valor_nfe else 0.0)
  {
    var paid := SourceTotal(p.pagamentos_fed) + SourceTotal(p.pagamentos_est);
    CardPaidIsRecordPaid(p);
    if paid >= TotalInvoiceValue(p, invoicesPresent, nowMonth, nowYear) then FullyPaid else PartiallyPaid
  }

  function SettlementText(s: Settlement): string {
    match s
    case FullyPaid => "TOTALMENTE PAGO"
    case PartiallyPaid => "PAGAMENTO PARCIAL"
  }

  /** A record without an invoice number or `invoices` property lists no
      invoice, so any non-negative payment shows as paid in full whatever
      its invoice amount. */
  lemma NoInvoiceNumberIsPaid(p: PaymentRecord, nowMonth: int, nowYear: int)
    requires p.numero_nf == ""
    requires forall i :: 0 <= i < |p.pagamentos_fed| ==> p.pagamentos_fed[i].valor >= 0.0
    requires forall i :: 0 <= i < |p.pagamentos_est| ==> p.pagamentos_est[i].valor >= 0.0
    ensures SettlementOf(p, false, nowMonth, nowYear) == FullyPaid
  {
    CardPaidIsRecordPaid(p);
  }

  /** The list comparator's verdict that `a` may go before `b`: its
      registration time is not earlier. `timeOf` stands for the platform's
      date parser, `None` for `NaN`; with either time `NaN` the comparator
      gives `NaN`, which the sort reads as "equal". */
  function NewerFirst(timeOf: string -> Option<int>): (PaymentRecord, PaymentRecord) -> bool {
    (a: PaymentRecord, b: PaymentRecord) =>
      var ta, tb := timeOf(a.data_cadastro), timeOf(b.data_cadastro);
      ta.None? || tb.None? || tb.value <= ta.value
  }

  /** The order the model's sort uses: `NewerFirst` with a `NaN` time read
      as 0, a total preorder that agrees with the comparator on records
      whose times are numbers. */
  function HistoryOrder(timeOf: string -> Option<int>): (PaymentRecord, PaymentRecord) -> bool {
    (a: PaymentRecord, b: PaymentRecord) => TimeOrZero(timeOf, b) <= TimeOrZero(timeOf, a)
  }

  function TimeOrZero(timeOf: string -> Option<int>, p: PaymentRecord): int {
    var t := timeOf(p.data_cadastro);
    if t.Some? then t.value else 0
  }

  /** Whether every record's registration date stands for a time. */
  predicate AllTimed(ps: seq<PaymentRecord>, timeOf: string -> Option<int>) {
    forall i :: 0 <= i < |ps| ==> timeOf(ps[i].data_cadastro).Some?
  }

  /** Both registration times are numbers and `a`'s is not earlier. */
  predicate NotOlder(a: PaymentRecord, b: PaymentRecord, timeOf: string -> Option<int>) {
    && timeOf(a.data_cadastro).Some? && timeOf(b.data_cadastro).Some?
    && timeOf(b.data_cadastro).value <= timeOf(a.data_cadastro).value
  }

  /** Each record is not older than any record after it. */
  predicate NewestFirst(r: seq<PaymentRecord>, timeOf: string -> Option<int>) {
    forall i, j :: 0 <= i < j < |r| ==> NotOlder(r[i], r[j], timeOf)
  }

  /** The records as listed: always the same records; when no registration
      date is `NaN`, newest first. */
  function OrderedHistory(ps: seq<PaymentRecord>, timeOf: string -> Option<int>): (r: seq<PaymentRecord>)
    ensures multiset(r) == multiset(ps)
    ensures AllTimed(ps, timeOf) ==> NewestFirst(r, timeOf)
  {
    HistorySortNewestFirst(ps, timeOf);
    SortBy(ps, HistoryOrder(timeOf))
  }

  lemma HistorySortNewestFirst(ps: seq<PaymentRecord>, timeOf: string -> Option<int>)
    ensures AllTimed(ps, timeOf) ==> NewestFirst(SortBy(ps, HistoryOrder(timeOf)), timeOf)
  {
    var le := HistoryOrder(timeOf);
    assert TotalRel(le) by {
      forall a: PaymentRecord, b: PaymentRecord
        ensures le(a, b) || le(b, a)
      {
      }
    }
    assert TransitiveRel(le) by {
      forall a: PaymentRecord, b: PaymentRecord, c: PaymentRecord
        ensures le(a, b) && le(b, c) ==> le(a, c)
      {
      }
    }
    var r := SortBy(ps, le);
    SortBySorted(ps, le);
    if AllTimed(ps, timeOf) {
      forall i, j | 0 <= i < j < |r|
        ensures NotOlder(r[i], r[j], timeOf)
      {
        SortedPairwise(r, le, i, j);
        assert r[i] in multiset(ps) && r[j] in multiset(ps);
      }
    }
  }

  /** A `NaN` registration date makes the comparator inconsistent: such a
      record may go on either side of two records that are strictly
      ordered, so the listed order is left to the engine. */
  lemma NaNDateBreaksHistoryOrder(p: PaymentRecord)
    ensures var timeOf := (s: string) => if s == "new" then Some(1) else if s == "old" then Some(0) else None;
      var x, n, y := p.(data_cadastro := "old"), p.(data_cadastro := "bad"), p.(data_cadastro := "new");
      NewerFirst(timeOf)(x, n) && NewerFirst(timeOf)(n, y) && !NewerFirst(timeOf)(x, y)
  {
  }

  /** Listing does not change what the listed records add up to. */
  lemma OrderedHistoryKeepsTotals(ps: seq<PaymentRecord>, timeOf: string -> Option<int>)
    ensures TotalPaid(OrderedHistory(ps, timeOf)) == TotalPaid(ps)
    ensures TotalInvoiced(OrderedHistory(ps, timeOf)) == TotalInvoiced(ps)
  {
    SumPermutation(OrderedHistory(ps, timeOf), ps, RecordPaid);
    SumPermutation(OrderedHistory(ps, timeOf), ps, (p: PaymentRecord) => p.valor_nfe);
  }
}
