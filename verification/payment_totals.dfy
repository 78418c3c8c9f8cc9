/** The sums every payment view folds out of `PaymentRecord` lists: per-entry
    totals by funding source, per-record paid amounts, and totals over a
    list of records. */
module PaymentTotals {
  import opened Types
  import opened Collections

  /** Sum of the `valor` of a list of bank orders. */
  function EntriesTotal(es: seq<PaymentEntry>): real {
    SumOf(es, (e: PaymentEntry) => e.valor)
  }

  function RecordFed(p: PaymentRecord): real {
    EntriesTotal(p.pagamentos_fed)
  }

  function RecordEst(p: PaymentRecord): real {
    EntriesTotal(p.pagamentos_est)
  }

  /** What a record has paid: its federal plus its state bank orders. */
  function RecordPaid(p: PaymentRecord): real {
    RecordFed(p) + RecordEst(p)
  }

  function TotalFed(ps: seq<PaymentRecord>): real {
    SumOf(ps, RecordFed)
  }

  function TotalEst(ps: seq<PaymentRecord>): real {
    SumOf(ps, RecordEst)
  }

  /** Everything paid over a list of records. */
  function TotalPaid(ps: seq<PaymentRecord>): real {
    SumOf(ps, RecordPaid)
  }

  /** Sum of the invoice amounts. */
  function TotalInvoiced(ps: seq<PaymentRecord>): real {
    SumOf(ps, (p: PaymentRecord) => p.valor_nfe)
  }

  /** The paid total splits into the federal and the state totals. */
  lemma TotalPaidSplits(ps: seq<PaymentRecord>)
    ensures TotalPaid(ps) == TotalFed(ps) + TotalEst(ps)
  {
    SumAdd(ps, RecordFed, RecordEst, RecordPaid);
  }

  /** The test "belongs to contract number `numero`". */
  function NumberIs(numero: string): PaymentRecord -> bool {
    (p: PaymentRecord) => p.numero_contrato == numero
  }

  /** The records of one contract number, in store order: the
      by-contract-number payment query. */
  function PaymentsOf(ps: seq<PaymentRecord>, numero: string): (r: seq<PaymentRecord>)
    ensures |r| <= |ps|
    ensures forall i :: 0 <= i < |r| ==> r[i].numero_contrato == numero && r[i] in ps
    ensures forall i :: 0 <= i < |ps| && ps[i].numero_contrato == numero ==> ps[i] in r
    ensures Subseq(r, ps)
    ensures |r| == Count(ps, NumberIs(numero))
  {
    FilterIsSubseq(ps, NumberIs(numero));
    Filter(ps, NumberIs(numero))
  }

  /** The paid total of a contract number does not depend on the order in
      which the store lists the records. */
  lemma PaidOrderIndependent(a: seq<PaymentRecord>, b: seq<PaymentRecord>, numero: string)
    requires multiset(a) == multiset(b)
    ensures TotalPaid(PaymentsOf(a, numero)) == TotalPaid(PaymentsOf(b, numero))
  {
    var f := (p: PaymentRecord) => if p.numero_contrato == numero then RecordPaid(p) else 0.0;
    PaidOfIsMasked(a, numero);
    PaidOfIsMasked(b, numero);
    SumPermutation(a, b, f);
  }

  /** Paid total of a contract number, as a masked sum over all records. */
  lemma {:induction false} PaidOfIsMasked(ps: seq<PaymentRecord>, numero: string)
    ensures TotalPaid(PaymentsOf(ps, numero))
      == SumOf(ps, (p: PaymentRecord) => if p.numero_contrato == numero then RecordPaid(p) else 0.0)
  {
    if |ps| > 0 {
      PaidOfIsMasked(ps[1..], numero);
    }
  }
}
