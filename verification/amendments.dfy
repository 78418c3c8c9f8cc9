/** The amendment ledger of a contract and the projection of the contract
    through it: amendments are appended and soft-deleted, never removed;
    the value in force is the base value plus the active value amendments;
    tenure amendments overwrite the contract's term and, for an extension,
    open a new period. */
module Amendments {
  import opened Wrappers
  import opened Types
  import opened Collections
  import opened JsText
  import Periods
  import Contracts
  import PeriodReports

  // ---------------------------------------------------------------------
  // The active value sum
  // ---------------------------------------------------------------------

  /** An amendment that counts towards the value in force. */
  predicate IsActiveValue(a: ContractAmendment) {
    a.category == Value && a.is_active
  }

  function Delta(a: ContractAmendment): real {
    a.ValueDelta()
  }

  /** The delta an amendment contributes wherever it sits in a list. */
  function MaskedDelta(a: ContractAmendment): real {
    if IsActiveValue(a) then a.ValueDelta() else 0.0
  }

  /** Sum of `amendment_value || 0` over the active value amendments. */
  function ActiveValueSum(s: seq<ContractAmendment>): real {
    SumOf(Filter(s, IsActiveValue), Delta)
  }

  /** The active sum adds every amendment's masked delta. */
  lemma {:induction false} ActiveSumIsMasked(s: seq<ContractAmendment>)
    ensures ActiveValueSum(s) == SumOf(s, MaskedDelta)
  {
    if |s| > 0 {
      ActiveSumIsMasked(s[1..]);
    }
  }

  /** The active sum does not depend on the order of the amendments. */
  lemma ActiveSumOrderIndependent(a: seq<ContractAmendment>, b: seq<ContractAmendment>)
    requires multiset(a) == multiset(b)
    ensures ActiveValueSum(a) == ActiveValueSum(b)
  {
    ActiveSumIsMasked(a);
    ActiveSumIsMasked(b);
    SumPermutation(a, b, MaskedDelta);
  }

  /** Appending an amendment adds its masked delta. */
  lemma ActiveSumAppend(s: seq<ContractAmendment>, a: ContractAmendment)
    ensures ActiveValueSum(s + [a]) == ActiveValueSum(s) + MaskedDelta(a)
  {
    ActiveSumIsMasked(s + [a]);
    ActiveSumIsMasked(s);
    SumAppend(s, [a], MaskedDelta);
  }

  // ---------------------------------------------------------------------
  // History
  // ---------------------------------------------------------------------

  function OfContract(contractId: string): ContractAmendment -> bool {
    (a: ContractAmendment) => a.contract_id == contractId
  }

  /** The order of the history query: latest `amendment_date` first. */
  predicate NewerFirst(a: ContractAmendment, b: ContractAmendment) {
    LexLe(b.amendment_date, a.amendment_date)
  }

  datatype HistorySummary = HistorySummary(
    total_amendments_value: real,
    total_value_amendments: nat,
    total_tenure_amendments: nat,
    current_value: real)

  datatype History = History(amendments: seq<ContractAmendment>, summary: HistorySummary)

  /** `getContractAmendmentsHistory`: the amendments stored under the id,
      latest first, with the active value sum, the counts of value and of
      tenure amendments (active or not), and the contract's base value (0
      when it is not found). For the empty id the contract lookup throws,
      since Firestore refuses an empty document path, and so does the
      history. */
  function GetContractAmendmentsHistory(st: Store, contractId: string): (r: Result<History>)
    ensures r.Err? <==> contractId == ""
    ensures r.Ok? ==> var h := r.value;
      && multiset(h.amendments) == multiset(Filter(st.amendments, OfContract(contractId)))
      && SortedBy(h.amendments, NewerFirst)
      && h.summary.total_amendments_value == ActiveValueSum(Filter(st.amendments, OfContract(contractId)))
      && h.summary.total_value_amendments + h.summary.total_tenure_amendments == |h.amendments|
    ensures r.Ok? ==> (r.value.summary.current_value ==
      match Contracts.GetContractById(st.contracts, contractId)
      case None => 0.0
      case Some(c) => c.BaseValue())
  {
    if contractId == "" then Err(Invalid("empty document path"))
    else
      var mine := Filter(st.amendments, OfContract(contractId));
      var sorted := SortBy(mine, NewerFirst);
      NewerFirstTotal();
      SortBySorted(mine, NewerFirst);
      ActiveSumOrderIndependent(sorted, mine);
      var values := Count(sorted, (a: ContractAmendment) => a.category == Value);
      var tenures := Count(sorted, (a: ContractAmendment) => a.category == Tenure);
      TenureValueCounts(sorted);
      var current := match Contracts.GetContractById(st.contracts, contractId)
        case None => 0.0
        case Some(c) => c.BaseValue();
      Ok(History(sorted, HistorySummary(ActiveValueSum(sorted), values, tenures, current)))
  }

  lemma NewerFirstTotal()
    ensures TotalRel(NewerFirst)
  {
    forall a: ContractAmendment, b: ContractAmendment
      ensures NewerFirst(a, b) || NewerFirst(b, a)
    {
      LexLeTotal(a.amendment_date, b.amendment_date);
    }
  }

  /** Every amendment is either of value or of tenure, so the two counts
      cover the history. */
  lemma TenureValueCounts(s: seq<ContractAmendment>)
    ensures Count(s, (a: ContractAmendment) => a.category == Value)
      + Count(s, (a: ContractAmendment) => a.category == Tenure) == |s|
  {
    var v := (a: ContractAmendment) => a.category == Value;
    CountComplement(s, v);
    CountCongruent(s, x => !v(x), (a: ContractAmendment) => a.category == Tenure);
  }

  lemma {:induction false} CountCongruent<T>(s: seq<T>, p: T -> bool, q: T -> bool)
    requires forall x :: p(x) == q(x)
    ensures Count(s, p) == Count(s, q)
  {
    if |s| > 0 {
      CountCongruent(s[1..], p, q);
    }
  }

  // ---------------------------------------------------------------------
  // Soft deletion
  // ---------------------------------------------------------------------

  /** `deleteTenureAmendment` and `deleteValueAmendment`: the amendment
      document is marked inactive; a missing document makes the update fail. */
  function DeactivateAmendment(st: Store, amendmentId: string): (r: Result<Store>)
    ensures r.Err? <==> forall i :: 0 <= i < |st.amendments| ==> st.amendments[i].id != amendmentId
    ensures r.Ok? ==> (r.value.contracts == st.contracts && r.value.periods == st.periods
      && r.value.payments == st.payments)
    ensures r.Ok? ==> |r.value.amendments| == |st.amendments|
    ensures r.Ok? ==> forall i :: 0 <= i < |st.amendments| ==>
      r.value.amendments[i] ==
        (if st.amendments[i].id == amendmentId then st.amendments[i].(is_active := false) else st.amendments[i])
  {
    if FindIndex(st.amendments, (a: ContractAmendment) => a.id == amendmentId) < 0 then
      Err(NotFound("amendment " + amendmentId))
    else
      Ok(st.(amendments := Map(st.amendments, (a: ContractAmendment) =>
        if a.id == amendmentId then a.(is_active := false) else a)))
  }

  /** Deleting twice leaves the store as deleting once. */
  lemma DeactivateIdempotent(st: Store, amendmentId: string)
    requires DeactivateAmendment(st, amendmentId).Ok?
    ensures DeactivateAmendment(DeactivateAmendment(st, amendmentId).value, amendmentId)
      == DeactivateAmendment(st, amendmentId)
  {
    var s1 := DeactivateAmendment(st, amendmentId).value;
    DeactivateClears(st, amendmentId);
    DeactivateFixes(s1, amendmentId);
  }

  /** After a deletion the deleted id is still there, and every amendment
      with it is inactive. */
  lemma DeactivateClears(st: Store, amendmentId: string)
    requires DeactivateAmendment(st, amendmentId).Ok?
    ensures var s1 := DeactivateAmendment(st, amendmentId).value;
      && (exists i :: 0 <= i < |s1.amendments| && s1.amendments[i].id == amendmentId)
      && forall i :: 0 <= i < |s1.amendments| && s1.amendments[i].id == amendmentId ==>
        !s1.amendments[i].is_active
  {
    var s1 := DeactivateAmendment(st, amendmentId).value;
    var i :| 0 <= i < |st.amendments| && st.amendments[i].id == amendmentId;
    assert s1.amendments[i] == st.amendments[i].(is_active := false);
    forall j | 0 <= j < |s1.amendments| && s1.amendments[j].id == amendmentId
      ensures !s1.amendments[j].is_active
    {
      var a := st.amendments[j];
      assert s1.amendments[j] == (if a.id == amendmentId then a.(is_active := false) else a);
    }
  }

  /** A store whose amendments with the id are all inactive already is left
      as it is. */
  lemma DeactivateFixes(st: Store, amendmentId: string)
    requires exists i :: 0 <= i < |st.amendments| && st.amendments[i].id == amendmentId
    requires forall i :: 0 <= i < |st.amendments| && st.amendments[i].id == amendmentId ==>
      !st.amendments[i].is_active
    ensures DeactivateAmendment(st, amendmentId) == Ok(st)
  {
    var r := DeactivateAmendment(st, amendmentId);
    assert r.Ok?;
    assert r.value.amendments == st.amendments by {
      forall j | 0 <= j < |st.amendments|
        ensures r.value.amendments[j] == st.amendments[j]
      {
        if st.amendments[j].id == amendmentId {
          assert st.amendments[j].(is_active := false) == st.amendments[j];
        }
      }
    }
  }

  /** A deleted amendment counts for nothing, and the active sum of any list
      of amendments taken from the store drops by what it counted before. */
  lemma DeactivateRemovesContribution(st: Store, amendmentId: string, k: nat)
    requires k < |st.amendments| && st.amendments[k].id == amendmentId
    requires forall i :: 0 <= i < |st.amendments| && i != k ==> st.amendments[i].id != amendmentId
    ensures DeactivateAmendment(st, amendmentId).Ok?
    ensures var after := DeactivateAmendment(st, amendmentId).value.amendments;
      && MaskedDelta(after[k]) == 0.0
      && ActiveValueSum(after) == ActiveValueSum(st.amendments) - MaskedDelta(st.amendments[k])
  {
    var after := DeactivateAmendment(st, amendmentId).value.amendments;
    assert after == st.amendments[k := st.amendments[k].(is_active := false)];
    ActiveSumIsMasked(after);
    ActiveSumIsMasked(st.amendments);
    SumUpdate(st.amendments, k, st.amendments[k].(is_active := false), MaskedDelta);
  }

  /** Replacing one element changes a sum by the difference of its terms. */
  lemma {:induction false} SumUpdate<T>(s: seq<T>, k: nat, x: T, f: T -> real)
    requires k < |s|
    ensures SumOf(s[k := x], f) == SumOf(s, f) - f(s[k]) + f(x)
  {
    if k > 0 {
      SumUpdate(s[1..], k - 1, x, f);
      assert s[k := x][1..] == s[1..][k - 1 := x];
    } else {
      assert s[k := x][1..] == s[1..];
    }
  }

  // ---------------------------------------------------------------------
  // The projection
  // ---------------------------------------------------------------------

  predicate IsActivePeriod(p: ContractPeriod) {
    p.period_status == Active
  }

  /** The current term: the first active period's, else the last period's,
      else the contract's own start and `fim_vigencia || inicio_vigencia`. */
  function CurrentDates(c: Contract, ps: seq<ContractPeriod>): (r: (string, string))
    ensures |ps| == 0 ==> r == (c.inicio_vigencia, c.EndOrStart())
    ensures forall i :: (0 <= i < |ps| && ps[i].period_status == Active &&
      (forall j :: 0 <= j < i ==> ps[j].period_status != Active)) ==> r == (ps[i].start_date, ps[i].end_date)
    ensures |ps| > 0 && (forall i :: 0 <= i < |ps| ==> ps[i].period_status != Active) ==>
      r == (ps[|ps| - 1].start_date, ps[|ps| - 1].end_date)
  {
    if |ps| == 0 then (c.inicio_vigencia, c.EndOrStart())
    else
      var k := FindIndex(ps, IsActivePeriod);
      var p := if k >= 0 then ps[k] else ps[|ps| - 1];
      (p.start_date, p.end_date)
  }

  /** `getContractWithCurrentInfo`. A failed period summary, whether the
      summary itself fails or `periodsLookupFails` says the query did, falls
      back to the contract's own dates. */
  function GetContractWithCurrentInfo(st: Store, contractId: string, periodsLookupFails: bool)
    : (r: Result<ContractWithCurrentInfo>)
    ensures r.Err? <==> Contracts.GetContractById(st.contracts, contractId).None?
    ensures r.Ok? ==> var c := Contracts.GetContractById(st.contracts, contractId).value;
      && r.value.id == c.id && r.value.contract_number == c.numero_contrato
      && r.value.contractor_name == c.empresa && r.value.cnpj == c.cnpj
      && r.value.numero_processo == c.numero_processo && r.value.objeto == c.objeto
      && r.value.total_value == c.BaseValue() && r.value.valor_global_anul == c.valor_global_anul
      && r.value.inicio_vigencia == c.inicio_vigencia && r.value.fim_vigencia == c.fim_vigencia
    ensures r.Ok? ==>
      && r.value.total_amendments_value == ActiveValueSum(Filter(st.amendments, OfContract(contractId)))
      && r.value.total_amendments == Count(st.amendments, OfContract(contractId))
    ensures r.Ok? ==> ((r.value.current_start_date, r.value.current_end_date) ==
      CurrentDates(Contracts.GetContractById(st.contracts, contractId).value,
        if periodsLookupFails then [] else PeriodReports.PeriodsSummary(st, contractId)))
  {
    match Contracts.GetContractById(st.contracts, contractId)
    case None => Err(NotFound("contract " + contractId))
    case Some(c) =>
      var h := GetContractAmendmentsHistory(st, contractId).value;
      CountIsFilterLength(st.amendments, OfContract(contractId));
      var ps := match PeriodReports.GetContractPeriodsSummary(st, contractId)
        case Ok(summary) => if periodsLookupFails then [] else summary
        case Err(_) => [];
      var dates := CurrentDates(c, ps);
      Ok(ContractWithCurrentInfo(c.id, c.numero_contrato, c.empresa, c.cnpj, c.numero_processo,
        c.objeto, c.BaseValue(), c.valor_global_anul, ActiveValueSum(h.amendments),
        dates.0, dates.1, c.inicio_vigencia, c.fim_vigencia, |h.amendments|))
  }

  // ---------------------------------------------------------------------
  // Creating amendments
  // ---------------------------------------------------------------------

  /** An optional text field kept only when it is present and non-empty. */
  function NonEmpty(o: Option<string>): (r: Option<string>)
    ensures r.Some? <==> o.Some? && o.value != ""
    ensures r.Some? ==> r == o
  {
    if o.Some? && o.value != "" then o else None
  }

  /** The value amendment form as submitted. `amendment_type` is whatever
      text the caller passes. */
  datatype ValueAmendmentInput = ValueAmendmentInput(
    amendment_type: string,
    amendment_value: real,
    percentage_applied: Option<real>,
    index_used: Option<string>,
    reference_period: Option<string>,
    justification: string,
    description: Option<string>,
    legal_basis: Option<string>)

  /** The value amendment `createValueAmendment` stores for a contract
      whose reported id is `contractId` and whose value in force is
      `inForce`: active, of value shape, with the value typed and only the
      optional texts that are non-empty. */
  function NewValueAmendment(contractId: string, inForce: real, form: ValueAmendmentInput,
    userId: string, now: string, newId: string): (a: ContractAmendment)
    ensures a.ValueShaped() && a.is_active && a.id == newId && a.contract_id == contractId
    ensures a.amendment_type == form.amendment_type && a.amendment_date == now
    ensures a.previous_value == Some(inForce) && a.amendment_value == Some(form.amendment_value)
    ensures a.ValueDelta() == form.amendment_value
    ensures a.percentage_applied == form.percentage_applied
    ensures a.index_used == NonEmpty(form.index_used)
    ensures a.reference_period == NonEmpty(form.reference_period)
    ensures a.description == NonEmpty(form.description)
    ensures a.justification == form.justification
    ensures a.legal_basis == OrStr(form.legal_basis, "") && a.amended_by == userId
  {
    ContractAmendment(newId, contractId, Value, form.amendment_type, now, true,
      None, None, None, None, Some(inForce), Some(form.amendment_value),
      form.percentage_applied, NonEmpty(form.index_used), NonEmpty(form.reference_period),
      NonEmpty(form.description), form.justification, OrStr(form.legal_basis, ""), userId)
  }

  /** The value in force of contract `c`: its base value plus the active
      value amendments filed under `contractId`. */
  function InForce(c: Contract, amendments: seq<ContractAmendment>, contractId: string): real {
    c.BaseValue() + ActiveValueSum(Filter(amendments, OfContract(contractId)))
  }

  /** `createValueAmendment`: appends an active value amendment for the
      contract found under `contractId`, recording the base value plus the
      active value amendments filed under `contractId` as the previous value,
      and returns the new amendment's id. Nothing else changes. */
  function CreateValueAmendment(st: Store, contractId: string, form: ValueAmendmentInput,
    userId: string, now: string, newId: string): (r: Result<(Store, string)>)
    ensures r.Err? <==> Contracts.GetContractById(st.contracts, contractId).None?
    ensures r.Ok? ==> r.value.1 == newId
    ensures r.Ok? ==> r.value.0.(amendments := st.amendments) == st
    ensures r.Ok? ==> var c := Contracts.GetContractById(st.contracts, contractId).value;
      r.value.0.amendments == st.amendments + [NewValueAmendment(c.id,
        InForce(c, st.amendments, contractId), form, userId, now, newId)]
  {
    var found := Contracts.GetContractById(st.contracts, contractId);
    if found.None? then Err(NotFound("contract " + contractId))
    else
      var c := found.value;
      Ok((st.(amendments := st.amendments + [NewValueAmendment(c.id, InForce(c, st.amendments, contractId),
        form, userId, now, newId)]), newId))
  }

  /** A value amendment filed under the contract's own id raises the
      projected amendments total by exactly the amount typed, whatever its
      kind, and leaves the base value alone. */
  lemma ValueAmendmentRaisesTotal(st: Store, contractId: string, form: ValueAmendmentInput,
    userId: string, now: string, newId: string, periodsLookupFails: bool)
    requires Contracts.GetContractById(st.contracts, contractId).Some?
    requires Contracts.GetContractById(st.contracts, contractId).value.id == contractId
    ensures var after := CreateValueAmendment(st, contractId, form, userId, now, newId).value.0;
      var before := GetContractWithCurrentInfo(st, contractId, periodsLookupFails).value;
      var now' := GetContractWithCurrentInfo(after, contractId, periodsLookupFails).value;
      && now'.total_amendments_value == before.total_amendments_value + form.amendment_value
      && now'.total_value == before.total_value
      && now'.total_amendments == before.total_amendments + 1
  {
    var after := CreateValueAmendment(st, contractId, form, userId, now, newId).value.0;
    var a := after.amendments[|st.amendments|];
    assert after.amendments == st.amendments + [a];
    FilterAppend(st.amendments, [a], OfContract(contractId));
    assert Filter([a], OfContract(contractId)) == [a];
    ActiveSumAppend(Filter(st.amendments, OfContract(contractId)), a);
    CountAppend(st.amendments, [a], OfContract(contractId));
  }

  /** A value amendment filed while the contract was found through a
      document id other than its stored id is recorded under the stored id,
      so the projection queried with the document id does not see it. */
  lemma ValueAmendmentUnderOtherId(st: Store, contractId: string, form: ValueAmendmentInput,
    userId: string, now: string, newId: string, periodsLookupFails: bool)
    requires Contracts.GetContractById(st.contracts, contractId).Some?
    requires Contracts.GetContractById(st.contracts, contractId).value.id != contractId
    ensures var after := CreateValueAmendment(st, contractId, form, userId, now, newId).value.0;
      GetContractWithCurrentInfo(after, contractId, periodsLookupFails)
        == GetContractWithCurrentInfo(st, contractId, periodsLookupFails)
  {
    var after := CreateValueAmendment(st, contractId, form, userId, now, newId).value.0;
    var a := after.amendments[|st.amendments|];
    assert after.amendments == st.amendments + [a];
    FilterAppend(st.amendments, [a], OfContract(contractId));
    assert Filter([a], OfContract(contractId)) == [];
    assert Filter(after.amendments, OfContract(contractId)) == Filter(st.amendments, OfContract(contractId));
    CountAppend(st.amendments, [a], OfContract(contractId));
    assert after.periods == st.periods && after.contracts == st.contracts && after.payments == st.payments;
    assert PeriodReports.PeriodsSummary(after, contractId) == PeriodReports.PeriodsSummary(st, contractId);
  }

  /** The tenure amendment kinds. */
  type TenureType = t: AmendmentType | t.Category() == Tenure witness Extension

  datatype TenureAmendmentInput = TenureAmendmentInput(
    amendment_type: TenureType,
    new_start_date: string,
    new_end_date: string,
    justification: string,
    legal_basis: Option<string>)

  /** The contract documents with the term of those under `docId` replaced. */
  function SetTerm(docs: seq<ContractDoc>, docId: string, start: string, end: string): (r: seq<ContractDoc>)
    ensures |r| == |docs|
    ensures forall i :: 0 <= i < |docs| ==> (r[i] ==
      if docs[i].docId == docId
      then docs[i].(data := docs[i].data.(inicio_vigencia := start, fim_vigencia := Some(end)))
      else docs[i])
  {
    Map(docs, (d: ContractDoc) =>
      if d.docId == docId then d.(data := d.data.(inicio_vigencia := start, fim_vigencia := Some(end))) else d)
  }

  /** `createTenureAmendment`: appends an active tenure amendment recording
      the contract's term before it, writes the new term onto the contract
      document, and for an extension opens a period over the new term with
      the contract's base value. The document the write goes to is the one
      the contract's reported id resolves to, which always exists
      (`Contracts.FoundContractResolvable`). */
  function CreateTenureAmendment(st: Store, contractId: string, form: TenureAmendmentInput,
    userId: string, now: string, newId: string, newPeriodId: string): (r: Result<(Store, string)>)
    ensures r.Err? <==> Contracts.GetContractById(st.contracts, contractId).None?
    ensures r.Ok? ==> (r.value.1 == newId && r.value.0.payments == st.payments
      && |r.value.0.amendments| == |st.amendments| + 1
      && r.value.0.amendments[..|st.amendments|] == st.amendments)
    ensures r.Ok? ==> var a := r.value.0.amendments[|st.amendments|];
      var c := Contracts.GetContractById(st.contracts, contractId).value;
      && a.TenureShaped() && a.is_active && a.id == newId && a.contract_id == c.id
      && a.amendment_type == form.amendment_type.Code() && a.amendment_date == now
      && a.previous_start_date == Some(c.inicio_vigencia)
      && a.previous_end_date == Some(c.EndOrStart())
      && a.new_start_date == Some(form.new_start_date) && a.new_end_date == Some(form.new_end_date)
      && a.justification == form.justification
      && a.legal_basis == OrStr(form.legal_basis, "") && a.amended_by == userId
    ensures r.Ok? ==> var c := Contracts.GetContractById(st.contracts, contractId).value;
      r.value.0.contracts == SetTerm(st.contracts, Contracts.ResolveDocId(st.contracts, c.id).value,
        form.new_start_date, form.new_end_date)
    ensures r.Ok? && form.amendment_type == EarlyTermination ==> r.value.0.periods == st.periods
    ensures r.Ok? && form.amendment_type == Extension ==> var c := Contracts.GetContractById(st.contracts, contractId).value;
      r.value.0.periods == Periods.CreateContractPeriod(st.periods, c.id, form.new_start_date,
        form.new_end_date, ExtensionPeriod, c.BaseValue(), newPeriodId)
  {
    match Contracts.GetContractById(st.contracts, contractId)
    case None => Err(NotFound("contract " + contractId))
    case Some(c) =>
      var a := ContractAmendment(newId, c.id, Tenure, form.amendment_type.Code(), now, true,
        Some(c.inicio_vigencia), Some(c.EndOrStart()), Some(form.new_start_date), Some(form.new_end_date),
        None, None, None, None, None, None, form.justification, OrStr(form.legal_basis, ""), userId);
      var amendments := st.amendments + [a];
      assert amendments[..|st.amendments|] == st.amendments;
      Contracts.FoundContractResolvable(st.contracts, contractId);
      var docId := Contracts.ResolveDocId(st.contracts, c.id).value;
      var contracts := SetTerm(st.contracts, docId, form.new_start_date, form.new_end_date);
      var periods :=
        if form.amendment_type == Extension then
          Periods.CreateContractPeriod(st.periods, c.id, form.new_start_date, form.new_end_date,
            ExtensionPeriod, c.BaseValue(), newPeriodId)
        else st.periods;
      Ok((Store(contracts, amendments, periods, st.payments), newId))
  }

  /** Rewriting a term changes neither document ids nor stored ids, so every
      lookup still finds a contract exactly when it did before. */
  lemma SetTermKeepsLookup(docs: seq<ContractDoc>, docId: string, start: string, end: string, id: string)
    ensures Contracts.GetContractById(SetTerm(docs, docId, start, end), id).Some?
      <==> Contracts.GetContractById(docs, id).Some?
  {
    var r := SetTerm(docs, docId, start, end);
    assert forall i :: 0 <= i < |docs| ==> r[i].docId == docs[i].docId && r[i].data.id == docs[i].data.id;
  }

  /** Two stores with the same periods list the same terms and statuses in
      their summaries, whatever their contracts and payments. */
  lemma SummaryTermsOnlyFromPeriods(s1: Store, s2: Store, contractId: string)
    requires s1.periods == s2.periods
    ensures |PeriodReports.PeriodsSummary(s1, contractId)| == |PeriodReports.PeriodsSummary(s2, contractId)|
    ensures forall i :: 0 <= i < |PeriodReports.PeriodsSummary(s1, contractId)| ==>
      var p, q := PeriodReports.PeriodsSummary(s1, contractId)[i], PeriodReports.PeriodsSummary(s2, contractId)[i];
      p.start_date == q.start_date && p.end_date == q.end_date && p.period_status == q.period_status
  {
  }

  /** The current term depends only on the periods' terms and statuses once
      there is a period. */
  lemma CurrentDatesFromTerms(c1: Contract, c2: Contract, ps: seq<ContractPeriod>, qs: seq<ContractPeriod>)
    requires |ps| == |qs| > 0
    requires forall i :: 0 <= i < |ps| ==>
      ps[i].start_date == qs[i].start_date && ps[i].end_date == qs[i].end_date
      && ps[i].period_status == qs[i].period_status
    ensures CurrentDates(c1, ps) == CurrentDates(c2, qs)
  {
    var k := FindIndex(ps, IsActivePeriod);
    if k >= 0 {
      assert forall j :: 0 <= j < k ==> qs[j].period_status != Active;
    } else {
      assert forall j :: 0 <= j < |qs| ==> qs[j].period_status != Active;
    }
  }

  /** An early termination rewrites only the contract's term: the periods
      stay as they were, so once the contract has a period, the projected
      current term does not move. */
  lemma EarlyTerminationKeepsCurrentTerm(st: Store, contractId: string, form: TenureAmendmentInput,
    userId: string, now: string, newId: string, newPeriodId: string)
    requires Contracts.GetContractById(st.contracts, contractId).Some?
    requires form.amendment_type == EarlyTermination
    requires |PeriodReports.PeriodsSummary(st, contractId)| > 0
    ensures var after := CreateTenureAmendment(st, contractId, form, userId, now, newId, newPeriodId).value.0;
      && after.periods == st.periods
      && GetContractWithCurrentInfo(after, contractId, false).Ok?
      && GetContractWithCurrentInfo(after, contractId, false).value.current_end_date
        == GetContractWithCurrentInfo(st, contractId, false).value.current_end_date
      && GetContractWithCurrentInfo(after, contractId, false).value.current_start_date
        == GetContractWithCurrentInfo(st, contractId, false).value.current_start_date
  {
    var after := CreateTenureAmendment(st, contractId, form, userId, now, newId, newPeriodId).value.0;
    var c := Contracts.GetContractById(st.contracts, contractId).value;
    SetTermKeepsLookup(st.contracts, Contracts.ResolveDocId(st.contracts, c.id).value,
      form.new_start_date, form.new_end_date, contractId);
    var c' := Contracts.GetContractById(after.contracts, contractId).value;
    SummaryTermsOnlyFromPeriods(after, st, contractId);
    CurrentDatesFromTerms(c', c, PeriodReports.PeriodsSummary(after, contractId),
      PeriodReports.PeriodsSummary(st, contractId));
  }

  /** Every stored period of the contract appears, recomputed, in its summary. */
  lemma SummaryContainsStored(st: Store, contractId: string, j: nat)
    requires j < |st.periods| && st.periods[j].contract_id == contractId
    ensures exists i :: (0 <= i < |PeriodReports.PeriodsSummary(st, contractId)| &&
      PeriodReports.PeriodsSummary(st, contractId)[i] == PeriodReports.Refigure(st.contracts, st.payments, st.periods[j]))
  {
    var mine := Filter(st.periods, PeriodReports.PeriodOf(contractId));
    var sorted := SortBy(mine, PeriodReports.ByNumber);
    assert st.periods[j] in mine;
    assert st.periods[j] in multiset(sorted);
    var k :| 0 <= k < |sorted| && sorted[k] == st.periods[j];
    assert PeriodReports.PeriodsSummary(st, contractId)[k] == PeriodReports.Refigure(st.contracts, st.payments, sorted[k]);
  }

  /** After an extension filed under the contract's own id, on a contract
      whose only active period is its top period, the projected current term
      is the extension's term: the new period is the one active period. */
  lemma ExtensionSetsCurrentTerm(st: Store, contractId: string, form: TenureAmendmentInput,
    userId: string, now: string, newId: string, newPeriodId: string)
    requires Contracts.GetContractById(st.contracts, contractId).Some?
    requires Contracts.GetContractById(st.contracts, contractId).value.id == contractId
    requires form.amendment_type == Extension
    requires Periods.OnlyTopActive(st.periods, contractId)
    ensures var after := CreateTenureAmendment(st, contractId, form, userId, now, newId, newPeriodId).value.0;
      && GetContractWithCurrentInfo(after, contractId, false).Ok?
      && GetContractWithCurrentInfo(after, contractId, false).value.current_start_date == form.new_start_date
      && GetContractWithCurrentInfo(after, contractId, false).value.current_end_date == form.new_end_date
  {
    var after := CreateTenureAmendment(st, contractId, form, userId, now, newId, newPeriodId).value.0;
    var c := Contracts.GetContractById(st.contracts, contractId).value;
    SetTermKeepsLookup(st.contracts, Contracts.ResolveDocId(st.contracts, c.id).value,
      form.new_start_date, form.new_end_date, contractId);
    Periods.CreateKeepsSingleActive(st.periods, contractId, form.new_start_date, form.new_end_date,
      ExtensionPeriod, c.BaseValue(), newPeriodId);
    var n := |st.periods|;
    assert after.periods[n].contract_id == contractId;
    var summary := PeriodReports.PeriodsSummary(after, contractId);
    SummaryContainsStored(after, contractId, n);
    var i0 :| 0 <= i0 < |summary| && summary[i0] == PeriodReports.Refigure(after.contracts, after.payments, after.periods[n]);
    assert IsActivePeriod(summary[i0]);
    var k := FindIndex(summary, IsActivePeriod);
    assert k >= 0;
    PeriodReports.SummaryListsStoredPeriods(after, contractId, k);
    var j :| 0 <= j < |after.periods| && after.periods[j].contract_id == contractId &&
      summary[k] == PeriodReports.Refigure(after.contracts, after.payments, after.periods[j]);
    assert Periods.IsActiveOf(after.periods[j], contractId);
    assert j == n;
    var info := GetContractWithCurrentInfo(after, contractId, false);
    assert info.Ok?;
    assert (info.value.current_start_date, info.value.current_end_date)
      == CurrentDates(Contracts.GetContractById(after.contracts, contractId).value, summary);
  }

  // ---------------------------------------------------------------------
  // Display
  // ---------------------------------------------------------------------

  /** The display name of each amendment kind. */
  function AmendmentLabel(t: AmendmentType): (s: string)
    ensures |s| > 0
  {
    match t
    case Extension => "Prorrogação"
    case EarlyTermination => "Encerramento Antecipado"
    case Addition => "Acréscimo"
    case Suppression => "Supressão"
    case Readjustment => "Reajuste"
    case Renegotiation => "Repactuação"
  }

  /** `formatAmendmentType`: a stored code's display name, and any other text
      unchanged. */
  function FormatAmendmentType(code: string): (s: string)
    ensures forall t: AmendmentType :: t.Code() == code ==> s == AmendmentLabel(t)
    ensures AmendmentTypeOf(code).None? ==> s == code
  {
    match AmendmentTypeOf(code)
    case Some(t) => AmendmentLabel(t)
    case None => code
  }
}
