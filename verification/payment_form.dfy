/** The payment form: two editable lists of bank orders keyed by entry id,
    the load of a record being edited, and the record a submission builds.
    Fresh ids, today's date and the current month and year come from the
    platform and are parameters here. */
module PaymentForm {
  import opened Wrappers
  import opened Types
  import opened Collections

  datatype FormState = FormState(
    selectedContractId: string,
    numeroNf: string,
    valorNfe: real,
    mes: int,
    ano: int,
    fedEntries: seq<PaymentEntry>,
    estEntries: seq<PaymentEntry>)

  /** `createEmptyEntry`: value 0, empty references and today's date. */
  function EmptyEntry(id: string, today: string): (e: PaymentEntry)
    ensures e.id == id && e.valor == 0.0 && e.referencia_ob == "" && e.numero_empenho == "" && e.data_ob == today
  {
    PaymentEntry(id, 0.0, "", today, "")
  }

  /** The form as it opens: the given contract selected, if any, the current
      competence, and one empty entry in each list. */
  function InitialForm(initialContract: Option<Contract>, nowMonth: int, nowYear: int,
    fedId: string, estId: string, today: string): (st: FormState)
    ensures |st.fedEntries| == 1 && |st.estEntries| == 1
    ensures st.fedEntries[0] == EmptyEntry(fedId, today) && st.estEntries[0] == EmptyEntry(estId, today)
    ensures st.selectedContractId == (if initialContract.Some? then initialContract.value.id else "")
    ensures st.mes == nowMonth && st.ano == nowYear && st.numeroNf == "" && st.valorNfe == 0.0
  {
    var selected := match initialContract case Some(c) => OrStr(Some(c.id), "") case None => "";
    FormState(selected, "", 0.0, nowMonth, nowYear, [EmptyEntry(fedId, today)], [EmptyEntry(estId, today)])
  }

  /** The first contract with a given contract number. */
  function ContractByNumber(cs: seq<Contract>, numero: string): (r: Option<Contract>)
    ensures r.None? <==> forall i :: 0 <= i < |cs| ==> cs[i].numero_contrato != numero
    ensures r.Some? ==> r.value.numero_contrato == numero && r.value in cs
  {
    var k := FindIndex(cs, (c: Contract) => c.numero_contrato == numero);
    if k < 0 then None else Some(cs[k])
  }

  /** The first contract with a given id. */
  function ContractById(cs: seq<Contract>, id: string): (r: Option<Contract>)
    ensures r.None? <==> forall i :: 0 <= i < |cs| ==> cs[i].id != id
    ensures r.Some? ==> r.value.id == id && r.value in cs
  {
    var k := FindIndex(cs, (c: Contract) => c.id == id);
    if k < 0 then None else Some(cs[k])
  }

  /** Loading a record to edit: its contract is selected when one has its
      number, its fields are copied, and each entry list is replaced only
      when the stored list is not empty. */
  function LoadInitialData(st: FormState, cs: seq<Contract>, data: PaymentRecord): (r: FormState)
    ensures r.numeroNf == data.numero_nf && r.valorNfe == data.valor_nfe
    ensures r.mes == data.mes_competencia && r.ano == data.ano_competencia
    ensures r.fedEntries == (if |data.pagamentos_fed| > 0 then data.pagamentos_fed else st.fedEntries)
    ensures r.estEntries == (if |data.pagamentos_est| > 0 then data.pagamentos_est else st.estEntries)
    ensures ContractByNumber(cs, data.numero_contrato).None? ==> r.selectedContractId == st.selectedContractId
    ensures ContractByNumber(cs, data.numero_contrato).Some? ==>
      r.selectedContractId == ContractByNumber(cs, data.numero_contrato).value.id
  {
    var selected := match ContractByNumber(cs, data.numero_contrato)
      case Some(c) => c.id
      case None => st.selectedContractId;
    FormState(selected, data.numero_nf, data.valor_nfe, data.mes_competencia, data.ano_competencia,
      if |data.pagamentos_fed| > 0 then data.pagamentos_fed else st.fedEntries,
      if |data.pagamentos_est| > 0 then data.pagamentos_est else st.estEntries)
  }

  // ---------------------------------------------------------------------
  // Editing a list of entries by id
  // ---------------------------------------------------------------------

  /** `addFedEntry` / `addEstEntry`. */
  function AddEntry(es: seq<PaymentEntry>, id: string, today: string): (r: seq<PaymentEntry>)
    ensures |r| == |es| + 1 && r[..|es|] == es && r[|es|] == EmptyEntry(id, today)
  {
    es + [EmptyEntry(id, today)]
  }

  /** One field of an entry and its new value. */
  datatype EntryEdit =
    | SetId(id: string)
    | SetValor(valor: real)
    | SetReferencia(referencia: string)
    | SetDataOb(data: string)
    | SetEmpenho(empenho: string)

  /** `{ ...e, [field]: value }`. */
  function ApplyEdit(e: PaymentEntry, u: EntryEdit): (r: PaymentEntry)
    ensures !u.SetId? ==> r.id == e.id
    ensures !u.SetValor? ==> r.valor == e.valor
    ensures !u.SetReferencia? ==> r.referencia_ob == e.referencia_ob
    ensures !u.SetDataOb? ==> r.data_ob == e.data_ob
    ensures !u.SetEmpenho? ==> r.numero_empenho == e.numero_empenho
  {
    match u
    case SetId(x) => e.(id := x)
    case SetValor(x) => e.(valor := x)
    case SetReferencia(x) => e.(referencia_ob := x)
    case SetDataOb(x) => e.(data_ob := x)
    case SetEmpenho(x) => e.(numero_empenho := x)
  }

  function EditIf(id: string, u: EntryEdit): PaymentEntry -> PaymentEntry {
    (e: PaymentEntry) => if e.id == id then ApplyEdit(e, u) else e
  }

  /** `updateFedEntry` / `updateEstEntry`: the edit applies to the entries
      with the id, in place; the others are untouched. */
  function UpdateEntry(es: seq<PaymentEntry>, id: string, u: EntryEdit): (r: seq<PaymentEntry>)
    ensures |r| == |es|
    ensures forall i :: 0 <= i < |es| && es[i].id == id ==> r[i] == ApplyEdit(es[i], u)
    ensures forall i :: 0 <= i < |es| && es[i].id != id ==> r[i] == es[i]
  {
    Map(es, EditIf(id, u))
  }

  function HasOtherId(id: string): PaymentEntry -> bool {
    (e: PaymentEntry) => e.id != id
  }

  /** `removeFedEntry` / `removeEstEntry`: drops the entries with the id and
      keeps the rest in order. */
  function RemoveEntry(es: seq<PaymentEntry>, id: string): (r: seq<PaymentEntry>)
    ensures Subseq(r, es)
    ensures forall i :: 0 <= i < |r| ==> r[i].id != id
    ensures forall i :: 0 <= i < |es| && es[i].id != id ==> es[i] in r
    ensures |r| == Count(es, HasOtherId(id))
  {
    FilterIsSubseq(es, HasOtherId(id));
    Filter(es, HasOtherId(id))
  }

  /** Removing an entry just added under a fresh id gives the list back. */
  lemma AddThenRemove(es: seq<PaymentEntry>, id: string, today: string)
    requires forall i :: 0 <= i < |es| ==> es[i].id != id
    ensures RemoveEntry(AddEntry(es, id, today), id) == es
  {
    FilterAppend(es, [EmptyEntry(id, today)], HasOtherId(id));
    FilterAll(es, HasOtherId(id));
    assert [EmptyEntry(id, today)][1..] == [];
  }

  /** An edit that keeps ids is forgotten when the entry is removed. */
  lemma {:induction false} UpdateThenRemove(es: seq<PaymentEntry>, id: string, u: EntryEdit)
    requires !u.SetId?
    ensures RemoveEntry(UpdateEntry(es, id, u), id) == RemoveEntry(es, id)
  {
    if |es| > 0 {
      UpdateThenRemove(es[1..], id, u);
      assert UpdateEntry(es, id, u)[1..] == UpdateEntry(es[1..], id, u);
    }
  }

  // ---------------------------------------------------------------------
  // Submission
  // ---------------------------------------------------------------------

  /** Entries kept on submit: a positive value or a bank-order reference. */
  function Meaningful(e: PaymentEntry): bool {
    e.valor > 0.0 || e.referencia_ob != ""
  }

  /** `handleSubmit`: nothing when the selected id names no contract;
      otherwise the record with the contract's number, the form's fields,
      the meaningful entries of each list, and the id and registration date
      of the record being edited, falling back to a fresh id and the current
      time. */
  function Submit(st: FormState, cs: seq<Contract>, initialData: Option<PaymentRecord>, newId: string, nowIso: string)
    : (r: Option<PaymentRecord>)
    ensures r.None? <==> forall i :: 0 <= i < |cs| ==> cs[i].id != st.selectedContractId
    ensures r.Some? ==> r.value.numero_contrato == ContractById(cs, st.selectedContractId).value.numero_contrato
    ensures r.Some? ==> (r.value.pagamentos_fed == Filter(st.fedEntries, Meaningful)
      && r.value.pagamentos_est == Filter(st.estEntries, Meaningful))
    ensures r.Some? ==> (r.value.numero_nf == st.numeroNf && r.value.valor_nfe == st.valorNfe
      && r.value.mes_competencia == st.mes && r.value.ano_competencia == st.ano)
    ensures r.Some? && initialData.Some? && initialData.value.id != "" ==> r.value.id == initialData.value.id
    ensures r.Some? && (initialData.None? || initialData.value.id == "") ==> r.value.id == newId
    ensures r.Some? && initialData.Some? && initialData.value.data_cadastro != "" ==>
      r.value.data_cadastro == initialData.value.data_cadastro
    ensures r.Some? && (initialData.None? || initialData.value.data_cadastro == "") ==>
      r.value.data_cadastro == nowIso
  {
    match ContractById(cs, st.selectedContractId)
    case None => None
    case Some(c) =>
      var id := match initialData case Some(d) => OrStr(Some(d.id), newId) case None => newId;
      var stamp := match initialData case Some(d) => OrStr(Some(d.data_cadastro), nowIso) case None => nowIso;
      Some(PaymentRecord(id, c.numero_contrato, st.numeroNf, st.valorNfe,
        Filter(st.fedEntries, Meaningful), Filter(st.estEntries, Meaningful), st.mes, st.ano, stamp))
  }

  /** Submission keeps every meaningful entry and only those, in order. */
  lemma SubmitKeepsMeaningful(st: FormState, cs: seq<Contract>, initialData: Option<PaymentRecord>, newId: string, nowIso: string)
    requires Submit(st, cs, initialData, newId, nowIso).Some?
    ensures var r := Submit(st, cs, initialData, newId, nowIso).value;
      && Subseq(r.pagamentos_fed, st.fedEntries) && Subseq(r.pagamentos_est, st.estEntries)
      && (forall i :: 0 <= i < |st.fedEntries| ==> (st.fedEntries[i] in r.pagamentos_fed <== Meaningful(st.fedEntries[i])))
      && (forall i :: 0 <= i < |r.pagamentos_fed| ==> Meaningful(r.pagamentos_fed[i]))
      && (forall i :: 0 <= i < |st.estEntries| ==> (st.estEntries[i] in r.pagamentos_est <== Meaningful(st.estEntries[i])))
      && (forall i :: 0 <= i < |r.pagamentos_est| ==> Meaningful(r.pagamentos_est[i]))
      && |r.pagamentos_fed| == Count(st.fedEntries, Meaningful)
      && |r.pagamentos_est| == Count(st.estEntries, Meaningful)
  {
    FilterIsSubseq(st.fedEntries, Meaningful);
    FilterIsSubseq(st.estEntries, Meaningful);
  }

  /** Opening a stored record for editing and submitting it untouched gives
      the record back, when its contract is listed under a unique id and its
      entries are all meaningful. */
  lemma EditRoundTrip(cs: seq<Contract>, data: PaymentRecord, initialContract: Option<Contract>,
    nowMonth: int, nowYear: int, fedId: string, estId: string, today: string, newId: string, nowIso: string)
    requires ContractByNumber(cs, data.numero_contrato).Some?
    requires forall i, j :: 0 <= i < |cs| && 0 <= j < |cs| && cs[i].id == cs[j].id ==> i == j
    requires data.id != "" && data.data_cadastro != ""
    requires forall i :: 0 <= i < |data.pagamentos_fed| ==> Meaningful(data.pagamentos_fed[i])
    requires forall i :: 0 <= i < |data.pagamentos_est| ==> Meaningful(data.pagamentos_est[i])
    ensures var st := LoadInitialData(InitialForm(initialContract, nowMonth, nowYear, fedId, estId, today), cs, data);
      Submit(st, cs, Some(data), newId, nowIso) == Some(data)
  {
    var st0 := InitialForm(initialContract, nowMonth, nowYear, fedId, estId, today);
    var st := LoadInitialData(st0, cs, data);
    var c := ContractByNumber(cs, data.numero_contrato).value;
    var k :| 0 <= k < |cs| && cs[k] == c;
    UniqueIdFinds(cs, k);
    LoadedEntriesComeBack(data.pagamentos_fed, fedId, today);
    LoadedEntriesComeBack(data.pagamentos_est, estId, today);
    assert st.selectedContractId == c.id;
    assert Filter(st.fedEntries, Meaningful) == data.pagamentos_fed;
    assert Filter(st.estEntries, Meaningful) == data.pagamentos_est;
    var r := Submit(st, cs, Some(data), newId, nowIso);
    assert r.Some?;
    var v := r.value;
    assert v.id == data.id && v.data_cadastro == data.data_cadastro;
    assert v.numero_contrato == data.numero_contrato;
    assert v.pagamentos_fed == data.pagamentos_fed && v.pagamentos_est == data.pagamentos_est;
    assert v.numero_nf == data.numero_nf && v.valor_nfe == data.valor_nfe;
    assert v.mes_competencia == data.mes_competencia && v.ano_competencia == data.ano_competencia;
  }

  lemma UniqueIdFinds(cs: seq<Contract>, k: nat)
    requires k < |cs|
    requires forall i, j :: 0 <= i < |cs| && 0 <= j < |cs| && cs[i].id == cs[j].id ==> i == j
    ensures ContractById(cs, cs[k].id) == Some(cs[k])
  {
    var found := ContractById(cs, cs[k].id).value;
    var j :| 0 <= j < |cs| && cs[j] == found;
  }

  /** What the load leaves in a list, filtered on submit, is the stored
      list: either the stored entries, all meaningful, or the lone empty
      entry, which is not. */
  lemma LoadedEntriesComeBack(stored: seq<PaymentEntry>, id: string, today: string)
    requires forall i :: 0 <= i < |stored| ==> Meaningful(stored[i])
    ensures Filter(if |stored| > 0 then stored else [EmptyEntry(id, today)], Meaningful) == stored
  {
    if |stored| > 0 {
      FilterAll(stored, Meaningful);
    } else {
      assert [EmptyEntry(id, today)][1..] == [];
    }
  }
}
