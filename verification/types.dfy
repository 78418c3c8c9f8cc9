/** The records the application keeps in its document store, and the
    enumerations they use. Optional fields become `Option`; a string field
    that the source tests for truthiness keeps `""` as its falsy value.
    Creation and update timestamps are not modelled. */
module Types {
  import opened Wrappers

  // ---------------------------------------------------------------------
  // JavaScript `||` fallbacks on stored fields
  // ---------------------------------------------------------------------

  /** `a || b` for an optional number: `b` when `a` is absent or zero. */
  function OrNum(a: Option<real>, b: real): (r: real)
    ensures r == b || (a.Some? && r == a.value && r != 0.0)
    ensures r == 0.0 ==> b == 0.0
  {
    if a.Some? && a.value != 0.0 then a.value else b
  }

  /** `a || b` for an optional string: `b` when `a` is absent or empty. */
  function OrStr(a: Option<string>, b: string): (r: string)
    ensures r == b || (a.Some? && r == a.value && r != "")
    ensures r == "" ==> b == ""
  {
    if a.Some? && a.value != "" then a.value else b
  }

  // ---------------------------------------------------------------------
  // Contracts
  // ---------------------------------------------------------------------

  /** A service contract. `id` is the stored `id` field, `""` when absent;
      `fim_vigencia` and `valor_original` are optional. The list of linked
      commitment notes is not modelled. */
  datatype Contract = Contract(
    id: string,
    cnpj: string,
    empresa: string,
    numero_contrato: string,
    id_contrato: string,
    numero_processo: string,
    natureza: string,
    objeto: string,
    valor_global_anul: real,
    inicio_vigencia: string,
    fim_vigencia: Option<string>,
    valor_original: Option<real>)
  {
    /** `valor_original || valor_global_anul`: the value before amendments. */
    function BaseValue(): (r: real)
      ensures r == valor_global_anul || (valor_original.Some? && r == valor_original.value)
      ensures r == 0.0 ==> valor_global_anul == 0.0
    {
      OrNum(valor_original, valor_global_anul)
    }

    /** `fim_vigencia || inicio_vigencia`: the end of the original term. */
    function EndOrStart(): (r: string)
      ensures r == inicio_vigencia || (fim_vigencia.Some? && r == fim_vigencia.value)
      ensures r == "" ==> inicio_vigencia == ""
    {
      OrStr(fim_vigencia, inicio_vigencia)
    }
  }

  /** A stored contract document: the document id and the stored data. */
  datatype ContractDoc = ContractDoc(docId: string, data: Contract)

  // ---------------------------------------------------------------------
  // Payments
  // ---------------------------------------------------------------------

  /** One bank order (OB) paying part of an invoice from one funding source. */
  datatype PaymentEntry = PaymentEntry(
    id: string,
    valor: real,
    referencia_ob: string,
    data_ob: string,
    numero_empenho: string)

  /** A monthly invoice with its federal and state bank orders, which are
      two independent lists. */
  datatype PaymentRecord = PaymentRecord(
    id: string,
    numero_contrato: string,
    numero_nf: string,
    valor_nfe: real,
    pagamentos_fed: seq<PaymentEntry>,
    pagamentos_est: seq<PaymentEntry>,
    mes_competencia: int,
    ano_competencia: int,
    data_cadastro: string)

  // ---------------------------------------------------------------------
  // Amendments and periods
  // ---------------------------------------------------------------------

  /** The six amendment kinds. */
  datatype AmendmentType =
    | Extension | EarlyTermination | Addition | Suppression | Readjustment | Renegotiation
  {
    /** The stored code of the kind. */
    function Code(): (s: string)
      ensures |s| > 0
    {
      match this
      case Extension => "extension"
      case EarlyTermination => "early_termination"
      case Addition => "addition"
      case Suppression => "suppression"
      case Readjustment => "readjustment"
      case Renegotiation => "renegotiation"
    }

    /** Extension and early termination change the term; the other four the value. */
    function Category(): AmendmentCategory {
      if this == Extension || this == EarlyTermination then Tenure else Value
    }
  }

  /** Distinct kinds have distinct codes. */
  lemma AmendmentCodeInjective(a: AmendmentType, b: AmendmentType)
    ensures a.Code() == b.Code() <==> a == b
  {
  }

  /** Reading a stored code back. */
  function AmendmentTypeOf(code: string): (r: Option<AmendmentType>)
    ensures r.Some? ==> r.value.Code() == code
    ensures forall t: AmendmentType :: t.Code() == code ==> r == Some(t)
  {
    if code == "extension" then Some(Extension)
    else if code == "early_termination" then Some(EarlyTermination)
    else if code == "addition" then Some(Addition)
    else if code == "suppression" then Some(Suppression)
    else if code == "readjustment" then Some(Readjustment)
    else if code == "renegotiation" then Some(Renegotiation)
    else None
  }

  datatype AmendmentCategory = Tenure | Value

  /** Period 1 is the original term; 2 and above are extensions. */
  datatype PeriodType = OriginalPeriod | ExtensionPeriod

  datatype PeriodStatus = Active | Completed | Cancelled

  /** An amendment. `amendment_type` keeps the text the caller supplied (the
      value form submits display labels such as `Aditivo`, not codes).
      Tenure amendments fill the date fields, value amendments the value
      fields. `id` is the document id. */
  datatype ContractAmendment = ContractAmendment(
    id: string,
    contract_id: string,
    category: AmendmentCategory,
    amendment_type: string,
    amendment_date: string,
    is_active: bool,
    previous_start_date: Option<string>,
    previous_end_date: Option<string>,
    new_start_date: Option<string>,
    new_end_date: Option<string>,
    previous_value: Option<real>,
    amendment_value: Option<real>,
    percentage_applied: Option<real>,
    index_used: Option<string>,
    reference_period: Option<string>,
    description: Option<string>,
    justification: string,
    legal_basis: string,
    amended_by: string)
  {
    predicate IsTenure() {
      category == Tenure
    }

    /** Its delta in the value sums: `amendment_value || 0`. */
    function ValueDelta(): (r: real)
      ensures amendment_value.None? ==> r == 0.0
      ensures amendment_value.Some? ==> r == amendment_value.value
    {
      OrNum(amendment_value, 0.0)
    }

    /** Shape of a tenure amendment: dates present, value fields absent. */
    predicate TenureShaped() {
      && category == Tenure
      && previous_start_date.Some? && previous_end_date.Some?
      && new_start_date.Some? && new_end_date.Some?
      && previous_value.None? && amendment_value.None? && percentage_applied.None?
      && index_used.None? && reference_period.None? && description.None?
    }

    /** Shape of a value amendment: value present, date fields absent. */
    predicate ValueShaped() {
      && category == Value
      && previous_value.Some? && amendment_value.Some?
      && previous_start_date.None? && previous_end_date.None?
      && new_start_date.None? && new_end_date.None?
    }
  }

  /** One term of a contract: the original or an extension. */
  datatype ContractPeriod = ContractPeriod(
    id: string,
    contract_id: string,
    period_number: int,
    period_type: PeriodType,
    start_date: string,
    end_date: string,
    period_status: PeriodStatus,
    available_value: real,
    paid_value: real,
    remaining_value: real,
    execution_percentage: real,
    total_installments: int,
    paid_installments: int,
    justification: Option<string>)

  /** A contract as shown with its amendments applied: the base value, the
      active value amendments' total, the current term and the number of
      amendments. Alias fields that repeat others under a second name are
      not modelled. */
  datatype ContractWithCurrentInfo = ContractWithCurrentInfo(
    id: string,
    contract_number: string,
    contractor_name: string,
    cnpj: string,
    numero_processo: string,
    objeto: string,
    total_value: real,
    valor_global_anul: real,
    total_amendments_value: real,
    current_start_date: string,
    current_end_date: string,
    inicio_vigencia: string,
    fim_vigencia: Option<string>,
    total_amendments: nat)

  /** The document store: the contract, amendment, period and payment
      collections in store order. */
  datatype Store = Store(
    contracts: seq<ContractDoc>,
    amendments: seq<ContractAmendment>,
    periods: seq<ContractPeriod>,
    payments: seq<PaymentRecord>)
}
