/** The value amendment form: its fields, the sign rule that ties the value
    to the kind chosen, the reading of typed money, the zero check on submit
    and the preview of the new contract value. */
module ValueAmendmentForm {
  import opened Wrappers
  import opened Types
  import opened Collections
  import opened JsText
  import opened JsNumber
  import Contracts
  import Amendments

  /** The four kinds the form's select offers. */
  const Addition: string := "Aditivo"
  const Suppression: string := "Supressão"
  const Readjustment: string := "Reajuste"
  const Renegotiation: string := "Repactuação"

  predicate Selectable(t: string) {
    t == Addition || t == Suppression || t == Readjustment || t == Renegotiation
  }

  datatype ValueFormData = ValueFormData(
    amendment_type: string,
    amendment_value: Num,
    percentage_applied: Option<real>,
    index_used: string,
    reference_period: string,
    justification: string,
    description: string,
    legal_basis: string)

  /** The form as it opens: an addition of 0 with empty texts. */
  function InitialForm(): (f: ValueFormData)
    ensures Selectable(f.amendment_type) && f.amendment_value == Finite(0.0)
  {
    ValueFormData(Addition, Finite(0.0), None, "", "", "", "", "")
  }

  /** One field of the form and its new value. */
  datatype FormEdit =
    | SetType(t: string)
    | SetValue(v: Num)
    | SetPercentage(p: Option<real>)
    | SetIndex(s: string)
    | SetReferencePeriod(s: string)
    | SetJustification(s: string)
    | SetDescription(s: string)
    | SetLegalBasis(s: string)

  /** `handleInputChange`: the named field takes the value; no other field
      changes. */
  function HandleInputChange(f: ValueFormData, e: FormEdit): (r: ValueFormData)
    ensures e.SetType? ==> r == f.(amendment_type := e.t)
    ensures e.SetValue? ==> r == f.(amendment_value := e.v)
    ensures !e.SetType? ==> r.amendment_type == f.amendment_type
    ensures !e.SetValue? ==> r.amendment_value == f.amendment_value
    ensures !e.SetPercentage? ==> r.percentage_applied == f.percentage_applied
    ensures !e.SetIndex? ==> r.index_used == f.index_used
    ensures !e.SetReferencePeriod? ==> r.reference_period == f.reference_period
    ensures !e.SetJustification? ==> r.justification == f.justification
    ensures !e.SetDescription? ==> r.description == f.description
    ensures !e.SetLegalBasis? ==> r.legal_basis == f.legal_basis
  {
    match e
    case SetType(t) => f.(amendment_type := t)
    case SetValue(v) => f.(amendment_value := v)
    case SetPercentage(p) => f.(percentage_applied := p)
    case SetIndex(s) => f.(index_used := s)
    case SetReferencePeriod(s) => f.(reference_period := s)
    case SetJustification(s) => f.(justification := s)
    case SetDescription(s) => f.(description := s)
    case SetLegalBasis(s) => f.(legal_basis := s)
  }

  /** The sign rule: a suppression is not positive and every other kind is
      not negative. A value that is not finite is left out of the rule. */
  predicate SignAgrees(f: ValueFormData) {
    f.amendment_value.Finite? ==>
      (if f.amendment_type == Suppression then f.amendment_value.v <= 0.0 else f.amendment_value.v >= 0.0)
  }

  /** `handleAmendmentTypeChange`: the kind changes, and a non-zero value
      takes the sign of the new kind. */
  function HandleAmendmentTypeChange(f: ValueFormData, t: string): (r: ValueFormData)
    ensures r.amendment_type == t
    ensures f.amendment_value == Finite(0.0) ==> r.amendment_value == f.amendment_value
    ensures f.amendment_value.Finite? ==> (r.amendment_value.Finite?
      && (r.amendment_value.v == f.amendment_value.v || r.amendment_value.v == -f.amendment_value.v))
    ensures r.(amendment_type := f.amendment_type, amendment_value := f.amendment_value) == f
  {
    var g := HandleInputChange(f, SetType(t));
    if f.amendment_value != Finite(0.0) then
      var a := Abs(f.amendment_value);
      HandleInputChange(g, SetValue(if t == Suppression then Neg(a) else a))
    else g
  }

  /** Choosing a kind always leaves the value with that kind's sign. */
  lemma TypeChangeSetsSign(f: ValueFormData, t: string)
    ensures SignAgrees(HandleAmendmentTypeChange(f, t))
  {
  }

  /** The money typed: its digits read as cents, or `NaN` when it has none.
      The currency rendering the field shows in between is read back to the
      same amount and is not modelled. */
  function TypedValue(input: string): (r: Num)
    ensures r.NaN? <==> forall i :: 0 <= i < |input| ==> !IsDigit(input[i])
    ensures r.Finite? ==> r.v >= 0.0
    ensures !r.PosInf? && !r.NegInf?
  {
    var digits := KeepOnly(input, IsDigit);
    if digits == "" then
      NaN
    else
      assert AllDigits(digits);
      Finite(DigitsValue(digits) as real / 100.0)
  }

  /** Typing the digits of a number of cents gives that amount. */
  lemma TypedCents(n: nat)
    ensures TypedValue(NatToString(n)) == Finite(n as real / 100.0)
  {
    KeepOnlyAll(NatToString(n), IsDigit);
    NatToStringValue(n);
  }

  /** `handleValueChange` as the form has it: the value is negated only when
      the kind is `suppression`, a code the form's select never produces. */
  function HandleValueChangeAsWritten(f: ValueFormData, input: string): (r: ValueFormData)
    ensures Selectable(f.amendment_type) ==> r == f.(amendment_value := TypedValue(input))
  {
    var x := TypedValue(input);
    HandleInputChange(f, SetValue(if f.amendment_type == "suppression" then Neg(Abs(x)) else x))
  }

  /** Choosing "Supressão" and then typing 500 leaves a positive
      suppression: the typed value breaks the sign rule the select keeps. */
  lemma AsWrittenSuppressionStaysPositive()
    ensures var f := HandleAmendmentTypeChange(InitialForm(), Suppression);
      var r := HandleValueChangeAsWritten(f, "500");
      r.amendment_value == Finite(5.0) && !SignAgrees(r)
  {
    var f := HandleAmendmentTypeChange(InitialForm(), Suppression);
    assert f.amendment_type == Suppression;
    TypedFiveHundred();
  }

  lemma TypedFiveHundred()
    ensures TypedValue("500") == Finite(5.0)
  {
    assert KeepOnly("500", IsDigit) == "500" by {
      KeepOnlyAll("500", IsDigit);
    }
    assert DigitsValue("500") == 500 by {
      assert "500"[..2] == "50" && "50"[..1] == "5" && "5"[..0] == "";
    }
  }

  /** `handleValueChange` comparing with the kind the select produces: a
      typed suppression is negated. */
  function HandleValueChange(f: ValueFormData, input: string): (r: ValueFormData)
    ensures r.amendment_type == f.amendment_type
    ensures r.amendment_value.Finite? <==> TypedValue(input).Finite?
    ensures r.amendment_value.Finite? ==>
      (r.amendment_value.v == TypedValue(input).v || r.amendment_value.v == -TypedValue(input).v)
  {
    HandleInputChange(f, SetValue(SignedFor(f.amendment_type, TypedValue(input))))
  }

  /** An amount with the sign of kind `t`. */
  function SignedFor(t: string, x: Num): Num {
    if t == Suppression then Neg(Abs(x)) else x
  }

  /** Typing keeps the sign rule whatever the kind chosen. */
  lemma ValueChangeKeepsSign(f: ValueFormData, input: string)
    ensures SignAgrees(HandleValueChange(f, input))
  {
  }

  /** With the comparison on the select's kind, choosing the kind and typing
      the amount give the same form in either order. */
  lemma TypeAndValueCommute(f: ValueFormData, t: string, input: string)
    requires TypedValue(input).Finite?
    ensures HandleValueChange(HandleAmendmentTypeChange(f, t), input)
      == HandleAmendmentTypeChange(HandleValueChange(f, input), t)
  {
    var x := TypedValue(input);
    TypeThenValue(f, t, x);
    ValueThenType(f, t, x);
  }

  lemma TypeThenValue(f: ValueFormData, t: string, x: Num)
    requires x.Finite? && x.v >= 0.0
    ensures HandleInputChange(HandleAmendmentTypeChange(f, t), SetValue(SignedFor(t, x)))
      == f.(amendment_type := t, amendment_value := SignedFor(t, x))
  {
  }

  lemma ValueThenType(f: ValueFormData, t: string, x: Num)
    requires x.Finite? && x.v >= 0.0
    ensures HandleAmendmentTypeChange(HandleInputChange(f, SetValue(SignedFor(f.amendment_type, x))), t)
      == f.(amendment_type := t, amendment_value := SignedFor(t, x))
  {
    if x.v == 0.0 {
      assert SignedFor(f.amendment_type, x) == Finite(0.0) == SignedFor(t, x);
    }
  }

  // ---------------------------------------------------------------------
  // Submission and preview
  // ---------------------------------------------------------------------

  const ZeroValue: string := "O valor da alteração deve ser diferente de zero."

  /** `handleSubmit`: a value of exactly 0 is refused; anything else, `NaN`
      included, is sent. */
  function Submit(f: ValueFormData): (r: Result<ValueFormData>)
    ensures r.Err? <==> f.amendment_value == Finite(0.0)
    ensures r.Ok? ==> r.value == f
  {
    if f.amendment_value == Finite(0.0) then Err(Invalid(ZeroValue))
    else Ok(f)
  }

  /** What the form hands to `createValueAmendment` for a finite value. */
  function ServiceInput(f: ValueFormData): (r: Amendments.ValueAmendmentInput)
    requires f.amendment_value.Finite?
    ensures r.amendment_type == f.amendment_type && r.amendment_value == f.amendment_value.v
    ensures r.justification == f.justification && r.percentage_applied == f.percentage_applied
  {
    Amendments.ValueAmendmentInput(f.amendment_type, f.amendment_value.v, f.percentage_applied,
      Some(f.index_used), Some(f.reference_period), f.justification, Some(f.description), Some(f.legal_basis))
  }

  /** `calculateNewValue`: the value in force, from the loaded projection or
      else the value passed in, plus the amendment. */
  function CalculateNewValue(contractData: Option<ContractWithCurrentInfo>, currentValue: real, f: ValueFormData)
    : (r: Num)
    ensures f.amendment_value.Finite? ==> r.Finite?
    ensures f.amendment_value.Finite? && contractData.Some? ==>
      r.v == contractData.value.total_value + contractData.value.total_amendments_value + f.amendment_value.v
    ensures f.amendment_value.Finite? && contractData.None? ==> r.v == currentValue + f.amendment_value.v
  {
    var base := match contractData
      case Some(c) => c.total_value + c.total_amendments_value
      case None => currentValue;
    AddTo(base, f.amendment_value)
  }

  /** The preview is what the contract is worth once the amendment is
      filed: the projection after `createValueAmendment` shows the previewed
      total, for a contract whose stored id is the one the form was opened
      with. */
  lemma PreviewIsNextTotal(st: Store, contractId: string, f: ValueFormData, currentValue: real,
    userId: string, now: string, newId: string, periodsLookupFails: bool)
    requires Contracts.GetContractById(st.contracts, contractId).Some?
    requires Contracts.GetContractById(st.contracts, contractId).value.id == contractId
    requires f.amendment_value.Finite?
    ensures var before := Amendments.GetContractWithCurrentInfo(st, contractId, periodsLookupFails);
      var after := Amendments.CreateValueAmendment(st, contractId, ServiceInput(f), userId, now, newId).value.0;
      var next := Amendments.GetContractWithCurrentInfo(after, contractId, periodsLookupFails).value;
      var preview := CalculateNewValue(Some(before.value), currentValue, f);
      preview.Finite? && preview.v == next.total_value + next.total_amendments_value
  {
    FiledValueRaisesSum(st, contractId, ServiceInput(f), userId, now, newId, periodsLookupFails);
  }

  /** Filing a value amendment raises the projection's base value plus
      amendments total by the amount filed. */
  lemma FiledValueRaisesSum(st: Store, contractId: string, input: Amendments.ValueAmendmentInput,
    userId: string, now: string, newId: string, periodsLookupFails: bool)
    requires Contracts.GetContractById(st.contracts, contractId).Some?
    requires Contracts.GetContractById(st.contracts, contractId).value.id == contractId
    ensures var before := Amendments.GetContractWithCurrentInfo(st, contractId, periodsLookupFails).value;
      var after := Amendments.CreateValueAmendment(st, contractId, input, userId, now, newId).value.0;
      var next := Amendments.GetContractWithCurrentInfo(after, contractId, periodsLookupFails).value;
      next.total_value + next.total_amendments_value
        == before.total_value + before.total_amendments_value + input.amendment_value
  {
    Amendments.ValueAmendmentRaisesTotal(st, contractId, input, userId, now, newId, periodsLookupFails);
  }
}
