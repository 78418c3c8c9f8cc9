/** The tenure amendment form: its fields, and the check on submit that an
    extension moves the end of the term later and an early termination moves
    it earlier. */
module TenureAmendmentForm {
  import opened Wrappers
  import opened Types
  import Amendments

  /** The form's fields. The kind comes from a select offering only the two
      tenure kinds. */
  datatype TenureFormData = TenureFormData(
    amendment_type: Amendments.TenureType,
    new_start_date: string,
    new_end_date: string,
    justification: string,
    legal_basis: string)

  /** The form as it opens: an extension whose new term is the current one. */
  function InitialForm(currentStartDate: string, currentEndDate: string): (f: TenureFormData)
    ensures f.amendment_type == Extension
    ensures f.new_start_date == currentStartDate && f.new_end_date == currentEndDate
    ensures f.justification == "" && f.legal_basis == ""
  {
    TenureFormData(Extension, currentStartDate, currentEndDate, "", "")
  }

  /** One field of the form and its new value. */
  datatype FormEdit =
    | SetType(t: Amendments.TenureType)
    | SetStartDate(s: string)
    | SetEndDate(s: string)
    | SetJustification(s: string)
    | SetLegalBasis(s: string)

  /** `handleInputChange`: the named field takes the value; no other field
      changes. */
  function HandleInputChange(f: TenureFormData, e: FormEdit): (r: TenureFormData)
    ensures e.SetType? ==> r.amendment_type == e.t
    ensures e.SetStartDate? ==> r.new_start_date == e.s
    ensures e.SetEndDate? ==> r.new_end_date == e.s
    ensures e.SetJustification? ==> r.justification == e.s
    ensures e.SetLegalBasis? ==> r.legal_basis == e.s
    ensures !e.SetType? ==> r.amendment_type == f.amendment_type
    ensures !e.SetStartDate? ==> r.new_start_date == f.new_start_date
    ensures !e.SetEndDate? ==> r.new_end_date == f.new_end_date
    ensures !e.SetJustification? ==> r.justification == f.justification
    ensures !e.SetLegalBasis? ==> r.legal_basis == f.legal_basis
  {
    match e
    case SetType(t) => f.(amendment_type := t)
    case SetStartDate(s) => f.(new_start_date := s)
    case SetEndDate(s) => f.(new_end_date := s)
    case SetJustification(s) => f.(justification := s)
    case SetLegalBasis(s) => f.(legal_basis := s)
  }

  /** The platform's date parser: the time of a date text, or `None` for an
      invalid date, whose time is `NaN`. */
  type DateParser = string -> Option<int>

  /** `<=` between two parsed dates: false when either is invalid, as every
      comparison with `NaN` is. */
  predicate TimeAtMost(a: Option<int>, b: Option<int>) {
    a.Some? && b.Some? && a.value <= b.value
  }

  /** `>=` between two parsed dates, false on an invalid one. */
  predicate TimeAtLeast(a: Option<int>, b: Option<int>) {
    a.Some? && b.Some? && a.value >= b.value
  }

  const ExtensionNotLater: string :=
    "Para prorrogação, a nova data de fim deve ser posterior à atual."
  const TerminationNotEarlier: string :=
    "Para encerramento antecipado, a nova data de fim deve ser anterior à atual."

  /** `handleSubmit`: an extension whose new end is not after the current end
      is refused, and so is an early termination whose new end is not before
      it; the new start is not looked at. What passes is the form as it
      stands. */
  function Submit(f: TenureFormData, currentEndDate: string, timeOf: DateParser): (r: Result<TenureFormData>)
    ensures r.Ok? ==> r.value == f
    ensures f.amendment_type == Extension ==>
      (r.Err? <==> TimeAtMost(timeOf(f.new_end_date), timeOf(currentEndDate)))
    ensures f.amendment_type == EarlyTermination ==>
      (r.Err? <==> TimeAtLeast(timeOf(f.new_end_date), timeOf(currentEndDate)))
  {
    var newEnd, curEnd := timeOf(f.new_end_date), timeOf(currentEndDate);
    if f.amendment_type == Extension && TimeAtMost(newEnd, curEnd) then
      Err(Invalid(ExtensionNotLater))
    else if f.amendment_type == EarlyTermination && TimeAtLeast(newEnd, curEnd) then
      Err(Invalid(TerminationNotEarlier))
    else
      Ok(f)
  }

  /** The form as it opens cannot be submitted: its new end is the current
      end, which does not extend the term. */
  lemma UntouchedFormRefused(currentStartDate: string, currentEndDate: string, timeOf: DateParser)
    requires timeOf(currentEndDate).Some?
    ensures Submit(InitialForm(currentStartDate, currentEndDate), currentEndDate, timeOf).Err?
  {
  }

  /** Between two valid dates, an accepted extension ends strictly later and
      an accepted early termination strictly earlier than the current term. */
  lemma AcceptedMovesEnd(f: TenureFormData, currentEndDate: string, timeOf: DateParser)
    requires timeOf(f.new_end_date).Some? && timeOf(currentEndDate).Some?
    requires Submit(f, currentEndDate, timeOf).Ok?
    ensures f.amendment_type == Extension ==> timeOf(f.new_end_date).value > timeOf(currentEndDate).value
    ensures f.amendment_type == EarlyTermination ==> timeOf(f.new_end_date).value < timeOf(currentEndDate).value
  {
  }

  /** An end date the parser rejects passes either check, as both
      comparisons with an invalid date are false. */
  lemma InvalidEndPasses(f: TenureFormData, currentEndDate: string, timeOf: DateParser)
    requires timeOf(f.new_end_date).None?
    ensures Submit(f, currentEndDate, timeOf) == Ok(f)
  {
  }

  /** Editing the new start date never changes whether the form goes
      through. */
  lemma StartDateIgnored(f: TenureFormData, s: string, currentEndDate: string, timeOf: DateParser)
    ensures Submit(HandleInputChange(f, SetStartDate(s)), currentEndDate, timeOf).Ok?
      <==> Submit(f, currentEndDate, timeOf).Ok?
  {
  }

  /** With both ends valid and different, exactly one of the two kinds is
      accepted; with the same end, neither is. */
  lemma OneKindFits(f: TenureFormData, currentEndDate: string, timeOf: DateParser)
    requires timeOf(f.new_end_date).Some? && timeOf(currentEndDate).Some?
    ensures var ext := Submit(HandleInputChange(f, SetType(Extension)), currentEndDate, timeOf);
      var early := Submit(HandleInputChange(f, SetType(EarlyTermination)), currentEndDate, timeOf);
      if timeOf(f.new_end_date) == timeOf(currentEndDate) then ext.Err? && early.Err?
      else ext.Ok? != early.Ok?
  {
  }

  /** What the form hands to `createTenureAmendment`. */
  function ServiceInput(f: TenureFormData): (r: Amendments.TenureAmendmentInput)
    ensures r.amendment_type == f.amendment_type
    ensures r.new_start_date == f.new_start_date && r.new_end_date == f.new_end_date
    ensures r.justification == f.justification && r.legal_basis == Some(f.legal_basis)
  {
    Amendments.TenureAmendmentInput(f.amendment_type, f.new_start_date, f.new_end_date,
      f.justification, Some(f.legal_basis))
  }
}
