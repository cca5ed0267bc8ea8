/*
  The admin opportunity form: the rewrite applied to the values on submit, and the
  "type in the text id first" gate of a new opportunity.

  On submit, a bank-loan-portfolio opportunity has its reference rate forced: the type
  follows the primary currency (EURIBOR for euro, PRIBOR otherwise) and the rate id is
  cleared. Every other value is passed on as it is.

  A form opened on an existing opportunity is an edit form and shows all its sections
  at once. A new opportunity first asks for its text id; Get Started validates that one
  field and shows the full form only when it passes, otherwise it records the error.
*/
module OpportunityForm {
  import opened Wrappers
  import opened OpportunityFormUtils

  // ---------------------------------------------------------------------
  // Constants of other modules
  // ---------------------------------------------------------------------

  const BankLoanPortfolio: string := "BANK_LOAN_PORTFOLIO"
  const Euribor1M: string := "EURIBOR_1M"
  const Pribor1M: string := "PRIBOR_1M"

  // ---------------------------------------------------------------------
  // The submit rewrite
  // ---------------------------------------------------------------------

  /** `R.evolve(transformations, record)`: each property of `record` that has a
      transformation is replaced by its image, the others are copied; a transformation
      for a property `record` lacks adds nothing. */
  function Evolve(transformations: map<Field, Value -> Value>, record: map<Field, Value>): (r: map<Field, Value>)
    ensures r.Keys == record.Keys
    ensures forall k :: k in record && k !in transformations ==> r[k] == record[k]
  {
    map k | k in record :: if k in transformations then transformations[k](record[k]) else record[k]
  }

  /** `values.type === OPPORTUNITY_TYPE.BANK_LOAN_PORTFOLIO`. */
  predicate IsBankLoanPortfolio(values: map<Field, Value>) {
    Type in values && values[Type] == Str(BankLoanPortfolio)
  }

  /** The reference rate type a bank loan portfolio is forced to. */
  function ForcedReferenceRateType(values: map<Field, Value>, primaryCurrency: map<Field, Value> -> Value): Value {
    if primaryCurrency(values) == Str(EUR) then Str(Euribor1M) else Str(Pribor1M)
  }

  /** The transformations `onSubmit` hands to `R.evolve`; `primaryCurrency` is
      `getOpportunityPrimaryCurrency`. */
  function SubmitTransformations(values: map<Field, Value>, primaryCurrency: map<Field, Value> -> Value)
    : (r: map<Field, Value -> Value>)
    ensures r.Keys == {ReferenceRateType, ReferenceRateId}
  {
    map[
      ReferenceRateType := (value: Value) =>
        if IsBankLoanPortfolio(values) then ForcedReferenceRateType(values, primaryCurrency) else value,
      ReferenceRateId := (value: Value) =>
        if IsBankLoanPortfolio(values) then Null else value
    ]
  }

  /** The values `onSubmit` passes on to the caller. */
  function NormalizeSubmit(values: map<Field, Value>, primaryCurrency: map<Field, Value> -> Value)
    : (r: map<Field, Value>)
    ensures r.Keys == values.Keys
  {
    Evolve(SubmitTransformations(values, primaryCurrency), values)
  }

  /** The rewrite keeps the set of fields and every field but the two reference-rate ones. */
  lemma SubmitTouchesOnlyReferenceRate(values: map<Field, Value>, primaryCurrency: map<Field, Value> -> Value)
    ensures NormalizeSubmit(values, primaryCurrency).Keys == values.Keys
    ensures forall k :: k in values && k != ReferenceRateType && k != ReferenceRateId ==>
      NormalizeSubmit(values, primaryCurrency)[k] == values[k]
  {
  }

  /** A bank loan portfolio gets the reference rate of its primary currency and no rate id. */
  lemma BankLoanPortfolioRateIsForced(values: map<Field, Value>, primaryCurrency: map<Field, Value> -> Value)
    requires IsBankLoanPortfolio(values)
    ensures ReferenceRateType in values ==>
      NormalizeSubmit(values, primaryCurrency)[ReferenceRateType] ==
        if primaryCurrency(values) == Str(EUR) then Str(Euribor1M) else Str(Pribor1M)
    ensures ReferenceRateId in values ==> NormalizeSubmit(values, primaryCurrency)[ReferenceRateId] == Null
  {
  }

  /** Any other opportunity is submitted exactly as entered. */
  lemma OtherTypesSubmittedAsEntered(values: map<Field, Value>, primaryCurrency: map<Field, Value> -> Value)
    requires !IsBankLoanPortfolio(values)
    ensures NormalizeSubmit(values, primaryCurrency) == values
  {
  }

  /** Rewriting already rewritten values changes nothing more, as long as the primary
      currency is read from fields the rewrite does not touch. */
  lemma NormalizeSubmitIdempotent(values: map<Field, Value>, primaryCurrency: map<Field, Value> -> Value)
    requires primaryCurrency(NormalizeSubmit(values, primaryCurrency)) == primaryCurrency(values)
    ensures NormalizeSubmit(NormalizeSubmit(values, primaryCurrency), primaryCurrency)
         == NormalizeSubmit(values, primaryCurrency)
  {
    var once := NormalizeSubmit(values, primaryCurrency);
    var twice := NormalizeSubmit(once, primaryCurrency);
    if Type in values {
      NormalizeSubmitAt(values, primaryCurrency, Type);
    }
    assert IsBankLoanPortfolio(once) == IsBankLoanPortfolio(values);
    forall k | k in once ensures twice[k] == once[k] {
      NormalizeSubmitAt(values, primaryCurrency, k);
      NormalizeSubmitAt(once, primaryCurrency, k);
    }
  }

  /** The rewritten value of one field. */
  lemma NormalizeSubmitAt(values: map<Field, Value>, primaryCurrency: map<Field, Value> -> Value, k: Field)
    requires k in values
    ensures NormalizeSubmit(values, primaryCurrency)[k] ==
      if k == ReferenceRateType && IsBankLoanPortfolio(values) then ForcedReferenceRateType(values, primaryCurrency)
      else if k == ReferenceRateId && IsBankLoanPortfolio(values) then Null
      else values[k]
  {
  }

  // ---------------------------------------------------------------------
  // The text id gate
  // ---------------------------------------------------------------------

  /** `formik.values[field]`: undefined when the values lack it. */
  function ValueAt(values: map<Field, Value>, field: Field): (v: Value)
    ensures field !in values ==> v == Undefined
  {
    if field in values then values[field] else Undefined
  }

  /** `validateAt('text_id', values)` with the configured rule of `text_id`. */
  function TextIdVerdict(values: map<Field, Value>): (r: Verdict)
    ensures r.Passed? <==> ValueAt(values, TextId).Str? && ValueAt(values, TextId).s != ""
    ensures r.Failed? ==> r.message == TextIdRequired
  {
    CheckRequiredString(RuleOf(TextId).message, ValueAt(values, TextId))
  }

  /** A new form starts with an empty text id, so Get Started on it asks for one. */
  lemma NewFormAsksForTextId(now: string, display: Value -> string, toDate: Value -> Date)
    ensures InitialValues(None, now, display, toDate).Values?
    ensures TextIdVerdict(InitialValues(None, now, display, toDate).values) == Failed(TextIdRequired)
  {
    NewFormDefaults(now, display, toDate);
  }

  /** The state of one `OpportunityForm`: whether it edits an opportunity, whether the
      full form is shown, and the Formik values, touched fields and errors. */
  class OpportunityFormGate {
    const isEdit: bool
    var showForm: bool
    var values: map<Field, Value>
    var touched: set<Field>
    var errors: map<Field, string>

    /** An edit form is shown from the start, and nothing ever hides a shown form. */
    ghost predicate Valid()
      reads this
    {
      isEdit ==> showForm
    }

    /** Mounting the form: `isEdit = !!opportunity` and `useState(isEdit)`. */
    constructor(opportunity: Option<map<Field, Value>>, initialValues: map<Field, Value>)
      ensures isEdit == opportunity.Some?
      ensures showForm == isEdit
      ensures values == initialValues && touched == {} && errors == map[]
      ensures Valid()
    {
      isEdit := opportunity.Some?;
      showForm := opportunity.Some?;
      values := initialValues;
      touched := {};
      errors := map[];
    }

    /** Typing into the text id input (`formik.handleChange`), shown while the form is not. */
    method ChangeTextId(text: string)
      requires Valid() && !showForm
      modifies this
      ensures values == old(values)[TextId := Str(text)]
      ensures showForm == old(showForm) && touched == old(touched) && errors == old(errors)
      ensures Valid()
    {
      values := values[TextId := Str(text)];
    }

    /** The Get Started button, shown while the form is not: the text id is marked
        touched and validated; the form is shown when it passes and the error is recorded
        when it does not. */
    method GetStarted()
      requires Valid() && !showForm
      modifies this
      ensures touched == old(touched) + {TextId}
      ensures values == old(values)
      ensures TextIdVerdict(values).Passed? ==> showForm && errors == old(errors)
      ensures TextIdVerdict(values).Failed? ==>
        !showForm && errors == old(errors)[TextId := TextIdVerdict(values).message]
      ensures Valid()
    {
      touched := touched + {TextId};
      var verdict := TextIdVerdict(values);
      match verdict
      case Passed =>
        showForm := true;
      case Failed(message) =>
        errors := errors[TextId := message];
    }

    /** Submitting the shown form: what reaches the caller's `onSubmit`. */
    method Submit(primaryCurrency: map<Field, Value> -> Value) returns (submitted: map<Field, Value>)
      requires showForm
      ensures submitted.Keys == values.Keys
      ensures submitted == NormalizeSubmit(values, primaryCurrency)
    {
      submitted := NormalizeSubmit(values, primaryCurrency);
    }
  }
}
