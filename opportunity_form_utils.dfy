/*
  The admin opportunity form's field configuration and the mapping from a stored
  opportunity to the form's initial values.

  Every field of the form has an initial value and a validation rule. Opening the form
  on an opportunity takes each field from it: a numeric field arrives as a number or
  a string and is shown as text, a date field is turned into a date, and every other
  field keeps the stored value unless that is null or missing, when the configured
  default is used.

  JavaScript values are modelled by `Value`. Two conversions the code relies on are
  foreign and are parameters: `display` is `toString` on numbers, dates, arrays and
  objects (`toString` on a string and on a boolean is modelled), and `toDate` is
  `new Date(...)`.
*/
module OpportunityFormUtils {
  import opened Wrappers

  /** A date object: a time value, or an invalid date. */
  datatype Date = ValidDate(time: int) | InvalidDate

  /** The JavaScript values the form handles. */
  datatype Value =
    | Undefined
    | Null
    | Str(s: string)
    | Num(x: real)
    | Bool(b: bool)
    | DateObj(d: Date)
    | Items(elems: seq<Value>)
    | Obj(fields: map<string, Value>)

  /** The yup rule attached to a field. Only the rules of `text_id` and `currencies`
      are given a meaning below. */
  datatype Rule =
    | RequiredString(message: string)
    | OptionalString
    | NullableString
    | RequiredNumber(message: string)
    | RequiredDate(message: string)
    | NullableDate
    | BooleanFlag
    | CurrencyList
    | Shape(fields: map<string, Rule>)

  // ---------------------------------------------------------------------
  // Constants of other modules
  // ---------------------------------------------------------------------

  const CZK: string := "CZK"
  const EUR: string := "EUR"

  /** The values of `CURRENCIES`. */
  const CurrencyValues: set<string> := {CZK, EUR}

  // ---------------------------------------------------------------------
  // The configuration
  // ---------------------------------------------------------------------

  /** The keys of `opportunityCreateFieldsConfig`. */
  datatype Field =
    | TextId | Title | TitleEn | Subtitle | SubtitleEn | Address
    | LoanInterestRate | DistributionFee | Maturity | ExpectedMaturity
    | MinFundraisingTarget | MaxFundraisingTarget | MinInvestment | MaxInvestment
    | FundraisingPeriodStart | FundraisingPeriodEnd | IkFundraisingPeriodEnd
    | NetValue | ReportPdf | FeesAgreement | PaymentFrequency | InterestRateType
    | Currencies | IsPrivatePlacement | InWidget | MarketSegment
    | ReferenceRateType | ReferenceRateId | Type | DeveloperInfo

  const AllFields: set<Field> := {
    TextId, Title, TitleEn, Subtitle, SubtitleEn, Address,
    LoanInterestRate, DistributionFee, Maturity, ExpectedMaturity,
    MinFundraisingTarget, MaxFundraisingTarget, MinInvestment, MaxInvestment,
    FundraisingPeriodStart, FundraisingPeriodEnd, IkFundraisingPeriodEnd,
    NetValue, ReportPdf, FeesAgreement, PaymentFrequency, InterestRateType,
    Currencies, IsPrivatePlacement, InWidget, MarketSegment,
    ReferenceRateType, ReferenceRateId, Type, DeveloperInfo
  }

  lemma AllFieldsListed(f: Field)
    ensures f in AllFields
  {
  }

  /** The property name of a field in the form values and in the opportunity. */
  function Name(f: Field): string {
    match f
    case TextId => "text_id"
    case Title => "title"
    case TitleEn => "title_en"
    case Subtitle => "subtitle"
    case SubtitleEn => "subtitle_en"
    case Address => "address"
    case LoanInterestRate => "loan_interest_rate"
    case DistributionFee => "distribution_fee"
    case Maturity => "maturity"
    case ExpectedMaturity => "expected_maturity"
    case MinFundraisingTarget => "min_fundraising_target"
    case MaxFundraisingTarget => "max_fundraising_target"
    case MinInvestment => "min_investment"
    case MaxInvestment => "max_investment"
    case FundraisingPeriodStart => "fundraising_period_start"
    case FundraisingPeriodEnd => "fundraising_period_end"
    case IkFundraisingPeriodEnd => "ik_fundraising_period_end"
    case NetValue => "net_value"
    case ReportPdf => "report_pdf"
    case FeesAgreement => "fees_agreement"
    case PaymentFrequency => "payment_frequency"
    case InterestRateType => "interest_rate_type"
    case Currencies => "currencies"
    case IsPrivatePlacement => "is_private_placement"
    case InWidget => "in_widget"
    case MarketSegment => "market_segment"
    case ReferenceRateType => "reference_rate_type"
    case ReferenceRateId => "reference_rate_id"
    case Type => "type"
    case DeveloperInfo => "developer_info"
  }

  const TextIdRequired: string := "Text Id is required"
  const AtLeastOneCurrency: string := "Please choose at least one currency"
  const InvalidCurrencyMessage: string := "Invalid currency"

  /** The developer company fields, all empty at first. */
  const EmptyDeveloperInfo: Value := Obj(map[
    "ico" := Str(""), "name" := Str(""), "markNo" := Str(""),
    "registeredBy" := Str(""), "address" := Str(""), "logoImage" := Str("")])

  const DeveloperInfoRule: Rule := Shape(map[
    "ico" := RequiredString("Developer company ICO is required"),
    "name" := RequiredString("Developer company name is required"),
    "markNo" := RequiredString("Developer company case number is required"),
    "registeredBy" := RequiredString("Developer company registered by is required"),
    "address" := RequiredString("Developer company address is required"),
    "logoImage" := OptionalString])

  /** A default has the kind of value its rule checks: text for the string and number
      rules (the form edits numbers as text), text or null for the nullable and date
      rules, a flag, a list of currencies, or an object with the shape's keys. */
  predicate DefaultFitsRule(v: Value, rule: Rule) {
    match rule
    case RequiredString(_) => v.Str?
    case OptionalString => v.Str?
    case NullableString => v.Str? || v.Null?
    case RequiredNumber(_) => v.Str? || v.Null?
    case RequiredDate(_) => v.Str? || v.Null?
    case NullableDate => v.Str? || v.Null?
    case BooleanFlag => v.Bool?
    case CurrencyList => v.Items?
    case Shape(fields) => v.Obj? && v.fields.Keys == fields.Keys
  }

  /** The `initialValue` of a field in `opportunityCreateFieldsConfig`; `now` is the
      formatted moment at which the module was loaded, the default start of the
      fundraising period. */
  function InitialValueOf(f: Field, now: string): (v: Value)
    ensures v != Undefined
  {
    match f
    case TextId => Str("")
    case Title => Str("")
    case TitleEn => Str("")
    case Subtitle => Str("")
    case SubtitleEn => Str("")
    case Address => Str("")
    case LoanInterestRate => Str("")
    case DistributionFee => Str("0.0")
    case Maturity => Null
    case ExpectedMaturity => Null
    case MinFundraisingTarget => Str("")
    case MaxFundraisingTarget => Str("")
    case MinInvestment => Str("5000")
    case MaxInvestment => Str("5000000")
    case FundraisingPeriodStart => Str(now)
    case FundraisingPeriodEnd => Null
    case IkFundraisingPeriodEnd => Null
    case NetValue => Null
    case ReportPdf => Null
    case FeesAgreement => Null
    case PaymentFrequency => Str("MONTHLY")
    case InterestRateType => Str("SIMPLE")
    case Currencies => Items([Str(CZK)])
    case IsPrivatePlacement => Bool(false)
    case InWidget => Bool(true)
    case MarketSegment => Str("RESIDENTAL")
    case ReferenceRateType => Null
    case ReferenceRateId => Null
    case Type => Str("UPVEST_LOAN_JUNIOR")
    case DeveloperInfo => EmptyDeveloperInfo
  }

  /** The `validation` of a field in `opportunityCreateFieldsConfig`. Every required
      rule carries a message of its own. */
  function RuleOf(f: Field): (r: Rule)
    ensures (r.RequiredString? || r.RequiredNumber? || r.RequiredDate?) ==> r.message != ""
    ensures f == TextId ==> r == RequiredString(TextIdRequired)
  {
    match f
    case TextId => RequiredString(TextIdRequired)
    case Title => RequiredString("Title (cz) is required")
    case TitleEn => RequiredString("Title (en) is required")
    case Subtitle => RequiredString("Subtitle (cz) is required")
    case SubtitleEn => RequiredString("Subtitle (en) is required")
    case Address => RequiredString("Address is required")
    case LoanInterestRate => RequiredNumber("Developer Interest Rate is required")
    case DistributionFee => RequiredNumber("KB distribution Fee is required")
    case Maturity => RequiredDate("Current Maturity is required")
    case ExpectedMaturity => RequiredDate("Expected (original) Maturity is required")
    case MinFundraisingTarget => RequiredNumber("Min. Fundraising Target is required")
    case MaxFundraisingTarget => RequiredNumber("Max. Fundraising Target is required")
    case MinInvestment => RequiredNumber("Min. Investment is required")
    case MaxInvestment => RequiredNumber("Max. Investment is required")
    case FundraisingPeriodStart => RequiredDate("Fundraising Period Start is required")
    case FundraisingPeriodEnd => RequiredDate("Fundraising Period End is required")
    case IkFundraisingPeriodEnd => NullableDate
    case NetValue => RequiredNumber("Net value is required")
    case ReportPdf => NullableString
    case FeesAgreement => NullableString
    case PaymentFrequency => RequiredString("Payment Frequency is required")
    case InterestRateType => RequiredString("Interest Rate Type is required")
    case Currencies => CurrencyList
    case IsPrivatePlacement => BooleanFlag
    case InWidget => BooleanFlag
    case MarketSegment => RequiredString("Market Segment is required")
    case ReferenceRateType => NullableString
    case ReferenceRateId => NullableString
    case Type => RequiredString("Opportunity Type is required")
    case DeveloperInfo => DeveloperInfoRule
  }

  /** Every default fits its field's rule. */
  lemma DefaultsFitTheirRules(f: Field, now: string)
    ensures DefaultFitsRule(InitialValueOf(f, now), RuleOf(f))
  {
    match f {
      case TextId =>
      case Title =>
      case TitleEn =>
      case Subtitle =>
      case SubtitleEn =>
      case Address =>
      case LoanInterestRate =>
      case DistributionFee =>
      case Maturity =>
      case ExpectedMaturity =>
      case MinFundraisingTarget =>
      case MaxFundraisingTarget =>
      case MinInvestment =>
      case MaxInvestment =>
      case FundraisingPeriodStart =>
      case FundraisingPeriodEnd =>
      case IkFundraisingPeriodEnd =>
      case NetValue =>
      case ReportPdf =>
      case FeesAgreement =>
      case PaymentFrequency =>
      case InterestRateType =>
      case Currencies =>
      case IsPrivatePlacement =>
      case InWidget =>
      case MarketSegment =>
      case ReferenceRateType =>
      case ReferenceRateId =>
      case Type =>
      case DeveloperInfo =>
        assert EmptyDeveloperInfo.fields.Keys == DeveloperInfoRule.fields.Keys;
    }
  }

  /** `convertToStringFields`. */
  const StringFields: set<Field> := {
    MaxFundraisingTarget, MaxInvestment, MinFundraisingTarget, MinInvestment,
    NetValue, DistributionFee, LoanInterestRate
  }

  /** `convertToDateFields`. */
  const DateFields: set<Field> := {
    FundraisingPeriodEnd, FundraisingPeriodStart, Maturity, ExpectedMaturity, IkFundraisingPeriodEnd
  }

  /** The numeric group holds exactly the property names `convertToStringFields` lists. */
  lemma StringFieldNames()
    ensures (set f | f in StringFields :: Name(f)) ==
      {"max_fundraising_target", "max_investment", "min_fundraising_target", "min_investment",
       "net_value", "distribution_fee", "loan_interest_rate"}
  {
  }

  /** The date group holds exactly the property names `convertToDateFields` lists. */
  lemma DateFieldNames()
    ensures (set f | f in DateFields :: Name(f)) ==
      {"fundraising_period_end", "fundraising_period_start", "maturity", "expected_maturity",
       "ik_fundraising_period_end"}
  {
  }

  /** The two conversion groups are disjoint, so the order in which the mapping tests
      them does not matter. */
  lemma ConversionGroupsDisjoint()
    ensures StringFields !! DateFields
  {
  }

  /** The numeric fields are exactly those with a number rule. */
  lemma StringFieldsAreTheNumberFields(f: Field)
    ensures f in StringFields <==> RuleOf(f).RequiredNumber?
  {
    match f {
      case TextId =>
      case Title =>
      case TitleEn =>
      case Subtitle =>
      case SubtitleEn =>
      case Address =>
      case LoanInterestRate =>
      case DistributionFee =>
      case Maturity =>
      case ExpectedMaturity =>
      case MinFundraisingTarget =>
      case MaxFundraisingTarget =>
      case MinInvestment =>
      case MaxInvestment =>
      case FundraisingPeriodStart =>
      case FundraisingPeriodEnd =>
      case IkFundraisingPeriodEnd =>
      case NetValue =>
      case ReportPdf =>
      case FeesAgreement =>
      case PaymentFrequency =>
      case InterestRateType =>
      case Currencies =>
      case IsPrivatePlacement =>
      case InWidget =>
      case MarketSegment =>
      case ReferenceRateType =>
      case ReferenceRateId =>
      case Type =>
      case DeveloperInfo =>
    }
  }

  /** The date fields are exactly those with a date rule. */
  lemma DateFieldsAreTheDateFields(f: Field)
    ensures f in DateFields <==> RuleOf(f).RequiredDate? || RuleOf(f).NullableDate?
  {
    match f {
      case TextId =>
      case Title =>
      case TitleEn =>
      case Subtitle =>
      case SubtitleEn =>
      case Address =>
      case LoanInterestRate =>
      case DistributionFee =>
      case Maturity =>
      case ExpectedMaturity =>
      case MinFundraisingTarget =>
      case MaxFundraisingTarget =>
      case MinInvestment =>
      case MaxInvestment =>
      case FundraisingPeriodStart =>
      case FundraisingPeriodEnd =>
      case IkFundraisingPeriodEnd =>
      case NetValue =>
      case ReportPdf =>
      case FeesAgreement =>
      case PaymentFrequency =>
      case InterestRateType =>
      case Currencies =>
      case IsPrivatePlacement =>
      case InWidget =>
      case MarketSegment =>
      case ReferenceRateType =>
      case ReferenceRateId =>
      case Type =>
      case DeveloperInfo =>
    }
  }

  // ---------------------------------------------------------------------
  // Initial values
  // ---------------------------------------------------------------------

  /** `opportunity?.[key]`: undefined without an opportunity or without the key. */
  function FieldValue(opportunity: Option<map<Field, Value>>, key: Field): (v: Value)
    ensures opportunity.None? ==> v == Undefined
    ensures opportunity.Some? && key in opportunity.value ==> v == opportunity.value[key]
  {
    match opportunity
    case None => Undefined
    case Some(fields) => if key in fields then fields[key] else Undefined
  }

  /** `value.toString()`: a string stays itself, a boolean reads "true" or "false", and
      on null or undefined the call throws (None). */
  function ToStringOf(v: Value, display: Value -> string): (r: Option<string>)
    ensures r.None? <==> v.Null? || v.Undefined?
    ensures v.Str? ==> r == Some(v.s)
  {
    match v
    case Undefined => None
    case Null => None
    case Str(s) => Some(s)
    case Bool(b) => Some(if b then "true" else "false")
    case _ => Some(display(v))
  }

  /** `fieldValue ?? initialValue`. */
  function OrDefault(v: Value, initialValue: Value): Value {
    if v.Null? || v.Undefined? then initialValue else v
  }

  /** The initial value of one field; None when `toString` throws, which happens exactly
      on a null numeric field. A field outside both groups, or one the opportunity leaves
      undefined, takes `fieldValue ?? initialValue`. */
  function InitialFieldValue(key: Field, fieldValue: Value, initialValue: Value,
                             display: Value -> string, toDate: Value -> Date): (r: Option<Value>)
    ensures r.None? <==> key in StringFields && fieldValue == Null
    ensures (key !in StringFields && key !in DateFields) || fieldValue == Undefined ==>
      r == Some(if fieldValue == Null || fieldValue == Undefined then initialValue else fieldValue)
  {
    if key in StringFields && !fieldValue.Undefined? then
      match ToStringOf(fieldValue, display)
      case None => None
      case Some(text) => Some(Str(text))
    else if key in DateFields && !fieldValue.Undefined? then
      Some(DateObj(toDate(fieldValue)))
    else
      Some(OrDefault(fieldValue, initialValue))
  }

  datatype InitialValuesOutcome = Values(values: map<Field, Value>) | TypeErrorThrown

  /** `getOpportunityFormInitialValues(opportunity)` over the configuration of `now`. */
  function InitialValues(opportunity: Option<map<Field, Value>>, now: string,
                         display: Value -> string, toDate: Value -> Date): (r: InitialValuesOutcome)
    ensures r.Values? ==> r.values.Keys == AllFields
    ensures r.Values? ==> forall f: Field :: f in r.values
  {
    assert forall f: Field :: f in AllFields by {
      forall f: Field ensures f in AllFields { AllFieldsListed(f); }
    }
    var fields := map key | key in AllFields ::
      InitialFieldValue(key, FieldValue(opportunity, key), InitialValueOf(key, now), display, toDate);
    if forall key | key in fields :: fields[key].Some? then
      Values(map key | key in fields :: fields[key].value)
    else
      TypeErrorThrown
  }

  /** On success each field holds what its own mapping gives. */
  lemma InitialValueOfField(opportunity: Option<map<Field, Value>>, now: string,
                            display: Value -> string, toDate: Value -> Date, key: Field)
    requires InitialValues(opportunity, now, display, toDate).Values?
    ensures InitialFieldValue(key, FieldValue(opportunity, key), InitialValueOf(key, now), display, toDate).Some?
    ensures InitialValues(opportunity, now, display, toDate).values[key]
         == InitialFieldValue(key, FieldValue(opportunity, key), InitialValueOf(key, now), display, toDate).value
  {
    AllFieldsListed(key);
  }

  /** The mapping throws exactly when a numeric field of the opportunity is null. */
  lemma ThrowsExactlyOnNullNumericField(opportunity: Option<map<Field, Value>>, now: string,
                                        display: Value -> string, toDate: Value -> Date)
    ensures InitialValues(opportunity, now, display, toDate).TypeErrorThrown? <==>
      exists key :: key in StringFields && FieldValue(opportunity, key) == Null
  {
    forall key | key in StringFields ensures key in AllFields {
      AllFieldsListed(key);
    }
  }

  /** A numeric field the opportunity defines is shown as its text. */
  lemma NumericFieldIsStringified(opportunity: Option<map<Field, Value>>, now: string,
                                  display: Value -> string, toDate: Value -> Date, key: Field)
    requires key in StringFields
    requires InitialValues(opportunity, now, display, toDate).Values?
    requires FieldValue(opportunity, key) != Undefined
    ensures FieldValue(opportunity, key) != Null
    ensures ToStringOf(FieldValue(opportunity, key), display).Some?
    ensures InitialValues(opportunity, now, display, toDate).values[key]
         == Str(ToStringOf(FieldValue(opportunity, key), display).value)
  {
    InitialValueOfField(opportunity, now, display, toDate, key);
  }

  /** A date field the opportunity defines (null included) is converted to a date. */
  lemma DateFieldIsConverted(opportunity: Option<map<Field, Value>>, now: string,
                             display: Value -> string, toDate: Value -> Date, key: Field)
    requires key in DateFields
    requires InitialValues(opportunity, now, display, toDate).Values?
    requires FieldValue(opportunity, key) != Undefined
    ensures InitialValues(opportunity, now, display, toDate).values[key]
         == DateObj(toDate(FieldValue(opportunity, key)))
  {
    ConversionGroupsDisjoint();
    assert key !in StringFields;
    InitialValueOfField(opportunity, now, display, toDate, key);
  }

  /** Every field outside both groups, and every field the opportunity leaves undefined,
      keeps the stored value unless it is null or undefined, and the default otherwise. */
  lemma OtherFieldKeepsValueOrDefault(opportunity: Option<map<Field, Value>>, now: string,
                                      display: Value -> string, toDate: Value -> Date, key: Field)
    requires (key !in StringFields && key !in DateFields) || FieldValue(opportunity, key) == Undefined
    requires InitialValues(opportunity, now, display, toDate).Values?
    ensures var v := FieldValue(opportunity, key);
      InitialValues(opportunity, now, display, toDate).values[key]
        == if v == Null || v == Undefined then InitialValueOf(key, now) else v
  {
    InitialValueOfField(opportunity, now, display, toDate, key);
  }

  /** Without an opportunity the form starts from the configured defaults. */
  lemma NoOpportunityGivesDefaults(now: string, display: Value -> string, toDate: Value -> Date)
    ensures InitialValues(None, now, display, toDate).Values?
    ensures var values := InitialValues(None, now, display, toDate).values;
      forall key :: key in values ==> values[key] == InitialValueOf(key, now)
  {
    ThrowsExactlyOnNullNumericField(None, now, display, toDate);
  }

  /** A few of the defaults, as the configuration writes them. */
  lemma NewFormDefaults(now: string, display: Value -> string, toDate: Value -> Date)
    ensures InitialValues(None, now, display, toDate).Values?
    ensures var values := InitialValues(None, now, display, toDate).values;
      && values[MinInvestment] == Str("5000")
      && values[MaxInvestment] == Str("5000000")
      && values[DistributionFee] == Str("0.0")
      && values[Currencies] == Items([Str(CZK)])
      && values[FundraisingPeriodStart] == Str(now)
      && values[Maturity] == Null
      && values[TextId] == Str("")
  {
    NoOpportunityGivesDefaults(now, display, toDate);
    ConfiguredDefaults(now);
  }

  lemma ConfiguredDefaults(now: string)
    ensures InitialValueOf(MinInvestment, now) == Str("5000")
    ensures InitialValueOf(MaxInvestment, now) == Str("5000000")
    ensures InitialValueOf(DistributionFee, now) == Str("0.0")
    ensures InitialValueOf(Currencies, now) == Items([Str(CZK)])
    ensures InitialValueOf(FundraisingPeriodStart, now) == Str(now)
    ensures InitialValueOf(Maturity, now) == Null
    ensures InitialValueOf(TextId, now) == Str("")
  {
  }

  // ---------------------------------------------------------------------
  // The `currencies` rule
  // ---------------------------------------------------------------------

  datatype CurrenciesVerdict =
    | CurrenciesAccepted
    | CurrenciesRequired                    // undefined or null
    | NotAList
    | TooFewCurrencies(message: string)     // the empty list
    | InvalidCurrencies(at: seq<nat>, message: string)  // the positions of the bad entries

  /** `mixed<Currency>().oneOf(Object.values(CURRENCIES))`: an undefined entry passes,
      as yup lets undefined through `oneOf` unless the rule is required. */
  predicate CurrencyEntryOk(v: Value) {
    v.Undefined? || (v.Str? && v.s in CurrencyValues)
  }

  /** The positions of the entries `oneOf` rejects, ascending. */
  function InvalidEntries(entries: seq<Value>): (at: seq<nat>)
    ensures forall i :: i in at <==> 0 <= i < |entries| && !CurrencyEntryOk(entries[i])
    ensures forall j, k :: 0 <= j < k < |at| ==> at[j] < at[k]
  {
    if entries == [] then []
    else
      var init := entries[..|entries| - 1];
      var last := entries[|entries| - 1];
      assert forall i :: 0 <= i < |init| ==> init[i] == entries[i];
      var earlier := InvalidEntries(init);
      assert forall j :: 0 <= j < |earlier| ==> earlier[j] in earlier;
      earlier + (if CurrencyEntryOk(last) then [] else [|entries| - 1])
  }

  /** The `currencies` rule: `array().of(...).min(1, ...).required()`. A missing value is
      refused as required, any other non-list as not a list, and a rejected list names
      every position `oneOf` refuses, with the rule's message. */
  function ValidateCurrencies(v: Value): (r: CurrenciesVerdict)
    ensures r == CurrenciesRequired <==> v.Undefined? || v.Null?
    ensures r == NotAList <==> !(v.Undefined? || v.Null? || v.Items?)
    ensures r.TooFewCurrencies? <==> v.Items? && v.elems == []
    ensures r.InvalidCurrencies? ==>
      && v.Items? && r.at != [] && r.message == InvalidCurrencyMessage
      && forall i :: i in r.at <==> 0 <= i < |v.elems| && !CurrencyEntryOk(v.elems[i])
  {
    match v
    case Undefined => CurrenciesRequired
    case Null => CurrenciesRequired
    case Items(entries) =>
      if |entries| < 1 then TooFewCurrencies(AtLeastOneCurrency)
      else
        var bad := InvalidEntries(entries);
        if bad == [] then CurrenciesAccepted else InvalidCurrencies(bad, InvalidCurrencyMessage)
    case _ => NotAList
  }

  /** The rule accepts exactly the non-empty lists whose entries all pass `oneOf`. */
  lemma CurrenciesAcceptedExactly(v: Value)
    ensures ValidateCurrencies(v).CurrenciesAccepted? <==>
      v.Items? && |v.elems| >= 1 && forall i :: 0 <= i < |v.elems| ==> CurrencyEntryOk(v.elems[i])
  {
    if v.Items? && |v.elems| >= 1 {
      var bad := InvalidEntries(v.elems);
      if bad != [] {
        assert bad[0] in bad;
      }
    }
  }

  /** The empty list is refused, and a list naming a currency outside `CURRENCIES` is
      refused at that position. */
  lemma CurrenciesRejections(entries: seq<Value>, i: nat, c: string)
    requires i < |entries| && entries[i] == Str(c) && c !in CurrencyValues
    ensures ValidateCurrencies(Items([])) == TooFewCurrencies(AtLeastOneCurrency)
    ensures ValidateCurrencies(Items(entries)).InvalidCurrencies?
    ensures i in ValidateCurrencies(Items(entries)).at
  {
  }

  /** The default of a new form passes its own rule. */
  lemma DefaultCurrenciesAccepted(now: string)
    ensures ValidateCurrencies(InitialValueOf(Currencies, now)) == CurrenciesAccepted
  {
    var entries := [Str(CZK)];
    assert entries[..0] == [];
    assert CurrencyEntryOk(entries[0]);
    assert InvalidEntries(entries) == [];
  }

  // ---------------------------------------------------------------------
  // A required string rule
  // ---------------------------------------------------------------------

  datatype Verdict = Passed | Failed(message: string)

  /** `yup.string().required(message)` on a value the form holds as a string: it passes
      exactly on a non-empty string. */
  function CheckRequiredString(message: string, v: Value): (r: Verdict)
    ensures r.Passed? <==> v.Str? && v.s != ""
    ensures r.Failed? ==> r.message == message
  {
    if v.Str? && v.s != "" then Passed else Failed(message)
  }
}
