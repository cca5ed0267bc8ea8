# Payout notifications, ID-document check and the opportunity form: a verified model

This project models four pieces of logic from the investment platform's back end and
admin front end:

- **`distribution_partners.dfy`** (module `DistributionPartners`) covers notifying
  distribution partners about their clients' payouts.
  - A payout batch is folded into one running total per account. The first payout of an
    account fixes its currency.
  - The accounts the lookup resolves are folded into one record per distribution partner.
    Each record lists its related accounts in lookup order.
  - Every partner with a truthy e-mail address gets one message listing its clients.
    Every failure is caught and logged.
  - Both folds are methods with loops that update `map` accumulators. Each is proved equal
    to a specification function, and the properties are proved as lemmas about those
    functions.
- **`invalid_id_check.dfy`** (module `InvalidIdCheck`) covers the Czech ID-document check.
  - The four anchored regular expressions are written as data, with a matcher over them.
  - Each expression is proved to accept exactly one directly stated shape. This holds
    after upper-casing, which follows `String.prototype.toUpperCase`.
  - It also models the document-type membership test and the decision taken on the reply
    of the Ministry of the Interior's invalid-documents service.
- **`opportunity_form_utils.dfy`** (module `OpportunityFormUtils`) covers the opportunity
  form's configuration.
  - The configuration gives the default and the validation rule of each of the 30 form
    fields.
  - Two groups of fields are converted: the numeric fields to strings and the date fields
    to dates.
  - `getOpportunityFormInitialValues` maps each field to its initial value.
  - The `currencies` validation rule is modelled as well.
- **`opportunity_form.dfy`** (module `OpportunityForm`) covers the submit rewrite and the
  gate of a new form.
  - The submit rewrite is `R.evolve`. It forces the reference rate of a bank loan
    portfolio and passes everything else on unchanged.
  - The "type in the text id first" gate is a class. It holds the form's `isEdit`,
    `showForm`, values, touched fields and errors.
- **`wrappers.dfy`** holds the `Option` type.

The account lookup, the e-mail sender, the HTTP request and XML parsing, the date parsing,
the amount formatter, the display-name helper, `toString` of values other than strings and
booleans (which are modelled directly), `new Date`
and the clock all become parameters of the functions and methods that use them.

## Model

| member | source | states |
|---|---|---|
| DistributionPartners.AggregateTotals | distribution-partners.ts:57-74 | The totals map has exactly one key per distinct account id of the batch. Each entry holds the sum of that account's payouts and the currency of its first payout (`totals == TotalPayoutSums(payouts)`). |
| DistributionPartners.LaterPayoutsOnlyAdd | distribution-partners.ts:59-64 | A payout for an account already in the batch keeps the key set and the currency. It adds its amount to that account's total and leaves every other entry unchanged. |
| DistributionPartners.FirstCurrencyIsFirstPayout | distribution-partners.ts:65-69 | The currency recorded for an account is the currency of that account's first payout in the batch. |
| DistributionPartners.SumForAbsent | distribution-partners.ts:57-74 | An id that no payout carries has a total of zero. |
| DistributionPartners.TotalPayoutSums | distribution-partners.ts:57-74 | The map the totals fold must build. Every payout's account has an entry, and every entry belongs to an account some payout carries. Each entry is the account's sum and first currency. |
| DistributionPartners.PartnerIds | distribution-partners.ts:82-88 | The partner ids in first-seen order. They are pairwise distinct and are exactly the ids of the accounts' partners. |
| DistributionPartners.RelatedTo | distribution-partners.ts:81-100 | The accounts listed for a partner come from the resolved accounts and are all linked to that partner. |
| DistributionPartners.Entries | distribution-partners.ts:94-100 | A partner's record has one related-account entry per related account. |
| DistributionPartners.PartnerRecords | distribution-partners.ts:76-103 | The records the grouping fold must build. It is None exactly when some partnered account has no total, where the source reads `.currency` of undefined. Otherwise it holds one record per partner id. |
| DistributionPartners.GroupByPartner | distribution-partners.ts:76-103 | The fold's result is exactly `PartnerRecords`. It holds one record per distinct partner in first-seen order, each listing its accounts in order with their totals. It is None when a partnered account has no total, which is where the source dereferences `undefined`. |
| DistributionPartners.PartneredOnly | distribution-partners.ts:81 | Keeps only the accounts that have a distribution partner. |
| DistributionPartners.UnpartneredDropped | distribution-partners.ts:81 | Dropping the accounts without a partner changes neither the partner ids, their order, the related accounts nor the partner e-mails. |
| DistributionPartners.PartneredOnlyKeepsIds | distribution-partners.ts:81 | Skipping the accounts without a partner keeps the set of partner ids and the order in which they first appear. |
| DistributionPartners.PartneredOnlyKeepsPartner | distribution-partners.ts:81 | Skipping the accounts without a partner keeps each partner's related accounts and its first e-mail. |
| DistributionPartners.UnpartneredContributeNothing | distribution-partners.ts:39-81 | Accounts without a distribution partner contribute nothing to any partner record: the records are the same with or without them. |
| DistributionPartners.RelatedToComplete | distribution-partners.ts:81-100 | Every partnered account is listed under its own partner. |
| DistributionPartners.RecordsPerPartner | distribution-partners.ts:82-100 | The partner ids are pairwise distinct, and a record exists for a partner id exactly when some account has that partner. Under each partner P, in lookup order: every account listed has P as its partner, and each entry equals the account's total, currency, e-mail, id and display name. |
| DistributionPartners.RelatedCountsAddUp | distribution-partners.ts:82-100 | Summed over all partner ids, the number of related accounts equals the number of partnered accounts. |
| DistributionPartners.AllPartneredAccountsListed | distribution-partners.ts:82-100 | The related-account counts of the records add up to the number of partnered accounts. |
| DistributionPartners.FindPartneredAccounts | distribution-partners.ts:36-55 | The lookup rows are exactly the directory accounts whose id is in the batch and whose distribution partner is not null. |
| DistributionPartners.ResolvedAccountsHaveTotals | distribution-partners.ts:38-92 | Every resolved account id is a payout id, so the totals lookup of each related account is defined and the grouping yields records. |
| DistributionPartners.WithEmail | distribution-partners.ts:107 | The send targets are partner records whose e-mail is truthy, meaning neither null nor empty. |
| DistributionPartners.PartnerEmails | distribution-partners.ts:105-128 | Exactly one send is built per partner with a truthy e-mail. |
| DistributionPartners.OneSendPerPartnerWithEmail | distribution-partners.ts:105-108 | Among distinct partners, each one with a truthy e-mail is a send target exactly once. Each one with a null or empty e-mail is never a target. |
| DistributionPartners.SendDataFollowsRelatedAccounts | distribution-partners.ts:109-123 | Each send goes to its partner's e-mail with the fixed subject, the client-got-paid template and the opportunity title. Its data has one entry per related account, in order, each with the e-mail, the formatted amount and the name. |
| DistributionPartners.Notifications | distribution-partners.ts:57-128 | The sends the resolved accounts lead to. It is None exactly when some partnered account carries an id no payout of the batch carries. |
| DistributionPartners.NotifyDistributionPartnersAboutClientsPayouts | distribution-partners.ts:31-132 | The method never throws. A failed lookup, a missing total or a failed send ends in the log and nothing else does. The sends attempted are exactly the notifications of the grouped records. |
| DistributionPartners.LookupRowsNeverMissTotals | distribution-partners.ts:36-103 | With the rows the lookup returns, the grouping always succeeds, so only a failed lookup or a failed send can be logged. |
| DistributionPartners.ExampleTotals | distribution-partners.ts:57-74 | For the batch 1:1000, 1:500, 2:2000 CZK, the totals are account 1 with 1500 CZK and account 2 with 2000 CZK. |
| DistributionPartners.ExampleGrouping | distribution-partners.ts:76-103 | Two accounts of the same partner give one record that lists both, in order. |
| DistributionPartners.ExampleOneEmailForTwoClients | distribution-partners.ts:57-128 | Two clients of one partner with an e-mail give exactly one message, which lists 1500 CZK and 2000 CZK. |
| InvalidIdCheck.OpMeansNineDigits | invalid-id-check.ts:51 | The constant `Op`, `^[1-9]\d{8}$` as data, matches exactly the nine-digit strings with a non-zero first digit. |
| InvalidIdCheck.OpsMeansLettersDigitsSpaceDigits | invalid-id-check.ts:52 | The constant `Ops`, `^[A-Z]{2}\d{0,2}\s?\d{6}$` as data, matches exactly: two capital letters, 0 to 2 digits, an optional white space, then six digits. |
| InvalidIdCheck.CpMeansEightDigits | invalid-id-check.ts:53 | The constant `Cp`, `^[1-9]\d{7}$` as data, matches exactly the eight-digit strings with a non-zero first digit. |
| InvalidIdCheck.ZpMeansLettersSpaceDigits | invalid-id-check.ts:54 | The constant `Zp`, `^[A-Z]{2}\s?\d{6}$` as data, matches exactly: two capital letters, an optional white space, then six digits. |
| InvalidIdCheck.ZpWithinOps | invalid-id-check.ts:52-54 | Every string `zp` accepts is also accepted by `ops`. |
| InvalidIdCheck.UpperCaseOf | invalid-id-check.ts:58 | The upper-case form of one character has one to three characters. |
| InvalidIdCheck.ToUpper | invalid-id-check.ts:58 | Upper-casing never shortens a string. |
| InvalidIdCheck.ToUpperIdempotent | invalid-id-check.ts:58 | Upper-casing twice gives the same result as upper-casing once. |
| InvalidIdCheck.IsCzechIdDocumentNumberFormat | invalid-id-check.ts:57-58 | `R.anyPass` of the four tests of `Regexes` (`Op`, `Ops`, `Cp`, `Zp` in the order of `regexes`) on the upper-cased number. It has no contract of its own: its meaning is stated by `FormatAcceptsExactlyTheFourShapes`, `FormatIgnoresCase` and `AcceptedLength`. |
| InvalidIdCheck.FormatAcceptsExactlyTheFourShapes | invalid-id-check.ts:50-58 | The format accepts a number exactly when its upper-cased form has one of four shapes: nine digits, eight digits, letters-digits-space-digits, or letters-space-digits. |
| InvalidIdCheck.FormatIgnoresCase | invalid-id-check.ts:58 | A number and its upper-cased form get the same verdict. |
| InvalidIdCheck.AcceptedLength | invalid-id-check.ts:50-58 | Every accepted number is 8 to 11 characters long once upper-cased. |
| InvalidIdCheck.DocCommentExampleHasFormat | invalid-id-check.ts:51-69 | `200436652` passes the format check, through the nine-digit pattern. |
| InvalidIdCheck.SharpSUpperCasesToTwoLetters | invalid-id-check.ts:58 | The sharp s followed by digits upper-cases to `SS` followed by the same digits. |
| InvalidIdCheck.SharpSCountsAsTwoLetters | invalid-id-check.ts:52-58 | Because the number is upper-cased first, the seven-character `ß123456` is accepted. |
| InvalidIdCheck.IsTypeAbleToValidateIdDocumentType | invalid-id-check.ts:60-62 | The type is a key of `DOCUMENT_CHECK_TYPES`. It has no contract of its own: `QueryCarriesTheTypesCode` states what it guards. |
| InvalidIdCheck.QueryCarriesTheTypesCode | invalid-id-check.ts:60-81 | Only a type that is a key of `DOCUMENT_CHECK_TYPES` is queried, and the query carries the number as given and that type's document code. |
| InvalidIdCheck.DecideOnReply | invalid-id-check.ts:80-105 | The check throws exactly when the reply is not an answer. It throws `DocumentCheckError` exactly when the reply is an error, and passes a failed request, body read or parse on as `RequestError` exactly when that happens. |
| InvalidIdCheck.InvalidIdDocumentCheck | invalid-id-check.ts:79-109 | A request is made exactly when the type is a document-check type and the number has the format. |
| InvalidIdCheck.UncheckableIsValid | invalid-id-check.ts:79-109 | An unknown type, or a number without the format, is valid and no request is made. |
| InvalidIdCheck.ErrorReplyThrows | invalid-id-check.ts:90-93 | An error reply throws `DocumentCheckError` carrying the reply's text. |
| InvalidIdCheck.FailedRequestThrows | invalid-id-check.ts:80-88 | A failed request, body read or XML parse rejects with that failure and returns no result. |
| InvalidIdCheck.InvalidExactlyWhenRegistered | invalid-id-check.ts:96-104 | The result is invalid exactly when the number was queried and `evidovano` is `ano`. It then carries the parsed `evidovano_od`. |
| InvalidIdCheck.ValidExactlyWhenNotRegistered | invalid-id-check.ts:98-109 | The result is valid exactly when no query was made, or when the answer's `evidovano` is anything other than `ano`. |
| InvalidIdCheck.DocCommentExampleIsQueried | invalid-id-check.ts:64-82 | Number 200436652 with type 0 is sent to the service with type 0's document code. |
| OpportunityFormUtils.InitialValueOf | opportunity_form_utils.ts:55-198 | The `initialValue` of each configured field. Every field has one, so none is undefined. |
| OpportunityFormUtils.RuleOf | opportunity_form_utils.ts:55-198 | The `validation` of each configured field. Every required string, number or date rule carries a non-empty message, and `text_id`'s is 'Text Id is required'. |
| OpportunityFormUtils.DefaultsFitTheirRules | opportunity_form_utils.ts:55-198 | Every default has the kind of value its rule checks. String rules get text, and number rules get text or null, since the form edits numbers as text. Date and nullable rules get text or null, boolean rules a flag, and the currency rule a list. `developer_info` gets an object with exactly its shape's keys. |
| OpportunityFormUtils.StringFieldNames | opportunity_form_utils.ts:240-248 | `StringFields` holds exactly the seven property names of `convertToStringFields`. |
| OpportunityFormUtils.DateFieldNames | opportunity_form_utils.ts:250-256 | `DateFields` holds exactly the five property names of `convertToDateFields`. |
| OpportunityFormUtils.ConversionGroupsDisjoint | opportunity_form_utils.ts:240-256 | The numeric-string fields and the date fields are disjoint, so the order of the two branches does not matter. |
| OpportunityFormUtils.StringFieldsAreTheNumberFields | opportunity_form_utils.ts:55-248 | A field is converted to a string exactly when its rule is a required number. |
| OpportunityFormUtils.DateFieldsAreTheDateFields | opportunity_form_utils.ts:55-256 | A field is converted to a date exactly when its rule is a date rule. |
| OpportunityFormUtils.FieldValue | opportunity_form_utils.ts:261 | `opportunity?.[key]` is undefined without an opportunity, and is the opportunity's value when the key is present. |
| OpportunityFormUtils.ToStringOf | opportunity_form_utils.ts:264 | `toString` fails exactly on null or undefined, and returns a string value as it is. |
| OpportunityFormUtils.InitialFieldValue | opportunity_form_utils.ts:259-271 | The mapping of one field. It throws exactly on a null numeric field. A field outside both groups, or one left undefined, takes `fieldValue ?? initialValue`. |
| OpportunityFormUtils.InitialValues | opportunity_form_utils.ts:258-272 | When nothing throws, the result has exactly the configured field keys. |
| OpportunityFormUtils.ThrowsExactlyOnNullNumericField | opportunity_form_utils.ts:263-264 | The mapping throws exactly when some numeric-string field of the opportunity is null. |
| OpportunityFormUtils.NumericFieldIsStringified | opportunity_form_utils.ts:240-265 | A defined numeric-string field becomes that value's string form. |
| OpportunityFormUtils.DateFieldIsConverted | opportunity_form_utils.ts:250-269 | A defined date field becomes that value converted to a date. |
| OpportunityFormUtils.OtherFieldKeepsValueOrDefault | opportunity_form_utils.ts:271 | Every other field, and every undefined one, keeps the opportunity's value unless that value is null or undefined, in which case it takes the configured default. |
| OpportunityFormUtils.NoOpportunityGivesDefaults | opportunity_form_utils.ts:261-271 | Without an opportunity, every field is its configured default. |
| OpportunityFormUtils.NewFormDefaults | opportunity_form_utils.ts:56-145 | A new form starts with `min_investment` '5000', `max_investment` '5000000', `distribution_fee` '0.0', `currencies` [CZK], `fundraising_period_start` now, and an empty `text_id`. |
| OpportunityFormUtils.InvalidEntries | opportunity_form_utils.ts:148-151 | Lists the positions of the entries outside the currencies, exactly those and in increasing order. |
| OpportunityFormUtils.ValidateCurrencies | opportunity_form_utils.ts:144-155 | The `currencies` rule. A missing (undefined or null) value fails as required, and any other non-list as not a list. It fails with the min message exactly on the empty list. An invalid verdict names exactly the positions `oneOf` refuses, with 'Invalid currency'. |
| OpportunityFormUtils.CurrenciesAcceptedExactly | opportunity_form_utils.ts:144-155 | The `currencies` rule accepts exactly a non-empty list each of whose entries is CZK, EUR or undefined. |
| OpportunityFormUtils.CurrenciesRejections | opportunity_form_utils.ts:151-153 | An empty list fails with 'Please choose at least one currency'. A list holding a non-currency fails as invalid at that entry's position. |
| OpportunityFormUtils.DefaultCurrenciesAccepted | opportunity_form_utils.ts:144-155 | The default `[CZK]` passes the rule. |
| OpportunityFormUtils.CheckRequiredString | opportunity_form_utils.ts:58 | `yup.string().required(message)` passes exactly a non-empty string and fails with the given message. |
| OpportunityForm.Evolve | OpportunityForm.tsx:51-63 | `R.evolve`: the result has the record's fields, and every field without a transformation is copied. |
| OpportunityForm.SubmitTransformations | OpportunityForm.tsx:52-61 | The transformations of `onSubmit` touch exactly `reference_rate_type` and `reference_rate_id`. |
| OpportunityForm.NormalizeSubmit | OpportunityForm.tsx:49-64 | The values `onSubmit` passes on have exactly the submitted fields. Their content is stated by the three lemmas below. |
| OpportunityForm.SubmitTouchesOnlyReferenceRate | OpportunityForm.tsx:50-63 | The submitted values have the same fields. Every field other than the two reference-rate fields is passed on unchanged. |
| OpportunityForm.BankLoanPortfolioRateIsForced | OpportunityForm.tsx:53-60 | For a bank loan portfolio, `reference_rate_type` becomes EURIBOR_1M when the primary currency is EUR and PRIBOR_1M otherwise, and `reference_rate_id` becomes null. |
| OpportunityForm.OtherTypesSubmittedAsEntered | OpportunityForm.tsx:58-60 | Any other type is submitted exactly as entered. |
| OpportunityForm.NormalizeSubmitIdempotent | OpportunityForm.tsx:49-64 | Applying the rewrite to its own output changes nothing, provided the primary currency does not depend on the two rewritten fields. |
| OpportunityForm.NormalizeSubmitAt | OpportunityForm.tsx:53-60 | Field by field: a bank loan portfolio's `reference_rate_type` is forced and its `reference_rate_id` is null, and every other field value is kept. |
| OpportunityForm.ValueAt | OpportunityForm.tsx:83-97 | A field missing from the values reads as undefined. |
| OpportunityForm.TextIdVerdict | OpportunityForm.tsx:95-98 | Validating `text_id` passes exactly on a non-empty string. Otherwise it fails with 'Text Id is required'. |
| OpportunityForm.NewFormAsksForTextId | OpportunityForm.tsx:95-106 | On a fresh create form, Get Started fails the text id check with 'Text Id is required'. |
| OpportunityForm.OpportunityFormGate.constructor | OpportunityForm.tsx:70-71 | An edit form (one with an opportunity) starts with the full form shown. A create form starts with it hidden. |
| OpportunityForm.OpportunityFormGate.ChangeTextId | OpportunityForm.tsx:81-85 | Typing into the text id input sets the `text_id` value to the typed text and leaves the rest of the values, `touched` and `showForm` alone. Formik's re-validation of `errors` is not modelled, as listed under Left out. |
| OpportunityForm.OpportunityFormGate.GetStarted | OpportunityForm.tsx:88-108 | Marks `text_id` touched. The form becomes shown only when `text_id` passes validation. On failure, the `text_id` error is set and the form stays hidden. |
| OpportunityForm.OpportunityFormGate.Submit | OpportunityForm.tsx:49-118 | What reaches the caller's submit handler is the rewrite of the form's values, with the same fields. |

## Left out

- The Prisma account lookup is a parameter. The method receives its rows, or None when it fails. `FindPartneredAccounts` states which rows it returns, taking row order to be directory order because the query has no `orderBy`.
- `sendEmail` is a parameter, `delivered`, which says whether a send succeeds. The concurrency of `Promise.all` is not modelled: all sends are started, the batch fails as soon as one send fails, and the model records the sends as a sequence.
- decimal.js-light amounts are exact reals. Its rounding to 20 significant digits is not modelled.
- DistributionPartners.AggregateTotals: an amount is always a number. `new Decimal(payout.payout)` throwing on a malformed amount (distribution-partners.ts:63-67) is not modelled. In the source that error is caught and logged and nothing is sent. `LoggedError` has no case for it.
- `formatAmount` with the Czech locale and `getDisplayName` are uninterpreted parameters.
- `.flat()` on the lookup rows is the identity, since the rows hold no arrays.
- `fetch`, `res.text()`, `xml2json` and `JSON.parse` are the `service` parameter, which maps a request to a parsed reply. A rejection of any of them is the `RequestFailed` reply and is passed on as `RequestError`; which of them failed, and the error it carries, are not modelled. A reply with neither `chyba` nor `odpoved` is modelled as a `TypeError`.
- The moment/timezone parsing of `evidovano_od` is the opaque `parseDate` parameter.
- `DOCUMENT_CHECK_TYPES` is a parameter, a map from type key to document code. The other imported constants are strings equal to their names. These are `OPPORTUNITY_TYPE.BANK_LOAN_PORTFOLIO` and `.UPVEST_LOAN_JUNIOR`, `REFERENCE_RATE_TYPES.EURIBOR_1M` and `.PRIBOR_1M`, `OPPORTUNITY_PAYMENT_FREQUENCY.MONTHLY`, `OPPORTUNITY_INTEREST_RATE_TYPE.SIMPLE` and `OPPORTUNITY_MARKET_SEGMENT.RESIDENTAL`. `CURRENCIES` is taken as {CZK, EUR}.
- InvalidIdCheck.UpperCaseOf: upper-cases only the characters whose upper-case form is made of ASCII letters. These are a-z, the dotless i, the long s, the sharp s and the Latin ligatures. Every other character is kept, and the four expressions reject it both before and after real upper-casing, so the verdict is unchanged.
- `toString` of a number, date, array or object is the `display` parameter. `toString` of a string and of a boolean is modelled directly, as the string itself and as "true" or "false". Converting with `new Date(...)` is the `toDate` parameter.
- The `moment()` default of `fundraising_period_start` is the `now` parameter.
- The opportunity's `id` key is not among the configured fields, so the mapping never looks at it.
- Yup semantics beyond the `currencies` and `text_id` rules are not modelled. Each field's rule is recorded as data but not evaluated. Neither is the external `getFloatingRatesSchema`, nor Formik's own validation on change, blur and submit.
- OpportunityFormUtils.CheckRequiredString: a non-string value counts as missing. Yup would first try to cast numbers and similar values to strings.
- OpportunityForm.OpportunityFormGate.ChangeTextId: promises `errors` unchanged. In the source, `formik.handleChange` re-runs the whole schema (Formik's default `validateOnChange`) and replaces `errors` with its result. That validation is not modelled.
- OpportunityForm.OpportunityFormGate.GetStarted: promises `errors` unchanged on success and changed only at `text_id` on failure. In the source, `formik.setFieldTouched` re-runs the whole schema (Formik's default `validateOnBlur`) and replaces `errors`. That validation is not modelled.
- OpportunityForm.OpportunityFormGate.GetStarted: does not model the rethrow of a non-validation error (OpportunityForm.tsx:102-104). The modelled `text_id` rule can only fail with a validation error.
- The screens are not part of this model. They hold rendering, Formik wiring, GraphQL mutations, upload widgets and toasts.
