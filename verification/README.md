# Verification model of a web-hosting billing system

The repository bills hosting customers and drives two kinds of outside party for them: a domain
registrar and a hosting panel. It must never pay twice for one registration, never lose a price to
floating point, never leave a gap or an overlap between renewal periods, and never send a message again
whose outcome it does not know. This project models the parts of it that keep those promises and proves
them with Dafny. `dafny verify dfyconfig.toml` checks everything.

## How it is modelled

**Parser, arithmetic, calendar and encoders** are modelled on values: text is a sequence of UTF-16 code
units, a BigInt is an integer, a Date is its time value. Imperative code (the JSON scanner, Euclid's loop,
the copying loops with their lookup maps) is a class or a method with its loops, proved equal to functions
whose properties are then proved as lemmas.

**Protocols over database rows** are state machines. One transaction is one step, because it holds the row
locks it needs; a call to the registrar, the panel, the mail server or the message provider is one step
whose answer is arbitrary; a worker may stop between any two steps and any other may be handed the same
job. The step function, the invariant and the theorems about every run are in one or two modules; beside
them a class holds the rows as fields, and its methods, written with the source's branches, are proved to
take exactly those steps (`Rows() == Step(old(Rows()), ...)`, or a run of such steps).

**Decisions** are stated a second time, in the modules called so. The predicates of a protocol say when a
transaction claims, suspends, pays or sends; the lemmas there say the same condition by condition on the
rows themselves, in both directions, together with everything the transaction then writes, and carry it
over whole runs: every call of registerOnce was paid for, every suspension was decided on an overdue
balance, every reactivation was owed.

| files | what they hold |
|---|---|
| `CodeUnits`, `Utf8`, `Options` | text, UTF-8 and its length, optional values |
| `Patterns`, `NumberPatterns`, `PatternFacts` | regular expressions, and the tests on texts as the expressions they are |
| `JsonGrammar`, `JsonReader`, `JsonScan`, `JsonComplete`, `JsonStringify`, `JsonArrays` | RFC 8259 as syntax trees that print, readers proved sound and complete, JSON.stringify |
| `JsonText`, `JsonMeaning`, `JsonFacts` | which texts denote which value, said directly on texts; the grammar generates just these |
| `LosslessRewrite`, `LosslessJson`, `RegistrarPrice` | the registrar's scanner and its number-to-string rewriting, and prices in minor units |
| `NumberTheory`, `CurrencyArithmetic`, `CurrencyDecisions` | lowest terms, exact decimals, half-even conversion |
| `Sorting`, `PolicyContext`, `PolicyEncoder`, `PolicyDecisions`, `SelectionIntent`, `SelectionAssessment`, `AssessmentEncoding`, `AssessmentText`, `AssessmentDecisions` | canonical encoders |
| `Gregorian`, `BillingPeriods`, `BusinessDates`, `FinalWarnings` | section 21.4.1 of ECMA-262, billing periods, business dates, the filters and the paged scan |
| `RegistrarDispatch`, `RegistrarSafety`, `RegistrarDecisions`, `RegistrarProcessor`, `RegistrarLocks` | registering domains |
| `Fulfillment` | when an order is complete |
| `ContactPreparation`, `ContactDecisions`, `ContactRegistrar` | creating the registrar's customer and contact |
| `HostingAutomation`, `HostingSafety`, `HostingDecisions`, `HostingService` | suspension, reactivation and cancellation |
| `Renewal`, `RenewalProcessor`, `RenewalDecisions` | renewal invoices and due dates |
| `Outbox`, `OutboxSafety`, `OutboxDispatcher`, `OutboxDecisions` | claiming and publishing outbox events |
| `Email`, `EmailDecisions`, `EmailDelivery`, `Notifications`, `NotificationDecisions`, `NotificationDelivery` | delivery without repeated sends |

## What the proofs assume

- Submission keys, idempotency keys, an operation's domain, a domain's order item and a retry's predecessor
  are unique, as the schema's indexes say, and so are the keys of outbox events and notification entries;
  the model creates rows only where the index would allow it. `Fulfillment` also relies on the checks and
  triggers on domains, order items and takeovers, and models them.
- Hosting operations are created RUNNING with attempt number 1 and email attempts STARTED.
- The account an operation is bound to does not change after its first approval.
- Only the transitions shown here, and the few named environment events (ordering and approving a domain,
  asking for, approving and withdrawing a cancellation, settling and reopening an invoice, retrying by
  hand), touch the modelled fields. The administrator's direct changes to a service are not among them.
- Clock readings never decrease within the registrar and hosting protocols. Two readings inside one
  transaction may differ.
- A time zone is any function from a moment to an offset; where a lemma needs it, any two offsets differ by
  at most 24 hours.

## What turned out to be false, and exactly when

- `Date.UTC` reads the years 0 to 99 as 1900 to 1999, so a billing period lands on its date exactly when the
  target year is not one of them (`AddBillingPeriodMeaning`).
- Adding a period keeps the order of two moments except when both are clamped to the end of the month and
  the earlier one has the later time of day (`AddingIsMonotone`).
- The range from which final warnings are picked keeps every warning exactly within stated bounds on the
  offsets and the grace days; with no grace day it picks an invoice due later today only after its due
  moment (`WarningRangeIsExact`). The range for domain expiry has no day to spare at all
  (`ExpiryRangeIsExact`).
- Only the latest claimant settles an outbox event, and a PENDING event has at most four claims, exactly if
  all dispatchers have distinct names (`LatestClaimantSettles`, `FourAttemptsWhilePending`); the names are
  derived from the process id alone. That an event is locked exactly while PROCESSING, that PUBLISHED means
  its job was added, and that attempts count the claims needs no distinct names (`EventsAreSound`).
- When a run ends with an unknown outcome to report, the email can be attempted again exactly if the queue
  does not learn of it and either runs the job again by itself or had recorded a temporary failure of an
  earlier run, which lets the job be retried by hand (`UnknownIsLastExactly`, `RepeatingIsReachable`).
- A notification goes out at most once exactly if the worker's configuration never comes back from preview
  to live (`AtMostOnceExactly`): the failed entry of a job that carries a temporary failure may be delivered
  again by a previewing worker.
- No ceiling on canonical output ever refuses anything that passed its field tests: not the 24,576 bytes of
  a policy context (`CanonicalTextFits`), the 1,024 of an intent (`IntentTextFits`), the 512, 1,024 and 224
  of the parts of an assessment (`ControlAlwaysFits`, `AuthAlwaysFits`, `EvidenceAlwaysFits`) or the 65,536
  of the whole (`AssessmentTextFits`).
- A payment that was applied writes nothing when it is delivered again, once no earlier delivery is still at
  it (`ReplayedPaymentWritesNothing`); one that is may yet record a failure over the success.

## Model

| member | source | states |
|---|---|---|
| `LosslessJson.LosslessRegistrarJson` | packages/database/src/registrar/logicboxes-sandbox.ts:33-119 | refuses for size exactly the bodies whose UTF-8 form is too long, accepts the others exactly when they are JSON for a value within the depth, node and key limits, said on texts (`JsonText.Denotes`) and by the RFC 8259 grammar, and returns that value with each number replaced by its exact characters |
| `LosslessJson.Rewrite` | packages/database/src/registrar/logicboxes-sandbox.ts:40-115 | the joined segments are the print of the read document with its numbers quoted, and nothing otherwise |
| `LosslessJson.Scanner.Value` | packages/database/src/registrar/logicboxes-sandbox.ts:60-110 | the cursor, node counter and segments after one value are those of the reading function; it fails exactly when that does, and always moves forward |
| `LosslessJson.Scanner.Loop` | packages/database/src/registrar/logicboxes-sandbox.ts:78-97 | the member loop with its key set reads the whole group or fails with it |
| `LosslessJson.Scanner.FindQuote` | packages/database/src/registrar/logicboxes-sandbox.ts:50-59 | finds the end of a string literal, escapes skipped, exactly when there is one |
| `LosslessJson.Scanner.PassNumber` | packages/database/src/registrar/logicboxes-sandbox.ts:99-109 | a number token is copied as a quoted string and everything before it as it stands |
| `LosslessJson.RewrittenIsJson` | packages/database/src/registrar/logicboxes-sandbox.ts:99-115 | the rewritten text is well-formed JSON within the same limits |
| `LosslessJson.LosslessAgreesWithParse` | packages/database/src/registrar/logicboxes-sandbox.ts:111-115 | an accepted body also parses unchanged, and quoting commutes with parsing |
| `LosslessJson.RewritingSettles` | packages/database/src/registrar/logicboxes-sandbox.ts:99-115 | rewriting the rewritten text changes nothing |
| `JsonMeaning.GrammarDenotes` | packages/database/src/registrar/logicboxes-sandbox.ts:45-113 | a document of the grammar spells a text and means a value exactly when the text denotes that value, member by member, by the escape tables, the number expression and the three words |
| `JsonMeaning.DenotesOne` | packages/database/src/registrar/logicboxes-sandbox.ts:115 | a text denotes one value at most |
| `JsonMeaning.BoundsOf` | packages/database/src/registrar/logicboxes-sandbox.ts:60-87 | depth, number of values and fresh keys of a document are those of its value |
| `LosslessJson.ParseIsTheValue` | packages/database/src/registrar/logicboxes-sandbox.ts:115 | JSON.parse gives exactly the value that a text denotes |
| `JsonFacts.LiteralMeaning` | packages/database/src/registrar/logicboxes-sandbox.ts:50-59 | a literal parses to its text decoded by the tables, and anything else between quotes is refused |
| `JsonFacts.ShortEscapes` | packages/database/src/registrar/logicboxes-sandbox.ts:56 | a backslash and each of the eight letters give that letter's character |
| `JsonFacts.HexEscapes` | packages/database/src/registrar/logicboxes-sandbox.ts:56 | four hexadecimal digits of either case give the unit they count to |
| `JsonFacts.PlainStands` | packages/database/src/registrar/logicboxes-sandbox.ts:56 | a text without backslash, quote and control characters stands for itself |
| `JsonFacts.NumberMeaning` | packages/database/src/registrar/logicboxes-sandbox.ts:45-46 | a text parses to the number of its own characters exactly when it matches the expression for numbers |
| `NumberPatterns.NumberIsThePattern` | packages/database/src/registrar/logicboxes-sandbox.ts:45-46 | the numerals of the grammar are the texts of the expression |
| `Utf8.LengthIsTheBytes` | packages/database/src/registrar/logicboxes-sandbox.ts:37 | the measured size is the number of bytes of the text in UTF-8 |
| `LosslessRewrite.QuoteMeaning` | packages/database/src/registrar/logicboxes-sandbox.ts:102-109 | the tree of the rewritten value is the original tree with text leaves for number leaves |
| `LosslessRewrite.QuoteDocumentSize` | packages/database/src/registrar/logicboxes-sandbox.ts:102-115 | rewriting adds two characters, and two bytes, per number and nothing else |
| `JsonComplete.ReadAccepts` | packages/database/src/registrar/logicboxes-sandbox.ts:45-113 | the scanner's reading succeeds exactly on the texts some document of the grammar spells within the limits |
| `JsonComplete.ReadIsSound` | packages/database/src/registrar/logicboxes-sandbox.ts:60-110 | what is read prints back to the text and meets every limit |
| `JsonComplete.ReadIsComplete` | packages/database/src/registrar/logicboxes-sandbox.ts:60-110 | every document within the limits is read from its print, and is the one that is read |
| `JsonComplete.GrammarIsUnambiguous` | packages/database/src/registrar/logicboxes-sandbox.ts:45-113 | no text has two documents |
| `JsonScan.FreshKeysMeaning` | packages/database/src/registrar/logicboxes-sandbox.ts:71-87 | the key set accepts exactly the objects whose decoded keys are distinct, new and not forbidden |
| `JsonStringify.StringifyRoundTrip` | packages/database/src/registrar/logicboxes-sandbox.ts:103-106 | reading what JSON.stringify writes for a string, lone surrogates included, gives the string back |
| `RegistrarPrice.MinorIsExact` | packages/database/src/registrar/logicboxes-sandbox.ts:143-153 | the minor amount of a price text is exactly a hundred times its decimal value, and only zero is refused |
| `PatternFacts.PriceIsThePattern` | packages/database/src/registrar/logicboxes-sandbox.ts:144-147 | the price test is the expression it is written as |
| `CurrencyArithmetic.GreatestCommonDivisor` | packages/shared/src/currency-arithmetic.ts:128-131 | Euclid's loop returns a common divisor that every common divisor divides |
| `CurrencyArithmetic.ReducedRatio` | packages/shared/src/currency-arithmetic.ts:133-139 | the reduced ratio is in lowest terms and the same number |
| `CurrencyArithmetic.NormalFormIsTheValue` | packages/shared/src/currency-arithmetic.ts:141-144 | two ratios normalize alike exactly when they are the same rational number |
| `CurrencyArithmetic.ParseExactDecimalRate` | packages/shared/src/currency-arithmetic.ts:146-161 | refuses by the stated limits, otherwise returns the token's value in lowest terms |
| `CurrencyArithmetic.DecimalRateIsTheValue` | packages/shared/src/currency-arithmetic.ts:146-161 | two tokens parse alike exactly when they denote the same number |
| `CurrencyArithmetic.TrailingZero` | packages/shared/src/currency-arithmetic.ts:149-160 | a further zero after the decimals changes no value |
| `CurrencyArithmetic.ConvertCurrencyMinorUnits` | packages/shared/src/currency-arithmetic.ts:177-261 | the identity and conversion branches with their refusals, and an amount that is the converted one within the BIGINT range |
| `CurrencyArithmetic.RoundHalfEven` | packages/shared/src/currency-arithmetic.ts:229-235 | quotient, remainder and increment give the half-even integer |
| `CurrencyArithmetic.HalfEvenIsTheNearest` | packages/shared/src/currency-arithmetic.ts:229-235 | that integer is the only nearest one with ties to even |
| `CurrencyArithmetic.ConversionSeesTheValue` | packages/shared/src/currency-arithmetic.ts:220-235 | the converted amount depends on the rate's value only |
| `CurrencyArithmetic.ConversionIsMonotone` | packages/shared/src/currency-arithmetic.ts:225-235 | a larger amount never converts to less |
| `CurrencyArithmetic.ConversionIsNearlyAdditive` | packages/shared/src/currency-arithmetic.ts:225-235 | converting a sum is within one unit of the sum of the conversions |
| `CurrencyArithmetic.RoundTripExactlyAtScale` | packages/shared/src/currency-arithmetic.ts:220-235 | converting back at the reciprocal rate returns every amount exactly when the scale is at least one |
| `CurrencyDecisions.RateDecides` | packages/shared/src/currency-arithmetic.ts:146-161 | which decimal rates are refused, for which reason first, and the number of any other by its digits |
| `CurrencyDecisions.OtherRatesRefused` | packages/shared/src/currency-arithmetic.ts:30-33 | a token of any other shape is refused |
| `CurrencyDecisions.RefusedEarly` | packages/shared/src/currency-arithmetic.ts:177-184 | malformed inputs and contexts are refused, and then undefined currencies |
| `CurrencyDecisions.RefusalDecides` | packages/shared/src/currency-arithmetic.ts:177-240 | between defined currencies: when an identity or a conversion goes through, and else the reason |
| `CurrencyDecisions.TooMuchRounds` | packages/shared/src/currency-arithmetic.ts:229-240 | a result is out of range exactly from the exact amount on that rounds past the maximum |
| `CurrencyDecisions.AmountDecides` | packages/shared/src/currency-arithmetic.ts:220-235 | the converted amount is the one integer nearest to the exact one, even when two are |
| `PatternFacts.DecimalIsThePattern` | packages/shared/src/currency-arithmetic.ts:30-33 | the test on decimal rates is its expression with its length limit |
| `NumberTheory.ReducedIsCanonical` | packages/shared/src/currency-arithmetic.ts:133-144 | two ratios reduce alike exactly when they are equal as numbers |
| `NumberTheory.GcdIsGreatest` | packages/shared/src/currency-arithmetic.ts:128-131 | the divisor of Euclid's recursion is greatest in the divisibility order |
| `PolicyEncoder.EncodeCurrencyPolicyContext` | packages/database/src/private/currency-policy-context.ts:66-173 | succeeds exactly on the accepted texts and returns their canonical text, which is within the ceiling |
| `PolicyEncoder.CopyContext` | packages/database/src/private/currency-policy-context.ts:84-154 | the checks made through the two lookup maps accept exactly the valid contexts |
| `PolicyEncoder.CopyCapabilities` | packages/database/src/private/currency-policy-context.ts:99-116 | the loop copies the list and indexes it by code, failing exactly on a bad entry or a repeated code |
| `PolicyEncoder.CopyDefinitions` | packages/database/src/private/currency-policy-context.ts:117-138 | the loop copies the list and indexes it by unit, failing exactly on a bad entry or a repeated unit |
| `PolicyEncoder.CheckCoverage` | packages/database/src/private/currency-policy-context.ts:142-146 | one lookup per capability decides coverage by the definitions |
| `PolicyEncoder.CheckReference` | packages/database/src/private/currency-policy-context.ts:147-154 | two lookups decide whether a reference is known and, unless it is the base, in use |
| `PolicyContext.EncodingIsTheFacts` | packages/database/src/private/currency-policy-context.ts:155-169 | two valid contexts share a canonical text exactly when they state the same facts, whatever the order of their lists |
| `PolicyContext.EncodingIsIdempotent` | packages/database/src/private/currency-policy-context.ts:155-169 | the canonical text is accepted and encodes to itself |
| `PolicyContext.CanonicalIsTheFacts` | packages/database/src/private/currency-policy-context.ts:155-159 | sorted contexts are equal exactly when the facts are |
| `PolicyContext.TextReadsBack` | packages/database/src/private/currency-policy-context.ts:83-138 | parsing the written tuple gives the context back |
| `PolicyContext.CanonicalTextFits` | packages/database/src/private/currency-policy-context.ts:164-168 | no valid context has a canonical text of more than 22,635 bytes |
| `PolicyDecisions.ContextMeans` | packages/database/src/private/currency-policy-context.ts:83-138 | a context is read from exactly its own tuple, each member in its place |
| `PolicyDecisions.DefinitionMeans` | packages/database/src/private/currency-policy-context.ts:117-137 | a definition is read from exactly its own tuple, its exponent from a number token |
| `PolicyDecisions.ValidMeans` | packages/database/src/private/currency-policy-context.ts:91-154 | which contexts are accepted, rule by rule |
| `PolicyDecisions.CanonicalOrder` | packages/database/src/private/currency-policy-context.ts:155-159 | capabilities ascend by code and definitions by code and version, in the order of code units, nothing added or lost |
| `PatternFacts.CodeIsThePattern` | packages/database/src/private/currency-policy-context.ts:33-35 | the test on codes is its expression |
| `PatternFacts.VersionIsThePattern` | packages/database/src/private/currency-policy-context.ts:37-44 | the test on versions is its expression with its length limits |
| `PatternFacts.ProvenanceIsThePattern` | packages/database/src/private/currency-policy-context.ts:46-53 | the test on provenances is its expression with its length limits |
| `Sorting.AscendingUnique` | packages/database/src/private/currency-policy-context.ts:155-159 | a strict order leaves one ascending list per set |
| `Sorting.TextLessIsStrict` | packages/database/src/private/currency-policy-context.ts:61-63 | string comparison orders any two different strings one way |
| `SelectionAssessment.CopyEvidence` | packages/database/src/private/currency-selection-assessment.ts:262-305 | the loop with its two sets accepts exactly the sufficient lists without a repeated identity, and returns them sorted |
| `SelectionAssessment.ConsistentDefinitions` | packages/database/src/private/currency-selection-assessment.ts:313-331 | the map comparison succeeds exactly when no two definitions of one unit differ |
| `SelectionAssessment.EvidenceIsItsFacts` | packages/database/src/private/currency-selection-assessment.ts:299-304 | two accepted evidence lists sort alike exactly when they hold the same evidence |
| `SelectionAssessment.IdentityIsInjective` | packages/database/src/private/currency-selection-assessment.ts:285-289 | the identity key tells kind and id apart |
| `SelectionAssessment.EvidenceAlwaysFits` | packages/database/src/private/currency-selection-assessment.ts:288 | the ceiling on one evidence refuses none that passes its tests |
| `SelectionIntent.IntentTextReadsBack` | packages/database/src/private/currency-selection-intent.ts:82-133 | parsing the written tuple gives the intent back |
| `SelectionIntent.IntentEncodingIsIdempotent` | packages/database/src/private/currency-selection-intent.ts:64-147 | every accepted text is encoded, and its output is accepted as the same intent and encodes to itself |
| `SelectionIntent.IntentEncodingIsTheIntent` | packages/database/src/private/currency-selection-intent.ts:64-147 | two accepted texts have one canonical text exactly when they state one intent |
| `SelectionIntent.IntentTextFits` | packages/database/src/private/currency-selection-intent.ts:134-136 | no valid intent has a text of more than 721 bytes |
| `AssessmentText.EncodeCurrencySelectionAssessment` | packages/database/src/private/currency-selection-assessment.ts:335-446 | from text to text: answers exactly for an intent and an assessment that are accepted and fit together, with the canonical text |
| `AssessmentText.AssessmentTextReadsBack` | packages/database/src/private/currency-selection-assessment.ts:358-436 | parsing the written tuple gives the assessment back |
| `AssessmentText.CopyContext` | packages/database/src/private/currency-selection-assessment.ts:178-213 | writing, encoding and parsing a context again returns it in canonical order exactly when it is valid |
| `AssessmentText.CopyFields` | packages/database/src/private/currency-selection-assessment.ts:366-424 | the parts are copied exactly when the tuple has the right shape and its contexts are valid, the budgets never refusing |
| `AssessmentText.CheckAssessment` | packages/database/src/private/currency-selection-assessment.ts:359-424 | the checks between the parts accept exactly the admitted assessments |
| `AssessmentText.ControlAlwaysFits` | packages/database/src/private/currency-selection-assessment.ts:150 | the ceiling on a control refuses none that passes its tests |
| `AssessmentText.AuthAlwaysFits` | packages/database/src/private/currency-selection-assessment.ts:257 | nor does the one on the authentication |
| `AssessmentText.AssessmentTextFits` | packages/database/src/private/currency-selection-assessment.ts:435-436 | nor the one on the whole: no text has more than 53,330 bytes |
| `AssessmentText.EncodingIsTheFacts` | packages/database/src/private/currency-selection-assessment.ts:425-436 | admitted assessments share a canonical text exactly when they differ only in the order of lists |
| `AssessmentText.EncodingIsIdempotent` | packages/database/src/private/currency-selection-assessment.ts:425-436 | the canonical text is accepted again, as the canonical form, and encodes to itself |
| `AssessmentText.AssessmentTextIsInjective` | packages/database/src/private/currency-selection-assessment.ts:425-434 | different assessments have different texts |
| `AssessmentEncoding.CanonicalFormIsStable` | packages/database/src/private/currency-selection-assessment.ts:366-424 | reordering lists into canonical order keeps every rule between the parts |
| `AssessmentEncoding.FindUnitBySet` | packages/database/src/private/currency-selection-assessment.ts:306-312 | the search for the base definition does not depend on the order of the list |
| `AssessmentDecisions.IntentMeans` | packages/database/src/private/currency-selection-intent.ts:83-98 | an intent is read from exactly its own tuple |
| `AssessmentDecisions.ExpectationMeans` | packages/database/src/private/currency-selection-intent.ts:99-119 | what each action may expect to find in force |
| `AssessmentDecisions.AssessmentMeans` | packages/database/src/private/currency-selection-assessment.ts:357-388 | an assessment is read from exactly its own tuple, its parts in their places |
| `AssessmentDecisions.AdmittedMeans` | packages/database/src/private/currency-selection-assessment.ts:357-424 | which assessments fit an intent, rule by rule |
| `AssessmentDecisions.EvidenceOrderMeans` | packages/database/src/private/currency-selection-assessment.ts:299-304 | evidence ascends by kind, version and id |
| `PatternFacts.UuidIsThePattern` | packages/database/src/private/currency-selection-assessment.ts:59-63 | the test on ids is its expression |
| `PatternFacts.RequestKeyIsThePattern` | packages/database/src/private/currency-selection-intent.ts:27-36 | the test on request keys is its expression |
| `PatternFacts.CounterIsThePattern` | packages/database/src/private/currency-selection-assessment.ts:75-82 | the tests on counters are their expressions, length and maximum |
| `PatternFacts.UtcIsThePattern` | packages/database/src/private/currency-selection-assessment.ts:98-107 | the test on creation times is the expression and a moment of the calendar |
| `PatternFacts.DigestIsThePattern` | packages/database/src/private/currency-selection-assessment.ts:282 | the test on digests is its expression |
| `Gregorian.CivilRoundTrip` | apps/worker/src/renewal/renewal-calendar.ts:16-28 | a day number is the number of the date it falls on |
| `Gregorian.DayRoundTrip` | apps/worker/src/renewal/renewal-calendar.ts:16-28 | a date is the date of its day number |
| `Gregorian.OrderOfDays` | apps/worker/src/renewal/renewal-calendar.ts:58-60 | calendar order is the order of day numbers |
| `BillingPeriods.AddBillingPeriodMeaning` | apps/worker/src/renewal/renewal-calendar.ts:9-30 | keeps the time of day, and lands on the same day of the target month or its last day exactly when the target year is not 0 to 99 |
| `BillingPeriods.LastDayRead` | apps/worker/src/renewal/renewal-calendar.ts:16-18 | day 0 of the next month reads as the last day of the month |
| `BillingPeriods.PeriodSpan` | apps/worker/src/renewal/renewal-calendar.ts:9-30 | from year 100 on a period ends strictly later, after 28 to 31, 89 to 92 or 365 to 366 whole days |
| `BillingPeriods.SplitPeriods` | apps/worker/src/renewal/renewal-calendar.ts:9-30 | two steps never end later than one of their total length, and end together exactly when the month between is long enough |
| `BillingPeriods.RenewalsNeverPass` | apps/worker/src/renewal/renewal-calendar.ts:9-30 | any list of periods ends in the month one step of its total length ends in, and never later; three months against a quarter is one case |
| `BillingPeriods.AddingIsMonotone` | apps/worker/src/renewal/renewal-calendar.ts:9-30 | order is kept except exactly when both moments are clamped and the earlier has the later time of day |
| `BusinessDates.AddBusinessDaysShifts` | apps/worker/src/renewal/renewal-calendar.ts:48-56 | on dates of the years 100 to 9999 the result is the text of the date that many days away |
| `BusinessDates.AddBusinessDaysAdds` | apps/worker/src/renewal/renewal-calendar.ts:48-56 | adding twice adds the sum, and adding nothing changes nothing |
| `BusinessDates.DayTextOrder` | apps/worker/src/renewal/renewal-calendar.ts:58-60 | comparing the texts compares the days |
| `BusinessDates.InvoiceDueMeaning` | apps/worker/src/renewal/renewal-processor.service.ts:123-128 | the exact invoice-date test on texts is a comparison of days of the zone |
| `BusinessDates.DueInvoicesAreFetched` | apps/worker/src/renewal/renewal-processor.service.ts:105-119 | the cutoff with its two spare days keeps every service the exact test accepts |
| `BusinessDates.InvoiceWindowIsExact` | apps/worker/src/renewal/renewal-processor.service.ts:105-119 | the two spare days suffice exactly for offsets at most a day and a millisecond apart |
| `BusinessDates.WarningPrecedesSuspension` | apps/worker/src/notifications/notification-projection.service.ts:570-579 | the warning date is the day before the first date on which suspension may be requested |
| `BusinessDates.DueWarningsAreFetched` | apps/worker/src/notifications/notification-projection.service.ts:553-579 | the lower bound loses no warning, and with two grace days neither does the upper |
| `BusinessDates.WarningRangeIsExact` | apps/worker/src/notifications/notification-projection.service.ts:553-579 | for which offsets and grace days the range loses no warning |
| `BusinessDates.ExpiryRangeIsExact` | apps/worker/src/notifications/notification-projection.service.ts:515-534 | for which offsets the domain range loses no announcement |
| `FinalWarnings.WarnAll` | apps/worker/src/notifications/notification-projection.service.ts:549-590 | the paged scan warns exactly the picked invoices that deserve it and have no stored warning, once each and in order; with two grace days every one that deserves it has its warning stored afterwards |
| `FinalWarnings.WarnedOnce` | apps/worker/src/notifications/notification-projection.service.ts:146-165 | on however many ticks an invoice is warned at most once |
| `FinalWarnings.WarnedMeans` | apps/worker/src/notifications/notification-projection.service.ts:549-590 | who gets a warning, condition by condition |
| `FinalWarnings.PageAfter` | apps/worker/src/notifications/notification-projection.service.ts:551-569 | a page holds the first hundred matching ids after the given one |
| `RegistrarSafety.OneCallPerOperation` | packages/database/src/registrar/processor.ts:361-388 | in every run registerOnce is called at most once per operation, for a claimed one and at a cost from 1 to its ceiling |
| `RegistrarSafety.CallsFollowClaims` | packages/database/src/registrar/processor.ts:327-388 | the call is made only after the claim was committed by an earlier step and never before |
| `RegistrarSafety.OneOpenClaimPerAccount` | packages/database/src/registrar/processor.ts:300-341 | in every run each account has at most one claimed operation whose domain is neither REGISTERED nor FAILED |
| `RegistrarSafety.PollsAreBudgeted` | packages/database/src/registrar/processor.ts:143-147 | pollCount counts the claim and read slots, at most ten, each pair at least 15, 30 or 360 seconds apart |
| `RegistrarSafety.FinalStatesStay` | packages/database/src/registrar/processor.ts:407-445 | REGISTERED and FAILED are never left and the recorded registration never changes |
| `RegistrarSafety.RegisteredWhenConfirmed` | packages/database/src/registrar/processor.ts:408-445 | a domain becomes REGISTERED only by an Active observation of this account, customer, operation and name that expires in the future, and just that is recorded |
| `RegistrarSafety.ClaimsStay` | packages/database/src/registrar/processor.ts:327-334 | a claim and the account it is bound to are kept for good |
| `RegistrarSafety.StepKeeps` | packages/database/src/registrar/processor.ts:101-470 | every step keeps the whole invariant |
| `RegistrarDecisions.PreparationDecides` | packages/database/src/registrar/processor.ts:101-352 | the preparation transaction on an operation, condition by condition: refused, read again, sent back to approval, put off or claimed, with all it writes |
| `RegistrarDecisions.ClaimedExactlyInOrder` | packages/database/src/registrar/processor.ts:247-337 | a step claims an operation exactly when it prepares it admitted, unclaimed, paid in full, with approver and customer in order and the account free |
| `RegistrarDecisions.PaidIsFullyPaid` | packages/database/src/registrar/processor.ts:29-66 | paid in full: the customer's PAID invoice in BDT with nothing due, whose payments that succeeded are verified charges adding up to its total |
| `RegistrarDecisions.QuoteDecides` | packages/database/src/registrar/processor.ts:362-375 | on which quote and lookup a claim goes on, stops or only reads |
| `RegistrarDecisions.SettlementDecides` | packages/database/src/registrar/processor.ts:395-450 | what the closing transaction makes of the domain, and when the next read may be |
| `RegistrarDecisions.ClaimsWereInOrder` | packages/database/src/registrar/processor.ts:247-337 | in every run each claimed operation was claimed by a step at which all of that held |
| `RegistrarDecisions.CallsWerePaidAndQuoted` | packages/database/src/registrar/processor.ts:247-384 | in every run each call of registerOnce followed such a claim, at a cost quoted as available, in dollars, of the right mode and within the ceiling |
| `RegistrarProcessor.VerifiedDomainInvoice` | packages/database/src/registrar/processor.ts:28-67 | true exactly for a paid invoice of the customer in taka that verified charges, and nothing else that succeeded, add up to |
| `RegistrarProcessor.Processor.Prepare` | packages/database/src/registrar/processor.ts:101-358 | the preparation transaction takes the protocol's step: nothing, a sent-back domain, a claim or a read slot |
| `RegistrarProcessor.Processor.Admits` | packages/database/src/registrar/processor.ts:126-230 | the early returns refuse exactly what is not admitted |
| `RegistrarProcessor.Processor.AccountIsFree` | packages/database/src/registrar/processor.ts:311-326 | the loop over the account's claims finds an open one exactly when there is one |
| `RegistrarProcessor.Processor.Settle` | packages/database/src/registrar/processor.ts:397-445 | the closing transaction takes the protocol's step, and says whether it registered a domain |
| `RegistrarProcessor.Processor.SettleOrder` | packages/database/src/registrar/processor.ts:457-468 | the order of a registered domain becomes COMPLETED exactly when all of it is there, and PROCESSING otherwise |
| `RegistrarProcessor.Processor.Process` | packages/database/src/registrar/processor.ts:85-470 | one uninterrupted delivery is a run of the protocol, and settles an order exactly when it registered a domain |
| `RegistrarLocks.LocksClimb` | packages/database/src/registrar/processor.ts:102-113 | every transaction asks for its row locks in one ascending order, account ids sorted |
| `RegistrarLocks.AccountIdsAscend` | packages/database/src/registrar/processor.ts:105-113 | the one or two account ids are listed once each in ascending order |
| `RegistrarLocks.NoCyclicWait` | packages/database/src/registrar/processor.ts:398-400 | in no reachable state does a chain of waiting transactions come back to its start |
| `RegistrarLocks.SomeoneCanGoOn` | packages/database/src/fulfillment.ts:8 | while any transaction runs, one of them is not blocked |
| `Fulfillment.CompleteIsDeliveredAlways` | packages/database/src/fulfillment.ts:3-61 | after any writes the database accepts, an order counts as complete exactly when every item of it is there |
| `Fulfillment.CompleteIsDelivered` | packages/database/src/fulfillment.ts:28-60 | in every storable state counting registered and linked domains decides what looking at each item would |
| `Fulfillment.NoItemHasTwo` | packages/database/prisma/migrations/20261030170000_admin_combined_orders/migration.sql:11-33 | no item has both a domain of its own and one it took over |
| `Fulfillment.StoredKeeps` | packages/database/prisma/migrations/20261029060000_existing_domain_link/migration.sql:15-49 | every write the indexes, checks and triggers let through leaves a storable state |
| `Fulfillment.TakeoversAreDelivered` | packages/database/src/fulfillment.ts:35-59 | an item that took a domain over is never what is outstanding |
| `ContactPreparation.OneUnresolvedSignup` | packages/database/src/registrar/preparation.ts:57-70 | per account and customer at most one claimed signup lacks its remote id |
| `ContactPreparation.CreatedAtMostOnce` | packages/database/src/registrar/preparation.ts:48-56 | per account, customer and fingerprint the signup and the contact creation are each called at most once, and only when claimed |
| `ContactPreparation.ContactFollowsCustomer` | packages/database/src/registrar/preparation.ts:71-79 | a contact claim, and a mapping, exist only after a remote customer was recorded |
| `ContactPreparation.MappingsStay` | packages/database/src/registrar/preparation.ts:98-119 | a mapping is written once and stops further runs for its key |
| `ContactDecisions.RunDecides` | packages/database/src/registrar/resellbiz-live.ts:311-406 | where an uninterrupted run ends, answer by answer |
| `ContactDecisions.ClaimsAgree` | packages/database/src/registrar/preparation.ts:34-82 | when a signup may be claimed: the key new or the operation's own, not claimed before, and no other signup of the customer unresolved |
| `ContactRegistrar.Store.Claim` | packages/database/src/registrar/preparation.ts:35-81 | a claim succeeds exactly under its conditions and writes only its flag |
| `ContactRegistrar.LiveRegistrar.EnsureContacts` | packages/database/src/registrar/resellbiz-live.ts:302-403 | one call is a run of the protocol in which every remote answer is the one given; it reaches success only with the mapping of its binding stored |
| `HostingSafety.AttemptsFormOneChain` | apps/worker/src/renewal/hosting-automation.service.ts:257-302 | attempts of a source have different numbers from 1 to 3, and every one but the last failed in a temporary and retryable way |
| `HostingSafety.NoAttemptMissing` | apps/worker/src/renewal/hosting-automation.service.ts:263-278 | the numbers have no gap |
| `HostingSafety.UnknownIsLast` | apps/worker/src/renewal/hosting-automation.service.ts:726-746 | no attempt follows one of inconsistent result |
| `HostingSafety.OneMutationPerRow` | apps/worker/src/renewal/hosting-automation.service.ts:57-94 | each row enters the panel mutation at most once, and at most one row of a service is RUNNING |
| `HostingSafety.FiveDeferralsAtMost` | apps/worker/src/renewal/hosting-automation.service.ts:202-212 | for one cancellation and one due time at most five jobs are put off because the service is busy |
| `HostingSafety.CompletedCancellationWins` | apps/worker/src/renewal/hosting-automation.service.ts:237-250 | after a completed cancellation the service is suspended or terminated for good, held by no invoice |
| `HostingSafety.ReactivatedByItsInvoice` | apps/worker/src/renewal/hosting-automation.service.ts:588-612 | a suspended service becomes ACTIVE only by the reactivation for the invoice its last suspension named |
| `HostingSafety.StepKeeps` | apps/worker/src/renewal/hosting-automation.service.ts:148-746 | every step keeps the whole invariant |
| `HostingDecisions.MutatingExactlyWarranted` | apps/worker/src/renewal/hosting-automation.service.ts:306-348 | a worker goes to the panel exactly by a readable decision that invoice, service and cancellations warrant |
| `HostingDecisions.DecisionDecides` | apps/worker/src/renewal/hosting-automation.service.ts:83-90 | a warranted attempt goes on, an unreadable one fails and any other is skipped |
| `HostingDecisions.SkipDecides` | apps/worker/src/renewal/hosting-automation.service.ts:86-88 | a skipped attempt succeeds, or fails for now |
| `HostingDecisions.PanelDecides` | apps/worker/src/renewal/hosting-automation.service.ts:90-101 | a verified panel answer goes on to completion, an error to its own failure |
| `HostingDecisions.MutationsWereWarranted` | apps/worker/src/renewal/hosting-automation.service.ts:306-348 | in every run each row that entered the panel was sent there by such a decision: a suspension on an overdue balance, a reactivation on the paid invoice that held the service |
| `HostingDecisions.InvoiceJobDecides` | apps/worker/src/renewal/hosting-automation.service.ts:162-304 | when a job for an invoice opens an attempt, and which |
| `HostingDecisions.CancellationJobDecides` | apps/worker/src/renewal/hosting-automation.service.ts:187-256 | what a due cancellation job does: wait, reschedule, finish or open an attempt |
| `HostingDecisions.CancellationJobIgnored` | apps/worker/src/renewal/hosting-automation.service.ts:187-193 | without a job that may run and an open cancellation nothing happens |
| `HostingDecisions.CompletionDecides` | apps/worker/src/renewal/hosting-automation.service.ts:572-657 | what a completion writes for each source, and when it is refused |
| `HostingDecisions.FailureDecides` | apps/worker/src/renewal/hosting-automation.service.ts:726-746 | what a failure of each kind writes into the row |
| `HostingService.Automation.Prepare` | apps/worker/src/renewal/hosting-automation.service.ts:148-304 | the preparation takes the protocol's step and says what it hands over |
| `HostingService.Automation.FindLatest` | apps/worker/src/renewal/hosting-automation.service.ts:162-165 | the highest attempt number is the latest row of the source |
| `HostingService.Automation.IsEligible` | apps/worker/src/renewal/hosting-automation.service.ts:306-348 | eligibility as the protocol defines it |
| `HostingService.Automation.CompleteRow` | apps/worker/src/renewal/hosting-automation.service.ts:572-657 | completes exactly under its guard, and leaves everything as it was otherwise |
| `HostingService.Automation.Process` | apps/worker/src/renewal/hosting-automation.service.ts:48-119 | one uninterrupted delivery is a run of the protocol and keeps the invariant |
| `Renewal.PeriodsTile` | apps/worker/src/renewal/renewal-processor.service.ts:174-191 | in every run the periods of a service do not overlap, and only its last invoice may never have been paid |
| `Renewal.NoGaps` | apps/worker/src/renewal/renewal-processor.service.ts:174-191 | every moment between a service's periods lies in one of them |
| `Renewal.DueDateIsAnEdge` | apps/worker/src/renewal/renewal-processor.service.ts:280-285 | nextDueAt is the start of the last period, or its end once it was paid |
| `Renewal.DueDateNeverDecreases` | apps/worker/src/renewal/renewal-processor.service.ts:563-572 | nextDueAt never moves back |
| `Renewal.ReplayedPaymentMovesNothing` | apps/worker/src/renewal/renewal-processor.service.ts:529-572 | a payment applied once moves no due date later, whatever happened in between and whether its run was recorded or not |
| `Renewal.ReplayedPaymentWritesNothing` | apps/worker/src/renewal/renewal-processor.service.ts:488-496 | once a payment's run is SUCCEEDED and no delivery is still at it, delivering it again changes nothing in any later state |
| `Renewal.PaymentIsIdempotent` | apps/worker/src/renewal/renewal-processor.service.ts:529-610 | applying a payment twice in a row is applying it once |
| `Renewal.CreatedAtEnd` | apps/worker/src/renewal/renewal-processor.service.ts:176-191 | a new invoice starts where the last, paid one ended |
| `RenewalDecisions.CreationDecides` | apps/worker/src/renewal/renewal-processor.service.ts:140-314 | when an invoice is issued, with what on it, and when it moves the due date |
| `RenewalDecisions.CreationThrows` | apps/worker/src/renewal/renewal-processor.service.ts:160-215 | when creating an invoice throws |
| `RenewalDecisions.OverdueDecides` | apps/worker/src/renewal/renewal-processor.service.ts:419-454 | which invoices become OVERDUE |
| `RenewalDecisions.PaymentDecides` | apps/worker/src/renewal/renewal-processor.service.ts:529-610 | a settled invoice moves the due date to its end, if that is later, and asks for the reactivation it owes |
| `RenewalDecisions.ReactivationsExactly` | apps/worker/src/renewal/renewal-processor.service.ts:572-595 | a reactivation request is new exactly when a payment of its invoice finds the service suspended by it, and none is removed |
| `RenewalDecisions.ReactivationsOfRuns` | apps/worker/src/renewal/renewal-processor.service.ts:572-595 | the requests of any run are those its payments owed at their time |
| `RenewalDecisions.DueDatesExactly` | apps/worker/src/renewal/renewal-processor.service.ts:280-285 | a due date moves by a settled invoice or a free renewal of its own, to the end of the period, and by nothing else |
| `RenewalDecisions.DeliveryDecides` | apps/worker/src/renewal/renewal-processor.service.ts:481-527 | what one delivery of a payment moves, and how its run ends |
| `RenewalDecisions.SuspensionAskedExactly` | apps/worker/src/renewal/renewal-processor.service.ts:316-380 | whose suspension is asked for |
| `RenewalProcessor.Renewals.CreateRenewalInvoice` | apps/worker/src/renewal/renewal-processor.service.ts:140-314 | refuses, throws or issues the invoice as specified, a key clash included |
| `RenewalProcessor.Renewals.CreateDueInvoices` | apps/worker/src/renewal/renewal-processor.service.ts:100-138 | afterwards every renewable service whose invoice day has come is billed unless something failed, and nobody else was |
| `RenewalProcessor.Renewals.ProcessOpenRenewals` | apps/worker/src/renewal/renewal-processor.service.ts:316-380 | requests suspension exactly for active services past their grace, whose invoice is OVERDUE by then when there is a grace day |
| `RenewalProcessor.Renewals.MarkOverdue` | apps/worker/src/renewal/renewal-processor.service.ts:419-454 | changes exactly an unpaid invoice with a balance whose due moment has passed |
| `RenewalProcessor.Renewals.ApplyRenewalPayment` | apps/worker/src/renewal/renewal-processor.service.ts:529-610 | takes the protocol's step, and counts what it changed |
| `RenewalProcessor.Renewals.ProcessPayment` | apps/worker/src/renewal/renewal-processor.service.ts:481-527 | leaves a payment alone that succeeded before, and otherwise applies it and records how that ended |
| `RenewalProcessor.DateTestsAsText` | apps/worker/src/renewal/renewal-processor.service.ts:343-359 | the three date tests on texts are comparisons of days |
| `PatternFacts.DateIsThePattern` | apps/worker/src/renewal/renewal-calendar.ts:49 | the test on dates is its expression |
| `OutboxSafety.EventsAreSound` | apps/worker/src/outbox/outbox-dispatcher.service.ts:75-199 | whatever the dispatchers are called: locked exactly while PROCESSING, PUBLISHED only with its job added, attempts equal to the claims since creation or manual retry |
| `OutboxSafety.FourAttemptsWhilePending` | apps/worker/src/outbox/outbox-dispatcher.service.ts:148-169 | a PENDING event has at most four attempts in every run exactly if names are distinct |
| `OutboxSafety.LatestClaimantSettles` | apps/worker/src/outbox/outbox-dispatcher.service.ts:120-133 | in every run only the dispatcher that claimed an event last takes it out of PROCESSING, exactly if names are distinct |
| `OutboxSafety.PublishedStays` | apps/worker/src/outbox/outbox-dispatcher.service.ts:79-104 | a PUBLISHED event never changes again |
| `OutboxSafety.SharedNameBreaksIt` | apps/worker/src/outbox/outbox-dispatcher.service.ts:28 | any two dispatchers with one name have a run in which a stale claimant puts an event back that was claimed five times |
| `OutboxDecisions.ClaimsWhoWaits` | apps/worker/src/outbox/outbox-dispatcher.service.ts:80-93 | a dispatch claims only events that are PENDING and due or PROCESSING under a lock that ran out, and every unlocked one of them unless its batch is full |
| `OutboxDecisions.ClaimsTheEarliest` | apps/worker/src/outbox/outbox-dispatcher.service.ts:90-92 | whoever a full batch leaves out is due no earlier, and at the same time created no earlier, than all it takes |
| `OutboxDecisions.DispatchDecides` | apps/worker/src/outbox/outbox-dispatcher.service.ts:52-199 | one dispatch, row by row: the claim, what becomes of each event when its turn comes, who stays claimed, and which jobs are added |
| `OutboxDecisions.BackoffIsDelay` | apps/worker/src/outbox/outbox-dispatcher.service.ts:149-153 | the delays: two seconds doubling to five minutes |
| `OutboxDecisions.RetryDecides` | apps/api/src/modules/background-jobs/background-job.service.ts:91-124 | which events start over by hand, and how |
| `Outbox.JobIdIsInjective` | packages/queue/src/background-queue.catalog.ts:77-78 | different events have different job ids |
| `OutboxDispatcher.Dispatcher.Candidates` | apps/worker/src/outbox/outbox-dispatcher.service.ts:80-93 | the claimed events are claimable, ordered by availability and then creation, and the earliest that are not locked |
| `OutboxDispatcher.Dispatcher.PublicationFailed` | apps/worker/src/outbox/outbox-dispatcher.service.ts:148-169 | puts the event back with its doubling delay or fails it, if it is still its own |
| `OutboxDispatcher.Dispatcher.ClaimBatch` | apps/worker/src/outbox/outbox-dispatcher.service.ts:75-112 | claims exactly the candidates and reads them back with their new attempt counts, in the same order |
| `OutboxDispatcher.Dispatcher.PublishAll` | apps/worker/src/outbox/outbox-dispatcher.service.ts:114-146 | every event of the batch goes through exactly the steps its route and the answers it gets call for, until nothing more can be written about one |
| `OutboxDispatcher.Dispatcher.DispatchOnce` | apps/worker/src/outbox/outbox-dispatcher.service.ts:52-56 | the rows, jobs and locks end up as a run of the protocol leaves them that claims the earliest events and then publishes each, no step left out and none added |
| `OutboxDispatcher.Dispatcher.Tick` | apps/worker/src/outbox/outbox-dispatcher.service.ts:58-73 | a running dispatch is left alone and a finished or failed one leaves no batch behind; otherwise it is one whole dispatch |
| `Email.LogMirrorsAttempts` | apps/worker/src/email/email-delivery.service.ts:98-165 | attempts are numbered 1 to attemptCount, and the log is SENDING exactly while one is STARTED |
| `Email.OneSendPerAttempt` | apps/worker/src/email/email-delivery.service.ts:46-53 | the adapter is entered at most once per attempt |
| `Email.SentStays` | apps/worker/src/email/email-delivery.service.ts:121 | once SENT, log and attempts stay and nothing is sent |
| `Email.UnknownIsLast` | packages/queue/src/background-worker.ts:117-144 | while no run ends so that the queue or a hand may repeat it, an attempt of unknown outcome is the last |
| `Email.UnknownIsLastExactly` | packages/queue/src/background-worker.ts:117-144 | a run that ends with an unknown outcome to report can be followed by another attempt exactly if the report is lost and the job runs again or carries an earlier temporary failure |
| `Email.UnknownStays` | apps/api/src/modules/background-jobs/background-job.service.ts:66-75 | nor does any later event, manual retry included, add an attempt or a send |
| `Email.RepeatingIsReachable` | packages/queue/src/background-worker.ts:117-144 | both ways are open from the first delivery on |
| `EmailDecisions.RunDecides` | apps/worker/src/email/email-delivery.service.ts:26-165 | where one run of the job ends, answer by answer: log, attempts, sends, the kind thrown and the job |
| `EmailDecisions.DeliveryMeans` | apps/worker/src/email/email-delivery.service.ts:46-95 | nothing is thrown exactly when the log is SENT, and the adapter is entered at most once, for the newest attempt |
| `EmailDelivery.Delivery.ClaimAttempt` | apps/worker/src/email/email-delivery.service.ts:98-165 | the claiming transaction answers and writes as specified in each of its three cases |
| `EmailDelivery.Delivery.Deliver` | apps/worker/src/email/email-delivery.service.ts:26-96 | one delivery is a run of the protocol, leaves log, attempts and sends as its answers decide, and throws the kind it then reports |
| `EmailDelivery.Delivery.Process` | packages/queue/src/background-worker.ts:82-149 | one run of the job ends where its answers say; only a temporary failure is tried again |
| `EmailDelivery.Delivery.RetryJob` | apps/api/src/modules/background-jobs/background-job.service.ts:52-75 | a job is retried by hand exactly when it failed in a way classified as temporary |
| `Notifications.OneSubmissionPerEntry` | apps/worker/src/notifications/notification-delivery.service.ts:370-385 | in every run whose configuration does not come back from preview to live, the live adapter is entered at most once per entry |
| `Notifications.AtMostOnceExactly` | apps/worker/src/notifications/notification-delivery.service.ts:83-108 | for which successions of configurations an entry goes out at most once |
| `Notifications.SubmissionFollowsClaim` | apps/worker/src/notifications/notification-delivery.service.ts:370-436 | and, there, only for an entry committed as SUBMITTING and not entered before |
| `Notifications.FinalStays` | apps/worker/src/notifications/notification-delivery.service.ts:87-98 | a settled entry is not touched again |
| `Notifications.AbandonedStays` | apps/worker/src/notifications/notification-delivery.service.ts:435-470 | an entry whose worker stopped stays SUBMITTING for good |
| `Notifications.ComingBackRepeats` | apps/worker/src/notifications/notification-delivery.service.ts:89-108 | from the creation of an entry on, a run under live, preview and live again submits it twice |
| `NotificationDecisions.DeliveryDecides` | apps/worker/src/notifications/notification-delivery.service.ts:83-480 | where one delivery ends, answer by answer: who is left alone, suppressed, disabled, previewed or submitted, and how a submission is settled |
| `NotificationDecisions.SubmittedMeans` | apps/worker/src/notifications/notification-delivery.service.ts:435-470 | an entry that was submitted was queued under a live configuration, and is ACCEPTED or FAILED exactly on the stored answer that says so |
| `NotificationDelivery.Delivery.Prepare` | apps/worker/src/notifications/notification-delivery.service.ts:83-431 | the transaction leaves the entry, and a submission to make, as specified |
| `NotificationDelivery.Delivery.Deliver` | apps/worker/src/notifications/notification-delivery.service.ts:37-480 | one delivery is a run of the protocol, ends where its answers say, and enters the adapter at most once, after its claim |

## Left out

- Transports: HTTP, SMTP, cPanel, WhatsApp and Redis are calls that succeed, fail in a named class or have an unknown outcome. A response body that cannot be read is one of the temporary panel failures, so not every unknown panel outcome becomes INCONSISTENT.
- Encryption and digests: what is decrypted is given or unreadable, and a digest is compared as text.
- Tables other than those shown: the facts a transaction reads from accounts, credentials, quotes, users and settings are parameters of its step.
- Database plumbing: implicit locks of updates and foreign keys, isolation anomalies and failed commits are not modelled; a failed transaction is a step that does nothing.
- Evidence rows, activity logs, log records and mail texts: append-only output that no modelled decision reads.
- Result caps (`take: 1_000`) and the invoice numbers and snapshots an invoice carries.
- RegistrarProcessor.Processor.Prepare: the order of its early returns is not modelled where none of them writes anything.
- RegistrarLocks.NoCyclicWait: covers the explicit `FOR UPDATE` locks only.
- ContactPreparation.CreatedAtMostOnce: counts calls made through the preparation store; creations by hand at the registrar are outside it.
- HostingAutomation: the rows are those of one service, because no transaction touches two.
- Renewal: reminders and the JSON of an invoice are left out, and an invoice of another kind that names a service is not modelled.
- AssessmentText.EncodeCurrencySelectionAssessment: the SHA-256 digest of the intent is any function of its canonical text, and the digest of the assessment is not modelled.
- FinalWarnings.WarnAll: stands for one entry per invoice; the recipients and channels of a warning, and whether they are suppressed, are not modelled.
- OutboxDispatcher.Dispatcher.Candidates: events of equal availability and creation time may come in any order, as in the query.
- RegistrarProcessor.Processor.SettleOrder: the rows of other subsystems that it counts are given.
- LosslessJson.LosslessRegistrarJson: the order in which a JavaScript object lists integer-like keys is not modelled; fields stay in source order.
- BusinessDates.AddBusinessDaysShifts: five-digit years and the two-digit years of Date.UTC are modelled but excluded from the statement.
- BillingPeriods.PeriodSpan: time values beyond the range of a Date are not cut off.
- Email.UnknownIsLast: two runs of one job at the same time are excluded, as the queue's job lock promises.
