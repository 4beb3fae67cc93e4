# Event submission validator

A model of the validator of a small REST API that manages events. Before an
event is created, the submitted `EventDto` (two prices and four date-times:
begin and close of enrollment, begin and end of the event) is run through
`EventValidator.validate`. For every check that fails it appends error
records to a caller-supplied `Errors` collector: three for the price check,
one for each of the three date checks. The controller that calls it is not
part of this model; its tests expect 201 Created for a submission that passes
(src/test/java/me/jaehong/restapi/events/EventControllerTests.java:74) and
400 Bad Request for one that does not (line 195).

Files:

- `timestamps.dfy` (module `Timestamps`): a time-zone-free date-time and its
  strict order, compared field by field (year, month, day, hour, minute,
  second, nanosecond); `IsBefore` and `IsAfter` are the strict comparisons.
  Lemmas prove the order strict and total.
- `errors.dfy` (module `ErrorCollector`): an error record is a field error
  (field, code, message) or an object error (code, message); the class
  `Errors` holds the collected records in a `seq` that `RejectValue` and
  `Reject` append to.
- `event_validator.dfy` (module `EventValidation`): the submission, the four
  guards as written, `Rejections(d)` (the list one validation appends) and
  the method `Validate`, which changes the collector in place and is proved
  to append exactly `Rejections(d)`. The lemmas state what that list means.
- `event_scenarios.dfy` (module `EventScenarios`): the two submissions of the
  controller tests, validated through a fresh collector.

Points where the code's behaviour differs from what a reader might expect:

- The wrong-input controller test
  (src/test/java/me/jaehong/restapi/events/EventControllerTests.java:179-199)
  expects a 400 and a body whose first error has an object name, a code and
  a default message (lines 195-199); it does not say which fields are
  rejected. The code rejects that submission on `basePrice`,
  `maxPrice`, the object code `wrongPrices` and `beginEventDateTime`, since
  the event begins after it ends. It does not reject `endEventDateTime`: the
  end of the event (2019-10-01T15:27) equals the close of enrollment and is
  not strictly before it (`EventScenarios.CreateEventWrongInput`).
- The price check is skipped for every maximum of 0 or less, not only for 0
  (src/main/java/me/jaehong/restapi/events/EventValidator.java:12).
- The end-of-event guard compares the end with itself as its first
  disjunct (src/main/java/me/jaehong/restapi/events/EventValidator.java:19).
  It is kept as written. `SelfComparisonVacuous` proves it never holds. The
  other two disjuncts decide the guard.

## Model

| member | source | states |
|---|---|---|
| `EventValidation.Validate` | src/main/java/me/jaehong/restapi/events/EventValidator.java:11-40 | the collector keeps its earlier records as a prefix and gains exactly `Rejections(d)`: price records, then end, begin, close |
| `ErrorCollector.Errors.RejectValue` | src/main/java/me/jaehong/restapi/events/EventValidator.java:13-14 | appends one field error (field, code, message) at the end and changes nothing else |
| `ErrorCollector.Errors.Reject` | src/main/java/me/jaehong/restapi/events/EventValidator.java:15 | appends one object-level error (code, message) at the end and changes nothing else |
| `EventValidation.PriceRule` | src/main/java/me/jaehong/restapi/events/EventValidator.java:12-16 | `basePrice`, `maxPrice` and object `wrongPrices` records appear iff basePrice > maxPrice > 0; then they are the first three records, in that order; with maxPrice <= 0 no price record appears whatever basePrice is |
| `EventValidation.SelfComparisonVacuous` | src/main/java/me/jaehong/restapi/events/EventValidator.java:18-21 | the end compared with itself is never "before", so the end guard holds iff end < close of enrollment or end < begin of enrollment |
| `EventValidation.EndRule` | src/main/java/me/jaehong/restapi/events/EventValidator.java:18-23 | an `endEventDateTime` record appears iff the end is not at or after both the close and the begin of enrollment |
| `EventValidation.BeginRule` | src/main/java/me/jaehong/restapi/events/EventValidator.java:25-31 | a `beginEventDateTime` record appears iff the begin of the event is not at or after both enrollment bounds and at or before the end |
| `EventValidation.CloseRule` | src/main/java/me/jaehong/restapi/events/EventValidator.java:32-38 | a `closeEnrollmentDateTime` record appears iff the close of enrollment is not at or after its begin and at or before both event bounds |
| `EventValidation.RejectionsOrdered` | src/main/java/me/jaehong/restapi/events/EventValidator.java:11-40 | records come in the fixed order price, end, begin, close with none repeated, so at most six are appended; every field record has code `wrongValue` |
| `EventValidation.AllChecksCanFail` | src/main/java/me/jaehong/restapi/events/EventValidator.java:11-40 | the checks do not exclude each other: some submission makes all four fail, giving six records |
| `EventValidation.AcceptedIffConsistent` | src/main/java/me/jaehong/restapi/events/EventValidator.java:12-38 | nothing is appended iff (maxPrice > 0 implies basePrice <= maxPrice) and begin of enrollment <= close <= begin of event <= end; the comparisons are strict, so equal times pass |
| `EventValidation.RejectionsIgnoreDescriptiveFields` | src/main/java/me/jaehong/restapi/events/EventValidator.java:11-40 | the records depend only on the prices and the four date-times, not on name, description, location or limit of enrollment |
| `Timestamps.BeforeIrreflexive` | src/main/java/me/jaehong/restapi/events/EventValidator.java:19 | no date-time is strictly before or after itself |
| `Timestamps.AfterIsConverse` | src/main/java/me/jaehong/restapi/events/EventValidator.java:27-36 | `s.isAfter(t)` iff `t.isBefore(s)`, and the two never hold together |
| `Timestamps.BeforeTransitive` | src/main/java/me/jaehong/restapi/events/EventValidator.java:19-36 | "strictly before" is transitive |
| `Timestamps.Trichotomy` | src/main/java/me/jaehong/restapi/events/EventValidator.java:19-36 | any two date-times are equal or one is strictly before the other |
| `Timestamps.NotAfterTransitive` | src/main/java/me/jaehong/restapi/events/EventValidator.java:19-36 | "at or before" is transitive |
| `Timestamps.LexIrreflexive` | src/main/java/me/jaehong/restapi/events/EventValidator.java:19-36 | the field-by-field order relates no key to itself |
| `Timestamps.LexTransitive` | src/main/java/me/jaehong/restapi/events/EventValidator.java:19-36 | the field-by-field order is transitive |
| `Timestamps.LexTotal` | src/main/java/me/jaehong/restapi/events/EventValidator.java:19-36 | any two keys of equal length are equal or ordered one way |
| `Timestamps.LexAppendSame` | src/main/java/me/jaehong/restapi/events/EventValidator.java:19-36 | appending equal trailing fields to two keys leaves their order unchanged |
| `Timestamps.OfOrder` | src/test/java/me/jaehong/restapi/events/EventControllerTests.java:182-185 | date-times built to the minute, as the tests build them, are ordered exactly as their (year, month, day, hour, minute) tuples |
| `EventScenarios.CreateEvent` | src/test/java/me/jaehong/restapi/events/EventControllerTests.java:55-74 | the well-formed test submission (100/200, 2019-09-30 to 2019-10-03) leaves a fresh collector empty, so it is accepted |
| `EventScenarios.CreateEventWrongInput` | src/test/java/me/jaehong/restapi/events/EventControllerTests.java:179-199 | the wrong test submission yields exactly `basePrice`, `maxPrice`, `wrongPrices` and `beginEventDateTime` records and no `endEventDateTime` record, so it is rejected; the first record is a field error, with a code and a default message |

## Left out

- Null date-times: the code reads every date-time without a null check, so a missing one would raise an exception. The model makes all four always present.
- The empty-submission rejection: it comes from field-presence annotations on `EventDto`, and `EventDto` is not part of this model.
- The derived `free` and `offline` flags and the initial `DRAFT` status: the code that computes them (`Event`, `EventController`) is not part of this model.
- Spring's `Errors` internals (message resolution, binding field paths to the bean, the 400 response) and the HTTP layer, persistence and id generation: each record is a plain value and the collector a list.
- Calendar validity of date-times (month 1 to 12 and so on): `LocalDateTime` rejects invalid values when it is built, and the order the validator uses does not depend on it.
- Integer width of the prices: `EventDto` is not part of this model; the validator only compares the prices, so an unbounded `int` gives the same answers as a 32-bit one.
