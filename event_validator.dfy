/** The event-submission validator.

    `Validate` runs four independent checks on a submission (prices, end of
    the event, begin of the event, close of enrollment) and appends records to
    the caller's error collector for every check that fails: three for the
    price check, one for each date check. `Rejections` is
    the list it appends; the lemmas say what that list means. */
module EventValidation {
  import opened Timestamps
  import opened ErrorCollector

  /** An incoming event submission. */
  datatype EventDto = EventDto(
    name: string,
    description: string,
    beginEnrollmentDateTime: DateTime,
    closeEnrollmentDateTime: DateTime,
    beginEventDateTime: DateTime,
    endEventDateTime: DateTime,
    location: string,
    basePrice: int,
    maxPrice: int,
    limitOfEnrollment: int)

  const BasePriceError := FieldError("basePrice", "wrongValue", "BasePrice is Wrong.")
  const MaxPriceError := FieldError("maxPrice", "wrongValue", "MaxPrice is Wrong.")
  const PricesError := ObjectError("wrongPrices", "Values for prices are wrong")
  const EndEventError := FieldError("endEventDateTime", "wrongValue", "EndEventDateTime is Wrong.")
  const BeginEventError := FieldError("beginEventDateTime", "wrongValue", "BeginEventDateTime is Wrong.")
  const CloseEnrollmentError :=
    FieldError("closeEnrollmentDateTime", "wrongValue", "CloseEnrollmentDateTime is Wrong.")

  // The four guards, as the validator writes them.

  predicate PricesWrong(d: EventDto) {
    d.basePrice > d.maxPrice && d.maxPrice > 0
  }

  /** The first disjunct compares the end of the event with itself. */
  predicate EndWrong(d: EventDto) {
    || d.endEventDateTime.IsBefore(d.endEventDateTime)
    || d.endEventDateTime.IsBefore(d.closeEnrollmentDateTime)
    || d.endEventDateTime.IsBefore(d.beginEnrollmentDateTime)
  }

  predicate BeginWrong(d: EventDto) {
    || d.beginEventDateTime.IsAfter(d.endEventDateTime)
    || d.beginEventDateTime.IsBefore(d.closeEnrollmentDateTime)
    || d.beginEventDateTime.IsBefore(d.beginEnrollmentDateTime)
  }

  predicate CloseWrong(d: EventDto) {
    || d.closeEnrollmentDateTime.IsBefore(d.beginEnrollmentDateTime)
    || d.closeEnrollmentDateTime.IsAfter(d.beginEventDateTime)
    || d.closeEnrollmentDateTime.IsAfter(d.endEventDateTime)
  }

  /** The records one validation of `d` appends, in the order it appends them. */
  function Rejections(d: EventDto): (r: seq<Error>) {
    (if PricesWrong(d) then [BasePriceError, MaxPriceError, PricesError] else [])
    + (if EndWrong(d) then [EndEventError] else [])
    + (if BeginWrong(d) then [BeginEventError] else [])
    + (if CloseWrong(d) then [CloseEnrollmentError] else [])
  }

  /** Checks `eventDto` and appends the records of every violated rule to
      `errors`: three for the price rule, one for each date rule.
      Records already in `errors` are kept, in front. */
  method Validate(eventDto: EventDto, errors: Errors)
    modifies errors
    ensures errors.all == old(errors.all) + Rejections(eventDto)
  {
    if eventDto.basePrice > eventDto.maxPrice && eventDto.maxPrice > 0 {
      errors.RejectValue("basePrice", "wrongValue", "BasePrice is Wrong.");
      errors.RejectValue("maxPrice", "wrongValue", "MaxPrice is Wrong.");
      errors.Reject("wrongPrices", "Values for prices are wrong");
    }

    var endEventDateTime := eventDto.endEventDateTime;
    if endEventDateTime.IsBefore(eventDto.endEventDateTime) ||
       endEventDateTime.IsBefore(eventDto.closeEnrollmentDateTime) ||
       endEventDateTime.IsBefore(eventDto.beginEnrollmentDateTime)
    {
      errors.RejectValue("endEventDateTime", "wrongValue", "EndEventDateTime is Wrong.");
    }

    var beginEventDateTime := eventDto.beginEventDateTime;
    if beginEventDateTime.IsAfter(eventDto.endEventDateTime) ||
       beginEventDateTime.IsBefore(eventDto.closeEnrollmentDateTime) ||
       beginEventDateTime.IsBefore(eventDto.beginEnrollmentDateTime)
    {
      errors.RejectValue("beginEventDateTime", "wrongValue", "BeginEventDateTime is Wrong.");
    }

    var closeEnrollmentDateTime := eventDto.closeEnrollmentDateTime;
    if closeEnrollmentDateTime.IsBefore(eventDto.beginEnrollmentDateTime) ||
       closeEnrollmentDateTime.IsAfter(eventDto.beginEventDateTime) ||
       closeEnrollmentDateTime.IsAfter(eventDto.endEventDateTime)
    {
      errors.RejectValue("closeEnrollmentDateTime", "wrongValue", "CloseEnrollmentDateTime is Wrong.");
    }
  }

  /** The intended consistency of a submission: the prices are in order unless
      the maximum is zero or less (no maximum), and
      begin of enrollment <= close of enrollment <= begin of event <= end of event. */
  predicate Consistent(d: EventDto) {
    && (d.maxPrice > 0 ==> d.basePrice <= d.maxPrice)
    && d.beginEnrollmentDateTime.NotAfter(d.closeEnrollmentDateTime)
    && d.closeEnrollmentDateTime.NotAfter(d.beginEventDateTime)
    && d.beginEventDateTime.NotAfter(d.endEventDateTime)
  }

  /** The position a record takes in the validator's fixed order
      (price, end, begin, close); 6 for a record it never produces. */
  function Rank(e: Error): (rank: nat) {
    match e
    case FieldError(field, _, _) =>
      if field == "basePrice" then 0
      else if field == "maxPrice" then 1
      else if field == "endEventDateTime" then 3
      else if field == "beginEventDateTime" then 4
      else if field == "closeEnrollmentDateTime" then 5
      else 6
    case ObjectError(code, _) =>
      if code == "wrongPrices" then 2 else 6
  }

  /** The self-comparison in the end-of-event guard never holds, so that
      guard is the two remaining comparisons. */
  lemma SelfComparisonVacuous(d: EventDto)
    ensures !d.endEventDateTime.IsBefore(d.endEventDateTime)
    ensures EndWrong(d) <==>
              d.endEventDateTime.IsBefore(d.closeEnrollmentDateTime)
              || d.endEventDateTime.IsBefore(d.beginEnrollmentDateTime)
  {
    BeforeIrreflexive(d.endEventDateTime);
  }

  /** The price records are appended exactly when the base price exceeds a
      positive maximum, all three of them, first and in this order; with a
      maximum of zero or less no price record appears, whatever the base price. */
  lemma PriceRule(d: EventDto)
    ensures RejectsField(Rejections(d), "basePrice") <==> d.basePrice > d.maxPrice && d.maxPrice > 0
    ensures RejectsField(Rejections(d), "maxPrice") <==> d.basePrice > d.maxPrice && d.maxPrice > 0
    ensures RejectsObject(Rejections(d), "wrongPrices") <==> d.basePrice > d.maxPrice && d.maxPrice > 0
    ensures d.basePrice > d.maxPrice && d.maxPrice > 0 ==>
              |Rejections(d)| >= 3 && Rejections(d)[..3] == [BasePriceError, MaxPriceError, PricesError]
    ensures d.maxPrice <= 0 ==> forall e :: e in Rejections(d) ==> Rank(e) > 2
  {
  }

  /** The end of the event is rejected exactly when it falls strictly before
      the close or the begin of enrollment. */
  lemma EndRule(d: EventDto)
    ensures RejectsField(Rejections(d), "endEventDateTime") <==>
              !(d.closeEnrollmentDateTime.NotAfter(d.endEventDateTime)
                && d.beginEnrollmentDateTime.NotAfter(d.endEventDateTime))
  {
    SelfComparisonVacuous(d);
    if EndWrong(d) {
      assert EndEventError in Rejections(d);
    }
  }

  /** The begin of the event is rejected exactly when it does not lie at or
      after both enrollment bounds and at or before the end of the event. */
  lemma BeginRule(d: EventDto)
    ensures RejectsField(Rejections(d), "beginEventDateTime") <==>
              !(d.beginEnrollmentDateTime.NotAfter(d.beginEventDateTime)
                && d.closeEnrollmentDateTime.NotAfter(d.beginEventDateTime)
                && d.beginEventDateTime.NotAfter(d.endEventDateTime))
  {
  }

  /** The close of enrollment is rejected exactly when it does not lie at or
      after the begin of enrollment and at or before both event bounds. */
  lemma CloseRule(d: EventDto)
    ensures RejectsField(Rejections(d), "closeEnrollmentDateTime") <==>
              !(d.beginEnrollmentDateTime.NotAfter(d.closeEnrollmentDateTime)
                && d.closeEnrollmentDateTime.NotAfter(d.beginEventDateTime)
                && d.closeEnrollmentDateTime.NotAfter(d.endEventDateTime))
  {
  }

  /** The records come in the fixed order price, end, begin, close, none
      twice; hence at most six are appended. */
  lemma RejectionsOrdered(d: EventDto)
    ensures forall i, j :: 0 <= i < j < |Rejections(d)| ==> Rank(Rejections(d)[i]) < Rank(Rejections(d)[j])
    ensures forall e :: e in Rejections(d) ==> Rank(e) < 6
    ensures |Rejections(d)| <= 6
    ensures forall e :: e in Rejections(d) && e.FieldError? ==> e.code == "wrongValue"
  {
  }

  /** The bound of six is reached: every check can fail at once. */
  lemma AllChecksCanFail()
    ensures exists d :: |Rejections(d)| == 6
  {
    var early := Of(2019, 9, 30, 15, 27);
    var late := Of(2019, 10, 3, 15, 27);
    var d := EventDto("", "", early, late, late, early, "", 2, 1, 0);
    OfOrder(2019, 9, 30, 15, 27, 2019, 10, 3, 15, 27);
    assert PricesWrong(d) && EndWrong(d) && BeginWrong(d) && CloseWrong(d);
    assert |Rejections(d)| == 6;
  }

  /** A submission passes validation exactly when it is consistent. */
  lemma AcceptedIffConsistent(d: EventDto)
    ensures Rejections(d) == [] <==> Consistent(d)
  {
    var begin, close := d.beginEnrollmentDateTime, d.closeEnrollmentDateTime;
    var start, end := d.beginEventDateTime, d.endEventDateTime;
    if Consistent(d) {
      NotAfterTransitive(begin, close, start);
      NotAfterTransitive(close, start, end);
      NotAfterTransitive(begin, start, end);
      BeforeIrreflexive(end);
    }
  }

  /** Validation reads only the prices and the four date-times. */
  lemma RejectionsIgnoreDescriptiveFields(d: EventDto, name: string, description: string,
                                          location: string, limit: int)
    ensures Rejections(d.(name := name, description := description,
                          location := location, limitOfEnrollment := limit)) == Rejections(d)
  {
  }
}
