/** The two submissions the controller tests post, and what the validator
    makes of them. */
module EventScenarios {
  import opened Timestamps
  import opened ErrorCollector
  import opened EventValidation

  /** The well-formed submission: prices 100 and 200, enrollment from
      2019-09-30T15:27 to 2019-10-01T15:27, the event from 2019-10-02T15:27
      to 2019-10-03T15:27. */
  function CreateEventDto(): EventDto {
    EventDto("Spring", "REST API development",
             Of(2019, 9, 30, 15, 27), Of(2019, 10, 1, 15, 27),
             Of(2019, 10, 2, 15, 27), Of(2019, 10, 3, 15, 27),
             "경성대학교", 100, 200, 100)
  }

  /** The wrong submission: base price 10000 over a maximum of 200, and the
      event ending at 2019-10-01T15:27, the very minute enrollment closes and
      a day before the event begins. */
  function WrongInputDto(): EventDto {
    CreateEventDto().(endEventDateTime := Of(2019, 10, 1, 15, 27), basePrice := 10000)
  }

  /** Validating the well-formed submission leaves a fresh collector empty. */
  method CreateEvent() returns (accepted: bool, errs: seq<Error>)
    ensures accepted && errs == []
  {
    var errors := new Errors();
    Validate(CreateEventDto(), errors);
    accepted := errors.all == [];
    errs := errors.all;
  }

  /** Validating the wrong submission rejects both prices, the price pair and
      the begin of the event. The end of the event is not rejected: it is
      equal to, not strictly before, the close of enrollment. */
  method CreateEventWrongInput() returns (accepted: bool, errs: seq<Error>)
    ensures !accepted
    ensures errs == [BasePriceError, MaxPriceError, PricesError, BeginEventError]
    ensures !RejectsField(errs, "endEventDateTime")
    ensures errs[0].FieldError? && errs[0].code == "wrongValue" && errs[0].message != ""
  {
    var errors := new Errors();
    Validate(WrongInputDto(), errors);
    accepted := errors.all == [];
    errs := errors.all;
  }
}
