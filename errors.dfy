/** The error collector a caller hands to the validator.

    Each record names either a rejected field or the whole object, and carries
    an error code and a default message. The collector only grows: rejecting
    appends one record at the end. */
module ErrorCollector {

  datatype Error =
    | FieldError(field: string, code: string, message: string)
    | ObjectError(code: string, message: string)

  class Errors {
    /** The records collected so far, oldest first. */
    var all: seq<Error>

    constructor ()
      ensures all == []
    {
      all := [];
    }

    /** Rejects one field of the object under validation. */
    method RejectValue(field: string, code: string, message: string)
      modifies this
      ensures all == old(all) + [FieldError(field, code, message)]
    {
      all := all + [FieldError(field, code, message)];
    }

    /** Rejects the object as a whole. */
    method Reject(code: string, message: string)
      modifies this
      ensures all == old(all) + [ObjectError(code, message)]
    {
      all := all + [ObjectError(code, message)];
    }
  }

  /** Some record in `errs` rejects the field `field`. */
  predicate RejectsField(errs: seq<Error>, field: string) {
    exists e :: e in errs && e.FieldError? && e.field == field
  }

  /** Some record in `errs` rejects the whole object with code `code`. */
  predicate RejectsObject(errs: seq<Error>, code: string) {
    exists e :: e in errs && e.ObjectError? && e.code == code
  }
}
