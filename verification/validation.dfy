/**
 The failures a constructor of the entity records can report. Like a Pydantic
 `ValidationError`, a failed construction carries every violation found,
 listed in the order of the fields that were checked.
 */
module Validation {
  import opened Results

  /** The constrained fields of the records, in their declaration order. */
  datatype Field =
    | TextField | OutputFormatField
    | StartPositionField | EndPositionField
    | ConfidenceScoreField | SignatureScoreField

  /** One line of a validation error. The first five correspond to declared
      field constraints; the last two to the custom field validators. */
  datatype Violation =
    | StringTooLong(field: Field)     // `max_length` exceeded
    | NotGreaterEqual(field: Field)   // `ge` bound not met
    | NotGreaterThan(field: Field)    // `gt` bound not met
    | NotLessEqual(field: Field)      // `le` bound not met
    | NotEnumMember(field: Field)     // value is not one of the enumeration's values
    | BlankText                       // text empty or whitespace only
    | EndNotAfterStart                // end offset not beyond the start offset

  /** The violations of `ge=0` on an integer field. */
  function AtLeastZero(field: Field, v: int): seq<Violation> {
    if v >= 0 then [] else [NotGreaterEqual(field)]
  }

  /** The violations of `gt=0` on an integer field. */
  function AboveZero(field: Field, v: int): seq<Violation> {
    if v > 0 then [] else [NotGreaterThan(field)]
  }

  /** The violations of `ge=0.0, le=1.0` on a score; the lower bound is checked first. */
  function InUnitInterval(field: Field, x: real): seq<Violation> {
    if x < 0.0 then [NotGreaterEqual(field)]
    else if x > 1.0 then [NotLessEqual(field)]
    else []
  }

  /** The outcome of a construction: the record when nothing was violated,
      otherwise every violation. */
  function Validated<T>(violations: seq<Violation>, record: T): Result<T, seq<Violation>> {
    if violations == [] then Ok(record) else Err(violations)
  }
}
