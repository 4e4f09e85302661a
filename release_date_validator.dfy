/** `ReleaseDateValidator`: a release date must be present and later than
    the first public film show on 28 December 1895. */
module ReleaseDateValidator {
  import opened Wrappers
  import opened Dates

  /** `MIN_DATE`. */
  const MinDate := Date(1895, 12, 28)

  /** `isValid(localDate, context)`. */
  predicate IsValid(d: Option<Date>) {
    d.Some? && IsAfter(d.value, MinDate)
  }

  /** The boundary: a missing date, the minimum date and the day before it
      are refused; the day after it is accepted. */
  lemma Boundary()
    ensures !IsValid(None)
    ensures !IsValid(Some(Date(1895, 12, 28)))
    ensures !IsValid(Some(Date(1895, 12, 27)))
    ensures IsValid(Some(Date(1895, 12, 29)))
  {
  }

  /** Validity is upward closed: a date after a valid date is valid. */
  lemma ValidityMonotone(a: Date, b: Date)
    requires IsValid(Some(a)) && IsAfter(b, a)
    ensures IsValid(Some(b))
  {
    IsAfterTransitive(b, a, MinDate);
  }

  /** On real dates, validity is a bound on the ordinal. */
  lemma ValidIffAfterOrdinal(d: Date)
    requires FieldsInRange(d)
    ensures IsValid(Some(d)) <==> Ordinal(d) > Ordinal(MinDate)
  {
    OrdinalOrder(MinDate, d);
  }
}
