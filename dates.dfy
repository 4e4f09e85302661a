/** `java.time.LocalDate` as a (year, month, day) triple with its ordering. */
module Dates {

  datatype Date = Date(year: int, month: int, day: int)

  /** Every `LocalDate` has a month in 1..12 and a day in 1..31. */
  predicate FieldsInRange(d: Date) {
    1 <= d.month <= 12 && 1 <= d.day <= 31
  }

  /** `a.isBefore(b)`: chronological order, i.e. the lexicographic order of
      (year, month, day). */
  predicate IsBefore(a: Date, b: Date) {
    a.year < b.year
    || (a.year == b.year && a.month < b.month)
    || (a.year == b.year && a.month == b.month && a.day < b.day)
  }

  /** `a.isAfter(b)`. */
  predicate IsAfter(a: Date, b: Date) {
    IsBefore(b, a)
  }

  /** An integer that sorts dates chronologically (what `ORDER BY
      release_date` compares). */
  function Ordinal(d: Date): int {
    d.year * 372 + (d.month - 1) * 31 + (d.day - 1)
  }

  /** On real dates the ordinal order is the chronological order. */
  lemma OrdinalOrder(a: Date, b: Date)
    requires FieldsInRange(a) && FieldsInRange(b)
    ensures IsBefore(a, b) <==> Ordinal(a) < Ordinal(b)
    ensures a == b <==> Ordinal(a) == Ordinal(b)
  {
    var ma := (a.month - 1) * 31 + (a.day - 1);
    var mb := (b.month - 1) * 31 + (b.day - 1);
    assert 0 <= ma < 372 && 0 <= mb < 372;
    if a.year < b.year {
      assert a.year * 372 + 372 <= b.year * 372;
    } else if a.year > b.year {
      assert b.year * 372 + 372 <= a.year * 372;
    }
  }

  /** `isAfter` is transitive. */
  lemma IsAfterTransitive(a: Date, b: Date, c: Date)
    requires IsAfter(a, b) && IsAfter(b, c)
    ensures IsAfter(a, c)
  {
  }
}
