/** `FilmRatingValidator`: an MPA rating name must be present and one of
    the five names, compared exactly. A refusal replaces the default
    constraint message by one of its own. */
module FilmRatingValidator {
  import opened Wrappers

  /** `RATING_NAMES`. */
  const RatingNames: set<string> := {"G", "PG", "PG-13", "R", "NC-17"}

  /** What `isValid` leaves behind: its answer, whether it disabled the
      default violation, and the messages it added. */
  datatype Verdict = Verdict(valid: bool, defaultDisabled: bool, messages: seq<string>)

  const RequiredMessage := "film rating is required"

  /** The message listing the allowed names. `Set.of` iterates in an order
      the JDK does not fix, so the listing is a parameter. */
  function MustBeOneOf(listing: string): string {
    "film rating must be one of values: " + listing
  }

  /** `isValid(string, context)`. */
  function IsValid(rating: Option<string>, listing: string): (v: Verdict)
    ensures v.valid <==> rating.Some? && rating.value in RatingNames
    ensures v.valid ==> !v.defaultDisabled && v.messages == []
    ensures !v.valid ==> v.defaultDisabled && |v.messages| == 1
    ensures rating.None? ==> v.messages == [RequiredMessage]
    ensures rating.Some? && rating.value !in RatingNames ==> v.messages == [MustBeOneOf(listing)]
  {
    if rating.None? then Verdict(false, true, [RequiredMessage])
    else if rating.value !in RatingNames then Verdict(false, true, [MustBeOneOf(listing)])
    else Verdict(true, false, [])
  }

  /** Matching is exact: the lower-case spelling of an accepted name is
      refused with the listing message. */
  lemma CaseSensitive(listing: string)
    ensures IsValid(Some("PG"), listing).valid
    ensures !IsValid(Some("pg"), listing).valid
    ensures IsValid(Some("pg"), listing).messages == [MustBeOneOf(listing)]
    ensures IsValid(Some("NC-17"), listing).valid && !IsValid(Some("NC17"), listing).valid
  {
    assert "pg" != "PG" && "pg" != "G" && "pg" != "PG-13" && "pg" != "R" && "pg" != "NC-17" by {
      assert "pg"[0] == 'p';
    }
    assert "NC17" !in RatingNames by {
      assert |"NC17"| == 4;
      assert "NC17"[2] != "NC-17"[2];
    }
  }
}
