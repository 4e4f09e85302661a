/** `FilmMapper.mapRow`: turns one row of the film query into a `Film`. The
    query folds a film's genres and directors into comma-separated id and
    name columns (`COALESCE(GROUP_CONCAT(…), '')`); the mapper splits them
    again, pairs ids with names by position, drops repeated ids and orders
    what is left by id. */
module FilmMapper {
  import opened Wrappers
  import opened Errors
  import opened Text
  import opened Dates
  import opened Model
  import opened Collections

  /** The columns of one result row. */
  datatype FilmColumns = FilmColumns(
    id: int,
    name: string,
    description: string,
    releaseDate: Date,
    duration: int,
    likes: int,
    mpaId: int,
    mpaName: string,
    genresIds: string,
    genresNames: string,
    directorsIds: string,
    directorsNames: string)

  /** `filter(x -> !x.isBlank())`. */
  function NonBlank(tokens: seq<string>): (r: seq<string>)
    ensures |r| <= |tokens|
    ensures forall i :: 0 <= i < |r| ==> !IsBlank(r[i]) && r[i] in tokens
    ensures (forall i :: 0 <= i < |tokens| ==> !IsBlank(tokens[i])) ==> r == tokens
  {
    if tokens == [] then []
    else if IsBlank(tokens[0]) then NonBlank(tokens[1..])
    else [tokens[0]] + NonBlank(tokens[1..])
  }

  /** `map(Integer::parseInt).toList()`: the first token that is not a
      number throws. */
  function ParseAll(tokens: seq<string>): (r: Result<seq<int>, Error>)
    ensures r.Ok? <==> forall i :: 0 <= i < |tokens| ==> ParseInt(tokens[i]).Some?
    ensures r.Ok? ==> |r.value| == |tokens| && forall i :: 0 <= i < |tokens| ==> ParseInt(tokens[i]) == Some(r.value[i])
    ensures r.Fail? ==>
      exists i :: 0 <= i < |tokens| && ParseInt(tokens[i]).None? && r.error == NumberFormat(tokens[i]) &&
        forall j :: 0 <= j < i ==> ParseInt(tokens[j]).Some?
  {
    if tokens == [] then Ok([])
    else
      match ParseInt(tokens[0])
      case None => Fail(NumberFormat(tokens[0]))
      case Some(v) =>
        var rest := ParseAll(tokens[1..]);
        if rest.Fail? then
          assert exists i ::
              1 <= i < |tokens| && ParseInt(tokens[i]).None? && rest.error == NumberFormat(tokens[i]) &&
              forall j :: 1 <= j < i ==> ParseInt(tokens[j]).Some? by {
            var k :| 0 <= k < |tokens[1..]| && ParseInt(tokens[1..][k]).None? && rest.error == NumberFormat(tokens[1..][k]) &&
              forall j :: 0 <= j < k ==> ParseInt(tokens[1..][j]).Some?;
            assert forall j :: 1 <= j < k + 1 ==> tokens[j] == tokens[1..][j - 1];
          }
          Fail(rest.error)
        else
          assert forall i :: 1 <= i < |tokens| ==> tokens[i] == tokens[1..][i - 1];
          Ok([v] + rest.value)
  }

  /** An id column parsed: split at commas, blanks dropped, each token
      parsed. */
  function ParseIds(column: string): Result<seq<int>, Error> {
    ParseAll(NonBlank(JavaSplit(column)))
  }

  /** `IntStream.range(0, ids.size())` with `names.get(i)`: pairs the i-th
      id with the i-th name; too few names throw at the first missing one. */
  function Zip(ids: seq<int>, names: seq<string>): (r: Result<seq<(int, string)>, Error>)
    ensures r.Fail? <==> |ids| > |names|
    ensures r.Fail? ==> r.error == IndexOutOfBounds(|names|, |names|)
    ensures r.Ok? ==> |r.value| == |ids| && forall i :: 0 <= i < |ids| ==> r.value[i] == (ids[i], names[i])
  {
    if |ids| > |names| then Fail(IndexOutOfBounds(|names|, |names|))
    else Ok(seq(|ids|, i requires 0 <= i < |ids| => (ids[i], names[i])))
  }

  /** The ids occurring among the pairs. */
  function PairIds(pairs: seq<(int, string)>): set<int> {
    set p | p in pairs :: p.0
  }

  /** The position of the first pair that carries `id`. */
  function FirstIndex(pairs: seq<(int, string)>, id: int): (j: nat)
    requires id in PairIds(pairs)
    ensures j < |pairs| && pairs[j].0 == id
    ensures forall k :: 0 <= k < j ==> pairs[k].0 != id
  {
    if pairs[0].0 == id then 0
    else
      assert id in PairIds(pairs[1..]) by {
        var p :| p in pairs && p.0 == id;
        var i :| 0 <= i < |pairs| && pairs[i] == p;
        assert pairs[1..][i - 1] == p;
      }
      var j := FirstIndex(pairs[1..], id);
      assert forall k :: 1 <= k < j + 1 ==> pairs[k] == pairs[1..][k - 1];
      j + 1
  }

  /** `Collectors.toSet()` followed by a `TreeSet` ordered by id: one pair
      per id, in ascending id order, each the first pair with its id. */
  function Collect(pairs: seq<(int, string)>): (r: seq<(int, string)>)
    ensures |r| == |PairIds(pairs)|
    ensures forall i, j :: 0 <= i < j < |r| ==> r[i].0 < r[j].0
    ensures forall i :: 0 <= i < |r| ==> r[i].0 in PairIds(pairs) && r[i] == pairs[FirstIndex(pairs, r[i].0)]
    ensures forall id :: id in PairIds(pairs) ==> exists i :: 0 <= i < |r| && r[i].0 == id
  {
    var ids := Ascending(PairIds(pairs));
    assert forall i :: 0 <= i < |ids| ==> ids[i] in PairIds(pairs) by {
      forall i | 0 <= i < |ids| ensures ids[i] in PairIds(pairs) {
        assert ids[i] in ids;
      }
    }
    var r := FirstPairs(pairs, ids);
    CollectFacts(pairs, ids, r);
    r
  }

  /** The first pair of each of the given ids, in the order of the ids. */
  function FirstPairs(pairs: seq<(int, string)>, ids: seq<int>): (r: seq<(int, string)>)
    requires forall i :: 0 <= i < |ids| ==> ids[i] in PairIds(pairs)
    ensures |r| == |ids| && forall i :: 0 <= i < |r| ==> r[i] == pairs[FirstIndex(pairs, ids[i])]
  {
    seq(|ids|, i requires 0 <= i < |ids| => pairs[FirstIndex(pairs, ids[i])])
  }

  /** The first pair of each id, taken in ascending id order, is what
      `Collect` promises. */
  lemma CollectFacts(pairs: seq<(int, string)>, ids: seq<int>, r: seq<(int, string)>)
    requires StrictlyIncreasing(ids) && |ids| == |PairIds(pairs)|
    requires forall x :: x in ids <==> x in PairIds(pairs)
    requires |r| == |ids|
    requires forall i :: 0 <= i < |r| ==> ids[i] in PairIds(pairs) && r[i] == pairs[FirstIndex(pairs, ids[i])]
    ensures forall i, j :: 0 <= i < j < |r| ==> r[i].0 < r[j].0
    ensures forall i :: 0 <= i < |r| ==> r[i].0 in PairIds(pairs) && r[i] == pairs[FirstIndex(pairs, r[i].0)]
    ensures forall id :: id in PairIds(pairs) ==> exists i :: 0 <= i < |r| && r[i].0 == id
  {
    assert forall i :: 0 <= i < |r| ==> r[i].0 == ids[i];
    forall id | id in PairIds(pairs) ensures exists i :: 0 <= i < |r| && r[i].0 == id {
      var i :| 0 <= i < |ids| && ids[i] == id;
      assert r[i].0 == id;
    }
  }

  /** An id column and a name column turned into ordered, de-duplicated
      pairs. */
  function MapPairs(idsColumn: string, namesColumn: string): Result<seq<(int, string)>, Error> {
    match ParseIds(idsColumn)
    case Fail(e) => Fail(e)
    case Ok(ids) =>
      match Zip(ids, JavaSplit(namesColumn))
      case Fail(e) => Fail(e)
      case Ok(pairs) => Ok(Collect(pairs))
  }

  function ToGenres(pairs: seq<(int, string)>): seq<Genre> {
    seq(|pairs|, i requires 0 <= i < |pairs| => Genre(pairs[i].0, pairs[i].1))
  }

  function ToDirectors(pairs: seq<(int, string)>): seq<Director> {
    seq(|pairs|, i requires 0 <= i < |pairs| => Director(pairs[i].0, pairs[i].1))
  }

  /** `mapRow(rs)`. The steps throw in the source's order: the genre ids
      are parsed, then the director ids, then genres are paired with their
      names, then directors with theirs. */
  function MapRow(c: FilmColumns): (r: Result<Film, Error>)
    ensures ParseIds(c.genresIds).Fail? ==> r == Fail(ParseIds(c.genresIds).error)
    ensures ParseIds(c.genresIds).Ok? && ParseIds(c.directorsIds).Fail? ==> r == Fail(ParseIds(c.directorsIds).error)
    ensures r.Ok? <==> MapPairs(c.genresIds, c.genresNames).Ok? && MapPairs(c.directorsIds, c.directorsNames).Ok?
    ensures r.Ok? ==>
      r.value.id == Some(c.id) && r.value.name == c.name && r.value.description == c.description &&
      r.value.releaseDate == c.releaseDate && r.value.duration == c.duration && r.value.likes == c.likes &&
      r.value.mpa == Mpa(c.mpaId, c.mpaName) &&
      r.value.genres == ToGenres(MapPairs(c.genresIds, c.genresNames).value) &&
      r.value.directors == ToDirectors(MapPairs(c.directorsIds, c.directorsNames).value)
  {
    match ParseIds(c.genresIds)
    case Fail(e) => Fail(e)
    case Ok(genresIds) =>
      match ParseIds(c.directorsIds)
      case Fail(e) => Fail(e)
      case Ok(directorsIds) =>
        match Zip(genresIds, JavaSplit(c.genresNames))
        case Fail(e) => Fail(e)
        case Ok(genrePairs) =>
          match Zip(directorsIds, JavaSplit(c.directorsNames))
          case Fail(e) => Fail(e)
          case Ok(directorPairs) =>
            Ok(Film(Some(c.id), c.name, c.description, c.releaseDate, c.duration, c.likes,
              Mpa(c.mpaId, c.mpaName), ToGenres(Collect(genrePairs)), ToDirectors(Collect(directorPairs))))
  }

  /** The two columns `GROUP_CONCAT` builds from a film's joined rows. */
  function IdsColumn(pairs: seq<(int, string)>): string {
    Join(seq(|pairs|, i requires 0 <= i < |pairs| => FormatInt(pairs[i].0)))
  }

  function NamesColumn(pairs: seq<(int, string)>): string {
    Join(seq(|pairs|, i requires 0 <= i < |pairs| => pairs[i].1))
  }

  /** Every id is an `int` and every name is non-empty and comma-free. */
  predicate Encodable(pairs: seq<(int, string)>) {
    forall i :: 0 <= i < |pairs| ==> IntMin <= pairs[i].0 <= IntMax && pairs[i].1 != [] && ',' !in pairs[i].1
  }

  /** The same id always comes with the same name. */
  predicate Consistent(pairs: seq<(int, string)>) {
    forall i, j :: 0 <= i < |pairs| && 0 <= j < |pairs| && pairs[i].0 == pairs[j].0 ==> pairs[i].1 == pairs[j].1
  }

  /** The id column parses back to the ids it was built from. */
  lemma ParseIdsColumn(pairs: seq<(int, string)>)
    requires Encodable(pairs)
    ensures ParseIds(IdsColumn(pairs)) == Ok(seq(|pairs|, i requires 0 <= i < |pairs| => pairs[i].0))
  {
    var tokens := seq(|pairs|, i requires 0 <= i < |pairs| => FormatInt(pairs[i].0));
    var ids := seq(|pairs|, i requires 0 <= i < |pairs| => pairs[i].0);
    forall i | 0 <= i < |pairs|
      ensures tokens[i] != [] && !IsBlank(tokens[i]) && ',' !in tokens[i] && ParseInt(tokens[i]) == Some(ids[i])
    {
      FormatIntShape(pairs[i].0);
      ParseFormatRoundTrip(pairs[i].0);
    }
    assert IdsColumn(pairs) == Join(tokens);
    if pairs == [] {
      assert tokens == [] && ids == [];
      assert Join(tokens) == "";
      assert JavaSplit("") == [""];
      assert IsBlank("");
      assert NonBlank([""]) == [];
      assert ParseAll([]) == Ok([]);
    } else {
      JavaSplitOfJoin(tokens);
      assert NonBlank(tokens) == tokens;
      ParseAllOf(tokens, ids);
    }
  }

  /** Tokens that each parse to the matching id parse to the ids. */
  lemma ParseAllOf(tokens: seq<string>, ids: seq<int>)
    requires |tokens| == |ids| && forall i :: 0 <= i < |tokens| ==> ParseInt(tokens[i]) == Some(ids[i])
    ensures ParseAll(tokens) == Ok(ids)
  {
    var parsed := ParseAll(tokens);
    assert parsed.value == ids;
  }

  /** The name column splits back to the names it was built from, and a
      film without entries gives one empty name. */
  lemma SplitNamesColumn(pairs: seq<(int, string)>)
    requires Encodable(pairs)
    ensures |pairs| > 0 ==> JavaSplit(NamesColumn(pairs)) == seq(|pairs|, i requires 0 <= i < |pairs| => pairs[i].1)
    ensures |pairs| == 0 ==> JavaSplit(NamesColumn(pairs)) == [""]
  {
    if |pairs| > 0 {
      JavaSplitOfJoin(seq(|pairs|, i requires 0 <= i < |pairs| => pairs[i].1));
    }
  }

  /** Pairing the parsed columns gives the written pairs back. */
  lemma ZipColumns(pairs: seq<(int, string)>)
    requires Encodable(pairs)
    ensures MapPairs(IdsColumn(pairs), NamesColumn(pairs)) == Ok(Collect(pairs))
  {
    ParseIdsColumn(pairs);
    SplitNamesColumn(pairs);
    var ids := seq(|pairs|, i requires 0 <= i < |pairs| => pairs[i].0);
    var z := Zip(ids, JavaSplit(NamesColumn(pairs)));
    if pairs == [] {
      assert z.value == [];
    } else {
      assert z.value == pairs;
    }
  }

  /** When an id always comes with the same name, collecting keeps exactly
      the distinct pairs. */
  lemma CollectConsistent(pairs: seq<(int, string)>)
    requires Consistent(pairs)
    ensures forall p :: p in Collect(pairs) <==> p in pairs
  {
    var r := Collect(pairs);
    forall p | p in r ensures p in pairs {
      var i :| 0 <= i < |r| && r[i] == p;
      assert r[i] == pairs[FirstIndex(pairs, p.0)];
    }
    forall p | p in pairs ensures p in r {
      var j :| 0 <= j < |pairs| && pairs[j] == p;
      assert p.0 in PairIds(pairs);
      var i :| 0 <= i < |r| && r[i].0 == p.0;
      var k := FirstIndex(pairs, p.0);
      assert pairs[k].1 == pairs[j].1;
      assert r[i] == p;
    }
  }

  /** Round trip: the mapper reads back what the query wrote, one entry per
      id, ordered by id, and nothing that was not written. This covers the
      repeats the genre/director join produces, as long as an id always
      comes with the same name. */
  lemma MapPairsRoundTrip(pairs: seq<(int, string)>)
    requires Encodable(pairs) && Consistent(pairs)
    ensures MapPairs(IdsColumn(pairs), NamesColumn(pairs)).Ok?
    ensures var r := MapPairs(IdsColumn(pairs), NamesColumn(pairs)).value;
      (forall i, j :: 0 <= i < j < |r| ==> r[i].0 < r[j].0) &&
      (forall p :: p in r <==> p in pairs)
  {
    ZipColumns(pairs);
    CollectConsistent(pairs);
  }

  /** A film with no genres (the query's `''`) gets an empty genre list. */
  lemma EmptyColumns()
    ensures MapPairs("", "") == Ok([])
  {
    assert JavaSplit("") == [""];
    assert NonBlank([""]) == [];
  }

  lemma SplitTwoIds()
    ensures JavaSplit("1,2") == ["1", "2"]
  {
    assert "1,2" == "1" + "," + "2";
    SplitAllPrefix("1", "2");
  }

  lemma SplitNameAndEmpty()
    ensures JavaSplit("Nolan,") == ["Nolan"]
  {
    assert "Nolan," == "Nolan" + "," + "";
    SplitAllPrefix("Nolan", "");
    assert DropTrailingEmpty(["Nolan", ""]) == DropTrailingEmpty(["Nolan"]);
  }

  lemma ParseTwoIds()
    ensures ParseIds("1,2") == Ok([1, 2])
  {
    SplitTwoIds();
    assert !IsBlank("1") && !IsBlank("2");
    assert DigitsValue("1") == 1 && DigitsValue("2") == 2;
    assert ParseInt("1") == Some(1) && ParseInt("2") == Some(2);
    assert NonBlank(["1", "2"]) == ["1", "2"];
    ParseAllOf(["1", "2"], [1, 2]);
  }

  /** Fewer names than ids throws when pairing: a name list cut short,
      here because the second director's name is empty. */
  lemma EmptyNameThrows()
    ensures MapPairs("1,2", "Nolan,") == Fail(IndexOutOfBounds(1, 1))
  {
    ParseTwoIds();
    SplitNameAndEmpty();
  }
}
