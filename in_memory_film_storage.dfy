/** The older in-memory film storage: a map of films, a map from film id to
    the set of users who liked it, and an id counter. A film's `likes`
    field is kept equal to the size of its liker set once it has one. */
module InMemoryFilmStorage {
  import opened Wrappers
  import opened Errors
  import opened Text
  import opened Model
  import opened Collections
  import opened Schema

  /** `filmsToUsersLiked` after `addLike(filmId, userId)`. */
  function LikedAfter(likers: map<int, set<int>>, filmId: int, userId: int): map<int, set<int>> {
    likers[filmId := (if filmId in likers then likers[filmId] else {}) + {userId}]
  }

  /** `filmsToUsersLiked` after `deleteLike(filmId, userId)`. */
  function UnlikedAfter(likers: map<int, set<int>>, filmId: int, userId: int): map<int, set<int>> {
    if filmId in likers then likers[filmId := likers[filmId] - {userId}] else likers
  }

  /** A like is counted once however often it is given: the liker set grows
      by one on the first like of a user and not at all on a repeat. */
  lemma LikedAfterCount(likers: map<int, set<int>>, filmId: int, userId: int)
    ensures var before := if filmId in likers then likers[filmId] else {};
      |LikedAfter(likers, filmId, userId)[filmId]| == |before| + (if userId in before then 0 else 1)
    ensures LikedAfter(LikedAfter(likers, filmId, userId), filmId, userId) == LikedAfter(likers, filmId, userId)
  {
    var before := if filmId in likers then likers[filmId] else {};
    if userId in before {
      assert before + {userId} == before;
    }
  }

  /** Removing a like shrinks the liker set by one when the user was in it. */
  lemma UnlikedAfterCount(likers: map<int, set<int>>, filmId: int, userId: int)
    requires filmId in likers
    ensures |UnlikedAfter(likers, filmId, userId)[filmId]| ==
      |likers[filmId]| - (if userId in likers[filmId] then 1 else 0)
  {
    if userId !in likers[filmId] {
      assert likers[filmId] - {userId} == likers[filmId];
    }
  }

  class Storage {
    var films: map<int, Film>
    var likers: map<int, set<int>>
    /** The source's counter is a static field, shared by every instance. */
    var nextId: int

    /** Every stored film carries its key as id, every key lies below the
        counter, and a film with a liker set has as many likes as likers. */
    ghost predicate Valid()
      reads this
    {
      nextId >= 1
      && (forall k :: k in films ==> k < nextId && films[k].id == Some(k))
      && likers.Keys <= films.Keys
      && (forall k :: k in likers ==> films[k].likes == |likers[k]|)
    }

    constructor ()
      ensures Valid() && films == map[] && likers == map[] && nextId == 1
    {
      films := map[];
      likers := map[];
      nextId := 1;
    }

    /** `checkFilmExists(id)`. */
    function CheckFilmExists(id: int): (r: Outcome<Error>)
      reads this`films
      ensures r.Pass? <==> id in films
      ensures r.Failure? ==> r.error == NotFound(FilmEntity, id)
    {
      if id in films then Pass else Failure(NotFound(FilmEntity, id))
    }

    /** `getAll()`: the stored films (in ascending id order). */
    function GetAll(): (r: seq<Film>)
      reads this`films
      ensures |r| == |films|
      ensures forall f :: f in r <==> f in films.Values
    {
      MapValues(films)
    }

    /** `getById(id)`. */
    function GetById(id: int): (r: Result<Film, Error>)
      reads this`films
      ensures r.Fail? <==> id !in films
      ensures r.Fail? ==> r.error == NotFound(FilmEntity, id)
      ensures r.Ok? ==> r.value == films[id]
    {
      if id in films then Ok(films[id]) else Fail(NotFound(FilmEntity, id))
    }

    /** `create(film)`: stores the film under the counter's value and
        advances the counter. */
    method Create(film: Film) returns (created: Film)
      requires Valid()
      modifies this`films, this`nextId
      ensures Valid()
      ensures created == film.(id := Some(old(nextId)))
      ensures old(nextId) !in old(films)
      ensures films == old(films)[old(nextId) := created]
      ensures nextId == old(nextId) + 1
      ensures forall k :: k in old(films) ==> k < created.id.value
    {
      created := film.(id := Some(nextId));
      films := films[nextId := created];
      nextId := nextId + 1;
    }

    /** `update(film)`: replaces the stored film but keeps its like count,
        whatever count the caller sent. */
    method Update(film: Film) returns (r: Result<Film, Error>)
      requires Valid() && film.id.Some?
      modifies this`films
      ensures Valid()
      ensures film.id.value !in old(films) ==> r == Fail(NotFound(FilmEntity, film.id.value)) && films == old(films)
      ensures film.id.value in old(films) ==>
        var kept := film.(likes := old(films)[film.id.value].likes);
        r == Ok(kept) && films == old(films)[film.id.value := kept]
    {
      var id := film.id.value;
      var check := CheckFilmExists(id);
      if check.Failure? {
        return Fail(check.error);
      }
      var kept := film.(likes := films[id].likes);
      films := films[id := kept];
      r := Ok(kept);
    }

    /** `delete(filmId)`: only checks that the film exists; it stays
        stored. */
    method Delete(filmId: int) returns (r: Outcome<Error>)
      ensures r == CheckFilmExists(filmId)
    {
      r := CheckFilmExists(filmId);
    }

    /** `addLike(filmId, userId)`: adds the user to the film's liker set and
        sets the film's likes to the set's size. */
    method AddLike(filmId: int, userId: int) returns (r: Outcome<Error>)
      requires Valid()
      modifies this`films, this`likers
      ensures Valid()
      ensures r == old(CheckFilmExists(filmId))
      ensures r.Failure? ==> films == old(films) && likers == old(likers)
      ensures r.Pass? ==>
        likers == LikedAfter(old(likers), filmId, userId) &&
        films == old(films)[filmId := old(films)[filmId].(likes := |likers[filmId]|)]
    {
      r := CheckFilmExists(filmId);
      if r.Failure? {
        return;
      }
      if filmId !in likers {
        likers := likers[filmId := {}];
      }
      likers := likers[filmId := likers[filmId] + {userId}];
      films := films[filmId := films[filmId].(likes := |likers[filmId]|)];
    }

    /** `deleteLike(filmId, userId)`: a film nobody liked is left alone;
        otherwise the user leaves the liker set and the likes are
        recounted. */
    method DeleteLike(filmId: int, userId: int) returns (r: Outcome<Error>)
      requires Valid()
      modifies this`films, this`likers
      ensures Valid()
      ensures r == old(CheckFilmExists(filmId))
      ensures r.Failure? || filmId !in old(likers) ==> films == old(films) && likers == old(likers)
      ensures r.Pass? && filmId in old(likers) ==>
        likers == UnlikedAfter(old(likers), filmId, userId) &&
        films == old(films)[filmId := old(films)[filmId].(likes := |likers[filmId]|)]
    {
      r := CheckFilmExists(filmId);
      if r.Failure? {
        return;
      }
      if filmId !in likers {
        return;
      }
      likers := likers[filmId := likers[filmId] - {userId}];
      films := films[filmId := films[filmId].(likes := |likers[filmId]|)];
    }

    /** `filmsPopular(count)`: the stored films, most liked first, at most
        `count` of them; `Stream.limit` rejects a negative count. */
    function FilmsPopular(count: int): (r: Result<seq<Film>, Error>)
      reads this`films
      ensures count < 0 <==> r.Fail?
      ensures r.Fail? ==> r.error == IllegalArgument(FormatInt(count))
      ensures r.Ok? ==>
        |r.value| == Min(count, |films|) && NonIncreasingLikes(r.value)
        && (forall f :: f in r.value ==> f in films.Values)
        && (forall f, g :: f in films.Values && f !in r.value && g in r.value ==> f.likes <= g.likes)
    {
      if count < 0 then Fail(IllegalArgument(FormatInt(count)))
      else
        var all := GetAll();
        TopLiked(all, count);
        Ok(TopBy(all, ByLikesDesc, count))
    }
  }
}
