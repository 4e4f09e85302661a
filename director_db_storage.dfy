/** `DirectorDbStorage`: the `directors` table and the cascade into
    `films_directors`. */
module DirectorDbStorage {
  import opened Wrappers
  import opened Errors
  import opened Model
  import opened Schema
  import opened Collections

  /** `checkDirectorExists(id)`. */
  function CheckDirectorExists(db: Database, id: int): (r: Outcome<Error>)
    reads db`directors
    ensures r.Pass? <==> id in db.directors
    ensures r.Failure? ==> r.error == NotFound(DirectorEntity, id)
  {
    if id in db.directors then Pass else Failure(NotFound(DirectorEntity, id))
  }

  /** The ids of a sequence of directors. */
  function DirectorIds(ds: seq<Director>): set<int> {
    set d | d in ds :: d.id
  }

  /** `getAll()`: every stored director, in ascending id order. */
  function GetAll(db: Database): (r: seq<Director>)
    reads db`directors
    ensures |r| == |db.directors|
    ensures DirectorIds(r) == db.directors.Keys
    ensures forall i :: 0 <= i < |r| ==> r[i].id in db.directors && r[i].name == db.directors[r[i].id]
  {
    var table := db.directors;
    var ids := Ascending(table.Keys);
    var r := seq(|ids|, i requires 0 <= i < |ids| => Director(ids[i], table[ids[i]]));
    DirectorIdsOf(table, ids, r);
    r
  }

  lemma DirectorIdsOf(table: map<int, string>, ids: seq<int>, r: seq<Director>)
    requires forall i :: 0 <= i < |ids| ==> ids[i] in table
    requires |r| == |ids| && forall i :: 0 <= i < |r| ==> r[i] == Director(ids[i], table[ids[i]])
    ensures DirectorIds(r) == set k | k in ids
  {
    forall k | k in ids ensures k in DirectorIds(r) {
      var i :| 0 <= i < |ids| && ids[i] == k;
      assert r[i] in r;
    }
  }

  /** `getById(id)`. */
  function GetById(db: Database, id: int): (r: Result<Director, Error>)
    reads db`directors
    ensures r.Fail? <==> id !in db.directors
    ensures r.Fail? ==> r.error == NotFound(DirectorEntity, id)
    ensures r.Ok? ==> r.value == Director(id, db.directors[id])
  {
    match CheckDirectorExists(db, id)
    case Failure(e) => Fail(e)
    case Pass => Ok(Director(id, db.directors[id]))
  }

  /** `create(director)`: stores the name under a new key; the id the caller
      supplied is ignored. */
  method Create(db: Database, director: Director) returns (created: Director)
    modifies db`directors
    ensures created.id !in old(db.directors) && created.name == director.name
    ensures db.directors == old(db.directors)[created.id := director.name]
    ensures GetById(db, created.id) == Ok(created)
  {
    var id := NextKey(db.directors.Keys);
    db.directors := db.directors[id := director.name];
    created := Director(id, director.name);
  }

  /** `update(director)`: renames an existing director. */
  method Update(db: Database, director: Director) returns (r: Result<Director, Error>)
    modifies db`directors
    ensures r == old(if director.id in db.directors then Ok(director) else Fail(NotFound(DirectorEntity, director.id)))
    ensures r.Ok? ==> db.directors == old(db.directors)[director.id := director.name]
    ensures r.Fail? ==> db.directors == old(db.directors)
  {
    var check := CheckDirectorExists(db, director.id);
    if check.Failure? {
      return Fail(check.error);
    }
    db.directors := db.directors[director.id := director.name];
    r := GetById(db, director.id);
  }

  /** `delete(directorId)`: removes the director's film links, then the
      director. */
  method Delete(db: Database, directorId: int) returns (r: Outcome<Error>)
    modifies db`filmsDirectors, db`directors
    ensures r == old(CheckDirectorExists(db, directorId))
    ensures r.Failure? ==> db.filmsDirectors == old(db.filmsDirectors) && db.directors == old(db.directors)
    ensures r.Pass? ==>
      db.filmsDirectors == (set l | l in old(db.filmsDirectors) && l.targetId != directorId) &&
      db.directors == old(db.directors) - {directorId}
  {
    r := CheckDirectorExists(db, directorId);
    if r.Failure? {
      return;
    }
    db.filmsDirectors := set l | l in db.filmsDirectors && l.targetId != directorId;
    db.directors := db.directors - {directorId};
  }

  /** After a delete no film is linked to the director any more, every
      other link stays, and the director's id is free. */
  lemma DeleteCascade(links: set<Link>, directors: map<int, string>, directorId: int, filmId: int)
    ensures var links' := set l | l in links && l.targetId != directorId;
      directorId !in LinkedIds(links', directors - {directorId}, filmId) &&
      forall d :: d != directorId ==>
        (d in LinkedIds(links', directors - {directorId}, filmId) <==> d in LinkedIds(links, directors, filmId))
  {
  }
}
