# Filmorate business state in Dafny

Filmorate is a Spring service for films, users, friendships, likes,
reviews, directors and an activity feed. This project models its state
and the rules that change and query it:

- the SQL tables (users, films, genres, MPA ratings, directors, the
  film–genre and film–director links, likes, friend requests, reviews,
  review ratings and the user feed) as the fields of one `Schema.Database`
  class;
- each `*DbStorage` class as a module of methods over that database.
  Every method's `modifies` clause names only the tables the statement
  writes. Queries are functions whose `reads` clauses name only the tables
  they select from or join. A film query that filters link rows before
  grouping (`filmsPopular` by genre, a director search,
  `getFilmsOfDirectors`) assembles each film from the link rows it keeps
  (`Schema.FilmFrom`);
- the two older in-memory storages and the in-memory `UserController` as
  classes with their own maps and id counters;
- the services (`FilmService`, `ReviewService`, `UserService`) as
  methods that default arguments, check ids and order their cascades;
- `FilmMapper`'s decoding of the comma-joined id and name columns, with
  Java's `String.split` and `Integer.parseInt` written out in `Text`;
- the two validators, `ReleaseDateValidator` and `FilmRatingValidator`.

Errors the source throws are values of `Errors.Error`:

- `NotFoundException` becomes `NotFound(entity, id)`;
- `ValidationException` becomes `Validation`;
- `IllegalArgumentException` becomes `IllegalArgument`;
- `IndexOutOfBoundsException` becomes `IndexOutOfBounds`;
- a `NumberFormatException` becomes `NumberFormat`.

An operation that can throw returns `Result` or `Outcome`, and its
contract says what is left unchanged on failure. The clock value of a feed
event is a parameter (`now`).

Two abstract specifications define the friend-request state machine of
`UserDbStorage`:

- the transition functions `AddFriendNext` and `DeleteFriendNext` on the
  request table;
- a per-pair view `PairOf` (none, pending one way, mutual).

The storage methods are proved to perform exactly those transitions. The
lemmas prove that the transitions keep the table well formed, that they
are idempotent, and what they do to friend lists. The in-memory user
storage has its own transitions and a proved symmetry invariant.

A review's `useful` is the sum of its ratings (`ReviewDbStorage.Useful`).
Like, dislike and rating deletion are proved to move it by exactly the
changed score. With ratings of ±1 it is the number of likers minus the
number of dislikers.

## Model

| member | source | states |
|---|---|---|
| FriendRequests.ValueOf | src/main/java/ru/yandex/practicum/filmorate/storage/friend_requests/FriendRequestDbStorage.java:27-28 | `valueOf` accepts exactly the two enum names and returns the status of that name |
| FriendRequests.DecodeEncode | src/main/java/ru/yandex/practicum/filmorate/storage/friend_requests/FriendRequestDbStorage.java:26-28 | decoding (upper-casing and `valueOf`) the stored lower-case name gives back the status |
| FriendRequests.EncodeInjective | src/main/java/ru/yandex/practicum/filmorate/storage/friend_requests/FriendRequestDbStorage.java:37 | distinct statuses are stored as distinct strings |
| FriendRequests.Get | src/main/java/ru/yandex/practicum/filmorate/storage/friend_requests/FriendRequestDbStorage.java:19-30 | returns the status of the (user, friend) row, or none when there is no such row |
| FriendRequests.Create | src/main/java/ru/yandex/practicum/filmorate/storage/friend_requests/FriendRequestDbStorage.java:32-42 | adds the (user, friend) row with the status; `Get` then returns it |
| FriendRequests.Update | src/main/java/ru/yandex/practicum/filmorate/storage/friend_requests/FriendRequestDbStorage.java:44-52 | changes only the status of an existing row; no effect on a missing row |
| FriendRequests.Delete | src/main/java/ru/yandex/practicum/filmorate/storage/friend_requests/FriendRequestDbStorage.java:54-62 | removes the ordered pair (user, friend) only; the reverse row and all others stay |
| UserDbStorage.CheckUserExists | src/main/java/ru/yandex/practicum/filmorate/storage/user/UserDbStorage.java:181-190 | passes exactly for a stored user, else `NotFound(user, id)` |
| UserDbStorage.CheckUsersExist | src/main/java/ru/yandex/practicum/filmorate/storage/user/UserDbStorage.java:94-95 | checks the first id, then the second, reporting the first unknown one |
| UserDbStorage.AddFriendPreservesWellFormed | src/main/java/ru/yandex/practicum/filmorate/storage/user/UserDbStorage.java:96-106 | `addFriend` keeps "at most one request row per unordered pair, no approved self-request" |
| UserDbStorage.DeleteFriendPreservesWellFormed | src/main/java/ru/yandex/practicum/filmorate/storage/user/UserDbStorage.java:113-130 | `deleteFriend` keeps the same invariant, including when it replaces A→B by B→A |
| UserDbStorage.AddFriendIdempotent | src/main/java/ru/yandex/practicum/filmorate/storage/user/UserDbStorage.java:92-107 | `addFriend(A,B)` twice leaves the table as once |
| UserDbStorage.DeleteFriendIdempotent | src/main/java/ru/yandex/practicum/filmorate/storage/user/UserDbStorage.java:109-131 | on a well-formed table, `deleteFriend(A,B)` twice leaves it as once |
| UserDbStorage.PairOfSymmetric | src/main/java/ru/yandex/practicum/filmorate/storage/user/UserDbStorage.java:96-130 | on a well-formed table the per-pair view does not depend on argument order |
| UserDbStorage.AddFriendRefines | src/main/java/ru/yandex/practicum/filmorate/storage/user/UserDbStorage.java:96-106 | per pair: an existing A→B row stays, a pending B→A row becomes mutual, a mutual pair stays, otherwise A→B becomes pending; other pairs are untouched |
| UserDbStorage.DeleteFriendRefines | src/main/java/ru/yandex/practicum/filmorate/storage/user/UserDbStorage.java:113-130 | per pair: pending A→B disappears, mutual becomes pending B→A, pending B→A stays; other pairs are untouched |
| UserDbStorage.FriendIdsByPair | src/main/java/ru/yandex/practicum/filmorate/storage/user/UserDbStorage.java:133-150 | x is U's friend exactly when U requested x (any status) or the pair is mutual |
| UserDbStorage.FriendAfterAdd | src/main/java/ru/yandex/practicum/filmorate/storage/user/UserDbStorage.java:92-150 | after `addFriend(A,B)`, B is among A's friends |
| UserDbStorage.NoReverseFriendAfterAdd | src/main/java/ru/yandex/practicum/filmorate/storage/user/UserDbStorage.java:92-150 | after `addFriend(A,B)`, A is not B's friend unless it was before |
| UserDbStorage.NoFriendAfterDelete | src/main/java/ru/yandex/practicum/filmorate/storage/user/UserDbStorage.java:109-150 | after `deleteFriend(A,B)`, B is not among A's friends |
| UserDbStorage.MutualAfterAddingBoth | src/main/java/ru/yandex/practicum/filmorate/storage/user/UserDbStorage.java:92-107 | `addFriend(A,B)` then `addFriend(B,A)` makes the pair mutual |
| UserDbStorage.FriendRemainsAfterDelete | src/main/java/ru/yandex/practicum/filmorate/storage/user/UserDbStorage.java:109-150 | after a mutual friendship and `deleteFriend(A,B)`, A is still B's friend and B is no longer A's |
| UserDbStorage.AddFriend | src/main/java/ru/yandex/practicum/filmorate/storage/user/UserDbStorage.java:92-107 | fails with `NotFound` for an unknown user and leaves the table unchanged; otherwise performs `AddFriendNext` |
| UserDbStorage.DeleteFriend | src/main/java/ru/yandex/practicum/filmorate/storage/user/UserDbStorage.java:109-131 | fails with `NotFound` for an unknown user and leaves the table unchanged; otherwise performs `DeleteFriendNext` |
| UserDbStorage.GetFriends | src/main/java/ru/yandex/practicum/filmorate/storage/user/UserDbStorage.java:133-150 | fails for an unknown user; otherwise returns the stored users among U's friends |
| UserDbStorage.GetCommonFriends | src/main/java/ru/yandex/practicum/filmorate/storage/user/UserDbStorage.java:152-179 | fails as `checkUserExists` on either id does |
| UserDbStorage.CommonFriendsIntersect | src/main/java/ru/yandex/practicum/filmorate/storage/user/UserDbStorage.java:152-179 | the common friends are the intersection of both friend lists, and swapping the users gives the same result |
| UserDbStorage.GetById | src/main/java/ru/yandex/practicum/filmorate/storage/user/UserDbStorage.java:50-54 | fails for an unknown id, else returns that user's row |
| UserDbStorage.GetAll | src/main/java/ru/yandex/practicum/filmorate/storage/user/UserDbStorage.java:45-48 | returns every stored user exactly once |
| UserDbStorage.Create | src/main/java/ru/yandex/practicum/filmorate/storage/user/UserDbStorage.java:56-66 | stores the user's fields under a fresh key and returns them with that id |
| UserDbStorage.Update | src/main/java/ru/yandex/practicum/filmorate/storage/user/UserDbStorage.java:68-80 | fails with `NotFound` for an unknown id; otherwise replaces only that user's row |
| UserDbStorage.Delete | src/main/java/ru/yandex/practicum/filmorate/storage/user/UserDbStorage.java:82-90 | fails for an unknown user; otherwise removes the user's likes, outgoing requests and row |
| UserDbStorage.Candidates | src/main/java/ru/yandex/practicum/filmorate/storage/user/UserDbStorage.java:194-204 | the other users sharing at least one liked film with the target |
| UserDbStorage.Neighbour | src/main/java/ru/yandex/practicum/filmorate/storage/user/UserDbStorage.java:194-204 | a user other than the target with the most films liked by both |
| UserDbStorage.RecommendedIds | src/main/java/ru/yandex/practicum/filmorate/storage/user/UserDbStorage.java:206-216 | the films the neighbour liked and the target did not, each once |
| UserDbStorage.GetRecommendations | src/main/java/ru/yandex/practicum/filmorate/storage/user/UserDbStorage.java:193-251 | with no neighbour, fails as `get(0)` on an empty list does; otherwise succeeds (the corrected query, see Findings) |
| UserDbStorage.RecommendationsSpec | src/main/java/ru/yandex/practicum/filmorate/storage/user/UserDbStorage.java:193-251 | the corrected query returns exactly the stored films a maximal neighbour liked and the target did not, once each, each as an unfiltered query reads it, in non-increasing like order |
| UserDbStorage.GetRecommendationsAsWritten | src/main/java/ru/yandex/practicum/filmorate/storage/user/UserDbStorage.java:193-251 | the query as it stands: no neighbour fails as `get(0)` does, and a success lists no film |
| UserDbStorage.RecommendationsAsWrittenFail | src/main/java/ru/yandex/practicum/filmorate/storage/user/UserDbStorage.java:218-250 | the query as it stands fails with a missing `directors_ids` column whenever the corrected one recommends a film, and agrees with it otherwise |
| UserDbStorage.RecommendationsAsWrittenExample | src/main/java/ru/yandex/practicum/filmorate/storage/user/UserDbStorage.java:218-250 | on the three-like table of the finding, the query as it stands fails and the corrected one lists one film |
| InMemoryUserStorage.AddFriendStatuses | src/main/java/ru/yandex/practicum/filmorate/storage/user/InMemoryUserStorage.java:57-75 | if B's map holds A, both A[B] and B[A] become approved; otherwise A[B] becomes pending only if absent; other entries are unchanged |
| InMemoryUserStorage.DeleteFriendStatuses | src/main/java/ru/yandex/practicum/filmorate/storage/user/InMemoryUserStorage.java:77-87 | removes A[B] and B[A] and nothing else |
| InMemoryUserStorage.DeleteFriendNoop | src/main/java/ru/yandex/practicum/filmorate/storage/user/InMemoryUserStorage.java:77-87 | with neither entry present, `deleteFriend` changes nothing |
| InMemoryUserStorage.AddFriendKeepsSymmetric | src/main/java/ru/yandex/practicum/filmorate/storage/user/InMemoryUserStorage.java:57-75 | `addFriend` keeps approval symmetric |
| InMemoryUserStorage.DeleteFriendKeepsSymmetric | src/main/java/ru/yandex/practicum/filmorate/storage/user/InMemoryUserStorage.java:77-87 | `deleteFriend` keeps approval symmetric |
| InMemoryUserStorage.FriendsSymmetric | src/main/java/ru/yandex/practicum/filmorate/storage/user/InMemoryUserStorage.java:89-97 | under symmetry, A is a friend of B exactly when B is a friend of A |
| InMemoryUserStorage.Resolve | src/main/java/ru/yandex/practicum/filmorate/storage/user/InMemoryUserStorage.java:96 | mapping ids through `getById` fails on the first unknown id, else yields one user per id |
| InMemoryUserStorage.Storage.GetAll | src/main/java/ru/yandex/practicum/filmorate/storage/user/InMemoryUserStorage.java:25-28 | returns every stored user and nothing else |
| InMemoryUserStorage.Storage.CheckUserExists | src/main/java/ru/yandex/practicum/filmorate/storage/user/InMemoryUserStorage.java:115-122 | passes exactly for a stored id, else `NotFound(user, id)` |
| InMemoryUserStorage.Storage.GetById | src/main/java/ru/yandex/practicum/filmorate/storage/user/InMemoryUserStorage.java:30-34 | fails for an unknown id, else returns the stored user |
| InMemoryUserStorage.Storage.Create | src/main/java/ru/yandex/practicum/filmorate/storage/user/InMemoryUserStorage.java:36-42 | assigns the counter's id, stores the user and advances the counter, so ids strictly increase |
| InMemoryUserStorage.Storage.Update | src/main/java/ru/yandex/practicum/filmorate/storage/user/InMemoryUserStorage.java:44-49 | fails for an unknown id; otherwise replaces only that user |
| InMemoryUserStorage.Storage.Delete | src/main/java/ru/yandex/practicum/filmorate/storage/user/InMemoryUserStorage.java:51-55 | fails for an unknown id; otherwise removes and returns the user |
| InMemoryUserStorage.Storage.AddFriend | src/main/java/ru/yandex/practicum/filmorate/storage/user/InMemoryUserStorage.java:57-75 | fails for an unknown user; otherwise performs the in-memory add transition and keeps the invariant |
| InMemoryUserStorage.Storage.DeleteFriend | src/main/java/ru/yandex/practicum/filmorate/storage/user/InMemoryUserStorage.java:77-87 | fails for an unknown user; otherwise removes both directions |
| InMemoryUserStorage.Storage.GetFriends | src/main/java/ru/yandex/practicum/filmorate/storage/user/InMemoryUserStorage.java:89-97 | fails for an unknown user; otherwise returns the users whose entry in U's map is approved |
| InMemoryUserStorage.Storage.GetCommonFriends | src/main/java/ru/yandex/practicum/filmorate/storage/user/InMemoryUserStorage.java:99-113 | fails for an unknown user; otherwise returns the intersection of both approved sets |
| InMemoryUserStorage.Storage.FriendshipIsMutual | src/main/java/ru/yandex/practicum/filmorate/storage/user/InMemoryUserStorage.java:57-97 | in every valid state, A is B's friend exactly when B is A's |
| FilmDbStorage.CheckFilmExists | src/main/java/ru/yandex/practicum/filmorate/storage/film/FilmDbStorage.java:197-206 | passes exactly for a stored film, else `NotFound(film, id)` |
| FilmDbStorage.CheckGenresExist | src/main/java/ru/yandex/practicum/filmorate/storage/film/FilmDbStorage.java:91 | passes when every genre exists, else reports the first unknown one |
| FilmDbStorage.CheckDirectorsExist | src/main/java/ru/yandex/practicum/filmorate/storage/film/FilmDbStorage.java:93 | passes when every director exists, else reports the first unknown one |
| FilmDbStorage.CheckReferences | src/main/java/ru/yandex/practicum/filmorate/storage/film/FilmDbStorage.java:89-93 | checks the MPA rating, then every genre, then every director |
| FilmDbStorage.SetFilmGenres | src/main/java/ru/yandex/practicum/filmorate/storage/film/FilmDbStorage.java:230-252 | adds one link per genre of the film |
| FilmDbStorage.SetFilmDirectors | src/main/java/ru/yandex/practicum/filmorate/storage/film/FilmDbStorage.java:254-276 | adds one link per director of the film |
| FilmDbStorage.GenreLinksExactly | src/main/java/ru/yandex/practicum/filmorate/storage/film/FilmDbStorage.java:104-105 | after linking, the film's genres are exactly the requested ones |
| FilmDbStorage.DirectorLinksExactly | src/main/java/ru/yandex/practicum/filmorate/storage/film/FilmDbStorage.java:106 | after linking, the film's directors are exactly the requested ones |
| FilmDbStorage.Create | src/main/java/ru/yandex/practicum/filmorate/storage/film/FilmDbStorage.java:86-108 | fails on a missing reference with nothing written; otherwise stores the film under a fresh id with exactly its genres and directors and no likes |
| FilmDbStorage.Update | src/main/java/ru/yandex/practicum/filmorate/storage/film/FilmDbStorage.java:110-134 | requires the film, then its references; replaces the row and both link sets wholesale and keeps the likes |
| FilmDbStorage.Delete | src/main/java/ru/yandex/practicum/filmorate/storage/film/FilmDbStorage.java:136-144 | fails for an unknown film; otherwise removes its genre links, likes, director links and row |
| FilmDbStorage.DeleteLeavesNoTrace | src/main/java/ru/yandex/practicum/filmorate/storage/film/FilmDbStorage.java:136-144 | after delete the film has no likes and no genres, and other films' like counts are unchanged |
| FilmDbStorage.CheckLikeArgs | src/main/java/ru/yandex/practicum/filmorate/storage/film/FilmDbStorage.java:148-149 | checks the film, then the user |
| FilmDbStorage.AddLike | src/main/java/ru/yandex/practicum/filmorate/storage/film/FilmDbStorage.java:146-157 | fails with `NotFound` for an unknown film or user; otherwise the like set gains the pair (a repeat changes nothing) |
| FilmDbStorage.DeleteLike | src/main/java/ru/yandex/practicum/filmorate/storage/film/FilmDbStorage.java:159-169 | fails with `NotFound` for an unknown film or user; otherwise the pair is removed (a silent no-op when absent) |
| FilmDbStorage.LikeCountAfterAdd | src/main/java/ru/yandex/practicum/filmorate/storage/film/FilmDbStorage.java:146-157 | a like raises the film's count by one only for a new liker, and other films' counts stay |
| FilmDbStorage.LikeCountAfterDelete | src/main/java/ru/yandex/practicum/filmorate/storage/film/FilmDbStorage.java:159-169 | unliking lowers the count by one only for an existing liker, and other films' counts stay |
| FilmDbStorage.GetAll | src/main/java/ru/yandex/practicum/filmorate/storage/film/FilmDbStorage.java:73-77 | every stored film once, each with its like count |
| FilmDbStorage.GetById | src/main/java/ru/yandex/practicum/filmorate/storage/film/FilmDbStorage.java:79-84 | fails for an unknown id; otherwise the film with as many likes as like rows |
| FilmDbStorage.FilmsPopular | src/main/java/ru/yandex/practicum/filmorate/storage/film/FilmDbStorage.java:176-195 | at most `count` films passing the optional genre and year filters, no film twice, in non-increasing like order |
| FilmDbStorage.FilmsPopularSpec | src/main/java/ru/yandex/practicum/filmorate/storage/film/FilmDbStorage.java:176-195 | only films passing the filters are returned, each built from the genre rows the filter keeps, and no omitted film has more likes than a returned one |
| FilmDbStorage.PopularFilmLinks | src/main/java/ru/yandex/practicum/filmorate/storage/film/FilmDbStorage.java:180-192 | without a genre filter each film carries all its links; with a filter on a stored genre, that genre is the only one listed; directors are never filtered |
| FilmDbStorage.FilmsPopularComplete | src/main/java/ru/yandex/practicum/filmorate/storage/film/FilmDbStorage.java:176-195 | with room for all of them, every film passing the filters is returned |
| FilmDbStorage.FilmSearch | src/main/java/ru/yandex/practicum/filmorate/storage/film/FilmDbStorage.java:208-228 | empty text and no flag are errors; otherwise exactly the films whose title or director name (per the flags, either for both) contains the text case-insensitively, each built from the director rows the `WHERE` clause keeps |
| FilmDbStorage.SearchHitLinks | src/main/java/ru/yandex/practicum/filmorate/storage/film/FilmDbStorage.java:213-224 | a hit keeps all its genres; all its directors for a title search or a title match with both flags; otherwise only directors whose name contains the text |
| FilmDbStorage.SearchKeepsAll | src/main/java/ru/yandex/practicum/filmorate/storage/film/FilmDbStorage.java:213-220 | a film selected by its title keeps every director row |
| FilmDbStorage.SearchKeepsMatching | src/main/java/ru/yandex/practicum/filmorate/storage/film/FilmDbStorage.java:213-224 | a film a director search does not select by title keeps only the rows of matching directors |
| FilmDbStorage.DirectorFilms | src/main/java/ru/yandex/practicum/filmorate/storage/film/FilmDbStorage.java:289-305 | each film linked to the director exactly once, built from the director rows `fd.director_id = ?` keeps |
| FilmDbStorage.GetFilmsOfDirectors | src/main/java/ru/yandex/practicum/filmorate/storage/film/FilmDbStorage.java:289-305 | fails for an unknown director or a sort key other than "year"/"likes" (any case); orders by release date or by non-increasing likes |
| FilmDbStorage.FilmsOfDirectorsSpec | src/main/java/ru/yandex/practicum/filmorate/storage/film/FilmDbStorage.java:289-305 | returns exactly the director's films, once each, each with all its genres and the requested director as its only director |
| FilmDbStorage.DirectorFilmsChronological | src/main/java/ru/yandex/practicum/filmorate/storage/film/FilmDbStorage.java:294-298 | with real dates, "year" lists films with no later date before an earlier one |
| Schema.FilmAt | src/main/java/ru/yandex/practicum/filmorate/storage/film/FilmDbStorage.java:48-71 | a stored film read back by an unfiltered query carries its id, its row's fields and as many likes as like rows |
| Schema.TopLiked | src/main/java/ru/yandex/practicum/filmorate/storage/film/FilmDbStorage.java:179 | `ORDER BY likes DESC LIMIT n` keeps the n most liked, in non-increasing order |
| Schema.SortedByLikes | src/main/java/ru/yandex/practicum/filmorate/service/FilmService.java:95-97 | sorting by likes descending permutes the films and keeps ids distinct |
| InMemoryFilmStorage.LikedAfterCount | src/main/java/ru/yandex/practicum/filmorate/storage/film/InMemoryFilmStorage.java:50-58 | the liker set grows by one on a user's first like and not on a repeat; liking twice equals liking once |
| InMemoryFilmStorage.UnlikedAfterCount | src/main/java/ru/yandex/practicum/filmorate/storage/film/InMemoryFilmStorage.java:60-68 | the liker set shrinks by one exactly when the user was in it |
| InMemoryFilmStorage.Storage.CheckFilmExists | src/main/java/ru/yandex/practicum/filmorate/storage/film/InMemoryFilmStorage.java:78-85 | passes exactly for a stored film, else `NotFound(film, id)` |
| InMemoryFilmStorage.Storage.GetAll | src/main/java/ru/yandex/practicum/filmorate/storage/film/InMemoryFilmStorage.java:18-21 | returns the stored films |
| InMemoryFilmStorage.Storage.GetById | src/main/java/ru/yandex/practicum/filmorate/storage/film/InMemoryFilmStorage.java:23-27 | fails for an unknown film, else returns it |
| InMemoryFilmStorage.Storage.Create | src/main/java/ru/yandex/practicum/filmorate/storage/film/InMemoryFilmStorage.java:29-35 | assigns the counter's id and advances it, so ids strictly increase |
| InMemoryFilmStorage.Storage.Update | src/main/java/ru/yandex/practicum/filmorate/storage/film/InMemoryFilmStorage.java:37-43 | fails for an unknown film; otherwise stores the film with the stored like count, whatever the request sent |
| InMemoryFilmStorage.Storage.Delete | src/main/java/ru/yandex/practicum/filmorate/storage/film/InMemoryFilmStorage.java:45-48 | only checks existence; the film stays stored |
| InMemoryFilmStorage.Storage.AddLike | src/main/java/ru/yandex/practicum/filmorate/storage/film/InMemoryFilmStorage.java:50-58 | fails for an unknown film; otherwise adds the user to the liker set and sets likes to its size |
| InMemoryFilmStorage.Storage.DeleteLike | src/main/java/ru/yandex/practicum/filmorate/storage/film/InMemoryFilmStorage.java:60-68 | fails for an unknown film; a film never liked is left alone; otherwise removes the user and recounts |
| InMemoryFilmStorage.Storage.FilmsPopular | src/main/java/ru/yandex/practicum/filmorate/storage/film/InMemoryFilmStorage.java:70-76 | a negative count fails as `Stream.limit` does; otherwise at most `count` stored films, most liked first, none omitted with more likes |
| FilmMapper.NonBlank | src/main/java/ru/yandex/practicum/filmorate/storage/film/FilmMapper.java:49 | keeps exactly the non-blank tokens, in order |
| FilmMapper.ParseAll | src/main/java/ru/yandex/practicum/filmorate/storage/film/FilmMapper.java:50 | parses every token as an `int`, failing with `NumberFormat` on the first that is not one |
| FilmMapper.Zip | src/main/java/ru/yandex/practicum/filmorate/storage/film/FilmMapper.java:69-85 | pairs the i-th id with the i-th name; fails with `IndexOutOfBounds` when there are fewer names than ids |
| FilmMapper.Collect | src/main/java/ru/yandex/practicum/filmorate/storage/film/FilmMapper.java:93-99 | one entry per distinct id, ids strictly ascending, each entry the first pair with that id |
| FilmMapper.MapRow | src/main/java/ru/yandex/practicum/filmorate/storage/film/FilmMapper.java:25-106 | copies id, name, description, date, duration, likes and MPA unchanged; fails as the genre and then the director columns fail; otherwise the decoded genres and directors |
| FilmMapper.ParseIdsColumn | src/main/java/ru/yandex/practicum/filmorate/storage/film/FilmMapper.java:48-56 | a comma-joined column of `int` ids parses back to the ids |
| FilmMapper.SplitNamesColumn | src/main/java/ru/yandex/practicum/filmorate/storage/film/FilmMapper.java:59-60 | splitting a joined names column gives back the names (an empty column gives one empty token) |
| FilmMapper.ZipColumns | src/main/java/ru/yandex/practicum/filmorate/storage/film/FilmMapper.java:48-99 | decoding the id and name columns of a pair list gives the collected pairs |
| FilmMapper.CollectConsistent | src/main/java/ru/yandex/practicum/filmorate/storage/film/FilmMapper.java:93-99 | when an id always comes with the same name, collecting keeps exactly the input pairs |
| FilmMapper.MapPairsRoundTrip | src/main/java/ru/yandex/practicum/filmorate/storage/film/FilmMapper.java:48-99 | encoding comma-free pairs as two columns and decoding them gives each pair once, in ascending id order |
| FilmMapper.EmptyColumns | src/main/java/ru/yandex/practicum/filmorate/storage/film/FilmMapper.java:48-60 | the COALESCE default `''` in both columns decodes to no entries |
| FilmMapper.ParseTwoIds | src/main/java/ru/yandex/practicum/filmorate/storage/film/FilmMapper.java:48-51 | "1,2" parses to [1, 2] |
| FilmMapper.EmptyNameThrows | src/main/java/ru/yandex/practicum/filmorate/storage/film/FilmMapper.java:59-85 | two ids and the names column "Nolan," fail with `IndexOutOfBounds(1, 1)`, since `split` drops the trailing empty name |
| Text.ParseFormatRoundTrip | src/main/java/ru/yandex/practicum/filmorate/storage/film/FilmMapper.java:50 | `parseInt` of a formatted `int` gives the number back |
| Text.JavaSplitOfJoin | src/main/java/ru/yandex/practicum/filmorate/storage/film/FilmMapper.java:59-60 | `split(",")` undoes a join of comma-free pieces whose last piece is not empty |
| Text.ContainsAt | src/main/java/ru/yandex/practicum/filmorate/service/FilmService.java:92-93 | `contains` holds exactly when the text occurs at some position |
| Text.UpperOfLower | src/main/java/ru/yandex/practicum/filmorate/storage/friend_requests/FriendRequestDbStorage.java:27 | upper-casing a lower-cased upper-case name gives the name back |
| FilmService.Update | src/main/java/ru/yandex/practicum/filmorate/service/FilmService.java:43-53 | a film without an id fails with `Validation` before storage is touched; otherwise as the storage update |
| FilmService.Delete | src/main/java/ru/yandex/practicum/filmorate/service/FilmService.java:55-61 | removes the film's reviews and their ratings, then the film; an unknown film changes nothing; both reference invariants are kept |
| FilmService.AddLike | src/main/java/ru/yandex/practicum/filmorate/service/FilmService.java:63-66 | an unknown user is reported first, then an unknown film; otherwise the like is added |
| FilmService.DeleteLike | src/main/java/ru/yandex/practicum/filmorate/service/FilmService.java:68-71 | an unknown user is reported first, then an unknown film; otherwise the like is removed |
| FilmService.FilmsPopular | src/main/java/ru/yandex/practicum/filmorate/service/FilmService.java:73-76 | uses 10 when no count is given, else the count |
| FilmService.FilmSearch | src/main/java/ru/yandex/practicum/filmorate/service/FilmService.java:83-98 | a missing or empty `by` is an error; no query returns all films; otherwise the search flags are substring tests for "director" and "title" and the hits come most liked first, as a permutation |
| FilmService.GetFilmsOfDirectors | src/main/java/ru/yandex/practicum/filmorate/service/FilmService.java:100-103 | the director lookup first fails exactly as the storage would |
| DirectorDbStorage.CheckDirectorExists | src/main/java/ru/yandex/practicum/filmorate/storage/director/DirectorDbStorage.java:86-100 | passes exactly for a stored director, else `NotFound(director, id)` |
| DirectorDbStorage.GetAll | src/main/java/ru/yandex/practicum/filmorate/storage/director/DirectorDbStorage.java:40-44 | every stored director once, with its name |
| DirectorDbStorage.GetById | src/main/java/ru/yandex/practicum/filmorate/storage/director/DirectorDbStorage.java:46-52 | fails for an unknown id, else the director with its stored name |
| DirectorDbStorage.Create | src/main/java/ru/yandex/practicum/filmorate/storage/director/DirectorDbStorage.java:54-63 | stores the name under a fresh id and returns the director carrying it |
| DirectorDbStorage.Update | src/main/java/ru/yandex/practicum/filmorate/storage/director/DirectorDbStorage.java:65-76 | fails for an unknown id; otherwise changes only that director's name |
| DirectorDbStorage.Delete | src/main/java/ru/yandex/practicum/filmorate/storage/director/DirectorDbStorage.java:78-84 | fails for an unknown id; otherwise removes the director and exactly its film links |
| FeedDbStorage.UserFeed | src/main/java/ru/yandex/practicum/filmorate/storage/feed/FeedDbStorage.java:19-25 | exactly the events of the user, in log order |
| FeedDbStorage.GetUserFeed | src/main/java/ru/yandex/practicum/filmorate/storage/feed/FeedDbStorage.java:19-25 | returns exactly the stored events whose user is the given one |
| FeedDbStorage.AddEvent | src/main/java/ru/yandex/practicum/filmorate/storage/feed/FeedDbStorage.java:27-37 | appends exactly one event carrying the event's fields and the next id; earlier events are untouched |
| FeedDbStorage.UserFeedAppend | src/main/java/ru/yandex/practicum/filmorate/storage/feed/FeedDbStorage.java:19-37 | an appended event ends its own user's feed |
| FeedDbStorage.AddEventOtherFeeds | src/main/java/ru/yandex/practicum/filmorate/storage/feed/FeedDbStorage.java:19-37 | an event of user v leaves every other user's feed unchanged |
| ReviewsRatingsDbStorage.Create | src/main/java/ru/yandex/practicum/filmorate/storage/reviews_ratings/ReviewsRatingsDbStorage.java:24-33 | adds the (user, review) row with the score |
| ReviewsRatingsDbStorage.Update | src/main/java/ru/yandex/practicum/filmorate/storage/reviews_ratings/ReviewsRatingsDbStorage.java:35-43 | changes only that row's score; no effect when it is absent |
| ReviewsRatingsDbStorage.Upsert | src/test/java/ru/yandex/practicum/filmorate/controller/ReviewControllerTest.java:233-287 | inserts or replaces the (user, review) score |
| ReviewsRatingsDbStorage.Delete | src/main/java/ru/yandex/practicum/filmorate/storage/reviews_ratings/ReviewsRatingsDbStorage.java:45-49 | removes only the (user, review) row |
| ReviewsRatingsDbStorage.DeleteByUserId | src/main/java/ru/yandex/practicum/filmorate/storage/reviews_ratings/ReviewsRatingsDbStorage.java:51-54 | removes exactly the user's rows |
| ReviewsRatingsDbStorage.DeleteByReviewId | src/main/java/ru/yandex/practicum/filmorate/storage/reviews_ratings/ReviewsRatingsDbStorage.java:56-59 | removes exactly the review's rows |
| ReviewsRatingsDbStorage.DeleteByFilmId | src/main/java/ru/yandex/practicum/filmorate/storage/reviews_ratings/ReviewsRatingsDbStorage.java:61-72 | removes exactly the rows on reviews of the film |
| ReviewDbStorage.Raters | src/main/java/ru/yandex/practicum/filmorate/storage/review/ReviewDbStorage.java:40-42 | the users with a rating on the review |
| ReviewDbStorage.Scores | src/main/java/ru/yandex/practicum/filmorate/storage/review/ReviewDbStorage.java:40-42 | each rater's score on the review |
| ReviewDbStorage.UsefulUnrated | src/main/java/ru/yandex/practicum/filmorate/storage/review/ReviewDbStorage.java:39 | a review without ratings has useful 0 |
| ReviewDbStorage.UsefulAfterUpsert | src/main/java/ru/yandex/practicum/filmorate/storage/review/ReviewDbStorage.java:136-148 | setting a user's score moves that review's useful by new score minus old, and leaves every other review's useful unchanged |
| ReviewDbStorage.UsefulAfterRemove | src/main/java/ru/yandex/practicum/filmorate/storage/review/ReviewDbStorage.java:150-159 | removing a score moves useful by minus that score and leaves other reviews unchanged |
| ReviewDbStorage.UsefulCountsVotes | src/main/java/ru/yandex/practicum/filmorate/storage/review/ReviewDbStorage.java:39-49 | with ±1 scores, useful is the number of likers minus the number of dislikers |
| ReviewDbStorage.CheckReviewExists | src/main/java/ru/yandex/practicum/filmorate/storage/review/ReviewDbStorage.java:161-170 | passes exactly for a stored review, else `NotFound(review, id)` |
| ReviewDbStorage.ReviewOf | src/main/java/ru/yandex/practicum/filmorate/storage/review/ReviewDbStorage.java:34-47 | a review read back carries its id, author, film and the sum of its scores |
| ReviewDbStorage.ReviewsAt | src/main/java/ru/yandex/practicum/filmorate/storage/review/ReviewDbStorage.java:51-58 | the reviews with the given keys, in order, no review twice |
| ReviewDbStorage.GetById | src/main/java/ru/yandex/practicum/filmorate/storage/review/ReviewDbStorage.java:60-65 | fails for an unknown review, else that review with its useful |
| ReviewDbStorage.GetAll | src/main/java/ru/yandex/practicum/filmorate/storage/review/ReviewDbStorage.java:51-58 | at most `count` selected reviews, none twice, in non-increasing useful order |
| ReviewDbStorage.GetAllSpec | src/main/java/ru/yandex/practicum/filmorate/storage/review/ReviewDbStorage.java:51-58 | no selected review left out is more useful than a returned one |
| ReviewDbStorage.GetAllComplete | src/main/java/ru/yandex/practicum/filmorate/storage/review/ReviewDbStorage.java:51-58 | with room for all, every selected review is returned |
| ReviewDbStorage.Create | src/main/java/ru/yandex/practicum/filmorate/storage/review/ReviewDbStorage.java:67-80 | checks the user, then the film; stores the review under a fresh id and appends one REVIEW/ADD event for its author; a new review has useful 0 |
| ReviewDbStorage.Update | src/main/java/ru/yandex/practicum/filmorate/storage/review/ReviewDbStorage.java:82-100 | fails for an unknown review or author; changes only content and verdict, appends REVIEW/UPDATE for the original author, keeps useful |
| ReviewDbStorage.Delete | src/main/java/ru/yandex/practicum/filmorate/storage/review/ReviewDbStorage.java:102-118 | fails for an unknown review; removes its ratings, appends REVIEW/REMOVE for its author, removes the review |
| ReviewDbStorage.DeleteByFilmId | src/main/java/ru/yandex/practicum/filmorate/storage/review/ReviewDbStorage.java:120-126 | fails for an unknown film; otherwise removes the film's reviews and their ratings |
| ReviewDbStorage.DeleteByUserId | src/main/java/ru/yandex/practicum/filmorate/storage/review/ReviewDbStorage.java:128-134 | fails for an unknown user; otherwise removes the user's ratings and reviews |
| ReviewDbStorage.CheckRatingArgs | src/main/java/ru/yandex/practicum/filmorate/storage/review/ReviewDbStorage.java:137-139 | checks the review, then the user |
| ReviewDbStorage.AddLike | src/main/java/ru/yandex/practicum/filmorate/storage/review/ReviewDbStorage.java:136-141 | fails before any change for an unknown review or user; otherwise sets the score to +1, replacing any earlier score |
| ReviewDbStorage.AddDislike | src/main/java/ru/yandex/practicum/filmorate/storage/review/ReviewDbStorage.java:143-148 | fails before any change for an unknown review or user; otherwise sets the score to -1, replacing any earlier score |
| ReviewDbStorage.DeleteReviewRating | src/main/java/ru/yandex/practicum/filmorate/storage/review/ReviewDbStorage.java:150-159 | fails for an unknown review or user, or with `RatingNotFound` when the user has no score; otherwise removes only that score |
| ReviewService.GetAll | src/main/java/ru/yandex/practicum/filmorate/service/ReviewService.java:16-22 | uses 10 when no count is given |
| ReviewService.GetById | src/main/java/ru/yandex/practicum/filmorate/service/ReviewService.java:25-27 | fails for an unknown review, else the review with its useful |
| ReviewService.Create | src/main/java/ru/yandex/practicum/filmorate/service/ReviewService.java:30-35 | succeeds exactly for a known user and film, adding one review and one event |
| ReviewService.Update | src/main/java/ru/yandex/practicum/filmorate/service/ReviewService.java:38-48 | a review without an id fails with `Validation` before storage is touched; otherwise as the storage update |
| ReviewService.Delete | src/main/java/ru/yandex/practicum/filmorate/service/ReviewService.java:51-53 | removes the review and its ratings |
| ReviewService.AddLike | src/main/java/ru/yandex/practicum/filmorate/service/ReviewService.java:56-58 | the storage's like with the same arguments |
| ReviewService.AddDislike | src/main/java/ru/yandex/practicum/filmorate/service/ReviewService.java:61-63 | the storage's dislike with the same arguments |
| ReviewService.DeleteLike | src/main/java/ru/yandex/practicum/filmorate/service/ReviewService.java:66-68 | removes the user's score, whether a like or a dislike |
| ReviewService.DeleteDislike | src/main/java/ru/yandex/practicum/filmorate/service/ReviewService.java:71-73 | removes the user's score, whether a like or a dislike |
| UserService.WithDefaultName | src/main/java/ru/yandex/practicum/filmorate/service/UserService.java:29-33 | a missing name is replaced by the login, a present name is kept, nothing else changes |
| UserService.Create | src/main/java/ru/yandex/practicum/filmorate/service/UserService.java:29-37 | stores the user with the defaulted name |
| UserService.Update | src/main/java/ru/yandex/practicum/filmorate/service/UserService.java:39-52 | a user without an id fails with `Validation` before storage is touched; otherwise updates with the defaulted name |
| UserService.Delete | src/main/java/ru/yandex/practicum/filmorate/service/UserService.java:54-60 | removes the user's reviews and ratings first, then the user |
| UserController.Merge | src/main/java/ru/yandex/practicum/filmorate/controller/UserController.java:50-64 | every field the request sets is taken from it, every null field is kept |
| UserController.MergeIdempotent | src/main/java/ru/yandex/practicum/filmorate/controller/UserController.java:50-64 | repeating an update changes nothing, and an empty update keeps the user |
| UserController.Registry.GetAll | src/main/java/ru/yandex/practicum/filmorate/controller/UserController.java:20-23 | returns exactly the stored users |
| UserController.Registry.Create | src/main/java/ru/yandex/practicum/filmorate/controller/UserController.java:25-35 | id = number of stored users + 1, a fresh key; a missing name becomes the login |
| UserController.Registry.Update | src/main/java/ru/yandex/practicum/filmorate/controller/UserController.java:37-65 | no id: `Validation`; unknown id: `NotFound`; both with no change; otherwise stores and returns the merge |
| Dates.OrdinalOrder | src/main/java/ru/yandex/practicum/filmorate/validation/ReleaseDateValidator.java:21 | on real calendar dates, the field-wise order is the order of day numbers |
| ReleaseDateValidator.Boundary | src/main/java/ru/yandex/practicum/filmorate/validation/ReleaseDateValidator.java:9-22 | a missing date, 1895-12-28 and 1895-12-27 are invalid; 1895-12-29 is valid |
| ReleaseDateValidator.ValidityMonotone | src/main/java/ru/yandex/practicum/filmorate/validation/ReleaseDateValidator.java:21 | any date after a valid date is valid |
| ReleaseDateValidator.ValidIffAfterOrdinal | src/main/java/ru/yandex/practicum/filmorate/validation/ReleaseDateValidator.java:21 | a real date is valid exactly when its day number is after 1895-12-28's |
| FilmRatingValidator.IsValid | src/main/java/ru/yandex/practicum/filmorate/validation/FilmRatingValidator.java:17-32 | valid exactly for the five names; null gives "film rating is required", any other name the listing message; each refusal disables the default and adds one message |
| FilmRatingValidator.CaseSensitive | src/main/java/ru/yandex/practicum/filmorate/validation/FilmRatingValidator.java:22 | "PG" and "NC-17" pass while "pg" and "NC17" are refused |

## Findings

| source | as written | input that shows it | evidently intended | confidence | as-written member | corrected member |
|---|---|---|---|---|---|---|
| src/main/java/ru/yandex/practicum/filmorate/storage/user/UserDbStorage.java:218-250 | the last recommendation query selects no `directors_ids` or `directors_names` column, but it maps its rows with `FilmMapper`, which reads both (src/main/java/ru/yandex/practicum/filmorate/storage/film/FilmMapper.java:37-38) | user 1 likes film 1 and user 2 likes films 1 and 2: the neighbour is user 2, the recommended ids are [2], and mapping film 2 throws (`UserDbStorage.RecommendationsAsWrittenExample`) | the films read as the other film queries read them, directors included | not executed | UserDbStorage.RecommendationsAsWrittenFail | UserDbStorage.RecommendationsSpec |

## Left out

- SQL itself. Each statement is modelled by its effect on the tables. Queries return their rows in ascending key order and then apply the ORDER BY as a stable sort. Ties in `ORDER BY` and in the `LIMIT 1` neighbour choice go to the lowest id. The source leaves those orders to the database, so the contracts speak only about sets and about the sorted key.
- Join multiplicities. `SELECT_FILMS_QUERY` joins likes, genres and directors before grouping. In the database, `COUNT(ufl.film_id)` and `group_concat` can therefore count one like or genre several times. The model counts each like row once and lists each genre and director once, as the authors evidently meant.
- `group_concat` ordering. The model assumes the id column and the name column list their entries in the same order.
- Column decoding versus reading back. Reading a film back goes through `Schema.FilmAt`, not through `FilmMapper.MapRow`. `MapPairsRoundTrip` shows that the two agree for comma-free, non-empty names. `EmptyNameThrows` shows what happens otherwise.
- `LIKE` patterns. The search text is matched as a plain substring; `%` and `_` in user input are not treated as wildcards.
- Case folding. It covers ASCII and the basic Cyrillic letters; other Unicode case mappings are not modelled.
- Identity columns. New keys come from `NextKey` (one more than the largest key), not from the database sequence. Contracts only say that the key is fresh.
- Feed event ids. They are the log position plus one.
- Foreign keys. The schema's foreign keys are not modelled. Contracts state the reference invariants (`RowsReferenceFilms`, `RatingsReferenceReviews`) that the operations keep.
- The date type. Release dates are (year, month, day) triples. The year filter of `filmsPopular` is an optional number rather than the string the source formats into SQL.
- Counts. A `count` passed to the database is a `nat`, because `LIMIT` with a negative count is a database error.
- Friend-request status text. The status is stored as the enum value. The text encoding and its inverse are proved separately (`FriendRequests.DecodeEncode`).
- `UserDbStorage.Delete`: removes the user's outgoing friend requests only, as the source does; requests other users sent to the deleted user remain.
- `ReviewDbStorage.DeleteByUserId`: removes the user's ratings and the user's reviews. Ratings that other users gave on those reviews remain, as in the source.
- `FriendRequests.Create`: writes the row under its key and replaces a row already there, where the table's key would make the insert fail. On a table that keeps `OnePerPair`, which both friend transitions preserve, no call from `UserDbStorage` meets an existing row.
- `ReviewsRatingsDbStorage.Create`: requires the (user, review) key to be absent, since it is the table's key and a second insert is a database error.
- `ReviewsRatingsDbStorage.Upsert`. The ratings storage shown declares no `upsert`; it is modelled as insert-or-replace. Its source cell cites the tests that fix this behaviour.
- `InMemoryFilmStorage` is declared `abstract` and implements `filmSearch` as an empty list. The model treats it as a concrete store and leaves `filmSearch` out. `InMemoryFilmStorage.Storage.Create` stores the client's like count as sent, as the source does.
- `InMemoryUserStorage`'s `getRecommendations` returns an empty list and is not modelled.
- Static counters. The source's `nextEntityId` is static, so all instances share it. The model gives each instance its own counter.
- Object aliasing. The in-memory stores and `UserController` update the client's own objects (`setId`, `setLikes`, setters on `oldUser`). The model treats users and films as values, so later changes through a shared reference are not modelled.
- The HTTP status exceptions of `UserController` (`BAD_REQUEST`, `NOT_FOUND`). They are modelled as `Validation` and `NotFound` errors.
- Bean validation. The `@Valid` annotations on requests are not modelled; the two validators are modelled as functions.
- Validator listing order. The text of `FilmRatingValidator`'s listing message is a parameter, because `Set.of` iterates in no fixed order.
- Logging, and the `System.out.println` in `ReviewsRatingsDbStorage.create`. They have no effect on state.
- Delegating operations that no rule depends on: `FilmService.getAll/getById/create/filmsCommon` and `UserService.getAll/getById/addFriend/deleteFriend/getFriends/getCommonFriends` only forward to the storage. `filmsCommon` has no implementation in the storages shown.
- `Text.ParseInt`: accepts ASCII digits with an optional sign within the `int` range; Java's acceptance of other Unicode digits is not modelled.
- `FilmMapper.Collect`: keeps the first pair for each id in list order. Java's `TreeSet` keeps the first one its `HashSet` iteration reaches, so when names disagree the order is unspecified.
- `Model.Film`: has the fields the storage reads and writes (MPA rating, likes, genres, directors), which the `Film.java` shown, from another revision, does not all declare.
- Clock. Timestamps of feed events come in as the `now` parameter.
