/** The guards the request handlers of `routes.py` make before they call
    into the store, and the handlers themselves as the composition of a
    check with one store operation. The logged-in user of the session is a
    parameter (`None` when nobody is logged in). */
module Routes {
  import opened Common
  import opened Dates
  import opened Models
  import opened Passwords
  import opened FilmSearch
  import opened Tables
  import opened FilmDb
  import opened UserDb

  /** Defaults of the search request's `pagination` and `page_number`. */
  const DefaultPagination: int := 10
  const DefaultPageNumber: int := 1

  // ----- guards -----

  /** The score check of `/film/rate`. */
  function RateGuard(score: int): (r: Option<Failure>)
    ensures r.None? <==> 1 <= score <= 5
    ensures r.Some? ==> r.value == WrongRateValue && r.value.Status() == 400
  {
    if score > 5 || score < 1 then Some(WrongRateValue) else None
  }

  /** The length checks of `/register`: the password first, then the
      nickname. */
  function RegisterGuard(nickname: string, password: string): (r: Option<Failure>)
    ensures r.None? <==> |password| >= 7 && |nickname| >= 5
    ensures |password| < 7 ==> r == Some(PasswordTooShort)
    ensures |password| >= 7 && |nickname| < 5 ==> r == Some(NicknameTooShort)
    ensures r.Some? ==> r.value.Status() == 404
  {
    if |password| < 7 then Some(PasswordTooShort)
    else if |nickname| < 5 then Some(NicknameTooShort)
    else None
  }

  /** The guard of film edit and delete: the film's creator is looked up
      first (404 for an unknown film), then only the creator or an admin
      may go on. */
  function ModifyGuard(c: Catalog, caller: User, filmId: int): (r: Option<Failure>)
    reads c
    ensures c.UserCreator(filmId).Err? ==> r == Some(FilmNotFound)
    ensures c.UserCreator(filmId).Ok? ==>
              (r.None? <==> caller.id == c.UserCreator(filmId).value || caller.admin)
    ensures r.Some? ==> r.value in {FilmNotFound, NotCreatorOrAdmin} && r.value.Status() == 404
  {
    match c.UserCreator(filmId)
    case Err(e) => Some(e)
    case Ok(creator) => if caller.id != creator && !caller.admin then Some(NotCreatorOrAdmin) else None
  }

  /** The guard of `/directors` delete: admins only. */
  function DirectorGuard(caller: User): (r: Option<Failure>)
    ensures r.None? <==> caller.admin
    ensures r.Some? ==> r.value == NotAdmin && r.value.Status() == 400
  {
    if !caller.admin then Some(NotAdmin) else None
  }

  /** The arguments of the search request: `film_mask` is required, the
      page size and page number default to 10 and 1. */
  function SearchArgs(mask: Option<string>, releaseRange: Option<seq<string>>,
                      directorNames: Option<seq<string>>, genreNames: Option<seq<string>>,
                      pagination: Option<int>, pageNumber: Option<int>, sorting: Option<string>)
    : (r: Result<SearchQuery>)
    ensures r.Err? <==> mask.None?
    ensures r.Err? ==> r.failure == MissingArgument && r.failure.Status() == 400
    ensures r.Ok? ==> r.value.mask == mask.value
    ensures r.Ok? && pagination.None? ==> r.value.pagination == 10
    ensures r.Ok? && pageNumber.None? ==> r.value.pageNumber == 1
    ensures r.Ok? && pagination.Some? ==> r.value.pagination == pagination.value
    ensures r.Ok? && pageNumber.Some? ==> r.value.pageNumber == pageNumber.value
    ensures r.Ok? ==> && r.value.releaseRange == releaseRange && r.value.sorting == sorting
                      && r.value.directorNames == directorNames && r.value.genreNames == genreNames
  {
    if mask.None? then Err(MissingArgument)
    else
      Ok(SearchQuery(mask.value, releaseRange, directorNames, genreNames,
                     if pagination.Some? then pagination.value else DefaultPagination,
                     if pageNumber.Some? then pageNumber.value else DefaultPageNumber,
                     sorting))
  }

  /** A search that gives only the mask answers with the first page of at
      most ten films. */
  lemma DefaultSearchIsFirstPage(s: Store, mask: string, today: Date)
    ensures var q := SearchArgs(Some(mask), None, None, None, None, None, None);
            && q.Ok?
            && SearchRows(s, q.value, today).Ok?
            && |SearchRows(s, q.value, today).value| <= 10
            && SearchRows(s, q.value, today).value == Page(ResultOrder(s, q.value, today), 10, 1)
  {
    var q := SearchArgs(Some(mask), None, None, None, None, None, None).value;
    SearchRowsIsPage(s, q, today);
  }

  // ----- handlers -----

  /** `/login`: the user whose nickname and password check out. */
  function LoginRoute(store: UserStore, nickname: string, password: string): (r: Result<User>)
    reads store
    ensures store.CheckingPass(nickname, password).Err? ==> r == Err(NicknameNotFound)
    ensures store.CheckingPass(nickname, password) == Ok(None) ==> r == Err(WrongPassword)
    ensures r.Ok? <==> store.CheckingPass(nickname, password).Ok? && store.CheckingPass(nickname, password).value.Some?
    ensures r.Ok? ==> r.value in store.users && r.value.nickname == nickname && CheckPw(password, r.value.hashAndSalt)
  {
    match store.CheckingPass(nickname, password)
    case Err(e) => Err(e)
    case Ok(None) => Err(WrongPassword)
    case Ok(Some(u)) => Ok(u)
  }

  /** `/register`: the length checks, then `register_user` with the admin
      flag defaulting to false. A user just registered can log in with the
      same password. */
  method RegisterRoute(store: UserStore, nickname: string, password: string, email: string,
                       firstName: Option<string>, surname: Option<string>, age: Option<int>,
                       admin: Option<bool>, salt: Salt) returns (r: Result<int>)
    requires store.Valid()
    modifies store
    ensures store.Valid()
    ensures RegisterGuard(nickname, password).Some? ==> r == Err(RegisterGuard(nickname, password).value)
    ensures r.Err? ==> unchanged(store)
    ensures RegisterGuard(nickname, password).None? ==>
              && (old(store.CheckingNickname(nickname)) ==> r == Err(NicknameTaken))
              && (!old(store.CheckingNickname(nickname)) && old(store.CheckingEmail(email)) ==> r == Err(EmailTaken))
              && (!old(store.CheckingNickname(nickname)) && !old(store.CheckingEmail(email)) ==>
                    && r == Ok(old(store.nextId))
                    && store.users == old(store.users) + [User(old(store.nextId), nickname, HashPw(password, salt),
                                                               email, firstName, surname, age,
                                                               if admin.Some? then admin.value else DefaultAdmin)])
    ensures r.Ok? ==> store.nextId == old(store.nextId) + 1
    ensures r.Ok? ==> LoginRoute(store, nickname, password) == Ok(store.users[|store.users| - 1])
  {
    var guard := RegisterGuard(nickname, password);
    if guard.Some? {
      return Err(guard.value);
    }
    r := store.RegisterUser(nickname, password, email, firstName, surname, age,
                            if admin.Some? then admin.value else DefaultAdmin, salt);
  }

  /** `/film/rate`: the score check, then `rate_film`. Because no score
      outside [1, 5] gets through, every rated film keeps its rating in
      [1, 5]. */
  method RateRoute(c: Catalog, filmId: int, score: int) returns (r: Result<FilmView>)
    requires c.Valid() && c.VotesInRange()
    modifies c
    ensures c.Valid() && c.VotesInRange()
    ensures c.nextFilmId == old(c.nextFilmId)
    ensures RateGuard(score).Some? ==> r == Err(WrongRateValue) && unchanged(c)
    ensures RateGuard(score).None? && FilmIndex(old(c.films), filmId).None? ==> r == Err(FilmNotFound) && unchanged(c)
    ensures RateGuard(score).None? && FilmIndex(old(c.films), filmId).Some? ==>
              var i := FilmIndex(old(c.films), filmId).value;
              && c.films == old(c.films)[i := Rated(old(c.films)[i], score)]
              && c.votes == old(c.votes)[filmId := old(c.votes)[filmId] + [score]]
              && r == Ok(c.View(c.films[i]))
    ensures r.Ok? ==> r.value.ratedUsers >= 1 && 1.0 <= r.value.rating <= 5.0
    ensures forall i :: 0 <= i < |c.films| && c.films[i].ratedUsers > 0 ==> 1.0 <= c.films[i].rating <= 5.0
  {
    var guard := RateGuard(score);
    if guard.Some? {
      c.RatingsInRange();
      return Err(guard.value);
    }
    r := c.RateFilm(filmId, score);
    c.RatingsInRange();
    if r.Ok? {
      var i := FilmIndex(old(c.films), filmId).value;
      assert Agrees(old(c.films)[i], old(c.votes));
    }
  }

  /** `/films` post: logged-in users only; the film is credited to the
      caller, and its director names are required. */
  method InsertRoute(c: Catalog, session: Option<User>, name: string, description: Option<string>,
                     releaseDate: string, poster: Option<string>, genreNames: Option<seq<string>>,
                     directorNames: seq<string>) returns (r: Result<FilmView>)
    requires c.Valid() && c.VotesInRange()
    modifies c, c.genres, c.directors
    ensures c.Valid() && c.VotesInRange()
    ensures session.None? ==> r == Err(NotLoggedIn)
    ensures r.Err? ==> unchanged(c, c.genres, c.directors)
    ensures session.Some? ==>
              var d := ParseIso(releaseDate);
              && (d.None? ==> r == Err(WrongDateFormat))
              && (d.Some? && Listed(old(c.films), name, d.value) ==> r == Err(FilmExists))
              && (d.Some? && !Listed(old(c.films), name, d.value) ==>
                    && (PosterTaken(old(c.films), poster, -1) ==> r == Err(IntegrityError))
                    && (!PosterTaken(old(c.films), poster, -1) ==> r.Ok?))
    ensures r.Ok? ==>
              && session.Some? && ParseIso(releaseDate).Some?
              && var f := Film(old(c.nextFilmId), session.value.id, name, description, DefaultRating,
                               DefaultRatedUsers, ParseIso(releaseDate).value, poster);
                 && c.films == old(c.films) + [f] && c.nextFilmId == old(c.nextFilmId) + 1
                 && c.votes == old(c.votes)[f.id := []]
                 && (c.genres.Snapshot(), c.genres.nextId)
                    == LinkNames(old(c.genres.Snapshot()), old(c.genres.nextId), f.id, NamesGiven(genreNames))
                 && (c.directors.Snapshot(), c.directors.nextId)
                    == LinkNames(old(c.directors.Snapshot()), old(c.directors.nextId), f.id, directorNames)
                 && r == Ok(c.View(f))
                 && c.UserCreator(f.id) == Ok(session.value.id)
  {
    if session.None? {
      return Err(NotLoggedIn);
    }
    r := c.InsertFilm(session.value.id, name, description, releaseDate, poster, genreNames, Some(directorNames));
  }

  /** The release date argument of the edit request, converted as the
      insert request converts it; an omitted or empty one leaves the date
      as it is. */
  function EditedRelease(release: Option<string>): (r: Result<Option<Date>>)
    ensures !Given(release) ==> r == Ok(None)
    ensures Given(release) && ParseIso(release.value).None? ==> r == Err(WrongDateFormat)
    ensures Given(release) && ParseIso(release.value).Some? ==> r == Ok(ParseIso(release.value))
    ensures r.Ok? && r.value.Some? ==> FormatIso(r.value.value) == release.value
  {
    if !Given(release) then Ok(None)
    else
      var d := ParseIso(release.value);
      if d.None? then Err(WrongDateFormat)
      else
        FormatParseIso(release.value);
        Ok(d)
  }

  /** What the edit request does with its release date as the code stands:
      the string goes into the `Date` column unconverted, and SQLite's `Date`
      type refuses anything but a date object when the row is flushed, so a
      non-empty release date ends the request in a 500 with nothing
      committed. */
  function StoredRelease(release: Option<string>): (r: Result<Option<Date>>)
    ensures r.Err? <==> Given(release)
    ensures r.Err? ==> r.failure == DateColumnType && r.failure.Status() == 500
    ensures r.Ok? ==> r.value.None?
  {
    if Given(release) then Err(DateColumnType) else Ok(None)
  }

  /** Editing a film's release date to a well-formed date: refused as the
      code stands, stored as evidently intended. */
  lemma StoredReleaseRefusesEveryDate(d: Date)
    ensures StoredRelease(Some(FormatIso(d))) == Err(DateColumnType)
    ensures EditedRelease(Some(FormatIso(d))) == Ok(Some(d))
  {
    ParseFormatIso(d);
  }

  /** `/films` put: logged-in users only, then the creator-or-admin guard;
      a refused request changes nothing, an allowed one is `edit_film`. */
  method EditRoute(c: Catalog, session: Option<User>, filmId: int, name: Option<string>,
                   description: Option<string>, release: Option<string>, poster: Option<string>,
                   directorNames: Option<seq<string>>, genreNames: Option<seq<string>>)
    returns (r: Result<FilmView>)
    requires c.Valid() && c.VotesInRange()
    modifies c, c.genres, c.directors
    ensures c.Valid() && c.VotesInRange() && c.nextFilmId == old(c.nextFilmId)
    ensures session.None? ==> r == Err(NotLoggedIn)
    ensures session.Some? && old(ModifyGuard(c, session.value, filmId)).Some? ==>
              r == Err(old(ModifyGuard(c, session.value, filmId)).value)
    ensures r.Err? ==> unchanged(c, c.genres, c.directors)
    ensures session.Some? && old(ModifyGuard(c, session.value, filmId)).None? ==>
              FilmIndex(old(c.films), filmId).Some?
    ensures session.Some? && old(ModifyGuard(c, session.value, filmId)).None? ==>
              if EditedRelease(release).Err? then r == Err(WrongDateFormat)
              else
                var i := FilmIndex(old(c.films), filmId).value;
                var f := Edited(old(c.films)[i], name, description, EditedRelease(release).value, poster);
                && (PosterTaken(old(c.films), f.poster, i) ==> r == Err(IntegrityError))
                && (!PosterTaken(old(c.films), f.poster, i) ==>
                      && c.films == old(c.films)[i := f] && c.votes == old(c.votes)
                      && c.nextFilmId == old(c.nextFilmId)
                      && (c.directors.Snapshot(), c.directors.nextId)
                         == LinkNames(old(c.directors.Snapshot()), old(c.directors.nextId), filmId, NamesGiven(directorNames))
                      && (c.genres.Snapshot(), c.genres.nextId)
                         == LinkNames(old(c.genres.Snapshot()), old(c.genres.nextId), filmId, NamesGiven(genreNames))
                      && r == Ok(c.View(f)))
    ensures r.Ok? ==> session.Some? && (session.value.admin || old(c.UserCreator(filmId)) == Ok(session.value.id))
    ensures r.Ok? ==> c.UserCreator(filmId) == old(c.UserCreator(filmId))
  {
    if session.None? {
      return Err(NotLoggedIn);
    }
    var guard := ModifyGuard(c, session.value, filmId);
    if guard.Some? {
      return Err(guard.value);
    }
    var date := EditedRelease(release);
    if date.Err? {
      return Err(date.failure);
    }
    r := c.EditFilm(filmId, name, description, date.value, poster, directorNames, genreNames);
  }

  /** `/films` delete: logged-in users only, then the creator-or-admin
      guard; a refused request changes nothing, an allowed one is
      `delete_film`. */
  method DeleteRoute(c: Catalog, session: Option<User>, filmId: int) returns (r: Result<()>)
    requires c.Valid() && c.VotesInRange()
    modifies c, c.genres, c.directors
    ensures c.Valid() && c.VotesInRange()
    ensures session.None? ==> r == Err(NotLoggedIn)
    ensures session.Some? && old(ModifyGuard(c, session.value, filmId)).Some? ==>
              r == Err(old(ModifyGuard(c, session.value, filmId)).value)
    ensures r.Err? ==> unchanged(c, c.genres, c.directors)
    ensures session.Some? && old(ModifyGuard(c, session.value, filmId)).None? ==>
              FilmIndex(old(c.films), filmId).Some?
    ensures session.Some? && old(ModifyGuard(c, session.value, filmId)).None? ==>
              var i := FilmIndex(old(c.films), filmId).value;
              && r == Ok(())
              && c.films == old(c.films)[..i] + old(c.films)[i + 1..]
              && c.nextFilmId == old(c.nextFilmId) && c.votes == old(c.votes) - {filmId}
              && c.genres.Snapshot() == DropFilm(old(c.genres.Snapshot()), filmId)
              && c.directors.Snapshot() == DropFilm(old(c.directors.Snapshot()), filmId)
    ensures r.Ok? ==> session.Some? && (session.value.admin || old(c.UserCreator(filmId)) == Ok(session.value.id))
    ensures r.Ok? ==> c.UserCreator(filmId) == Err(FilmNotFound)
  {
    if session.None? {
      return Err(NotLoggedIn);
    }
    var guard := ModifyGuard(c, session.value, filmId);
    if guard.Some? {
      return Err(guard.value);
    }
    r := c.DeleteFilm(filmId);
  }

  /** `/directors` delete: logged-in admins only, then `delete_director`. */
  method DeleteDirectorRoute(c: Catalog, session: Option<User>, name: string) returns (r: Result<()>)
    requires c.Valid()
    modifies c.directors
    ensures c.Valid()
    ensures session.None? ==> r == Err(NotLoggedIn)
    ensures session.Some? && !session.value.admin ==> r == Err(NotAdmin)
    ensures r.Err? ==> unchanged(c.directors)
    ensures session.Some? && session.value.admin ==>
              && (NameIndex(old(c.directors.rows), name).None? ==> r == Err(DirectorNotFound))
              && (NameIndex(old(c.directors.rows), name).Some? ==>
                    && r == Ok(())
                    && c.directors.Snapshot()
                       == DropRow(old(c.directors.Snapshot()), NameIndex(old(c.directors.rows), name).value))
    ensures r.Ok? ==> session.Some? && session.value.admin && NameIndex(c.directors.rows, name).None?
  {
    if session.None? {
      return Err(NotLoggedIn);
    }
    var guard := DirectorGuard(session.value);
    if guard.Some? {
      return Err(guard.value);
    }
    r := c.DeleteDirector(name);
  }
}
