/** The catalogue store of `db_film.py` as objects updated in place: the
    film table, and the director and genre tables with their association
    tables. Each method performs one of the row operations of `Tables` and
    is proved against it. Every operation is atomic: no half-committed
    state is modelled. */
module FilmDb {
  import opened Common
  import opened Dates
  import opened Models
  import opened Rating
  import opened FilmSearch
  import opened Tables

  /** A name table (`directors` or `genres`) together with its association
      table; the two tables of the schema have the same shape. */
  class TagTable {
    var rows: seq<Named>
    var links: set<(int, int)>
    /** The key the next inserted row receives. */
    var nextId: int

    ghost predicate Valid()
      reads this
    {
      TagsValid(Snapshot(), nextId)
    }

    function Snapshot(): Tags
      reads this
    {
      Tags(rows, links)
    }

    constructor ()
      ensures Valid() && rows == [] && links == {} && nextId == 1
    {
      rows, links, nextId := [], {}, 1;
    }

    /** Get-or-create: look the name up, insert a row for it if it is
        absent, and return the key of the row that holds it. */
    method GetOrCreate(name: string) returns (id: int)
      requires Valid()
      modifies this
      ensures Valid() && links == old(links)
      ensures NameIndex(old(rows), name).Some? ==>
                rows == old(rows) && nextId == old(nextId) && id == old(rows)[NameIndex(old(rows), name).value].id
      ensures NameIndex(old(rows), name).None? ==>
                rows == old(rows) + [Named(old(nextId), name)] && nextId == old(nextId) + 1 && id == old(nextId)
    {
      var found := NameIndex(rows, name);
      if found.Some? {
        id := rows[found.value].id;
      } else {
        AppendRowKeepsTags(Snapshot(), nextId, name);
        id := nextId;
        rows := rows + [Named(id, name)];
        nextId := nextId + 1;
      }
    }

    /** One turn of the loop below: get-or-create the name and link the
        film to its row. */
    method LinkOne(filmId: int, name: string)
      requires Valid()
      modifies this
      ensures Valid()
      ensures (Snapshot(), nextId) == LinkName(old(Snapshot()), old(nextId), filmId, name)
    {
      ghost var t, n := Snapshot(), nextId;
      LinkNameValid(t, n, filmId, name);
      var id := GetOrCreate(name);
      GotOrCreated(t, n, filmId, name, rows, nextId, id);
      links := links + {(filmId, id)};
    }

    /** `insert_film_genres` / `insert_film_directors`: get-or-create each
        name in turn and link the film to its row. */
    method Attach(filmId: int, names: seq<string>)
      requires Valid()
      modifies this
      ensures Valid()
      ensures (Snapshot(), nextId) == LinkNames(old(Snapshot()), old(nextId), filmId, names)
    {
      var i := 0;
      while i < |names|
        invariant 0 <= i <= |names|
        invariant Valid()
        invariant (Snapshot(), nextId) == LinkNames(old(Snapshot()), old(nextId), filmId, names[..i])
      {
        ghost var before := (Snapshot(), nextId);
        LinkOne(filmId, names[i]);
        assert LinkNames(old(Snapshot()), old(nextId), filmId, names[..i + 1])
               == LinkName(before.0, before.1, filmId, names[i]) by {
          assert names[..i + 1][..i] == names[..i];
        }
        i := i + 1;
      }
      assert names[..i] == names;
    }

    /** The `ON DELETE CASCADE` of the association table on the film side. */
    method DetachFilm(filmId: int)
      requires Valid()
      modifies this
      ensures Valid() && nextId == old(nextId)
      ensures Snapshot() == DropFilm(old(Snapshot()), filmId)
    {
      links := set l | l in links && l.0 != filmId;
    }

    /** Delete the first row named `name` and, by cascade, its links;
        `removed` is false when no row has that name. */
    method RemoveNamed(name: string) returns (removed: bool)
      requires Valid()
      modifies this
      ensures Valid() && nextId == old(nextId)
      ensures removed <==> NameIndex(old(rows), name).Some?
      ensures !removed ==> unchanged(this)
      ensures removed ==> Snapshot() == DropRow(old(Snapshot()), NameIndex(old(rows), name).value)
    {
      var found := NameIndex(rows, name);
      removed := found.Some?;
      if removed {
        DropRowKeepsTags(Snapshot(), nextId, found.value);
        var after := DropRow(Snapshot(), found.value);
        rows, links := after.rows, after.links;
      }
    }
  }

  /** The film side of the database. */
  class Catalog {
    var films: seq<Film>
    /** The key the next inserted film receives. */
    var nextFilmId: int
    /** Every score each film has received, in order. */
    ghost var votes: map<int, seq<int>>
    const genres: TagTable
    const directors: TagTable

    function Snapshot(): Store
      reads this, genres, directors
    {
      Store(films, genres.Snapshot(), directors.Snapshot())
    }

    /** The schema's constraints hold, and each film's rating columns
        summarise the scores it received. */
    ghost predicate Valid()
      reads this, genres, directors
    {
      && genres != directors
      && genres.Valid() && directors.Valid()
      && WellFormed(Snapshot())
      && KeysBelow(films, nextFilmId)
      && VotesAgree(films, votes)
    }

    /** Every score ever accepted lies in [1, 5]. */
    ghost predicate VotesInRange()
      reads this
    {
      forall id :: id in votes ==> ScoresInRange(votes[id])
    }

    /** A film that has been rated shows a rating in [1, 5] as long as every
        accepted score was in range. */
    lemma RatingsInRange()
      requires Valid() && VotesInRange()
      ensures forall i :: 0 <= i < |films| && films[i].ratedUsers > 0 ==> 1.0 <= films[i].rating <= 5.0
    {
      forall i | 0 <= i < |films| && films[i].ratedUsers > 0
        ensures 1.0 <= films[i].rating <= 5.0
      {
        assert Agrees(films[i], votes);
        MeanInRange(votes[films[i].id]);
      }
    }

    /** The record the service returns for a film. */
    function View(f: Film): FilmView
      reads this, genres, directors
    {
      ToView(Snapshot(), f)
    }

    constructor ()
      ensures Valid() && fresh(genres) && fresh(directors)
      ensures films == [] && nextFilmId == 1 && votes == map[]
      ensures genres.rows == [] && genres.links == {} && directors.rows == [] && directors.links == {}
    {
      films, nextFilmId, votes := [], 1, map[];
      genres := new TagTable();
      directors := new TagTable();
    }

    /** `get_user_creator`: who added the film. */
    function UserCreator(filmId: int): (r: Result<int>)
      reads this
      ensures r.Err? <==> forall i :: 0 <= i < |films| ==> films[i].id != filmId
      ensures r.Err? ==> r.failure == FilmNotFound
      ensures r.Ok? ==> exists i :: 0 <= i < |films| && films[i].id == filmId && films[i].creator == r.value
    {
      match FilmIndex(films, filmId)
      case None => Err(FilmNotFound)
      case Some(i) => Ok(films[i].creator)
    }

    /** `rate_film`: fold one more score into the film's running mean. The
        score is not checked here; the request handler checks it. */
    method RateFilm(filmId: int, score: int) returns (r: Result<FilmView>)
      requires Valid()
      modifies this
      ensures Valid() && nextFilmId == old(nextFilmId)
      ensures FilmIndex(old(films), filmId).None? ==> r == Err(FilmNotFound) && unchanged(this)
      ensures FilmIndex(old(films), filmId).Some? ==>
                var i := FilmIndex(old(films), filmId).value;
                && films == old(films)[i := Rated(old(films)[i], score)]
                && votes == old(votes)[filmId := old(votes)[filmId] + [score]]
                && r == Ok(View(films[i]))
      ensures 1 <= score <= 5 && old(VotesInRange()) ==> VotesInRange()
    {
      var found := FilmIndex(films, filmId);
      if found.None? {
        return Err(FilmNotFound);
      }
      var i := found.value;
      OwnPosterFree(films, i);
      RateKeepsVotes(films, votes, i, score);
      ReplaceFilmKeepsStore(Snapshot(), i, Rated(films[i], score));
      ghost var history := votes[filmId];
      films := films[i := Rated(films[i], score)];
      votes := votes[filmId := history + [score]];
      assert 1 <= score <= 5 && ScoresInRange(history) ==> ScoresInRange(history + [score]);
      r := Ok(View(films[i]));
    }

    /** `insert_film`: parse the release date, refuse a duplicate
        (name, release date), store the film with the column defaults, then
        link its genres and its directors. */
    method InsertFilm(userId: int, name: string, description: Option<string>, releaseDate: string,
                      poster: Option<string>, genreNames: Option<seq<string>>,
                      directorNames: Option<seq<string>>) returns (r: Result<FilmView>)
      requires Valid()
      modifies this, genres, directors
      ensures Valid()
      ensures ParseIso(releaseDate).None? ==> r == Err(WrongDateFormat)
      ensures ParseIso(releaseDate).Some? && Listed(old(films), name, ParseIso(releaseDate).value) ==>
                r == Err(FilmExists)
      ensures ParseIso(releaseDate).Some? && !Listed(old(films), name, ParseIso(releaseDate).value) ==>
                (PosterTaken(old(films), poster, -1) <==> r == Err(IntegrityError))
      ensures ParseIso(releaseDate).Some? && !Listed(old(films), name, ParseIso(releaseDate).value) ==>
                (!PosterTaken(old(films), poster, -1) ==> r.Ok?)
      ensures r.Err? ==> unchanged(this, genres, directors)
      ensures r.Ok? ==>
                var f := Film(old(nextFilmId), userId, name, description, DefaultRating, DefaultRatedUsers,
                              ParseIso(releaseDate).value, poster);
                && films == old(films) + [f] && nextFilmId == old(nextFilmId) + 1
                && votes == old(votes)[f.id := []]
                && (genres.Snapshot(), genres.nextId)
                   == LinkNames(old(genres.Snapshot()), old(genres.nextId), f.id, NamesGiven(genreNames))
                && (directors.Snapshot(), directors.nextId)
                   == LinkNames(old(directors.Snapshot()), old(directors.nextId), f.id, NamesGiven(directorNames))
                && r == Ok(View(f))
      ensures r.Ok? ==> UserCreator(old(nextFilmId)) == Ok(userId)
      ensures old(VotesInRange()) ==> VotesInRange()
    {
      var date := ParseIso(releaseDate);
      if date.None? {
        return Err(WrongDateFormat);
      }
      if Listed(films, name, date.value) {
        return Err(FilmExists);
      }
      if PosterTaken(films, poster, -1) {
        return Err(IntegrityError);
      }
      var f := Film(nextFilmId, userId, name, description, DefaultRating, DefaultRatedUsers, date.value, poster);
      StoreFilm(f, NamesGiven(genreNames), NamesGiven(directorNames));
      r := Ok(View(f));
    }

    /** `insert_into_db` of a new film row under the next key, then the
        genre and the director links. */
    method StoreFilm(f: Film, genreNames: seq<string>, directorNames: seq<string>)
      requires Valid() && f.id == nextFilmId && !PosterTaken(films, f.poster, -1)
      requires f.rating == DefaultRating && f.ratedUsers == DefaultRatedUsers
      modifies this, genres, directors
      ensures Valid()
      ensures films == old(films) + [f] && nextFilmId == old(nextFilmId) + 1
      ensures votes == old(votes)[f.id := []]
      ensures (genres.Snapshot(), genres.nextId)
              == LinkNames(old(genres.Snapshot()), old(genres.nextId), f.id, genreNames)
      ensures (directors.Snapshot(), directors.nextId)
              == LinkNames(old(directors.Snapshot()), old(directors.nextId), f.id, directorNames)
      ensures UserCreator(f.id) == Ok(f.creator)
      ensures old(VotesInRange()) ==> VotesInRange()
    {
      AppendFilmKeepsStore(Snapshot(), f);
      AppendKeepsVotes(films, votes, f);
      AppendedFilmFound(films, f);
      films := films + [f];
      nextFilmId := nextFilmId + 1;
      votes := votes[f.id := []];
      LinkNamesToFilm(genres.Snapshot(), genres.nextId, f.id, genreNames, films);
      genres.Attach(f.id, genreNames);
      LinkNamesToFilm(directors.Snapshot(), directors.nextId, f.id, directorNames, films);
      directors.Attach(f.id, directorNames);
    }

    /** `edit_film`: overwrite the fields given a non-empty value, then link
        any directors and genres given; existing links stay. */
    method EditFilm(filmId: int, name: Option<string>, description: Option<string>, release: Option<Date>,
                    poster: Option<string>, directorNames: Option<seq<string>>,
                    genreNames: Option<seq<string>>) returns (r: Result<FilmView>)
      requires Valid()
      modifies this, genres, directors
      ensures Valid()
      ensures FilmIndex(old(films), filmId).None? ==> r == Err(FilmNotFound)
      ensures FilmIndex(old(films), filmId).Some? ==>
                var i := FilmIndex(old(films), filmId).value;
                var f := Edited(old(films)[i], name, description, release, poster);
                && (PosterTaken(old(films), f.poster, i) ==> r == Err(IntegrityError))
                && (!PosterTaken(old(films), f.poster, i) ==>
                      && films == old(films)[i := f]
                      && nextFilmId == old(nextFilmId) && votes == old(votes)
                      && (directors.Snapshot(), directors.nextId)
                         == LinkNames(old(directors.Snapshot()), old(directors.nextId), filmId, NamesGiven(directorNames))
                      && (genres.Snapshot(), genres.nextId)
                         == LinkNames(old(genres.Snapshot()), old(genres.nextId), filmId, NamesGiven(genreNames))
                      && r == Ok(View(f)))
      ensures r.Err? ==> unchanged(this, genres, directors)
      ensures r.Ok? ==> UserCreator(filmId) == old(UserCreator(filmId))
    {
      var found := FilmIndex(films, filmId);
      if found.None? {
        return Err(FilmNotFound);
      }
      var i := found.value;
      var f := Edited(films[i], name, description, release, poster);
      if PosterTaken(films, f.poster, i) {
        return Err(IntegrityError);
      }
      ReplaceFilmKeepsStore(Snapshot(), i, f);
      ReplaceKeepsVotes(films, votes, i, f);
      ReplacedFilmFound(films, i, f);
      films := films[i := f];
      LinkNamesToFilm(directors.Snapshot(), directors.nextId, filmId, NamesGiven(directorNames), films);
      directors.Attach(filmId, NamesGiven(directorNames));
      LinkNamesToFilm(genres.Snapshot(), genres.nextId, filmId, NamesGiven(genreNames), films);
      genres.Attach(filmId, NamesGiven(genreNames));
      r := Ok(View(f));
    }

    /** `delete_film`: remove the film and, by cascade, its links. */
    method DeleteFilm(filmId: int) returns (r: Result<()>)
      requires Valid()
      modifies this, genres, directors
      ensures Valid()
      ensures FilmIndex(old(films), filmId).None? ==>
                r == Err(FilmNotFound) && unchanged(this, genres, directors)
      ensures FilmIndex(old(films), filmId).Some? ==>
                var i := FilmIndex(old(films), filmId).value;
                && r == Ok(())
                && films == old(films)[..i] + old(films)[i + 1..]
                && nextFilmId == old(nextFilmId) && votes == old(votes) - {filmId}
                && genres.Snapshot() == DropFilm(old(genres.Snapshot()), filmId)
                && directors.Snapshot() == DropFilm(old(directors.Snapshot()), filmId)
      ensures UserCreator(filmId) == Err(FilmNotFound)
    {
      var found := FilmIndex(films, filmId);
      if found.None? {
        return Err(FilmNotFound);
      }
      var i := found.value;
      RemoveFilmKeepsStore(Snapshot(), i);
      RemoveKeepsVotes(films, votes, i, nextFilmId);
      RemovedFilmGone(films, i);
      films := films[..i] + films[i + 1..];
      votes := votes - {filmId};
      genres.DetachFilm(filmId);
      directors.DetachFilm(filmId);
      r := Ok(());
    }

    /** `delete_director`: remove the director and, by cascade, its links;
        every film stays. */
    method DeleteDirector(name: string) returns (r: Result<()>)
      requires Valid()
      modifies directors
      ensures Valid()
      ensures NameIndex(old(directors.rows), name).None? ==>
                r == Err(DirectorNotFound) && unchanged(directors)
      ensures NameIndex(old(directors.rows), name).Some? ==>
                && r == Ok(())
                && directors.Snapshot()
                   == DropRow(old(directors.Snapshot()), NameIndex(old(directors.rows), name).value)
                && directors.nextId == old(directors.nextId)
      ensures NameIndex(directors.rows, name).None?
    {
      ghost var i := NameIndex(directors.rows, name);
      if i.Some? {
        RemovedRowGone(directors.Snapshot(), i.value);
      }
      var removed := directors.RemoveNamed(name);
      r := if removed then Ok(()) else Err(DirectorNotFound);
    }
  }
}
