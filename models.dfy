/** The tables of the catalogue database and the constraints the schema puts
    on them. Each table is the sequence of its rows in primary-key order; the
    two association tables (film-director, film-genre) are sets of
    (film id, director or genre id) pairs, because their primary key is the
    pair itself. */
module Models {
  import opened Common
  import opened Dates
  import opened Passwords

  /** A row of `users`. */
  datatype User = User(
    id: int,
    nickname: string,
    hashAndSalt: Digest,
    email: string,
    firstName: Option<string>,
    surname: Option<string>,
    age: Option<int>,
    admin: bool)

  /** A row of `films`; `creator` is `user_id_added_film`. */
  datatype Film = Film(
    id: int,
    creator: int,
    name: string,
    description: Option<string>,
    rating: real,
    ratedUsers: int,
    release: Date,
    poster: Option<string>)

  /** A row of `directors` or of `genres`: the two tables have one shape. */
  datatype Named = Named(id: int, name: string)

  /** A name table together with its association table. */
  datatype Tags = Tags(rows: seq<Named>, links: set<(int, int)>)

  /** The film side of the database. */
  datatype Store = Store(films: seq<Film>, genres: Tags, directors: Tags)

  /** Column defaults of `films.rating`, `films.number_of_rated_users` and
      `users.admin`. */
  const DefaultRating: real := 0.0
  const DefaultRatedUsers: int := 0
  const DefaultAdmin: bool := false

  // ----- lookups -----

  /** `Films.query.filter_by(film_id=id).first()`. */
  function FilmIndex(films: seq<Film>, id: int): (r: Option<nat>)
    ensures r.Some? ==> r.value < |films| && films[r.value].id == id
    ensures r.None? ==> forall j :: 0 <= j < |films| ==> films[j].id != id
  {
    FindFirst(films, (f: Film) => f.id == id)
  }

  /** The row of a name table with primary key `id`. */
  function RowIndex(rows: seq<Named>, id: int): (r: Option<nat>)
    ensures r.Some? ==> r.value < |rows| && rows[r.value].id == id
    ensures r.None? ==> forall j :: 0 <= j < |rows| ==> rows[j].id != id
  {
    FindFirst(rows, (n: Named) => n.id == id)
  }

  /** `Directors.query.filter_by(director_name=name).first()` and its genre
      twin. */
  function NameIndex(rows: seq<Named>, name: string): (r: Option<nat>)
    ensures r.Some? ==> r.value < |rows| && rows[r.value].name == name
    ensures r.Some? ==> forall j :: 0 <= j < r.value ==> rows[j].name != name
    ensures r.None? ==> forall j :: 0 <= j < |rows| ==> rows[j].name != name
  {
    FindFirst(rows, (n: Named) => n.name == name)
  }

  // ----- schema constraints -----

  /** Primary keys are positive and rows come in key order. */
  ghost predicate FilmKeysAscending(films: seq<Film>) {
    (forall i :: 0 <= i < |films| ==> films[i].id >= 1)
    && forall i, j :: 0 <= i < j < |films| ==> films[i].id < films[j].id
  }

  ghost predicate RowKeysAscending(rows: seq<Named>) {
    (forall i :: 0 <= i < |rows| ==> rows[i].id >= 1)
    && forall i, j :: 0 <= i < j < |rows| ==> rows[i].id < rows[j].id
  }

  /** `poster_link` is a unique column; NULLs do not collide. */
  ghost predicate PostersUnique(films: seq<Film>) {
    forall i, j :: 0 <= i < j < |films| && films[i].poster.Some? ==> films[i].poster != films[j].poster
  }

  /** The schema does not make names unique; get-or-create keeps them so. */
  ghost predicate NamesUnique(rows: seq<Named>) {
    forall i, j :: 0 <= i < j < |rows| ==> rows[i].name != rows[j].name
  }

  /** A name table whose association rows all point at one of its rows. */
  ghost predicate WellFormedTags(t: Tags) {
    RowKeysAscending(t.rows) && NamesUnique(t.rows)
    && forall l :: l in t.links ==> RowIndex(t.rows, l.1).Some?
  }

  /** Association rows point at a stored film. */
  ghost predicate LinksToFilms(t: Tags, films: seq<Film>) {
    forall l :: l in t.links ==> FilmIndex(films, l.0).Some?
  }

  /** Every constraint of the schema, plus the uniqueness of genre and
      director names that the insertion code maintains. */
  ghost predicate WellFormed(s: Store) {
    FilmKeysAscending(s.films) && PostersUnique(s.films)
    && WellFormedTags(s.genres) && WellFormedTags(s.directors)
    && LinksToFilms(s.genres, s.films) && LinksToFilms(s.directors, s.films)
  }
}
