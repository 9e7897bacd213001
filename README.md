# Film library catalogue — a Dafny model

This project models the database layer and request checks of a small film
library web service. The service is built on Flask and SQLAlchemy. Users
register and log in. A logged-in user adds films with genres and directors;
the film's creator or an admin edits or deletes it. Anyone rates films on a
1–5 scale and searches the catalogue. Admins delete directors.

What is modelled:

- **Tables** (`models.dfy`). Each table is its sequence of rows in key
  order. The two association tables (film–genre, film–director) are sets of
  key pairs. The schema's constraints are predicates:
  - ascending positive keys;
  - a unique `poster_link`;
  - association rows that point at stored rows.
- **Film operations** (`db_film.py`):
  - value-level definitions in `tables.dfy`;
  - two classes updated in place in `catalog.dfy`. `TagTable` is a name
    table with its association table. `Catalog` holds the film table and
    the two tag tables.

  Every method is proved against the value-level definition. It keeps
  `Valid()`: the schema's constraints, plus a ghost history of accepted
  scores that the `rating` and `number_of_rated_users` columns summarise.
- **Search** (`search.dfy`). `search_films` is a pure function with these
  steps:
  1. the case-insensitive name mask;
  2. the inclusive release range, with its defaults;
  3. the genre and director filters, where no list means every name;
  4. descending sort on rating or release date;
  5. pagination;
  6. the result record `convert_to_dict` builds.
- **Users** (`userdb.dfy`, `passwords.dfy`):
  - registration with unique nickname and e-mail;
  - the password check at login, over a stand-in for bcrypt that keeps
    bcrypt's 72-byte key.
- **Rating arithmetic** (`rating.dfy`): the running mean, and the proof that
  it is the plain mean of all accepted scores.
- **Request handlers** (`routes.dfy`). Each handler is the guard the route
  applies, followed by one store operation:
  - score range on rating;
  - password and nickname length on registration;
  - creator-or-admin on edit and delete;
  - admin-only on director deletion;
  - login, via a `session: Option<User>` parameter.

Every failure is a `Failure` value; `Status()` gives the HTTP code the code
aborts with:

- a duplicate film, a bad date, a short password or nickname, and a foreign
  film all give 404;
- a bad score, a non-admin deleting a director and a missing search mask
  give 400;
- a unique-column violation, a single-date release range and a string
  stored in a `Date` column give 500.

Behaviours of the code that the model reproduces, or had to decide:

- **Link insertion.** `insert_film_genres` and `insert_film_directors` append
  to `relation_film_genre` and `relation_film_director`
  (film_library/db_film.py:102, 119). Those backrefs exist only in
  commented-out code (film_library/models.py:58-64). The live backrefs are
  `add_film_genre` and `add_film_director` (film_library/models.py:76-79,
  91-94). As written, the first `append` therefore raises AttributeError,
  and an insert or edit with any genre or director names ends in a 500.
  By then `insert_into_db` has already committed the new film row
  (film_library/db_film.py:253) and, when the first name was new, its name
  row (film_library/db_film.py:98-99, 115-116); an edit's pending column
  changes are committed along with that name row. The insert route always
  passes director names, so every insert ends this way. The model does
  not reproduce these failures: it links the film to each named row, which
  is what the loop is evidently for.
- **Edited release date.** `edit_film` stores the raw release-date string
  without converting it (film_library/db_film.py:281-282) in a `Date`
  column (film_library/models.py:55) of an SQLite database
  (film_library/__init__.py:17). SQLite's `Date` type accepts only date
  objects, so as written any edit that gives a release date fails with a
  500 when the row is flushed, and nothing is committed.
  `Routes.StoredRelease` models that; see "## Findings". The model's edit
  route uses `Routes.EditedRelease` instead, which parses the date the way
  insertion does: a bad date gives `WrongDateFormat`, and an empty one
  leaves the date unchanged.
- **Name uniqueness.** Genre and director names are not unique in the schema
  (film_library/models.py:74, 89). They stay unique only because every
  insertion is a get-or-create (film_library/db_film.py:97, 114).
  `NamesUnique` is part of the invariant, and `DeleteDirector` removes the
  first, and only, row with the name.
- **Duplicate films after an edit.** Insertion refuses a film whose name and
  release date are both already stored. Editing does not check this, so two
  films can end up with the same pair. The invariant therefore does not
  include it.
- **Score range.** The rating route documents the score range as [0, 5] but
  checks [1, 5] (film_library/routes.py:283, 292). The model follows the
  check. `Routes.RateRoute` proves that a rated film's rating stays in
  [1, 5].
- **Single-date release range.** A `release_range` with one date parses that
  date and then fails on the missing second one. This surfaces as an
  IndexError (500).
- **Default filters.** With no genre or director list, a film still needs at
  least one genre link and one director link to be found.
  `FilmSearch.UnlinkedFilmNeverFound` states this.

## Model

| member | source | states |
|---|---|---|
| Dates.NotAfterIsTotalOrder | film_library/db_film.py:212 | the date order used by `between` is reflexive, total, antisymmetric and transitive |
| Dates.ParseIso | film_library/db_film.py:21-28 | a string is accepted only in the `YYYY-MM-DD` layout with a real calendar day; anything else is the error case |
| Dates.ParseFormatIso | film_library/db_film.py:26 | every date printed in ISO form parses back to itself |
| Dates.FormatParseIso | film_library/db_film.py:26 | every accepted string is exactly the ISO form of its date, so distinct accepted strings are distinct dates |
| Dates.FormatDotted | film_library/db_film.py:331 | the display form is ten characters with `.` separators |
| Dates.DottedMatchesIso | film_library/db_film.py:331 | the display form and the ISO form agree on every digit |
| Passwords.Key | film_library/db_user.py:16 | a password of at most 72 characters is used whole; a longer one is cut to exactly its first 72 characters |
| Passwords.ChecksumInjective | film_library/db_user.py:23 | under one salt, equal checksums mean equal keys |
| Passwords.CheckPwOfHash | film_library/db_user.py:12-25 | a password checks against a hash made from another exactly when their 72-byte keys agree |
| Models.FilmIndex | film_library/db_film.py:37 | the lookup by film key finds a row with that key, or proves there is none |
| Models.NameIndex | film_library/db_film.py:97-100 | the lookup by name finds the first row with that name, or proves there is none |
| Rating.RunningMeanIsMean | film_library/db_film.py:39-43 | the incremental update keeps rating × raters equal to the sum of all scores |
| Rating.SumBounds | film_library/db_film.py:39 | scores in [1, 5] sum to between n and 5n |
| Rating.MeanInRange | film_library/db_film.py:42 | with every score in [1, 5], a rated film's rating lies in [1, 5] |
| Rating.RateStepExtends | film_library/db_film.py:42-43 | one update step gives the running mean of the history extended by the new score |
| Rating.FiveThenFour | film_library/db_film.py:42-43 | an unrated film scored 5 then 4 shows 5.0 then 4.5 |
| FilmSearch.Contains | film_library/db_film.py:206 | the substring scan is true exactly when the pattern occurs contiguously in the text |
| FilmSearch.EmptyMaskMatchesEveryName | film_library/db_film.py:206 | the empty mask matches every film name |
| FilmSearch.CheckNames | film_library/db_film.py:124-151 | a non-empty name list is kept; an omitted or empty one becomes exactly the names stored in the table |
| FilmSearch.DefaultNamesMeanAnyLink | film_library/db_film.py:200-211 | with the default name list, a film passes the join exactly when it has some association row |
| FilmSearch.Select | film_library/db_film.py:200-212 | a film is selected exactly when it is stored and matches mask, range, genres and directors |
| FilmSearch.AtLeastIsTotalPreorder | film_library/db_film.py:154-161 | both sort keys compare every pair of films and compose transitively |
| FilmSearch.SortDesc | film_library/db_film.py:222 | the sorted rows are a permutation of the input in descending key order |
| FilmSearch.Ordered | film_library/db_film.py:222 | the query order is a permutation of the selected rows, descending when a sort key is given |
| FilmSearch.Page | film_library/db_film.py:222 | a page holds at most the page size of rows, each the row at its offset page-size × (page − 1) onward, and is full unless it is the last |
| FilmSearch.RowOnItsPage | film_library/db_film.py:222 | row k is on page k div size + 1 at position k mod size |
| FilmSearch.ConvertReleaseRange | film_library/db_film.py:164-173 | no range is 1900-01-01 to today; otherwise a bad first date is a date error, a single date is an IndexError, a bad second date is a date error, and two valid dates give exactly those two dates |
| FilmSearch.CheckSorting | film_library/db_film.py:154-161 | "rating" selects the rating key, "release_date" the release-date key, and anything else, including no argument, no sorting |
| FilmSearch.LinkedNames | film_library/db_film.py:53-74 | the names listed for a film are exactly the names of the rows it is linked to |
| FilmSearch.ToView | film_library/db_film.py:328-349 | the record copies the film's columns, prints the date in display form and lists its linked names, or "unknown" when it has none |
| FilmSearch.SearchRows | film_library/db_film.py:176-222 | the search fails exactly on a bad release range or a page or page size below 1, and returns at most page-size rows |
| FilmSearch.SearchFilms | film_library/db_film.py:176-233 | the search fails exactly when the row query fails, with its failure; otherwise it returns one record per row of the page, in page order |
| FilmSearch.SearchRowsIsPage | film_library/db_film.py:222 | a successful search is one page of the matching rows in query order |
| FilmSearch.PageIsPartOfRows | film_library/db_film.py:222 | a page is a sub-multiset of the rows it pages through |
| FilmSearch.SearchRowsMatch | film_library/db_film.py:200-212 | every film on a result page is stored and meets every filter |
| FilmSearch.SearchRowsSorted | film_library/db_film.py:188 | with sorting by rating or by release date, a result page is in descending order of that key |
| FilmSearch.PageKeepsOrder | film_library/db_film.py:222 | a page of rows in descending order is itself in descending order |
| FilmSearch.SearchFindsEveryMatch | film_library/db_film.py:222 | every stored film that meets the filters appears on some page of the search |
| FilmSearch.UnlinkedFilmNeverFound | film_library/db_film.py:200-204 | a film without a genre link or without a director link is never found, whatever the filters |
| FilmSearch.FoundFilmsListTheirNames | film_library/db_film.py:224-231 | each found film's record lists its own genre and director names, never the "unknown" placeholder |
| Tables.LinkNameValid | film_library/db_film.py:94-102 | one get-or-create-and-link step keeps the name table well formed |
| Tables.LinkNameLinks | film_library/db_film.py:94-102 | one step of `LinkName` reuses the row named by the name, or appends one under the next key and advances it; the name then has a row and the only link added joins the film to it |
| Tables.Rated | film_library/db_film.py:39-43 | rating a film adds one rater, keeps every other column, and makes rating × raters grow by exactly the score |
| Tables.LinkNamesValid | film_library/db_film.py:90-104 | linking a list of names keeps the name table well formed |
| Tables.LinkNamesGrow | film_library/db_film.py:90-121 | `LinkNames`, the whole loop, keeps old rows, appends rows only for new names with consecutive fresh keys, gives every name a row and adds exactly the links from the film to those rows |
| Tables.LinkNamesTwice | film_library/db_film.py:94-102 | linking the same names to a film a second time changes nothing |
| Tables.LinkNamesFound | film_library/db_film.py:97 | names that already have rows and links add neither |
| Tables.LinkNamesToFilm | film_library/models.py:20-27 | links added for a stored film point at a stored film |
| Tables.DropFilm | film_library/models.py:12 | the cascade removes exactly the association rows of the deleted film and keeps every name row |
| Tables.DropRow | film_library/models.py:15 | deleting a name row keeps the other rows in order and removes exactly the association rows that point at it |
| Tables.DropRowKeepsTags | film_library/db_film.py:314-325 | deleting a name row keeps the name table well formed |
| Tables.Edited | film_library/db_film.py:277-284 | each of name, description, release and poster is overwritten when supplied and non-empty; key, creator and rating columns are kept |
| Tables.ReplaceFilmKeepsStore | film_library/db_film.py:268-290 | rewriting a film with its own key and a free poster keeps every schema constraint |
| Tables.AppendFilmKeepsStore | film_library/db_film.py:249-252 | appending a film with a fresh key and a free poster keeps every schema constraint |
| Tables.RemoveFilmKeepsStore | film_library/db_film.py:300-311 | removing a film together with its association rows keeps every schema constraint |
| Tables.RateKeepsVotes | film_library/db_film.py:37-45 | one rating step keeps every film's rating columns equal to the summary of its score history |
| Tables.AppendKeepsVotes | film_library/models.py:53-54 | a new film with the column defaults summarises an empty score history |
| Tables.ReplaceKeepsVotes | film_library/db_film.py:277-284 | an edit that keeps the rating columns keeps the score summaries |
| Tables.RemoveKeepsVotes | film_library/db_film.py:306 | removing a film and its history keeps the other summaries and the key bound |
| Tables.AppendedFilmFound | film_library/db_film.py:261 | the film just inserted is found by its key at the end of the table |
| Tables.ReplacedFilmFound | film_library/db_film.py:293 | an edited film is found by its key where it was |
| Tables.RemovedFilmGone | film_library/db_film.py:303-306 | after deletion the film's key finds nothing |
| Tables.RemovedRowGone | film_library/db_film.py:317-320 | after deletion the director's name finds nothing |
| FilmDb.TagTable.GetOrCreate | film_library/db_film.py:97-100 | a stored name returns its row's key and changes nothing; a new name gets a row with the next key |
| FilmDb.TagTable.LinkOne | film_library/db_film.py:94-102 | one loop turn in place equals the value-level get-or-create-and-link step |
| FilmDb.TagTable.Attach | film_library/db_film.py:90-121 | the in-place loop over the names equals linking the whole list at value level and keeps the table well formed |
| FilmDb.TagTable.DetachFilm | film_library/models.py:12 | the in-place cascade equals the value-level removal of the film's association rows |
| FilmDb.TagTable.RemoveNamed | film_library/db_film.py:317-320 | a row is removed exactly when the name is stored, and then as the value-level row deletion; otherwise nothing changes |
| FilmDb.Catalog.RatingsInRange | film_library/routes.py:292-294 | while every accepted score is in [1, 5], every rated film's rating is in [1, 5] |
| FilmDb.Catalog.UserCreator | film_library/db_film.py:11-18 | an unknown film is not-found; otherwise the result is the creator of the stored film with that key |
| FilmDb.Catalog.RateFilm | film_library/db_film.py:31-50 | an unknown film is not-found and changes nothing; otherwise the film gains one rater, its score is appended to its history and its record is returned |
| FilmDb.Catalog.InsertFilm | film_library/db_film.py:236-265 | a bad date, then a stored (name, date), then a taken poster are refused with nothing changed; otherwise the film is appended with the defaults, genres then directors are linked, and the caller is its creator |
| FilmDb.Catalog.StoreFilm | film_library/db_film.py:248-257 | the new film row is appended under the next key with an empty vote history, genres then directors are linked, the caller is found as its creator, and the store stays valid |
| FilmDb.Catalog.EditFilm | film_library/db_film.py:268-297 | an unknown film is not-found; a taken poster is refused with nothing changed; otherwise the row is rewritten, directors then genres are linked, and the creator is kept |
| FilmDb.Catalog.DeleteFilm | film_library/db_film.py:300-311 | an unknown film is not-found with nothing changed; otherwise the film, its history and its association rows are removed and its key finds nothing |
| FilmDb.Catalog.DeleteDirector | film_library/db_film.py:314-325 | an unknown name is not-found with nothing changed; otherwise the row and its association rows are removed; afterwards the name finds nothing |
| UserDb.NicknameIndex | film_library/db_user.py:31 | the lookup by nickname finds a user with it, or proves there is none |
| UserDb.EmailIndex | film_library/db_user.py:39 | the lookup by e-mail finds a user with it, or proves there is none |
| UserDb.CheckPass | film_library/db_user.py:19-25 | an unknown nickname is not-found; otherwise the user with that nickname comes back exactly when the password checks against the stored hash |
| UserDb.AppendUserKeepsValid | film_library/models.py:33-36 | a user whose nickname and e-mail are not stored, appended under the next key, keeps keys ascending and nickname and e-mail unique |
| UserDb.UserStore.CheckingPass | film_library/db_user.py:19-25 | on the store: an error exactly for an unknown nickname; otherwise the user with that nickname comes back exactly when the password checks against its hash |
| UserDb.LoginAfterRegister | film_library/db_user.py:57-60 | right after registration, a password with the same 72-byte key logs the user in and any other is refused |
| UserDb.UserStore.CheckingNickname | film_library/db_user.py:28-33 | true exactly when some user has the nickname |
| UserDb.UserStore.CheckingEmail | film_library/db_user.py:36-41 | true exactly when some user has the e-mail address |
| UserDb.UserStore.RegisterUser | film_library/db_user.py:44-68 | a taken nickname, then a taken e-mail, are refused with nothing changed; otherwise the user is appended with the next key and a hash of the password, keeps nicknames and e-mails unique, and can log in with that password |
| Routes.RateGuard | film_library/routes.py:292-293 | a score passes exactly when it is in [1, 5]; otherwise the answer is 400 |
| Routes.RegisterGuard | film_library/routes.py:111-114 | registration passes exactly when the password has at least 7 and the nickname at least 5 characters; the password is checked first; both refusals are 404 |
| Routes.ModifyGuard | film_library/routes.py:218-220 | an unknown film is not-found; otherwise the request passes exactly when the caller created the film or is an admin |
| Routes.DirectorGuard | film_library/routes.py:267-269 | director deletion passes exactly for admins; otherwise 400 |
| Routes.SearchArgs | film_library/routes.py:138-150 | a missing film mask is 400; an omitted page size is 10 and an omitted page number is 1; the mask, release range, name lists and sorting pass to the query unchanged |
| Routes.DefaultSearchIsFirstPage | film_library/routes.py:145-146 | a search with only a mask succeeds and returns the first page of at most ten matching films |
| Routes.LoginRoute | film_library/routes.py:65-69 | an unknown nickname and a wrong password are refused; otherwise the stored user with that nickname, whose password checks, is logged in |
| Routes.RegisterRoute | film_library/routes.py:98-119 | short credentials are refused with nothing changed; past the length checks, a taken nickname and then a taken e-mail are refused, otherwise exactly the new user (admin defaulting to false) is appended under the next key, which then advances by one; a registered user can log in through the login route |
| Routes.RateRoute | film_library/routes.py:280-295 | an out-of-range score and an unknown film are refused with nothing changed; otherwise exactly that film is rated, the score is appended to its history and its record returned; every rated film's rating stays in [1, 5]; the next film key is kept |
| Routes.InsertRoute | film_library/routes.py:159-188 | without a logged-in user nothing changes; otherwise a bad date, a stored (name, date) and a taken poster are refused with nothing changed, and a valid film is appended with the defaults, credited to the session's user under the next key, which then advances by one, with its genres and directors linked; the vote histories stay in [1, 5] |
| Routes.EditedRelease | film_library/db_film.py:281-282 | intended conversion of the edited release date: an omitted or empty one leaves the date alone; a given one must parse, and the stored date prints back as given |
| Routes.StoredRelease | film_library/db_film.py:281-282 | as written, an edit that gives a release date stores a string in the `Date` column and fails with a 500; an omitted or empty one stores nothing |
| Routes.StoredReleaseRefusesEveryDate | film_library/db_film.py:281-282 | every well-formed ISO date is refused as written and accepted, as that very date, by the intended conversion |
| Routes.EditRoute | film_library/routes.py:190-226 | login, then the creator-or-admin check, with refusals changing nothing; an allowed edit with a bad date is refused, one with a taken poster is an integrity error, otherwise exactly that film is replaced by its edited row, directors then genres are linked, votes and the creator are kept and the record returned; the next film key is kept |
| Routes.DeleteRoute | film_library/routes.py:228-248 | login, then the creator-or-admin check, with refusals changing nothing; an allowed delete succeeds, removes exactly that film, its vote history and its genre and director links, and the film is then unknown |
| Routes.DeleteDirectorRoute | film_library/routes.py:255-271 | login, then admin only, with refusals changing nothing; an admin deleting an unknown name gets not-found, an existing one is removed with its links; afterwards the name is not stored |

## Left out

- Flask, flask-restx request parsing, Swagger models, logging and the
  teardown hook are not modelled. Request arguments arrive already parsed,
  and an omitted one is `None`.
- The `type=bool` parsing of the registration `admin` argument, under which
  any non-empty string is true, is not modelled. `admin` arrives as an
  optional boolean.
- Sessions are not modelled: `login_user`, `logout_user`, the `/logout`
  route and the user loader. The logged-in user is a parameter, and a
  missing one is the `NotLoggedIn` (401) answer of `login_required`.
- Passwords.HashPw: a stand-in for bcrypt. It is injective on the 72-unit
  key under one salt and records its salt. It works on characters, not
  UTF-8 bytes. The salt from `gensalt()` is a parameter.
- Rollbacks and 500s are not modelled, except for the unique-poster
  violation, which is modelled as an atomic refusal that changes nothing,
  and the edited release date (`Routes.StoredRelease`). The AttributeError
  of link insertion, and the partial commits before it, are described
  above under "Link insertion".
  Also left out: SQLAlchemy sessions, autoflush and partial commits.
- Floating point is not modelled: ratings are exact reals, not IEEE doubles.
- SQL `LIKE` wildcards (`%`, `_`) inside the search mask are not modelled:
  the mask matches as a plain substring. Case folding covers ASCII letters
  only.
- FilmSearch.SearchRows: `paginate` aborting with 404 on a page past the end
  is not modelled; such a page is empty here.
- The duplicate rows the genre/director join yields for a film with several
  matching links are not modelled: each film is selected once.
- The tie order of equal sort keys is not modelled; only descending order
  and permutation are stated.
- `strptime` leniency (one-digit months and days, surrounding forms) is not
  modelled: dates must be exactly `YYYY-MM-DD`. `strftime` year padding below
  1000 follows four-digit padding.
- `date.today()` is a parameter.
- Concurrency is not modelled. film_library/db.py, an earlier revision of
  the database functions that nothing imports, and the seeding script
  tests/data_for_tests.py are not part of this model.
- Key reuse after deletion is not modelled: keys come from a counter that
  never decreases.
- SQLite enforcing the `ON DELETE CASCADE` of the association tables only
  with foreign keys switched on is not modelled; the cascade is modelled as
  always happening.
- FilmDb.Catalog.EditFilm: it takes the release date already parsed, through
  `Routes.EditedRelease`, instead of storing the raw string as the code
  does; the code's behaviour, a 500, is `Routes.StoredRelease` (see
  "## Findings").
- FilmDb.TagTable.Attach: linking a name that is already linked to the film
  adds nothing. The database would refuse such a duplicate association row;
  the model treats it as a no-op.
- Routes.InsertRoute: missing required arguments other than the search
  mask (film name, release date, director names, nickname, password, e-mail,
  film key) are not modelled; each parameter is always present.

## Findings

| source | as written | input that shows it | evidently intended | confidence | as-written member | corrected member |
|---|---|---|---|---|---|---|
| film_library/db_film.py:281-282 | `edit_film` assigns the release-date string itself to the `Date` column; SQLite's `Date` type refuses non-date values at flush time, so the request ends in a 500 with nothing committed | an edit with `release_date` "2003-12-11" (tests/tests.py:87), which the test expects to answer 201 | parse the string with `convert_str_to_date` as `insert_film` does and store the date | high, not executed | Routes.StoredRelease, Routes.StoredReleaseRefusesEveryDate | Routes.EditedRelease, Routes.EditRoute |
