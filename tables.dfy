/** The row-level operations of `db_film.py` on table values, and the facts
    that each of them keeps the schema's constraints. The `FilmDb` classes
    perform these operations in place and are proved against them. */
module Tables {
  import opened Common
  import opened Dates
  import opened Models
  import opened Rating

  // ----- name tables -----

  /** A well-formed name table whose keys are all below the next key. */
  ghost predicate TagsValid(t: Tags, nextId: int) {
    WellFormedTags(t) && nextId >= 1 && forall i :: 0 <= i < |t.rows| ==> t.rows[i].id < nextId
  }

  /** The association rows that link film `filmId` to the rows of `rows`
      named in `names`. */
  ghost function LinksTo(filmId: int, rows: seq<Named>, names: seq<string>): set<(int, int)> {
    set r | r in rows && r.name in names :: (filmId, r.id)
  }

  /** One turn of the loop in `insert_film_genres` / `insert_film_directors`:
      find the row named `name`, or create it with the next key, and link the
      film to it. Returns the new table and the new next key. */
  function LinkName(t: Tags, nextId: int, filmId: int, name: string): (Tags, int) {
    match NameIndex(t.rows, name)
    case Some(k) => (Tags(t.rows, t.links + {(filmId, t.rows[k].id)}), nextId)
    case None => (Tags(t.rows + [Named(nextId, name)], t.links + {(filmId, nextId)}), nextId + 1)
  }

  /** One step reuses the row already named `name`, or appends one under the
      next key and advances it; either way the name then has a row, and the
      only link added joins the film to that row. */
  lemma LinkNameLinks(t: Tags, nextId: int, filmId: int, name: string)
    ensures var r := LinkName(t, nextId, filmId, name);
            && (NameIndex(t.rows, name).Some? ==> r.0.rows == t.rows && r.1 == nextId)
            && (NameIndex(t.rows, name).None? ==> r.0.rows == t.rows + [Named(nextId, name)] && r.1 == nextId + 1)
            && NameIndex(r.0.rows, name).Some?
            && r.0.links == t.links + {(filmId, r.0.rows[NameIndex(r.0.rows, name).value].id)}
  {
    if NameIndex(t.rows, name).None? {
      var rows := t.rows + [Named(nextId, name)];
      assert forall j :: 0 <= j < |t.rows| ==> rows[j] == t.rows[j];
      assert rows[|t.rows|].name == name;
      assert NameIndex(rows, name) == Some(|t.rows|);
    }
  }

  /** The whole loop: `LinkName` for each name in turn. */
  function LinkNames(t: Tags, nextId: int, filmId: int, names: seq<string>): (Tags, int)
    decreases |names|
  {
    if names == [] then (t, nextId)
    else
      var prev := LinkNames(t, nextId, filmId, names[..|names| - 1]);
      LinkName(prev.0, prev.1, filmId, names[|names| - 1])
  }

  /** What linking `names` to film `filmId` did to table `t`: old rows stay
      in place, each appended row carries one of the names and the next
      unused key, every name has a row, and exactly the links from the film
      to the rows carrying those names were added. */
  ghost predicate Grown(t: Tags, nextId: int, u: Tags, next: int, filmId: int, names: seq<string>) {
    RowsGrown(t.rows, nextId, u.rows, next, names) && AllNamed(u.rows, names)
    && u.links == t.links + LinksTo(filmId, u.rows, names)
  }

  ghost predicate RowsGrown(rows: seq<Named>, nextId: int, longer: seq<Named>, next: int, names: seq<string>) {
    && rows <= longer
    && next == nextId + (|longer| - |rows|)
    && forall k :: |rows| <= k < |longer| ==> longer[k].name in names && longer[k].id == nextId + (k - |rows|)
  }

  ghost predicate AllNamed(rows: seq<Named>, names: seq<string>) {
    forall n :: n in names ==> NameIndex(rows, n).Some?
  }

  lemma NameIndexOfLonger(a: seq<Named>, b: seq<Named>, n: string)
    requires NameIndex(a, n).Some?
    ensures NameIndex(a + b, n).Some?
  {
    assert (a + b)[NameIndex(a, n).value] == a[NameIndex(a, n).value];
  }

  lemma AppendRowKeepsTags(t: Tags, nextId: int, name: string)
    requires TagsValid(t, nextId) && NameIndex(t.rows, name).None?
    ensures TagsValid(Tags(t.rows + [Named(nextId, name)], t.links), nextId + 1)
  {
    var rows := t.rows + [Named(nextId, name)];
    forall l | l in t.links
      ensures RowIndex(rows, l.1).Some?
    {
      assert rows[RowIndex(t.rows, l.1).value].id == l.1;
    }
  }

  lemma AddLinkKeepsTags(t: Tags, nextId: int, k: nat, filmId: int)
    requires TagsValid(t, nextId) && k < |t.rows|
    ensures TagsValid(Tags(t.rows, t.links + {(filmId, t.rows[k].id)}), nextId)
  {
    assert RowIndex(t.rows, t.rows[k].id).Some?;
  }

  /** Linking one more name, when `rows` has its row with key `id`, adds
      exactly the link to that row. */
  lemma LinksToOneMore(filmId: int, rows: seq<Named>, names: seq<string>, n: string, k: nat)
    requires NamesUnique(rows) && k < |rows| && rows[k].name == n
    ensures LinksTo(filmId, rows, names + [n]) == LinksTo(filmId, rows, names) + {(filmId, rows[k].id)}
  {
    forall l | l in LinksTo(filmId, rows, names + [n])
      ensures l in LinksTo(filmId, rows, names) + {(filmId, rows[k].id)}
    {
      var r :| r in rows && r.name in names + [n] && l == (filmId, r.id);
      if r.name !in names {
        var i :| 0 <= i < |rows| && rows[i] == r;
        assert i == k;
      }
    }
    assert rows[k] in rows;
  }

  /** A row for a name that `names` does not mention adds no link. */
  lemma LinksToNewRow(filmId: int, rows: seq<Named>, names: seq<string>, row: Named)
    requires row.name !in names
    ensures LinksTo(filmId, rows + [row], names) == LinksTo(filmId, rows, names)
  {
    forall l | l in LinksTo(filmId, rows + [row], names)
      ensures l in LinksTo(filmId, rows, names)
    {
      var r :| r in rows + [row] && r.name in names && l == (filmId, r.id);
      assert r in rows;
    }
  }

  /** A get-or-create that left the rows `rows` and the next key `next`
      and answered `id`, followed by linking the film to `id`, is one
      `LinkName` step. */
  lemma GotOrCreated(t: Tags, nextId: int, filmId: int, name: string, rows: seq<Named>, next: int, id: int)
    requires NameIndex(t.rows, name).Some? ==>
               rows == t.rows && next == nextId && id == t.rows[NameIndex(t.rows, name).value].id
    requires NameIndex(t.rows, name).None? ==>
               rows == t.rows + [Named(nextId, name)] && next == nextId + 1 && id == nextId
    ensures (Tags(rows, t.links + {(filmId, id)}), next) == LinkName(t, nextId, filmId, name)
  {
  }

  /** One step keeps the table well formed. */
  lemma LinkNameValid(u: Tags, m: int, filmId: int, x: string)
    requires TagsValid(u, m)
    ensures TagsValid(LinkName(u, m, filmId, x).0, LinkName(u, m, filmId, x).1)
  {
    match NameIndex(u.rows, x)
    case Some(k) =>
      AddLinkKeepsTags(u, m, k, filmId);
    case None =>
      var w := Tags(u.rows + [Named(m, x)], u.links);
      AppendRowKeepsTags(u, m, x);
      AddLinkKeepsTags(w, m + 1, |u.rows|, filmId);
  }

  /** The step for a name that already has a row. */
  lemma LinkFoundName(t: Tags, nextId: int, u: Tags, m: int, filmId: int, names: seq<string>, x: string)
    requires TagsValid(u, m) && Grown(t, nextId, u, m, filmId, names) && NameIndex(u.rows, x).Some?
    ensures Grown(t, nextId, LinkName(u, m, filmId, x).0, LinkName(u, m, filmId, x).1, filmId, names + [x])
  {
    var k := NameIndex(u.rows, x).value;
    LinksToOneMore(filmId, u.rows, names, x, k);
  }

  lemma AppendNameKeepsUnique(rows: seq<Named>, row: Named)
    requires NamesUnique(rows) && NameIndex(rows, row.name).None?
    ensures NamesUnique(rows + [row])
  {
  }

  /** The step for a name that has no row yet. */
  lemma LinkNewName(t: Tags, nextId: int, u: Tags, m: int, filmId: int, names: seq<string>, x: string)
    requires TagsValid(u, m) && Grown(t, nextId, u, m, filmId, names) && NameIndex(u.rows, x).None?
    ensures Grown(t, nextId, LinkName(u, m, filmId, x).0, LinkName(u, m, filmId, x).1, filmId, names + [x])
  {
    var row := Named(m, x);
    var w := Tags(u.rows + [row], u.links);
    assert LinkName(u, m, filmId, x) == (Tags(w.rows, w.links + {(filmId, m)}), m + 1);
    NewRowGrows(t.rows, nextId, u.rows, m, names, x);
    assert x !in names;
    AppendNameKeepsUnique(u.rows, row);
    LinksToNewRow(filmId, u.rows, names, row);
    LinksToOneMore(filmId, w.rows, names, x, |u.rows|);
  }

  lemma NewRowGrows(rows: seq<Named>, nextId: int, longer: seq<Named>, m: int, names: seq<string>, x: string)
    requires RowsGrown(rows, nextId, longer, m, names) && AllNamed(longer, names)
    ensures RowsGrown(rows, nextId, longer + [Named(m, x)], m + 1, names + [x])
    ensures AllNamed(longer + [Named(m, x)], names + [x])
  {
    var w := longer + [Named(m, x)];
    forall n | n in names + [x]
      ensures NameIndex(w, n).Some?
    {
      if n in names {
        NameIndexOfLonger(longer, [Named(m, x)], n);
      } else {
        assert w[|longer|].name == n;
      }
    }
    assert rows <= w;
  }

  /** Linking a list of names keeps the table well formed. */
  lemma {:induction false} LinkNamesValid(t: Tags, nextId: int, filmId: int, names: seq<string>)
    requires TagsValid(t, nextId)
    ensures TagsValid(LinkNames(t, nextId, filmId, names).0, LinkNames(t, nextId, filmId, names).1)
    decreases |names|
  {
    if names != [] {
      var init := names[..|names| - 1];
      LinkNamesValid(t, nextId, filmId, init);
      var prev := LinkNames(t, nextId, filmId, init);
      LinkNameValid(prev.0, prev.1, filmId, names[|names| - 1]);
    }
  }

  /** Linking a list of names grows the table as `Grown` says. */
  lemma {:induction false} LinkNamesGrow(t: Tags, nextId: int, filmId: int, names: seq<string>)
    requires TagsValid(t, nextId)
    ensures Grown(t, nextId, LinkNames(t, nextId, filmId, names).0, LinkNames(t, nextId, filmId, names).1,
                  filmId, names)
    decreases |names|
  {
    if names == [] {
      assert LinksTo(filmId, t.rows, names) == {};
    } else {
      var init := names[..|names| - 1];
      var x := names[|names| - 1];
      var r := LinkNames(t, nextId, filmId, init + [x]);
      assert Grown(t, nextId, r.0, r.1, filmId, init + [x]) by {
        LinkNamesGrow(t, nextId, filmId, init);
        LinkNamesValid(t, nextId, filmId, init);
        LinkLastName(t, nextId, filmId, init, x);
      }
      assert init + [x] == names;
    }
  }

  /** The induction step of `LinkNamesGrow`. */
  lemma LinkLastName(t: Tags, nextId: int, filmId: int, init: seq<string>, x: string)
    requires var prev := LinkNames(t, nextId, filmId, init);
             TagsValid(prev.0, prev.1) && Grown(t, nextId, prev.0, prev.1, filmId, init)
    ensures var r := LinkNames(t, nextId, filmId, init + [x]);
            Grown(t, nextId, r.0, r.1, filmId, init + [x])
  {
    var prev := LinkNames(t, nextId, filmId, init);
    assert (init + [x])[..|init|] == init;
    if NameIndex(prev.0.rows, x).Some? {
      LinkFoundName(t, nextId, prev.0, prev.1, filmId, init, x);
    } else {
      LinkNewName(t, nextId, prev.0, prev.1, filmId, init, x);
    }
  }

  /** Linking names twice is linking them once: a second pass finds every
      row and adds nothing. */
  lemma {:induction false} LinkNamesTwice(t: Tags, nextId: int, filmId: int, names: seq<string>)
    requires TagsValid(t, nextId)
    ensures var once := LinkNames(t, nextId, filmId, names);
            LinkNames(once.0, once.1, filmId, names) == once
    decreases |names|
  {
    var once := LinkNames(t, nextId, filmId, names);
    LinkNamesValid(t, nextId, filmId, names);
    LinkNamesGrow(t, nextId, filmId, names);
    LinkNamesFound(once.0, once.1, filmId, names, names);
  }

  /** Linking names that all have rows, and are all linked to the film
      already, changes nothing. */
  lemma {:induction false} LinkNamesFound(t: Tags, nextId: int, filmId: int, names: seq<string>, all: seq<string>)
    requires TagsValid(t, nextId)
    requires forall n :: n in all ==> NameIndex(t.rows, n).Some?
    requires LinksTo(filmId, t.rows, all) <= t.links
    requires forall n :: n in names ==> n in all
    ensures LinkNames(t, nextId, filmId, names) == (t, nextId)
    decreases |names|
  {
    if names != [] {
      var init := names[..|names| - 1];
      var x := names[|names| - 1];
      assert x in names;
      assert forall n :: n in init ==> n in names;
      LinkNamesFound(t, nextId, filmId, init, all);
      var k := NameIndex(t.rows, x).value;
      assert t.rows[k] in t.rows;
      assert (filmId, t.rows[k].id) in t.links;
      assert LinkName(t, nextId, filmId, x) == (Tags(t.rows, t.links + {(filmId, t.rows[k].id)}), nextId);
      assert t.links + {(filmId, t.rows[k].id)} == t.links;
    }
  }

  /** Every link `LinkNames` adds starts at the film it was given. */
  lemma LinkNamesToFilm(t: Tags, nextId: int, filmId: int, names: seq<string>, films: seq<Film>)
    requires TagsValid(t, nextId) && LinksToFilms(t, films) && FilmIndex(films, filmId).Some?
    ensures LinksToFilms(LinkNames(t, nextId, filmId, names).0, films)
  {
    LinkNamesGrow(t, nextId, filmId, names);
  }

  /** The association table after the film `filmId` is deleted. */
  function DropFilm(t: Tags, filmId: int): (u: Tags)
    ensures u.rows == t.rows
    ensures forall l :: l in u.links <==> l in t.links && l.0 != filmId
  {
    Tags(t.rows, set l | l in t.links && l.0 != filmId)
  }

  /** The name table after its row at `i` is deleted, with that row's links. */
  function DropRow(t: Tags, i: nat): (u: Tags)
    requires i < |t.rows|
    ensures |u.rows| == |t.rows| - 1
    ensures forall k :: 0 <= k < |u.rows| ==> u.rows[k] == t.rows[if k < i then k else k + 1]
    ensures forall l :: l in u.links <==> l in t.links && l.1 != t.rows[i].id
  {
    Tags(t.rows[..i] + t.rows[i + 1..], set l | l in t.links && l.1 != t.rows[i].id)
  }

  lemma DropRowKeepsTags(t: Tags, nextId: int, i: nat)
    requires TagsValid(t, nextId) && i < |t.rows|
    ensures TagsValid(DropRow(t, i), nextId)
  {
    var u := DropRow(t, i);
    forall l | l in u.links
      ensures RowIndex(u.rows, l.1).Some?
    {
      var k := RowIndex(t.rows, l.1).value;
      assert k != i;
      assert u.rows[if k < i then k else k - 1] == t.rows[k];
    }
  }

  // ----- the film table -----

  /** Python truthiness of an optional string argument. */
  predicate Given(s: Option<string>) {
    s.Some? && s.value != ""
  }

  /** An optional list of names, with an omitted list as no names. */
  function NamesGiven(names: Option<seq<string>>): seq<string> {
    if names.Some? then names.value else []
  }

  /** Some film other than the one at `except` already has this poster. */
  predicate PosterTaken(films: seq<Film>, poster: Option<string>, except: int) {
    poster.Some? && exists j :: 0 <= j < |films| && j != except && films[j].poster == poster
  }

  /** A stored film has this name and release date. */
  predicate Listed(films: seq<Film>, name: string, release: Date) {
    exists j :: 0 <= j < |films| && films[j].name == name && films[j].release == release
  }

  /** The film row `edit_film` writes back: each field it takes from its
      arguments is overwritten when that argument is supplied and non-empty. */
  function Edited(f: Film, name: Option<string>, description: Option<string>, release: Option<Date>,
                  poster: Option<string>): (g: Film)
    ensures g.id == f.id && g.creator == f.creator
    ensures g.rating == f.rating && g.ratedUsers == f.ratedUsers
    ensures g.name == if Given(name) then name.value else f.name
    ensures g.description == if Given(description) then description else f.description
    ensures g.release == if release.Some? then release.value else f.release
    ensures g.poster == if Given(poster) then poster else f.poster
  {
    var g := if Given(name) then f.(name := name.value) else f;
    var g := if Given(description) then g.(description := description) else g;
    var g := if release.Some? then g.(release := release.value) else g;
    if Given(poster) then g.(poster := poster) else g
  }

  /** The film row after one more score. */
  function Rated(f: Film, score: int): (g: Film)
    requires f.ratedUsers >= 0
    ensures g.ratedUsers == f.ratedUsers + 1
    ensures g.rating * g.ratedUsers as real == f.rating * f.ratedUsers as real + score as real
    ensures g == f.(rating := g.rating, ratedUsers := g.ratedUsers)
  {
    f.(rating := RateStep(f.rating, f.ratedUsers, score), ratedUsers := f.ratedUsers + 1)
  }

  /** Every key in the film table is below the next key. */
  ghost predicate KeysBelow(films: seq<Film>, next: int) {
    next >= 1 && forall i :: 0 <= i < |films| ==> films[i].id < next
  }

  /** The rating columns of film `f` summarise the scores it received. */
  ghost predicate Agrees(f: Film, votes: map<int, seq<int>>) {
    f.id in votes && f.ratedUsers == |votes[f.id]| && f.rating == RunningMean(votes[f.id])
  }

  ghost predicate VotesAgree(films: seq<Film>, votes: map<int, seq<int>>) {
    forall i :: 0 <= i < |films| ==> Agrees(films[i], votes)
  }

  lemma ReplaceFilmKeepsStore(s: Store, i: nat, f: Film)
    requires WellFormed(s) && i < |s.films| && f.id == s.films[i].id && !PosterTaken(s.films, f.poster, i)
    ensures WellFormed(s.(films := s.films[i := f]))
  {
    var films := s.films[i := f];
    forall t | t == s.genres || t == s.directors
      ensures LinksToFilms(t, films)
    {
      forall l | l in t.links
        ensures FilmIndex(films, l.0).Some?
      {
        assert films[FilmIndex(s.films, l.0).value].id == l.0;
      }
    }
  }

  lemma AppendFilmKeepsStore(s: Store, f: Film)
    requires WellFormed(s) && f.id >= 1 && KeysBelow(s.films, f.id) && !PosterTaken(s.films, f.poster, -1)
    ensures WellFormed(s.(films := s.films + [f])) && KeysBelow(s.films + [f], f.id + 1)
  {
    var films := s.films + [f];
    forall t | t == s.genres || t == s.directors
      ensures LinksToFilms(t, films)
    {
      forall l | l in t.links
        ensures FilmIndex(films, l.0).Some?
      {
        assert films[FilmIndex(s.films, l.0).value].id == l.0;
      }
    }
  }

  lemma RemoveFilmKeepsStore(s: Store, i: nat)
    requires WellFormed(s) && i < |s.films|
    ensures var id := s.films[i].id;
            WellFormed(Store(s.films[..i] + s.films[i + 1..], DropFilm(s.genres, id), DropFilm(s.directors, id)))
  {
    var id := s.films[i].id;
    var films := s.films[..i] + s.films[i + 1..];
    assert forall a :: 0 <= a < |films| ==> films[a] == s.films[if a < i then a else a + 1];
    forall t | t == s.genres || t == s.directors
      ensures LinksToFilms(DropFilm(t, id), films)
    {
      forall l | l in DropFilm(t, id).links
        ensures FilmIndex(films, l.0).Some?
      {
        var k := FilmIndex(s.films, l.0).value;
        assert k != i;
        assert films[if k < i then k else k - 1] == s.films[k];
      }
    }
  }

  lemma RateKeepsVotes(films: seq<Film>, votes: map<int, seq<int>>, i: nat, score: int)
    requires FilmKeysAscending(films) && VotesAgree(films, votes) && i < |films|
    ensures films[i].ratedUsers >= 0
    ensures var id := films[i].id;
            VotesAgree(films[i := Rated(films[i], score)], votes[id := votes[id] + [score]])
  {
    var id := films[i].id;
    assert Agrees(films[i], votes);
    RateStepExtends(votes[id], score);
    var after := films[i := Rated(films[i], score)];
    var v := votes[id := votes[id] + [score]];
    forall j | 0 <= j < |after|
      ensures Agrees(after[j], v)
    {
      if j != i {
        assert Agrees(films[j], votes) && films[j].id != id;
      }
    }
  }
  /** A film's own poster is never another film's. */
  lemma OwnPosterFree(films: seq<Film>, i: nat)
    requires PostersUnique(films) && i < |films|
    ensures !PosterTaken(films, films[i].poster, i)
  {
  }

  lemma AppendKeepsVotes(films: seq<Film>, votes: map<int, seq<int>>, f: Film)
    requires VotesAgree(films, votes) && KeysBelow(films, f.id)
    requires f.rating == DefaultRating && f.ratedUsers == DefaultRatedUsers
    ensures VotesAgree(films + [f], votes[f.id := []])
  {
    var after := films + [f];
    forall j | 0 <= j < |after|
      ensures Agrees(after[j], votes[f.id := []])
    {
      if j < |films| {
        assert after[j] == films[j] && Agrees(films[j], votes);
      }
    }
  }

  lemma ReplaceKeepsVotes(films: seq<Film>, votes: map<int, seq<int>>, i: nat, f: Film)
    requires VotesAgree(films, votes) && i < |films|
    requires f.id == films[i].id && f.rating == films[i].rating && f.ratedUsers == films[i].ratedUsers
    ensures VotesAgree(films[i := f], votes)
  {
    assert Agrees(films[i], votes);
  }

  lemma RemoveKeepsVotes(films: seq<Film>, votes: map<int, seq<int>>, i: nat, next: int)
    requires FilmKeysAscending(films) && VotesAgree(films, votes) && KeysBelow(films, next) && i < |films|
    ensures VotesAgree(films[..i] + films[i + 1..], votes - {films[i].id})
    ensures KeysBelow(films[..i] + films[i + 1..], next)
  {
    var after := films[..i] + films[i + 1..];
    forall j | 0 <= j < |after|
      ensures Agrees(after[j], votes - {films[i].id}) && after[j].id < next
    {
      var k := if j < i then j else j + 1;
      assert after[j] == films[k] && Agrees(films[k], votes) && films[k].id != films[i].id;
    }
  }
  /** The film just appended is the one its key finds. */
  lemma AppendedFilmFound(films: seq<Film>, f: Film)
    requires KeysBelow(films, f.id)
    ensures FilmIndex(films + [f], f.id) == Some(|films|)
  {
    assert (films + [f])[|films|].id == f.id;
  }

  /** A film replaced by one with the same key is found where it was. */
  lemma ReplacedFilmFound(films: seq<Film>, i: nat, f: Film)
    requires FilmKeysAscending(films) && i < |films| && f.id == films[i].id
    ensures FilmIndex(films[i := f], f.id) == Some(i)
  {
    var after := films[i := f];
    assert after[i].id == f.id;
    assert forall j :: 0 <= j < |films| && j != i ==> after[j] == films[j];
  }

  /** After a film is removed its key finds nothing. */
  lemma RemovedFilmGone(films: seq<Film>, i: nat)
    requires FilmKeysAscending(films) && i < |films|
    ensures FilmIndex(films[..i] + films[i + 1..], films[i].id).None?
  {
    var after := films[..i] + films[i + 1..];
    forall j | 0 <= j < |after|
      ensures after[j].id != films[i].id
    {
      assert after[j] == films[if j < i then j else j + 1];
    }
  }

  /** After a row is removed its name finds nothing. */
  lemma RemovedRowGone(t: Tags, i: nat)
    requires NamesUnique(t.rows) && i < |t.rows|
    ensures NameIndex(DropRow(t, i).rows, t.rows[i].name).None?
  {
    var u := DropRow(t, i);
    forall j | 0 <= j < |u.rows|
      ensures u.rows[j].name != t.rows[i].name
    {
      assert u.rows[j] == t.rows[if j < i then j else j + 1];
    }
  }
}
