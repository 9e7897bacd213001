/** The search pipeline of the film catalogue (`search_films` and its helpers
    `check_sorting`, `convert_release_range`, `check_genres`,
    `check_directors`) and the conversion of a film row to the result
    record (`convert_to_dict`). Everything here only reads the store. */
module FilmSearch {
  import opened Common
  import opened Dates
  import opened Models

  /** Start of the default release range. */
  const Epoch: Date := Ymd(1900, 1, 1)

  // ----- the name mask: `film_name ILIKE '%' || mask || '%'` -----

  /** ASCII case folding, which is what SQLite's `lower` does. */
  function FoldCase(c: char): char {
    if 'A' <= c <= 'Z' then (c as int + 32) as char else c
  }

  function Lower(s: string): string {
    seq(|s|, i requires 0 <= i < |s| => FoldCase(s[i]))
  }

  ghost predicate OccursAt(p: string, s: string, k: int) {
    0 <= k && k + |p| <= |s| && s[k..k + |p|] == p
  }

  /** `p` is a contiguous part of `s`. */
  ghost predicate Occurs(p: string, s: string) {
    exists k :: OccursAt(p, s, k)
  }

  lemma OccursInTail(p: string, s: string)
    requires |p| < |s| && s[..|p|] != p
    ensures Occurs(p, s) <==> Occurs(p, s[1..])
  {
    if Occurs(p, s) {
      var k :| OccursAt(p, s, k);
      assert k != 0;
      assert s[1..][k - 1..k - 1 + |p|] == s[k..k + |p|];
      assert OccursAt(p, s[1..], k - 1);
    }
    if Occurs(p, s[1..]) {
      var k :| OccursAt(p, s[1..], k);
      assert s[1..][k..k + |p|] == s[k + 1..k + 1 + |p|];
      assert OccursAt(p, s, k + 1);
    }
  }

  /** Left-to-right substring scan. */
  function Contains(s: string, p: string): (b: bool)
    ensures b <==> Occurs(p, s)
    decreases |s|
  {
    if |p| > |s| then
      assert forall k :: !OccursAt(p, s, k);
      false
    else if s[..|p|] == p then
      assert OccursAt(p, s, 0);
      true
    else if |p| == |s| then
      assert forall k :: OccursAt(p, s, k) ==> k == 0;
      false
    else
      OccursInTail(p, s);
      Contains(s[1..], p)
  }

  /** The film name contains the mask, ignoring the case of ASCII letters. */
  predicate MaskMatches(name: string, mask: string) {
    Contains(Lower(name), Lower(mask))
  }

  lemma EmptyMaskMatchesEveryName(name: string)
    ensures MaskMatches(name, "")
  {
    assert OccursAt(Lower(""), Lower(name), 0);
  }

  // ----- genre and director filters -----

  /** The film is linked to some row of `t` whose name is in `names`
      (the join through the association table with `name IN names`). */
  predicate LinkedTo(t: Tags, filmId: int, names: seq<string>) {
    exists r :: r in t.rows && (filmId, r.id) in t.links && r.name in names
  }

  /** Every name of a name table, in table order. */
  function AllNames(rows: seq<Named>): seq<string> {
    seq(|rows|, i requires 0 <= i < |rows| => rows[i].name)
  }

  /** `check_genres` / `check_directors`: an omitted or empty list of names
      means every name in the table. */
  function CheckNames(names: Option<seq<string>>, t: Tags): (r: seq<string>)
    ensures names.Some? && names.value != [] ==> r == names.value
    ensures (names.None? || names.value == []) ==>
              forall n :: n in r <==> exists row :: row in t.rows && row.name == n
  {
    if names.None? || names.value == [] then
      assert forall row :: row in t.rows ==> row.name in AllNames(t.rows) by {
        forall row | row in t.rows ensures row.name in AllNames(t.rows) {
          var i :| 0 <= i < |t.rows| && t.rows[i] == row;
          assert AllNames(t.rows)[i] == row.name;
        }
      }
      AllNames(t.rows)
    else names.value
  }

  /** The default filter is no filter on names, yet it still asks for a link:
      a film passes it exactly when it has at least one link in the table. */
  lemma DefaultNamesMeanAnyLink(t: Tags, filmId: int)
    requires WellFormedTags(t)
    ensures LinkedTo(t, filmId, CheckNames(None, t)) <==> exists l :: l in t.links && l.0 == filmId
  {
    var names := CheckNames(None, t);
    if l :| l in t.links && l.0 == filmId {
      var i := RowIndex(t.rows, l.1).value;
      assert t.rows[i] in t.rows && t.rows[i].name in names;
    }
  }

  // ----- the combined condition -----

  /** The filter after defaults are applied: a mask, an inclusive release
      range and the admissible genre and director names. */
  datatype Filter = Filter(mask: string, from: Date, to: Date, genreNames: seq<string>, directorNames: seq<string>)

  predicate Matches(s: Store, flt: Filter, f: Film) {
    && MaskMatches(f.name, flt.mask)
    && NotAfter(flt.from, f.release) && NotAfter(f.release, flt.to)
    && LinkedTo(s.genres, f.id, flt.genreNames)
    && LinkedTo(s.directors, f.id, flt.directorNames)
  }

  /** The matching rows of `films`, in table order. */
  function Select(s: Store, flt: Filter, films: seq<Film>): (r: seq<Film>)
    ensures forall f :: f in r <==> f in films && Matches(s, flt, f)
    ensures |r| <= |films|
  {
    if films == [] then []
    else
      assert films == [films[0]] + films[1..];
      (if Matches(s, flt, films[0]) then [films[0]] else []) + Select(s, flt, films[1..])
  }

  // ----- ordering: `order_by(Films.rating.desc())` and its date twin -----

  datatype SortKey = ByRating | ByReleaseDate

  /** `check_sorting`: only the two exact key names sort. */
  function CheckSorting(sorting: Option<string>): (k: Option<SortKey>)
    ensures k == Some(ByRating) <==> sorting == Some("rating")
    ensures k == Some(ByReleaseDate) <==> sorting == Some("release_date")
    ensures k.None? <==> sorting != Some("rating") && sorting != Some("release_date")
  {
    if sorting == Some("rating") then Some(ByRating)
    else if sorting == Some("release_date") then Some(ByReleaseDate)
    else None
  }

  /** `a` may come before `b` in descending order of `key`. */
  predicate AtLeast(a: Film, b: Film, key: SortKey) {
    match key
    case ByRating => a.rating >= b.rating
    case ByReleaseDate => NotAfter(b.release, a.release)
  }

  ghost predicate Descending(s: seq<Film>, key: SortKey) {
    forall i, j :: 0 <= i < j < |s| ==> AtLeast(s[i], s[j], key)
  }

  /** Either film may precede the other, and precedence chains. */
  lemma AtLeastIsTotalPreorder(a: Film, b: Film, c: Film, key: SortKey)
    ensures AtLeast(a, b, key) || AtLeast(b, a, key)
    ensures AtLeast(a, b, key) && AtLeast(b, c, key) ==> AtLeast(a, c, key)
  {
  }

  function InsertDesc(f: Film, s: seq<Film>, key: SortKey): (r: seq<Film>)
    ensures multiset(r) == multiset(s) + multiset{f}
  {
    if s == [] then [f]
    else if AtLeast(s[0], f, key) then
      assert s == [s[0]] + s[1..];
      [s[0]] + InsertDesc(f, s[1..], key)
    else [f] + s
  }

  lemma {:induction false} InsertDescKeepsOrder(f: Film, s: seq<Film>, key: SortKey)
    requires Descending(s, key)
    ensures Descending(InsertDesc(f, s, key), key)
  {
    if s == [] {
    } else if AtLeast(s[0], f, key) {
      var t := InsertDesc(f, s[1..], key);
      InsertDescKeepsOrder(f, s[1..], key);
      forall x | x in t
        ensures AtLeast(s[0], x, key)
      {
        assert x in multiset(t);
        if x != f {
          assert x in multiset(s[1..]);
          var j :| 0 <= j < |s[1..]| && s[1..][j] == x;
          assert s[j + 1] == x;
        }
      }
      ConsDescending(s[0], t, key);
    } else {
      forall x | x in s
        ensures AtLeast(f, x, key)
      {
        var j :| 0 <= j < |s| && s[j] == x;
        AtLeastIsTotalPreorder(f, s[0], x, key);
        AtLeastIsTotalPreorder(s[0], f, x, key);
      }
      ConsDescending(f, s, key);
    }
  }

  /** A head that may precede every element of a descending tail keeps it
      descending. */
  lemma ConsDescending(h: Film, t: seq<Film>, key: SortKey)
    requires Descending(t, key)
    requires forall x :: x in t ==> AtLeast(h, x, key)
    ensures Descending([h] + t, key)
  {
    var r := [h] + t;
    forall i, j | 0 <= i < j < |r|
      ensures AtLeast(r[i], r[j], key)
    {
      assert r[j] == t[j - 1];
      if i > 0 {
        assert r[i] == t[i - 1];
      }
    }
  }

  function SortDesc(s: seq<Film>, key: SortKey): (r: seq<Film>)
    ensures multiset(r) == multiset(s)
    ensures Descending(r, key)
  {
    if s == [] then []
    else
      assert s == [s[0]] + s[1..];
      InsertDescKeepsOrder(s[0], SortDesc(s[1..], key), key);
      InsertDesc(s[0], SortDesc(s[1..], key), key)
  }

  /** The rows in the order the query returns them: sorted when a key is
      given, in table order otherwise. */
  function Ordered(rows: seq<Film>, key: Option<SortKey>): (r: seq<Film>)
    ensures multiset(r) == multiset(rows)
    ensures key.Some? ==> Descending(r, key.value)
  {
    match key
    case None => rows
    case Some(k) => SortDesc(rows, k)
  }

  // ----- pagination: `paginate(per_page=pagination, page=page_number)` -----

  function Page<T>(rows: seq<T>, perPage: int, page: int): (r: seq<T>)
    requires perPage >= 1 && page >= 1
    ensures |r| <= perPage
    ensures forall i :: 0 <= i < |r| ==> (page - 1) * perPage + i < |rows| && r[i] == rows[(page - 1) * perPage + i]
    ensures (page - 1) * perPage < |rows| ==> |r| == if page * perPage <= |rows| then perPage else |rows| - (page - 1) * perPage
  {
    var start := (page - 1) * perPage;
    if start >= |rows| then []
    else rows[start..if start + perPage <= |rows| then start + perPage else |rows|]
  }

  /** Each row is on exactly the page its position says. */
  lemma {:induction false} RowOnItsPage<T>(rows: seq<T>, perPage: int, k: int)
    requires perPage >= 1 && 0 <= k < |rows|
    ensures k / perPage >= 0
    ensures k % perPage < |Page(rows, perPage, k / perPage + 1)|
    ensures Page(rows, perPage, k / perPage + 1)[k % perPage] == rows[k]
  {
    var page := k / perPage + 1;
    assert (page - 1) * perPage + k % perPage == k;
    assert (page - 1) * perPage <= k;
    assert page * perPage == (page - 1) * perPage + perPage;
  }

  // ----- release range -----

  /** `convert_release_range`: no range (or an empty one) means from
      1900-01-01 to today; otherwise the first two strings are parsed, the
      first one first. */
  function ConvertReleaseRange(range: Option<seq<string>>, today: Date): (r: Result<(Date, Date)>)
    ensures (range.None? || range.value == []) ==> r == Ok((Epoch, today))
    ensures r.Ok? && range.Some? && range.value != [] ==>
              |range.value| >= 2 && FormatIso(r.value.0) == range.value[0] && FormatIso(r.value.1) == range.value[1]
    ensures r.Err? ==> range.Some? && range.value != []
    ensures r.Err? ==> (r.failure == WrongDateFormat <==> ParseIso(range.value[0]).None? || |range.value| >= 2)
    ensures r.Err? ==> (r.failure == IndexError <==> ParseIso(range.value[0]).Some? && |range.value| == 1)
    ensures range.Some? && range.value != [] && ParseIso(range.value[0]).None? ==> r == Err(WrongDateFormat)
    ensures range.Some? && |range.value| == 1 && ParseIso(range.value[0]).Some? ==> r == Err(IndexError)
    ensures range.Some? && |range.value| >= 2 && ParseIso(range.value[0]).Some? ==>
              if ParseIso(range.value[1]).None? then r == Err(WrongDateFormat)
              else r == Ok((ParseIso(range.value[0]).value, ParseIso(range.value[1]).value))
  {
    if range.None? || range.value == [] then Ok((Epoch, today))
    else match ParseIso(range.value[0])
      case None => Err(WrongDateFormat)
      case Some(from) =>
        if |range.value| < 2 then Err(IndexError)
        else match ParseIso(range.value[1])
          case None => Err(WrongDateFormat)
          case Some(to) =>
            FormatParseIso(range.value[0]);
            FormatParseIso(range.value[1]);
            Ok((from, to))
  }

  // ----- result records -----

  /** The dictionary `convert_to_dict` builds for one film. */
  datatype FilmView = FilmView(
    filmId: int,
    userId: int,
    filmName: string,
    description: Option<string>,
    rating: real,
    ratedUsers: int,
    releaseDate: string,
    posterLink: Option<string>,
    directorNames: seq<string>,
    genreNames: seq<string>)

  /** The film is linked to a row of `t` named `n`. */
  ghost predicate IsLinkedName(t: Tags, filmId: int, n: string) {
    exists row :: row in t.rows && row.name == n && (filmId, row.id) in t.links
  }

  /** `get_genres` / `get_directors`: the names linked to a film, in table
      order. */
  function LinkedNames(t: Tags, filmId: int): (r: seq<string>)
    ensures forall n :: n in r <==> IsLinkedName(t, filmId, n)
    decreases |t.rows|
  {
    if t.rows == [] then []
    else
      var rest := Tags(t.rows[1..], t.links);
      assert t.rows == [t.rows[0]] + rest.rows;
      (if (filmId, t.rows[0].id) in t.links then [t.rows[0].name] else []) + LinkedNames(rest, filmId)
  }

  function NamesOrUnknown(names: seq<string>): seq<string> {
    if names == [] then ["unknown"] else names
  }

  /** `convert_to_dict(film, get_directors(id), get_genres(id))`. */
  function ToView(s: Store, f: Film): (v: FilmView)
    ensures v.filmId == f.id && v.userId == f.creator && v.filmName == f.name
    ensures v.rating == f.rating && v.ratedUsers == f.ratedUsers
    ensures v.description == f.description && v.posterLink == f.poster
    ensures v.releaseDate == FormatDotted(f.release)
    ensures forall n :: n in v.genreNames <==>
              IsLinkedName(s.genres, f.id, n) || (n == "unknown" && LinkedNames(s.genres, f.id) == [])
    ensures forall n :: n in v.directorNames <==>
              IsLinkedName(s.directors, f.id, n) || (n == "unknown" && LinkedNames(s.directors, f.id) == [])
  {
    FilmView(f.id, f.creator, f.name, f.description, f.rating, f.ratedUsers, FormatDotted(f.release), f.poster,
             NamesOrUnknown(LinkedNames(s.directors, f.id)), NamesOrUnknown(LinkedNames(s.genres, f.id)))
  }

  // ----- the whole search -----

  /** The arguments of `search_films`. */
  datatype SearchQuery = SearchQuery(
    mask: string,
    releaseRange: Option<seq<string>>,
    directorNames: Option<seq<string>>,
    genreNames: Option<seq<string>>,
    pagination: int,
    pageNumber: int,
    sorting: Option<string>)

  function FilterOf(s: Store, q: SearchQuery, range: (Date, Date)): Filter {
    Filter(q.mask, range.0, range.1, CheckNames(q.genreNames, s.genres), CheckNames(q.directorNames, s.directors))
  }

  /** The film rows of one result page. */
  function SearchRows(s: Store, q: SearchQuery, today: Date): (r: Result<seq<Film>>)
    ensures r.Err? <==> ConvertReleaseRange(q.releaseRange, today).Err? || q.pagination < 1 || q.pageNumber < 1
    ensures r.Err? && ConvertReleaseRange(q.releaseRange, today).Ok? ==> r.failure == PageNotFound
    ensures r.Ok? ==> |r.value| <= q.pagination
  {
    match ConvertReleaseRange(q.releaseRange, today)
    case Err(e) => Err(e)
    case Ok(range) =>
      if q.pagination < 1 || q.pageNumber < 1 then Err(PageNotFound)
      else Ok(Page(Ordered(Select(s, FilterOf(s, q, range), s.films), CheckSorting(q.sorting)), q.pagination, q.pageNumber))
  }

  /** The rows a successful search pages through: the matching films in
      result order. */
  function ResultOrder(s: Store, q: SearchQuery, today: Date): seq<Film>
    requires ConvertReleaseRange(q.releaseRange, today).Ok?
  {
    Ordered(Select(s, FilterOf(s, q, ConvertReleaseRange(q.releaseRange, today).value), s.films), CheckSorting(q.sorting))
  }

  lemma SearchRowsIsPage(s: Store, q: SearchQuery, today: Date)
    requires SearchRows(s, q, today).Ok?
    ensures ConvertReleaseRange(q.releaseRange, today).Ok? && q.pagination >= 1 && q.pageNumber >= 1
    ensures SearchRows(s, q, today).value == Page(ResultOrder(s, q, today), q.pagination, q.pageNumber)
  {
  }

  lemma PageIsPartOfRows<T>(rows: seq<T>, perPage: int, page: int)
    requires perPage >= 1 && page >= 1
    ensures multiset(Page(rows, perPage, page)) <= multiset(rows)
  {
    var start := (page - 1) * perPage;
    if start < |rows| {
      var end := if start + perPage <= |rows| then start + perPage else |rows|;
      assert Page(rows, perPage, page) == rows[start..end];
      SliceIsPart(rows, start, end);
    }
  }

  lemma SliceIsPart<T>(rows: seq<T>, lo: int, hi: int)
    requires 0 <= lo <= hi <= |rows|
    ensures multiset(rows[lo..hi]) <= multiset(rows)
  {
    assert rows == rows[..lo] + rows[lo..hi] + rows[hi..];
  }

  /** Every film on a result page is a stored film that meets the mask, the
      release range, the genre filter and the director filter. */
  lemma SearchRowsMatch(s: Store, q: SearchQuery, today: Date)
    requires SearchRows(s, q, today).Ok?
    ensures forall f :: f in SearchRows(s, q, today).value ==>
              f in s.films && Matches(s, FilterOf(s, q, ConvertReleaseRange(q.releaseRange, today).value), f)
  {
    var flt := FilterOf(s, q, ConvertReleaseRange(q.releaseRange, today).value);
    var rows := Ordered(Select(s, flt, s.films), CheckSorting(q.sorting));
    PageIsPartOfRows(rows, q.pagination, q.pageNumber);
    forall f | f in SearchRows(s, q, today).value
      ensures f in s.films && Matches(s, flt, f)
    {
      assert f in multiset(Page(rows, q.pagination, q.pageNumber));
      assert f in multiset(Select(s, flt, s.films));
    }
  }

  /** With sorting 'rating' or 'release_date' the page does not increase in
      that key. */
  lemma SearchRowsSorted(s: Store, q: SearchQuery, today: Date)
    requires SearchRows(s, q, today).Ok? && CheckSorting(q.sorting).Some?
    ensures Descending(SearchRows(s, q, today).value, CheckSorting(q.sorting).value)
  {
    SearchRowsIsPage(s, q, today);
    PageKeepsOrder(ResultOrder(s, q, today), q.pagination, q.pageNumber, CheckSorting(q.sorting).value);
  }

  lemma PageKeepsOrder(rows: seq<Film>, perPage: int, page: int, key: SortKey)
    requires perPage >= 1 && page >= 1 && Descending(rows, key)
    ensures Descending(Page(rows, perPage, page), key)
  {
    var r := Page(rows, perPage, page);
    var start := (page - 1) * perPage;
    forall i, j | 0 <= i < j < |r|
      ensures AtLeast(r[i], r[j], key)
    {
      assert r[i] == rows[start + i] && r[j] == rows[start + j];
    }
  }

  /** `search_films`: the records of one result page, one per row of the
      page in the same order; a search that fails gives its failure. */
  function SearchFilms(s: Store, q: SearchQuery, today: Date): (r: Result<seq<FilmView>>)
    ensures r.Err? <==> SearchRows(s, q, today).Err?
    ensures r.Err? ==> r.failure == SearchRows(s, q, today).failure
    ensures r.Ok? ==>
              && |r.value| == |SearchRows(s, q, today).value| <= q.pagination
              && forall i :: 0 <= i < |r.value| ==> r.value[i] == ToView(s, SearchRows(s, q, today).value[i])
  {
    match SearchRows(s, q, today)
    case Err(e) => Err(e)
    case Ok(rows) => Ok(seq(|rows|, i requires 0 <= i < |rows| => ToView(s, rows[i])))
  }

  /** No matching film is lost: each one is on some page of the search. */
  lemma SearchFindsEveryMatch(s: Store, q: SearchQuery, today: Date, f: Film)
    requires ConvertReleaseRange(q.releaseRange, today).Ok? && q.pagination >= 1
    requires f in s.films && Matches(s, FilterOf(s, q, ConvertReleaseRange(q.releaseRange, today).value), f)
    ensures exists page :: page >= 1 && SearchRows(s, q.(pageNumber := page), today).Ok?
                        && f in SearchRows(s, q.(pageNumber := page), today).value
  {
    var rows := ResultOrder(s, q, today);
    assert f in multiset(rows);
    var k :| 0 <= k < |rows| && rows[k] == f;
    RowOnItsPage(rows, q.pagination, k);
    var page := k / q.pagination + 1;
    var p := Page(rows, q.pagination, page);
    assert f == p[k % q.pagination];
    var q' := q.(pageNumber := page);
    assert ResultOrder(s, q', today) == rows;
    assert SearchRows(s, q', today) == Ok(p);
  }

  /** A film with no genre link or no director link is never found, not
      even by a search with every filter left at its default. */
  lemma UnlinkedFilmNeverFound(s: Store, q: SearchQuery, today: Date, f: Film)
    requires (forall g :: (f.id, g) !in s.genres.links) || (forall d :: (f.id, d) !in s.directors.links)
    ensures SearchRows(s, q, today).Ok? ==> f !in SearchRows(s, q, today).value
  {
    if SearchRows(s, q, today).Ok? {
      SearchRowsMatch(s, q, today);
    }
  }

  /** Every record on a result page lists the film's own genre and director
      names: the "unknown" placeholder never stands in for them. */
  lemma FoundFilmsListTheirNames(s: Store, q: SearchQuery, today: Date, i: int)
    requires SearchFilms(s, q, today).Ok? && 0 <= i < |SearchFilms(s, q, today).value|
    ensures var v := SearchFilms(s, q, today).value[i];
            v.genreNames == LinkedNames(s.genres, v.filmId) != [] &&
            v.directorNames == LinkedNames(s.directors, v.filmId) != []
  {
    var rows := SearchRows(s, q, today).value;
    assert SearchFilms(s, q, today).value[i] == ToView(s, rows[i]);
    var f := rows[i];
    assert f in rows;
    SearchRowsMatch(s, q, today);
    var flt := FilterOf(s, q, ConvertReleaseRange(q.releaseRange, today).value);
    assert LinkedTo(s.genres, f.id, flt.genreNames) && LinkedTo(s.directors, f.id, flt.directorNames);
    var g :| g in s.genres.rows && (f.id, g.id) in s.genres.links && g.name in flt.genreNames;
    assert g.name in LinkedNames(s.genres, f.id);
    var d :| d in s.directors.rows && (f.id, d.id) in s.directors.links && d.name in flt.directorNames;
    assert d.name in LinkedNames(s.directors, f.id);
  }
}
