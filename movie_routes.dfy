/**
 * The movie routes: the filtered, ordered and paginated movie list, and the
 * creation of a movie together with its certification, genres, stars and
 * directors, each resolved by name and created when missing.
 */
module MovieRoutes {
  import opened Results
  import opened Http
  import Text
  import Paging
  import opened Catalog

  // ------------------------------------------------------------------
  // get_movie_list
  // ------------------------------------------------------------------

  /** The modelled values of `sort_by` (id descending is the default). */
  datatype SortOrder = IdAsc | IdDesc

  /** The query parameters of `GET /movies/`. */
  datatype MovieQuery = MovieQuery(page: int, perPage: int, year: Option<int>, search: Option<string>, sort: SortOrder)

  /** The `min_length=1` bound of `search`. */
  const SearchTooShort := HttpError(UnprocessableEntity, "String should have at least 1 character")

  const NoMoviesFound := HttpError(NotFound, "No movies found")

  const MoviesBase := "/cinema/movies/"

  /** Query validation: the `ge=1` bounds of the paging parameters and the non-empty search. */
  function CheckQuery(q: MovieQuery): (r: Option<HttpError>)
    ensures r.None? <==> q.page >= 1 && q.perPage >= 1 && q.search != Some("")
    ensures r.Some? ==> r.value.status == UnprocessableEntity
  {
    match Paging.CheckPaging(q.page, q.perPage)
    case Some(e) => Some(e)
    case None => if q.search == Some("") then Some(SearchTooShort) else None
  }

  /** `if year:` — a missing year and year 0 both leave the list unfiltered. */
  predicate YearMatches(m: Movie, year: Option<int>)
  {
    year.None? || year.value == 0 || m.year == year.value
  }

  /** Some entity linked to the movie has a name containing the search text, ignoring case. */
  predicate LinkedNameMatches(links: set<(MovieId, EntityId)>, rows: seq<Entity>, mid: MovieId, s: string)
  {
    exists i :: 0 <= i < |rows| && (mid, rows[i].id) in links && Text.ContainsIgnoringCase(rows[i].name, s)
  }

  /** The `ilike` disjunction over the movie's name, description, stars and directors. */
  predicate SearchMatches(c: CatalogStore, m: Movie, search: Option<string>)
    reads c, c.stars, c.directors
  {
    match search
    case None => true
    case Some(s) =>
      || Text.ContainsIgnoringCase(m.name, s)
      || Text.ContainsIgnoringCase(m.description, s)
      || LinkedNameMatches(c.movieStars, c.stars.rows, m.id, s)
      || LinkedNameMatches(c.movieDirectors, c.directors.rows, m.id, s)
  }

  predicate Matches(c: CatalogStore, m: Movie, year: Option<int>, search: Option<string>)
    reads c, c.stars, c.directors
  {
    YearMatches(m, year) && SearchMatches(c, m, search)
  }

  predicate IdsIncreasing(ms: seq<Movie>)
  {
    forall i, j :: 0 <= i < j < |ms| ==> ms[i].id < ms[j].id
  }

  predicate IdsDecreasing(ms: seq<Movie>)
  {
    forall i, j :: 0 <= i < j < |ms| ==> ms[i].id > ms[j].id
  }

  /** The `where` clauses: the movies matching the query, in their original order. */
  function Select(c: CatalogStore, ms: seq<Movie>, year: Option<int>, search: Option<string>): (r: seq<Movie>)
    reads c, c.stars, c.directors
    ensures forall m :: m in r <==> m in ms && Matches(c, m, year, search)
    ensures |r| <= |ms|
    ensures IdsIncreasing(ms) ==> IdsIncreasing(r)
  {
    if ms == [] then []
    else
      var rest := Select(c, ms[1..], year, search);
      assert forall m :: m in ms[1..] ==> m in ms;
      if Matches(c, ms[0], year, search) then
        var r := [ms[0]] + rest;
        assert IdsIncreasing(ms) ==> IdsIncreasing(r) by {
          if IdsIncreasing(ms) {
            assert IdsIncreasing(ms[1..]);
            forall j | 0 < j < |r|
              ensures r[0].id < r[j].id
            {
              assert r[j] in rest;
              var k :| 0 <= k < |ms[1..]| && ms[1..][k] == r[j];
              assert ms[k + 1] == r[j];
            }
          }
        }
        r
      else rest
  }

  function Reverse(ms: seq<Movie>): (r: seq<Movie>)
    ensures |r| == |ms|
    ensures forall i :: 0 <= i < |ms| ==> r[i] == ms[|ms| - 1 - i]
  {
    if ms == [] then [] else Reverse(ms[1..]) + [ms[0]]
  }

  /** `order_by` on the id column. */
  function Sorted(ms: seq<Movie>, sort: SortOrder): seq<Movie>
  {
    match sort
    case IdAsc => ms
    case IdDesc => Reverse(ms)
  }

  /** Ordering loses no movie. */
  lemma IndexInSorted(ms: seq<Movie>, sort: SortOrder, m: Movie) returns (i: nat)
    requires m in ms
    ensures i < |Sorted(ms, sort)| && Sorted(ms, sort)[i] == m
  {
    var k :| 0 <= k < |ms| && ms[k] == m;
    i := if sort == IdAsc then k else |ms| - 1 - k;
  }

  /** Rows in id order come out ascending or descending as requested, and so does any page of them. */
  lemma SortedWindowInOrder(ms: seq<Movie>, sort: SortOrder, page: nat, perPage: nat)
    requires IdsIncreasing(ms) && page >= 1
    ensures sort == IdAsc ==> IdsIncreasing(Paging.Window(Sorted(ms, sort), page, perPage))
    ensures sort == IdDesc ==> IdsDecreasing(Paging.Window(Sorted(ms, sort), page, perPage))
  {
    var xs := Sorted(ms, sort);
    var w := Paging.Window(xs, page, perPage);
    var o := Paging.Offset(page, perPage);
    assert forall i :: 0 <= i < |w| ==> w[i] == xs[o + i];
  }

  /** The selected movies under `order_by`. */
  function Ordered(c: CatalogStore, q: MovieQuery): seq<Movie>
    reads c, c.stars, c.directors
  {
    Sorted(Select(c, c.movies, q.year, q.search), q.sort)
  }

  /** `get_movie_list`: no matching movie, or a page past the last one, is 404. */
  function ListMovies(c: CatalogStore, q: MovieQuery): (r: Result<Paging.Page<Movie>, HttpError>)
    reads c, c.stars, c.directors
    ensures CheckQuery(q).Some? ==> r == Err(CheckQuery(q).value)
    ensures r.Ok? <==>
      && CheckQuery(q).None?
      && |Ordered(c, q)| > 0
      && q.page <= Paging.TotalPages(|Ordered(c, q)|, q.perPage)
    ensures CheckQuery(q).None? && r.Err? ==> r == Err(NoMoviesFound)
    ensures r.Ok? ==>
      && r.value.totalItems == |Ordered(c, q)|
      && 0 < |r.value.items| <= q.perPage
      && r.value == Paging.Paginate(Ordered(c, q), q.page as nat, q.perPage as nat, MoviesBase)
      && (forall m :: m in r.value.items ==> m in c.movies && Matches(c, m, q.year, q.search))
  {
    match CheckQuery(q)
    case Some(e) => Err(e)
    case None =>
      var xs := Ordered(c, q);
      if |xs| == 0 then Err(NoMoviesFound)
      else
        var page := Paging.Paginate(xs, q.page as nat, q.perPage as nat, MoviesBase);
        Paging.WindowNonEmptyIff(xs, q.page as nat, q.perPage as nat);
        if |page.items| == 0 then Err(NoMoviesFound)
        else
          assert forall m :: m in page.items ==> m in xs;
          Ok(page)
  }

  /** A page lists the movies in the requested id order. */
  lemma ListedInIdOrder(c: CatalogStore, q: MovieQuery)
    requires c.Valid()
    requires ListMovies(c, q).Ok?
    ensures q.sort == IdAsc ==> IdsIncreasing(ListMovies(c, q).value.items)
    ensures q.sort == IdDesc ==> IdsDecreasing(ListMovies(c, q).value.items)
  {
    assert IdsIncreasing(c.movies);
    SortedWindowInOrder(Select(c, c.movies, q.year, q.search), q.sort, q.page as nat, q.perPage as nat);
  }

  /** Every matching movie is listed on the page its position in the order gives. */
  lemma MatchingMovieListed(c: CatalogStore, q: MovieQuery, m: Movie)
    requires CheckQuery(q).None?
    requires m in c.movies && Matches(c, m, q.year, q.search)
    ensures exists page :: 1 <= page && ListMovies(c, q.(page := page)).Ok? && m in ListMovies(c, q.(page := page)).value.items
  {
    var xs := Ordered(c, q);
    var i := PositionInOrder(c, q, m);
    var page, k := Paging.PageOf(xs, q.perPage as nat, i);
    PageIsWindow(c, q, page);
    assert ListMovies(c, q.(page := page)).value.items[k] == m;
  }

  /** Page `page` of the list is the window of the ordered rows at that page. */
  lemma PageIsWindow(c: CatalogStore, q: MovieQuery, page: nat)
    requires CheckQuery(q).None? && page >= 1
    requires |Paging.Window(Ordered(c, q), page, q.perPage as nat)| > 0
    ensures ListMovies(c, q.(page := page)).Ok?
    ensures ListMovies(c, q.(page := page)).value.items == Paging.Window(Ordered(c, q), page, q.perPage as nat)
  {
    var q' := q.(page := page);
    assert Ordered(c, q') == Ordered(c, q);
    assert CheckQuery(q').None?;
    Paging.WindowNonEmptyIff(Ordered(c, q), page, q.perPage as nat);
  }

  lemma PositionInOrder(c: CatalogStore, q: MovieQuery, m: Movie) returns (i: nat)
    requires m in c.movies && Matches(c, m, q.year, q.search)
    ensures i < |Ordered(c, q)| && Ordered(c, q)[i] == m
  {
    i := IndexInSorted(Select(c, c.movies, q.year, q.search), q.sort, m);
  }

  lemma {:induction false} SelectIgnoresYearZero(c: CatalogStore, ms: seq<Movie>, search: Option<string>)
    ensures Select(c, ms, Some(0), search) == Select(c, ms, None, search)
    decreases |ms|
  {
    if ms != [] {
      SelectIgnoresYearZero(c, ms[1..], search);
    }
  }

  /** `year=0` lists exactly what no year filter lists. */
  lemma YearZeroIsNoFilter(c: CatalogStore, q: MovieQuery)
    ensures ListMovies(c, q.(year := Some(0))) == ListMovies(c, q.(year := None))
  {
    SelectIgnoresYearZero(c, c.movies, q.search);
  }

  // ------------------------------------------------------------------
  // create_movie
  // ------------------------------------------------------------------

  /** `MovieCreateSchema` without its floating-point fields; the price is in cents. */
  datatype MovieCreate = MovieCreate(name: string, year: int, time: int, votes: nat, description: string,
                                     priceCents: nat, certification: string,
                                     genres: seq<string>, stars: seq<string>, directors: seq<string>)

  function DuplicateMovie(name: string, year: int, time: int): HttpError
  {
    HttpError(Conflict, "Movie with name: '" + name + "' year: '" + Text.IntToString(year)
                        + "' time: '" + Text.IntToString(time) + "' already exists.")
  }

  /** The `except` branch around the commit. */
  const CreateFailed := HttpError(BadRequest, "Error: " + DatabaseErrorDetail)

  /** The duplicate check on (name, year, time). */
  predicate MovieExists(ms: seq<Movie>, req: MovieCreate)
  {
    exists i :: 0 <= i < |ms| && ms[i].name == req.name && ms[i].year == req.year && ms[i].time == req.time
  }

  predicate NamesDistinct(names: seq<string>)
  {
    forall i, j :: 0 <= i < j < |names| ==> names[i] != names[j]
  }

  /**
   * A name listed twice resolves to the same row twice, and the two identical
   * association rows break the association table's primary key at commit.
   */
  predicate LinksDistinct(req: MovieCreate)
  {
    NamesDistinct(req.genres) && NamesDistinct(req.stars) && NamesDistinct(req.directors)
  }

  /** The ids of a table's rows whose names are listed. */
  function NamedIds(rows: seq<Entity>, names: seq<string>): set<EntityId>
  {
    set i | 0 <= i < |rows| && rows[i].name in names :: rows[i].id
  }

  /** The list comprehension of `get_or_create` calls over one list of names. */
  method ResolveAll(t: EntityTable, names: seq<string>) returns (ids: seq<EntityId>)
    requires t.Valid()
    modifies t
    ensures t.Valid()
    ensures |ids| == |names|
    ensures forall j :: 0 <= j < |names| ==> Entity(ids[j], names[j]) in t.rows
    ensures GrewBy(old(t.rows), t.rows, names)
    ensures IdsOf(old(t.rows)) <= IdsOf(t.rows)
  {
    ids := [];
    var k := 0;
    while k < |names|
      invariant 0 <= k <= |names| && |ids| == k
      invariant t.Valid()
      invariant forall j :: 0 <= j < k ==> Entity(ids[j], names[j]) in t.rows
      invariant GrewBy(old(t.rows), t.rows, names[..k])
      invariant IdsOf(old(t.rows)) <= IdsOf(t.rows)
    {
      ghost var before := t.rows;
      var e := t.GetOrCreate(names[k]);
      GrewByStep(old(t.rows), before, t.rows, names, k);
      ghost var done := ids;
      ids := ids + [e.id];
      forall j | 0 <= j <= k
        ensures Entity(ids[j], names[j]) in t.rows
      {
        if j < k {
          assert ids[j] == done[j] && Entity(done[j], names[j]) in before;
        } else {
          assert Entity(ids[j], names[j]) == e;
        }
      }
      k := k + 1;
    }
    assert names[..k] == names;
  }

  /** With unique names in the table, the resolved ids are the ids named by the list. */
  lemma ResolvedIds(rows: seq<Entity>, next: nat, names: seq<string>, ids: seq<EntityId>)
    requires TableValid(rows, next) && |ids| == |names|
    requires forall j :: 0 <= j < |names| ==> Entity(ids[j], names[j]) in rows
    ensures (set j | 0 <= j < |ids| :: ids[j]) == NamedIds(rows, names)
  {
    forall x | x in NamedIds(rows, names)
      ensures x in set j | 0 <= j < |ids| :: ids[j]
    {
      var i :| 0 <= i < |rows| && rows[i].name in names && rows[i].id == x;
      var j :| 0 <= j < |names| && names[j] == rows[i].name;
      var k :| 0 <= k < |rows| && rows[k] == Entity(ids[j], names[j]);
      assert i == k;
    }
    forall x | x in set j | 0 <= j < |ids| :: ids[j]
      ensures x in NamedIds(rows, names)
    {
      var j :| 0 <= j < |ids| && ids[j] == x;
      var k :| 0 <= k < |rows| && rows[k] == Entity(ids[j], names[j]);
      assert rows[k].name in names;
    }
  }

  /** A table's rows after resolving a list of names: the old rows and then new rows named by the list. */
  predicate GrewBy(before: seq<Entity>, after: seq<Entity>, names: seq<string>)
  {
    before <= after && forall j :: |before| <= j < |after| ==> after[j].name in names
  }

  /** One more `get_or_create` call: the rows it adds, if any, carry the name it resolved. */
  lemma GrewByStep(first: seq<Entity>, before: seq<Entity>, after: seq<Entity>, names: seq<string>, k: nat)
    requires k < |names| && GrewBy(first, before, names[..k])
    requires before <= after && forall j :: |before| <= j < |after| ==> after[j].name == names[k]
    ensures GrewBy(first, after, names[..k + 1])
    ensures forall e :: e in before ==> e in after
  {
    forall j | |first| <= j < |after|
      ensures after[j].name in names[..k + 1]
    {
      if j < |before| {
        assert after[j] == before[j];
        assert names[..k] <= names[..k + 1];
      } else {
        assert names[..k + 1][k] == names[k];
      }
    }
    forall e | e in before
      ensures e in after
    {
      var i :| 0 <= i < |before| && before[i] == e;
      assert after[i] == e;
    }
  }

  /** The `get_or_create` calls of `create_movie`: every name of the request resolved to a row. */
  method ResolveRequest(c: CatalogStore, req: MovieCreate)
    returns (certId: EntityId, genreIds: set<EntityId>, starIds: set<EntityId>, directorIds: set<EntityId>)
    requires c.Valid()
    modifies c.genres, c.stars, c.directors, c.certifications
    ensures c.Valid()
    ensures Entity(certId, req.certification) in c.certifications.rows && certId in IdsOf(c.certifications.rows)
    ensures genreIds == NamedIds(c.genres.rows, req.genres) && genreIds <= IdsOf(c.genres.rows)
    ensures starIds == NamedIds(c.stars.rows, req.stars) && starIds <= IdsOf(c.stars.rows)
    ensures directorIds == NamedIds(c.directors.rows, req.directors) && directorIds <= IdsOf(c.directors.rows)
    ensures GrewBy(old(c.genres.rows), c.genres.rows, req.genres)
    ensures GrewBy(old(c.stars.rows), c.stars.rows, req.stars)
    ensures GrewBy(old(c.directors.rows), c.directors.rows, req.directors)
    ensures GrewBy(old(c.certifications.rows), c.certifications.rows, [req.certification])
    ensures forall n :: n in req.genres ==> exists e :: e in c.genres.rows && e.name == n
    ensures forall n :: n in req.stars ==> exists e :: e in c.stars.rows && e.name == n
    ensures forall n :: n in req.directors ==> exists e :: e in c.directors.rows && e.name == n
  {
    ghost var s := c.State();
    var certs := ResolveAll(c.certifications, [req.certification]);
    certId := certs[0];
    var gids := ResolveAll(c.genres, req.genres);
    var sids := ResolveAll(c.stars, req.stars);
    var dids := ResolveAll(c.directors, req.directors);
    StateGrows(s, IdsOf(c.genres.rows), IdsOf(c.stars.rows), IdsOf(c.directors.rows), IdsOf(c.certifications.rows));
    assert c.State() == s.(genreIds := IdsOf(c.genres.rows), starIds := IdsOf(c.stars.rows),
                           directorIds := IdsOf(c.directors.rows), certificationIds := IdsOf(c.certifications.rows));
    NamedIdsExist(c.certifications.rows, [req.certification], certs);
    ResolvedIds(c.genres.rows, c.genres.nextId, req.genres, gids);
    ResolvedIds(c.stars.rows, c.stars.nextId, req.stars, sids);
    ResolvedIds(c.directors.rows, c.directors.nextId, req.directors, dids);
    NamedIdsExist(c.genres.rows, req.genres, gids);
    NamedIdsExist(c.stars.rows, req.stars, sids);
    NamedIdsExist(c.directors.rows, req.directors, dids);
    genreIds := NamedIds(c.genres.rows, req.genres);
    starIds := NamedIds(c.stars.rows, req.stars);
    directorIds := NamedIds(c.directors.rows, req.directors);
  }

  /** `create_movie`. */
  method CreateMovie(c: CatalogStore, req: MovieCreate) returns (r: Result<Movie, HttpError>)
    requires c.Valid()
    modifies c`movies, c`movieGenres, c`movieStars, c`movieDirectors, c`nextMovieId
    modifies c.genres, c.stars, c.directors, c.certifications
    ensures c.Valid()
    ensures MovieExists(old(c.movies), req) ==>
      r == Err(DuplicateMovie(req.name, req.year, req.time))
      && unchanged(c) && unchanged(c.genres, c.stars, c.directors, c.certifications)
    ensures !MovieExists(old(c.movies), req) && !LinksDistinct(req) ==>
      r == Err(CreateFailed)
      && unchanged(c) && unchanged(c.genres, c.stars, c.directors, c.certifications)
    ensures !MovieExists(old(c.movies), req) && LinksDistinct(req) ==>
      && r.Ok?
      && r.value == Movie(old(c.nextMovieId), req.name, req.year, req.time, req.votes, req.description,
                          req.priceCents, r.value.certification)
      && Entity(r.value.certification, req.certification) in c.certifications.rows
      && c.movies == old(c.movies) + [r.value]
      && GrewBy(old(c.genres.rows), c.genres.rows, req.genres)
      && GrewBy(old(c.stars.rows), c.stars.rows, req.stars)
      && GrewBy(old(c.directors.rows), c.directors.rows, req.directors)
      && GrewBy(old(c.certifications.rows), c.certifications.rows, [req.certification])
      && c.movieGenres == old(c.movieGenres) + LinksFor(r.value.id, NamedIds(c.genres.rows, req.genres))
      && c.movieStars == old(c.movieStars) + LinksFor(r.value.id, NamedIds(c.stars.rows, req.stars))
      && c.movieDirectors == old(c.movieDirectors) + LinksFor(r.value.id, NamedIds(c.directors.rows, req.directors))
    ensures r.Ok? ==>
      && (forall n :: n in req.genres ==> exists e :: e in c.genres.rows && e.name == n)
      && (forall n :: n in req.stars ==> exists e :: e in c.stars.rows && e.name == n)
      && (forall n :: n in req.directors ==> exists e :: e in c.directors.rows && e.name == n)
  {
    if MovieExists(c.movies, req) {
      return Err(DuplicateMovie(req.name, req.year, req.time));
    }
    if !LinksDistinct(req) {
      return Err(CreateFailed);
    }
    var certId, genreIds, starIds, directorIds := ResolveRequest(c, req);
    var m := c.InsertMovie(req.name, req.year, req.time, req.votes, req.description, req.priceCents,
                           certId, genreIds, starIds, directorIds);
    r := Ok(m);
  }

  /** Named ids are ids of the table, and every resolved name names a row. */
  lemma NamedIdsExist(rows: seq<Entity>, names: seq<string>, ids: seq<EntityId>)
    requires |ids| == |names|
    requires forall j :: 0 <= j < |names| ==> Entity(ids[j], names[j]) in rows
    ensures NamedIds(rows, names) <= IdsOf(rows)
    ensures forall n :: n in names ==> exists e :: e in rows && e.name == n
    ensures forall j :: 0 <= j < |ids| ==> ids[j] in IdsOf(rows)
  {
    forall n | n in names
      ensures exists e :: e in rows && e.name == n
    {
      var j :| 0 <= j < |names| && names[j] == n;
      assert Entity(ids[j], names[j]) in rows;
    }
    forall j | 0 <= j < |ids|
      ensures ids[j] in IdsOf(rows)
    {
      var k :| 0 <= k < |rows| && rows[k] == Entity(ids[j], names[j]);
      assert rows[k].id == ids[j];
    }
  }
}
