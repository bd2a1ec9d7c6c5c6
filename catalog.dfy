/**
 * The catalog tables and the generic entity operations: genres, stars,
 * directors and certifications, each a table of unique names ordered by id;
 * the movies, unique by (name, year, time), each with one certification; the
 * movie/genre, movie/star and movie/director association tables; and the
 * users' favourite movies.
 */
module Catalog {
  import opened Results
  import opened Http
  import Text
  import Paging

  type EntityId = nat
  type MovieId = nat
  type UserId = nat

  datatype EntityKind = Genre | Star | Director | Certification

  /** `GenreModel`, `StarModel`, `DirectorModel`, `CertificationModel`: an id and a unique name. */
  datatype Entity = Entity(id: EntityId, name: string)

  /** `MovieModel` without its floating-point columns; the price is in cents. */
  datatype Movie = Movie(id: MovieId, name: string, year: int, time: int, votes: nat, description: string,
                         priceCents: nat, certification: EntityId)

  /** `MovieUpdateSchema`: the fields a request supplied. */
  datatype MoviePatch = MoviePatch(name: Option<string>, year: Option<int>, time: Option<int>, votes: Option<nat>,
                                   description: Option<string>, priceCents: Option<nat>)

  /** `EntityMovieCountSchema`. */
  datatype EntityCount = EntityCount(id: EntityId, name: string, moviesCount: nat)

  /** `FavoriteResponse`. */
  datatype FavoriteResponse = FavoriteResponse(movieId: MovieId, isFavorite: bool, message: string)

  /** The URL path segment of each entity's endpoints. */
  function PathOf(kind: EntityKind): string
  {
    match kind
    case Genre => "genres"
    case Star => "stars"
    case Director => "directors"
    case Certification => "certifications"
  }

  function NotFoundById(id: int): HttpError
  {
    HttpError(NotFound, "Object with id " + Text.IntToString(id) + " is not found")
  }

  // ------------------------------------------------------------------
  // Entity tables
  // ------------------------------------------------------------------

  /** Ids strictly increase along the table (autoincrement, listed `id ASC`), names are unique. */
  ghost predicate TableValid(t: seq<Entity>, next: nat)
  {
    && (forall i, j :: 0 <= i < j < |t| ==> t[i].id < t[j].id && t[i].name != t[j].name)
    && (forall i :: 0 <= i < |t| ==> t[i].id < next)
  }

  function IdsOf(t: seq<Entity>): set<EntityId>
  {
    set i | 0 <= i < |t| :: t[i].id
  }

  /** `select(model).where(model.name == name).first()`. */
  function FindName(t: seq<Entity>, name: string): (r: Option<nat>)
    ensures r.Some? ==> r.value < |t| && t[r.value].name == name
    ensures r.None? <==> forall i :: 0 <= i < |t| ==> t[i].name != name
  {
    if t == [] then None
    else if t[0].name == name then Some(0)
    else match FindName(t[1..], name)
      case None => None
      case Some(k) => Some(k + 1)
  }

  /** `select(model).where(model.id == obj_id).first()`. */
  function FindId(t: seq<Entity>, id: int): (r: Option<nat>)
    ensures r.Some? ==> r.value < |t| && t[r.value].id == id
    ensures r.None? <==> forall i :: 0 <= i < |t| ==> t[i].id != id
  {
    if t == [] then None
    else if t[0].id == id then Some(0)
    else match FindId(t[1..], id)
      case None => None
      case Some(k) => Some(k + 1)
  }

  function RemoveAt<T>(s: seq<T>, i: nat): (r: seq<T>)
    requires i < |s|
    ensures |r| == |s| - 1
    ensures forall j :: 0 <= j < i ==> r[j] == s[j]
    ensures forall j :: i <= j < |r| ==> r[j] == s[j + 1]
  {
    s[..i] + s[i + 1..]
  }

  lemma AppendKeepsTableValid(t: seq<Entity>, next: nat, name: string)
    requires TableValid(t, next) && FindName(t, name).None?
    ensures TableValid(t + [Entity(next, name)], next + 1)
    ensures IdsOf(t + [Entity(next, name)]) == IdsOf(t) + {next}
  {
    var t' := t + [Entity(next, name)];
    assert forall i :: 0 <= i < |t| ==> t'[i] == t[i];
    forall x | x in IdsOf(t) + {next}
      ensures x in IdsOf(t')
    {
      if x == next {
        assert t'[|t|].id == x;
      } else {
        var j :| 0 <= j < |t| && t[j].id == x;
        assert t'[j].id == x;
      }
    }
  }

  lemma RemoveKeepsTableValid(t: seq<Entity>, next: nat, i: nat)
    requires TableValid(t, next) && i < |t|
    ensures TableValid(RemoveAt(t, i), next)
    ensures IdsOf(RemoveAt(t, i)) == IdsOf(t) - {t[i].id}
  {
    var r := RemoveAt(t, i);
    forall x | x in IdsOf(t) - {t[i].id}
      ensures x in IdsOf(r)
    {
      var j :| 0 <= j < |t| && t[j].id == x;
      if j < i {
        assert r[j].id == x;
      } else {
        assert r[j - 1].id == x;
      }
    }
  }

  lemma RenameKeepsTableValid(t: seq<Entity>, next: nat, i: nat, name: string)
    requires TableValid(t, next) && i < |t|
    requires forall j :: 0 <= j < |t| && j != i ==> t[j].name != name
    ensures TableValid(t[i := Entity(t[i].id, name)], next)
    ensures IdsOf(t[i := Entity(t[i].id, name)]) == IdsOf(t)
  {
    var r := t[i := Entity(t[i].id, name)];
    assert forall j :: 0 <= j < |t| ==> r[j].id == t[j].id;
  }

  /** Every association row names an existing movie and an existing entity. */
  ghost predicate LinksValid(links: set<(MovieId, EntityId)>, movieIds: set<MovieId>, entityIds: set<EntityId>)
  {
    forall p :: p in links ==> p.0 in movieIds && p.1 in entityIds
  }

  // ------------------------------------------------------------------
  // Movies
  // ------------------------------------------------------------------

  /** The columns of `unique_movie_constraint`. */
  predicate SameKey(a: Movie, b: Movie)
  {
    a.name == b.name && a.year == b.year && a.time == b.time
  }

  ghost predicate MoviesValid(ms: seq<Movie>, next: nat)
  {
    && (forall i, j :: 0 <= i < j < |ms| ==> ms[i].id < ms[j].id && !SameKey(ms[i], ms[j]))
    && (forall i :: 0 <= i < |ms| ==> ms[i].id < next)
  }

  function MovieIdsOf(ms: seq<Movie>): set<MovieId>
  {
    set i | 0 <= i < |ms| :: ms[i].id
  }

  lemma RemoveKeepsMoviesValid(ms: seq<Movie>, next: nat, i: nat)
    requires MoviesValid(ms, next) && i < |ms|
    ensures MoviesValid(RemoveAt(ms, i), next)
    ensures MovieIdsOf(RemoveAt(ms, i)) == MovieIdsOf(ms) - {ms[i].id}
    ensures forall j :: 0 <= j < |RemoveAt(ms, i)| ==> RemoveAt(ms, i)[j] in ms
  {
    var r := RemoveAt(ms, i);
    forall x | x in MovieIdsOf(ms) - {ms[i].id}
      ensures x in MovieIdsOf(r)
    {
      var j :| 0 <= j < |ms| && ms[j].id == x;
      if j < i {
        assert r[j].id == x;
      } else {
        assert r[j - 1].id == x;
      }
    }
    forall j | 0 <= j < |r|
      ensures r[j] in ms
    {
      if j < i {
        assert r[j] == ms[j];
      } else {
        assert r[j] == ms[j + 1];
      }
    }
  }

  function FindMovie(ms: seq<Movie>, id: int): (r: Option<nat>)
    ensures r.Some? ==> r.value < |ms| && ms[r.value].id == id
    ensures r.None? <==> forall i :: 0 <= i < |ms| ==> ms[i].id != id
  {
    if ms == [] then None
    else if ms[0].id == id then Some(0)
    else match FindMovie(ms[1..], id)
      case None => None
      case Some(k) => Some(k + 1)
  }

  /** `update`'s `setattr` loop: a supplied field replaces the stored one, an absent field keeps it. */
  function ApplyPatch(m: Movie, p: MoviePatch): (r: Movie)
    ensures r.id == m.id && r.certification == m.certification
    ensures r.name == (if p.name.Some? then p.name.value else m.name)
    ensures r.year == (if p.year.Some? then p.year.value else m.year)
    ensures r.time == (if p.time.Some? then p.time.value else m.time)
    ensures r.votes == (if p.votes.Some? then p.votes.value else m.votes)
    ensures r.description == (if p.description.Some? then p.description.value else m.description)
    ensures r.priceCents == (if p.priceCents.Some? then p.priceCents.value else m.priceCents)
  {
    Movie(m.id,
          if p.name.Some? then p.name.value else m.name,
          if p.year.Some? then p.year.value else m.year,
          if p.time.Some? then p.time.value else m.time,
          if p.votes.Some? then p.votes.value else m.votes,
          if p.description.Some? then p.description.value else m.description,
          if p.priceCents.Some? then p.priceCents.value else m.priceCents,
          m.certification)
  }

  /** An empty patch changes nothing, and applying a patch twice is applying it once. */
  lemma PatchLaws(m: Movie, p: MoviePatch)
    ensures ApplyPatch(m, MoviePatch(None, None, None, None, None, None)) == m
    ensures ApplyPatch(ApplyPatch(m, p), p) == ApplyPatch(m, p)
  {
  }

  /** Whether some other movie already holds the patched movie's (name, year, time). */
  predicate KeyClash(ms: seq<Movie>, i: nat, m: Movie)
    requires i < |ms|
  {
    exists j :: 0 <= j < |ms| && j != i && SameKey(ms[j], m)
  }

  /** Drops every association row of one movie or one entity. */
  function WithoutMovie(links: set<(MovieId, EntityId)>, id: MovieId): (r: set<(MovieId, EntityId)>)
    ensures forall p :: p in r <==> p in links && p.0 != id
  {
    set p | p in links && p.0 != id
  }

  function WithoutEntity(links: set<(MovieId, EntityId)>, id: EntityId): (r: set<(MovieId, EntityId)>)
    ensures forall p :: p in r <==> p in links && p.1 != id
  {
    set p | p in links && p.1 != id
  }

  /** Drops every user's favourite row of one movie. */
  function WithoutFavoritesOf(favorites: set<(UserId, MovieId)>, id: MovieId): (r: set<(UserId, MovieId)>)
    ensures forall p :: p in r <==> p in favorites && p.1 != id
  {
    set p | p in favorites && p.1 != id
  }

  lemma WithoutFavoritesKeepsMovies(favorites: set<(UserId, MovieId)>, mids: set<MovieId>, id: MovieId)
    requires forall p :: p in favorites ==> p.1 in mids
    ensures forall p :: p in WithoutFavoritesOf(favorites, id) ==> p.1 in mids - {id}
  {
  }

  lemma RemoveKeepsCertifications(ms: seq<Movie>, i: nat, certIds: set<EntityId>)
    requires i < |ms| && forall j :: 0 <= j < |ms| ==> ms[j].certification in certIds
    ensures forall j :: 0 <= j < |RemoveAt(ms, i)| ==> RemoveAt(ms, i)[j].certification in certIds
  {
  }

  lemma WithoutMovieKeepsLinks(links: set<(MovieId, EntityId)>, mids: set<MovieId>, eids: set<EntityId>, id: MovieId)
    requires LinksValid(links, mids, eids)
    ensures LinksValid(WithoutMovie(links, id), mids - {id}, eids)
  {
  }

  lemma WithoutEntityKeepsLinks(links: set<(MovieId, EntityId)>, mids: set<MovieId>, eids: set<EntityId>, id: EntityId)
    requires LinksValid(links, mids, eids)
    ensures LinksValid(WithoutEntity(links, id), mids, eids - {id})
  {
  }

  /** The association rows tying one movie to each of a set of entities. */
  function LinksFor(mid: MovieId, ids: set<EntityId>): (r: set<(MovieId, EntityId)>)
    ensures forall p :: p in r <==> p.0 == mid && p.1 in ids
  {
    set e | e in ids :: (mid, e)
  }

  lemma AppendKeepsMoviesValid(ms: seq<Movie>, next: nat, m: Movie)
    requires MoviesValid(ms, next) && m.id == next
    requires forall i :: 0 <= i < |ms| ==> !SameKey(ms[i], m)
    ensures MoviesValid(ms + [m], next + 1)
    ensures MovieIdsOf(ms + [m]) == MovieIdsOf(ms) + {m.id}
  {
    var r := ms + [m];
    assert forall i :: 0 <= i < |ms| ==> r[i] == ms[i];
    assert r[|ms|] == m;
    forall x | x in MovieIdsOf(ms) + {m.id}
      ensures x in MovieIdsOf(r)
    {
      if x != m.id {
        var j :| 0 <= j < |ms| && ms[j].id == x;
        assert r[j].id == x;
      }
    }
  }

  // ------------------------------------------------------------------
  // One entity table and its CRUD operations
  // ------------------------------------------------------------------

  /** `EntityCRUD(model)` over one of the four entity tables. */
  class EntityTable {
    const kind: EntityKind
    var rows: seq<Entity>
    /** The table's autoincrement counter. */
    var nextId: nat

    ghost predicate Valid()
      reads this
    {
      TableValid(rows, nextId)
    }

    constructor (kind: EntityKind)
      ensures Valid() && this.kind == kind && rows == []
    {
      this.kind := kind;
      rows := [];
      nextId := 1;
    }

    /** `get_or_create`: the entity with that name, added when there is none. */
    method GetOrCreate(name: string) returns (e: Entity)
      requires Valid()
      modifies this
      ensures Valid()
      ensures e.name == name && e in rows && e.id in IdsOf(rows)
      ensures old(FindName(rows, name)).Some? ==> e == old(rows)[old(FindName(rows, name)).value] && unchanged(this)
      ensures old(FindName(rows, name)).None? ==>
        e == Entity(old(nextId), name) && rows == old(rows) + [e] && nextId == old(nextId) + 1
      ensures IdsOf(rows) >= old(IdsOf(rows))
    {
      var found := FindName(rows, name);
      if found.Some? {
        e := rows[found.value];
        return;
      }
      e := Entity(nextId, name);
      AppendKeepsTableValid(rows, nextId, name);
      rows := rows + [e];
      nextId := nextId + 1;
      assert rows[|rows| - 1] == e;
    }

    /** `create`: a name already present is a conflict. */
    method Create(name: string) returns (r: Result<Entity, HttpError>)
      requires Valid()
      modifies this
      ensures Valid()
      ensures old(FindName(rows, name)).Some? ==>
        r == Err(HttpError(Conflict, "Object with name " + name + " already exists.")) && unchanged(this)
      ensures old(FindName(rows, name)).None? ==>
        r == Ok(Entity(old(nextId), name)) && rows == old(rows) + [r.value] && nextId == old(nextId) + 1
      ensures IdsOf(rows) >= old(IdsOf(rows))
    {
      if FindName(rows, name).Some? {
        return Err(HttpError(Conflict, "Object with name " + name + " already exists."));
      }
      var e := GetOrCreate(name);
      r := Ok(e);
    }

    /** `get_by_id`. */
    function GetById(id: int): (r: Result<Entity, HttpError>)
      reads this
      ensures r.Ok? <==> id in IdsOf(rows)
      ensures r.Ok? ==> r.value in rows && r.value.id == id
      ensures r.Err? ==> r.error == NotFoundById(id)
    {
      match FindId(rows, id)
      case None =>
        assert id !in IdsOf(rows);
        Err(NotFoundById(id))
      case Some(i) => Ok(rows[i])
    }

    /** Drops the row at index `i`. */
    method RemoveIndex(i: nat)
      requires Valid() && i < |rows|
      modifies this`rows
      ensures Valid()
      ensures rows == RemoveAt(old(rows), i)
      ensures IdsOf(rows) == old(IdsOf(rows)) - {old(rows[i].id)}
    {
      RemoveKeepsTableValid(rows, nextId, i);
      rows := RemoveAt(rows, i);
    }

    /** Whether an entity other than the one at index `i` already has the name. */
    predicate NameTakenByOther(i: nat, name: string)
      reads this
    {
      exists j :: 0 <= j < |rows| && j != i && rows[j].name == name
    }

    /** `update`: renames; another entity's name breaks the unique constraint at commit. */
    method Update(id: int, name: string) returns (r: Result<Entity, HttpError>)
      requires Valid()
      modifies this`rows
      ensures Valid()
      ensures IdsOf(rows) == old(IdsOf(rows))
      ensures old(GetById(id)).Err? ==> r == old(GetById(id)) && unchanged(this)
      ensures old(GetById(id)).Ok? ==>
        var i := old(FindId(rows, id)).value;
        && (old(NameTakenByOther(i, name)) ==> r == Err(HttpError(BadRequest, DatabaseErrorDetail)) && unchanged(this))
        && (!old(NameTakenByOther(i, name)) ==> r == Ok(Entity(id as nat, name)) && rows == old(rows)[i := r.value])
    {
      var found := FindId(rows, id);
      if found.None? {
        return Err(NotFoundById(id));
      }
      var i := found.value;
      if NameTakenByOther(i, name) {
        return Err(HttpError(BadRequest, DatabaseErrorDetail));
      }
      var e := Entity(rows[i].id, name);
      RenameKeepsTableValid(rows, nextId, i, name);
      rows := rows[i := e];
      r := Ok(e);
    }
  }

  // ------------------------------------------------------------------
  // The catalog's integrity constraints, on values
  // ------------------------------------------------------------------

  /** What the catalog's foreign keys see: the movies, the ids of each entity table and the association rows. */
  datatype CatalogState = CatalogState(
    movies: seq<Movie>, nextMovieId: nat,
    genreIds: set<EntityId>, starIds: set<EntityId>, directorIds: set<EntityId>, certificationIds: set<EntityId>,
    movieGenres: set<(MovieId, EntityId)>, movieStars: set<(MovieId, EntityId)>, movieDirectors: set<(MovieId, EntityId)>,
    favorites: set<(UserId, MovieId)>)

  /** The movie constraints, the certification foreign key and the association tables' foreign keys. */
  ghost predicate StateValid(s: CatalogState)
  {
    && MoviesValid(s.movies, s.nextMovieId)
    && (forall i :: 0 <= i < |s.movies| ==> s.movies[i].certification in s.certificationIds)
    && LinksValid(s.movieGenres, MovieIdsOf(s.movies), s.genreIds)
    && LinksValid(s.movieStars, MovieIdsOf(s.movies), s.starIds)
    && LinksValid(s.movieDirectors, MovieIdsOf(s.movies), s.directorIds)
    && (forall p :: p in s.favorites ==> p.1 in MovieIdsOf(s.movies))
  }

  /** New entities break no foreign key. */
  lemma StateGrows(s: CatalogState, g: set<EntityId>, st: set<EntityId>, d: set<EntityId>, ce: set<EntityId>)
    requires StateValid(s)
    requires s.genreIds <= g && s.starIds <= st && s.directorIds <= d && s.certificationIds <= ce
    ensures StateValid(s.(genreIds := g, starIds := st, directorIds := d, certificationIds := ce))
  {
  }

  /** The state after deleting entity `id` of a kind, with its association rows. */
  function AfterEntityDelete(s: CatalogState, kind: EntityKind, id: EntityId): CatalogState
  {
    match kind
    case Genre => s.(genreIds := s.genreIds - {id}, movieGenres := WithoutEntity(s.movieGenres, id))
    case Star => s.(starIds := s.starIds - {id}, movieStars := WithoutEntity(s.movieStars, id))
    case Director => s.(directorIds := s.directorIds - {id}, movieDirectors := WithoutEntity(s.movieDirectors, id))
    case Certification => s.(certificationIds := s.certificationIds - {id})
  }

  lemma EntityDeleteKeepsState(s: CatalogState, kind: EntityKind, id: EntityId)
    requires StateValid(s)
    requires kind == Certification ==> forall i :: 0 <= i < |s.movies| ==> s.movies[i].certification != id
    ensures StateValid(AfterEntityDelete(s, kind, id))
  {
    match kind {
      case Genre => WithoutEntityKeepsLinks(s.movieGenres, MovieIdsOf(s.movies), s.genreIds, id);
      case Star => WithoutEntityKeepsLinks(s.movieStars, MovieIdsOf(s.movies), s.starIds, id);
      case Director => WithoutEntityKeepsLinks(s.movieDirectors, MovieIdsOf(s.movies), s.directorIds, id);
      case Certification =>
    }
  }

  /** The state after deleting the movie at index `i`, with its association and favourite rows. */
  function AfterMovieDelete(s: CatalogState, i: nat): CatalogState
    requires i < |s.movies|
  {
    var id := s.movies[i].id;
    s.(movies := RemoveAt(s.movies, i),
       movieGenres := WithoutMovie(s.movieGenres, id),
       movieStars := WithoutMovie(s.movieStars, id),
       movieDirectors := WithoutMovie(s.movieDirectors, id),
       favorites := WithoutFavoritesOf(s.favorites, id))
  }

  lemma MovieDeleteKeepsState(s: CatalogState, i: nat)
    requires StateValid(s) && i < |s.movies|
    ensures StateValid(AfterMovieDelete(s, i))
  {
    var id := s.movies[i].id;
    var mids := MovieIdsOf(s.movies);
    RemoveKeepsMoviesValid(s.movies, s.nextMovieId, i);
    RemoveKeepsCertifications(s.movies, i, s.certificationIds);
    WithoutMovieKeepsLinks(s.movieGenres, mids, s.genreIds, id);
    WithoutMovieKeepsLinks(s.movieStars, mids, s.starIds, id);
    WithoutMovieKeepsLinks(s.movieDirectors, mids, s.directorIds, id);
    WithoutFavoritesKeepsMovies(s.favorites, mids, id);
  }

  /** The state after the commit of a new movie and its association rows. */
  function AfterInsert(s: CatalogState, m: Movie, g: set<EntityId>, st: set<EntityId>, d: set<EntityId>): CatalogState
  {
    s.(movies := s.movies + [m], nextMovieId := s.nextMovieId + 1,
       movieGenres := s.movieGenres + LinksFor(m.id, g),
       movieStars := s.movieStars + LinksFor(m.id, st),
       movieDirectors := s.movieDirectors + LinksFor(m.id, d))
  }

  lemma InsertKeepsState(s: CatalogState, m: Movie, g: set<EntityId>, st: set<EntityId>, d: set<EntityId>)
    requires StateValid(s) && m.id == s.nextMovieId && m.certification in s.certificationIds
    requires g <= s.genreIds && st <= s.starIds && d <= s.directorIds
    requires forall i :: 0 <= i < |s.movies| ==> !SameKey(s.movies[i], m)
    ensures StateValid(AfterInsert(s, m, g, st, d))
  {
    AppendKeepsMoviesValid(s.movies, s.nextMovieId, m);
    var r := s.movies + [m];
    assert forall i :: 0 <= i < |s.movies| ==> r[i] == s.movies[i];
  }

  /** Replacing a movie by a patched copy with the same id and certification. */
  lemma PatchKeepsState(s: CatalogState, i: nat, m: Movie)
    requires StateValid(s) && i < |s.movies|
    requires m.id == s.movies[i].id && m.certification == s.movies[i].certification
    requires !KeyClash(s.movies, i, m)
    ensures StateValid(s.(movies := s.movies[i := m]))
  {
    PatchKeepsMoviesValid(s.movies, s.nextMovieId, i, m);
  }

  // ------------------------------------------------------------------
  // The catalog
  // ------------------------------------------------------------------

  class CatalogStore {
    const genres: EntityTable
    const stars: EntityTable
    const directors: EntityTable
    const certifications: EntityTable
    var movies: seq<Movie>
    var movieGenres: set<(MovieId, EntityId)>
    var movieStars: set<(MovieId, EntityId)>
    var movieDirectors: set<(MovieId, EntityId)>
    var favorites: set<(UserId, MovieId)>
    var nextMovieId: nat

    function Table(kind: EntityKind): (t: EntityTable)
      ensures t.kind == kind || !Distinct()
    {
      match kind
      case Genre => genres
      case Star => stars
      case Director => directors
      case Certification => certifications
    }

    predicate Distinct()
    {
      && genres.kind == Genre && stars.kind == Star && directors.kind == Director && certifications.kind == Certification
    }

    /** The association table of a kind; certifications have none. */
    function Links(kind: EntityKind): set<(MovieId, EntityId)>
      reads this
    {
      match kind
      case Genre => movieGenres
      case Star => movieStars
      case Director => movieDirectors
      case Certification => {}
    }

    /** The movies naming a certification. */
    predicate CertificationInUse(id: EntityId)
      reads this
    {
      exists i :: 0 <= i < |movies| && movies[i].certification == id
    }

    ghost function State(): CatalogState
      reads this, genres, stars, directors, certifications
    {
      CatalogState(movies, nextMovieId, IdsOf(genres.rows), IdsOf(stars.rows), IdsOf(directors.rows),
                   IdsOf(certifications.rows), movieGenres, movieStars, movieDirectors, favorites)
    }

    /** Each table is valid and the catalog's foreign keys hold. */
    ghost predicate Valid()
      reads this, genres, stars, directors, certifications
    {
      && Distinct()
      && genres.Valid() && stars.Valid() && directors.Valid() && certifications.Valid()
      && StateValid(State())
    }

    constructor ()
      ensures Valid()
      ensures genres.rows == [] && stars.rows == [] && directors.rows == [] && certifications.rows == [] && movies == []
      ensures movieGenres == {} && movieStars == {} && movieDirectors == {} && favorites == {}
      ensures fresh(genres) && fresh(stars) && fresh(directors) && fresh(certifications)
    {
      genres := new EntityTable(Genre);
      stars := new EntityTable(Star);
      directors := new EntityTable(Director);
      certifications := new EntityTable(Certification);
      movies := [];
      movieGenres, movieStars, movieDirectors, favorites := {}, {}, {}, {};
      nextMovieId := 1;
    }

    /** `create` on one table. */
    method Create(kind: EntityKind, name: string) returns (r: Result<Entity, HttpError>)
      requires Valid()
      modifies Table(kind)
      ensures Valid()
      ensures old(FindName(Table(kind).rows, name)).Some? ==>
        r == Err(HttpError(Conflict, "Object with name " + name + " already exists.")) && unchanged(Table(kind))
      ensures old(FindName(Table(kind).rows, name)).None? ==>
        r == Ok(Entity(old(Table(kind).nextId), name)) && Table(kind).rows == old(Table(kind).rows) + [r.value]
    {
      ghost var s := State();
      r := Table(kind).Create(name);
      StateGrows(s, IdsOf(genres.rows), IdsOf(stars.rows), IdsOf(directors.rows), IdsOf(certifications.rows));
      assert State() == s.(genreIds := IdsOf(genres.rows), starIds := IdsOf(stars.rows),
                          directorIds := IdsOf(directors.rows), certificationIds := IdsOf(certifications.rows));
    }

    /** `update` on one table. */
    method Update(kind: EntityKind, id: int, name: string) returns (r: Result<Entity, HttpError>)
      requires Valid()
      modifies Table(kind)`rows
      ensures Valid()
      ensures old(Table(kind).GetById(id)).Err? ==> r == old(Table(kind).GetById(id)) && unchanged(Table(kind))
      ensures old(Table(kind).GetById(id)).Ok? ==>
        var i := old(FindId(Table(kind).rows, id)).value;
        && (old(Table(kind).NameTakenByOther(i, name)) ==>
              r == Err(HttpError(BadRequest, DatabaseErrorDetail)) && unchanged(Table(kind)))
        && (!old(Table(kind).NameTakenByOther(i, name)) ==>
              r == Ok(Entity(id as nat, name)) && Table(kind).rows == old(Table(kind).rows)[i := r.value])
    {
      ghost var s := State();
      r := Table(kind).Update(id, name);
      assert State() == s;
    }

    /** `delete` on an entity: its association rows go with it; a certification still in use cannot go. */
    method Delete(kind: EntityKind, id: int) returns (r: Result<(), HttpError>)
      requires Valid()
      modifies Table(kind)`rows, this`movieGenres, this`movieStars, this`movieDirectors
      ensures Valid()
      ensures old(Table(kind).GetById(id)).Err? ==> r == Err(NotFoundById(id)) && unchanged(this) && unchanged(Table(kind))
      ensures old(Table(kind).GetById(id)).Ok? && kind == Certification && old(CertificationInUse(id as nat)) ==>
        r == Err(HttpError(BadRequest, DatabaseErrorDetail)) && unchanged(this) && unchanged(Table(kind))
      ensures old(Table(kind).GetById(id)).Ok? && !(kind == Certification && old(CertificationInUse(id as nat))) ==>
        && r == Ok(())
        && Table(kind).rows == RemoveAt(old(Table(kind).rows), old(FindId(Table(kind).rows, id)).value)
        && State() == AfterEntityDelete(old(State()), kind, id as nat)
    {
      var t := Table(kind);
      var found := FindId(t.rows, id);
      if found.None? {
        return Err(NotFoundById(id));
      }
      var i := found.value;
      var eid := t.rows[i].id;
      if kind == Certification && CertificationInUse(eid) {
        return Err(HttpError(BadRequest, DatabaseErrorDetail));
      }
      ghost var s := State();
      assert forall j :: 0 <= j < |movies| ==> kind == Certification ==> movies[j].certification != eid;
      EntityDeleteKeepsState(s, kind, eid);
      t.RemoveIndex(i);
      match kind {
        case Genre => movieGenres := WithoutEntity(movieGenres, eid);
        case Star => movieStars := WithoutEntity(movieStars, eid);
        case Director => movieDirectors := WithoutEntity(movieDirectors, eid);
        case Certification =>
      }
      assert State() == AfterEntityDelete(s, kind, eid);
      r := Ok(());
    }

    /** The number of movies associated with an entity. */
    function MovieCount(kind: EntityKind, id: EntityId): nat
      reads this
    {
      if kind == Certification then |set i | 0 <= i < |movies| && movies[i].certification == id|
      else |set p | p in Links(kind) && p.1 == id|
    }

    /** The table's rows with their movie counts, in id order. */
    function Counts(kind: EntityKind): (r: seq<EntityCount>)
      reads this, Table(kind)
      ensures |r| == |Table(kind).rows|
      ensures forall i :: 0 <= i < |r| ==>
        r[i] == EntityCount(Table(kind).rows[i].id, Table(kind).rows[i].name, MovieCount(kind, Table(kind).rows[i].id))
    {
      var t := Table(kind).rows;
      seq(|t|, i requires 0 <= i < |t| reads this => EntityCount(t[i].id, t[i].name, MovieCount(kind, t[i].id)))
    }

    /** `get_all_with_movie_count`: an empty table is 404; a page past the end is an empty page. */
    function ListWithMovieCount(kind: EntityKind, page: int, perPage: int): (r: Result<Paging.Page<EntityCount>, HttpError>)
      reads this, Table(kind)
      ensures Paging.CheckPaging(page, perPage).Some? ==> r.Err? && r.error.status == UnprocessableEntity
      ensures Paging.CheckPaging(page, perPage).None? && |Table(kind).rows| == 0 ==> r == Err(HttpError(NotFound, "Not found"))
      ensures r.Ok? <==> Paging.CheckPaging(page, perPage).None? && |Table(kind).rows| > 0
      ensures r.Ok? ==>
        && r.value.totalItems == |Table(kind).rows|
        && |r.value.items| <= perPage
        && (|r.value.items| > 0 <==> page <= r.value.totalPages)
        && r.value == Paging.Paginate(Counts(kind), page as nat, perPage as nat, "/cinema/" + PathOf(kind) + "/")
    {
      match Paging.CheckPaging(page, perPage)
      case Some(e) => Err(e)
      case None =>
        if |Table(kind).rows| == 0 then Err(HttpError(NotFound, "Not found"))
        else
          Paging.WindowNonEmptyIff(Counts(kind), page as nat, perPage as nat);
          Ok(Paging.Paginate(Counts(kind), page as nat, perPage as nat, "/cinema/" + PathOf(kind) + "/"))
    }

    /** `movie_crud.get_by_id`. */
    function GetMovie(id: int): (r: Result<Movie, HttpError>)
      reads this
      ensures r.Ok? <==> id in MovieIdsOf(movies)
      ensures r.Ok? ==> r.value in movies && r.value.id == id
      ensures r.Err? ==> r.error == NotFoundById(id)
    {
      match FindMovie(movies, id)
      case None =>
        assert id !in MovieIdsOf(movies);
        Err(NotFoundById(id))
      case Some(i) => Ok(movies[i])
    }

    /** `update_movie`: applies the supplied fields; a clash on (name, year, time) fails at commit. */
    method UpdateMovie(id: int, patch: MoviePatch) returns (r: Result<Movie, HttpError>)
      requires Valid()
      modifies this`movies
      ensures Valid()
      ensures old(GetMovie(id)).Err? ==> r == old(GetMovie(id)) && unchanged(this)
      ensures old(GetMovie(id)).Ok? ==>
        var i := old(FindMovie(movies, id)).value;
        var m := ApplyPatch(old(movies)[i], patch);
        && (KeyClash(old(movies), i, m) ==> r == Err(HttpError(BadRequest, DatabaseErrorDetail)) && unchanged(this))
        && (!KeyClash(old(movies), i, m) ==> r == Ok(m) && movies == old(movies)[i := m])
    {
      var found := FindMovie(movies, id);
      if found.None? {
        return Err(NotFoundById(id));
      }
      var i := found.value;
      var m := ApplyPatch(movies[i], patch);
      if KeyClash(movies, i, m) {
        return Err(HttpError(BadRequest, DatabaseErrorDetail));
      }
      ghost var s := State();
      PatchKeepsState(s, i, m);
      movies := movies[i := m];
      assert State() == s.(movies := s.movies[i := m]);
      r := Ok(m);
    }

    /** `delete_movie`: the movie's association rows and favourites go with it. */
    method DeleteMovie(id: int) returns (r: Result<(), HttpError>)
      requires Valid()
      modifies this`movies, this`movieGenres, this`movieStars, this`movieDirectors, this`favorites
      ensures Valid()
      ensures old(GetMovie(id)).Err? ==> r == Err(NotFoundById(id)) && unchanged(this)
      ensures old(GetMovie(id)).Ok? ==>
        && r == Ok(())
        && movies == RemoveAt(old(movies), old(FindMovie(movies, id)).value)
        && MovieIdsOf(movies) == old(MovieIdsOf(movies)) - {id as nat}
        && movieGenres == WithoutMovie(old(movieGenres), id as nat)
        && movieStars == WithoutMovie(old(movieStars), id as nat)
        && movieDirectors == WithoutMovie(old(movieDirectors), id as nat)
        && favorites == WithoutFavoritesOf(old(favorites), id as nat)
    {
      var found := FindMovie(movies, id);
      if found.None? {
        return Err(NotFoundById(id));
      }
      var i := found.value;
      var mid := movies[i].id;
      ghost var s := State();
      MovieDeleteKeepsState(s, i);
      RemoveKeepsMoviesValid(movies, nextMovieId, i);
      movies := RemoveAt(movies, i);
      movieGenres := WithoutMovie(movieGenres, mid);
      movieStars := WithoutMovie(movieStars, mid);
      movieDirectors := WithoutMovie(movieDirectors, mid);
      favorites := WithoutFavoritesOf(favorites, mid);
      assert State() == AfterMovieDelete(s, i);
      r := Ok(());
    }

    /** `db.add(movie)` and the commit of `create_movie`: a new movie with its certification and associations. */
    method InsertMovie(name: string, year: int, time: int, votes: nat, description: string, priceCents: nat,
                       certId: EntityId, genreIds: set<EntityId>, starIds: set<EntityId>, directorIds: set<EntityId>)
      returns (m: Movie)
      requires Valid()
      requires certId in IdsOf(certifications.rows)
      requires genreIds <= IdsOf(genres.rows) && starIds <= IdsOf(stars.rows) && directorIds <= IdsOf(directors.rows)
      requires forall i :: 0 <= i < |movies| ==> !(movies[i].name == name && movies[i].year == year && movies[i].time == time)
      modifies this`movies, this`movieGenres, this`movieStars, this`movieDirectors, this`nextMovieId
      ensures Valid()
      ensures m == Movie(old(nextMovieId), name, year, time, votes, description, priceCents, certId)
      ensures State() == AfterInsert(old(State()), m, genreIds, starIds, directorIds)
    {
      m := Movie(nextMovieId, name, year, time, votes, description, priceCents, certId);
      ghost var s := State();
      InsertKeepsState(s, m, genreIds, starIds, directorIds);
      movies := movies + [m];
      nextMovieId := nextMovieId + 1;
      movieGenres := movieGenres + LinksFor(m.id, genreIds);
      movieStars := movieStars + LinksFor(m.id, starIds);
      movieDirectors := movieDirectors + LinksFor(m.id, directorIds);
      assert State() == AfterInsert(s, m, genreIds, starIds, directorIds);
    }

    /** `toggle_movie_favorite`: flips the (user, movie) pair's membership. */
    method ToggleFavorite(userId: UserId, movieId: int) returns (r: Result<FavoriteResponse, HttpError>)
      requires Valid()
      modifies this`favorites
      ensures Valid()
      ensures movieId !in old(MovieIdsOf(movies)) ==> r == Err(HttpError(NotFound, "Movie not found")) && unchanged(this)
      ensures movieId in old(MovieIdsOf(movies)) ==>
        var pair := (userId, movieId as nat);
        && (pair in old(favorites) ==>
              r == Ok(FavoriteResponse(movieId as nat, false, "Removed from favorites.")) && favorites == old(favorites) - {pair})
        && (pair !in old(favorites) ==>
              r == Ok(FavoriteResponse(movieId as nat, true, "Added to favorites.")) && favorites == old(favorites) + {pair})
      ensures r.Ok? ==> (r.value.isFavorite <==> (userId, r.value.movieId) in favorites)
    {
      if FindMovie(movies, movieId).None? {
        assert movieId !in MovieIdsOf(movies);
        return Err(HttpError(NotFound, "Movie not found"));
      }
      var pair := (userId, movieId as nat);
      if pair in favorites {
        favorites := favorites - {pair};
        r := Ok(FavoriteResponse(movieId as nat, false, "Removed from favorites."));
      } else {
        favorites := favorites + {pair};
        r := Ok(FavoriteResponse(movieId as nat, true, "Added to favorites."));
      }
    }
  }

  lemma PatchKeepsMoviesValid(ms: seq<Movie>, next: nat, i: nat, m: Movie)
    requires MoviesValid(ms, next) && i < |ms| && m.id == ms[i].id
    requires !KeyClash(ms, i, m)
    ensures MoviesValid(ms[i := m], next)
    ensures MovieIdsOf(ms[i := m]) == MovieIdsOf(ms)
  {
    var r := ms[i := m];
    assert forall j :: 0 <= j < |ms| ==> r[j].id == ms[j].id;
    forall a, b | 0 <= a < b < |r|
      ensures !SameKey(r[a], r[b])
    {
      if a == i {
        assert !SameKey(ms[b], m);
      } else if b == i {
        assert !SameKey(ms[a], m);
      }
    }
  }

  /** Toggling the same pair twice gives back the favourites one started with. */
  method ToggleTwiceRestores(c: CatalogStore, userId: UserId, movieId: int)
    returns (first: Result<FavoriteResponse, HttpError>, second: Result<FavoriteResponse, HttpError>)
    requires c.Valid()
    modifies c
    ensures c.Valid()
    ensures c.favorites == old(c.favorites)
    ensures first.Ok? <==> second.Ok?
    ensures first.Ok? ==> first.value.isFavorite != second.value.isFavorite
  {
    first := c.ToggleFavorite(userId, movieId);
    second := c.ToggleFavorite(userId, movieId);
  }

  /** Deleting the same entity twice: the second delete finds nothing. */
  method DeleteTwice(c: CatalogStore, kind: EntityKind, id: int)
    returns (first: Result<(), HttpError>, second: Result<(), HttpError>)
    requires c.Valid()
    modifies c, c.Table(kind)
    ensures c.Valid()
    ensures first.Ok? ==> second == Err(NotFoundById(id))
  {
    first := c.Delete(kind, id);
    second := c.Delete(kind, id);
  }
}
