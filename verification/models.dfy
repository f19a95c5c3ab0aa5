/** The rows the sync writes, and the store that holds them. The database of
    one user is a set of immutable maps and sequences: films keyed by slug,
    user-film rows keyed by film id, diary entries and watchlist items in
    table order, and the sync log. */
module Models {
  import opened Wrappers
  import opened Dates
  import opened Client

  /** A row of the films table. The JSON columns are lists of items, and an
      empty list stands for both `None` and `[]`. */
  datatype Film = Film(
    id: nat, slug: string, title: Option<string>, letterboxdId: Option<string>, year: Option<int>,
    runtime: Option<int>, rating: Option<real>, posterUrl: Option<string>,
    genres: seq<Item>, directors: seq<Item>, crew: map<string, seq<Item>>, cast: seq<Item>,
    countries: seq<Item>, languages: seq<Item>, studios: seq<Item>,
    tmdbId: Option<string>, imdbId: Option<string>)

  /** `Film(slug=slug)`: every other column is still NULL. */
  function NewFilm(id: nat, slug: string): (f: Film)
    ensures f.id == id && f.slug == slug && f.title.None? && f.year.None?
  {
    Film(id, slug, None, None, None, None, None, None, [], [], map[], [], [], [], [], None, None)
  }

  /** The columns the sync copies from a successful detail fetch; the title
      falls back to the slug when the fetched one is missing or empty. */
  function ApplyDetails(f: Film, d: FilmDetails): (r: Film)
    ensures r.id == f.id && r.slug == f.slug
    ensures r.title == (if d.title.Some? && d.title.value != "" then d.title else Some(f.slug))
    ensures r.year == d.year && r.letterboxdId == d.letterboxdId && r.tmdbId == d.tmdbId && r.imdbId == d.imdbId
    ensures r.countries == d.countries && r.languages == d.languages && r.studios == d.studios
    ensures r.runtime == d.runtime && r.rating == d.rating && r.posterUrl == d.poster
    ensures r.genres == d.genres && r.directors == d.directors && r.crew == d.crew && r.cast == d.cast
  {
    Film(f.id, f.slug,
         if d.title.Some? && d.title.value != "" then d.title else Some(f.slug),
         d.letterboxdId, d.year, d.runtime, d.rating, d.poster,
         d.genres, d.directors, d.crew, d.cast, d.countries, d.languages, d.studios,
         d.tmdbId, d.imdbId)
  }

  /** A fetch overwrites every column it copies: what the film held before,
      apart from its id and slug, does not show through. */
  lemma ApplyDetailsOverwrites(f: Film, g: Film, d: FilmDetails)
    requires f.id == g.id && f.slug == g.slug
    ensures ApplyDetails(f, d) == ApplyDetails(g, d)
  {
  }

  /** Applying the same details twice changes nothing more. */
  lemma ApplyDetailsIdempotent(f: Film, d: FilmDetails)
    ensures ApplyDetails(ApplyDetails(f, d), d) == ApplyDetails(f, d)
  {
  }

  /** A row of the user-films table. `updatedAt` is the clock reading of the
      last write. */
  datatype UserFilm = UserFilm(
    filmId: nat, watched: bool, rating: Option<real>, liked: Option<bool>, watchCount: Option<nat>,
    firstWatched: Option<Date>, lastWatched: Option<Date>, updatedAt: Option<int>)

  /** `UserFilm(film_id=..., watched=True)`: the other columns are NULL. */
  function NewUserFilm(filmId: nat): (u: UserFilm)
    ensures u.filmId == filmId && u.watched && u.rating.None? && u.liked.None? && u.watchCount.None?
  {
    UserFilm(filmId, true, None, None, None, None, None, None)
  }

  /** A row of the diary table, identified by the scraped entry id. */
  datatype DiaryEntry = DiaryEntry(
    letterboxdId: string, filmId: nat, watchedDate: Option<Date>, rating: Option<real>,
    rewatch: bool, liked: bool, updatedAt: Option<int>)

  /** The key entries are ordered by when a missing date must sort too: the
      watched date, with NULL as `datetime.min`. */
  function WatchKey(e: DiaryEntry): Date {
    e.watchedDate.GetOr(MinDate)
  }

  /** The profile columns `_sync_user` overwrites. */
  datatype Profile = Profile(displayName: Option<string>, bio: Option<string>, location: Option<string>, website: Option<string>)

  datatype SyncStatus = Completed | CompletedWithErrors | Failed

  datatype SyncLog = SyncLog(username: string, status: SyncStatus, itemsProcessed: Option<nat>, errorMessage: Option<string>)

  /** The database. `nextFilmId` is the id the next inserted film receives. */
  datatype Store = Store(
    films: map<string, Film>, nextFilmId: nat, userFilms: map<nat, UserFilm>,
    diary: seq<DiaryEntry>, watchlist: seq<nat>, profile: Option<Profile>, syncLogs: seq<SyncLog>)

  /** Films are stored under their own slug with distinct ids below
      `nextFilmId`, and user-film rows under their own film id. */
  ghost predicate Valid(s: Store) {
    && (forall slug :: slug in s.films ==> s.films[slug].slug == slug && s.films[slug].id < s.nextFilmId)
    && (forall a, b :: a in s.films && b in s.films && a != b ==> s.films[a].id != s.films[b].id)
    && (forall fid :: fid in s.userFilms ==> s.userFilms[fid].filmId == fid)
  }

  /** Validity depends only on the films, the id counter and the user-film rows. */
  lemma ValidIgnoresRest(s: Store, t: Store)
    requires t.films == s.films && t.nextFilmId == s.nextFilmId && t.userFilms == s.userFilms
    ensures Valid(s) ==> Valid(t)
  {
  }

  /** Python truthiness of a stored or scraped rating: NULL and 0 are falsy. */
  predicate Rated(r: Option<real>) {
    r.Some? && r.value != 0.0
  }
}
