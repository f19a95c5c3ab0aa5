/** The sync: it copies a user's watched films, diary and watchlist from the
    scraper into the store, fetching film details on first sight, and records
    the outcome in the sync log. Each step either returns a value or raises;
    a raise stops the sync, and the store keeps everything written before it,
    because the exception handler of the whole sync commits the session. */
module Sync {
  import opened Wrappers
  import opened Text
  import opened Dates
  import opened Client
  import opened Models

  /** What the library answers when asked for a film: the movie, or the
      message of the exception it raised. */
  type Fetcher = string -> Result<RawMovie>

  /** `client.get_film(slug)`. */
  function FetchDetails(fetch: Fetcher, slug: string): Result<FilmDetails> {
    match fetch(slug)
    case Failure(e) => Failure(e)
    case Success(movie) => GetFilm(slug, movie)
  }

  /** What a sync carries from step to step: the store, the failed fetches
      `(slug, message)` in order, and the slugs whose details were requested. */
  datatype Run = Run(store: Store, failed: seq<(string, string)>, fetched: seq<string>)

  datatype Step<T> = Ok(run: Run, value: T) | Raised(run: Run, message: string)

  /** The failed fetches among `slugs`, in order, each with the message the
      fetch failed with. */
  ghost function FailuresAmong(fetch: Fetcher, slugs: seq<string>): seq<(string, string)> {
    if |slugs| == 0 then []
    else
      var slug := slugs[|slugs| - 1];
      FailuresAmong(fetch, slugs[..|slugs| - 1])
        + (if FetchDetails(fetch, slug).Failure? then [(slug, FetchDetails(fetch, slug).error)] else [])
  }

  /** Every failure listed is a requested slug whose fetch failed with that message. */
  lemma {:induction false} FailuresAmongSound(fetch: Fetcher, slugs: seq<string>)
    ensures forall k :: 0 <= k < |FailuresAmong(fetch, slugs)| ==>
              && FailuresAmong(fetch, slugs)[k].0 in slugs
              && FetchDetails(fetch, FailuresAmong(fetch, slugs)[k].0) == Failure(FailuresAmong(fetch, slugs)[k].1)
  {
    if |slugs| > 0 {
      var init := slugs[..|slugs| - 1];
      FailuresAmongSound(fetch, init);
      var f := FailuresAmong(fetch, slugs);
      forall k | 0 <= k < |f|
        ensures f[k].0 in slugs && FetchDetails(fetch, f[k].0) == Failure(f[k].1)
      {
        if k < |FailuresAmong(fetch, init)| {
          assert f[k] == FailuresAmong(fetch, init)[k];
          assert f[k].0 in init;
        }
      }
    }
  }

  /** The run records exactly the failed fetches among the slugs it requested. */
  ghost predicate Recorded(fetch: Fetcher, run: Run) {
    run.failed == FailuresAmong(fetch, run.fetched)
  }

  /** None of the recorded failures was the rate limit. */
  ghost predicate Unthrottled(run: Run) {
    forall k :: 0 <= k < |run.failed| ==> !IsServiceUnavailable(run.failed[k].1)
  }

  /** A part of the sync that starts from `run` keeps the record of failed
      fetches exact, and when it returns normally none it added was the rate
      limit. */
  ghost predicate RecordKept<T>(fetch: Fetcher, run: Run, r: Step<T>) {
    && (Recorded(fetch, run) ==> Recorded(fetch, r.run))
    && (r.Ok? && Unthrottled(run) ==> Unthrottled(r.run))
  }

  const RateLimitedMessage := "Rate limited - sync will resume on next run"

  /** An error text that marks the site's rate limit. */
  predicate IsServiceUnavailable(msg: string) {
    Contains(msg, "503") || Contains(msg, "Service Unavailable")
  }

  // ---------------------------------------------------------------------------
  // _get_or_create_film
  // ---------------------------------------------------------------------------

  /** A film is (re)fetched when it is new or its title is still its slug, the
      mark a failed or skipped fetch leaves. */
  predicate NeedsDetails(films: map<string, Film>, slug: string) {
    slug !in films || films[slug].title == Some(slug)
  }

  /** The row `slug` resolves to before any fetch: the stored film or a new one
      with the next id. */
  function BaseFilm(s: Store, slug: string): (f: Film)
    ensures f.slug == slug || slug in s.films
  {
    if slug in s.films then s.films[slug] else NewFilm(s.nextFilmId, slug)
  }

  /** Writes `f` under slug `slug`, allocating its id when the slug is new. */
  function PutFilm(s: Store, slug: string, f: Film): Store {
    s.(films := s.films[slug := f], nextFilmId := if slug in s.films then s.nextFilmId else s.nextFilmId + 1)
  }

  /** `t` differs from `s` at most in the film stored under `slug` (which it
      holds, with the id `BaseFilm` gives) and in the id counter. */
  ghost predicate OnlyFilmChanged(s: Store, t: Store, slug: string) {
    && t == s.(films := t.films, nextFilmId := t.nextFilmId)
    && slug in t.films
    && t.films.Keys == s.films.Keys + {slug}
    && (forall x :: x in s.films && x != slug ==> t.films[x] == s.films[x])
    && t.films[slug].id == BaseFilm(s, slug).id
    && t.nextFilmId == (if slug in s.films then s.nextFilmId else s.nextFilmId + 1)
  }

  /** `_get_or_create_film(slug)`. */
  function GetOrCreateFilm(run: Run, slug: string, fetchDetails: bool, fetch: Fetcher): (r: Step<Film>)
    // a film that already has a real title is returned as is: no fetch, no write
    ensures !NeedsDetails(run.store.films, slug) ==> r == Ok(run, run.store.films[slug])
    ensures OnlyFilmChanged(run.store, r.run.store, slug)
    ensures r.Ok? ==> r.value == r.run.store.films[slug]
    ensures r.run.fetched == run.fetched + (if NeedsDetails(run.store.films, slug) && fetchDetails then [slug] else [])
    ensures r.run.failed == run.failed +
              (if NeedsDetails(run.store.films, slug) && fetchDetails && FetchDetails(fetch, slug).Failure?
               then [(slug, FetchDetails(fetch, slug).error)] else [])
    // only a rate-limit error aborts the sync; the film keeps what it had, or NULL columns when new
    ensures r.Raised? <==> NeedsDetails(run.store.films, slug) && fetchDetails && FetchDetails(fetch, slug).Failure?
                           && IsServiceUnavailable(FetchDetails(fetch, slug).error)
    ensures r.Raised? ==> r.message == RateLimitedMessage && r.run.store.films[slug] == BaseFilm(run.store, slug)
    // a skipped or failed fetch leaves the slug as the title
    ensures (NeedsDetails(run.store.films, slug) && r.Ok? && !(fetchDetails && FetchDetails(fetch, slug).Success?))
              ==> r.value.title == Some(slug)
    // a successful fetch fills the row; the title is the fetched one, or the slug when that is empty
    ensures (NeedsDetails(run.store.films, slug) && fetchDetails && FetchDetails(fetch, slug).Success?)
              ==> r.Ok? && r.value == ApplyDetails(BaseFilm(run.store, slug), FetchDetails(fetch, slug).value)
  {
    var films := run.store.films;
    if !NeedsDetails(films, slug) then Ok(run, films[slug])
    else
      var film := BaseFilm(run.store, slug);
      if !fetchDetails then
        var titled := film.(title := Some(slug));
        Ok(run.(store := PutFilm(run.store, slug, titled)), titled)
      else
        var fetched := run.fetched + [slug];
        match FetchDetails(fetch, slug)
        case Success(details) =>
          var filled := ApplyDetails(film, details);
          Ok(Run(PutFilm(run.store, slug, filled), run.failed, fetched), filled)
        case Failure(e) =>
          var failed := run.failed + [(slug, e)];
          if IsServiceUnavailable(e) then
            Raised(Run(PutFilm(run.store, slug, film), failed, fetched), RateLimitedMessage)
          else
            var titled := film.(title := Some(slug));
            Ok(Run(PutFilm(run.store, slug, titled), failed, fetched), titled)
  }

  /** Getting or creating a film keeps slugs and ids consistent and distinct. */
  lemma GetOrCreateFilmValid(run: Run, slug: string, fetchDetails: bool, fetch: Fetcher)
    ensures Valid(run.store) ==> Valid(GetOrCreateFilm(run, slug, fetchDetails, fetch).run.store)
  {
    if !Valid(run.store) {
      return;
    }
    var t := GetOrCreateFilm(run, slug, fetchDetails, fetch).run.store;
    var s := run.store;
    assert t.films[slug].slug == slug by {
      if NeedsDetails(s.films, slug) {
        assert BaseFilm(s, slug).slug == slug;
      }
    }
    forall a, b | a in t.films && b in t.films && a != b
      ensures t.films[a].id != t.films[b].id
    {
      if a == slug && slug !in s.films {
        assert t.films[b] == s.films[b];
      } else if b == slug && slug !in s.films {
        assert t.films[a] == s.films[a];
      }
    }
  }

  /** A fetch is recorded as it happens: a failure is appended exactly when
      the requested fetch failed, and one that lets the sync go on was not
      the rate limit. */
  lemma GetOrCreateFilmRecorded(run: Run, slug: string, fetchDetails: bool, fetch: Fetcher)
    ensures RecordKept(fetch, run, GetOrCreateFilm(run, slug, fetchDetails, fetch))
  {
    if NeedsDetails(run.store.films, slug) && fetchDetails {
      assert (run.fetched + [slug])[..|run.fetched|] == run.fetched;
    }
  }

  /** A new film whose fetch hit the rate limit is stored with a NULL title,
      which is not its slug: no later call fetches it again, whatever the
      network answers then. */
  lemma RateLimitedFilmStaysUnfetched(run: Run, slug: string, fetch: Fetcher, later: Run, fetchDetails: bool, fetch2: Fetcher)
    requires slug !in run.store.films
    requires GetOrCreateFilm(run, slug, true, fetch).Raised?
    requires later.store.films == GetOrCreateFilm(run, slug, true, fetch).run.store.films
    ensures later.store.films[slug].title.None?
    ensures GetOrCreateFilm(later, slug, fetchDetails, fetch2) == Ok(later, later.store.films[slug])
  {
    assert BaseFilm(run.store, slug) == NewFilm(run.store.nextFilmId, slug);
  }

  // ---------------------------------------------------------------------------
  // Facts every step keeps
  // ---------------------------------------------------------------------------

  /** Films are never removed and never change id. */
  ghost predicate FilmsKept(s: Store, t: Store) {
    forall x :: x in s.films ==> x in t.films && t.films[x].id == s.films[x].id
  }

  /** The failures recorded so far stay recorded; new ones are appended. */
  ghost predicate FailedKept(a: Run, b: Run) {
    |a.failed| <= |b.failed| && b.failed[..|a.failed|] == a.failed
  }

  lemma FailedKeptTransitive(a: Run, b: Run, c: Run)
    requires FailedKept(a, b) && FailedKept(b, c)
    ensures FailedKept(a, c)
  {
    assert c.failed[..|a.failed|] == c.failed[..|b.failed|][..|a.failed|];
  }

  lemma FilmsKeptTransitive(a: Store, b: Store, c: Store)
    requires FilmsKept(a, b) && FilmsKept(b, c)
    ensures FilmsKept(a, c)
  {
  }

  lemma GetOrCreateFilmKeepsFilms(run: Run, slug: string, fetchDetails: bool, fetch: Fetcher)
    ensures FilmsKept(run.store, GetOrCreateFilm(run, slug, fetchDetails, fetch).run.store)
  {
  }

  // ---------------------------------------------------------------------------
  // _sync_watched_films
  // ---------------------------------------------------------------------------

  /** The row a watched film gets: marked watched, the rating overwritten only
      by a truthy scraped rating, liked only ever switched on. */
  function MergeWatched(base: UserFilm, row: WatchedRow, now: int): (u: UserFilm)
    ensures u.filmId == base.filmId && u.watched
    ensures u.rating == base.rating || (Rated(u.rating) && u.rating == row.rating)
    ensures Rated(row.rating) ==> u.rating == row.rating
    ensures u.liked == (if row.liked then Some(true) else base.liked)
    ensures u.watchCount == base.watchCount && u.firstWatched == base.firstWatched && u.lastWatched == base.lastWatched
  {
    base.(watched := true,
          rating := if Rated(row.rating) then row.rating else base.rating,
          liked := if row.liked then Some(true) else base.liked,
          updatedAt := Some(now))
  }

  /** One iteration of the watched-films loop; the value is 1 when it created
      a user-film row. */
  function WatchedStep(run: Run, row: WatchedRow, fetchDetails: bool, fetch: Fetcher, now: int): (r: Step<nat>)
    ensures r.Ok? ==> r.value <= 1
    ensures FilmsKept(run.store, r.run.store)
    ensures WatchedMergeKeeps(run.store.userFilms, r.run.store.userFilms)
    ensures r.run.store.diary == run.store.diary && r.run.store.watchlist == run.store.watchlist
    ensures r.run.store.profile == run.store.profile && r.run.store.syncLogs == run.store.syncLogs
    ensures FailedKept(run, r.run) && (r.Raised? ==> r.message == RateLimitedMessage)
    ensures row.slug == "" ==> r == Ok(run, 0)
    ensures r.Raised? ==> r.run.store.userFilms == run.store.userFilms
    ensures r.Ok? ==> |r.run.store.userFilms| == |run.store.userFilms| + r.value
    ensures r.Ok? && row.slug != "" ==> WatchedIn(r.run.store, row.slug)
    ensures r.Ok? && row.slug != "" ==>
              var fid := r.run.store.films[row.slug].id;
              && r.run.store.userFilms.Keys == run.store.userFilms.Keys + {fid}
              && (r.value == 1 <==> fid !in run.store.userFilms)
              && r.run.store.userFilms[fid]
                 == MergeWatched(if fid in run.store.userFilms then run.store.userFilms[fid] else NewUserFilm(fid), row, now)
              && (forall x :: x in run.store.userFilms && x != fid ==> r.run.store.userFilms[x] == run.store.userFilms[x])
    ensures Valid(run.store) ==> Valid(r.run.store)
  {
    if row.slug == "" then Ok(run, 0)
    else
      GetOrCreateFilmValid(run, row.slug, fetchDetails, fetch);
      match GetOrCreateFilm(run, row.slug, fetchDetails, fetch)
      case Raised(run1, msg) => Raised(run1, msg)
      case Ok(run1, film) =>
        var (ufs, created) := UpsertWatched(run1.store.userFilms, film.id, row, now);
        Ok(run1.(store := run1.store.(userFilms := ufs)), created)
  }

  /** The user-film rows after merging a watched row into the row of film
      `fid`, which is created when missing; the count is 1 when it was. */
  function UpsertWatched(ufs: map<nat, UserFilm>, fid: nat, row: WatchedRow, now: int): (r: (map<nat, UserFilm>, nat))
    ensures r.0.Keys == ufs.Keys + {fid}
    ensures r.1 <= 1 && (r.1 == 1 <==> fid !in ufs)
    ensures |r.0| == |ufs| + r.1
    ensures r.0[fid] == MergeWatched(if fid in ufs then ufs[fid] else NewUserFilm(fid), row, now)
    ensures forall x :: x in ufs && x != fid ==> r.0[x] == ufs[x]
    ensures WatchedMergeKeeps(ufs, r.0)
    ensures (forall x :: x in ufs ==> ufs[x].filmId == x) ==> forall x :: x in r.0 ==> r.0[x].filmId == x
  {
    var created := fid !in ufs;
    var base := if created then NewUserFilm(fid) else ufs[fid];
    (ufs[fid := MergeWatched(base, row, now)], if created then 1 else 0)
  }

  /** A watched step records its failed fetches and adds no 503 failure
      when it returns normally. */
  lemma WatchedStepRecorded(run: Run, row: WatchedRow, fetchDetails: bool, fetch: Fetcher, now: int)
    ensures RecordKept(fetch, run, WatchedStep(run, row, fetchDetails, fetch, now))
  {
    if row.slug != "" {
      GetOrCreateFilmRecorded(run, row.slug, fetchDetails, fetch);
    }
  }

  /** The user-film rows after the merge: none removed, a liked row stays
      liked, and a rating only ever gives way to a truthy one. */
  ghost predicate WatchedMergeKeeps(u: map<nat, UserFilm>, v: map<nat, UserFilm>) {
    && u.Keys <= v.Keys
    && (forall x :: x in u && u[x].watched ==> v[x].watched)
    && (forall x :: x in u && u[x].liked == Some(true) ==> v[x].liked == Some(true))
    && (forall x :: x in u ==> v[x].rating == u[x].rating || Rated(v[x].rating))
  }

  lemma WatchedMergeKeepsTransitive(u: map<nat, UserFilm>, v: map<nat, UserFilm>, w: map<nat, UserFilm>)
    requires WatchedMergeKeeps(u, v) && WatchedMergeKeeps(v, w)
    ensures WatchedMergeKeeps(u, w)
  {
    forall x | x in u
      ensures w[x].rating == u[x].rating || Rated(w[x].rating)
    {
      assert v[x].rating == u[x].rating || Rated(v[x].rating);
    }
  }

  /** The film stored under `slug` has a user-film row marked watched. */
  ghost predicate WatchedIn(s: Store, slug: string) {
    slug in s.films && s.films[slug].id in s.userFilms && s.userFilms[s.films[slug].id].watched
  }

  lemma WatchedInKept(s: Store, t: Store, row: WatchedRow)
    requires FilmsKept(s, t) && WatchedMergeKeeps(s.userFilms, t.userFilms)
    requires row.slug != "" ==> WatchedIn(s, row.slug)
    ensures row.slug != "" ==> WatchedIn(t, row.slug)
  {
  }

  lemma WatchedRowsCons(rows: seq<WatchedRow>, s: Store)
    requires |rows| > 0
    requires rows[0].slug != "" ==> WatchedIn(s, rows[0].slug)
    requires forall k :: 0 <= k < |rows[1..]| && rows[1..][k].slug != "" ==> WatchedIn(s, rows[1..][k].slug)
    ensures forall k :: 0 <= k < |rows| && rows[k].slug != "" ==> WatchedIn(s, rows[k].slug)
  {
    forall k | 1 <= k < |rows| && rows[k].slug != "" ensures WatchedIn(s, rows[k].slug) {
      assert rows[k] == rows[1..][k - 1];
    }
  }

  /** The loop of `_sync_watched_films` over the normalised rows. */
  function SyncWatchedRows(run: Run, rows: seq<WatchedRow>, fetchDetails: bool, fetch: Fetcher, now: int): (r: Step<nat>)
    decreases |rows|
    ensures FilmsKept(run.store, r.run.store)
    ensures WatchedMergeKeeps(run.store.userFilms, r.run.store.userFilms)
    ensures r.run.store.diary == run.store.diary && r.run.store.watchlist == run.store.watchlist
    ensures r.run.store.profile == run.store.profile && r.run.store.syncLogs == run.store.syncLogs
    ensures FailedKept(run, r.run) && (r.Raised? ==> r.message == RateLimitedMessage)
    // the count is the number of user-film rows created
    ensures r.Ok? ==> |r.run.store.userFilms| == |run.store.userFilms| + r.value
    ensures Valid(run.store) ==> Valid(r.run.store)
  {
    if |rows| == 0 then Ok(run, 0)
    else
      match WatchedStep(run, rows[0], fetchDetails, fetch, now)
      case Raised(run1, msg) => Raised(run1, msg)
      case Ok(run1, c) =>
        match SyncWatchedRows(run1, rows[1..], fetchDetails, fetch, now)
        case Raised(run2, msg) =>
          WatchedMergeKeepsTransitive(run.store.userFilms, run1.store.userFilms, run2.store.userFilms);
          FailedKeptTransitive(run, run1, run2);
          Raised(run2, msg)
        case Ok(run2, n) =>
          WatchedMergeKeepsTransitive(run.store.userFilms, run1.store.userFilms, run2.store.userFilms);
          FailedKeptTransitive(run, run1, run2);
          Ok(run2, c + n)
  }

  /** Every scraped row with a slug ends up as a watched user-film row. */
  lemma {:induction false} SyncWatchedRowsMarksAll(run: Run, rows: seq<WatchedRow>, fetchDetails: bool, fetch: Fetcher, now: int)
    decreases |rows|
    ensures var r := SyncWatchedRows(run, rows, fetchDetails, fetch, now);
      r.Ok? ==> forall k :: 0 <= k < |rows| && rows[k].slug != "" ==> WatchedIn(r.run.store, rows[k].slug)
  {
    if |rows| > 0 {
      var s := WatchedStep(run, rows[0], fetchDetails, fetch, now);
      if s.Ok? {
        SyncWatchedRowsMarksAll(s.run, rows[1..], fetchDetails, fetch, now);
        var t := SyncWatchedRows(s.run, rows[1..], fetchDetails, fetch, now);
        if t.Ok? {
          WatchedInKept(s.run.store, t.run.store, rows[0]);
          WatchedRowsCons(rows, t.run.store);
        }
      }
    }
  }

  lemma {:induction false} SyncWatchedRowsRecorded(run: Run, rows: seq<WatchedRow>, fetchDetails: bool, fetch: Fetcher, now: int)
    decreases |rows|
    ensures RecordKept(fetch, run, SyncWatchedRows(run, rows, fetchDetails, fetch, now))
  {
    if |rows| > 0 {
      WatchedStepRecorded(run, rows[0], fetchDetails, fetch, now);
      var s := WatchedStep(run, rows[0], fetchDetails, fetch, now);
      if s.Ok? {
        SyncWatchedRowsRecorded(s.run, rows[1..], fetchDetails, fetch, now);
      }
    }
  }

  // ---------------------------------------------------------------------------
  // _sync_diary
  // ---------------------------------------------------------------------------

  /** The film slug of a diary row; an absent slug is as falsy as an empty one. */
  function SlugOf(row: DiaryRow): string {
    row.filmSlug.GetOr("")
  }

  /** The first diary row with entry id `id`, in table order. */
  function FindEntry(diary: seq<DiaryEntry>, id: string): (r: Option<nat>)
    ensures r.Some? ==> r.value < |diary| && diary[r.value].letterboxdId == id
    ensures r.Some? ==> forall j :: 0 <= j < r.value ==> diary[j].letterboxdId != id
    ensures r.None? ==> forall j :: 0 <= j < |diary| ==> diary[j].letterboxdId != id
  {
    if |diary| == 0 then None
    else if diary[0].letterboxdId == id then Some(0)
    else
      match FindEntry(diary[1..], id)
      case None => None
      case Some(i) => Some(i + 1)
  }

  /** The watched date of a new entry: the scraped text read with
      `strptime("%Y-%m-%d")`, NULL when the text is missing, empty or not a date. */
  function ParsedDate(date: Option<string>): (d: Option<Date>)
    ensures d.Some? ==> date.Some? && IsValid(d.value) && ParseIsoDate(date.value) == d
    ensures date.Some? && date.value != "" ==> d == ParseIsoDate(date.value)
  {
    if date.Some? && date.value != "" then ParseIsoDate(date.value) else None
  }

  /** An existing entry takes the scraped rating, rewatch flag and like; its id,
      film and watched date stay as they were. */
  function Overwrite(e: DiaryEntry, row: DiaryRow, now: int): (e2: DiaryEntry)
    ensures e2.letterboxdId == e.letterboxdId && e2.filmId == e.filmId && e2.watchedDate == e.watchedDate
    ensures e2.rating == row.rating && e2.rewatch == row.rewatch && e2.liked == row.liked
    ensures e2.updatedAt == Some(now)
  {
    e.(rating := row.rating, rewatch := row.rewatch, liked := row.liked, updatedAt := Some(now))
  }

  /** The entry a new diary row is inserted as. */
  function NewEntry(row: DiaryRow, filmId: nat): (e: DiaryEntry)
    ensures e.letterboxdId == row.id && e.filmId == filmId && e.watchedDate == ParsedDate(row.date)
    ensures e.rating == row.rating && e.rewatch == row.rewatch && e.liked == row.liked
  {
    DiaryEntry(row.id, filmId, ParsedDate(row.date), row.rating, row.rewatch, row.liked, None)
  }

  /** The entries of `d` are still in `d2`, at the same positions, with the same
      id, film and watched date. */
  ghost predicate DiaryKept(d: seq<DiaryEntry>, d2: seq<DiaryEntry>) {
    |d| <= |d2| &&
    forall i :: 0 <= i < |d| ==>
      d2[i].letterboxdId == d[i].letterboxdId && d2[i].filmId == d[i].filmId && d2[i].watchedDate == d[i].watchedDate
  }

  ghost predicate DistinctIds(d: seq<DiaryEntry>) {
    forall i, j :: 0 <= i < j < |d| ==> d[i].letterboxdId != d[j].letterboxdId
  }

  ghost predicate HasId(d: seq<DiaryEntry>, id: string) {
    exists i :: 0 <= i < |d| && d[i].letterboxdId == id
  }

  /** The diary upsert of one scraped row for film `fid`, keyed on the entry id:
      the first entry with that id is overwritten in place, or else a new entry
      is appended. The value is the number of entries inserted. */
  function Upsert(diary: seq<DiaryEntry>, row: DiaryRow, fid: nat, now: int): (r: (seq<DiaryEntry>, nat))
    ensures DiaryKept(diary, r.0)
    ensures DistinctIds(diary) ==> DistinctIds(r.0)
    ensures |r.0| == |diary| + r.1
    ensures HasId(r.0, row.id)
    ensures r.1 <= 1 && (r.1 == 1 <==> !HasId(diary, row.id))
    ensures FindEntry(diary, row.id).Some? ==>
              var i := FindEntry(diary, row.id).value;
              r.0 == diary[i := Overwrite(diary[i], row, now)]
    ensures FindEntry(diary, row.id).None? ==> r.0 == diary + [NewEntry(row, fid)]
  {
    match FindEntry(diary, row.id)
    case Some(i) =>
      var d2 := diary[i := Overwrite(diary[i], row, now)];
      assert d2[i].letterboxdId == row.id;
      (d2, 0)
    case None =>
      var d2 := diary + [NewEntry(row, fid)];
      assert d2[|diary|].letterboxdId == row.id;
      (d2, 1)
  }

  /** One iteration of the diary loop. The value is the number of entries
      inserted (0 or 1) and the id of the film whose aggregates are due. */
  function DiaryStep(run: Run, row: DiaryRow, fetchDetails: bool, fetch: Fetcher, now: int): (r: Step<(nat, Option<nat>)>)
    ensures FilmsKept(run.store, r.run.store)
    ensures r.run.store.userFilms == run.store.userFilms && r.run.store.watchlist == run.store.watchlist
    ensures r.run.store.profile == run.store.profile && r.run.store.syncLogs == run.store.syncLogs
    ensures FailedKept(run, r.run) && (r.Raised? ==> r.message == RateLimitedMessage)
    ensures SlugOf(row) == "" ==> r == Ok(run, (0, None))
    ensures r.Raised? ==> r.run.store.diary == run.store.diary
    ensures DiaryKept(run.store.diary, r.run.store.diary)
    ensures DistinctIds(run.store.diary) ==> DistinctIds(r.run.store.diary)
    ensures r.Ok? ==> |r.run.store.diary| == |run.store.diary| + r.value.0
    ensures r.Ok? && SlugOf(row) != "" ==>
              && SlugOf(row) in r.run.store.films
              && r.value.1 == Some(r.run.store.films[SlugOf(row)].id)
              && HasId(r.run.store.diary, row.id)
              && (r.run.store.diary, r.value.0) == Upsert(run.store.diary, row, r.run.store.films[SlugOf(row)].id, now)
    ensures Valid(run.store) ==> Valid(r.run.store)
  {
    var slug := SlugOf(row);
    if slug == "" then Ok(run, (0, None))
    else
      GetOrCreateFilmValid(run, slug, fetchDetails, fetch);
      match GetOrCreateFilm(run, slug, fetchDetails, fetch)
      case Raised(run1, msg) => Raised(run1, msg)
      case Ok(run1, film) =>
        var (d2, c) := Upsert(run1.store.diary, row, film.id, now);
        Ok(run1.(store := run1.store.(diary := d2)), (c, Some(film.id)))
  }

  /** A diary step records its failed fetches and adds no 503 failure
      when it returns normally. */
  lemma DiaryStepRecorded(run: Run, row: DiaryRow, fetchDetails: bool, fetch: Fetcher, now: int)
    ensures RecordKept(fetch, run, DiaryStep(run, row, fetchDetails, fetch, now))
  {
    if SlugOf(row) != "" {
      GetOrCreateFilmRecorded(run, SlugOf(row), fetchDetails, fetch);
    }
  }

  /** The film stored under `slug` is among the films due for aggregation. */
  ghost predicate Due(s: Store, slug: string, ids: set<nat>) {
    slug in s.films && s.films[slug].id in ids
  }

  /** Every row with a film slug is in the diary and its film is due. */
  ghost predicate DiaryRowsIn(s: Store, rows: seq<DiaryRow>, ids: set<nat>) {
    forall k :: 0 <= k < |rows| && SlugOf(rows[k]) != "" ==> HasId(s.diary, rows[k].id) && Due(s, SlugOf(rows[k]), ids)
  }

  /** Some row with a slug names the film stored under that slug with id `fid`. */
  ghost predicate Named(s: Store, rows: seq<DiaryRow>, fid: nat) {
    exists k :: 0 <= k < |rows| && SlugOf(rows[k]) != "" && SlugOf(rows[k]) in s.films && s.films[SlugOf(rows[k])].id == fid
  }

  /** A film some row names, that has diary entries: its aggregates are recomputed. */
  ghost predicate Recomputed(s: Store, rows: seq<DiaryRow>, fid: nat) {
    Named(s, rows, fid) && |EntriesFor(s.diary, fid)| > 0
  }

  lemma NamedStep(s: Store, t: Store, rows: seq<DiaryRow>, ids: set<nat>, fid: Option<nat>)
    requires |rows| > 0 && FilmsKept(s, t)
    requires fid.Some? ==> SlugOf(rows[0]) != "" && SlugOf(rows[0]) in s.films && s.films[SlugOf(rows[0])].id == fid.value
    requires forall x :: x in ids ==> Named(t, rows[1..], x)
    ensures forall x :: x in (if fid.Some? then ids + {fid.value} else ids) ==> Named(t, rows, x)
  {
    forall x | x in ids ensures Named(t, rows, x) {
      var k :| 0 <= k < |rows[1..]| && SlugOf(rows[1..][k]) != "" && SlugOf(rows[1..][k]) in t.films && t.films[SlugOf(rows[1..][k])].id == x;
      assert rows[k + 1] == rows[1..][k];
    }
    if fid.Some? {
      assert SlugOf(rows[0]) in t.films && t.films[SlugOf(rows[0])].id == fid.value;
    }
  }

  /** The due films are exactly the films the rows name. */
  lemma DueIsNamed(s: Store, rows: seq<DiaryRow>, ids: set<nat>)
    requires DiaryRowsIn(s, rows, ids)
    requires forall x :: x in ids ==> Named(s, rows, x)
    ensures forall x :: x in ids <==> Named(s, rows, x)
  {
    forall x | Named(s, rows, x) ensures x in ids {
      var k :| 0 <= k < |rows| && SlugOf(rows[k]) != "" && SlugOf(rows[k]) in s.films && s.films[SlugOf(rows[k])].id == x;
      assert Due(s, SlugOf(rows[k]), ids);
    }
  }

  lemma DiaryRowsInCons(rows: seq<DiaryRow>, s: Store, ids: set<nat>)
    requires |rows| > 0
    requires SlugOf(rows[0]) != "" ==> HasId(s.diary, rows[0].id) && Due(s, SlugOf(rows[0]), ids)
    requires DiaryRowsIn(s, rows[1..], ids)
    ensures DiaryRowsIn(s, rows, ids)
  {
    forall k | 1 <= k < |rows| && SlugOf(rows[k]) != ""
      ensures HasId(s.diary, rows[k].id) && Due(s, SlugOf(rows[k]), ids)
    {
      assert rows[k] == rows[1..][k - 1];
    }
  }

  lemma DiaryRowsInStep(s: Store, t: Store, rows: seq<DiaryRow>, ids: set<nat>, fid: Option<nat>)
    requires |rows| > 0 && FilmsKept(s, t) && DiaryKept(s.diary, t.diary)
    requires SlugOf(rows[0]) != "" ==>
               SlugOf(rows[0]) in s.films && fid == Some(s.films[SlugOf(rows[0])].id) && HasId(s.diary, rows[0].id)
    requires DiaryRowsIn(t, rows[1..], ids)
    ensures DiaryRowsIn(t, rows, if fid.Some? then ids + {fid.value} else ids)
  {
    var due := if fid.Some? then ids + {fid.value} else ids;
    if SlugOf(rows[0]) != "" {
      HasIdKept(s.diary, t.diary, rows[0].id);
    }
    DiaryRowsInCons(rows, t, due);
  }

  lemma HasIdKept(d: seq<DiaryEntry>, d2: seq<DiaryEntry>, id: string)
    requires DiaryKept(d, d2) && HasId(d, id)
    ensures HasId(d2, id)
  {
    var i :| 0 <= i < |d| && d[i].letterboxdId == id;
    assert d2[i].letterboxdId == id;
  }

  lemma DiaryKeptTransitive(a: seq<DiaryEntry>, b: seq<DiaryEntry>, c: seq<DiaryEntry>)
    requires DiaryKept(a, b) && DiaryKept(b, c)
    ensures DiaryKept(a, c)
  {
  }

  /** The loop of `_sync_diary`; the value is the number of entries inserted
      and the ids of the films whose aggregates are due. */
  function SyncDiaryRows(run: Run, rows: seq<DiaryRow>, fetchDetails: bool, fetch: Fetcher, now: int): (r: Step<(nat, set<nat>)>)
    decreases |rows|
    ensures FilmsKept(run.store, r.run.store)
    ensures r.run.store.userFilms == run.store.userFilms && r.run.store.watchlist == run.store.watchlist
    ensures r.run.store.profile == run.store.profile && r.run.store.syncLogs == run.store.syncLogs
    ensures FailedKept(run, r.run) && (r.Raised? ==> r.message == RateLimitedMessage)
    ensures DiaryKept(run.store.diary, r.run.store.diary)
    ensures DistinctIds(run.store.diary) ==> DistinctIds(r.run.store.diary)
    // the count is the number of entries inserted
    ensures r.Ok? ==> |r.run.store.diary| == |run.store.diary| + r.value.0
    ensures Valid(run.store) ==> Valid(r.run.store)
  {
    if |rows| == 0 then Ok(run, (0, {}))
    else
      match DiaryStep(run, rows[0], fetchDetails, fetch, now)
      case Raised(run1, msg) => Raised(run1, msg)
      case Ok(run1, (c, fid)) =>
        match SyncDiaryRows(run1, rows[1..], fetchDetails, fetch, now)
        case Raised(run2, msg) =>
          FailedKeptTransitive(run, run1, run2);
          DiaryKeptTransitive(run.store.diary, run1.store.diary, run2.store.diary);
          Raised(run2, msg)
        case Ok(run2, (n, ids)) =>
          FailedKeptTransitive(run, run1, run2);
          DiaryKeptTransitive(run.store.diary, run1.store.diary, run2.store.diary);
          var total: nat := c + n;
          Ok(run2, (total, if fid.Some? then ids + {fid.value} else ids))
  }

  /** The films due for aggregation: every row with a slug has its entry
      stored and its film due, and every due film is one a row names. */
  lemma {:induction false} SyncDiaryRowsDue(run: Run, rows: seq<DiaryRow>, fetchDetails: bool, fetch: Fetcher, now: int)
    decreases |rows|
    ensures var r := SyncDiaryRows(run, rows, fetchDetails, fetch, now);
      r.Ok? ==> DiaryRowsIn(r.run.store, rows, r.value.1) && forall x :: x in r.value.1 ==> Named(r.run.store, rows, x)
  {
    if |rows| > 0 {
      var s := DiaryStep(run, rows[0], fetchDetails, fetch, now);
      if s.Ok? {
        SyncDiaryRowsDue(s.run, rows[1..], fetchDetails, fetch, now);
        var t := SyncDiaryRows(s.run, rows[1..], fetchDetails, fetch, now);
        if t.Ok? {
          DiaryRowsInStep(s.run.store, t.run.store, rows, t.value.1, s.value.1);
          NamedStep(s.run.store, t.run.store, rows, t.value.1, s.value.1);
        }
      }
    }
  }

  lemma {:induction false} SyncDiaryRowsRecorded(run: Run, rows: seq<DiaryRow>, fetchDetails: bool, fetch: Fetcher, now: int)
    decreases |rows|
    ensures RecordKept(fetch, run, SyncDiaryRows(run, rows, fetchDetails, fetch, now))
  {
    if |rows| > 0 {
      DiaryStepRecorded(run, rows[0], fetchDetails, fetch, now);
      var s := DiaryStep(run, rows[0], fetchDetails, fetch, now);
      if s.Ok? {
        SyncDiaryRowsRecorded(s.run, rows[1..], fetchDetails, fetch, now);
      }
    }
  }

  // ---------------------------------------------------------------------------
  // _update_user_film_aggregates
  // ---------------------------------------------------------------------------

  /** The diary entries of film `fid`, in table order. */
  function EntriesFor(diary: seq<DiaryEntry>, fid: nat): (r: seq<DiaryEntry>)
    ensures |r| <= |diary|
    ensures forall e :: multiset(r)[e] == (if e.filmId == fid then multiset(diary)[e] else 0)
    ensures forall e :: e in r <==> e in diary && e.filmId == fid
  {
    if |diary| == 0 then []
    else
      assert diary == [diary[0]] + diary[1..];
      (if diary[0].filmId == fid then [diary[0]] else []) + EntriesFor(diary[1..], fid)
  }

  /** The non-NULL watched dates of `es`. */
  function DatesOf(es: seq<DiaryEntry>): (ds: seq<Date>)
    ensures forall d :: d in ds <==> exists e :: e in es && e.watchedDate == Some(d)
  {
    if |es| == 0 then []
    else
      assert es == [es[0]] + es[1..];
      (if es[0].watchedDate.Some? then [es[0].watchedDate.value] else []) + DatesOf(es[1..])
  }

  /** `min(dates)`. */
  function EarliestDate(ds: seq<Date>): (d: Date)
    requires |ds| > 0
    ensures d in ds && forall x :: x in ds ==> NotAfter(d, x)
  {
    if |ds| == 1 then ds[0]
    else
      var m := EarliestDate(ds[1..]);
      assert forall x :: x in ds ==> x == ds[0] || x in ds[1..];
      if Before(ds[0], m) then ds[0] else m
  }

  /** `max(dates)`. */
  function LatestDate(ds: seq<Date>): (d: Date)
    requires |ds| > 0
    ensures d in ds && forall x :: x in ds ==> NotAfter(x, d)
  {
    if |ds| == 1 then ds[0]
    else
      var m := LatestDate(ds[1..]);
      assert forall x :: x in ds ==> x == ds[0] || x in ds[1..];
      if Before(m, ds[0]) then ds[0] else m
  }

  predicate SomeRated(es: seq<DiaryEntry>) {
    exists j :: 0 <= j < |es| && Rated(es[j].rating)
  }

  /** Entry `i` is what `max(rated_entries, key=...)` picks: a rated entry with
      the greatest key, and the first such one. */
  ghost predicate LatestRatedAt(es: seq<DiaryEntry>, i: int) {
    && 0 <= i < |es| && Rated(es[i].rating)
    && (forall j :: 0 <= j < |es| && Rated(es[j].rating) ==> NotAfter(WatchKey(es[j]), WatchKey(es[i])))
    && (forall j :: 0 <= j < i && Rated(es[j].rating) ==> Before(WatchKey(es[j]), WatchKey(es[i])))
  }

  function LatestRatedIndex(es: seq<DiaryEntry>): (i: nat)
    requires SomeRated(es)
    ensures LatestRatedAt(es, i)
  {
    var n := |es| - 1;
    if !SomeRated(es[..n]) then
      assert forall j :: 0 <= j < n ==> es[..n][j] == es[j];
      n
    else
      var i := LatestRatedIndex(es[..n]);
      assert forall j :: 0 <= j < n ==> es[..n][j] == es[j];
      if Rated(es[n].rating) && Before(WatchKey(es[i]), WatchKey(es[n])) then n else i
  }

  /** The aggregates of one film, recomputed from its (non-empty) entries. */
  function Aggregate(base: UserFilm, es: seq<DiaryEntry>, now: int): (u: UserFilm)
    requires |es| > 0
    ensures u.filmId == base.filmId && u.watched == base.watched
    ensures u.watchCount == Some(|es|)
    ensures u.liked == Some(exists e :: e in es && e.liked)
    // first and last watched: the earliest and latest known dates, kept when none is known
    ensures (exists e :: e in es && e.watchedDate.Some?) ==>
              && u.firstWatched.Some? && u.lastWatched.Some?
              && (exists e :: e in es && e.watchedDate == u.firstWatched)
              && (exists e :: e in es && e.watchedDate == u.lastWatched)
              && (forall e :: e in es && e.watchedDate.Some? ==>
                    NotAfter(u.firstWatched.value, e.watchedDate.value) && NotAfter(e.watchedDate.value, u.lastWatched.value))
              && NotAfter(u.firstWatched.value, u.lastWatched.value)
    ensures !(exists e :: e in es && e.watchedDate.Some?) ==>
              u.firstWatched == base.firstWatched && u.lastWatched == base.lastWatched
    // the rating of the latest rated entry, kept when no entry is rated
    ensures SomeRated(es) ==> exists i :: LatestRatedAt(es, i) && u.rating == es[i].rating
    ensures !SomeRated(es) ==> u.rating == base.rating
  {
    var ds := DatesOf(es);
    var first := if |ds| > 0 then Some(EarliestDate(ds)) else base.firstWatched;
    var last := if |ds| > 0 then Some(LatestDate(ds)) else base.lastWatched;
    assert (exists e :: e in es && e.watchedDate.Some?) ==> |ds| > 0 by {
      if e :| e in es && e.watchedDate.Some? {
        assert e.watchedDate.value in ds;
      }
    }
    var rating := if SomeRated(es) then es[LatestRatedIndex(es)].rating else base.rating;
    base.(watchCount := Some(|es|),
          liked := Some(exists j :: 0 <= j < |es| && es[j].liked),
          firstWatched := first,
          lastWatched := last,
          rating := rating,
          updatedAt := Some(now))
  }

  /** The row aggregates are written to: the film's user-film row, or a new one. */
  function UserFilmOrNew(s: Store, fid: nat): (u: UserFilm)
    ensures fid in s.userFilms ==> u == s.userFilms[fid]
    ensures fid !in s.userFilms ==> u == NewUserFilm(fid)
  {
    if fid in s.userFilms then s.userFilms[fid] else NewUserFilm(fid)
  }

  /** `_update_user_film_aggregates(film_ids)`. */
  function UpdateAggregates(s: Store, ids: set<nat>, now: int): (t: Store)
    ensures t == s.(userFilms := t.userFilms)
    ensures forall fid :: fid in t.userFilms <==> fid in s.userFilms || (fid in ids && |EntriesFor(s.diary, fid)| > 0)
    ensures forall fid :: fid in ids && |EntriesFor(s.diary, fid)| > 0 ==>
              t.userFilms[fid] == Aggregate(UserFilmOrNew(s, fid), EntriesFor(s.diary, fid), now)
    // no row moves to another film
    ensures forall fid :: fid in t.userFilms ==> t.userFilms[fid].filmId == UserFilmOrNew(s, fid).filmId
    // films not asked for, and films without entries, are left alone
    ensures forall fid :: fid in s.userFilms && !(fid in ids && |EntriesFor(s.diary, fid)| > 0) ==>
              t.userFilms[fid] == s.userFilms[fid]
  {
    var touched := set fid | fid in ids && |EntriesFor(s.diary, fid)| > 0;
    var ufs := map fid | fid in s.userFilms.Keys + touched ::
                 if fid in touched then Aggregate(UserFilmOrNew(s, fid), EntriesFor(s.diary, fid), now)
                 else s.userFilms[fid];
    s.(userFilms := ufs)
  }

  /** Recomputed rows stay under their own film. */
  lemma UpdateAggregatesValid(s: Store, ids: set<nat>, now: int)
    ensures Valid(s) ==> Valid(UpdateAggregates(s, ids, now))
  {
    var t := UpdateAggregates(s, ids, now);
    if Valid(s) {
      forall fid | fid in t.userFilms ensures t.userFilms[fid].filmId == fid {
        assert t.userFilms[fid].filmId == UserFilmOrNew(s, fid).filmId;
      }
    }
  }


  /** After aggregation a film's watch count is the number of its diary
      entries, and it is liked exactly when one of them is. */
  lemma AggregateCounts(s: Store, ids: set<nat>, now: int, fid: nat)
    requires fid in ids && |EntriesFor(s.diary, fid)| > 0
    ensures fid in UpdateAggregates(s, ids, now).userFilms
    ensures UpdateAggregates(s, ids, now).userFilms[fid].watchCount == Some(|EntriesFor(s.diary, fid)|)
    ensures UpdateAggregates(s, ids, now).userFilms[fid].liked
         == Some(exists e :: e in s.diary && e.filmId == fid && e.liked)
  {
    var es := EntriesFor(s.diary, fid);
    var u := Aggregate(UserFilmOrNew(s, fid), es, now);
    assert UpdateAggregates(s, ids, now).userFilms[fid] == u;
    assert (exists e :: e in es && e.liked) == (exists e :: e in s.diary && e.filmId == fid && e.liked);
  }

  /** `_sync_diary`: the loop, then the aggregates of every film it touched.
      The value is the number of entries inserted. */
  function SyncDiary(run: Run, rows: seq<DiaryRow>, fetchDetails: bool, fetch: Fetcher, now: int): (r: Step<nat>)
    ensures FilmsKept(run.store, r.run.store)
    ensures r.run.store.watchlist == run.store.watchlist
    ensures r.run.store.profile == run.store.profile && r.run.store.syncLogs == run.store.syncLogs
    ensures FailedKept(run, r.run) && (r.Raised? ==> r.message == RateLimitedMessage)
    ensures DiaryKept(run.store.diary, r.run.store.diary)
    ensures DistinctIds(run.store.diary) ==> DistinctIds(r.run.store.diary)
    ensures r.Ok? ==> |r.run.store.diary| == |run.store.diary| + r.value
    ensures run.store.userFilms.Keys <= r.run.store.userFilms.Keys
    // every film a scraped row names, and that has entries, has its aggregates recomputed
    ensures r.Ok? ==> forall k :: 0 <= k < |rows| && SlugOf(rows[k]) != "" ==>
              && SlugOf(rows[k]) in r.run.store.films
              && var fid := r.run.store.films[SlugOf(rows[k])].id;
                 |EntriesFor(r.run.store.diary, fid)| > 0 ==>
                   fid in r.run.store.userFilms
                   && r.run.store.userFilms[fid].watchCount == Some(|EntriesFor(r.run.store.diary, fid)|)
    // exactly the named films with entries get a row, recomputed from the film's
    // row before the sync (or a new one); every other row stays as it was
    ensures r.Raised? ==> r.run.store.userFilms == run.store.userFilms
    ensures r.Ok? ==> forall fid :: fid in r.run.store.userFilms <==> fid in run.store.userFilms || Recomputed(r.run.store, rows, fid)
    ensures r.Ok? ==> forall fid :: Recomputed(r.run.store, rows, fid) ==>
              r.run.store.userFilms[fid] ==
                Aggregate(if fid in run.store.userFilms then run.store.userFilms[fid] else NewUserFilm(fid),
                          EntriesFor(r.run.store.diary, fid), now)
    ensures r.Ok? ==> forall fid :: fid in run.store.userFilms && !Recomputed(r.run.store, rows, fid) ==>
              r.run.store.userFilms[fid] == run.store.userFilms[fid]
    ensures Valid(run.store) ==> Valid(r.run.store)
  {
    SyncDiaryRowsDue(run, rows, fetchDetails, fetch, now);
    match SyncDiaryRows(run, rows, fetchDetails, fetch, now)
    case Raised(run1, msg) => Raised(run1, msg)
    case Ok(run1, (count, ids)) =>
      DueIsNamed(run1.store, rows, ids);
      UpdateAggregatesValid(run1.store, ids, now);
      var t := UpdateAggregates(run1.store, ids, now);
      assert forall fid :: Named(t, rows, fid) <==> Named(run1.store, rows, fid);
      Ok(run1.(store := t), count)
  }

  /** The aggregation fetches nothing: the record is the loop's. */
  lemma SyncDiaryRecorded(run: Run, rows: seq<DiaryRow>, fetchDetails: bool, fetch: Fetcher, now: int)
    ensures RecordKept(fetch, run, SyncDiary(run, rows, fetchDetails, fetch, now))
  {
    SyncDiaryRowsRecorded(run, rows, fetchDetails, fetch, now);
  }

  // ---------------------------------------------------------------------------
  // _sync_watchlist
  // ---------------------------------------------------------------------------

  function ItemSlug(row: WatchRow): string {
    row.slug.GetOr("")
  }

  /** `w2` is `w` with items appended, none of which was in `existing`. */
  ghost predicate AppendedOnly(w: seq<nat>, w2: seq<nat>, existing: set<nat>) {
    |w| <= |w2| && w2[..|w|] == w && forall i :: |w| <= i < |w2| ==> w2[i] !in existing
  }

  /** The ids of the films (as stored in `films`) that rows name and that are not
      in `existing`, in row order and with repeats. */
  ghost function NewItems(films: map<string, Film>, rows: seq<WatchRow>, existing: set<nat>): seq<nat> {
    if |rows| == 0 then []
    else
      var slug := ItemSlug(rows[0]);
      (if slug != "" && slug in films && films[slug].id !in existing then [films[slug].id] else []) + NewItems(films, rows[1..], existing)
  }

  /** The film of a row with a slug is on the watchlist `w`, or was before the sync. */
  ghost predicate Listed(s: Store, row: WatchRow, existing: set<nat>) {
    ItemSlug(row) != "" ==> ItemSlug(row) in s.films && (s.films[ItemSlug(row)].id in existing || s.films[ItemSlug(row)].id in s.watchlist)
  }

  /** One iteration of the watchlist loop; the value is 1 when it added an item. */
  function WatchlistStep(run: Run, row: WatchRow, existing: set<nat>, fetchDetails: bool, fetch: Fetcher): (r: Step<nat>)
    ensures FilmsKept(run.store, r.run.store)
    ensures r.run.store.userFilms == run.store.userFilms && r.run.store.diary == run.store.diary
    ensures r.run.store.profile == run.store.profile && r.run.store.syncLogs == run.store.syncLogs
    ensures FailedKept(run, r.run) && (r.Raised? ==> r.message == RateLimitedMessage)
    ensures ItemSlug(row) == "" ==> r == Ok(run, 0)
    ensures AppendedOnly(run.store.watchlist, r.run.store.watchlist, existing)
    ensures r.Ok? ==> |r.run.store.watchlist| == |run.store.watchlist| + r.value
    ensures r.Ok? ==> Listed(r.run.store, row, existing)
    ensures r.Ok? ==> r.value <= 1
    ensures r.Ok? && ItemSlug(row) != "" ==>
              (r.value == 1 <==> r.run.store.films[ItemSlug(row)].id !in existing)
    // the one item appended is this row's film
    ensures r.Ok? && r.value == 1 ==>
              r.run.store.watchlist == run.store.watchlist + [r.run.store.films[ItemSlug(row)].id]
    ensures r.Ok? && r.value == 0 ==> r.run.store.watchlist == run.store.watchlist
    ensures Valid(run.store) ==> Valid(r.run.store)
  {
    var slug := ItemSlug(row);
    if slug == "" then Ok(run, 0)
    else
      GetOrCreateFilmValid(run, slug, fetchDetails, fetch);
      match GetOrCreateFilm(run, slug, fetchDetails, fetch)
      case Raised(run1, msg) => Raised(run1, msg)
      case Ok(run1, film) =>
        if film.id !in existing then
          var w := run1.store.watchlist + [film.id];
          assert w[|run1.store.watchlist|] == film.id;
          Ok(run1.(store := run1.store.(watchlist := w)), 1)
        else Ok(run1, 0)
  }

  /** A watchlist step records its failed fetches and adds no 503 failure
      when it returns normally. */
  lemma WatchlistStepRecorded(run: Run, row: WatchRow, existing: set<nat>, fetchDetails: bool, fetch: Fetcher)
    ensures RecordKept(fetch, run, WatchlistStep(run, row, existing, fetchDetails, fetch))
  {
    if ItemSlug(row) != "" {
      GetOrCreateFilmRecorded(run, ItemSlug(row), fetchDetails, fetch);
    }
  }

  lemma ListedKept(s: Store, t: Store, row: WatchRow, existing: set<nat>)
    requires FilmsKept(s, t) && AppendedOnly(s.watchlist, t.watchlist, existing)
    requires Listed(s, row, existing)
    ensures Listed(t, row, existing)
  {
    if ItemSlug(row) != "" && s.films[ItemSlug(row)].id in s.watchlist {
      var i :| 0 <= i < |s.watchlist| && s.watchlist[i] == s.films[ItemSlug(row)].id;
      assert t.watchlist[i] == s.watchlist[i];
    }
  }

  lemma ListedCons(rows: seq<WatchRow>, s: Store, existing: set<nat>)
    requires |rows| > 0 && Listed(s, rows[0], existing)
    requires forall k :: 0 <= k < |rows[1..]| ==> Listed(s, rows[1..][k], existing)
    ensures forall k :: 0 <= k < |rows| ==> Listed(s, rows[k], existing)
  {
    forall k | 1 <= k < |rows| ensures Listed(s, rows[k], existing) {
      assert rows[k] == rows[1..][k - 1];
    }
  }

  /** The loop of `_sync_watchlist` against the film ids listed before it ran. */
  function SyncWatchlistRows(run: Run, rows: seq<WatchRow>, existing: set<nat>, fetchDetails: bool, fetch: Fetcher): (r: Step<nat>)
    decreases |rows|
    ensures FilmsKept(run.store, r.run.store)
    ensures r.run.store.userFilms == run.store.userFilms && r.run.store.diary == run.store.diary
    ensures r.run.store.profile == run.store.profile && r.run.store.syncLogs == run.store.syncLogs
    ensures FailedKept(run, r.run) && (r.Raised? ==> r.message == RateLimitedMessage)
    // add-only: the items already there stay, and only films not listed before are added
    ensures AppendedOnly(run.store.watchlist, r.run.store.watchlist, existing)
    // the count is the number of scraped films that were not listed before
    ensures r.Ok? ==> r.value == |NewItems(r.run.store.films, rows, existing)|
    ensures r.Ok? ==> r.run.store.watchlist == run.store.watchlist + NewItems(r.run.store.films, rows, existing)
    ensures r.Ok? ==> forall k :: 0 <= k < |rows| ==> Listed(r.run.store, rows[k], existing)
    ensures Valid(run.store) ==> Valid(r.run.store)
  {
    if |rows| == 0 then Ok(run, 0)
    else
      match WatchlistStep(run, rows[0], existing, fetchDetails, fetch)
      case Raised(run1, msg) => Raised(run1, msg)
      case Ok(run1, c) =>
        match SyncWatchlistRows(run1, rows[1..], existing, fetchDetails, fetch)
        case Raised(run2, msg) =>
          AppendedOnlyTransitive(run.store.watchlist, run1.store.watchlist, run2.store.watchlist, existing);
          FailedKeptTransitive(run, run1, run2);
          Raised(run2, msg)
        case Ok(run2, n) =>
          AppendedOnlyTransitive(run.store.watchlist, run1.store.watchlist, run2.store.watchlist, existing);
          FailedKeptTransitive(run, run1, run2);
          WatchlistItemsJoin(run.store, run1.store, run2.store, rows, existing, c, n);
          ListedJoin(run1.store, run2.store, rows, existing);
          Ok(run2, c + n)
  }

  lemma {:induction false} SyncWatchlistRowsRecorded(run: Run, rows: seq<WatchRow>, existing: set<nat>, fetchDetails: bool, fetch: Fetcher)
    decreases |rows|
    ensures RecordKept(fetch, run, SyncWatchlistRows(run, rows, existing, fetchDetails, fetch))
  {
    if |rows| > 0 {
      WatchlistStepRecorded(run, rows[0], existing, fetchDetails, fetch);
      var s := WatchlistStep(run, rows[0], existing, fetchDetails, fetch);
      if s.Ok? {
        SyncWatchlistRowsRecorded(s.run, rows[1..], existing, fetchDetails, fetch);
      }
    }
  }

  /** One watchlist row, then the rest: the items the loop appends are this
      row's film when it was not listed before, then the rest's. */
  lemma WatchlistItemsJoin(s: Store, s1: Store, s2: Store, rows: seq<WatchRow>, existing: set<nat>, c: nat, n: nat)
    requires |rows| > 0 && FilmsKept(s1, s2)
    requires ItemSlug(rows[0]) == "" ==> c == 0
    requires ItemSlug(rows[0]) != "" ==>
               ItemSlug(rows[0]) in s1.films && (c == 1 <==> s1.films[ItemSlug(rows[0])].id !in existing) && c <= 1
    requires c == 1 ==> s1.watchlist == s.watchlist + [s1.films[ItemSlug(rows[0])].id]
    requires c == 0 ==> s1.watchlist == s.watchlist
    requires n == |NewItems(s2.films, rows[1..], existing)|
    requires s2.watchlist == s1.watchlist + NewItems(s2.films, rows[1..], existing)
    ensures c + n == |NewItems(s2.films, rows, existing)|
    ensures s2.watchlist == s.watchlist + NewItems(s2.films, rows, existing)
  {
    NewItemsStep(s1, s2, rows, existing, c);
    var head := if c == 1 then [s1.films[ItemSlug(rows[0])].id] else [];
    assert s2.watchlist == s.watchlist + head + NewItems(s2.films, rows[1..], existing);
  }

  /** The first row's film stays listed while the rest of the loop runs, so
      every row's film is listed at the end. */
  lemma ListedJoin(s1: Store, s2: Store, rows: seq<WatchRow>, existing: set<nat>)
    requires |rows| > 0 && FilmsKept(s1, s2) && AppendedOnly(s1.watchlist, s2.watchlist, existing)
    requires Listed(s1, rows[0], existing)
    requires forall k :: 0 <= k < |rows[1..]| ==> Listed(s2, rows[1..][k], existing)
    ensures forall k :: 0 <= k < |rows| ==> Listed(s2, rows[k], existing)
  {
    ListedKept(s1, s2, rows[0], existing);
    ListedCons(rows, s2, existing);
  }

  lemma AppendedOnlyTransitive(a: seq<nat>, b: seq<nat>, c: seq<nat>, existing: set<nat>)
    requires AppendedOnly(a, b, existing) && AppendedOnly(b, c, existing)
    ensures AppendedOnly(a, c, existing)
  {
    assert c[..|a|] == c[..|b|][..|a|];
  }

  lemma NewItemsStep(s: Store, t: Store, rows: seq<WatchRow>, existing: set<nat>, c: nat)
    requires |rows| > 0 && FilmsKept(s, t)
    requires ItemSlug(rows[0]) == "" ==> c == 0
    requires ItemSlug(rows[0]) != "" ==>
               ItemSlug(rows[0]) in s.films && (c == 1 <==> s.films[ItemSlug(rows[0])].id !in existing) && c <= 1
    ensures NewItems(t.films, rows, existing) ==
              (if c == 1 then [s.films[ItemSlug(rows[0])].id] else []) + NewItems(t.films, rows[1..], existing)
  {
  }

  /** `_sync_watchlist`: the set of listed film ids is taken once, before the loop. */
  function SyncWatchlist(run: Run, rows: seq<WatchRow>, fetchDetails: bool, fetch: Fetcher): (r: Step<nat>)
    ensures FilmsKept(run.store, r.run.store)
    ensures r.run.store.userFilms == run.store.userFilms && r.run.store.diary == run.store.diary
    ensures r.run.store.profile == run.store.profile && r.run.store.syncLogs == run.store.syncLogs
    ensures FailedKept(run, r.run) && (r.Raised? ==> r.message == RateLimitedMessage)
    // the merge never removes an item
    ensures |run.store.watchlist| <= |r.run.store.watchlist|
    ensures r.run.store.watchlist[..|run.store.watchlist|] == run.store.watchlist
    ensures forall i :: |run.store.watchlist| <= i < |r.run.store.watchlist| ==> r.run.store.watchlist[i] !in run.store.watchlist
    ensures r.Ok? ==> |r.run.store.watchlist| == |run.store.watchlist| + r.value
    ensures r.Ok? ==> r.value == |NewItems(r.run.store.films, rows, set x | x in run.store.watchlist)|
    ensures r.Ok? ==> r.run.store.watchlist == run.store.watchlist + NewItems(r.run.store.films, rows, set x | x in run.store.watchlist)
    // every scraped film with a slug is on the watchlist afterwards
    ensures r.Ok? ==> forall k :: 0 <= k < |rows| && ItemSlug(rows[k]) != "" ==>
              ItemSlug(rows[k]) in r.run.store.films && r.run.store.films[ItemSlug(rows[k])].id in r.run.store.watchlist
    ensures Valid(run.store) ==> Valid(r.run.store)
  {
    var existing := set x | x in run.store.watchlist;
    var r := SyncWatchlistRows(run, rows, existing, fetchDetails, fetch);
    forall k | 0 <= k < |rows| && ItemSlug(rows[k]) != "" && r.Ok?
      ensures r.run.store.films[ItemSlug(rows[k])].id in r.run.store.watchlist
    {
      var fid := r.run.store.films[ItemSlug(rows[k])].id;
      if fid in existing {
        var i :| 0 <= i < |run.store.watchlist| && run.store.watchlist[i] == fid;
        assert r.run.store.watchlist[i] == fid;
      }
    }
    r
  }

  lemma SyncWatchlistRecorded(run: Run, rows: seq<WatchRow>, fetchDetails: bool, fetch: Fetcher)
    ensures RecordKept(fetch, run, SyncWatchlist(run, rows, fetchDetails, fetch))
  {
    SyncWatchlistRowsRecorded(run, rows, (set x | x in run.store.watchlist), fetchDetails, fetch);
  }

  // ---------------------------------------------------------------------------
  // sync_all
  // ---------------------------------------------------------------------------

  /** The library's answers for one sync: the profile, the watched films, the
      diary and the watchlist, each the data or the message of the exception
      the library raised. */
  datatype Scrape = Scrape(
    user: Result<Profile>,
    films: Result<Raw<RawUserFilms>>,
    diary: Result<Raw<RawDiary>>,
    watchlist: Result<Raw<seq<(string, Raw<RawWatchItem>)>>>)

  /** The statistics `sync_all` returns; `films_failed` is `|failedSlugs|`. */
  datatype Stats = Stats(watchedFilms: nat, diaryEntries: nat, watchlistItems: nat, filmsSynced: nat, failedSlugs: seq<(string, string)>)

  /** `sync_all` returns its statistics or re-raises the exception that stopped it. */
  datatype Outcome = Returned(stats: Stats) | Reraised(message: string)

  /** The store and the log after the sync, what it returned or raised, and
      the slugs whose details it requested, in order. */
  datatype SyncResult = SyncResult(store: Store, log: SyncLog, outcome: Outcome, requested: seq<string>)

  /** `repr` of a slug: the text in single quotes. */
  function Quoted(slug: string): string {
    "'" + slug + "'"
  }

  /** The slugs of a list of failures, each in single quotes, separated by ", ". */
  function QuotedSlugs(failed: seq<(string, string)>): (t: string)
    ensures |failed| == 0 <==> t == ""
    ensures |failed| > 0 ==> StartsWith(t, Quoted(failed[0].0))
  {
    if |failed| == 0 then ""
    else
      var head := Quoted(failed[0].0);
      var t := head + (if |failed| == 1 then "" else ", " + QuotedSlugs(failed[1..]));
      assert t[..|head|] == head;
      t
  }

  /** Every failed slug appears in the list, in quotes. */
  lemma {:induction false} QuotedSlugsNamesAll(failed: seq<(string, string)>)
    ensures forall k :: 0 <= k < |failed| ==> Contains(QuotedSlugs(failed), Quoted(failed[k].0))
  {
    if |failed| > 0 {
      var t := QuotedSlugs(failed);
      var head := Quoted(failed[0].0);
      assert OccursAt(t, head, 0);
      if |failed| > 1 {
        var sep := head + ", ";
        var tail := QuotedSlugs(failed[1..]);
        assert t == sep + tail + "";
        QuotedSlugsNamesAll(failed[1..]);
        forall k | 1 <= k < |failed| ensures Contains(t, Quoted(failed[k].0)) {
          assert failed[1..][k - 1] == failed[k];
          ContainsWithin(sep, tail, "", Quoted(failed[k].0));
        }
      }
    }
  }

  /** Every failed slug, quoted, appears in a message that embeds the list. */
  lemma FailedMessageNamesAll(before: string, failed: seq<(string, string)>, after: string)
    ensures forall k :: 0 <= k < |failed| ==> Contains(before + QuotedSlugs(failed) + after, Quoted(failed[k].0))
  {
    QuotedSlugsNamesAll(failed);
    forall k | 0 <= k < |failed|
      ensures Contains(before + QuotedSlugs(failed) + after, Quoted(failed[k].0))
    {
      ContainsWithin(before, QuotedSlugs(failed), after, Quoted(failed[k].0));
    }
  }

  /** The log of a sync that got to the end: completed, or completed with errors
      when some film could not be fetched, which the message then lists. */
  function FinishedLog(username: string, failed: seq<(string, string)>, diaryCount: nat, watchlistCount: nat): (log: SyncLog)
    ensures log.username == username
    ensures log.status == Completed <==> |failed| == 0
    ensures log.status == CompletedWithErrors <==> |failed| > 0
    ensures log.itemsProcessed == Some(diaryCount + watchlistCount)
    ensures log.errorMessage.Some? <==> |failed| > 0
    ensures log.errorMessage.Some? ==> StartsWith(log.errorMessage.value, "Failed films: [" + Quoted(failed[0].0))
    ensures log.errorMessage.Some? ==> forall k :: 0 <= k < |failed| ==> Contains(log.errorMessage.value, Quoted(failed[k].0))
  {
    if |failed| == 0 then SyncLog(username, Completed, Some(diaryCount + watchlistCount), None)
    else
      var quoted := QuotedSlugs(failed);
      var msg := "Failed films: [" + quoted + "]";
      StartsWithWithin("Failed films: [", quoted, "]", Quoted(failed[0].0));
      FailedMessageNamesAll("Failed films: [", failed, "]");
      SyncLog(username, CompletedWithErrors, Some(diaryCount + watchlistCount), Some(msg))
  }

  /** `_sync_user`: the profile columns are overwritten. */
  function SyncUser(run: Run, user: Result<Profile>): (r: Step<()>)
    ensures r.Raised? <==> user.Failure?
    ensures r.Raised? ==> r.run == run && r.message == user.error
    ensures r.Ok? ==> r.run == run.(store := run.store.(profile := Some(user.value)))
  {
    match user
    case Failure(e) => Raised(run, e)
    case Success(p) => Ok(run.(store := run.store.(profile := Some(p))), ())
  }

  /** Writing the profile keeps everything `Extends` asks for. */
  lemma SyncUserExtends(run: Run, user: Result<Profile>)
    ensures Extends(run, SyncUser(run, user).run)
  {
    var t := SyncUser(run, user).run;
    ValidIgnoresRest(run.store, t.store);
    assert t.store.watchlist[..|run.store.watchlist|] == run.store.watchlist;
  }

  /** What a part of the sync may do to what is already there: add, overwrite
      columns, but never remove a film, a diary entry, a watchlist item, a
      user-film row, a log or a recorded failure. */
  ghost predicate Extends(a: Run, b: Run) {
    && FilmsKept(a.store, b.store)
    && DiaryKept(a.store.diary, b.store.diary)
    && |a.store.watchlist| <= |b.store.watchlist| && b.store.watchlist[..|a.store.watchlist|] == a.store.watchlist
    && a.store.userFilms.Keys <= b.store.userFilms.Keys
    && b.store.syncLogs == a.store.syncLogs
    && FailedKept(a, b)
    && (Valid(a.store) ==> Valid(b.store))
  }

  lemma ExtendsReflexive(a: Run)
    ensures Extends(a, a)
  {
    assert a.store.watchlist[..|a.store.watchlist|] == a.store.watchlist;
    assert a.failed[..|a.failed|] == a.failed;
  }

  lemma SyncWatchedRowsExtends(run: Run, rows: seq<WatchedRow>, fetchDetails: bool, fetch: Fetcher, now: int)
    ensures Extends(run, SyncWatchedRows(run, rows, fetchDetails, fetch, now).run)
  {
    assert run.store.watchlist[..|run.store.watchlist|] == run.store.watchlist;
  }

  lemma SyncDiaryExtends(run: Run, rows: seq<DiaryRow>, fetchDetails: bool, fetch: Fetcher, now: int)
    ensures Extends(run, SyncDiary(run, rows, fetchDetails, fetch, now).run)
  {
    assert run.store.watchlist[..|run.store.watchlist|] == run.store.watchlist;
  }

  lemma SyncWatchlistExtends(run: Run, rows: seq<WatchRow>, fetchDetails: bool, fetch: Fetcher)
    ensures Extends(run, SyncWatchlist(run, rows, fetchDetails, fetch).run)
  {
    var t := SyncWatchlist(run, rows, fetchDetails, fetch).run;
    ValidIgnoresRest(run.store, run.store.(watchlist := t.store.watchlist));
  }

  lemma ExtendsTransitive(a: Run, b: Run, c: Run)
    requires Extends(a, b) && Extends(b, c)
    ensures Extends(a, c)
  {
    FailedKeptTransitive(a, b, c);
    assert c.store.watchlist[..|a.store.watchlist|] == c.store.watchlist[..|b.store.watchlist|][..|a.store.watchlist|];
  }

  /** A part of the sync that raised: with every listing fetched, the only
      exception left is the rate limit. */
  ghost predicate RaisedOnlyByRateLimit<T>(r: Step<T>, scrape: Scrape) {
    (r.Raised? && scrape.user.Success? && scrape.films.Success? && scrape.diary.Success? && scrape.watchlist.Success?)
      ==> r.message == RateLimitedMessage
  }

  /** The watchlist part of the `try` in `sync_all`. */
  function AfterDiary(run: Run, scrape: Scrape, fetchDetails: bool, fetch: Fetcher, counts: (nat, nat)): (r: Step<(nat, nat, nat)>)
    ensures Extends(run, r.run) && RaisedOnlyByRateLimit(r, scrape)
  {
    ExtendsReflexive(run);
    match scrape.watchlist
    case Failure(e) => Raised(run, e)
    case Success(watchData) =>
      SyncWatchlistExtends(run, WatchlistRows(watchData), fetchDetails, fetch);
      match SyncWatchlist(run, WatchlistRows(watchData), fetchDetails, fetch)
      case Raised(run1, msg) => Raised(run1, msg)
      case Ok(run1, items) => Ok(run1, (counts.0, counts.1, items))
  }

  /** The diary part of the `try` in `sync_all`, and what follows it. */
  function AfterWatched(run: Run, scrape: Scrape, fetchDetails: bool, fetch: Fetcher, now: int, watched: nat): (r: Step<(nat, nat, nat)>)
    ensures Extends(run, r.run) && RaisedOnlyByRateLimit(r, scrape)
  {
    ExtendsReflexive(run);
    match scrape.diary
    case Failure(e) => Raised(run, e)
    case Success(diaryData) =>
      SyncDiaryExtends(run, DiaryRows(diaryData), fetchDetails, fetch, now);
      match SyncDiary(run, DiaryRows(diaryData), fetchDetails, fetch, now)
      case Raised(run1, msg) => Raised(run1, msg)
      case Ok(run1, entries) =>
        var r := AfterDiary(run1, scrape, fetchDetails, fetch, (watched, entries));
        ExtendsTransitive(run, run1, r.run);
        r
  }

  /** The watched-films part of the `try` in `sync_all`, and what follows it. */
  function AfterUser(run: Run, scrape: Scrape, fetchDetails: bool, fetch: Fetcher, now: int): (r: Step<(nat, nat, nat)>)
    ensures Extends(run, r.run) && RaisedOnlyByRateLimit(r, scrape)
  {
    ExtendsReflexive(run);
    match scrape.films
    case Failure(e) => Raised(run, e)
    case Success(filmsData) =>
      SyncWatchedRowsExtends(run, UserFilms(filmsData), fetchDetails, fetch, now);
      match SyncWatchedRows(run, UserFilms(filmsData), fetchDetails, fetch, now)
      case Raised(run1, msg) => Raised(run1, msg)
      case Ok(run1, watched) =>
        var r := AfterWatched(run1, scrape, fetchDetails, fetch, now, watched);
        ExtendsTransitive(run, run1, r.run);
        r
  }

  /** The body of the `try` in `sync_all`: profile, watched films, diary and
      watchlist in that order; the value holds their three counts. */
  function SyncSteps(run: Run, scrape: Scrape, fetchDetails: bool, fetch: Fetcher, now: int): (r: Step<(nat, nat, nat)>)
    ensures Extends(run, r.run)
    ensures RaisedOnlyByRateLimit(r, scrape)
    ensures scrape.user.Failure? ==> r == Raised(run, scrape.user.error)
  {
    match SyncUser(run, scrape.user)
    case Raised(run0, msg) => Raised(run0, msg)
    case Ok(run0, _) =>
      var r := AfterUser(run0, scrape, fetchDetails, fetch, now);
      SyncUserExtends(run, scrape.user);
      ExtendsTransitive(run, run0, r.run);
      r
  }

  /** A map with more keys has at least as many entries. */
  lemma {:induction false} MapSizeGrows<K, V>(u: map<K, V>, v: map<K, V>)
    requires u.Keys <= v.Keys
    ensures |u| <= |v|
    decreases |u|
  {
    if |u| > 0 {
      var x :| x in u;
      MapSizeGrows(u - {x}, v - {x});
    }
  }

  /** What a completed `try` body did: every listing was fetched, the diary
      and watchlist counts are what was added to those tables, at least as
      many user-film rows were added as the watched count, and the record of
      failed fetches stayed exact. */
  lemma SyncStepsFacts(run: Run, scrape: Scrape, fetchDetails: bool, fetch: Fetcher, now: int)
    ensures RecordKept(fetch, run, SyncSteps(run, scrape, fetchDetails, fetch, now))
    ensures var r := SyncSteps(run, scrape, fetchDetails, fetch, now);
      r.Ok? ==>
        && scrape.user.Success? && scrape.films.Success? && scrape.diary.Success? && scrape.watchlist.Success?
        && |r.run.store.diary| == |run.store.diary| + r.value.1
        && |r.run.store.watchlist| == |run.store.watchlist| + r.value.2
        && |run.store.userFilms| + r.value.0 <= |r.run.store.userFilms|
  {
    if scrape.user.Success? {
      var run0 := run.(store := run.store.(profile := Some(scrape.user.value)));
      if scrape.films.Success? {
        SyncWatchedRowsRecorded(run0, UserFilms(scrape.films.value), fetchDetails, fetch, now);
        var w := SyncWatchedRows(run0, UserFilms(scrape.films.value), fetchDetails, fetch, now);
        if w.Ok? && scrape.diary.Success? {
          SyncDiaryRecorded(w.run, DiaryRows(scrape.diary.value), fetchDetails, fetch, now);
          var d := SyncDiary(w.run, DiaryRows(scrape.diary.value), fetchDetails, fetch, now);
          if d.Ok? && scrape.watchlist.Success? {
            SyncWatchlistRecorded(d.run, WatchlistRows(scrape.watchlist.value), fetchDetails, fetch);
            MapSizeGrows(w.run.store.userFilms, d.run.store.userFilms);
          }
        }
      }
    }
  }

  /** `sync_all(db, fetch_film_details)` for `username`, with the clock reading `now`. */
  function SyncAll(store: Store, username: string, scrape: Scrape, fetchDetails: bool, fetch: Fetcher, now: int): (r: SyncResult)
    ensures r.store.syncLogs == store.syncLogs + [r.log]
    ensures r.log.username == username
    // any exception marks the log failed with its message, and is raised again
    ensures r.outcome.Reraised? <==> r.log.status == Failed
    ensures r.outcome.Reraised? ==> r.log.errorMessage == Some(r.outcome.message) && r.log.itemsProcessed.None?
    ensures r.outcome.Returned? ==>
              var stats := r.outcome.stats;
              && (r.log.status == Completed <==> |stats.failedSlugs| == 0)
              && r.log.itemsProcessed.Some? && r.log.itemsProcessed.value == stats.diaryEntries + stats.watchlistItems
              && stats.filmsSynced == |r.store.films|
              && r.log == FinishedLog(username, stats.failedSlugs, stats.diaryEntries, stats.watchlistItems)
    // with every listing fetched, only the rate limit can make the sync fail
    ensures (r.outcome.Reraised? && scrape.user.Success? && scrape.films.Success? && scrape.diary.Success?
             && scrape.watchlist.Success?) ==> r.outcome.message == RateLimitedMessage
    // a failed profile fetch writes nothing but the log
    ensures scrape.user.Failure? ==>
              r.outcome == Reraised(scrape.user.error) && r.store == store.(syncLogs := store.syncLogs + [r.log])
    // nothing the sync had stored before is removed
    ensures FilmsKept(store, r.store)
    ensures DiaryKept(store.diary, r.store.diary)
    ensures |store.watchlist| <= |r.store.watchlist| && r.store.watchlist[..|store.watchlist|] == store.watchlist
    ensures store.userFilms.Keys <= r.store.userFilms.Keys
    // the films stay under their own slugs with distinct ids, each user-film row under its film
    ensures Valid(store) ==> Valid(r.store)
  {
    match SyncSteps(Run(store, [], []), scrape, fetchDetails, fetch, now)
    case Raised(run, msg) =>
      var log := SyncLog(username, Failed, None, Some(msg));
      LoggedKeeps(store, run.store, log);
      SyncResult(run.store.(syncLogs := run.store.syncLogs + [log]), log, Reraised(msg), run.fetched)
    case Ok(run, (watched, entries, items)) =>
      var log := FinishedLog(username, run.failed, entries, items);
      LoggedKeeps(store, run.store, log);
      var logged := run.store.(syncLogs := run.store.syncLogs + [log]);
      SyncResult(logged, log, Returned(Stats(watched, entries, items, |logged.films|, run.failed)), run.fetched)
  }

  /** What a sync that returns reports: it fetched every listing, its diary
      and watchlist counts are what it added, and the failures it returns are
      exactly the failed fetches among the slugs it requested, in order, none
      of them the rate limit. */
  lemma SyncAllReports(store: Store, username: string, scrape: Scrape, fetchDetails: bool, fetch: Fetcher, now: int)
    ensures var r := SyncAll(store, username, scrape, fetchDetails, fetch, now);
      r.outcome.Returned? ==>
        var stats := r.outcome.stats;
        && scrape.user.Success? && scrape.films.Success? && scrape.diary.Success? && scrape.watchlist.Success?
        && |r.store.diary| == |store.diary| + stats.diaryEntries
        && |r.store.watchlist| == |store.watchlist| + stats.watchlistItems
        && |store.userFilms| + stats.watchedFilms <= |r.store.userFilms|
    ensures var r := SyncAll(store, username, scrape, fetchDetails, fetch, now);
      r.outcome.Returned? ==>
        var failed := r.outcome.stats.failedSlugs;
        && failed == FailuresAmong(fetch, r.requested)
        && forall k :: 0 <= k < |failed| ==>
             && failed[k].0 in r.requested
             && FetchDetails(fetch, failed[k].0) == Failure(failed[k].1)
             && !IsServiceUnavailable(failed[k].1)
  {
    var step := SyncSteps(Run(store, [], []), scrape, fetchDetails, fetch, now);
    SyncStepsFacts(Run(store, [], []), scrape, fetchDetails, fetch, now);
    FailuresAmongSound(fetch, step.run.fetched);
  }

  /** Appending the log entry changes nothing else the sync promises to keep. */
  lemma LoggedKeeps(s: Store, t: Store, log: SyncLog)
    requires Extends(Run(s, [], []), Run(t, [], []))
    ensures var u := t.(syncLogs := t.syncLogs + [log]);
      && FilmsKept(s, u) && DiaryKept(s.diary, u.diary)
      && |s.watchlist| <= |u.watchlist| && u.watchlist[..|s.watchlist|] == s.watchlist
      && s.userFilms.Keys <= u.userFilms.Keys && u.syncLogs == s.syncLogs + [log]
      && (Valid(s) ==> Valid(u))
  {
  }
}
