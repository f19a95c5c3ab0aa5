/** The scraper client: a rate limiter in front of every library call, and
    the normalisers that turn the library's loosely typed dictionaries into
    flat records. A raw dictionary is modelled by a datatype whose `Option`
    fields are `dict.get` of a key (None when the key is absent); a value
    that may or may not be a dict is a `Raw`, and a dict that is iterated is
    its `items()` in insertion order. */
module Client {
  import opened Wrappers
  import opened Text
  import opened Dates

  // ---------------------------------------------------------------------------
  // RateLimiter.wait over an abstract clock
  // ---------------------------------------------------------------------------

  /** `min_delay` and `last_request_time` of a rate limiter, in seconds. */
  datatype RateLimiter = RateLimiter(minDelay: real, last: Option<real>)

  /** A fresh limiter has never recorded a request. */
  function NewRateLimiter(minDelay: real): (rl: RateLimiter)
    ensures rl.minDelay == minDelay && rl.last.None?
  {
    RateLimiter(minDelay, None)
  }

  /** How long `wait()` sleeps when the clock reads `now` on entry: None when it
      does not sleep at all. */
  function SleepFor(rl: RateLimiter, now: real): (s: Option<real>)
    ensures rl.last.None? ==> s.None?
    ensures s.Some? <==> rl.last.Some? && now - rl.last.value < rl.minDelay
    ensures s.Some? ==> s.value > 0.0 && now + s.value == rl.last.value + rl.minDelay
  {
    match rl.last
    case None => None
    case Some(t) =>
      var elapsed := now - t;
      if elapsed < rl.minDelay then Some(rl.minDelay - elapsed) else None
  }

  /** One call of `wait()`. The clock reads `now` on entry; after the sleep (if
      any) it reads `lag` seconds later than the sleep alone accounts for, and
      that reading is recorded as the request time. */
  datatype Tick = Tick(now: real, lag: real)

  function Wait(rl: RateLimiter, t: Tick): (r: RateLimiter)
    requires t.lag >= 0.0
    ensures r.minDelay == rl.minDelay && r.last.Some?
    ensures r.last.value >= t.now
    ensures rl.last.Some? ==> r.last.value - rl.last.value >= rl.minDelay
  {
    var slept := SleepFor(rl, t.now).GetOr(0.0);
    RateLimiter(rl.minDelay, Some(t.now + slept + t.lag))
  }

  /** The request times recorded by successive `wait()` calls. */
  function RecordedTimes(rl: RateLimiter, ticks: seq<Tick>): (times: seq<real>)
    requires forall i :: 0 <= i < |ticks| ==> ticks[i].lag >= 0.0
    decreases |ticks|
    ensures |times| == |ticks|
    ensures rl.last.Some? && |times| > 0 ==> times[0] - rl.last.value >= rl.minDelay
    ensures forall i :: 0 < i < |times| ==> times[i] - times[i - 1] >= rl.minDelay
  {
    if |ticks| == 0 then []
    else
      var next := Wait(rl, ticks[0]);
      var rest := RecordedTimes(next, ticks[1..]);
      [next.last.value] + rest
  }

  // ---------------------------------------------------------------------------
  // Skipping rows that are not dicts
  // ---------------------------------------------------------------------------

  /** A value that is either a dict (with the fields the program reads) or
      something else. */
  datatype Raw<+T> = NotDict | Dict(fields: T)

  /** The positions of the dict rows, in increasing order. */
  function DictPositions<V>(rows: seq<(string, Raw<V>)>): (idx: seq<nat>)
    ensures |idx| <= |rows|
    ensures forall k :: 0 <= k < |idx| ==> idx[k] < |rows| && rows[idx[k]].1.Dict?
    ensures forall k, l :: 0 <= k < l < |idx| ==> idx[k] < idx[l]
    ensures forall i :: 0 <= i < |rows| && rows[i].1.Dict? ==> i in idx
  {
    if |rows| == 0 then []
    else
      var n := |rows| - 1;
      var front := DictPositions(rows[..n]);
      front + (if rows[n].1.Dict? then [n] else [])
  }

  /** A loop over `d.items()` that skips non-dict values and appends `f(key, value)`. */
  function KeepDicts<V, U>(rows: seq<(string, Raw<V>)>, f: (string, V) -> U): (r: seq<U>)
    ensures |r| == |DictPositions(rows)|
    ensures forall k :: 0 <= k < |r| ==>
              r[k] == f(rows[DictPositions(rows)[k]].0, rows[DictPositions(rows)[k]].1.fields)
  {
    if |rows| == 0 then []
    else
      var n := |rows| - 1;
      assert DictPositions(rows) == DictPositions(rows[..n]) + (if rows[n].1.Dict? then [n] else []);
      var front := KeepDicts(rows[..n], f);
      front + (if rows[n].1.Dict? then [f(rows[n].0, rows[n].1.fields)] else [])
  }

  // ---------------------------------------------------------------------------
  // get_user_films
  // ---------------------------------------------------------------------------

  datatype RawFilm = RawFilm(name: Option<string>, year: Option<int>, rating: Option<real>, liked: Option<bool>)

  datatype WatchedRow = WatchedRow(slug: string, name: Option<string>, year: Option<int>, rating: Option<real>, liked: bool)

  /** The answer of `get_films()`, whose "movies" entry should hold a dict. */
  datatype RawUserFilms = RawUserFilms(movies: Option<Raw<seq<(string, Raw<RawFilm>)>>>)

  function WatchedFrom(slug: string, data: RawFilm): WatchedRow {
    WatchedRow(slug, data.name, data.year, data.rating, data.liked.GetOr(false))
  }

  /** The movie pairs the normaliser iterates: none unless the answer and its
      "movies" entry (an empty dict when absent) are both dicts. */
  function MoviePairs(data: Raw<RawUserFilms>): seq<(string, Raw<RawFilm>)> {
    match data
    case Dict(RawUserFilms(Some(Dict(movies)))) => movies
    case _ => []
  }

  /** `get_user_films`: one row per dict-valued movie, keyed by its slug. */
  function UserFilms(data: Raw<RawUserFilms>): (r: seq<WatchedRow>)
    ensures |r| == |DictPositions(MoviePairs(data))| <= |MoviePairs(data)|
    ensures forall k :: 0 <= k < |r| ==>
              var (slug, raw) := MoviePairs(data)[DictPositions(MoviePairs(data))[k]];
              && r[k].slug == slug && r[k].name == raw.fields.name && r[k].year == raw.fields.year
              && r[k].rating == raw.fields.rating
              && (r[k].liked <==> raw.fields.liked == Some(true))
  {
    KeepDicts(MoviePairs(data), WatchedFrom)
  }

  // ---------------------------------------------------------------------------
  // get_user_diary
  // ---------------------------------------------------------------------------

  datatype RawDate = RawDate(year: Option<int>, month: Option<int>, day: Option<int>)

  datatype RawActions = RawActions(rating: Option<real>, rewatched: Option<bool>, liked: Option<bool>)

  /** A diary entry; `actions` is the empty dict when the key is absent, and
      `date` the empty dict, which is a dict. */
  datatype RawEntry = RawEntry(slug: Option<string>, name: Option<string>, date: Raw<RawDate>, actions: RawActions)

  /** The diary answer: its "entries" dict if present, and its own pairs,
      which are iterated when "entries" is absent. */
  datatype RawDiary = RawDiary(entries: Option<seq<(string, Raw<RawEntry>)>>, topLevel: seq<(string, Raw<RawEntry>)>)

  datatype DiaryRow = DiaryRow(
    id: string, filmSlug: Option<string>, filmName: Option<string>, date: Option<string>,
    rating: Option<real>, rewatch: bool, liked: bool)

  /** `f"{y}-{m:02d}-{d:02d}"`. */
  function YmdText(y: int, m: int, d: int): string {
    IntToString(y) + "-" + Pad2(m) + "-" + Pad2(d)
  }

  /** The date string of a diary entry: present only when the date is a dict
      with a truthy year; a missing month or day counts as 1. */
  function DiaryDateText(info: Raw<RawDate>): (r: Option<string>)
    ensures r.Some? <==> info.Dict? && info.fields.year.Some? && info.fields.year.value != 0
    ensures r.Some? ==>
              var month := info.fields.month.GetOr(1);
              var day := info.fields.day.GetOr(1);
              && StartsWith(r.value, IntToString(info.fields.year.value) + "-")
              && (0 <= month < 100 && 0 <= day < 100 ==>
                    |r.value| == |IntToString(info.fields.year.value)| + 6 && AllDigits(r.value[|r.value| - 2..]))
    // read back with `strptime("%Y-%m-%d")`, the text is the scraped date when that is a real date
    ensures r.Some? ==>
              var y := info.fields.year.value;
              var m := info.fields.month.GetOr(1);
              var d := info.fields.day.GetOr(1);
              ParseIsoDate(r.value) == (if 1000 <= y <= 9999 && 1 <= m <= 12 && 1 <= d <= DaysInMonth(y, m) then Some(Date(y, m, d)) else None)
  {
    match info
    case Dict(RawDate(Some(y), month, day)) =>
      if y != 0 then
        var s := YmdText(y, month.GetOr(1), day.GetOr(1));
        assert s[..|IntToString(y) + "-"|] == IntToString(y) + "-";
        YmdTextReadsBack(y, month.GetOr(1), day.GetOr(1));
        Some(s)
      else None
    case _ => None
  }

  /** Reading the written string back with `strptime("%Y-%m-%d")` gives the
      same date exactly when it is a valid date with a four-digit year. */
  lemma YmdTextReadsBack(y: int, m: int, d: int)
    ensures ParseIsoDate(YmdText(y, m, d))
         == (if 1000 <= y <= 9999 && 1 <= m <= 12 && 1 <= d <= DaysInMonth(y, m) then Some(Date(y, m, d)) else None)
  {
    var dayPart := Pad2(d);
    var monthPart := Pad2(m) + "-" + dayPart;
    assert YmdText(y, m, d) == IntToString(y) + "-" + monthPart;
    YearFieldReadsBack(y, monthPart);
    MonthFieldReadsBack(m, dayPart);
    DayFieldReadsBack(d);
  }

  function DiaryFrom(id: string, e: RawEntry): DiaryRow {
    DiaryRow(id, e.slug, e.name, DiaryDateText(e.date), e.actions.rating,
             e.actions.rewatched.GetOr(false), e.actions.liked.GetOr(false))
  }

  /** The pairs the diary normaliser iterates. */
  function EntryPairs(data: Raw<RawDiary>): seq<(string, Raw<RawEntry>)> {
    match data
    case NotDict => []
    case Dict(d) => d.entries.GetOr(d.topLevel)
  }

  /** `get_user_diary`: one row per dict-valued entry, keyed by its entry id;
      rewatch and liked are false when the action is absent. */
  function DiaryRows(data: Raw<RawDiary>): (r: seq<DiaryRow>)
    ensures |r| == |DictPositions(EntryPairs(data))| <= |EntryPairs(data)|
    ensures forall k :: 0 <= k < |r| ==>
              var (id, raw) := EntryPairs(data)[DictPositions(EntryPairs(data))[k]];
              && r[k].id == id && r[k].filmSlug == raw.fields.slug && r[k].filmName == raw.fields.name
              && r[k].date == DiaryDateText(raw.fields.date) && r[k].rating == raw.fields.actions.rating
              && (r[k].rewatch <==> raw.fields.actions.rewatched == Some(true))
              && (r[k].liked <==> raw.fields.actions.liked == Some(true))
  {
    KeepDicts(EntryPairs(data), DiaryFrom)
  }

  // ---------------------------------------------------------------------------
  // get_user_watchlist
  // ---------------------------------------------------------------------------

  datatype RawWatchItem = RawWatchItem(slug: Option<string>, name: Option<string>, year: Option<int>)

  datatype WatchRow = WatchRow(slug: Option<string>, name: Option<string>, year: Option<int>)

  function WatchFrom(filmId: string, item: RawWatchItem): WatchRow {
    WatchRow(item.slug, item.name, item.year)
  }

  function WatchPairs(data: Raw<seq<(string, Raw<RawWatchItem>)>>): seq<(string, Raw<RawWatchItem>)> {
    match data
    case NotDict => []
    case Dict(pairs) => pairs
  }

  /** `get_user_watchlist`: one row per dict-valued item; the dict keys are dropped. */
  function WatchlistRows(data: Raw<seq<(string, Raw<RawWatchItem>)>>): (r: seq<WatchRow>)
    ensures |r| == |DictPositions(WatchPairs(data))| <= |WatchPairs(data)|
    ensures forall k :: 0 <= k < |r| ==>
              var item := WatchPairs(data)[DictPositions(WatchPairs(data))[k]].1.fields;
              r[k].slug == item.slug && r[k].name == item.name && r[k].year == item.year
  {
    KeepDicts(WatchPairs(data), WatchFrom)
  }

  // ---------------------------------------------------------------------------
  // get_film
  // ---------------------------------------------------------------------------

  /** An element of a genre, cast, crew or details list: a dict with its
      "name" and "type" entries, or some other value (shown by its text). */
  datatype Item = ItemDict(name: Option<string>, kind: Option<string>) | ItemOther(text: string)

  /** The attributes of a `Movie` object the client reads. A missing or falsy
      `crew` or `details` attribute is the empty map or list. */
  datatype RawMovie = RawMovie(
    id: Option<string>, title: Option<string>, year: Option<int>, runtime: Option<int>,
    rating: Option<real>, poster: Option<string>, genres: seq<Item>,
    crew: map<string, seq<Item>>, cast: seq<Item>, details: seq<Item>,
    tmdbLink: Option<string>, imdbLink: Option<string>)

  /** The dict `get_film` returns, restricted to the keys the modelled readers
      use; the descriptive columns the sync also stores (original and alternative
      titles, tagline, description, banner, trailer, url, watcher statistics and
      popular reviews) are not part of this model. */
  datatype FilmDetails = FilmDetails(
    slug: string, letterboxdId: Option<string>, title: Option<string>, year: Option<int>,
    poster: Option<string>, runtime: Option<int>, genres: seq<Item>, rating: Option<real>,
    directors: seq<Item>, crew: map<string, seq<Item>>, cast: seq<Item>,
    countries: seq<Item>, languages: seq<Item>, studios: seq<Item>,
    tmdbId: Option<string>, imdbId: Option<string>)

  predicate HasType(x: Item, t: string) {
    x.ItemDict? && x.kind == Some(t)
  }

  /** `[d for d in details if d.get("type") == t]`. */
  function OfType(details: seq<Item>, t: string): (r: seq<Item>)
    ensures |r| <= |details|
    ensures forall i :: 0 <= i < |r| ==> HasType(r[i], t)
    ensures forall x :: x in details && HasType(x, t) ==> x in r
    ensures multiset(r) <= multiset(details)
  {
    if |details| == 0 then []
    else
      assert details == [details[0]] + details[1..];
      (if HasType(details[0], t) then [details[0]] else []) + OfType(details[1..], t)
  }

  /** Elements of different types land in different lists, and together the
      three lists hold no more than `details`. */
  lemma {:induction false} DetailsPartition(details: seq<Item>)
    ensures forall x :: x in OfType(details, "country") ==> x !in OfType(details, "language") && x !in OfType(details, "studio")
    ensures forall x :: x in OfType(details, "language") ==> x !in OfType(details, "studio")
    ensures |OfType(details, "country")| + |OfType(details, "language")| + |OfType(details, "studio")| <= |details|
  {
    if |details| > 0 {
      DetailsPartition(details[1..]);
    }
  }

  /** Filtering keeps the original order: the filter of a concatenation is
      the concatenation of the filters. */
  lemma {:induction false} OfTypeAppend(a: seq<Item>, b: seq<Item>, t: string)
    ensures OfType(a + b, t) == OfType(a, t) + OfType(b, t)
  {
    if |a| > 0 {
      assert (a + b)[1..] == a[1..] + b;
      OfTypeAppend(a[1..], b, t);
    } else {
      assert a + b == b;
    }
  }

  /** The tmdb id: the digits after the first "/movie/" of a non-empty link. */
  function TmdbId(link: Option<string>): (r: Option<string>)
    ensures r.Some? <==> link.Some? && link.value != "" && exists i :: MarkerAt(link.value, "/movie/", i)
    ensures r.Some? ==> LeftmostCapture(link.value, "/movie/", r.value)
  {
    if link.Some? && link.value != "" then SearchDigitsAfter(link.value, "/movie/") else None
  }

  /** The imdb id: "tt" and the digits that follow the first "/title/tt" of a
      non-empty link. */
  function ImdbId(link: Option<string>): (r: Option<string>)
    ensures r.Some? <==> link.Some? && link.value != "" && exists i :: MarkerAt(link.value, "/title/tt", i)
    ensures r.Some? ==> |r.value| >= 3 && r.value[..2] == "tt" && LeftmostCapture(link.value, "/title/tt", r.value[2..])
  {
    if link.Some? && link.value != "" then
      match SearchDigitsAfter(link.value, "/title/tt")
      case None => None
      case Some(digits) =>
        assert ("tt" + digits)[2..] == digits;
        Some("tt" + digits)
    else None
  }

  /** `get_film(slug)` once the library has produced the movie. A `details`
      element that is not a dict makes `d.get` raise, so the call fails. */
  function GetFilm(slug: string, movie: RawMovie): (r: Result<FilmDetails>)
    ensures r.Failure? <==> exists i :: 0 <= i < |movie.details| && movie.details[i].ItemOther?
    ensures r.Success? ==>
              && r.value.slug == slug && r.value.title == movie.title
              // copied from the movie as the library gives them
              && r.value.letterboxdId == movie.id && r.value.year == movie.year && r.value.poster == movie.poster
              && r.value.runtime == movie.runtime && r.value.rating == movie.rating
              && r.value.genres == movie.genres && r.value.crew == movie.crew && r.value.cast == movie.cast
              && r.value.directors == (if "director" in movie.crew then movie.crew["director"] else [])
              && r.value.countries == OfType(movie.details, "country")
              && r.value.languages == OfType(movie.details, "language")
              && r.value.studios == OfType(movie.details, "studio")
              && r.value.tmdbId == TmdbId(movie.tmdbLink) && r.value.imdbId == ImdbId(movie.imdbLink)
  {
    if exists i :: 0 <= i < |movie.details| && movie.details[i].ItemOther? then
      Failure("'str' object has no attribute 'get'")
    else
      Success(FilmDetails(
        slug, movie.id, movie.title, movie.year, movie.poster, movie.runtime, movie.genres, movie.rating,
        if "director" in movie.crew then movie.crew["director"] else [],
        movie.crew, movie.cast,
        OfType(movie.details, "country"), OfType(movie.details, "language"), OfType(movie.details, "studio"),
        TmdbId(movie.tmdbLink), ImdbId(movie.imdbLink)))
  }
}
