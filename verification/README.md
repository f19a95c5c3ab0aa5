# your_letterboxd — a Dafny model of the sync and the read API

The program mirrors one Letterboxd user's data into a local database and serves
statistics about it. It has three parts, and this project models the logic of
each:

- **The scraping client** (`src/scraper/client.py`):
  - the rate limiter that spaces requests at least `min_delay` seconds apart
  - the normalisers that turn the scraping library's nested dictionaries into flat rows. They skip rows that are not dicts, build the `YYYY-MM-DD` diary date, and split a film's details into countries, languages and studios by `type`. They also pull the TMDB and IMDb ids out of links with the leftmost `\d+` match.
- **The sync** (`src/scraper/sync.py`):
  - the film get-or-create with its re-fetch rule and the 503 abort
  - the merge of the watched list
  - the diary upsert keyed by the entry id, followed by the recomputation of the per-film aggregates
  - the add-only watchlist merge
  - the status logic of `sync_all`: completed, completed with errors, or failed and re-raised
- **The API** (`src/api/main.py`):
  - the pure aggregation behind the dashboard: totals, the top-10 counters, the rating distribution, films by year, and the recent and liked cards
  - the filters and the stable sort of the films list
  - the diary's year and month windows, including the December wrap and the `ValueError` a year of 9999 causes
  - the `api/` guard of the single-page-app route

The database is one immutable `Store`:
- films keyed by slug
- user-film rows keyed by film id
- diary entries and watchlist items in table order
- the sync log

A sync threads a `Run` through its steps: the store, the failed fetches in order, and the slugs whose details were requested. Each step either succeeds with a value or raises with a message (`Step`). The network is a parameter:
- the four listings arrive as `Result`s (`Scrape`)
- the detail fetch is a function from slug to `Result` (`Fetcher`)
- the clock is an integer `now`

The API reads the three tables as sequences, in the order the query returns them (`Tables`).

Python semantics are written out explicitly:
- truthiness (`None`, `0`, `""` and `[]` are false)
- `dict.get` defaults
- `isinstance(x, dict)`, modelled by the `Raw` and `Item` datatypes
- the stable `list.sort` in both directions
- `Counter.most_common`, which sorts by count descending and breaks ties by insertion order
- `max(key=…)`, which picks the first maximal element
- floor division for the decade

The modules are:
- `Wrappers` (Option, Result)
- `Text` (decimal text, prefix and substring tests, the `re.search` capture, string order)
- `Dates` (calendar, order, `strptime("%Y-%m-%d")`)
- `Sorting` (stable insertion sort and its stability)
- `Tallies` (`Counter` and `most_common`)
- `Client`, `Models`, `Sync` and `Api`

The model follows the code as written:
- Requests are not single-flight.
- There is no checkpointing or backoff.
- The watchlist merge only adds.
- Diary entries are keyed by their scraped entry id.

## Model

| member | source | states |
|---|---|---|
| Client.SleepFor | src/scraper/client.py:27-34 | The limiter sleeps exactly when a previous request exists and less than `min_delay` has elapsed. The sleep ends exactly `min_delay` after that request. |
| Client.Wait | src/scraper/client.py:27-35 | After `wait` a request time is recorded, no earlier than the call. It is at least `min_delay` after the previous one, and the delay itself is unchanged. |
| Client.RecordedTimes | src/scraper/client.py:20-35 | Over any sequence of calls, consecutive recorded request times are at least `min_delay` apart, whatever the sleep overshoot. |
| Client.DictPositions | src/scraper/client.py:110-116 | The normalisers visit exactly the dict-valued rows, in order, each once. |
| Client.KeepDicts | src/scraper/client.py:110-124 | One output row per dict-valued input row, in order, built from that row alone. |
| Client.UserFilms | src/scraper/client.py:93-124 | One watched row per dict-valued movie, keyed by its slug, with its name, year and rating. `liked` is true exactly when the library said `True`. A non-dict answer or a non-dict `movies` yields nothing. |
| Client.DiaryDateText | src/scraper/client.py:158-160 | A date string exists exactly when the date is a dict with a truthy year, missing month and day defaulting to 1. It begins with the year and a dash. Reading it back with `%Y-%m-%d` gives the scraped year, month and day exactly when they form a real date with a four-digit year, and fails otherwise. |
| Client.YmdTextReadsBack | src/scraper/client.py:158-160 | Reading the built string back with `%Y-%m-%d` gives the same date exactly when it is a valid date with a four-digit year, and fails otherwise. |
| Client.DiaryRows | src/scraper/client.py:126-173 | One diary row per dict-valued entry, keyed by the entry id, from `entries` or else the top level. Rewatch and liked are true only when the library said `True`. |
| Client.WatchlistRows | src/scraper/client.py:175-201 | One watchlist row per dict-valued item, with its slug, name and year. A non-dict answer yields nothing. |
| Client.OfType | src/scraper/client.py:224-227 | Selecting details by type keeps only dict items of that type, keeps every such item, and adds nothing. |
| Client.DetailsPartition | src/scraper/client.py:224-227 | Countries, languages and studios are pairwise disjoint and together no more than the details. |
| Client.OfTypeAppend | src/scraper/client.py:224-227 | Selecting by type distributes over concatenation, so the result is in detail order. |
| Client.TmdbId | src/scraper/client.py:230-235 | A TMDB id exists exactly when the link is non-empty and contains `/movie/` followed by a digit. It is the maximal digit run after the leftmost such match. |
| Client.ImdbId | src/scraper/client.py:237-242 | An IMDb id exists exactly when the link contains `/title/tt` followed by a digit. It is `tt` plus the maximal digit run after the leftmost such match. |
| Client.GetFilm | src/scraper/client.py:203-283 | Fetching details fails exactly when some detail is not a dict. Otherwise the details hold the slug; the library's id, title, year, poster, runtime, genres, rating, crew and cast as given; the directors from the crew; the typed partitions; and both ids. |
| Dates.ParseIsoDate | src/scraper/sync.py:208-213 | A parsed diary date is always a real calendar date. |
| Dates.YearFieldReadsBack | src/scraper/sync.py:208-213 | `%Y` accepts a rendered year exactly when it has four digits, and leaves the rest. |
| Dates.MonthFieldReadsBack | src/scraper/sync.py:208-213 | `%m` accepts a two-digit month exactly when it is 1 to 12. |
| Dates.DayFieldReadsBack | src/scraper/sync.py:208-213 | `%d` accepts a two-digit day exactly when it is 1 to 31. |
| Sync.GetOrCreateFilm | src/scraper/sync.py:307-367 | A film with a real title is returned untouched, with no fetch and no write. Otherwise the row is created or reused under the same id, and details are fetched when asked. A 503 or "Service Unavailable" error raises the rate-limit message and leaves the row as it was (NULL columns when new). Any other failure is recorded and leaves the slug as the title. Success fills the row, and the title falls back to the slug. |
| Models.ApplyDetails | src/scraper/sync.py:324-352 | Fetched details overwrite every modelled column of the film. The id and slug stay, and an empty or missing title becomes the slug. |
| Models.ApplyDetailsOverwrites | src/scraper/sync.py:324-352 | The result does not depend on the film's earlier columns, only on its id and slug. |
| Models.ApplyDetailsIdempotent | src/scraper/sync.py:324-352 | Applying the same details twice is the same as once. |
| Sync.GetOrCreateFilmValid | src/scraper/sync.py:307-367 | A consistent store stays consistent: films stay stored under their own slug with distinct ids below the id counter. |
| Sync.RateLimitedFilmStaysUnfetched | src/scraper/sync.py:311-315 | A new film whose fetch hit the rate limit keeps a NULL title. Every later lookup returns it unchanged without fetching, because only a slug-title marks a film for a re-fetch. |
| Sync.GetOrCreateFilmRecorded | src/scraper/sync.py:354-362 | Every failed fetch is recorded with its message, in the order of the requests, whatever follows. A lookup that returns normally recorded no rate-limit failure. |
| Sync.GetOrCreateFilmKeepsFilms | src/scraper/sync.py:307-367 | No stored film is lost or changes id. |
| Sync.MergeWatched | src/scraper/sync.py:160-174 | The merged row is watched. It takes the scraped rating only when that is truthy, and `liked` only turns on. Watch count and dates are untouched. |
| Sync.WatchedStep | src/scraper/sync.py:143-174 | A slugless row changes nothing. Otherwise the film's user row exists, is watched and equals the merge. The count is 1 exactly when that row is new, and every other user row is unchanged. |
| Sync.UpsertWatched | src/scraper/sync.py:155-174 | Merging a watched row touches only its film's user row, creating it when missing. The count is 1 exactly when the row is new, and the map grows by that count. The merged row is the merge over the old row or a new one, and every user row stays under its film id. |
| Sync.WatchedMergeKeepsTransitive | src/scraper/sync.py:131-177 | Watched, liked and truthy-rating facts survive any number of merges. |
| Sync.SyncWatchedRows | src/scraper/sync.py:131-177 | The watched sync returns the number of user rows it created. No user row is removed, a watched or liked row stays so, and a rating only gives way to a truthy one. Nothing outside films and user rows changes. It raises only the rate-limit message. |
| Sync.SyncWatchedRowsMarksAll | src/scraper/sync.py:143-174 | After a watched sync that returns, every scraped film with a slug has a watched user row. |
| Sync.FindEntry | src/scraper/sync.py:198-200 | The lookup finds the first diary entry with the given entry id, or reports that none exists. |
| Sync.ParsedDate | src/scraper/sync.py:208-213 | A stored date exists only when the scraped string parses to a valid date. A non-empty string is stored exactly as it parses, so a parse failure stores NULL. |
| Sync.Overwrite | src/scraper/sync.py:202-206 | An update overwrites rating, rewatch, liked and the timestamp. It keeps the entry id, the film and the date. |
| Sync.NewEntry | src/scraper/sync.py:207-225 | A new entry carries the scraped id, the film, the parsed date, rating, rewatch and liked. |
| Sync.Upsert | src/scraper/sync.py:198-225 | An existing entry with the id is updated in place, or else one entry is appended. Earlier entries keep id, film and date, distinct ids stay distinct, and the count is 1 exactly for an insert. |
| Sync.DiaryStep | src/scraper/sync.py:185-225 | A slugless row changes nothing. Otherwise the film exists, its id is reported for the aggregates, and the diary is the upsert. |
| Sync.SyncDiaryRows | src/scraper/sync.py:181-229 | The diary loop returns the number of inserted entries. Earlier entries keep their id, film and date, distinct ids stay distinct, and only films and the diary change. It raises only the rate-limit message. |
| Sync.SyncDiaryRowsDue | src/scraper/sync.py:185-225 | After a diary loop that returns, every scraped row with a slug is in the diary and its film is due for aggregation. Only films some scraped row names are due. |
| Sync.EntriesFor | src/scraper/sync.py:237-244 | A film's entries are exactly the diary entries of that film, with multiplicity. |
| Sync.DatesOf | src/scraper/sync.py:262 | The dates are exactly the known dates of the entries. |
| Sync.EarliestDate | src/scraper/sync.py:262-264 | `min` returns a date of the list that is no later than any other. |
| Sync.LatestDate | src/scraper/sync.py:262-265 | `max` returns a date of the list that is no earlier than any other. |
| Sync.LatestRatedIndex | src/scraper/sync.py:267-270 | The chosen entry is rated and has the greatest watch key, with a missing date counting as the minimum. It is the first such entry. |
| Sync.Aggregate | src/scraper/sync.py:243-272 | Watch count is the number of entries, and liked is true iff some entry is liked. First and last watched are the earliest and latest known dates, or unchanged when no date is known. The rating is that of the latest rated entry, or unchanged when none is rated. |
| Sync.UpdateAggregates | src/scraper/sync.py:233-274 | Exactly the due films with entries get (or gain) a user row equal to their aggregate. Every other row and every other table is unchanged. |
| Sync.UpdateAggregatesValid | src/scraper/sync.py:233-274 | Aggregation keeps the store consistent: it never touches the films or the id counter, and every user row keeps the film id it is stored under. |
| Sync.AggregateCounts | src/scraper/sync.py:237-260 | After aggregation a due film's watch count equals its number of diary entries, and liked reflects whether any is liked. |
| Sync.SyncDiary | src/scraper/sync.py:179-231 | A raised diary sync leaves the user rows as they were. Otherwise exactly the films a scraped row names that have entries gain or keep a user row. Each of those rows is the aggregate of the film's entries over its row from before the sync, or over a new row. Every other user row is unchanged, and nothing stored earlier is lost. |
| Sync.DueIsNamed | src/scraper/sync.py:185-231 | The films due for aggregation are exactly the films that some scraped row with a slug names. |
| Sync.WatchlistStep | src/scraper/sync.py:287-302 | One watchlist row appends exactly its own film's id when the film was not listed before the sync, and otherwise leaves the watchlist as it was. |
| Sync.SyncWatchlistRows | src/scraper/sync.py:281-302 | The watchlist becomes the old list followed by the ids of the scraped films not listed before, in row order and once per such row. The count is the number of those ids, and every scraped film ends up listed. |
| Sync.SyncWatchlist | src/scraper/sync.py:276-305 | The watchlist merge never removes an item and only appends films that were not listed. After a success the new items are exactly the scraped films not listed before, in row order, and every scraped film with a slug is listed. |
| Sync.QuotedSlugs | src/scraper/sync.py:95 | The failed-slug list is empty exactly when nothing failed, and otherwise starts with the first slug in quotes. |
| Sync.QuotedSlugsNamesAll | src/scraper/sync.py:95 | Every failed slug appears in the list, in single quotes. |
| Sync.FinishedLog | src/scraper/sync.py:91-95 | The status is completed exactly when no fetch failed, and completed with errors otherwise. Items processed is diary plus watchlist. An error message exists exactly when something failed. It starts with `Failed films: [` and the first failed slug in quotes, and it names every failed slug in quotes. |
| Sync.SyncUser | src/scraper/sync.py:111-129 | A failed profile fetch raises its message and changes nothing. A successful one overwrites the profile and nothing else. |
| Sync.SyncSteps | src/scraper/sync.py:65-84 | The steps only extend the store and keep it consistent. A failed profile raises before any write, and once every listing was fetched only the rate limit can raise. |
| Sync.SyncStepsFacts | src/scraper/sync.py:65-84 | Failed fetches are recorded exactly, in order. When the steps return, every listing was fetched and no recorded failure is the rate limit. The diary and watchlist counts are the numbers of entries and items added, and at least the watched count of user rows was added. |
| Sync.FailuresAmongSound | src/scraper/sync.py:357 | Every recorded failure names a requested slug whose fetch failed with exactly that message. |
| Sync.SyncAll | src/scraper/sync.py:32-109 | Exactly one log is appended. It is failed exactly when the exception is re-raised, carrying its message. Otherwise the log is the finished log of the returned failures and counts, and films synced is the film count. Stored films, entries, watchlist items and user rows are never removed. A consistent store stays consistent: films under their own slug, distinct ids below the counter, user rows under their film id. |
| Sync.SyncAllReports | src/scraper/sync.py:32-109 | When a sync returns, it fetched every listing. Its diary and watchlist counts are the numbers of entries and items it added, and at least the watched count of user rows was added. The returned failures are exactly the failed fetches among the requested slugs, in request order, none of them the rate limit. |
| Tallies.CountAll | src/api/main.py:108-115 | A counter holds each distinct name once, with its number of occurrences. |
| Tallies.BumpKeys | src/api/main.py:115 | Counting a name keeps the order of the counter's keys, and a new name goes last. |
| Tallies.CountAllKeys | src/api/main.py:108-115 | The counter's keys are the names in the order they first occur. |
| Tallies.SubDistinct | src/api/main.py:116 | A selection of pairs from a counter holds each name at most once. |
| Tallies.MostCommon | src/api/main.py:116 | `most_common(n)` gives at most `n` pairs of the counter, largest counts first, none repeated. Any pair left out is no larger than every pair kept, and then exactly `n` are kept. Pairs with equal counts come in the counter's insertion order, and the kept ones are the first of them. |
| Sorting.SortBy | src/api/main.py:398-405 | Sorting is a permutation ordered by the key in the requested direction. |
| Sorting.SortByStable | src/api/main.py:398-405 | Sorting keeps the relative order of rows with equal keys, in both directions. |
| Sorting.TakeSorted | src/api/main.py:116 | The first `n` of a stable sort repeat nothing from the input, and among equal keys they are the earliest ones in input order. |
| Api.CountTotals | src/api/main.py:78-81 | Watched is the number of watched rows. Logged counts those with a positive watch count and never exceeds watched, with equality exactly when every row is logged. Unlogged is the number of the rest. |
| Api.DecadeStart | src/api/main.py:134 | The decade starts at a multiple of ten and contains the year, negative years included. |
| Api.DecadeLabelSame | src/api/main.py:129-136 | Two years share a decade label exactly when they share a decade. |
| Api.DecadeLabel | src/api/main.py:134 | The label is the decade's first year followed by `s`: it ends in `0s`, and the digits before the `s` read back as that year, with a minus sign for a negative one. |
| Api.FilterMap | src/api/main.py:108-115 | Picking the values an item rule accepts keeps them in order. A value is picked as many times as the items mapped to it, and nothing is dropped exactly when every item is accepted. |
| Api.GenreName | src/api/main.py:113-115 | A genre that is not a dict counts by its text when that is non-empty. A dict counts by its truthy name when its type is `genre` or missing, and a dict of any other type never counts. |
| Api.GenrePick | src/api/main.py:111-115 | A film feeds the genre counter exactly the names its genres count as, each once per genre that carries it. |
| Api.DirectorName | src/api/main.py:124-126 | A director that is not a dict counts by its text when that is non-empty. A dict counts by its truthy name, whatever its type. |
| Api.DirectorPick | src/api/main.py:122-126 | A film feeds the director counter exactly the names its directors count as, each once per director that carries it. |
| Api.DecadePick | src/api/main.py:133-135 | A film counts once towards a decade exactly when its year is truthy, and then towards the label of that year's decade. |
| Api.DictName | src/api/main.py:194-196 | A cast or crew member, country, language or studio counts by its truthy name only when it is a dict. Any other value never counts. |
| Api.DictNames | src/api/main.py:199-256 | Countries, languages, studios, writers, composers and cinematographers feed their counters exactly the truthy names of their dict items, each once per item. Nothing is dropped exactly when every item is a dict with a truthy name. |
| Api.ActorPick | src/api/main.py:192-196 | Only the first five billed actors count: at most five names, exactly the truthy names of the dicts among the first five cast members, each once per member. |
| Api.Collect | src/api/main.py:107-257 | A counter sees exactly the names picked from the stored films of the watched rows. |
| Api.CollectAppend | src/api/main.py:107-257 | The names fed to a counter are, row after row, the picks of each watched row, so each name is counted once per occurrence. |
| Api.CollectOne | src/api/main.py:109-115 | One watched row contributes the picks of its film when the film is stored, and nothing otherwise. |
| Api.Top | src/api/main.py:116 | A top list has at most ten distinct names, each with its true count, in descending order. A name left out has a count no larger than every listed one, and then the list is full. Names with equal counts come in the order they were first counted. |
| Api.UserRatings | src/api/main.py:92 | The ratings counted are the truthy ratings of the watched rows, each as many times as rows carry it. |
| Api.RatingDistribution | src/api/main.py:138-145 | There are ten buckets, 0.5 to 5 in steps of a half, each holding how many ratings equal it. |
| Api.RatingDistributionTotal | src/api/main.py:138-145 | The buckets sum to the number of ratings on the half-star grid. That equals the number of ratings exactly when every rating is on the grid. |
| Api.FilterKeepsAll | src/api/main.py:78-81 | A filter keeps everything exactly when everything passes. |
| Api.FilterSplit | src/api/main.py:78-81 | A filter and its complement partition the rows. |
| Api.LatestFirst | src/api/main.py:292 | Sorting by date descending and taking `n` gives entries of the input, latest first, none repeated. An entry left out is no later than all kept, and then `n` are kept. Entries of the same date keep their input order, and the kept ones are the first of them. |
| Api.RecentEntries | src/api/main.py:170-175 | The recent list holds at most twelve dated entries, latest first, none repeated. A dated entry left out is no later than any listed one. Entries of the same date keep their table order. |
| Api.LikedEntries | src/api/main.py:290-292 | The liked list holds at most twelve liked entries, none repeated, latest first with a missing date counting as the minimum. A liked entry left out is no later than any listed one. Entries of the same date keep their table order. |
| Api.FindFilm | src/api/main.py:178 | `next(...)` finds a film with the id exactly when one exists. |
| Api.FilmsDict | src/api/main.py:75 | The id dictionary has exactly the ids of the films, each mapped to a film with that id. |
| Api.FindFilmAgrees | src/api/main.py:75 | With distinct ids the first-match search and the dictionary agree. |
| Api.Cards | src/api/main.py:176-186 | Every card is built from one entry and its stored film. Every entry whose film is stored gets its card, once per occurrence. No card is dropped exactly when every film is stored. |
| Api.CardsAppend | src/api/main.py:176-186 | Cards come in entry order: the cards of two runs of entries are the cards of each, one after the other. |
| Api.MonthWithinYear | src/api/main.py:104-105 | For a valid date, films this month are no more than films this year, which are no more than the dated entries. |
| Api.CountSince | src/api/main.py:104-105 | The count covers all entries exactly when every one is dated on or after the start, and none exactly when no one is. |
| Api.CountSinceAppend | src/api/main.py:104-105 | The count adds up over consecutive runs of entries, one per entry dated on or after the start. |
| Api.YearsOf | src/api/main.py:161-164 | The years counted are the years of the dated entries, each as many times as entries were watched in it. |
| Api.FilmsByYear | src/api/main.py:160-168 | Films by year lists each year of a dated entry once, in strictly ascending order, with its entry count. |
| Api.GetDashboard | src/api/main.py:64-333 | The dashboard's totals add up. Films this month, this year and dated entries are ordered, and there are ten rating buckets. Every top list has at most ten names and the card lists at most twelve. The liked and rewatch totals count those entries. |
| Api.TypedNames | src/api/main.py:388 | A film row's genres are the names of its dict genres typed `genre`, in order and with repeats. |
| Api.DictItemNames | src/api/main.py:389 | A film row's directors are the names of its dict directors, in order and with repeats. |
| Api.Kept | src/api/main.py:364-378 | The chain of `continue`s keeps a film exactly when it passes the logged, genre and decade filters. |
| Api.Select | src/api/main.py:359-396 | One row per watched row whose film is stored and passes the filters, in the order of the watched rows. Each row occurs exactly as often as watched rows map to it, so none is repeated or dropped. |
| Api.RowOfColumns | src/api/main.py:380-396 | A film row carries the film's id, title, year, poster, site rating and runtime, and the user's rating, liked flag and watch dates. Its genres and directors are the typed and dict names with repeats. Its watch count is 0 when missing, and it is in the diary exactly when it is logged. |
| Api.OrderFor | src/api/main.py:398-405 | Only `title`, `year` and `rating` sort. Each compares rows as Python's `<` on the title or `""`, the year or 0, and the rating or 0. |
| Api.GetFilms | src/api/main.py:337-407 | The films list is a permutation of the filtered rows, sorted stably by title, year or rating in the requested direction, or in query order for any other sort value. |
| Api.GetFilmsStable | src/api/main.py:398-405 | Sorting the films list keeps the query order among rows with equal keys. |
| Api.MakeDate | src/api/main.py:473-484 | Building a date succeeds exactly for a calendar date. |
| Api.DiaryWindows | src/api/main.py:473-484 | The diary filters raise exactly for a truthy year outside 1 to 9998, or for a truthy month outside 1 to 12 with one. There is no window without a year, and a month without a year is ignored. |
| Api.DiaryWindowsSelect | src/api/main.py:473-484 | A valid date lies in every window exactly when its year matches and, when given, its month matches. The December window ends at January of the next year. |
| Api.Joined | src/api/main.py:487-506 | The join pairs each entry whose film is stored with that film, in entry order, and drops the others. Each pair occurs exactly as often as its entry. |
| Api.GetDiary | src/api/main.py:465-508 | The diary listing fails exactly when the windows do. Every listed entry has its film and the requested year and month, and every entry with a stored film in the requested period is listed. A listed entry occurs exactly as often as in the table. |
| Api.ServeSpa | src/api/main.py:618-628 | A path is answered 404 exactly when it starts with `api/`. Otherwise the index page is served when it exists, and the not-built page when it does not. |

## Left out

- Network, HTML parsing and the scraping library are outside the model:
  - The listings and the detail fetch are parameters.
  - `get_user`, the profile normaliser, is not modelled. `_sync_user` receives its result. The sync stores the favourites and profile statistics too, but they are not modelled: `Models.Profile` omits them.
- The limiter's clock and sleep are inputs. The model takes the time read before and after the sleep, and the sleep may overshoot but never undershoot. `rate_limited` and `LetterboxdClient._wait` only call `wait`.
- The database layer:
  - SQLAlchemy sessions, commits, the `running` log state and the log timestamps are left out.
  - Column defaults live in `models.py`, which is not part of this model. New user rows are taken to start with NULL rating, liked and watch count, and new diary entries with no `updated_at`.
  - Only one user's rows are modelled.
  - The `updated_at` of a watched merge and of an aggregate is the clock input, which no property depends on.
- The following model the SQL query order as an input (the order of the table sequences): `Api.GetDiary` (`ORDER BY watched_date DESC`), `Api.GetFilms` (rows before the sort), the dashboard counters (insertion order of ties), and `Sync.LatestRatedIndex` with `Sync.Aggregate`, whose first maximal entry depends on the unordered diary query (src/scraper/sync.py:238-241, 269).
- Floating point: total hours, the rating averages, the Letterboxd average and the runtime statistics (average, longest, shortest) of the dashboard are left out. Ratings are exact reals, and only equality and order are used.
- The dashboard's `films_by_month` (30-day steps back from the clock, `strftime` month labels) is left out.
- The dashboard's card dictionaries carry the stored columns. `isoformat` rendering is not modelled.
- Python's `str()` of a list is modelled for the quotes around each failed slug. Escaping inside a slug is not modelled.
- Non-ASCII Unicode digits, which `strptime` and `\d` would accept, are treated as non-digits.
- `None` and an absent key are the same `Option.None`. An explicit `None` where `dict.get` has a default is therefore read as absent. For example, a genre dict with an explicit `type: None` counts as untyped in `Api.GenreName`, while the source skips it.
- Crew values that are not a dict of lists are treated as empty.
- Some raw inputs cannot be written in the datatypes, so the failures they cause are not modelled. They are a non-dict `actions` in a diary entry, where `actions.get` raises and the diary listing fails; a non-dict `entries`, whose `.items()` raises; and a truthy non-dict `crew`, which raises inside `get_film` and so becomes a failed fetch that is not the rate limit.
- The detail fetch is one function from slug to result for the whole sync. In the source a failed non-503 fetch leaves the slug as the title, so a later listing in the same sync fetches that film again, and that second call may answer differently. In the model it repeats the first answer. A different answer is modelled only across syncs, as in `Sync.RateLimitedFilmStaysUnfetched`, whose later lookup takes a second fetcher.
- The other API routes are not part of this model: `get_stats`, `get_film_detail`, `get_watchlist`, `get_reviews`, `get_profile`, `get_calendar` and `trigger_sync`. The FastAPI routing and background tasks are not modelled either.
- The sync also stores film columns that no modelled reader uses: original and alternative titles, tagline, description, banner, trailer, site URL, watcher statistics and popular reviews. `FilmDetails` and `Film` leave them out, so `Models.ApplyDetails` states the overwrite only for the modelled columns. Diary review text is not stored by the sync at all.
- Sync.SyncAllReports: the slugs a sync requested are returned as `requested` and characterised through the failures only. The contract does not restate which slugs the listings cause to be fetched. The watched count is a lower bound on the user rows added, not an equality, because the diary's aggregation can create user rows too.
- Api.GetDashboard: its contract bounds and relates the fields, but does not restate each list's contents. Those contents are stated by the members that compute each field: Api.Top, Api.Collect, the pick rules (Api.GenrePick, Api.DirectorPick, Api.DecadePick, Api.ActorPick and Api.DictNames, with Api.GenreName, Api.DirectorName and Api.DictName), Api.RatingDistribution, Api.FilmsByYear, Api.RecentEntries, Api.LikedEntries and Api.Cards.
