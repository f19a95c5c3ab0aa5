/** The read side of the web API: the statistics `get_dashboard` derives from
    the stored rows, the filter-and-sort pipeline of `get_films`, the date
    window of `get_diary`, and the path guard of the single-page-app fallback.
    Each query result arrives as a sequence in the order the database returns
    it; that order is an input of the model. */
module Api {
  import opened Wrappers
  import opened Text
  import opened Dates
  import opened Sorting
  import opened Tallies
  import opened Client
  import opened Models

  /** The three tables the read model queries, each in query order. */
  datatype Tables = Tables(films: seq<Film>, userFilms: seq<UserFilm>, entries: seq<DiaryEntry>)

  // ---------------------------------------------------------------------------
  // Filtering and counting
  // ---------------------------------------------------------------------------

  /** `[x for x in s if p(x)]`. */
  function Filter<T(!new)>(s: seq<T>, p: T -> bool): (r: seq<T>)
    ensures |r| <= |s|
    ensures forall i :: 0 <= i < |r| ==> p(r[i])
    ensures forall x :: x in r <==> x in s && p(x)
    ensures multiset(r) <= multiset(s)
  {
    if |s| == 0 then []
    else
      assert s == [s[0]] + s[1..];
      (if p(s[0]) then [s[0]] else []) + Filter(s[1..], p)
  }

  /** Every element passes exactly when nothing is filtered out. */
  lemma {:induction false} FilterKeepsAll<T(!new)>(s: seq<T>, p: T -> bool)
    ensures |Filter(s, p)| == |s| <==> forall i :: 0 <= i < |s| ==> p(s[i])
  {
    if |s| > 0 {
      FilterKeepsAll(s[1..], p);
      if forall i :: 0 <= i < |s[1..]| ==> p(s[1..][i]) {
        if p(s[0]) {
          forall i | 0 <= i < |s| ensures p(s[i]) {
            if i > 0 { assert s[i] == s[1..][i - 1]; }
          }
        }
      } else {
        var i :| 0 <= i < |s[1..]| && !p(s[1..][i]);
        assert !p(s[i + 1]);
      }
    }
  }

  /** Nothing is kept exactly when no element passes. */
  lemma FilterKeepsNone<T(!new)>(s: seq<T>, p: T -> bool)
    ensures |Filter(s, p)| == 0 <==> forall i :: 0 <= i < |s| ==> !p(s[i])
  {
  }

  /** Filtering by `p` and by its negation splits `s` in two. */
  lemma {:induction false} FilterSplit<T(!new)>(s: seq<T>, p: T -> bool, q: T -> bool)
    requires forall x :: q(x) == !p(x)
    ensures |Filter(s, p)| + |Filter(s, q)| == |s|
  {
    if |s| > 0 {
      FilterSplit(s[1..], p, q);
    }
  }

  /** A weaker test keeps at least as many elements. */
  lemma {:induction false} FilterMonotone<T(!new)>(s: seq<T>, p: T -> bool, q: T -> bool)
    requires forall x :: p(x) ==> q(x)
    ensures |Filter(s, p)| <= |Filter(s, q)|
  {
    if |s| > 0 {
      FilterMonotone(s[1..], p, q);
    }
  }

  /** How many elements of `s` the test `f` maps to `y`. */
  ghost function CountWhere<T, U>(s: seq<T>, f: T -> Option<U>, y: U): nat {
    if |s| == 0 then 0 else (if f(s[0]) == Some(y) then 1 else 0) + CountWhere(s[1..], f, y)
  }

  /** `[g(x) for x in s if c(x)]`, with `f(x)` standing for `Some(g(x))` when
      `c(x)` holds and `None` otherwise: the values of the kept elements, in order. */
  function FilterMap<T(!new), U(!new)>(s: seq<T>, f: T -> Option<U>): (r: seq<U>)
    ensures |r| <= |s|
    ensures |r| == |s| <==> forall i :: 0 <= i < |s| ==> f(s[i]).Some?
    ensures forall y :: y in r <==> exists i :: 0 <= i < |s| && f(s[i]) == Some(y)
    // each value as often as elements map to it
    ensures forall y :: multiset(r)[y] == CountWhere(s, f, y)
  {
    if |s| == 0 then []
    else
      var rest := FilterMap(s[1..], f);
      var r := (if f(s[0]).Some? then [f(s[0]).value] else []) + rest;
      FilterMapShift(s, f, rest);
      r
  }

  lemma FilterMapShift<T(!new), U(!new)>(s: seq<T>, f: T -> Option<U>, rest: seq<U>)
    requires |s| > 0
    requires |rest| <= |s| - 1
    requires |rest| == |s| - 1 <==> forall i :: 0 <= i < |s[1..]| ==> f(s[1..][i]).Some?
    requires forall y :: y in rest <==> exists i :: 0 <= i < |s[1..]| && f(s[1..][i]) == Some(y)
    ensures var r := (if f(s[0]).Some? then [f(s[0]).value] else []) + rest;
            && (|r| == |s| <==> forall i :: 0 <= i < |s| ==> f(s[i]).Some?)
            && (forall y :: y in r <==> exists i :: 0 <= i < |s| && f(s[i]) == Some(y))
  {
  }

  lemma FilterMapCons<T(!new), U(!new)>(s: seq<T>, f: T -> Option<U>)
    requires |s| > 0
    ensures FilterMap(s, f) == (if f(s[0]).Some? then [f(s[0]).value] else []) + FilterMap(s[1..], f)
  {
  }

  /** When exactly one value maps to `y`, `y` is picked as often as that value occurs. */
  lemma {:induction false} CountWhereExact<T, U>(s: seq<T>, f: T -> Option<U>, y: U, x: T)
    requires forall z :: f(z) == Some(y) <==> z == x
    ensures CountWhere(s, f, y) == multiset(s)[x]
  {
    if |s| > 0 {
      assert s == [s[0]] + s[1..];
      CountWhereExact(s[1..], f, y, x);
    }
  }

  /** A filter keeps every copy of an element that passes. */
  lemma {:induction false} FilterKeepsCopies<T(!new)>(s: seq<T>, p: T -> bool, x: T)
    requires p(x)
    ensures multiset(Filter(s, p))[x] == multiset(s)[x]
  {
    if |s| > 0 {
      assert s == [s[0]] + s[1..];
      FilterKeepsCopies(s[1..], p, x);
    }
  }

  /** Mapping a concatenation maps each part: the values come in the order of
      their elements. */
  lemma {:induction false} FilterMapAppend<T(!new), U(!new)>(a: seq<T>, b: seq<T>, f: T -> Option<U>)
    ensures FilterMap(a + b, f) == FilterMap(a, f) + FilterMap(b, f)
  {
    if |a| == 0 {
      assert a + b == b;
    } else {
      assert (a + b)[1..] == a[1..] + b;
      FilterMapAppend(a[1..], b, f);
    }
  }

  // ---------------------------------------------------------------------------
  // Watched, logged and unlogged totals
  // ---------------------------------------------------------------------------

  predicate IsWatched(uf: UserFilm) {
    uf.watched
  }

  /** `(uf.watch_count or 0) > 0`: the film has diary entries. */
  predicate Logged(uf: UserFilm) {
    uf.watchCount.Some? && uf.watchCount.value > 0
  }

  predicate Unlogged(uf: UserFilm) {
    !Logged(uf)
  }

  datatype Totals = Totals(watched: nat, logged: nat, unlogged: int)

  /** `total_watched`, `total_logged` and `total_unlogged` over the watched rows. */
  function CountTotals(watched: seq<UserFilm>): (t: Totals)
    ensures t.watched == |watched|
    ensures 0 <= t.logged <= t.watched
    ensures t.unlogged == |Filter(watched, Unlogged)| >= 0
    ensures t.logged == t.watched <==> forall i :: 0 <= i < |watched| ==> Logged(watched[i])
  {
    var logged := |Filter(watched, Logged)|;
    FilterSplit(watched, Logged, Unlogged);
    FilterKeepsAll(watched, Logged);
    Totals(|watched|, logged, |watched| - logged)
  }

  // ---------------------------------------------------------------------------
  // Decades
  // ---------------------------------------------------------------------------

  /** `(year // 10) * 10`. Python's floor division and Dafny's Euclidean
      division agree for the positive divisor 10. */
  function DecadeStart(year: int): (d: int)
    ensures d % 10 == 0 && d <= year < d + 10
  {
    (year / 10) * 10
  }

  /** `f"{(year // 10) * 10}s"`. */
  function DecadeLabel(year: int): (s: string)
    ensures |s| >= 2 && s[|s| - 1] == 's' && s[|s| - 2] == '0'
    // the digits before the "s" read back as the decade's first year
    ensures 0 <= year ==> AllDigits(s[..|s| - 1]) && DigitsValue(s[..|s| - 1]) == DecadeStart(year)
    ensures year < 0 ==> s[0] == '-' && AllDigits(s[1..|s| - 1]) && DigitsValue(s[1..|s| - 1]) == -DecadeStart(year)
  {
    var d := DecadeStart(year);
    DecadeDigits(d);
    var s := IntToString(d) + "s";
    assert s[..|s| - 1] == IntToString(d);
    assert d < 0 ==> s[1..|s| - 1] == IntToString(d)[1..];
    s
  }

  /** The text of a multiple of ten ends in "0", and its digits read back. */
  lemma DecadeDigits(d: int)
    requires d % 10 == 0
    ensures var t := IntToString(d);
            && t[|t| - 1] == '0'
            && (0 <= d ==> DigitsValue(t) == d)
            && (d < 0 ==> AllDigits(t[1..]) && DigitsValue(t[1..]) == -d)
  {
    var n := if 0 <= d then d else -d;
    NatToStringRoundTrip(n);
    assert NatToString(n)[|NatToString(n)| - 1] == DigitChar(n % 10);
    if d < 0 {
      assert IntToString(d)[1..] == NatToString(n);
    }
  }

  /** Two years get the same label exactly when they lie in the same ten-year
      block `[10k, 10k + 10)`. */
  lemma DecadeLabelSame(a: int, b: int)
    ensures DecadeLabel(a) == DecadeLabel(b) <==> DecadeStart(a) == DecadeStart(b)
  {
    if DecadeLabel(a) == DecadeLabel(b) {
      var la := DecadeLabel(a);
      var lb := DecadeLabel(b);
      assert la[..|la| - 1] == IntToString(DecadeStart(a));
      assert lb[..|lb| - 1] == IntToString(DecadeStart(b));
      IntToStringInjective(DecadeStart(a), DecadeStart(b));
    }
  }

  // ---------------------------------------------------------------------------
  // Names fed to the counters of `get_dashboard`
  // ---------------------------------------------------------------------------

  /** Genres: a dict's truthy "name" when its "type" is "genre" or missing; the
      text of any other value when it is not empty. */
  function GenreName(g: Item): (r: Option<string>)
    // a value that is not a dict counts by its text, unless that is empty
    ensures g.ItemOther? ==> (r.Some? <==> g.text != "") && (r.Some? ==> r.value == g.text)
    // a dict of another type never counts
    ensures g.ItemDict? && g.kind.Some? && g.kind.value != "genre" ==> r.None?
    // a dict typed "genre", or untyped, counts by its truthy name
    ensures g.ItemDict? && (g.kind.None? || g.kind == Some("genre")) ==>
              (r.Some? <==> g.name.Some? && g.name.value != "") && (r.Some? ==> r == g.name)
  {
    match g
    case ItemOther(t) => if t != "" then Some(t) else None
    case ItemDict(name, kind) =>
      if name.Some? && name.value != "" && kind.GetOr("genre") == "genre" then name else None
  }

  /** Directors: a dict's truthy "name"; the text of any other value. */
  function DirectorName(d: Item): (r: Option<string>)
    ensures d.ItemOther? ==> (r.Some? <==> d.text != "") && (r.Some? ==> r.value == d.text)
    // a dict counts by its truthy name, whatever its type
    ensures d.ItemDict? ==> (r.Some? <==> d.name.Some? && d.name.value != "") && (r.Some? ==> r == d.name)
  {
    match d
    case ItemOther(t) => if t != "" then Some(t) else None
    case ItemDict(name, _) => if name.Some? && name.value != "" then name else None
  }

  /** Actors, countries, languages, studios and crew: a dict's truthy "name";
      other values count for nothing. */
  function DictName(x: Item): (r: Option<string>)
    ensures x.ItemOther? ==> r.None?
    ensures x.ItemDict? ==> (r.Some? <==> x.name.Some? && x.name.value != "") && (r.Some? ==> r == x.name)
  {
    if x.ItemDict? && x.name.Some? && x.name.value != "" then x.name else None
  }

  /** `crew.get(role, [])`. */
  function CrewOf(f: Film, role: string): seq<Item> {
    if role in f.crew then f.crew[role] else []
  }

  /** The names of the named dicts among `items`, in order, each once per dict:
      the loops over countries, languages, studios and the crew roles. */
  function DictNames(items: seq<Item>): (r: seq<string>)
    ensures forall y :: y in r <==> exists i :: 0 <= i < |items| && items[i].ItemDict? && items[i].name == Some(y) && y != ""
    ensures forall y :: multiset(r)[y] == CountWhere(items, DictName, y)
    // nothing is dropped exactly when every item is a dict with a truthy name
    ensures |r| == |items| <==> forall i :: 0 <= i < |items| ==> items[i].ItemDict? && items[i].name.Some? && items[i].name.value != ""
  {
    FilterMap(items, DictName)
  }

  /** `g` makes the genre counter count `y`: a non-empty text, or an untyped
      or genre-typed dict named `y`. */
  predicate CountsAsGenre(g: Item, y: string) {
    y != "" && (g == ItemOther(y) || (g.ItemDict? && g.name == Some(y) && (g.kind.None? || g.kind == Some("genre"))))
  }

  /** `d` makes the director counter count `y`: a non-empty text, or a dict named `y`. */
  predicate CountsAsDirector(d: Item, y: string) {
    y != "" && (d == ItemOther(y) || (d.ItemDict? && d.name == Some(y)))
  }

  /** The genre names a film feeds to the genre counter, in order. */
  function GenrePick(f: Film): (r: seq<string>)
    ensures forall y :: y in r <==> exists i :: 0 <= i < |f.genres| && CountsAsGenre(f.genres[i], y)
    ensures forall y :: multiset(r)[y] == CountWhere(f.genres, GenreName, y)
  {
    FilterMap(f.genres, GenreName)
  }

  /** The director names a film feeds to the director counter, in order. */
  function DirectorPick(f: Film): (r: seq<string>)
    ensures forall y :: y in r <==> exists i :: 0 <= i < |f.directors| && CountsAsDirector(f.directors[i], y)
    ensures forall y :: multiset(r)[y] == CountWhere(f.directors, DirectorName, y)
  {
    FilterMap(f.directors, DirectorName)
  }

  /** Only the first five billed actors of each film count. */
  function ActorPick(f: Film): (r: seq<string>)
    ensures |r| <= 5
    ensures forall y :: y in r <==> exists i :: 0 <= i < |f.cast| && i < 5 && f.cast[i].ItemDict? && f.cast[i].name == Some(y) && y != ""
    ensures forall y :: multiset(r)[y] == CountWhere(Take(f.cast, 5), DictName, y)
  {
    DictNames(Take(f.cast, 5))
  }

  function CountryPick(f: Film): seq<string> { DictNames(f.countries) }
  function LanguagePick(f: Film): seq<string> { DictNames(f.languages) }
  function StudioPick(f: Film): seq<string> { DictNames(f.studios) }
  function WriterPick(f: Film): seq<string> { DictNames(CrewOf(f, "writer")) }
  function ComposerPick(f: Film): seq<string> { DictNames(CrewOf(f, "composer")) }
  function CinematographerPick(f: Film): seq<string> { DictNames(CrewOf(f, "cinematography")) }

  /** A film with a truthy year counts once towards its decade. */
  function DecadePick(f: Film): (r: seq<string>)
    ensures |r| <= 1
    ensures |r| == 1 <==> f.year.Some? && f.year.value != 0
    // the label of the ten-year block that holds the year
    ensures |r| == 1 ==> r[0] == DecadeLabel(f.year.value)
  {
    if f.year.Some? && f.year.value != 0 then [DecadeLabel(f.year.value)] else []
  }

  /** Everything fed to one counter: `pick` applied to the film of each watched
      row, in row order; a row whose film is not stored adds nothing. */
  function Collect(watched: seq<UserFilm>, films: map<nat, Film>, pick: Film -> seq<string>): (r: seq<string>)
    ensures forall x :: x in r <==>
              exists i :: 0 <= i < |watched| && watched[i].filmId in films && x in pick(films[watched[i].filmId])
  {
    if |watched| == 0 then []
    else
      var here := if watched[0].filmId in films then pick(films[watched[0].filmId]) else [];
      var rest := Collect(watched[1..], films, pick);
      assert forall x :: x in rest <==>
          exists i :: 1 <= i < |watched| && watched[i].filmId in films && x in pick(films[watched[i].filmId]) by {
        forall x ensures x in rest <==>
            exists i :: 1 <= i < |watched| && watched[i].filmId in films && x in pick(films[watched[i].filmId]) {
          if x in rest {
            var i :| 0 <= i < |watched[1..]| && watched[1..][i].filmId in films && x in pick(films[watched[1..][i].filmId]);
            assert watched[i + 1] == watched[1..][i];
          }
          if exists i :: 1 <= i < |watched| && watched[i].filmId in films && x in pick(films[watched[i].filmId]) {
            var i :| 1 <= i < |watched| && watched[i].filmId in films && x in pick(films[watched[i].filmId]);
            assert watched[1..][i - 1] == watched[i];
          }
        }
      }
      here + rest
  }

  /** Rows are collected one after another, each adding what its film picks. */
  lemma {:induction false} CollectAppend(a: seq<UserFilm>, b: seq<UserFilm>, films: map<nat, Film>, pick: Film -> seq<string>)
    ensures Collect(a + b, films, pick) == Collect(a, films, pick) + Collect(b, films, pick)
  {
    if |a| == 0 {
      assert a + b == b;
    } else {
      assert (a + b)[1..] == a[1..] + b;
      CollectAppend(a[1..], b, films, pick);
    }
  }

  /** One row adds what its film picks, or nothing when its film is not stored. */
  lemma CollectOne(uf: UserFilm, films: map<nat, Film>, pick: Film -> seq<string>)
    ensures Collect([uf], films, pick) == (if uf.filmId in films then pick(films[uf.filmId]) else [])
  {
    assert [uf][1..] == [];
  }

  /** `counter.most_common(10)` for a counter fed with `names`. */
  function Top(names: seq<string>): (r: seq<Tally<string>>)
    ensures |r| <= 10
    ensures forall i :: 0 <= i < |r| ==> r[i].key in names && r[i].count == multiset(names)[r[i].key]
    ensures forall i, j :: 0 <= i < j < |r| ==> r[i].count >= r[j].count
    ensures forall y :: y in names && (forall i :: 0 <= i < |r| ==> r[i].key != y) ==>
              |r| == 10 && forall i :: 0 <= i < |r| ==> r[i].count >= multiset(names)[y]
    // each name at most once; equal counts in the order the names were first counted
    ensures DistinctKeys(r)
    ensures forall k :: IsPrefix(WithKey(r, CountKey, k), WithKey(CountAll(names), CountKey, k))
  {
    var r := MostCommon(CountAll(names), 10);
    TopFacts(names, r);
    SubDistinct(CountAll(names), r);
    r
  }

  lemma TopFacts(names: seq<string>, r: seq<Tally<string>>)
    requires r == MostCommon(CountAll(names), 10)
    ensures forall i :: 0 <= i < |r| ==> r[i].key in names && r[i].count == multiset(names)[r[i].key]
    ensures forall y :: y in names && (forall i :: 0 <= i < |r| ==> r[i].key != y) ==>
              |r| == 10 && forall i :: 0 <= i < |r| ==> r[i].count >= multiset(names)[y]
  {
    forall i | 0 <= i < |r| ensures r[i].key in names && r[i].count == multiset(names)[r[i].key] {
      TopPairCounted(names, r[i]);
    }
    forall y | y in names && (forall i :: 0 <= i < |r| ==> r[i].key != y)
      ensures |r| == 10 && forall i :: 0 <= i < |r| ==> r[i].count >= multiset(names)[y]
    {
      TopMissing(names, r, y);
    }
  }

  lemma TopMissing(names: seq<string>, r: seq<Tally<string>>, y: string)
    requires r == MostCommon(CountAll(names), 10)
    requires y in names && forall i :: 0 <= i < |r| ==> r[i].key != y
    ensures |r| == 10 && forall i :: 0 <= i < |r| ==> r[i].count >= multiset(names)[y]
  {
    var c := CountAll(names);
    assert HasKey(c, y);
    var j :| 0 <= j < |c| && c[j].key == y;
    assert c[j] !in r;
    TopPairCounted(names, c[j]);
  }

  lemma TopPairCounted(names: seq<string>, t: Tally<string>)
    requires t in CountAll(names)
    ensures t.key in names && t.count == multiset(names)[t.key]
  {
    var c := CountAll(names);
    CountAllPairs(names);
    var j :| 0 <= j < |c| && c[j] == t;
    assert HasKey(c, t.key);
  }

  // ---------------------------------------------------------------------------
  // Rating distribution
  // ---------------------------------------------------------------------------

  /** The fixed buckets of the distribution, half a star apart. */
  const RatingBuckets: seq<real> := [0.5, 1.0, 1.5, 2.0, 2.5, 3.0, 3.5, 4.0, 4.5, 5.0]

  /** The rating of a row when it is truthy. */
  function RatingOf(uf: UserFilm): Option<real> {
    if Rated(uf.rating) then uf.rating else None
  }

  /** `[uf.rating for uf in user_films if uf.rating]`. */
  function UserRatings(watched: seq<UserFilm>): (r: seq<real>)
    ensures |r| <= |watched|
    ensures forall x :: x in r <==> exists i :: 0 <= i < |watched| && watched[i].rating == Some(x) && x != 0.0
    // each rating as often as the rows rated with it
    ensures forall x :: multiset(r)[x] == CountWhere(watched, RatingOf, x)
  {
    FilterMap(watched, RatingOf)
  }

  /** `[{"rating": r, "count": rating_dist.get(r, 0)} for r in buckets]`: one
      pair per bucket, in bucket order, whatever the ratings are. */
  function RatingDistribution(ratings: seq<real>): (r: seq<(real, nat)>)
    ensures |r| == |RatingBuckets|
    ensures forall i :: 0 <= i < |r| ==> r[i] == (RatingBuckets[i], multiset(ratings)[RatingBuckets[i]])
  {
    var c := CountAll(ratings);
    seq(|RatingBuckets|, i requires 0 <= i < |RatingBuckets| => (RatingBuckets[i], CountOf(c, RatingBuckets[i])))
  }

  function BucketSum(r: seq<(real, nat)>): nat {
    if |r| == 0 then 0 else r[0].1 + BucketSum(r[1..])
  }

  predicate OnGrid(x: real) {
    x in RatingBuckets
  }

  /** The buckets hold every rating exactly when every rating is a multiple of
      half a star between 0.5 and 5; any other rating is dropped silently. */
  lemma RatingDistributionTotal(ratings: seq<real>)
    ensures BucketSum(RatingDistribution(ratings)) == |Filter(ratings, OnGrid)| <= |ratings|
    ensures BucketSum(RatingDistribution(ratings)) == |ratings| <==> forall i :: 0 <= i < |ratings| ==> OnGrid(ratings[i])
  {
    BucketSumIsCount(RatingDistribution(ratings), ratings);
    BucketsDistinct();
    SumOverBuckets(ratings, RatingBuckets, OnGrid);
    FilterKeepsAll(ratings, OnGrid);
  }

  lemma BucketsDistinct()
    ensures forall i, j :: 0 <= i < j < |RatingBuckets| ==> RatingBuckets[i] != RatingBuckets[j]
  {
    var bs := RatingBuckets;
    assert forall i :: 0 <= i < |bs| ==> bs[i] == (i + 1) as real / 2.0;
  }

  function SumOf(ms: multiset<real>, bs: seq<real>): nat {
    if |bs| == 0 then 0 else ms[bs[0]] + SumOf(ms, bs[1..])
  }

  lemma {:induction false} BucketSumIsCount(r: seq<(real, nat)>, ratings: seq<real>)
    requires r == RatingDistribution(ratings)
    ensures BucketSum(r) == SumOf(multiset(ratings), RatingBuckets)
  {
    SuffixSums(r, multiset(ratings), 0);
    assert r[0..] == r;
    assert RatingBuckets[0..] == RatingBuckets;
  }

  lemma {:induction false} SuffixSums(r: seq<(real, nat)>, ms: multiset<real>, k: nat)
    requires |r| == |RatingBuckets| && k <= |r|
    requires forall i :: 0 <= i < |r| ==> r[i].1 == ms[RatingBuckets[i]]
    ensures BucketSum(r[k..]) == SumOf(ms, RatingBuckets[k..])
    decreases |r| - k
  {
    if k < |r| {
      SuffixSums(r, ms, k + 1);
      assert r[k..][1..] == r[k + 1..];
      assert RatingBuckets[k..][1..] == RatingBuckets[k + 1..];
    }
  }

  /** Summing the counts of distinct values counts the elements equal to one of them. */
  lemma {:induction false} SumOverBuckets(xs: seq<real>, bs: seq<real>, p: real -> bool)
    requires forall i, j :: 0 <= i < j < |bs| ==> bs[i] != bs[j]
    requires forall x :: p(x) == (x in bs)
    ensures SumOf(multiset(xs), bs) == |Filter(xs, p)|
  {
    if |xs| > 0 {
      var init := xs[..|xs| - 1];
      var last := xs[|xs| - 1];
      assert xs == init + [last];
      SumOverBuckets(init, bs, p);
      SumAddOne(multiset(init), bs, last);
      FilterAppend(init, [last], p);
    } else {
      SumOfEmpty(bs);
    }
  }

  lemma {:induction false} SumOfEmpty(bs: seq<real>)
    ensures SumOf(multiset{}, bs) == 0
  {
    if |bs| > 0 {
      SumOfEmpty(bs[1..]);
    }
  }

  lemma {:induction false} SumAddOne(ms: multiset<real>, bs: seq<real>, x: real)
    requires forall i, j :: 0 <= i < j < |bs| ==> bs[i] != bs[j]
    ensures SumOf(ms + multiset{x}, bs) == SumOf(ms, bs) + (if x in bs then 1 else 0)
  {
    if |bs| > 0 {
      SumAddOne(ms, bs[1..], x);
      if x == bs[0] {
        assert x !in bs[1..];
      }
    }
  }

  lemma {:induction false} FilterAppend<T(!new)>(a: seq<T>, b: seq<T>, p: T -> bool)
    ensures Filter(a + b, p) == Filter(a, p) + Filter(b, p)
  {
    if |a| > 0 {
      assert (a + b)[1..] == a[1..] + b;
      FilterAppend(a[1..], b, p);
    } else {
      assert a + b == b;
    }
  }

  // ---------------------------------------------------------------------------
  // Latest entries first
  // ---------------------------------------------------------------------------

  function WatchOrder(e: DiaryEntry): SortKey {
    DateKey(WatchKey(e))
  }

  /** `sorted(es, key=lambda e: e.watched_date or datetime.min, reverse=True)[:n]`. */
  function LatestFirst(es: seq<DiaryEntry>, n: nat): (r: seq<DiaryEntry>)
    ensures |r| <= n && (|r| == n || |r| == |es|)
    ensures forall i :: 0 <= i < |r| ==> r[i] in es
    ensures forall i, j :: 0 <= i < j < |r| ==> NotAfter(WatchKey(r[j]), WatchKey(r[i]))
    ensures forall e :: e in es && e !in r ==>
              |r| == n && forall i :: 0 <= i < |r| ==> NotAfter(WatchKey(e), WatchKey(r[i]))
    // no entry is repeated, and entries watched on the same date keep their table order
    ensures multiset(r) <= multiset(es)
    ensures forall k :: IsPrefix(WithKey(r, WatchOrder, k), WithKey(es, WatchOrder, k))
  {
    var sorted := SortBy(es, WatchOrder, true);
    LatestFirstFacts(es, sorted, n);
    TakeSorted(es, WatchOrder, true, n);
    Take(sorted, n)
  }

  lemma LatestFirstFacts(es: seq<DiaryEntry>, sorted: seq<DiaryEntry>, n: nat)
    requires multiset(sorted) == multiset(es) && SortedBy(sorted, WatchOrder, true)
    ensures forall i :: 0 <= i < |Take(sorted, n)| ==> Take(sorted, n)[i] in es
    ensures forall i, j :: 0 <= i < j < |Take(sorted, n)| ==> NotAfter(WatchKey(Take(sorted, n)[j]), WatchKey(Take(sorted, n)[i]))
    ensures forall e :: e in es && e !in Take(sorted, n) ==>
              |Take(sorted, n)| == n && forall i :: 0 <= i < |Take(sorted, n)| ==> NotAfter(WatchKey(e), WatchKey(Take(sorted, n)[i]))
  {
    var r := Take(sorted, n);
    forall i | 0 <= i < |r| ensures r[i] in es {
      assert r[i] == sorted[i];
      assert sorted[i] in multiset(sorted);
    }
    forall i, j | 0 <= i < j < |r| ensures NotAfter(WatchKey(r[j]), WatchKey(r[i])) {
      assert !Ahead(WatchOrder(sorted[j]), WatchOrder(sorted[i]), true);
    }
    forall e | e in es && e !in r
      ensures |r| == n && forall i :: 0 <= i < |r| ==> NotAfter(WatchKey(e), WatchKey(r[i]))
    {
      assert e in multiset(sorted);
      var k :| 0 <= k < |sorted| && sorted[k] == e;
      assert forall i :: 0 <= i < |r| ==> r[i] == sorted[i];
      assert k >= |r|;
      forall i | 0 <= i < |r| ensures NotAfter(WatchKey(e), WatchKey(r[i])) {
        assert !Ahead(WatchOrder(sorted[k]), WatchOrder(sorted[i]), true);
      }
    }
  }

  predicate Dated(e: DiaryEntry) {
    e.watchedDate.Some?
  }

  predicate IsLiked(e: DiaryEntry) {
    e.liked
  }

  predicate IsRewatch(e: DiaryEntry) {
    e.rewatch
  }

  /** The entries behind `recent_films`: the twelve latest dated entries. */
  function RecentEntries(entries: seq<DiaryEntry>): (r: seq<DiaryEntry>)
    ensures |r| <= 12
    ensures forall i :: 0 <= i < |r| ==> r[i] in entries && r[i].watchedDate.Some?
    ensures forall i, j :: 0 <= i < j < |r| ==> NotAfter(r[j].watchedDate.value, r[i].watchedDate.value)
    ensures forall e :: e in entries && e.watchedDate.Some? && e !in r ==>
              |r| == 12 && forall i :: 0 <= i < |r| ==> NotAfter(e.watchedDate.value, r[i].watchedDate.value)
    // no entry is repeated, and entries of the same date keep their table order
    ensures multiset(r) <= multiset(entries)
    ensures forall k :: IsPrefix(WithKey(r, WatchOrder, k), WithKey(Filter(entries, Dated), WatchOrder, k))
  {
    RecentFacts(entries);
    LatestFirst(Filter(entries, Dated), 12)
  }

  lemma DatedKey(e: DiaryEntry)
    requires e.watchedDate.Some?
    ensures WatchKey(e) == e.watchedDate.value
  {
  }

  /** Restricted to dated entries, the watch key is the watched date itself. */
  lemma RecentFacts(entries: seq<DiaryEntry>)
    ensures var r := LatestFirst(Filter(entries, Dated), 12);
      && (forall i :: 0 <= i < |r| ==> r[i] in entries && r[i].watchedDate.Some?)
      && (forall i, j :: 0 <= i < j < |r| ==> NotAfter(r[j].watchedDate.value, r[i].watchedDate.value))
      && (forall e :: e in entries && e.watchedDate.Some? && e !in r ==>
            |r| == 12 && forall i :: 0 <= i < |r| ==> NotAfter(e.watchedDate.value, r[i].watchedDate.value))
      && multiset(r) <= multiset(entries)
  {
    var dated := Filter(entries, Dated);
    var r := LatestFirst(dated, 12);
    assert multiset(r) <= multiset(dated) <= multiset(entries);
    forall i | 0 <= i < |r| ensures r[i] in entries && r[i].watchedDate.Some? {
      assert r[i] in dated;
    }
    forall i, j | 0 <= i < j < |r|
      ensures NotAfter(r[j].watchedDate.value, r[i].watchedDate.value)
    {
      assert r[i] in dated && r[j] in dated;
      DatedKey(r[i]);
      DatedKey(r[j]);
    }
    forall e | e in entries && e.watchedDate.Some? && e !in r
      ensures |r| == 12 && forall i :: 0 <= i < |r| ==> NotAfter(e.watchedDate.value, r[i].watchedDate.value)
    {
      assert e in dated;
      forall i | 0 <= i < |r| ensures NotAfter(e.watchedDate.value, r[i].watchedDate.value) {
        assert r[i] in dated;
        DatedKey(r[i]);
        DatedKey(e);
      }
    }
  }

  /** The entries behind `liked_films`: the twelve latest liked entries, an
      undated one counting as the earliest. */
  function LikedEntries(entries: seq<DiaryEntry>): (r: seq<DiaryEntry>)
    ensures |r| <= 12
    ensures forall i :: 0 <= i < |r| ==> r[i] in entries && r[i].liked
    ensures forall i, j :: 0 <= i < j < |r| ==> NotAfter(WatchKey(r[j]), WatchKey(r[i]))
    ensures forall e :: e in entries && e.liked && e !in r ==>
              |r| == 12 && forall i :: 0 <= i < |r| ==> NotAfter(WatchKey(e), WatchKey(r[i]))
    // no entry is repeated, and entries of the same date keep their table order
    ensures multiset(r) <= multiset(entries)
    ensures forall k :: IsPrefix(WithKey(r, WatchOrder, k), WithKey(Filter(entries, IsLiked), WatchOrder, k))
  {
    LatestFirst(Filter(entries, IsLiked), 12)
  }

  // ---------------------------------------------------------------------------
  // Film lookups
  // ---------------------------------------------------------------------------

  /** `next((f for f in films if f.id == id), None)`: the first film with the id. */
  function FindFilm(films: seq<Film>, id: nat): (r: Option<Film>)
    ensures r.Some? <==> exists i :: 0 <= i < |films| && films[i].id == id
    ensures r.Some? ==> r.value in films && r.value.id == id
  {
    if |films| == 0 then None
    else if films[0].id == id then Some(films[0])
    else
      var r := FindFilm(films[1..], id);
      assert (exists i :: 0 <= i < |films| && films[i].id == id) ==> exists i :: 0 <= i < |films[1..]| && films[1..][i].id == id by {
        if exists i :: 0 <= i < |films| && films[i].id == id {
          var i :| 0 <= i < |films| && films[i].id == id;
          assert films[1..][i - 1] == films[i];
        }
      }
      r
  }

  /** `{f.id: f for f in films}`: the last film with each id wins. */
  function FilmsDict(films: seq<Film>): (m: map<nat, Film>)
    ensures forall id :: id in m <==> exists i :: 0 <= i < |films| && films[i].id == id
    ensures forall id :: id in m ==> m[id] in films && m[id].id == id
  {
    if |films| == 0 then map[]
    else
      var init := films[..|films| - 1];
      var last := films[|films| - 1];
      var m := FilmsDict(init)[last.id := last];
      assert forall id :: id in m ==> exists i :: 0 <= i < |films| && films[i].id == id by {
        forall id | id in m ensures exists i :: 0 <= i < |films| && films[i].id == id {
          if id != last.id {
            var i :| 0 <= i < |init| && init[i].id == id;
            assert films[i] == init[i];
          }
        }
      }
      assert forall id :: id in m ==> m[id] in films by {
        forall id | id in m ensures m[id] in films {
          if id != last.id {
            assert m[id] in init;
          }
        }
      }
      m
  }

  ghost predicate DistinctFilmIds(films: seq<Film>) {
    forall i, j :: 0 <= i < j < |films| ==> films[i].id != films[j].id
  }

  /** With distinct ids, which the films table's primary key guarantees, the
      first-match search and the dictionary find the same film. */
  lemma FindFilmAgrees(films: seq<Film>, id: nat)
    requires DistinctFilmIds(films)
    ensures FindFilm(films, id) == (if id in FilmsDict(films) then Some(FilmsDict(films)[id]) else None)
  {
    var m := FilmsDict(films);
    var r := FindFilm(films, id);
    if r.Some? {
      var i :| 0 <= i < |films| && films[i] == r.value;
      var j :| 0 <= j < |films| && films[j] == m[id];
      assert i == j;
    }
  }

  /** One film card of `recent_films` or `liked_films`. */
  datatype Card = Card(title: Option<string>, year: Option<int>, rating: Option<real>,
                       watchedDate: Option<Date>, posterUrl: Option<string>)

  function CardOf(e: DiaryEntry, f: Film, withDate: bool): Card {
    Card(f.title, f.year, e.rating, if withDate then e.watchedDate else None, f.posterUrl)
  }

  /** `c` is the card of one of the entries `es` whose film is stored. */
  ghost predicate CardOfSome(c: Card, es: seq<DiaryEntry>, films: seq<Film>, withDate: bool) {
    exists i :: 0 <= i < |es| && FindFilm(films, es[i].filmId).Some? &&
      c == CardOf(es[i], FindFilm(films, es[i].filmId).value, withDate)
  }

  predicate AllFilmsStored(es: seq<DiaryEntry>, films: seq<Film>) {
    forall i :: 0 <= i < |es| ==> FindFilm(films, es[i].filmId).Some?
  }

  /** The card of an entry, when its film is stored. */
  function CardFor(films: seq<Film>, withDate: bool): DiaryEntry -> Option<Card> {
    (e: DiaryEntry) => match FindFilm(films, e.filmId)
         case Some(f) => Some(CardOf(e, f, withDate))
         case None => None
  }

  /** One card per entry whose film is stored, in entry order. */
  function Cards(es: seq<DiaryEntry>, films: seq<Film>, withDate: bool): (r: seq<Card>)
    ensures |r| <= |es|
    ensures |r| == |es| <==> AllFilmsStored(es, films)
    ensures forall k :: 0 <= k < |r| ==> CardOfSome(r[k], es, films, withDate)
    // every entry whose film is stored gets its card, as often as it occurs
    ensures forall i :: 0 <= i < |es| && FindFilm(films, es[i].filmId).Some? ==>
              CardOf(es[i], FindFilm(films, es[i].filmId).value, withDate) in r
    ensures forall c :: multiset(r)[c] == CountWhere(es, CardFor(films, withDate), c)
  {
    var r := FilterMap(es, CardFor(films, withDate));
    assert forall k :: 0 <= k < |r| ==> CardOfSome(r[k], es, films, withDate) by {
      forall k | 0 <= k < |r| ensures CardOfSome(r[k], es, films, withDate) {
        assert r[k] in r;
        var i :| 0 <= i < |es| && CardFor(films, withDate)(es[i]) == Some(r[k]);
      }
    }
    assert forall i :: 0 <= i < |es| && FindFilm(films, es[i].filmId).Some? ==>
             CardOf(es[i], FindFilm(films, es[i].filmId).value, withDate) in r by {
      forall i | 0 <= i < |es| && FindFilm(films, es[i].filmId).Some?
        ensures CardOf(es[i], FindFilm(films, es[i].filmId).value, withDate) in r
      {
        assert CardFor(films, withDate)(es[i]) == Some(CardOf(es[i], FindFilm(films, es[i].filmId).value, withDate));
      }
    }
    r
  }

  /** The cards of consecutive entries follow each other. */
  lemma CardsAppend(a: seq<DiaryEntry>, b: seq<DiaryEntry>, films: seq<Film>, withDate: bool)
    ensures Cards(a + b, films, withDate) == Cards(a, films, withDate) + Cards(b, films, withDate)
  {
    FilterMapAppend(a, b, CardFor(films, withDate));
  }

  // ---------------------------------------------------------------------------
  // Counts by period
  // ---------------------------------------------------------------------------

  /** The entry has a watched date on or after `start`. */
  function Since(start: Date): DiaryEntry -> bool {
    (e: DiaryEntry) => e.watchedDate.Some? && NotAfter(start, e.watchedDate.value)
  }

  /** `sum(1 for e in entries if e.watched_date and e.watched_date >= start)`. */
  function CountSince(entries: seq<DiaryEntry>, start: Date): (n: nat)
    ensures n <= |entries|
    // every entry counts exactly when every one is dated on or after `start`
    ensures n == |entries| <==>
              forall i :: 0 <= i < |entries| ==> entries[i].watchedDate.Some? && NotAfter(start, entries[i].watchedDate.value)
    // none counts exactly when none is
    ensures n == 0 <==>
              forall i :: 0 <= i < |entries| ==> !(entries[i].watchedDate.Some? && NotAfter(start, entries[i].watchedDate.value))
  {
    FilterKeepsAll(entries, Since(start));
    FilterKeepsNone(entries, Since(start));
    |Filter(entries, Since(start))|
  }

  /** Counting over two runs of entries adds up. */
  lemma CountSinceAppend(a: seq<DiaryEntry>, b: seq<DiaryEntry>, start: Date)
    ensures CountSince(a + b, start) == CountSince(a, start) + CountSince(b, start)
  {
    FilterAppend(a, b, Since(start));
  }

  /** `films_this_month` never exceeds `films_this_year`, and both count only
      dated entries. */
  lemma MonthWithinYear(entries: seq<DiaryEntry>, today: Date)
    requires IsValid(today)
    ensures CountSince(entries, Date(today.year, today.month, 1)) <= CountSince(entries, Date(today.year, 1, 1))
    ensures CountSince(entries, Date(today.year, 1, 1)) <= |Filter(entries, Dated)|
  {
    var month := Date(today.year, today.month, 1);
    var year := Date(today.year, 1, 1);
    var pm := Since(month);
    var py := Since(year);
    assert forall e :: pm(e) ==> py(e) by {
      forall e | pm(e) ensures py(e) {
        assert NotAfter(year, month);
      }
    }
    FilterMonotone(entries, pm, py);
    FilterMonotone(entries, py, Dated);
  }

  // ---------------------------------------------------------------------------
  // Films by year
  // ---------------------------------------------------------------------------

  /** The year an entry was watched in, when it has a date. */
  function YearOf(e: DiaryEntry): Option<int> {
    if e.watchedDate.Some? then Some(e.watchedDate.value.year) else None
  }

  /** The watched years of the dated entries, in entry order. */
  function YearsOf(entries: seq<DiaryEntry>): (ys: seq<int>)
    ensures |ys| <= |entries|
    ensures forall y :: y in ys <==> exists e :: e in entries && e.watchedDate.Some? && e.watchedDate.value.year == y
    // each year as often as the entries watched in it
    ensures forall y :: multiset(ys)[y] == CountWhere(entries, YearOf, y)
  {
    var ys := FilterMap(entries, YearOf);
    assert forall y :: y in ys <==> exists e :: e in entries && e.watchedDate.Some? && e.watchedDate.value.year == y by {
      forall y ensures y in ys <==> exists e :: e in entries && e.watchedDate.Some? && e.watchedDate.value.year == y {
        if exists e :: e in entries && e.watchedDate.Some? && e.watchedDate.value.year == y {
          var e :| e in entries && e.watchedDate.Some? && e.watchedDate.value.year == y;
          var i :| 0 <= i < |entries| && entries[i] == e;
          assert YearOf(entries[i]) == Some(y);
        }
      }
    }
    ys
  }

  function TallyYear(t: Tally<int>): SortKey {
    NumKey(t.key as real)
  }

  /** `sorted(year_counter.items())`. The counter's keys are distinct, so its
      `(year, count)` pairs are ordered by year alone. */
  function FilmsByYear(entries: seq<DiaryEntry>): (r: seq<Tally<int>>)
    // each year once, in ascending order
    ensures forall i, j :: 0 <= i < j < |r| ==> r[i].key < r[j].key
    ensures forall i :: 0 <= i < |r| ==> r[i].count == multiset(YearsOf(entries))[r[i].key] >= 1
    ensures forall y :: y in YearsOf(entries) <==> exists i :: 0 <= i < |r| && r[i].key == y
  {
    var ys := YearsOf(entries);
    var c := CountAll(ys);
    var r := SortBy(c, TallyYear, false);
    FilmsByYearFacts(ys, c, r);
    r
  }

  lemma FilmsByYearFacts(ys: seq<int>, c: seq<Tally<int>>, r: seq<Tally<int>>)
    requires c == CountAll(ys) && multiset(r) == multiset(c) && SortedBy(r, TallyYear, false)
    ensures forall i, j :: 0 <= i < j < |r| ==> r[i].key < r[j].key
    ensures forall i :: 0 <= i < |r| ==> r[i].count == multiset(ys)[r[i].key] >= 1
    ensures forall y :: y in ys <==> exists i :: 0 <= i < |r| && r[i].key == y
  {
    CountAllPairs(ys);
    SubDistinct(c, r);
    forall i, j | 0 <= i < j < |r| ensures r[i].key < r[j].key {
      assert !Ahead(TallyYear(r[j]), TallyYear(r[i]), false);
      assert r[i].key != r[j].key;
    }
    forall i | 0 <= i < |r| ensures r[i].count == multiset(ys)[r[i].key] >= 1 {
      assert r[i] in multiset(c);
      var j :| 0 <= j < |c| && c[j] == r[i];
    }
    forall y ensures y in ys <==> exists i :: 0 <= i < |r| && r[i].key == y {
      if y in ys {
        assert HasKey(c, y);
        var j :| 0 <= j < |c| && c[j].key == y;
        assert c[j] in multiset(r);
      }
      if exists i :: 0 <= i < |r| && r[i].key == y {
        var i :| 0 <= i < |r| && r[i].key == y;
        assert r[i] in multiset(c);
        var j :| 0 <= j < |c| && c[j] == r[i];
        assert HasKey(c, y);
      }
    }
  }

  // ---------------------------------------------------------------------------
  // get_dashboard
  // ---------------------------------------------------------------------------

  /** The statistics of `get_dashboard` that do not involve floating point. */
  datatype Dashboard = Dashboard(
    totals: Totals, filmsThisYear: nat, filmsThisMonth: nat,
    topGenres: seq<Tally<string>>, topDirectors: seq<Tally<string>>, topDecades: seq<Tally<string>>,
    ratingDistribution: seq<(real, nat)>, filmsByYear: seq<Tally<int>>, recentFilms: seq<Card>,
    topActors: seq<Tally<string>>, totalRewatches: nat, totalLiked: nat, likedFilms: seq<Card>,
    topCountries: seq<Tally<string>>, topLanguages: seq<Tally<string>>, topStudios: seq<Tally<string>>,
    topWriters: seq<Tally<string>>, topComposers: seq<Tally<string>>, topCinematographers: seq<Tally<string>>)

  /** `get_dashboard` at the moment `today` (its date part). */
  function GetDashboard(t: Tables, today: Date): (d: Dashboard)
    ensures d.totals.watched == |Filter(t.userFilms, IsWatched)|
    ensures d.totals.logged + d.totals.unlogged == d.totals.watched
    ensures IsValid(today) ==> d.filmsThisMonth <= d.filmsThisYear <= |Filter(t.entries, Dated)|
    ensures |d.ratingDistribution| == 10
    ensures forall i :: 0 <= i < 10 ==> d.ratingDistribution[i].0 == RatingBuckets[i]
    ensures |d.topGenres| <= 10 && |d.topDirectors| <= 10 && |d.topDecades| <= 10 && |d.topActors| <= 10
    ensures |d.topCountries| <= 10 && |d.topLanguages| <= 10 && |d.topStudios| <= 10
    ensures |d.topWriters| <= 10 && |d.topComposers| <= 10 && |d.topCinematographers| <= 10
    ensures |d.recentFilms| <= 12 && |d.likedFilms| <= 12
    ensures d.totalLiked == |Filter(t.entries, IsLiked)| && d.totalRewatches == |Filter(t.entries, IsRewatch)|
  {
    var watched := Filter(t.userFilms, IsWatched);
    var films := FilmsDict(t.films);
    assert IsValid(today) ==>
        CountSince(t.entries, Date(today.year, today.month, 1)) <= CountSince(t.entries, Date(today.year, 1, 1))
          <= |Filter(t.entries, Dated)| by {
      if IsValid(today) {
        MonthWithinYear(t.entries, today);
      }
    }
    Dashboard(
      CountTotals(watched),
      CountSince(t.entries, Date(today.year, 1, 1)),
      CountSince(t.entries, Date(today.year, today.month, 1)),
      Top(Collect(watched, films, GenrePick)),
      Top(Collect(watched, films, DirectorPick)),
      Top(Collect(watched, films, DecadePick)),
      RatingDistribution(UserRatings(watched)),
      FilmsByYear(t.entries),
      Cards(RecentEntries(t.entries), t.films, true),
      Top(Collect(watched, films, ActorPick)),
      |Filter(t.entries, IsRewatch)|,
      |Filter(t.entries, IsLiked)|,
      Cards(LikedEntries(t.entries), t.films, false),
      Top(Collect(watched, films, CountryPick)),
      Top(Collect(watched, films, LanguagePick)),
      Top(Collect(watched, films, StudioPick)),
      Top(Collect(watched, films, WriterPick)),
      Top(Collect(watched, films, ComposerPick)),
      Top(Collect(watched, films, CinematographerPick)))
  }

  // ---------------------------------------------------------------------------
  // get_films
  // ---------------------------------------------------------------------------

  /** The query parameters of `get_films`; an empty string counts as absent. */
  datatype FilmQuery = FilmQuery(sort: string, order: string, genre: Option<string>, decade: Option<string>, loggedOnly: bool)

  /** One element of the `get_films` response. */
  datatype FilmRow = FilmRow(
    id: nat, title: Option<string>, year: Option<int>, posterUrl: Option<string>,
    rating: Option<real>, letterboxdRating: Option<real>, runtime: Option<int>,
    genres: seq<Option<string>>, directors: seq<Option<string>>,
    watchCount: nat, liked: Option<bool>, firstWatched: Option<Date>, lastWatched: Option<Date>, inDiary: bool)

  /** The "name" of a dict item; other values are skipped. */
  function DictItemName(x: Item): Option<Option<string>> {
    if x.ItemDict? then Some(x.name) else None
  }

  /** `[g.get("name") for g in items if isinstance(g, dict)]`. */
  function DictItemNames(items: seq<Item>): (r: seq<Option<string>>)
    ensures |r| <= |items|
    ensures forall n :: n in r <==> exists i :: 0 <= i < |items| && items[i].ItemDict? && items[i].name == n
    // each name as often as the dict items carrying it
    ensures forall n :: multiset(r)[n] == CountWhere(items, DictItemName, n)
  {
    FilterMap(items, DictItemName)
  }

  /** The "name" of a dict item whose "type" is `kind`; other values are skipped. */
  function TypedName(kind: string): Item -> Option<Option<string>> {
    x => if HasType(x, kind) then Some(x.name) else None
  }

  /** `[g.get("name") for g in items if isinstance(g, dict) and g.get("type") == kind]`. */
  function TypedNames(items: seq<Item>, kind: string): (r: seq<Option<string>>)
    ensures |r| <= |items|
    ensures forall n :: n in r <==> exists i :: 0 <= i < |items| && HasType(items[i], kind) && items[i].name == n
    // each name as often as the items of that type carrying it
    ensures forall n :: multiset(r)[n] == CountWhere(items, TypedName(kind), n)
  {
    FilterMap(items, TypedName(kind))
  }

  /** The response row of a watched film. */
  function RowOf(uf: UserFilm, f: Film): FilmRow {
    var count := uf.watchCount.GetOr(0);
    FilmRow(f.id, f.title, f.year, f.posterUrl, uf.rating, f.rating, f.runtime,
            TypedNames(f.genres, "genre"), DictItemNames(f.directors),
            count, uf.liked, uf.firstWatched, uf.lastWatched, count > 0)
  }

  /** What each column of a film's row holds. */
  lemma RowOfColumns(uf: UserFilm, f: Film)
    ensures var r := RowOf(uf, f);
      && r.id == f.id && r.title == f.title && r.year == f.year && r.posterUrl == f.posterUrl
      && r.rating == uf.rating && r.letterboxdRating == f.rating && r.runtime == f.runtime
      && r.liked == uf.liked && r.firstWatched == uf.firstWatched && r.lastWatched == uf.lastWatched
      // the names of the film's items typed as genres, and of all its director dicts, with repeats
      && (forall n :: multiset(r.genres)[n] == CountWhere(f.genres, TypedName("genre"), n))
      && (forall n :: multiset(r.directors)[n] == CountWhere(f.directors, DictItemName, n))
      // a missing count is 0, and a film is in the diary exactly when it is logged
      && r.watchCount == (if uf.watchCount.Some? then uf.watchCount.value else 0)
      && (r.inDiary <==> Logged(uf))
  {
  }

  predicate Truthy(s: Option<string>) {
    s.Some? && s.value != ""
  }

  /** What every film in the response satisfies, stated filter by filter:
      `logged_only` drops only a count of exactly zero (a NULL count passes),
      the genre must be the name of one of the film's dict genres whatever its
      type, and the decade applies only to a film with a truthy year. */
  predicate Passes(uf: UserFilm, f: Film, q: FilmQuery) {
    && (q.loggedOnly ==> uf.watchCount != Some(0))
    && (Truthy(q.genre) ==> exists i :: 0 <= i < |f.genres| && f.genres[i].ItemDict? && f.genres[i].name == q.genre)
    && (Truthy(q.decade) && f.year.Some? && f.year.value != 0 ==> q.decade == Some(DecadeLabel(f.year.value)))
  }

  /** `row` is the row of a watched film that is stored and passes the filters. */
  ghost predicate RowOfSome(row: FilmRow, watched: seq<UserFilm>, films: map<nat, Film>, q: FilmQuery) {
    exists i :: 0 <= i < |watched| && watched[i].filmId in films && Passes(watched[i], films[watched[i].filmId], q) &&
      row == RowOf(watched[i], films[watched[i].filmId])
  }

  /** The row a watched film contributes: present when the film is stored and
      passes the filters. */
  function RowFor(films: map<nat, Film>, q: FilmQuery): UserFilm -> Option<FilmRow> {
    (uf: UserFilm) => if uf.filmId in films && Passes(uf, films[uf.filmId], q) then Some(RowOf(uf, films[uf.filmId])) else None
  }

  /** The `continue`s of the loop body of `get_films`, in their order: false
      when one of them fires. */
  function Kept(uf: UserFilm, f: Film, q: FilmQuery): (b: bool)
    ensures b == Passes(uf, f, q)
  {
    if q.loggedOnly && uf.watchCount == Some(0) then false
    else if Truthy(q.genre) && q.genre !in DictItemNames(f.genres) then false
    else if Truthy(q.decade) && f.year.Some? && f.year.value != 0 && DecadeLabel(f.year.value) != q.decade.value then false
    else true
  }

  /** The loop of `get_films` with its `continue`s, in their order. */
  function Select(watched: seq<UserFilm>, films: map<nat, Film>, q: FilmQuery): (r: seq<FilmRow>)
    ensures |r| <= |watched|
    ensures forall k :: 0 <= k < |r| ==> RowOfSome(r[k], watched, films, q)
    ensures forall i :: 0 <= i < |watched| && watched[i].filmId in films && Passes(watched[i], films[watched[i].filmId], q) ==>
              RowOf(watched[i], films[watched[i].filmId]) in r
    // one row per passing watched film, in the order of the watched rows
    ensures r == FilterMap(watched, RowFor(films, q))
    ensures forall x :: multiset(r)[x] == CountWhere(watched, RowFor(films, q), x)
  {
    if |watched| == 0 then []
    else
      var rest := Select(watched[1..], films, q);
      var uf := watched[0];
      var here := if uf.filmId in films && Kept(uf, films[uf.filmId], q) then [RowOf(uf, films[uf.filmId])] else [];
      RowForIs(films, q, uf);
      FilterMapCons(watched, RowFor(films, q));
      SelectRows(watched, films, q, here + rest);
      here + rest
  }

  /** The rows of the comprehension are the rows of passing watched films, and
      every passing watched film has its row there. */
  lemma SelectRows(watched: seq<UserFilm>, films: map<nat, Film>, q: FilmQuery, r: seq<FilmRow>)
    requires r == FilterMap(watched, RowFor(films, q))
    ensures forall k :: 0 <= k < |r| ==> RowOfSome(r[k], watched, films, q)
    ensures forall i :: 0 <= i < |watched| && watched[i].filmId in films && Passes(watched[i], films[watched[i].filmId], q) ==>
              RowOf(watched[i], films[watched[i].filmId]) in r
  {
    var f := RowFor(films, q);
    forall k | 0 <= k < |r| ensures RowOfSome(r[k], watched, films, q) {
      assert r[k] in r;
      var i :| 0 <= i < |watched| && f(watched[i]) == Some(r[k]);
      RowForIs(films, q, watched[i]);
    }
    forall i | 0 <= i < |watched| && watched[i].filmId in films && Passes(watched[i], films[watched[i].filmId], q)
      ensures RowOf(watched[i], films[watched[i].filmId]) in r
    {
      RowForIs(films, q, watched[i]);
    }
  }

  lemma RowForIs(films: map<nat, Film>, q: FilmQuery, uf: UserFilm)
    ensures RowFor(films, q)(uf) ==
              if uf.filmId in films && Passes(uf, films[uf.filmId], q) then Some(RowOf(uf, films[uf.filmId])) else None
  {
  }

  function TitleOrder(row: FilmRow): SortKey {
    TextKey(row.title.GetOr(""))
  }

  function YearOrder(row: FilmRow): SortKey {
    NumKey(row.year.GetOr(0) as real)
  }

  function RatingOrder(row: FilmRow): SortKey {
    NumKey(row.rating.GetOr(0.0))
  }

  /** The key `get_films` sorts by: `title or ""`, `year or 0`, `rating or 0`;
      any other `sort` value leaves the rows in query order. */
  function OrderFor(sort: string): (k: Option<FilmRow -> SortKey>)
    ensures k.Some? <==> sort == "title" || sort == "year" || sort == "rating"
    // comparing two rows by the key is Python's `<` on the values the lambda returns
    ensures sort == "title" ==>
              forall a, b :: KeyLess(k.value(a), k.value(b)) <==> StrLess(a.title.GetOr(""), b.title.GetOr(""))
    ensures sort == "year" ==>
              forall a, b :: KeyLess(k.value(a), k.value(b)) <==> a.year.GetOr(0) < b.year.GetOr(0)
    ensures sort == "rating" ==>
              forall a, b :: KeyLess(k.value(a), k.value(b)) <==> a.rating.GetOr(0.0) < b.rating.GetOr(0.0)
  {
    if sort == "title" then Some(TitleOrder)
    else if sort == "year" then Some(YearOrder)
    else if sort == "rating" then Some(RatingOrder)
    else None
  }

  /** The watched rows `get_films` and `get_dashboard` query. */
  function WatchedOf(t: Tables): seq<UserFilm> {
    Filter(t.userFilms, IsWatched)
  }

  /** The rows of the films that pass the filters, in query order. */
  function FilmRows(t: Tables, q: FilmQuery): seq<FilmRow> {
    Select(WatchedOf(t), FilmsDict(t.films), q)
  }

  lemma SameMembers<T>(a: seq<T>, b: seq<T>)
    requires multiset(a) == multiset(b)
    ensures forall x :: x in a <==> x in b
  {
    forall x ensures x in a <==> x in b {
      assert x in a <==> x in multiset(a);
      assert x in b <==> x in multiset(b);
    }
  }

  /** `get_films`: the watched films that pass the filters, sorted stably by
      the chosen key, descending exactly when `order == "desc"`. */
  function GetFilms(t: Tables, q: FilmQuery): (r: seq<FilmRow>)
    ensures multiset(r) == multiset(FilmRows(t, q))
    ensures forall k :: 0 <= k < |r| ==> RowOfSome(r[k], WatchedOf(t), FilmsDict(t.films), q)
    ensures forall i :: (0 <= i < |WatchedOf(t)| && WatchedOf(t)[i].filmId in FilmsDict(t.films) &&
                         Passes(WatchedOf(t)[i], FilmsDict(t.films)[WatchedOf(t)[i].filmId], q)) ==>
              RowOf(WatchedOf(t)[i], FilmsDict(t.films)[WatchedOf(t)[i].filmId]) in r
    ensures OrderFor(q.sort).Some? ==> SortedBy(r, OrderFor(q.sort).value, q.order == "desc")
    ensures OrderFor(q.sort).None? ==> r == FilmRows(t, q)
  {
    var rows := FilmRows(t, q);
    var r := match OrderFor(q.sort)
      case None => rows
      case Some(key) => SortBy(rows, key, q.order == "desc");
    SameMembers(r, rows);
    RowsOfSome(r, rows, WatchedOf(t), FilmsDict(t.films), q);
    r
  }

  lemma RowsOfSome(r: seq<FilmRow>, rows: seq<FilmRow>, watched: seq<UserFilm>, films: map<nat, Film>, q: FilmQuery)
    requires forall x :: x in r ==> x in rows
    requires forall k :: 0 <= k < |rows| ==> RowOfSome(rows[k], watched, films, q)
    ensures forall k :: 0 <= k < |r| ==> RowOfSome(r[k], watched, films, q)
  {
    forall k | 0 <= k < |r| ensures RowOfSome(r[k], watched, films, q) {
      assert r[k] in rows;
      var j :| 0 <= j < |rows| && rows[j] == r[k];
    }
  }

  /** Rows with equal sort keys keep the order of the query. */
  lemma GetFilmsStable(t: Tables, q: FilmQuery, k: SortKey)
    requires OrderFor(q.sort).Some?
    ensures WithKey(GetFilms(t, q), OrderFor(q.sort).value, k) == WithKey(FilmRows(t, q), OrderFor(q.sort).value, k)
  {
    SortByStable(FilmRows(t, q), OrderFor(q.sort).value, q.order == "desc", k);
  }

  // ---------------------------------------------------------------------------
  // get_diary
  // ---------------------------------------------------------------------------

  /** Python truthiness of an optional integer query parameter. */
  predicate Given(n: Option<int>) {
    n.Some? && n.value != 0
  }

  /** `datetime(y, m, d)`, which raises ValueError outside the calendar. */
  function MakeDate(y: int, m: int, d: int): (r: Result<Date>)
    ensures r.Success? <==> IsValid(Date(y, m, d))
    ensures r.Success? ==> r.value == Date(y, m, d)
  {
    if IsValidParts(y, m, d) then Success(Date(y, m, d)) else Failure("ValueError")
  }

  predicate IsValidParts(y: int, m: int, d: int) {
    1 <= y <= 9999 && 1 <= m <= 12 && 1 <= d <= DaysInMonth(y, m)
  }

  /** One `watched_date >= from AND watched_date < until` filter. */
  datatype Window = Window(from: Date, until: Date)

  predicate InWindow(w: Window, d: Date) {
    NotAfter(w.from, d) && Before(d, w.until)
  }

  /** The filters `get_diary` adds: the year's window when `year` is truthy,
      then the month's window when `month` is truthy too, its end wrapping to
      January of the next year for December. Building a bound outside the
      calendar raises. */
  function DiaryWindows(year: Option<int>, month: Option<int>): (r: Result<seq<Window>>)
    ensures r.Failure? <==> Given(year) && (!(1 <= year.value <= 9998) || (Given(month) && !(1 <= month.value <= 12)))
    ensures r.Success? ==> |r.value| == (if !Given(year) then 0 else if Given(month) then 2 else 1)
  {
    if !Given(year) then Success([])
    else
      var y := year.value;
      var yearStart :- MakeDate(y, 1, 1);
      var yearEnd :- MakeDate(y + 1, 1, 1);
      if !Given(month) then Success([Window(yearStart, yearEnd)])
      else
        var m := month.value;
        var nextMonth := if m < 12 then m + 1 else 1;
        var nextYear := if m < 12 then y else y + 1;
        var monthStart :- MakeDate(y, m, 1);
        // with the year and the month in range, the month's end cannot raise
        assert IsValid(Date(nextYear, nextMonth, 1));
        Success([Window(yearStart, yearEnd), Window(monthStart, Date(nextYear, nextMonth, 1))])
  }

  /** The windows select exactly the dates of the requested year, and of the
      requested month within it; a month without a year selects nothing less. */
  lemma DiaryWindowsSelect(year: Option<int>, month: Option<int>, d: Date)
    requires DiaryWindows(year, month).Success? && IsValid(d)
    ensures (forall w :: w in DiaryWindows(year, month).value ==> InWindow(w, d))
        <==> (Given(year) ==> d.year == year.value) && (Given(year) && Given(month) ==> d.month == month.value)
  {
    var ws := DiaryWindows(year, month).value;
    if Given(year) {
      var y := year.value;
      assert ws[0] == Window(Date(y, 1, 1), Date(y + 1, 1, 1));
      assert InWindow(ws[0], d) <==> d.year == y;
      if Given(month) {
        var m := month.value;
        assert ws[1].from == Date(y, m, 1);
        if m < 12 {
          assert ws[1].until == Date(y, m + 1, 1);
        } else {
          assert ws[1].until == Date(y + 1, 1, 1);
        }
        assert d.year == y ==> (InWindow(ws[1], d) <==> d.month == m);
        assert ws == [ws[0], ws[1]];
      } else {
        assert ws == [ws[0]];
      }
    }
  }

  /** The entries `get_diary` keeps: with no window every entry, otherwise
      the dated entries inside every window (a NULL date fails any comparison). */
  predicate InsideAll(ws: seq<Window>, e: DiaryEntry) {
    |ws| == 0 || (e.watchedDate.Some? && forall w :: w in ws ==> InWindow(w, e.watchedDate.value))
  }

  /** A well-formed date of the requested year, and month when one is given. */
  predicate Requested(year: Option<int>, month: Option<int>, e: DiaryEntry) {
    Given(year) ==>
      && e.watchedDate.Some? && IsValid(e.watchedDate.value) && e.watchedDate.value.year == year.value
      && (Given(month) ==> e.watchedDate.value.month == month.value)
  }

  /** `get_diary`: the entries of the requested year and month, each with its
      stored film; entries of missing films are skipped. */
  function GetDiary(t: Tables, year: Option<int>, month: Option<int>): (r: Result<seq<(DiaryEntry, Film)>>)
    ensures r.Failure? <==> DiaryWindows(year, month).Failure?
    ensures r.Success? ==> |r.value| <= |t.entries|
    ensures r.Success? ==> forall k :: 0 <= k < |r.value| ==>
              && r.value[k].0 in t.entries && r.value[k].1 in t.films && r.value[k].1.id == r.value[k].0.filmId
              && (Given(year) ==> r.value[k].0.watchedDate.Some?)
              && (Given(year) && IsValid(r.value[k].0.watchedDate.value) ==>
                    && r.value[k].0.watchedDate.value.year == year.value
                    && (Given(month) ==> r.value[k].0.watchedDate.value.month == month.value))
    ensures r.Success? ==> forall e :: (e in t.entries && FindFilm(t.films, e.filmId).Some? && Requested(year, month, e)) ==>
              exists k :: 0 <= k < |r.value| && r.value[k].0 == e
    // a listed entry is listed as often as it occurs in the table, and no more
    ensures r.Success? ==> forall k :: 0 <= k < |r.value| ==> multiset(r.value)[r.value[k]] == multiset(t.entries)[r.value[k].0]
  {
    var ws :- DiaryWindows(year, month);
    var films := FilmsDict(t.films);
    var inside := Filter(t.entries, e => InsideAll(ws, e));
    var r := Joined(inside, films);
    GetDiaryFacts(t, year, month, ws, inside, r);
    GetDiaryCopies(t.entries, ws, inside, films, r);
    Success(r)
  }

  lemma GetDiaryCopies(entries: seq<DiaryEntry>, ws: seq<Window>, inside: seq<DiaryEntry>, films: map<nat, Film>, r: seq<(DiaryEntry, Film)>)
    requires inside == Filter(entries, e => InsideAll(ws, e))
    requires r == Joined(inside, films)
    ensures forall k :: 0 <= k < |r| ==> multiset(r)[r[k]] == multiset(entries)[r[k].0]
  {
    forall k | 0 <= k < |r| ensures multiset(r)[r[k]] == multiset(entries)[r[k].0] {
      assert r[k].0 in inside;
      FilterKeepsCopies(entries, e => InsideAll(ws, e), r[k].0);
    }
  }

  lemma GetDiaryFacts(t: Tables, year: Option<int>, month: Option<int>, ws: seq<Window>, inside: seq<DiaryEntry>, r: seq<(DiaryEntry, Film)>)
    requires DiaryWindows(year, month) == Success(ws)
    requires inside == Filter(t.entries, e => InsideAll(ws, e))
    requires r == Joined(inside, FilmsDict(t.films))
    ensures forall k :: 0 <= k < |r| ==>
              && (Given(year) ==> r[k].0.watchedDate.Some?)
              && (Given(year) && IsValid(r[k].0.watchedDate.value) ==>
                    && r[k].0.watchedDate.value.year == year.value
                    && (Given(month) ==> r[k].0.watchedDate.value.month == month.value))
    ensures forall e :: (e in t.entries && FindFilm(t.films, e.filmId).Some? && Requested(year, month, e)) ==>
              exists k :: 0 <= k < |r| && r[k].0 == e
  {
    forall k | 0 <= k < |r| ensures Given(year) ==> r[k].0.watchedDate.Some? {
      assert r[k].0 in inside;
    }
    forall k | 0 <= k < |r| && Given(year) && IsValid(r[k].0.watchedDate.value)
      ensures r[k].0.watchedDate.value.year == year.value
      ensures Given(month) ==> r[k].0.watchedDate.value.month == month.value
    {
      assert r[k].0 in inside;
      DiaryEntrySelected(year, month, ws, r[k].0);
    }
    forall e | (e in t.entries && FindFilm(t.films, e.filmId).Some? && Requested(year, month, e))
      ensures exists k :: 0 <= k < |r| && r[k].0 == e
    {
      DiaryEntryKept(t, year, month, ws, e, inside, r);
    }
  }

  lemma DiaryEntrySelected(year: Option<int>, month: Option<int>, ws: seq<Window>, e: DiaryEntry)
    requires DiaryWindows(year, month) == Success(ws)
    requires InsideAll(ws, e) && Given(year) && e.watchedDate.Some? && IsValid(e.watchedDate.value)
    ensures e.watchedDate.value.year == year.value
    ensures Given(month) ==> e.watchedDate.value.month == month.value
  {
    DiaryWindowsSelect(year, month, e.watchedDate.value);
  }

  lemma DiaryEntryKept(t: Tables, year: Option<int>, month: Option<int>, ws: seq<Window>, e: DiaryEntry,
                       inside: seq<DiaryEntry>, r: seq<(DiaryEntry, Film)>)
    requires DiaryWindows(year, month) == Success(ws)
    requires inside == Filter(t.entries, e => InsideAll(ws, e))
    requires r == Joined(inside, FilmsDict(t.films))
    requires e in t.entries && FindFilm(t.films, e.filmId).Some? && Requested(year, month, e)
    ensures exists k :: 0 <= k < |r| && r[k].0 == e
  {
    var films := FilmsDict(t.films);
    if Given(year) {
      DiaryWindowsSelect(year, month, e.watchedDate.value);
    }
    assert InsideAll(ws, e);
    assert e in inside && e.filmId in films;
    assert (e, films[e.filmId]) in r;
    var k :| 0 <= k < |r| && r[k] == (e, films[e.filmId]);
  }

  /** An entry with its film, when the film is stored. */
  function JoinFor(films: map<nat, Film>): DiaryEntry -> Option<(DiaryEntry, Film)> {
    (e: DiaryEntry) => if e.filmId in films then Some((e, films[e.filmId])) else None
  }

  /** Each entry paired with its film, skipping entries whose film is missing. */
  function Joined(es: seq<DiaryEntry>, films: map<nat, Film>): (r: seq<(DiaryEntry, Film)>)
    ensures |r| <= |es|
    ensures forall k :: 0 <= k < |r| ==> r[k].0 in es && r[k].0.filmId in films && r[k].1 == films[r[k].0.filmId]
    ensures forall e :: e in es && e.filmId in films ==> (e, films[e.filmId]) in r
    // one item per kept entry, in entry order
    ensures r == FilterMap(es, JoinFor(films))
    ensures forall k :: 0 <= k < |r| ==> multiset(r)[r[k]] == multiset(es)[r[k].0]
  {
    if |es| == 0 then []
    else
      assert es == [es[0]] + es[1..];
      FilterMapCons(es, JoinFor(films));
      var r := (if es[0].filmId in films then [(es[0], films[es[0].filmId])] else []) + Joined(es[1..], films);
      JoinedFacts(es, films, r);
      r
  }

  /** The pairs of the join are entries with their stored films, every entry
      whose film is stored is paired, and each pair occurs as often as its entry. */
  lemma JoinedFacts(es: seq<DiaryEntry>, films: map<nat, Film>, r: seq<(DiaryEntry, Film)>)
    requires r == FilterMap(es, JoinFor(films))
    ensures forall k :: 0 <= k < |r| ==> r[k].0 in es && r[k].0.filmId in films && r[k].1 == films[r[k].0.filmId]
    ensures forall e :: e in es && e.filmId in films ==> (e, films[e.filmId]) in r
    ensures forall k :: 0 <= k < |r| ==> multiset(r)[r[k]] == multiset(es)[r[k].0]
  {
    forall k | 0 <= k < |r| ensures r[k].0 in es && r[k].0.filmId in films && r[k].1 == films[r[k].0.filmId] {
      assert r[k] in r;
      var i :| 0 <= i < |es| && JoinFor(films)(es[i]) == Some(r[k]);
    }
    forall e | e in es && e.filmId in films ensures (e, films[e.filmId]) in r {
      var i :| 0 <= i < |es| && es[i] == e;
      assert JoinFor(films)(es[i]) == Some((e, films[e.filmId]));
    }
    forall k | 0 <= k < |r| ensures multiset(r)[r[k]] == multiset(es)[r[k].0] {
      var e := r[k].0;
      forall z ensures JoinFor(films)(z) == Some(r[k]) <==> z == e {
      }
      CountWhereExact(es, JoinFor(films), r[k], e);
    }
  }

  // ---------------------------------------------------------------------------
  // serve_spa
  // ---------------------------------------------------------------------------

  datatype SpaResponse = NotFound | IndexPage | NotBuiltPage

  /** The catch-all route: API paths never fall through to the front end. */
  function ServeSpa(path: string, indexExists: bool): (r: SpaResponse)
    ensures r == NotFound <==> StartsWith(path, "api/")
    ensures r == IndexPage <==> !StartsWith(path, "api/") && indexExists
  {
    if StartsWith(path, "api/") then NotFound
    else if indexExists then IndexPage
    else NotBuiltPage
  }
}
