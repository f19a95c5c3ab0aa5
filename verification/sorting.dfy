/** Python's `list.sort(key=..., reverse=...)` and `sorted(...)`, which are
    stable in both directions: elements with equal keys keep their original
    order even when `reverse=True`. Also `xs[:n]`. */
module Sorting {
  import opened Text
  import opened Dates

  /** The keys the program sorts by: text (`title or ""`), numbers
      (`year or 0`, `rating or 0`, a count) and dates. */
  datatype SortKey = TextKey(text: string) | NumKey(num: real) | DateKey(date: Date)

  function Rank(k: SortKey): nat {
    match k
    case TextKey(_) => 0
    case NumKey(_) => 1
    case DateKey(_) => 2
  }

  /** Python's `<` on keys of one kind. A single sort only ever compares keys
      of one kind; the rank between kinds just makes the order total. */
  predicate KeyLess(a: SortKey, b: SortKey) {
    match (a, b)
    case (TextKey(x), TextKey(y)) => StrLess(x, y)
    case (NumKey(x), NumKey(y)) => x < y
    case (DateKey(x), DateKey(y)) => Before(x, y)
    case _ => Rank(a) < Rank(b)
  }

  lemma KeyLessIrreflexive(a: SortKey)
    ensures !KeyLess(a, a)
  {
    if a.TextKey? {
      StrLessIrreflexive(a.text);
    }
  }

  lemma KeyLessTransitive(a: SortKey, b: SortKey, c: SortKey)
    requires KeyLess(a, b) && KeyLess(b, c)
    ensures KeyLess(a, c)
  {
    if a.TextKey? && b.TextKey? && c.TextKey? {
      StrLessTransitive(a.text, b.text, c.text);
    }
  }

  lemma KeyLessTotal(a: SortKey, b: SortKey)
    requires a != b
    ensures KeyLess(a, b) || KeyLess(b, a)
  {
    if a.TextKey? && b.TextKey? {
      StrLessTotal(a.text, b.text);
    }
  }

  /** A key that must be placed strictly before `b` in a sort that is
      descending when `desc`. */
  predicate Ahead(a: SortKey, b: SortKey, desc: bool) {
    if desc then KeyLess(b, a) else KeyLess(a, b)
  }

  lemma AheadIrreflexive(a: SortKey, desc: bool)
    ensures !Ahead(a, a, desc)
  {
    KeyLessIrreflexive(a);
  }

  lemma AheadAsymmetric(a: SortKey, b: SortKey, desc: bool)
    requires Ahead(a, b, desc)
    ensures !Ahead(b, a, desc)
  {
    if Ahead(b, a, desc) {
      KeyLessTransitive(a, b, a);
      KeyLessIrreflexive(a);
    }
  }

  /** "Not ahead" is a total preorder, so it chains. */
  lemma NotAheadTransitive(a: SortKey, b: SortKey, c: SortKey, desc: bool)
    requires !Ahead(a, b, desc) && !Ahead(b, c, desc)
    ensures !Ahead(a, c, desc)
  {
    if a != b && b != c {
      KeyLessTotal(a, b);
      KeyLessTotal(b, c);
      if desc {
        KeyLessTransitive(a, b, c);
        AheadAsymmetric(c, a, desc);
      } else {
        KeyLessTransitive(c, b, a);
        AheadAsymmetric(c, a, desc);
      }
    }
  }

  ghost predicate SortedBy<T>(s: seq<T>, key: T -> SortKey, desc: bool) {
    forall i, j :: 0 <= i < j < |s| ==> !Ahead(key(s[j]), key(s[i]), desc)
  }

  /** Places `x` in front of the first element it need not follow, which
      keeps `x` ahead of every element with an equal key. */
  function Insert<T>(x: T, s: seq<T>, key: T -> SortKey, desc: bool): (r: seq<T>)
    ensures multiset(r) == multiset(s) + multiset{x}
  {
    if |s| == 0 || !Ahead(key(s[0]), key(x), desc) then [x] + s
    else
      assert s == [s[0]] + s[1..];
      [s[0]] + Insert(x, s[1..], key, desc)
  }

  lemma {:induction false} InsertSorted<T>(x: T, s: seq<T>, key: T -> SortKey, desc: bool)
    requires SortedBy(s, key, desc)
    ensures SortedBy(Insert(x, s, key, desc), key, desc)
  {
    var r := Insert(x, s, key, desc);
    if |s| == 0 {
    } else if !Ahead(key(s[0]), key(x), desc) {
      forall i, j | 0 <= i < j < |r|
        ensures !Ahead(key(r[j]), key(r[i]), desc)
      {
        if i == 0 {
          if j > 1 {
            NotAheadTransitive(key(s[j - 1]), key(s[0]), key(x), desc);
          }
        }
      }
    } else {
      var t := s[1..];
      assert SortedBy(t, key, desc);
      InsertSorted(x, t, key, desc);
      var tail := Insert(x, t, key, desc);
      assert r == [s[0]] + tail;
      forall j | 0 <= j < |tail|
        ensures !Ahead(key(tail[j]), key(s[0]), desc)
      {
        assert tail[j] in multiset(tail);
        if tail[j] == x {
          AheadAsymmetric(key(s[0]), key(x), desc);
        } else {
          assert tail[j] in multiset(t);
          var k :| 0 <= k < |t| && t[k] == tail[j];
          assert s[k + 1] == tail[j];
        }
      }
    }
  }

  /** Python's stable `sorted(s, key=key, reverse=desc)`. */
  function SortBy<T>(s: seq<T>, key: T -> SortKey, desc: bool): (r: seq<T>)
    ensures multiset(r) == multiset(s)
    ensures |r| == |s|
    ensures SortedBy(r, key, desc)
  {
    if |s| == 0 then []
    else
      var t := SortBy(s[1..], key, desc);
      InsertSorted(s[0], t, key, desc);
      assert s == [s[0]] + s[1..];
      var r := Insert(s[0], t, key, desc);
      assert |r| == |multiset(r)|;
      r
  }

  /** The elements of `s` whose key is `k`, in order. */
  function WithKey<T>(s: seq<T>, key: T -> SortKey, k: SortKey): seq<T> {
    if |s| == 0 then []
    else (if key(s[0]) == k then [s[0]] else []) + WithKey(s[1..], key, k)
  }

  lemma WithKeyCons<T>(y: T, t: seq<T>, key: T -> SortKey, k: SortKey)
    ensures WithKey([y] + t, key, k) == (if key(y) == k then [y] else []) + WithKey(t, key, k)
  {
    assert ([y] + t)[1..] == t;
  }

  /** Two runs of which one is empty may be swapped. */
  lemma SwapEmpty<T>(a: seq<T>, b: seq<T>, w: seq<T>)
    requires a == [] || b == []
    ensures a + (b + w) == b + (a + w)
  {
    if a == [] {
      assert a + w == w;
    } else {
      assert b + w == w;
    }
  }

  lemma {:induction false} InsertWithKey<T>(x: T, s: seq<T>, key: T -> SortKey, desc: bool, k: SortKey)
    ensures WithKey(Insert(x, s, key, desc), key, k)
         == (if key(x) == k then [x] else []) + WithKey(s, key, k)
  {
    if |s| == 0 || !Ahead(key(s[0]), key(x), desc) {
      WithKeyCons(x, s, key, k);
    } else {
      var rest := Insert(x, s[1..], key, desc);
      assert s == [s[0]] + s[1..];
      WithKeyCons(s[0], rest, key, k);
      WithKeyCons(s[0], s[1..], key, k);
      InsertWithKey(x, s[1..], key, desc, k);
      // `x` and `s[0]` have different keys, so at most one of them is kept
      AheadIrreflexive(key(x), desc);
      SwapEmpty(if key(s[0]) == k then [s[0]] else [], if key(x) == k then [x] else [], WithKey(s[1..], key, k));
    }
  }

  /** Stability: sorting leaves the relative order of equal-keyed elements alone. */
  lemma {:induction false} SortByStable<T>(s: seq<T>, key: T -> SortKey, desc: bool, k: SortKey)
    ensures WithKey(SortBy(s, key, desc), key, k) == WithKey(s, key, k)
  {
    if |s| > 0 {
      SortByStable(s[1..], key, desc, k);
      InsertWithKey(s[0], SortBy(s[1..], key, desc), key, desc, k);
    }
  }

  /** Python's `s[:n]`. */
  function Take<T>(s: seq<T>, n: nat): (r: seq<T>)
    ensures |r| <= n && |r| <= |s|
    ensures |r| == n || |r| == |s|
    ensures r == s[..|r|]
  {
    if |s| <= n then s else s[..n]
  }

  ghost predicate IsPrefix<T>(a: seq<T>, b: seq<T>) {
    |a| <= |b| && b[..|a|] == a
  }

  lemma {:induction false} WithKeyAppend<T>(a: seq<T>, b: seq<T>, key: T -> SortKey, k: SortKey)
    ensures WithKey(a + b, key, k) == WithKey(a, key, k) + WithKey(b, key, k)
  {
    if |a| > 0 {
      assert (a + b)[1..] == a[1..] + b;
      WithKeyAppend(a[1..], b, key, k);
    } else {
      assert a + b == b;
    }
  }

  /** The first `n` elements of a stable sort: elements of the input (each at
      most as often as there), and among equal-keyed elements the ones that come
      first in the input, in input order. */
  lemma TakeSorted<T>(s: seq<T>, key: T -> SortKey, desc: bool, n: nat)
    ensures multiset(Take(SortBy(s, key, desc), n)) <= multiset(s)
    ensures forall k :: IsPrefix(WithKey(Take(SortBy(s, key, desc), n), key, k), WithKey(s, key, k))
  {
    var sorted := SortBy(s, key, desc);
    var r := Take(sorted, n);
    assert sorted == r + sorted[|r|..];
    assert multiset(sorted) == multiset(r) + multiset(sorted[|r|..]);
    forall k ensures IsPrefix(WithKey(r, key, k), WithKey(s, key, k)) {
      WithKeyAppend(r, sorted[|r|..], key, k);
      SortByStable(s, key, desc, k);
    }
  }
}
