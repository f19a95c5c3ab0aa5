/** `collections.Counter` as the dashboard uses it: `counter[x] += 1` for each
    item, then `most_common(n)`. A counter is its `items()` in insertion order. */
module Tallies {
  import opened Sorting

  /** One `(key, count)` pair of a counter. */
  datatype Tally<K> = Tally(key: K, count: nat)

  ghost predicate DistinctKeys<K>(c: seq<Tally<K>>) {
    forall i, j :: 0 <= i < j < |c| ==> c[i].key != c[j].key
  }

  /** `counter[y]`: the count stored for `y`, 0 when absent. */
  function CountOf<K(==)>(c: seq<Tally<K>>, y: K): nat {
    if |c| == 0 then 0 else if c[0].key == y then c[0].count else CountOf(c[1..], y)
  }

  ghost predicate HasKey<K>(c: seq<Tally<K>>, y: K) {
    exists i :: 0 <= i < |c| && c[i].key == y
  }

  lemma HasKeyCons<K>(h: Tally<K>, t: seq<Tally<K>>, y: K)
    ensures HasKey([h] + t, y) <==> h.key == y || HasKey(t, y)
  {
    var r := [h] + t;
    if HasKey(r, y) && h.key != y {
      var i :| 0 <= i < |r| && r[i].key == y;
      assert t[i - 1].key == y;
    }
    if HasKey(t, y) {
      var i :| 0 <= i < |t| && t[i].key == y;
      assert r[i + 1].key == y;
    }
    if h.key == y {
      assert r[0].key == y;
    }
  }

  /** `counter[x] += 1`: bumps the pair for `x`, or appends `(x, 1)`. */
  function Bump<K(==,!new)>(c: seq<Tally<K>>, x: K): (r: seq<Tally<K>>)
    ensures forall y :: CountOf(r, y) == CountOf(c, y) + (if y == x then 1 else 0)
    ensures forall y :: HasKey(r, y) <==> HasKey(c, y) || y == x
    ensures DistinctKeys(c) ==> DistinctKeys(r)
    ensures (forall i :: 0 <= i < |c| ==> c[i].count >= 1) ==> forall i :: 0 <= i < |r| ==> r[i].count >= 1
  {
    if |c| == 0 then
      var r := [Tally(x, 1)];
      assert r[0].key == x;
      r
    else
      assert c == [c[0]] + c[1..];
      if c[0].key == x then
        var r := [Tally(x, c[0].count + 1)] + c[1..];
        assert forall y :: HasKey(r, y) <==> HasKey(c, y) by {
          forall y ensures HasKey(r, y) <==> HasKey(c, y) {
            HasKeyCons(c[0], c[1..], y);
            HasKeyCons(Tally(x, c[0].count + 1), c[1..], y);
          }
        }
        r
      else
        var rest := Bump(c[1..], x);
        var r := [c[0]] + rest;
        assert forall y :: HasKey(r, y) <==> HasKey(c, y) || y == x by {
          forall y ensures HasKey(r, y) <==> HasKey(c, y) || y == x {
            HasKeyCons(c[0], c[1..], y);
            HasKeyCons(c[0], rest, y);
          }
        }
        assert DistinctKeys(c) ==> DistinctKeys(r) by {
          if DistinctKeys(c) {
            HasKeyCons(c[0], c[1..], c[0].key);
            assert !HasKey(c[1..], c[0].key);
            forall i, j | 0 <= i < j < |r| ensures r[i].key != r[j].key {
              if i == 0 {
                assert rest[j - 1].key == r[j].key;
              }
            }
          }
        }
        r
  }

  lemma DistinctCount<K>(c: seq<Tally<K>>, i: nat)
    requires DistinctKeys(c) && i < |c|
    ensures CountOf(c, c[i].key) == c[i].count
  {
    if i > 0 {
      DistinctCount(c[1..], i - 1);
    }
  }

  /** A counter fed with every element of `xs`, in order. */
  function CountAll<K(==,!new)>(xs: seq<K>): (c: seq<Tally<K>>)
    ensures DistinctKeys(c)
    ensures forall y :: CountOf(c, y) == multiset(xs)[y]
    ensures forall y :: HasKey(c, y) <==> y in xs
    ensures forall i :: 0 <= i < |c| ==> c[i].count >= 1
  {
    if |xs| == 0 then []
    else
      var init := xs[..|xs| - 1];
      assert xs == init + [xs[|xs| - 1]];
      Bump(CountAll(init), xs[|xs| - 1])
  }

  /** Every pair of `CountAll(xs)` holds the number of times its key occurs in `xs`. */
  lemma CountAllPairs<K(!new)>(xs: seq<K>)
    ensures forall i :: 0 <= i < |CountAll(xs)| ==> CountAll(xs)[i].count == multiset(xs)[CountAll(xs)[i].key]
  {
    var c := CountAll(xs);
    forall i | 0 <= i < |c| ensures c[i].count == multiset(xs)[c[i].key] {
      DistinctCount(c, i);
    }
  }

  /** The keys of a counter, in its order. */
  function Keys<K>(c: seq<Tally<K>>): (ks: seq<K>)
    ensures |ks| == |c| && forall i :: 0 <= i < |c| ==> ks[i] == c[i].key
  {
    seq(|c|, i requires 0 <= i < |c| => c[i].key)
  }

  /** The distinct elements of `xs` in the order of their first occurrence. */
  function FirstSeen<K(==)>(xs: seq<K>): seq<K> {
    if |xs| == 0 then []
    else
      var init := xs[..|xs| - 1];
      FirstSeen(init) + (if xs[|xs| - 1] in init then [] else [xs[|xs| - 1]])
  }

  /** Bumping keeps the order of the keys and appends a new one at the end. */
  lemma {:induction false} BumpKeys<K(!new)>(c: seq<Tally<K>>, x: K)
    ensures Keys(Bump(c, x)) == Keys(c) + (if HasKey(c, x) then [] else [x])
  {
    if |c| == 0 {
      assert Keys(Bump(c, x)) == [x];
    } else {
      var rest := c[1..];
      assert c == [c[0]] + rest;
      HasKeyCons(c[0], rest, x);
      KeysAppend([c[0]], rest);
      if c[0].key == x {
        KeysAppend([Tally(x, c[0].count + 1)], rest);
      } else {
        BumpKeys(rest, x);
        KeysAppend([c[0]], Bump(rest, x));
      }
    }
  }

  lemma KeysAppend<K>(a: seq<Tally<K>>, b: seq<Tally<K>>)
    ensures Keys(a + b) == Keys(a) + Keys(b)
  {
  }

  /** A counter lists its keys in the order they were first counted. */
  lemma {:induction false} CountAllKeys<K(!new)>(xs: seq<K>)
    ensures Keys(CountAll(xs)) == FirstSeen(xs)
  {
    if |xs| > 0 {
      var init := xs[..|xs| - 1];
      CountAllKeys(init);
      BumpKeys(CountAll(init), xs[|xs| - 1]);
    }
  }

  /** A pair occurs at most once in a counter. */
  lemma {:induction false} DistinctOnce<K>(c: seq<Tally<K>>, t: Tally<K>)
    requires DistinctKeys(c)
    ensures multiset(c)[t] <= 1
  {
    if |c| > 0 {
      assert c == [c[0]] + c[1..];
      DistinctOnce(c[1..], t);
      if c[0] == t {
        assert t !in c[1..] by {
          forall i | 0 <= i < |c[1..]| ensures c[1..][i] != t {
            assert c[1..][i].key == c[i + 1].key;
          }
        }
      }
    }
  }

  /** Pairs taken from a counter, none more often than it holds them, have distinct keys. */
  lemma SubDistinct<K>(c: seq<Tally<K>>, r: seq<Tally<K>>)
    requires DistinctKeys(c) && multiset(r) <= multiset(c)
    ensures DistinctKeys(r)
  {
    forall i, j | 0 <= i < j < |r| ensures r[i].key != r[j].key {
      assert r[i] in multiset(c) && r[j] in multiset(c);
      if r[i] == r[j] {
        assert r == r[..j] + [r[j]] + r[j + 1..];
        assert r[i] in r[..j];
        assert multiset(r)[r[i]] >= 2;
        DistinctOnce(c, r[i]);
      } else {
        var a :| 0 <= a < |c| && c[a] == r[i];
        var b :| 0 <= b < |c| && c[b] == r[j];
        assert a != b;
      }
    }
  }

  function CountKey<K>(t: Tally<K>): SortKey {
    NumKey(t.count as real)
  }

  /** `Counter.most_common(n)`: largest counts first, ties in insertion order,
      at most `n` pairs. */
  function MostCommon<K(!new)>(c: seq<Tally<K>>, n: nat): (r: seq<Tally<K>>)
    ensures |r| <= n && |r| <= |c| && (|r| == n || |r| == |c|)
    ensures forall i :: 0 <= i < |r| ==> r[i] in c
    ensures forall i, j :: 0 <= i < j < |r| ==> r[i].count >= r[j].count
    ensures forall t :: t in c && t !in r ==> |r| == n && forall i :: 0 <= i < |r| ==> r[i].count >= t.count
    // no pair is repeated, and pairs with equal counts come in the order they were first counted
    ensures multiset(r) <= multiset(c)
    ensures forall k :: IsPrefix(WithKey(r, CountKey, k), WithKey(c, CountKey, k))
  {
    var sorted := SortBy(c, CountKey, true);
    var r := Take(sorted, n);
    TakeOfSorted(c, sorted, n);
    TakeSorted(c, CountKey, true, n);
    r
  }

  lemma TakeOfSorted<K(!new)>(c: seq<Tally<K>>, sorted: seq<Tally<K>>, n: nat)
    requires multiset(sorted) == multiset(c)
    requires SortedBy(sorted, CountKey, true)
    ensures forall i :: 0 <= i < |Take(sorted, n)| ==> Take(sorted, n)[i] in c
    ensures forall i, j :: 0 <= i < j < |Take(sorted, n)| ==> Take(sorted, n)[i].count >= Take(sorted, n)[j].count
    ensures forall t :: t in c && t !in Take(sorted, n) ==>
              |Take(sorted, n)| == n && forall i :: 0 <= i < |Take(sorted, n)| ==> Take(sorted, n)[i].count >= t.count
  {
    var r := Take(sorted, n);
    forall i | 0 <= i < |r| ensures r[i] in c {
      assert r[i] == sorted[i];
      assert sorted[i] in multiset(sorted);
    }
    forall i, j | 0 <= i < j < |r| ensures r[i].count >= r[j].count {
      assert !Ahead(CountKey(sorted[j]), CountKey(sorted[i]), true);
    }
    forall t | t in c && t !in r
      ensures |r| == n && forall i :: 0 <= i < |r| ==> r[i].count >= t.count
    {
      assert t in multiset(sorted);
      var k :| 0 <= k < |sorted| && sorted[k] == t;
      assert forall i :: 0 <= i < |r| ==> r[i] == sorted[i];
      assert k >= |r|;
      forall i | 0 <= i < |r| ensures r[i].count >= t.count {
        assert !Ahead(CountKey(sorted[k]), CountKey(sorted[i]), true);
      }
    }
  }
}
