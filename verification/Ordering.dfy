/** Python's stable sort, statistics.median, counting, and lists of lists. */
module Ordering {

  ghost predicate SortedBy<T>(s: seq<T>, key: T -> real) {
    forall i, j | 0 <= i < j < |s| :: key(s[i]) <= key(s[j])
  }

  /** Puts x in front of the first element that is not smaller. */
  function InsertBy<T>(x: T, s: seq<T>, key: T -> real): (r: seq<T>)
    ensures multiset(r) == multiset{x} + multiset(s)
  {
    if s == [] || key(x) <= key(s[0]) then [x] + s
    else
      assert s == [s[0]] + s[1..];
      [s[0]] + InsertBy(x, s[1..], key)
  }

  lemma {:induction false} InsertSorted<T>(x: T, s: seq<T>, key: T -> real)
    requires SortedBy(s, key)
    ensures SortedBy(InsertBy(x, s, key), key)
  {
    if s == [] || key(x) <= key(s[0]) {
    } else {
      InsertSorted(x, s[1..], key);
      var r := InsertBy(x, s[1..], key);
      forall i | 0 <= i < |r| ensures key(s[0]) <= key(r[i]) {
        assert r[i] in multiset(r);
      }
    }
  }

  /** sorted(s, key=key) */
  function SortBy<T>(s: seq<T>, key: T -> real): (r: seq<T>)
    ensures SortedBy(r, key)
    ensures multiset(r) == multiset(s)
    ensures |r| == |s|
  {
    if s == [] then []
    else
      assert s == [s[0]] + s[1..];
      InsertSorted(s[0], SortBy(s[1..], key), key);
      var r := InsertBy(s[0], SortBy(s[1..], key), key);
      assert |multiset(r)| == |multiset(s)|;
      r
  }

  /** A list in order stays as it is. */
  lemma {:induction false} SortedStays<T>(s: seq<T>, key: T -> real)
    requires SortedBy(s, key)
    ensures SortBy(s, key) == s
  {
    if s != [] {
      SortedStays(s[1..], key);
      assert |s| > 1 ==> key(s[0]) <= key(s[1]);
    }
  }

  lemma InsertBehind<T>(x: T, y: T, s: seq<T>, key: T -> real)
    requires key(x) > key(y)
    ensures InsertBy(x, [y] + s, key) == [y] + InsertBy(x, s, key)
  {
    assert ([y] + s)[1..] == s;
  }

  /** Same elements, seen as membership. */
  lemma SortMembers<T>(s: seq<T>, key: T -> real)
    ensures forall x :: x in SortBy(s, key) <==> x in s
  {
    forall x ensures x in SortBy(s, key) <==> x in s {
      assert x in SortBy(s, key) <==> x in multiset(SortBy(s, key));
    }
  }

  /** No two entries have the same key. */
  ghost predicate DistinctBy<T>(s: seq<T>, key: T -> real) {
    forall i, j | 0 <= i < j < |s| :: key(s[i]) != key(s[j])
  }

  /** Listed by strictly increasing key. */
  ghost predicate IncreasingBy<T>(s: seq<T>, key: T -> real) {
    forall i, j | 0 <= i < j < |s| :: key(s[i]) < key(s[j])
  }

  lemma {:induction false} InsertDistinct<T>(x: T, s: seq<T>, key: T -> real, tag: T -> real)
    requires DistinctBy(s, tag) && forall y | y in s :: tag(y) != tag(x)
    ensures DistinctBy(InsertBy(x, s, key), tag)
  {
    if s == [] || key(x) <= key(s[0]) {
    } else {
      InsertDistinct(x, s[1..], key, tag);
      var r := InsertBy(x, s[1..], key);
      forall k | 0 <= k < |r| ensures tag(r[k]) != tag(s[0]) {
        assert r[k] in multiset(r);
        if r[k] != x {
          assert r[k] in s[1..];
        }
      }
    }
  }

  /** Sorting by one key keeps another distinct. */
  lemma {:induction false} SortDistinct<T>(s: seq<T>, key: T -> real, tag: T -> real)
    requires DistinctBy(s, tag)
    ensures DistinctBy(SortBy(s, key), tag)
  {
    if s != [] {
      var rest := SortBy(s[1..], key);
      SortDistinct(s[1..], key, tag);
      forall y | y in rest ensures tag(y) != tag(s[0]) {
        assert y in multiset(rest);
        var i :| 0 <= i < |s[1..]| && s[1..][i] == y;
        assert s[i + 1] == y;
      }
      InsertDistinct(s[0], rest, key, tag);
    }
  }

  /** Sorting entries with distinct keys gives strictly increasing keys. */
  lemma SortIncreasing<T>(s: seq<T>, key: T -> real)
    requires DistinctBy(s, key)
    ensures IncreasingBy(SortBy(s, key), key)
  {
    SortDistinct(s, key, key);
    var r := SortBy(s, key);
    forall i, j | 0 <= i < j < |r| ensures key(r[i]) < key(r[j]) {
      assert key(r[i]) <= key(r[j]) && key(r[i]) != key(r[j]);
    }
  }

  /** Two lists with strictly increasing keys and the same entries are equal. */
  lemma {:induction false} SameIncreasing<T>(a: seq<T>, b: seq<T>, key: T -> real)
    requires IncreasingBy(a, key) && IncreasingBy(b, key)
    requires forall x :: x in a <==> x in b
    ensures a == b
  {
    if a != [] { assert a[0] in b; }
    if b != [] { assert b[0] in a; }
    if a != [] {
      assert a[0] == b[0];
      forall x ensures x in a[1..] <==> x in b[1..] {
        if x in a[1..] {
          assert x in b && x != b[0];
        }
        if x in b[1..] {
          assert x in a && x != a[0];
        }
      }
      SameIncreasing(a[1..], b[1..], key);
    }
  }

  function Same(x: real): real { x }

  /** statistics.median */
  function Median(s: seq<real>): real
    requires s != []
  {
    var r := SortBy(s, Same);
    if |r| % 2 == 1 then r[|r| / 2] else (r[|r| / 2 - 1] + r[|r| / 2]) / 2.0
  }

  /** The median lies between every lower and every upper bound. */
  lemma MedianBetween(s: seq<real>, lo: real, hi: real)
    requires s != []
    requires forall x | x in s :: lo <= x <= hi
    ensures lo <= Median(s) <= hi
  {
    SortMembers(s, Same);
    var r := SortBy(s, Same);
    assert r[|r| / 2] in s;
    assert |r| % 2 == 0 ==> r[|r| / 2 - 1] in s;
  }

  /** Distinct numbers below n are at most n many. */
  lemma {:induction false} PigeonHole(f: seq<nat>, n: nat)
    requires forall i | 0 <= i < |f| :: f[i] < n
    requires forall i, j | 0 <= i < j < |f| :: f[i] != f[j]
    ensures |f| <= n
    decreases n
  {
    if f != [] {
      var last := |f| - 1;
      var k := f[last];
      assert n > 0;
      // Rename n - 1, which the prefix may use, to the freed k.
      var g := seq(last, i requires 0 <= i < last => if f[i] == n - 1 then k else f[i]);
      forall i, j | 0 <= i < j < |g| ensures g[i] != g[j] {
        assert f[i] != f[j] && f[i] != k && f[j] != k;
      }
      forall i | 0 <= i < |g| ensures g[i] < n - 1 {
        assert f[i] != k;
      }
      PigeonHole(g, n - 1);
    }
  }

  /** A subset has no more elements, and fewer unless it is the whole set. */
  lemma {:induction false} Contained<T>(a: set<T>, b: set<T>)
    requires a <= b
    ensures |a| <= |b|
    ensures |a| == |b| ==> a == b
  {
    if a != {} {
      var x :| x in a;
      Contained(a - {x}, b - {x});
    } else if |b| == 0 {
      assert b == {};
    }
  }

  /** The entries that are not dropped. */
  function Without<T(!new)>(s: seq<T>, drop: T -> bool): (r: seq<T>)
    ensures forall x :: x in r <==> x in s && !drop(x)
  {
    if s == [] then []
    else
      var rest := Without(s[1..], drop);
      if drop(s[0]) then rest else [s[0]] + rest
  }

  lemma WithoutCons<T(!new)>(x: T, s: seq<T>, drop: T -> bool)
    ensures Without([x] + s, drop) == if drop(x) then Without(s, drop) else [x] + Without(s, drop)
  {
    assert ([x] + s)[1..] == s;
  }

  lemma {:induction false} WithoutAppend<T(!new)>(a: seq<T>, b: seq<T>, drop: T -> bool)
    ensures Without(a + b, drop) == Without(a, drop) + Without(b, drop)
  {
    if a == [] {
      assert a + b == b;
    } else {
      WithoutAppend(a[1..], b, drop);
      assert a == [a[0]] + a[1..] && a + b == [a[0]] + (a[1..] + b);
      WithoutCons(a[0], a[1..], drop);
      WithoutCons(a[0], a[1..] + b, drop);
    }
  }

  /** Dropping entries keeps keys distinct, and increasing. */
  lemma {:induction false} WithoutKeeps<T(!new)>(s: seq<T>, drop: T -> bool, key: T -> real)
    ensures DistinctBy(s, key) ==> DistinctBy(Without(s, drop), key)
    ensures IncreasingBy(s, key) ==> IncreasingBy(Without(s, drop), key)
  {
    if s != [] {
      WithoutKeeps(s[1..], drop, key);
      var rest := Without(s[1..], drop);
      forall k | 0 <= k < |rest| ensures exists i :: 1 <= i < |s| && s[i] == rest[k] {
        assert rest[k] in s[1..];
        var i :| 0 <= i < |s[1..]| && s[1..][i] == rest[k];
        assert s[i + 1] == rest[k];
      }
    }
  }

  /** f of every entry, in order. */
  function Each<A, B>(f: A -> B, s: seq<A>): (r: seq<B>)
    ensures |r| == |s|
  {
    seq(|s|, i requires 0 <= i < |s| => f(s[i]))
  }

  lemma EachCons<A, B>(f: A -> B, s: seq<A>)
    requires s != []
    ensures Each(f, s) == [f(s[0])] + Each(f, s[1..])
  {
  }

  lemma EachSnoc<A, B>(f: A -> B, s: seq<A>, i: nat)
    requires i < |s|
    ensures Each(f, s[..i + 1]) == Each(f, s[..i]) + [f(s[i])]
  {
  }

  /** The concatenation of a list of lists. */
  function Flatten<T>(parts: seq<seq<T>>): seq<T> {
    if parts == [] then [] else parts[0] + Flatten(parts[1..])
  }

  lemma {:induction false} FlattenAppend<T>(a: seq<seq<T>>, b: seq<seq<T>>)
    ensures Flatten(a + b) == Flatten(a) + Flatten(b)
  {
    if a == [] {
      assert a + b == b;
    } else {
      FlattenAppend(a[1..], b);
      assert (a + b)[1..] == a[1..] + b;
    }
  }

  lemma FlattenOne<T>(part: seq<T>)
    ensures Flatten([part]) == part
  {
    assert Flatten([part]) == part + Flatten([][..]);
  }

  lemma FlattenCons<T>(first: seq<T>, parts: seq<seq<T>>)
    ensures Flatten([first] + parts) == first + Flatten(parts)
  {
    assert ([first] + parts)[1..] == parts;
  }

  lemma FlattenSnoc<T>(parts: seq<seq<T>>, last: seq<T>)
    ensures Flatten(parts + [last]) == Flatten(parts) + last
  {
    FlattenAppend(parts, [last]);
    FlattenOne(last);
  }

  lemma {:induction false} FlattenMembers<T>(parts: seq<seq<T>>, x: T)
    ensures x in Flatten(parts) <==> exists i :: 0 <= i < |parts| && x in parts[i]
  {
    if parts != [] {
      FlattenMembers(parts[1..], x);
      if exists i :: 0 <= i < |parts| && x in parts[i] {
        var i :| 0 <= i < |parts| && x in parts[i];
        assert i > 0 ==> x in parts[1..][i - 1];
      }
      if i :| 0 <= i < |parts[1..]| && x in parts[1..][i] {
        assert x in parts[i + 1];
      }
    }
  }
}
