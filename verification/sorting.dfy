/**
 Descending, stable sorting of records by a two-level integer key.

 Both rankings of the simulator are descending sorts: the ground truth by
 incident count alone, the user's ranking by priority and then incident count.
 A record's key is a pair compared lexicographically; a single-column sort
 uses a constant minor component.
 */
module Sorting {

  /** A sort key: `major` is compared first, `minor` breaks ties. */
  datatype Key = Key(major: int, minor: int)

  /** `a` ranks no lower than `b` in a descending lexicographic order. */
  predicate AtLeast(a: Key, b: Key) {
    a.major > b.major || (a.major == b.major && a.minor >= b.minor)
  }

  /** Every element ranks no lower than every element after it. */
  ghost predicate SortedDesc<T>(s: seq<T>, key: T -> Key) {
    forall i, j :: 0 <= i < j < |s| ==> AtLeast(key(s[i]), key(s[j]))
  }

  /** The elements of `s` whose key is exactly `k`, in their order in `s`. */
  function WithKey<T>(s: seq<T>, key: T -> Key, k: Key): seq<T> {
    if s == [] then []
    else (if key(s[0]) == k then [s[0]] else []) + WithKey(s[1..], key, k)
  }

  /** A sorted sequence stays sorted when an element ranking no lower than all of it is put in front. */
  lemma ConsSorted<T>(y: T, rest: seq<T>, key: T -> Key)
    requires SortedDesc(rest, key)
    requires forall z :: z in rest ==> AtLeast(key(y), key(z))
    ensures SortedDesc([y] + rest, key)
  {
    forall i, j | 0 <= i < j < |[y] + rest|
      ensures AtLeast(key(([y] + rest)[i]), key(([y] + rest)[j]))
    {
      assert ([y] + rest)[j] == rest[j - 1];
      if i > 0 {
        assert ([y] + rest)[i] == rest[i - 1];
      }
    }
  }

  /**
   Places `x` in front of the first element it ranks no lower than, so that
   `x` precedes every element of `s` with the same key.
   */
  function Insert<T>(x: T, s: seq<T>, key: T -> Key): (r: seq<T>)
    ensures |r| == |s| + 1
    ensures multiset(r) == multiset(s) + multiset{x}
    ensures forall y :: y in r ==> y == x || y in s
    ensures SortedDesc(s, key) ==> SortedDesc(r, key)
    decreases |s|
  {
    if s == [] || AtLeast(key(x), key(s[0])) then
      assert SortedDesc(s, key) ==> SortedDesc([x] + s, key) by {
        if SortedDesc(s, key) {
          ConsSorted(x, s, key);
        }
      }
      [x] + s
    else
      var rest := Insert(x, s[1..], key);
      assert s == [s[0]] + s[1..];
      assert SortedDesc(s, key) ==> SortedDesc([s[0]] + rest, key) by {
        if SortedDesc(s, key) {
          assert SortedDesc(s[1..], key) by {
            forall i, j | 0 <= i < j < |s[1..]|
              ensures AtLeast(key(s[1..][i]), key(s[1..][j]))
            {
              assert s[1..][i] == s[i + 1] && s[1..][j] == s[j + 1];
            }
          }
          forall z | z in rest
            ensures AtLeast(key(s[0]), key(z))
          {
            if z != x {
              var m :| 0 <= m < |s[1..]| && s[1..][m] == z;
              assert s[m + 1] == z;
            }
          }
          ConsSorted(s[0], rest, key);
        }
      }
      [s[0]] + rest
  }

  /** Insertion sort: a descending permutation of `s`. */
  function SortDesc<T>(s: seq<T>, key: T -> Key): (r: seq<T>)
    ensures |r| == |s|
    ensures multiset(r) == multiset(s)
    ensures SortedDesc(r, key)
    decreases |s|
  {
    if s == [] then []
    else
      assert s == [s[0]] + s[1..];
      Insert(s[0], SortDesc(s[1..], key), key)
  }

  /** Selecting by key distributes over putting one element in front. */
  lemma WithKeyCons<T>(y: T, rest: seq<T>, key: T -> Key, k: Key)
    ensures WithKey([y] + rest, key, k) == (if key(y) == k then [y] else []) + WithKey(rest, key, k)
  {
    assert ([y] + rest)[1..] == rest;
  }

  /** Putting `a` and `b` in front of `w` in either order agrees when one of them is empty. */
  lemma SwapFront<T>(a: seq<T>, b: seq<T>, w: seq<T>)
    requires a == [] || b == []
    ensures a + (b + w) == b + (a + w)
  {
    if a == [] {
      assert a + (b + w) == b + w;
      assert a + w == w;
    } else {
      assert b + (a + w) == a + w;
      assert b + w == w;
    }
  }

  /** The inductive step of `InsertStable`: `x` passes an element of a different key. */
  lemma InsertPastHead<T>(x: T, s: seq<T>, key: T -> Key, k: Key)
    requires s != [] && !AtLeast(key(x), key(s[0]))
    requires WithKey(Insert(x, s[1..], key), key, k)
             == (if key(x) == k then [x] else []) + WithKey(s[1..], key, k)
    ensures WithKey(Insert(x, s, key), key, k)
            == (if key(x) == k then [x] else []) + WithKey(s, key, k)
  {
    var r := Insert(x, s[1..], key);
    var head := if key(s[0]) == k then [s[0]] else [];
    var mine := if key(x) == k then [x] else [];
    var w := WithKey(s[1..], key, k);
    assert WithKey(Insert(x, s, key), key, k) == head + (mine + w) by {
      assert Insert(x, s, key) == [s[0]] + r;
      WithKeyCons(s[0], r, key, k);
    }
    assert WithKey(s, key, k) == head + w by {
      assert s == [s[0]] + s[1..];
      WithKeyCons(s[0], s[1..], key, k);
    }
    assert key(x) != key(s[0]);
    SwapFront(head, mine, w);
  }

  /** Inserting `x` puts it ahead of every element sharing its key. */
  lemma {:induction false} InsertStable<T>(x: T, s: seq<T>, key: T -> Key, k: Key)
    ensures WithKey(Insert(x, s, key), key, k)
            == (if key(x) == k then [x] else []) + WithKey(s, key, k)
    decreases |s|
  {
    if s == [] || AtLeast(key(x), key(s[0])) {
      WithKeyCons(x, s, key, k);
    } else {
      InsertStable(x, s[1..], key, k);
      InsertPastHead(x, s, key, k);
    }
  }

  /**
   The sort is stable: records with equal keys keep their relative input
   order, for every key.
   */
  lemma {:induction false} SortStable<T>(s: seq<T>, key: T -> Key, k: Key)
    ensures WithKey(SortDesc(s, key), key, k) == WithKey(s, key, k)
    decreases |s|
  {
    if s != [] {
      SortStable(s[1..], key, k);
      InsertStable(s[0], SortDesc(s[1..], key), key, k);
    }
  }
}
