/** Facts about sequences of names shared by the catalog and the comparison. */
module Sequences {

  /** No two elements of `s` are equal. */
  ghost predicate Distinct<T>(s: seq<T>) {
    forall i, j :: 0 <= i < j < |s| ==> s[i] != s[j]
  }

  /** The set of elements of a sequence. */
  function Elements(s: seq<string>): (e: set<string>)
    ensures forall x :: x in e <==> x in s
  {
    set x | x in s
  }

  /** A set built from a sequence never has more members than the sequence has entries. */
  lemma {:induction false} ElementsBound(s: seq<string>)
    ensures |Elements(s)| <= |s|
    ensures Distinct(s) ==> |Elements(s)| == |s|
    decreases |s|
  {
    if s != [] {
      var last := s[|s| - 1];
      var init := s[..|s| - 1];
      ElementsBound(init);
      assert Elements(s) == Elements(init) + {last} by {
        assert s == init + [last];
      }
      if Distinct(s) {
        assert Distinct(init);
        assert last !in Elements(init);
      }
    }
  }

  /** A subset has no more members than its superset, and a proper subset has fewer. */
  lemma {:induction false} SubsetCardinality(a: set<string>, b: set<string>)
    requires a <= b
    ensures |a| <= |b|
    ensures a < b ==> |a| < |b|
    decreases b
  {
    if a != {} {
      var x :| x in a;
      if a < b {
        var y :| y in b && y !in a;
        assert y in b - {x} && y !in a - {x};
      }
      SubsetCardinality(a - {x}, b - {x});
    } else if b != {} {
      var y :| y in b;
      assert |b| >= 1 by { assert {y} <= b; }
    }
  }

  /** No two elements of `s` agree on `f`. */
  ghost predicate DistinctBy<T, K>(s: seq<T>, f: T -> K) {
    forall i, j :: 0 <= i < j < |s| ==> f(s[i]) != f(s[j])
  }

  /** Removing the element at `m` removes one copy of it from the multiset. */
  lemma RemoveAtMultiset<T>(s: seq<T>, m: nat)
    requires m < |s|
    ensures multiset(s[..m] + s[m + 1..]) == multiset(s) - multiset{s[m]}
  {
    assert s == s[..m] + [s[m]] + s[m + 1..];
    assert multiset(s) == multiset(s[..m] + s[m + 1..]) + multiset{s[m]};
  }

  /** Dropping the first element removes one copy of it from the multiset. */
  lemma TailMultiset<T>(a: seq<T>)
    requires a != []
    ensures multiset(a[1..]) == multiset(a) - multiset{a[0]}
  {
    assert a == [a[0]] + a[1..];
  }

  /** Removing an element keeps a sequence distinct under `f`. */
  lemma RemoveAtDistinctBy<T, K>(s: seq<T>, m: nat, f: T -> K)
    requires m < |s|
    requires DistinctBy(s, f)
    ensures DistinctBy(s[..m] + s[m + 1..], f)
    ensures forall x :: x in s[..m] + s[m + 1..] ==> f(x) != f(s[m])
  {
    var rest := s[..m] + s[m + 1..];
    forall i | 0 <= i < |rest| ensures rest[i] == s[if i < m then i else i + 1] {
    }
  }

  /**
   The first element of `a` occurs in its rearrangement `b` at some position
   `m`, and what remains of both are rearrangements of each other.
   */
  lemma MatchHead<T>(a: seq<T>, b: seq<T>) returns (m: nat)
    requires a != [] && multiset(a) == multiset(b)
    ensures m < |b| && b[m] == a[0]
    ensures multiset(a[1..]) == multiset(b[..m] + b[m + 1..])
  {
    assert a[0] in multiset(b);
    m :| 0 <= m < |b| && b[m] == a[0];
    TailMultiset(a);
    RemoveAtMultiset(b, m);
  }

  /** Rearranging a sequence keeps its elements pairwise distinct under `f`. */
  lemma {:induction false} PermutationKeepsDistinctBy<T, K>(s: seq<T>, t: seq<T>, f: T -> K)
    requires multiset(s) == multiset(t)
    requires DistinctBy(s, f)
    ensures DistinctBy(t, f)
    decreases |t|
  {
    if t != [] {
      var m := MatchHead(t, s);
      var rest := s[..m] + s[m + 1..];
      var tail := t[1..];
      RemoveAtDistinctBy(s, m, f);
      PermutationKeepsDistinctBy(rest, tail, f);
      forall i, j | 0 <= i < j < |t| ensures f(t[i]) != f(t[j]) {
        assert t[j] == tail[j - 1];
        if i == 0 {
          assert t[j] in multiset(rest);
        } else {
          assert t[i] == tail[i - 1];
        }
      }
    }
  }

  /** Applies `f` to every element, keeping the order. */
  function Map<T, U>(s: seq<T>, f: T -> U): (r: seq<U>)
    ensures |r| == |s|
    ensures forall i :: 0 <= i < |s| ==> r[i] == f(s[i])
  {
    seq(|s|, i requires 0 <= i < |s| => f(s[i]))
  }

  /** Mapping commutes with removing an element. */
  lemma MapRemoveAt<T, U>(s: seq<T>, m: nat, f: T -> U)
    requires m < |s|
    ensures Map(s[..m] + s[m + 1..], f) == Map(s, f)[..m] + Map(s, f)[m + 1..]
  {
  }

  /** The images of a sequence are the images without one element, plus that element's image. */
  lemma MapRemoveAtMultiset<T, U>(s: seq<T>, m: nat, f: T -> U)
    requires m < |s|
    ensures multiset(Map(s, f)) == multiset(Map(s[..m] + s[m + 1..], f)) + multiset{f(s[m])}
  {
    var fs := Map(s, f);
    MapRemoveAt(s, m, f);
    RemoveAtMultiset(fs, m);
    assert fs[m] in multiset(fs);
  }

  /** Mapping two rearrangements of the same elements gives two rearrangements of the same images. */
  lemma {:induction false} MapMultiset<T, U>(a: seq<T>, b: seq<T>, f: T -> U)
    requires multiset(a) == multiset(b)
    ensures multiset(Map(a, f)) == multiset(Map(b, f))
    decreases |a|
  {
    if a == [] {
      assert b == [] by { assert |multiset(b)| == 0; }
    } else {
      var m := MatchHead(a, b);
      var rest := b[..m] + b[m + 1..];
      var x := multiset{f(a[0])};
      assert multiset(Map(a, f)) == multiset(Map(a[1..], f)) + x by {
        MapRemoveAtMultiset(a, 0, f);
        assert a[..0] + a[1..] == a[1..];
      }
      assert multiset(Map(a[1..], f)) == multiset(Map(rest, f)) by {
        MapMultiset(a[1..], rest, f);
      }
      assert multiset(Map(b, f)) == multiset(Map(rest, f)) + x by {
        MapRemoveAtMultiset(b, m, f);
      }
    }
  }
}
