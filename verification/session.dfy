/**
 The per-session shuffle: the selected scenario's problems are shown in a
 random order that is drawn once and kept until another scenario is chosen.

 The random draw is a parameter: `draw` lists, for each display position,
 the catalog position of the problem shown there, as sampling every element
 without replacement produces.
 */
module Session {
  import opened Wrappers
  import opened Sequences
  import opened Catalog

  /**
   The two session keys the rule reads and writes: the stored shuffle and
   the scenario it was drawn for.
   */
  datatype State = State(shuffle: Option<seq<Problem>>, current: Option<string>)

  /** A new session: neither key is set. */
  const Fresh: State := State(None, None)

  /** Both keys are written together, so a stored shuffle always has a scenario. */
  predicate Valid(st: State) {
    st.shuffle.Some? ==> st.current.Some?
  }

  /** `p` lists each of the positions `0 .. n - 1` exactly once. */
  ghost predicate IsIndexPermutation(p: seq<nat>, n: nat) {
    && |p| == n
    && (forall i :: 0 <= i < n ==> p[i] < n)
    && (forall i, j :: 0 <= i < j < n ==> p[i] != p[j])
  }

  /** Rearranges `s` so that position `i` holds `s[p[i]]`. */
  function Permute<T>(s: seq<T>, p: seq<nat>): (r: seq<T>)
    requires IsIndexPermutation(p, |s|)
    ensures |r| == |s|
    ensures forall i :: 0 <= i < |s| ==> r[i] == s[p[i]]
  {
    seq(|s|, i requires 0 <= i < |s| => s[p[i]])
  }

  /**
   Removing the last position `p[n - 1]` from an index permutation and
   renumbering the positions above it gives an index permutation of `n - 1`.
   */
  function DropLast(p: seq<nat>, n: nat): (q: seq<nat>)
    requires n > 0 && IsIndexPermutation(p, n)
    ensures IsIndexPermutation(q, n - 1)
    ensures forall i :: 0 <= i < n - 1 ==>
              q[i] == if p[i] < p[n - 1] then p[i] else p[i] - 1
  {
    var k := p[n - 1];
    assert forall i :: 0 <= i < n - 1 ==> p[i] != k;
    seq(n - 1, i requires 0 <= i < n - 1 => if p[i] < k then p[i] else p[i] - 1)
  }

  /**
   Rearranging by `p` and dropping the last element is rearranging, by
   `DropLast(p, n)`, what remains of `s` once that element is removed.
   */
  lemma PermuteDropLast<T>(s: seq<T>, p: seq<nat>)
    requires |s| > 0 && IsIndexPermutation(p, |s|)
    ensures var n := |s|;
            var k := p[n - 1];
            Permute(s, p) == Permute(s[..k] + s[k + 1..], DropLast(p, n)) + [s[k]]
  {
    var n := |s|;
    var k := p[n - 1];
    var rest := s[..k] + s[k + 1..];
    var q := DropLast(p, n);
    var t := Permute(s, p);
    forall i | 0 <= i < n - 1
      ensures t[i] == rest[q[i]]
    {
      assert p[i] != k;
    }
  }

  /** Rearranging by an index permutation keeps every element with its multiplicity. */
  lemma {:induction false} PermuteMultiset<T>(s: seq<T>, p: seq<nat>)
    requires IsIndexPermutation(p, |s|)
    ensures multiset(Permute(s, p)) == multiset(s)
    decreases |s|
  {
    if |s| > 0 {
      var n := |s|;
      var k := p[n - 1];
      var rest := s[..k] + s[k + 1..];
      var q := DropLast(p, n);
      PermuteMultiset(rest, q);
      PermuteDropLast(s, p);
      RemoveAtMultiset(s, k);
    }
  }

  /** The shuffle stored in `st` was drawn for `selected`: no new draw is taken. */
  predicate Current(st: State, selected: string)
    requires Valid(st)
  {
    st.shuffle.Some? && st.current.value == selected
  }

  /**
   Every stored shuffle is a permutation of the problems of the catalog
   scenario it was drawn for.
   */
  ghost predicate Consistent(st: State, cat: seq<Scenario>) {
    && Valid(st)
    && (st.shuffle.Some? ==>
          && Lookup(cat, st.current.value).Some?
          && multiset(st.shuffle.value) == multiset(Lookup(cat, st.current.value).value.problems))
  }

  /**
   The shuffle-once rule: draw and store a new order unless the stored one
   was drawn for the selected scenario; then record the selection.
   */
  function EnsureShuffled(st: State, cat: seq<Scenario>, selected: string, draw: seq<nat>): (r: State)
    requires Valid(st)
    requires Lookup(cat, selected).Some?
    requires IsIndexPermutation(draw, |Lookup(cat, selected).value.problems|)
    ensures Valid(r) && r.shuffle.Some? && r.current == Some(selected)
    ensures Current(st, selected) ==> r == st
    ensures !Current(st, selected) ==>
              r.shuffle.value == Permute(Lookup(cat, selected).value.problems, draw)
    ensures Consistent(st, cat) ==> Consistent(r, cat)
    ensures Consistent(st, cat) ==>
              multiset(r.shuffle.value) == multiset(Lookup(cat, selected).value.problems)
  {
    var problems := Lookup(cat, selected).value.problems;
    if st.shuffle.None? || st.current.value != selected then
      PermuteMultiset(problems, draw);
      State(Some(Permute(problems, draw)), Some(selected))
    else
      st
  }

  /** A new session is consistent with any catalog. */
  lemma FreshConsistent(cat: seq<Scenario>)
    ensures Valid(Fresh) && Consistent(Fresh, cat)
  {
  }

  /**
   Selecting the same scenario again keeps the stored order, whatever the
   second draw would have been.
   */
  lemma ReselectKeepsOrder(st: State, cat: seq<Scenario>, selected: string,
                           first: seq<nat>, second: seq<nat>)
    requires Valid(st)
    requires Lookup(cat, selected).Some?
    requires IsIndexPermutation(first, |Lookup(cat, selected).value.problems|)
    requires IsIndexPermutation(second, |Lookup(cat, selected).value.problems|)
    ensures EnsureShuffled(EnsureShuffled(st, cat, selected, first), cat, selected, second)
            == EnsureShuffled(st, cat, selected, first)
  {
  }

  /**
   Switching to another scenario and back takes a fresh draw: the order
   shown on return is the one the last draw gives.
   */
  lemma ReturnReshuffles(st: State, cat: seq<Scenario>, a: string, b: string,
                         d1: seq<nat>, d2: seq<nat>, d3: seq<nat>)
    requires Valid(st) && a != b
    requires Lookup(cat, a).Some? && Lookup(cat, b).Some?
    requires IsIndexPermutation(d1, |Lookup(cat, a).value.problems|)
    requires IsIndexPermutation(d2, |Lookup(cat, b).value.problems|)
    requires IsIndexPermutation(d3, |Lookup(cat, a).value.problems|)
    ensures EnsureShuffled(
              EnsureShuffled(EnsureShuffled(st, cat, a, d1), cat, b, d2), cat, a, d3).shuffle
            == Some(Permute(Lookup(cat, a).value.problems, d3))
  {
  }
}
