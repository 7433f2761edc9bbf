/**
 Comparison of the user's ranking with the real key problems: the user's
 candidates are the first `|top|` names of their ranking, the hits are the
 names the two lists share (as sets), and the verdict is one of three grades.
 */
module Comparison {
  import opened Sequences

  /** The three outcomes of the evaluation, best first. */
  datatype Verdict = Perfect | Acceptable | Poor

  /** The first `n` entries of `s`, or all of it when it is shorter (a table's `head`). */
  function Head<T>(s: seq<T>, n: nat): (h: seq<T>)
    ensures |h| == if n <= |s| then n else |s|
    ensures h <= s
  {
    if n <= |s| then s[..n] else s
  }

  /** The user's candidates: as many leading names of their ranking as there are key problems. */
  function Candidates(ranking: seq<string>, top: seq<string>): (cands: seq<string>)
    ensures |cands| <= |top| && |cands| <= |ranking|
    ensures |cands| == |top| || cands == ranking
    ensures forall i :: 0 <= i < |cands| ==> cands[i] == ranking[i]
  {
    Head(ranking, |top|)
  }

  /** The positions of `top` whose name is among `cands`. */
  ghost function NamedPositions(top: seq<string>, cands: seq<string>): set<nat> {
    set i: nat | i < |top| && top[i] in cands
  }

  /** Appending a name adds its position exactly when the name is a candidate. */
  lemma NamedPositionsSnoc(init: seq<string>, x: string, cands: seq<string>)
    ensures NamedPositions(init + [x], cands)
            == NamedPositions(init, cands) + (if x in cands then {|init|} else {})
  {
    var top := init + [x];
    forall i: nat | i < |init| ensures top[i] == init[i] {}
  }

  /** Appending a name adds it to the common names exactly when it is a candidate. */
  lemma CommonSnoc(init: seq<string>, x: string, cands: seq<string>)
    ensures Elements(init + [x]) * Elements(cands)
            == Elements(init) * Elements(cands) + (if x in cands then {x} else {})
  {
  }

  /**
   With distinct names, the common names of `top` and `cands` are as many as
   the positions of `top` whose name is among `cands`.
   */
  lemma {:induction false} CommonCount(top: seq<string>, cands: seq<string>)
    requires Distinct(top)
    ensures |Elements(top) * Elements(cands)| == |NamedPositions(top, cands)|
    decreases |top|
  {
    if top != [] {
      var n := |top| - 1;
      var init := top[..n];
      var x := top[n];
      assert top == init + [x];
      assert Distinct(init);
      CommonCount(init, cands);
      assert x !in Elements(init) by {
        forall k | 0 <= k < n
          ensures init[k] != x
        {
          assert init[k] == top[k];
        }
      }
      NamedPositionsSnoc(init, x, cands);
      CommonSnoc(init, x, cands);
      assert n !in NamedPositions(init, cands);
    }
  }

  /** How many key problems the candidates name: the size of the intersection of both as sets. */
  function Hits(top: seq<string>, cands: seq<string>): (hits: nat)
    ensures hits <= |top| && hits <= |cands|
    ensures hits == 0 <==> forall n :: n in top ==> n !in cands
    ensures Distinct(top) ==> hits == |NamedPositions(top, cands)|
  {
    assert Distinct(top) ==> |Elements(top) * Elements(cands)| == |NamedPositions(top, cands)| by {
      if Distinct(top) {
        CommonCount(top, cands);
      }
    }
    ElementsBound(top);
    ElementsBound(cands);
    var common := Elements(top) * Elements(cands);
    SubsetCardinality(common, Elements(top));
    SubsetCardinality(common, Elements(cands));
    assert (forall n :: n in top ==> n !in cands) ==> common == {};
    assert common == {} ==> (forall n :: n in top ==> n !in cands) by {
      if exists n :: n in top && n in cands {
        var n :| n in top && n in cands;
        assert n in common;
      }
    }
    |common|
  }

  /** The three-way grade: all hits, at least half (rounded down), or fewer. */
  function Grade(hits: nat, total: nat): (v: Verdict)
    ensures v == Poor ==> total >= 2 && hits < total
    ensures hits == 0 && total == 0 ==> v == Perfect
  {
    if hits == total then Perfect
    else if hits >= total / 2 then Acceptable
    else Poor
  }

  /** The user's candidates and hits, and the verdict on them. */
  datatype Outcome = Outcome(candidates: seq<string>, hits: nat, total: nat, verdict: Verdict)

  /** Compares the user's ranking (by name) with the real key problems. */
  function Compare(ranking: seq<string>, top: seq<string>): (o: Outcome)
    ensures o.total == |top|
    ensures o.hits <= o.total && o.hits <= |o.candidates|
    ensures o.candidates <= ranking
    ensures forall i :: 0 <= i < |o.candidates| ==> o.candidates[i] == ranking[i]
    ensures |o.candidates| == if |top| <= |ranking| then |top| else |ranking|
    ensures o.verdict == Poor ==> o.total >= 2
    ensures top == [] ==> o.verdict == Perfect
  {
    var cands := Candidates(ranking, top);
    var hits := Hits(top, cands);
    Outcome(cands, hits, |top|, Grade(hits, |top|))
  }

  /**
   The verdict is perfect exactly when the hits equal the number of key
   problems, acceptable exactly when it is not perfect but the hits reach
   half of them rounded down, and poor otherwise.
   */
  lemma VerdictCases(ranking: seq<string>, top: seq<string>)
    ensures Compare(ranking, top).verdict == Perfect
            <==> Compare(ranking, top).hits == |top|
    ensures Compare(ranking, top).verdict == Acceptable
            <==> Compare(ranking, top).hits != |top| && Compare(ranking, top).hits >= |top| / 2
    ensures Compare(ranking, top).verdict == Poor
            <==> Compare(ranking, top).hits < |top| / 2
  {
  }

  /**
   When the key problems are distinct names, the verdict is perfect exactly
   when every key problem is among the user's candidates.
   */
  lemma {:induction false} PerfectIffAllNamed(ranking: seq<string>, top: seq<string>)
    requires Distinct(top)
    ensures Compare(ranking, top).verdict == Perfect
            <==> forall n :: n in top ==> n in Compare(ranking, top).candidates
  {
    var cands := Candidates(ranking, top);
    var common := Elements(top) * Elements(cands);
    ElementsBound(top);
    assert |common| == Hits(top, cands);
    if forall n :: n in top ==> n in cands {
      assert common == Elements(top);
    } else {
      var n :| n in top && n !in cands;
      assert common < Elements(top) by {
        assert n in Elements(top) && n !in common;
      }
      SubsetCardinality(common, Elements(top));
    }
  }

  /** Two names matched out of two: perfect. */
  lemma ExampleAllMatched()
    ensures Compare(["A", "B"], ["A", "B"]) == Outcome(["A", "B"], 2, 2, Perfect)
  {
    var names := ["A", "B"];
    assert Candidates(names, names) == names;
    assert Elements(names) * Elements(names) == {"A", "B"};
    assert Hits(names, names) == 2;
  }

  /** Two names matched out of four: half, so acceptable. */
  lemma ExampleHalfMatched()
    ensures Compare(["A", "X", "C", "Y"], ["A", "B", "C", "D"])
            == Outcome(["A", "X", "C", "Y"], 2, 4, Acceptable)
  {
    var cands := ["A", "X", "C", "Y"];
    assert Candidates(cands, ["A", "B", "C", "D"]) == cands;
    var common := Elements(["A", "B", "C", "D"]) * Elements(cands);
    assert common == {"A", "C"};
    assert Hits(["A", "B", "C", "D"], cands) == 2;
  }

  /** No name matched out of three: poor. */
  lemma ExampleNoneMatched()
    ensures Compare(["X", "Y", "Z"], ["A", "B", "C"]) == Outcome(["X", "Y", "Z"], 0, 3, Poor)
  {
    var cands := ["X", "Y", "Z"];
    assert Candidates(cands, ["A", "B", "C"]) == cands;
    assert Hits(["A", "B", "C"], cands) == 0;
  }
}
