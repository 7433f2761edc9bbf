/**
 Pareto annotation of a ranking: running incident totals, cumulative
 percentages, and the "key problems" whose cumulative share stays within 80%.

 Percentages are kept exact: the share `100 * cum / total` is the fraction
 `Ratio(100 * cum, total)`, and the comparison `share <= 80` becomes
 `100 * cum <= 80 * total`. Dividing by a zero total gives `NaN` as in the
 data-frame library, and `NaN <= 80` is false.
 */
module Pareto {
  import opened Sequences

  /** The threshold, in percent, that delimits the key problems. */
  const Threshold: nat := 80

  /** A problem reduced to what the analysis reads: its name and incident count. */
  datatype Item = Item(name: string, incidents: nat)

  /** A cumulative share: `NaN` for a zero total, else the fraction `num / den` percent. */
  datatype Percent = NaN | Ratio(num: nat, den: nat)

  /** One row of a Pareto table. */
  datatype Row = Row(name: string, incidents: nat, cumulative: nat, percent: Percent)

  /** Sum of a sequence of counts. */
  function Sum(xs: seq<nat>): nat {
    if xs == [] then 0 else xs[0] + Sum(xs[1..])
  }

  /** The incident column of a ranking. */
  function Incidents(items: seq<Item>): (xs: seq<nat>)
    ensures |xs| == |items|
    ensures forall i :: 0 <= i < |items| ==> xs[i] == items[i].incidents
  {
    seq(|items|, i requires 0 <= i < |items| => items[i].incidents)
  }

  /** The name column of a table. */
  function RowNames(rows: seq<Row>): (names: seq<string>)
    ensures |names| == |rows|
    ensures forall i :: 0 <= i < |rows| ==> names[i] == rows[i].name
  {
    seq(|rows|, i requires 0 <= i < |rows| => rows[i].name)
  }

  /** Splitting off the last element of a sum. */
  lemma {:induction false} SumSnoc(xs: seq<nat>, x: nat)
    ensures Sum(xs + [x]) == Sum(xs) + x
    decreases |xs|
  {
    if xs == [] {
      assert [] + [x] == [x];
      assert [x][1..] == [];
    } else {
      assert (xs + [x])[1..] == xs[1..] + [x];
      SumSnoc(xs[1..], x);
    }
  }

  /** A prefix of counts never sums to more than a longer prefix. */
  lemma {:induction false} SumPrefixMonotone(xs: seq<nat>, i: nat, j: nat)
    requires i <= j <= |xs|
    ensures Sum(xs[..i]) <= Sum(xs[..j])
    decreases j - i
  {
    if i < j {
      SumPrefixMonotone(xs, i, j - 1);
      assert xs[..j] == xs[..j - 1] + [xs[j - 1]];
      SumSnoc(xs[..j - 1], xs[j - 1]);
    }
  }

  /**
   Running sums of `xs` started from `base`: position `i` holds `base` plus
   the sum of the first `i + 1` counts.
   */
  function RunningFrom(base: nat, xs: seq<nat>): (r: seq<nat>)
    ensures |r| == |xs|
    ensures forall i :: 0 <= i < |xs| ==> r[i] == base + Sum(xs[..i + 1])
    decreases |xs|
  {
    if xs == [] then []
    else
      var rest := RunningFrom(base + xs[0], xs[1..]);
      assert forall i | 0 <= i < |xs| :: Sum(xs[..i + 1]) == xs[0] + Sum(xs[1..][..i]) by {
        forall i | 0 <= i < |xs| ensures Sum(xs[..i + 1]) == xs[0] + Sum(xs[1..][..i]) {
          assert xs[..i + 1][1..] == xs[1..][..i];
        }
      }
      [base + xs[0]] + rest
  }

  /** The cumulative-sum column. */
  function CumSum(xs: seq<nat>): (r: seq<nat>)
    ensures |r| == |xs|
    ensures forall i :: 0 <= i < |xs| ==> r[i] == Sum(xs[..i + 1])
  {
    RunningFrom(0, xs)
  }

  /** The share of `cum` in `total`, as the data-frame division computes it. */
  function PercentOf(cum: nat, total: nat): (p: Percent)
    ensures p.NaN? <==> total == 0
    ensures WithinThreshold(p) <==> total > 0 && 100 * cum <= Threshold * total
  {
    if total == 0 then NaN else Ratio(100 * cum, total)
  }

  /**
   The mask `share <= 80`; false for `NaN`. For a proper fraction it agrees
   with comparing the real-valued share with the threshold.
   */
  predicate WithinThreshold(p: Percent)
    ensures p.NaN? ==> !WithinThreshold(p)
    ensures p.Ratio? && p.den > 0 ==>
              (WithinThreshold(p) <==> (p.num as real) / (p.den as real) <= Threshold as real)
  {
    ShareBelow(p);
    match p
    case NaN => false
    case Ratio(num, den) => num <= Threshold * den
  }

  /** Cross-multiplying a positive denominator keeps the comparison with the threshold. */
  lemma ShareBelow(p: Percent)
    ensures p.Ratio? && p.den > 0 ==>
              (p.num <= Threshold * p.den <==> (p.num as real) / (p.den as real) <= Threshold as real)
  {
    if p.Ratio? && p.den > 0 {
      var d := p.den as real;
      var q := (p.num as real) / d;
      assert q * d == p.num as real;
      assert q <= Threshold as real <==> q * d <= (Threshold as real) * d;
      assert (Threshold * p.den) as real == (Threshold as real) * d;
    }
  }

  /** The total of a ranking is its first count plus the total of the rest. */
  lemma ItemSumCons(a: seq<Item>)
    requires a != []
    ensures Sum(Incidents(a)) == a[0].incidents + Sum(Incidents(a[1..]))
  {
    assert Incidents(a)[1..] == Incidents(a[1..]);
  }

  /** The total of a ranking is one count plus the total of the ranking without it. */
  lemma {:induction false} ItemSumRemove(b: seq<Item>, m: nat)
    requires m < |b|
    ensures Sum(Incidents(b)) == b[m].incidents + Sum(Incidents(b[..m] + b[m + 1..]))
    decreases m
  {
    ItemSumCons(b);
    if m > 0 {
      var rest := b[..m] + b[m + 1..];
      ItemSumRemove(b[1..], m - 1);
      assert b[1..][..m - 1] + b[1..][m..] == rest[1..];
      ItemSumCons(rest);
    } else {
      assert b[..0] + b[1..] == b[1..];
    }
  }

  /**
   The total incident count does not depend on the order of the rows: two
   rankings of the same items, in any order, have the same total.
   */
  lemma {:induction false} ItemTotalIsOrderFree(a: seq<Item>, b: seq<Item>)
    requires multiset(a) == multiset(b)
    ensures Sum(Incidents(a)) == Sum(Incidents(b))
    decreases |a|
  {
    if a == [] {
      assert b == [] by { assert |multiset(b)| == 0; }
    } else {
      var m := MatchHead(a, b);
      ItemTotalIsOrderFree(a[1..], b[..m] + b[m + 1..]);
      ItemSumCons(a);
      ItemSumRemove(b, m);
    }
  }

  /** Adds the cumulative and percentage columns to a ranking. */
  function Annotate(items: seq<Item>): (rows: seq<Row>)
    ensures |rows| == |items|
    ensures forall i :: 0 <= i < |items| ==>
              rows[i].name == items[i].name
              && rows[i].incidents == items[i].incidents
              && rows[i].cumulative == Sum(Incidents(items)[..i + 1])
              && rows[i].percent == PercentOf(rows[i].cumulative, Sum(Incidents(items)))
  {
    var xs := Incidents(items);
    var cums := CumSum(xs);
    var total := Sum(xs);
    seq(|items|, i requires 0 <= i < |items| =>
      Row(items[i].name, items[i].incidents, cums[i], PercentOf(cums[i], total)))
  }

  /**
   The running totals never decrease along the ranking, and the last one is
   the grand total.
   */
  lemma CumulativeMonotone(items: seq<Item>, i: nat, j: nat)
    requires i <= j < |items|
    ensures Annotate(items)[i].cumulative <= Annotate(items)[j].cumulative
    ensures Annotate(items)[j].cumulative <= Sum(Incidents(items))
    ensures Annotate(items)[|items| - 1].cumulative == Sum(Incidents(items))
  {
    var xs := Incidents(items);
    SumPrefixMonotone(xs, i + 1, j + 1);
    SumPrefixMonotone(xs, j + 1, |xs|);
    assert xs[..|xs|] == xs;
  }

  /**
   With a positive total every share lies between 0% and 100% and the last
   one is exactly 100%; with a zero total every share is `NaN`.
   */
  lemma PercentBounds(items: seq<Item>)
    ensures Sum(Incidents(items)) > 0 ==>
              forall i :: 0 <= i < |items| ==>
                Annotate(items)[i].percent.Ratio?
                && Annotate(items)[i].percent.num <= 100 * Annotate(items)[i].percent.den
    ensures Sum(Incidents(items)) > 0 ==>
              Annotate(items)[|items| - 1].percent
              == Ratio(100 * Sum(Incidents(items)), Sum(Incidents(items)))
    ensures Sum(Incidents(items)) == 0 ==>
              forall i :: 0 <= i < |items| ==> Annotate(items)[i].percent == NaN
  {
    if Sum(Incidents(items)) > 0 {
      assert |items| > 0;
      forall i | 0 <= i < |items|
        ensures Annotate(items)[i].cumulative <= Sum(Incidents(items))
      {
        CumulativeMonotone(items, i, i);
      }
      CumulativeMonotone(items, |items| - 1, |items| - 1);
    }
  }

  /** The names of the rows that pass the mask, in order (a boolean-mask selection). */
  function Selected(rows: seq<Row>): (names: seq<string>)
    ensures |names| <= |rows|
    ensures forall n :: n in names ==> exists i :: 0 <= i < |rows| && rows[i].name == n
  {
    if rows == [] then []
    else
      var rest := Selected(rows[1..]);
      assert forall n :: n in rest ==> exists i :: 1 <= i < |rows| && rows[i].name == n by {
        forall n | n in rest ensures exists i :: 1 <= i < |rows| && rows[i].name == n {
          var k :| 0 <= k < |rows[1..]| && rows[1..][k].name == n;
          assert rows[k + 1].name == n;
        }
      }
      (if WithinThreshold(rows[0].percent) then [rows[0].name] else []) + rest
  }

  /** How many leading rows pass the mask. */
  function LeadingWithin(rows: seq<Row>): (k: nat)
    ensures k <= |rows|
    ensures forall i :: 0 <= i < k ==> WithinThreshold(rows[i].percent)
    ensures k < |rows| ==> !WithinThreshold(rows[k].percent)
  {
    if rows == [] || !WithinThreshold(rows[0].percent) then 0
    else 1 + LeadingWithin(rows[1..])
  }

  /** Once a row fails the mask, every later row fails it too. */
  ghost predicate MaskDownwardClosed(rows: seq<Row>) {
    forall i, j :: 0 <= i < j < |rows| && WithinThreshold(rows[j].percent) ==>
      WithinThreshold(rows[i].percent)
  }

  /** Under a downward-closed mask the selection is a prefix. */
  lemma {:induction false} SelectedIsPrefix(rows: seq<Row>)
    requires MaskDownwardClosed(rows)
    ensures Selected(rows) == RowNames(rows[..LeadingWithin(rows)])
    decreases |rows|
  {
    if rows != [] {
      assert MaskDownwardClosed(rows[1..]) by {
        forall i, j | 0 <= i < j < |rows[1..]| && WithinThreshold(rows[1..][j].percent)
          ensures WithinThreshold(rows[1..][i].percent)
        {
          assert rows[1..][j] == rows[j + 1] && rows[1..][i] == rows[i + 1];
        }
      }
      SelectedIsPrefix(rows[1..]);
      if WithinThreshold(rows[0].percent) {
        var k := LeadingWithin(rows[1..]);
        assert rows[..k + 1] == [rows[0]] + rows[1..][..k];
      } else {
        assert LeadingWithin(rows) == 0;
      }
    }
  }

  /** On an annotated ranking the mask is downward closed: shares only grow. */
  lemma AnnotatedMaskDownwardClosed(items: seq<Item>)
    ensures MaskDownwardClosed(Annotate(items))
  {
    var rows := Annotate(items);
    forall i, j | 0 <= i < j < |rows| && WithinThreshold(rows[j].percent)
      ensures WithinThreshold(rows[i].percent)
    {
      CumulativeMonotone(items, i, j);
    }
  }

  /**
   The key problems of a ranking: the rows whose cumulative share is at most
   80%, which form the longest prefix whose running total `cum` satisfies
   `100 * cum <= 80 * total`. With a zero total there are none.
   */
  function KeyProblems(items: seq<Item>): (top: seq<string>)
    ensures |top| <= |items|
    ensures forall i :: 0 <= i < |top| ==> top[i] == items[i].name
    ensures Sum(Incidents(items)) > 0 ==>
              forall i :: 0 <= i < |top| ==>
                100 * CumSum(Incidents(items))[i] <= Threshold * Sum(Incidents(items))
    ensures Sum(Incidents(items)) > 0 && |top| < |items| ==>
              100 * CumSum(Incidents(items))[|top|] > Threshold * Sum(Incidents(items))
    ensures Sum(Incidents(items)) == 0 ==> top == []
  {
    var xs := Incidents(items);
    var total := Sum(xs);
    var rows := Annotate(items);
    var k := LeadingWithin(rows);
    assert Selected(rows) == RowNames(rows[..k]) by {
      AnnotatedMaskDownwardClosed(items);
      SelectedIsPrefix(rows);
    }
    assert forall i :: 0 <= i < |items| ==>
             (WithinThreshold(rows[i].percent) <==> total > 0 && 100 * CumSum(xs)[i] <= Threshold * total);
    Selected(rows)
  }
}
