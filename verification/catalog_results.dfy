/**
 What the evaluation computes on the catalog's own scenarios: the real
 ranking of each scenario, its key problems, and when a user's verdict is
 perfect.
 */
module CatalogResults {
  import opened Sequences
  import opened Catalog
  import opened Pareto
  import opened Comparison
  import opened Session
  import opened Evaluation

  /**
   If `expected` rearranges a list of problems with distinct incident counts
   by `order` and lists them by non-increasing count, it is the real ranking.
   */
  lemma RankingByOrder(ps: seq<Problem>, order: seq<nat>, expected: seq<Problem>)
    requires DistinctBy(ps, ProblemIncidents)
    requires IsIndexPermutation(order, |ps|)
    requires expected == Permute(ps, order)
    requires forall i, j :: 0 <= i < j < |expected| ==> expected[i].incidents >= expected[j].incidents
    ensures RealRanking(ps) == expected
  {
    PermuteMultiset(ps, order);
    RealRankingCanonical(ps, expected);
  }

  /** The running total after position `i` is the one before it plus the count at `i`. */
  lemma CumSumStep(xs: seq<nat>, i: nat)
    requires 0 < i < |xs|
    ensures CumSum(xs)[i] == CumSum(xs)[i - 1] + xs[i]
  {
    assert xs[..i + 1] == xs[..i] + [xs[i]];
    SumSnoc(xs[..i], xs[i]);
  }

  /** The running totals and the total of six counts. */
  lemma SixTotals(xs: seq<nat>)
    requires |xs| == 6
    ensures CumSum(xs)[0] == xs[0]
    ensures CumSum(xs)[1] == xs[0] + xs[1]
    ensures CumSum(xs)[2] == xs[0] + xs[1] + xs[2]
    ensures CumSum(xs)[3] == xs[0] + xs[1] + xs[2] + xs[3]
    ensures Sum(xs) == xs[0] + xs[1] + xs[2] + xs[3] + xs[4] + xs[5]
  {
    var c := CumSum(xs);
    assert c[0] == xs[0] by { assert xs[..1] == [xs[0]]; }
    assert c[1] == c[0] + xs[1] by { CumSumStep(xs, 1); }
    assert c[2] == c[1] + xs[2] by { CumSumStep(xs, 2); }
    assert c[3] == c[2] + xs[3] by { CumSumStep(xs, 3); }
    assert c[4] == c[3] + xs[4] by { CumSumStep(xs, 4); }
    assert c[5] == c[4] + xs[5] by { CumSumStep(xs, 5); }
    assert Sum(xs) == c[5] by { assert xs[..6] == xs; }
  }

  /**
   Reading off the key problems of a six-problem ranking whose running
   total stays within 80% of the total for three problems and exceeds it
   with the fourth.
   */
  lemma ThreeKeyProblems(p0: Problem, p1: Problem, p2: Problem, p3: Problem, p4: Problem, p5: Problem)
    requires 100 * (p0.incidents + p1.incidents + p2.incidents)
             <= Threshold * (p0.incidents + p1.incidents + p2.incidents + p3.incidents + p4.incidents + p5.incidents)
    requires 100 * (p0.incidents + p1.incidents + p2.incidents + p3.incidents)
             > Threshold * (p0.incidents + p1.incidents + p2.incidents + p3.incidents + p4.incidents + p5.incidents)
    ensures KeyProblems(ProblemItems([p0, p1, p2, p3, p4, p5])) == [p0.name, p1.name, p2.name]
  {
    var items := ProblemItems([p0, p1, p2, p3, p4, p5]);
    var xs := Incidents(items);
    var cums := CumSum(xs);
    var total := Sum(xs);
    assert cums[0] <= cums[1] <= cums[2]
           && 100 * cums[2] <= Threshold * total
           && 100 * cums[3] > Threshold * total && total > 0 by {
      SixTotals(xs);
    }
    var top := KeyProblems(items);
    assert |top| == 3;
  }

  /** The catalog lists the three scenarios under these names, with these problems. */
  lemma CatalogContents()
    ensures |Scenarios| == 3
    ensures Scenarios[0].name == "Fábrica de tazas metálicas" && Scenarios[0].problems == MugFactoryProblems
    ensures Scenarios[1].name == "Clínica privada" && Scenarios[1].problems == ClinicProblems
    ensures Scenarios[2].name == "Tienda online" && Scenarios[2].problems == ShopProblems
  {
  }

  /** The real ranking of the metal-mug factory: its problems by decreasing incident count. */
  lemma MugFactoryRanking()
    ensures var ps := MugFactoryProblems;
            RealRanking(ps) == [ps[2], ps[0], ps[1], ps[3], ps[4], ps[5]]
  {
    var ps := MugFactoryProblems;
    var expected := [ps[2], ps[0], ps[1], ps[3], ps[4], ps[5]];
    var order := [2, 0, 1, 3, 4, 5];
    assert IsIndexPermutation(order, |ps|);
    assert expected == Permute(ps, order);
    assert DistinctBy(ps, ProblemIncidents);
    RankingByOrder(ps, order, expected);
  }

  /** The key problems of the metal-mug factory's real ranking. */
  lemma MugFactoryTop()
    ensures KeyProblems(ProblemItems(RealRanking(MugFactoryProblems)))
            == ["Demora en entrega", "Producto rayado", "Mal ensamblaje"]
  {
    var ps := MugFactoryProblems;
    MugFactoryRanking();
    ThreeKeyProblems(ps[2], ps[0], ps[1], ps[3], ps[4], ps[5]);
  }

  /**
   In the metal-mug factory, whatever the user's entries, the key problems
   are late delivery, scratched product and bad assembly: 30 + 25 + 18 = 73
   of 100 complaints, while the fourth problem would take the share to 85%.
   */
  lemma MugFactoryKeyProblems(entries: seq<Entry>)
    ensures Evaluate(MugFactoryProblems, entries).top
            == ["Demora en entrega", "Producto rayado", "Mal ensamblaje"]
  {
    MugFactoryTop();
    KeyProblemsOfScenario(MugFactoryProblems, entries);
  }

  /** The real ranking of the private clinic: its problems by decreasing incident count. */
  lemma ClinicRanking()
    ensures var ps := ClinicProblems;
            RealRanking(ps) == [ps[2], ps[0], ps[1], ps[3], ps[4], ps[5]]
  {
    var ps := ClinicProblems;
    var expected := [ps[2], ps[0], ps[1], ps[3], ps[4], ps[5]];
    var order := [2, 0, 1, 3, 4, 5];
    assert IsIndexPermutation(order, |ps|);
    assert expected == Permute(ps, order);
    assert DistinctBy(ps, ProblemIncidents);
    RankingByOrder(ps, order, expected);
  }

  /** The key problems of the private clinic's real ranking. */
  lemma ClinicTop()
    ensures KeyProblems(ProblemItems(RealRanking(ClinicProblems)))
            == ["Falta de camas", "Retrasos en consultas", "Errores en facturación"]
  {
    var ps := ClinicProblems;
    ClinicRanking();
    ThreeKeyProblems(ps[2], ps[0], ps[1], ps[3], ps[4], ps[5]);
  }

  /**
   In the private clinic, whatever the user's entries, the key problems are
   lack of beds, consultation delays and billing errors: 62 of 96
   complaints, while the fourth problem would take the share to 77/96, just
   above 80%.
   */
  lemma ClinicKeyProblems(entries: seq<Entry>)
    ensures Evaluate(ClinicProblems, entries).top
            == ["Falta de camas", "Retrasos en consultas", "Errores en facturación"]
  {
    ClinicTop();
    KeyProblemsOfScenario(ClinicProblems, entries);
  }

  /** The real ranking of the online shop: its problems by decreasing incident count. */
  lemma ShopRanking()
    ensures var ps := ShopProblems;
            RealRanking(ps) == [ps[0], ps[1], ps[4], ps[3], ps[2], ps[5]]
  {
    var ps := ShopProblems;
    var expected := [ps[0], ps[1], ps[4], ps[3], ps[2], ps[5]];
    var order := [0, 1, 4, 3, 2, 5];
    assert IsIndexPermutation(order, |ps|);
    assert expected == Permute(ps, order);
    assert DistinctBy(ps, ProblemIncidents);
    RankingByOrder(ps, order, expected);
  }

  /** The key problems of the online shop's real ranking. */
  lemma ShopTop()
    ensures KeyProblems(ProblemItems(RealRanking(ShopProblems)))
            == ["Retraso en entregas", "Producto equivocado", "Producto dañado"]
  {
    var ps := ShopProblems;
    ShopRanking();
    ThreeKeyProblems(ps[0], ps[1], ps[4], ps[3], ps[2], ps[5]);
  }

  /**
   In the online shop, whatever the user's entries, the key problems are
   late deliveries, wrong product and damaged product: 67 of 97 complaints,
   while the fourth problem would take the share to 79/97, above 80%.
   */
  lemma ShopKeyProblems(entries: seq<Entry>)
    ensures Evaluate(ShopProblems, entries).top
            == ["Retraso en entregas", "Producto equivocado", "Producto dañado"]
  {
    ShopTop();
    KeyProblemsOfScenario(ShopProblems, entries);
  }

  /**
   For a catalog scenario the key problems are distinct names, so a user's
   verdict is perfect exactly when all of them are among the user's first
   choices, whatever order was shown and whatever priorities were set.
   */
  lemma CatalogPerfectIffAllNamed(sc: Scenario, entries: seq<Entry>)
    requires sc in Scenarios
    ensures Evaluate(sc.problems, entries).outcome.verdict == Perfect
            <==> forall n :: n in Evaluate(sc.problems, entries).top ==>
                   n in Evaluate(sc.problems, entries).outcome.candidates
  {
    assert DistinctBy(sc.problems, ProblemName) by {
      CatalogProblemsWellFormed(sc);
    }
    PerfectIffKeyProblemsNamed(sc.problems, entries);
  }
}
