/**
 The evaluation run when the user asks for a diagnosis: the user's entries
 are ranked by priority, the scenario's problems are ranked by incident
 count, both rankings get Pareto columns, and the user's leading choices are
 compared with the real key problems.
 */
module Evaluation {
  import opened Wrappers
  import opened Sequences
  import opened Catalog
  import opened Sorting
  import opened Pareto
  import opened Comparison
  import opened Session

  /** A problem as the user rated it. */
  datatype Entry = Entry(name: string, incidents: nat, priority: int)

  /** Everything the evaluation shows: both rankings, both tables, the key problems and the outcome. */
  datatype Report = Report(
    userRanking: seq<Entry>,
    userTable: seq<Row>,
    realRanking: seq<Problem>,
    realTable: seq<Row>,
    top: seq<string>,
    outcome: Outcome)

  /** The user's ranking key: priority first, incident count to break ties. */
  function UserKey(e: Entry): Key {
    Key(e.priority, e.incidents)
  }

  /** The ground-truth key: incident count alone. */
  function RealKey(p: Problem): Key {
    Key(p.incidents, 0)
  }

  /** A problem's name, as a function value for the sequence lemmas. */
  function ProblemName(p: Problem): string {
    p.name
  }

  /** A problem's incident count, as a function value for the sequence lemmas. */
  function ProblemIncidents(p: Problem): nat {
    p.incidents
  }

  /** What the Pareto analysis reads of a problem. */
  function ProblemItem(p: Problem): Item {
    Item(p.name, p.incidents)
  }

  /** What the Pareto analysis reads of an entry. */
  function EntryItem(e: Entry): Item {
    Item(e.name, e.incidents)
  }

  /** What the Pareto analysis reads of a ranking of problems. */
  function ProblemItems(ps: seq<Problem>): (items: seq<Item>)
    ensures |items| == |ps|
    ensures forall i :: 0 <= i < |ps| ==> items[i] == Item(ps[i].name, ps[i].incidents)
  {
    Map(ps, ProblemItem)
  }

  /** What the Pareto analysis reads of a ranking of entries. */
  function EntryItems(es: seq<Entry>): (items: seq<Item>)
    ensures |items| == |es|
    ensures forall i :: 0 <= i < |es| ==> items[i] == Item(es[i].name, es[i].incidents)
  {
    Map(es, EntryItem)
  }

  /**
   One entry per shown problem, in display order, carrying the priority the
   user set on that problem's slider.
   */
  function Entries(shown: seq<Problem>, priorities: seq<int>): (es: seq<Entry>)
    requires |priorities| == |shown|
    ensures |es| == |shown|
    ensures EntryItems(es) == ProblemItems(shown)
    ensures forall i :: 0 <= i < |es| ==> es[i].priority == priorities[i]
  {
    seq(|shown|, i requires 0 <= i < |shown| =>
      Entry(shown[i].name, shown[i].incidents, priorities[i]))
  }

  /**
   The user's ranking: a permutation of the entries, in descending
   lexicographic order of (priority, incident count).
   */
  function UserRanking(entries: seq<Entry>): (r: seq<Entry>)
    ensures |r| == |entries| && multiset(r) == multiset(entries)
    ensures forall i, j :: 0 <= i < j < |r| ==>
              r[i].priority > r[j].priority
              || (r[i].priority == r[j].priority && r[i].incidents >= r[j].incidents)
  {
    var r := SortDesc(entries, UserKey);
    assert forall i, j :: 0 <= i < j < |r| ==> AtLeast(UserKey(r[i]), UserKey(r[j]));
    r
  }

  /**
   Entries that tie on both priority and incident count keep their display
   order in the user's ranking.
   */
  lemma UserRankingStable(entries: seq<Entry>, priority: int, incidents: nat)
    ensures WithKey(UserRanking(entries), UserKey, Key(priority, incidents))
            == WithKey(entries, UserKey, Key(priority, incidents))
  {
    SortStable(entries, UserKey, Key(priority, incidents));
  }

  /**
   The ground-truth ranking: a permutation of the scenario's problems with
   incident counts non-increasing along it.
   */
  function RealRanking(problems: seq<Problem>): (r: seq<Problem>)
    ensures |r| == |problems| && multiset(r) == multiset(problems)
    ensures forall i, j :: 0 <= i < j < |r| ==> r[i].incidents >= r[j].incidents
  {
    var r := SortDesc(problems, RealKey);
    assert forall i, j :: 0 <= i < j < |r| ==> AtLeast(RealKey(r[i]), RealKey(r[j]));
    r
  }

  /** Problems in strictly decreasing order of incident count. */
  ghost predicate StrictlyDecreasing(a: seq<Problem>) {
    forall i, j :: 0 <= i < j < |a| ==> a[i].incidents > a[j].incidents
  }

  /** Two strictly decreasing rankings of the same problems start with the same problem. */
  lemma SameHead(a: seq<Problem>, b: seq<Problem>)
    requires a != [] && multiset(a) == multiset(b)
    requires StrictlyDecreasing(a) && StrictlyDecreasing(b)
    ensures b != [] && a[0] == b[0]
  {
    assert a[0] in multiset(b);
    var j :| 0 <= j < |b| && b[j] == a[0];
    assert b[0] in multiset(a);
    var i :| 0 <= i < |a| && a[i] == b[0];
    assert a[0].incidents >= a[i].incidents;
    assert b[0].incidents >= b[j].incidents;
    assert j == 0;
  }

  /** Dropping the common first problem leaves two strictly decreasing rankings of the same problems. */
  lemma Tails(a: seq<Problem>, b: seq<Problem>)
    requires a != [] && b != [] && a[0] == b[0] && multiset(a) == multiset(b)
    requires StrictlyDecreasing(a) && StrictlyDecreasing(b)
    ensures multiset(a[1..]) == multiset(b[1..])
    ensures StrictlyDecreasing(a[1..]) && StrictlyDecreasing(b[1..])
  {
    TailMultiset(a);
    TailMultiset(b);
    StrictTail(a);
    StrictTail(b);
  }

  /** A strictly decreasing ranking stays so without its first problem. */
  lemma StrictTail(a: seq<Problem>)
    requires a != [] && StrictlyDecreasing(a)
    ensures StrictlyDecreasing(a[1..])
  {
    forall i, j | 0 <= i < j < |a| - 1 ensures a[1..][i].incidents > a[1..][j].incidents {
      assert a[1..][i] == a[i + 1] && a[1..][j] == a[j + 1];
    }
  }

  /** Two rankings strictly decreasing in incident count that hold the same problems are equal. */
  lemma {:induction false} StrictRankingUnique(a: seq<Problem>, b: seq<Problem>)
    requires multiset(a) == multiset(b)
    requires StrictlyDecreasing(a) && StrictlyDecreasing(b)
    ensures a == b
    decreases |a|
  {
    if a == [] {
      assert |multiset(b)| == 0;
    } else {
      SameHead(a, b);
      Tails(a, b);
      StrictRankingUnique(a[1..], b[1..]);
      assert a == [a[0]] + a[1..];
      assert b == [b[0]] + b[1..];
    }
  }

  /**
   When a scenario's incident counts are distinct, the ground-truth ranking
   does not depend on how the sort breaks ties: every permutation of the
   problems with non-increasing incident counts is the model's ranking.
   */
  lemma RealRankingCanonical(problems: seq<Problem>, order: seq<Problem>)
    requires DistinctBy(problems, ProblemIncidents)
    requires multiset(order) == multiset(problems)
    requires forall i, j :: 0 <= i < j < |order| ==> order[i].incidents >= order[j].incidents
    ensures order == RealRanking(problems)
  {
    var r := RealRanking(problems);
    PermutationKeepsDistinctBy(problems, order, ProblemIncidents);
    PermutationKeepsDistinctBy(problems, r, ProblemIncidents);
    StrictRankingUnique(order, r);
  }

  /** Runs the whole comparison for a scenario's problems and the user's entries. */
  function Evaluate(problems: seq<Problem>, entries: seq<Entry>): (rep: Report)
    ensures |rep.userRanking| == |entries| && multiset(rep.userRanking) == multiset(entries)
    ensures |rep.realRanking| == |problems| && multiset(rep.realRanking) == multiset(problems)
    ensures |rep.userTable| == |entries| && |rep.realTable| == |problems|
    ensures |rep.top| <= |problems|
    ensures forall i :: 0 <= i < |rep.top| ==> rep.top[i] == rep.realRanking[i].name
    ensures Sum(Incidents(ProblemItems(problems))) == 0 ==> rep.top == []
    ensures rep.outcome.total == |rep.top|
    ensures |rep.outcome.candidates| == if |rep.top| <= |entries| then |rep.top| else |entries|
    ensures forall i :: 0 <= i < |rep.outcome.candidates| ==>
              rep.outcome.candidates[i] == rep.userRanking[i].name
    ensures rep.outcome.hits <= |rep.top| && rep.outcome.hits <= |rep.outcome.candidates|
    ensures rep.outcome.verdict == Poor ==> |rep.top| >= 2
    ensures rep.userRanking == UserRanking(entries) && rep.realRanking == RealRanking(problems)
    ensures rep.userTable == Annotate(EntryItems(rep.userRanking))
            && rep.realTable == Annotate(ProblemItems(rep.realRanking))
    ensures rep.top == KeyProblems(ProblemItems(rep.realRanking))
    ensures rep.outcome == Compare(RowNames(rep.userTable), rep.top)
  {
    var user := UserRanking(entries);
    var truth := RealRanking(problems);
    var top := KeyProblems(ProblemItems(truth));
    assert Sum(Incidents(ProblemItems(truth))) == Sum(Incidents(ProblemItems(problems))) by {
      TotalIsOrderFree(problems, truth);
    }
    var table := Annotate(EntryItems(user));
    var outcome := Compare(RowNames(table), top);
    Report(user, table, truth, Annotate(ProblemItems(truth)), top, outcome)
  }

  /** The key problems an evaluation reports are those of the real ranking. */
  lemma KeyProblemsOfScenario(problems: seq<Problem>, entries: seq<Entry>)
    ensures Evaluate(problems, entries).top == KeyProblems(ProblemItems(RealRanking(problems)))
  {
  }

  /**
   The key problems depend only on the scenario, not on the user's entries:
   two evaluations of the same problems report the same key problems and
   the same real table.
   */
  lemma KeyProblemsIgnoreEntries(problems: seq<Problem>, entries: seq<Entry>, others: seq<Entry>)
    ensures Evaluate(problems, entries).top == Evaluate(problems, others).top
    ensures Evaluate(problems, entries).realTable == Evaluate(problems, others).realTable
  {
    KeyProblemsOfScenario(problems, entries);
    KeyProblemsOfScenario(problems, others);
  }

  /** Distinct problem names give distinct key problems. */
  lemma KeyProblemsDistinct(problems: seq<Problem>, entries: seq<Entry>)
    requires DistinctBy(problems, ProblemName)
    ensures Distinct(Evaluate(problems, entries).top)
  {
    var rep := Evaluate(problems, entries);
    var r := rep.realRanking;
    PermutationKeepsDistinctBy(problems, r, ProblemName);
    forall i, j | 0 <= i < j < |rep.top| ensures rep.top[i] != rep.top[j] {
      assert rep.top[i] == ProblemName(r[i]) && rep.top[j] == ProblemName(r[j]);
    }
  }

  /**
   When problem names are distinct, the verdict is perfect exactly when
   every key problem is among the user's candidates, whatever their order.
   */
  lemma PerfectIffKeyProblemsNamed(problems: seq<Problem>, entries: seq<Entry>)
    requires DistinctBy(problems, ProblemName)
    ensures Evaluate(problems, entries).outcome.verdict == Perfect
            <==> forall n :: n in Evaluate(problems, entries).top ==>
                   n in Evaluate(problems, entries).outcome.candidates
  {
    var rep := Evaluate(problems, entries);
    KeyProblemsDistinct(problems, entries);
    PerfectIffAllNamed(RowNames(rep.userTable), rep.top);
  }

  /** The total incident count does not depend on the order of the problems. */
  lemma TotalIsOrderFree(a: seq<Problem>, b: seq<Problem>)
    requires multiset(a) == multiset(b)
    ensures Sum(Incidents(ProblemItems(a))) == Sum(Incidents(ProblemItems(b)))
  {
    MapMultiset(a, b, ProblemItem);
    ItemTotalIsOrderFree(ProblemItems(a), ProblemItems(b));
  }

  /**
   One evaluation of the page: keep or redraw the shuffle for the selected
   scenario, build the entries from the shown order and the slider values,
   and evaluate them against the scenario's problems.
   */
  function Run(st: State, cat: seq<Scenario>, selected: string, draw: seq<nat>,
               priorities: seq<int>): (out: (State, Report))
    requires Consistent(st, cat)
    requires Lookup(cat, selected).Some?
    requires IsIndexPermutation(draw, |Lookup(cat, selected).value.problems|)
    requires |priorities| == |Lookup(cat, selected).value.problems|
    ensures Consistent(out.0, cat) && out.0.current == Some(selected)
    ensures multiset(EntryItems(out.1.userRanking))
            == multiset(ProblemItems(Lookup(cat, selected).value.problems))
    ensures multiset(out.1.realRanking) == multiset(Lookup(cat, selected).value.problems)
    ensures out.0 == EnsureShuffled(st, cat, selected, draw)
    ensures Sum(Incidents(EntryItems(out.1.userRanking))) == Sum(Incidents(ProblemItems(out.1.realRanking)))
    ensures out.0.shuffle.Some? && |out.0.shuffle.value| == |priorities|
    ensures out.1 == Evaluate(Lookup(cat, selected).value.problems,
                              Entries(out.0.shuffle.value, priorities))
  {
    var problems := Lookup(cat, selected).value.problems;
    var next := EnsureShuffled(st, cat, selected, draw);
    var shown := next.shuffle.value;
    assert |shown| == |problems| by {
      assert |multiset(shown)| == |shown| && |multiset(problems)| == |problems|;
    }
    var entries := Entries(shown, priorities);
    var rep := Evaluate(problems, entries);
    assert multiset(EntryItems(rep.userRanking)) == multiset(ProblemItems(problems)) by {
      MapMultiset(rep.userRanking, entries, EntryItem);
      MapMultiset(shown, problems, ProblemItem);
    }
    assert Sum(Incidents(EntryItems(rep.userRanking))) == Sum(Incidents(ProblemItems(rep.realRanking))) by {
      MapMultiset(rep.realRanking, problems, ProblemItem);
      ItemTotalIsOrderFree(EntryItems(rep.userRanking), ProblemItems(rep.realRanking));
    }
    (next, rep)
  }
}
