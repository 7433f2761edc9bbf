# Pareto diagnosis simulator — a Dafny model

The simulator is a single-page teaching tool for the Pareto method. It
offers three business scenarios. Each scenario lists six reported problems,
and each problem has an incident count. The page shows the problems in a
random order, drawn once per scenario. The user rates each problem with a
priority. On request, the page:

- ranks the user's entries by priority, then by incident count;
- ranks the scenario's problems by incident count (the "real" ranking);
- adds running totals and cumulative percentages to both rankings;
- takes as the real key problems the leading rows whose cumulative share
  is at most 80%;
- counts how many of them are among the user's first choices, and grades
  the result as perfect, acceptable or poor.

The model follows that pipeline, one module per stage:

| module | what it holds |
|---|---|
| `Catalog` | the three scenarios with their exact names, descriptions and counts; lookup by name |
| `Session` | the two session keys and the shuffle-once rule; the random draw is a parameter |
| `Sorting` | a stable, descending insertion sort on a two-level key |
| `Pareto` | sum, running totals, exact cumulative shares, the `<= 80` mask and the key problems |
| `Comparison` | the user's candidates, the hits and the three-way verdict |
| `Evaluation` | entries from the sliders, both rankings, the whole evaluation, one page run |
| `CatalogResults` | the real ranking and the key problems of each catalog scenario |
| `Sequences`, `Wrappers` | generic sequence lemmas and `Option` |

Percentages are exact fractions, not floating point. The share of a running
total `cum` in a total `t` is `Ratio(100 * cum, t)`. The test `share <= 80`
is therefore `100 * cum <= 80 * t`. A zero total gives `NaN`, as a data-frame
division 0/0 does, and `NaN <= 80` is false.

Two behaviours of the code are worth knowing:

- The key problems are the rows whose cumulative share is at most 80%
  (`streamlit_app.py` line 120). The row whose share first goes past 80% is
  not one of them. In the mug
  factory the three key problems cover 73% of the complaints. The fourth
  problem would take the share to 85%, so it is left out.
- If every incident count were zero, the division at line 118 (and line 82
  for the user's table) would make every share `NaN`. There
  would then be no key problems, and the verdict would be perfect whatever
  the user chose. No catalog scenario has a zero total.

## Model

| member | source | states |
|---|---|---|
| Catalog.Names | streamlit_app.py:49 | The selector offers one choice per catalog scenario, and the choice at each position is the name of the scenario at that position, in catalog order |
| Catalog.CatalogKeysDistinct | streamlit_app.py:11-46 | The catalog is a dictionary, so no two scenarios share a name |
| Catalog.CatalogLookup | streamlit_app.py:49-51 | Every choice of the selector is a catalog key, and looking it up yields the scenario at that choice's position |
| Catalog.Lookup | streamlit_app.py:49-51 | A scenario is found exactly when its name is one of the catalog keys; what is found is the catalog scenario stored under that name |
| Catalog.LookupListed | streamlit_app.py:12-46 | Looking up any listed scenario name yields that scenario, because the catalog keys are distinct |
| Catalog.CatalogProblemsWellFormed | streamlit_app.py:12-46 | In every catalog scenario the problem names are pairwise distinct, the incident counts are pairwise distinct, and every count is positive |
| CatalogResults.CatalogContents | streamlit_app.py:12-46 | The catalog holds exactly three scenarios, under these names and with these problem lists |
| Session.EnsureShuffled | streamlit_app.py:57-61 | Keeps the stored order when it was drawn for the selected scenario. Otherwise it stores the new draw. Either way it records the selection, and the stored order is a permutation of the scenario's problems |
| Session.PermuteMultiset | streamlit_app.py:58 | Sampling every problem without replacement yields each problem exactly as often as the scenario lists it |
| Session.FreshConsistent | streamlit_app.py:57 | A new session, with neither key set, satisfies the session invariant |
| Session.ReselectKeepsOrder | streamlit_app.py:57-59 | Selecting the same scenario again never redraws: the second draw is ignored |
| Session.ReturnReshuffles | streamlit_app.py:57-59 | Switching to another scenario and back takes a fresh draw, and the order shown is the last draw's |
| Evaluation.Entries | streamlit_app.py:65-75 | One entry per shown problem, in display order, with that problem's name and count and the slider's priority at the same position |
| Evaluation.UserRanking | streamlit_app.py:79-80 | The user's ranking is a permutation of the entries, ordered by priority descending and then by incident count descending |
| Evaluation.UserRankingStable | streamlit_app.py:80 | Entries that tie on both priority and count keep their display order |
| Sorting.SortDesc | streamlit_app.py:80 | The sort returns a permutation of its input in which every element's key is at least every later element's key |
| Sorting.SortStable | streamlit_app.py:80 | For every key, the elements carrying that key appear in the output in their input order |
| Evaluation.RealRanking | streamlit_app.py:115-116 | The real ranking is a permutation of the scenario's problems with non-increasing incident counts |
| Evaluation.StrictRankingUnique | streamlit_app.py:116 | Two rankings of the same problems that both strictly decrease in count are equal |
| Evaluation.RealRankingCanonical | streamlit_app.py:116 | When counts are distinct, any permutation of the problems with non-increasing counts is the real ranking, so the sort's tie order cannot matter |
| Pareto.CumSum | streamlit_app.py:81 | Position i of the running-total column is the sum of the first i + 1 counts |
| Pareto.CumulativeMonotone | streamlit_app.py:117 | Running totals never decrease along a ranking, never exceed the total, and end at the total |
| Pareto.PercentOf | streamlit_app.py:82 | The share of a running total passes the `<= 80` test exactly when the total is positive and 100 times the running total is at most 80 times the total; a zero total gives NaN, which never passes |
| Pareto.WithinThreshold | streamlit_app.py:120 | The `<= 80` mask never passes a NaN share, and it passes a share with a positive denominator exactly when the share as a real number is at most 80 |
| Pareto.Annotate | streamlit_app.py:117-118 | Each row keeps its problem's name and count and gets the running total and cumulative share at its position |
| Pareto.PercentBounds | streamlit_app.py:118 | With a positive total every share lies between 0% and 100% and the last is exactly 100%; with a zero total every share is NaN |
| Pareto.Selected | streamlit_app.py:120 | The boolean-mask selection keeps at most as many names as there are rows, and every kept name names a row |
| Pareto.SelectedIsPrefix | streamlit_app.py:120 | When no passing row follows a failing row, the mask keeps exactly the longest passing prefix |
| Pareto.AnnotatedMaskDownwardClosed | streamlit_app.py:117-120 | On an annotated ranking the `<= 80` mask never passes a row after one it fails, since shares only grow |
| Pareto.KeyProblems | streamlit_app.py:117-120 | The key problems are the leading names of the ranking. Each has share at most 80%, the next row (if any) has share above 80%, and a zero total gives none |
| Comparison.Candidates | streamlit_app.py:121 | The user's candidates are the first as many names of their ranking as there are key problems, or the whole ranking when it is shorter |
| Comparison.Hits | streamlit_app.py:122 | The hits number at most the key problems and at most the candidates, and are zero exactly when no key problem is a candidate. With distinct key problems the hits are the number of key problems that the candidates name |
| Comparison.CommonCount | streamlit_app.py:122 | With distinct key problems, the set intersection of key problems and candidates has as many members as there are key-problem positions whose name is a candidate |
| Comparison.Grade | streamlit_app.py:128-133 | A poor grade needs at least two key problems and a miss; no key problems and no hits grade perfect |
| Comparison.Compare | streamlit_app.py:121-133 | The total is the number of key problems, and the candidates are a prefix of the user's ranking of the stated length. Hits are bounded by both lists. A poor verdict needs two or more key problems, and no key problems gives a perfect verdict |
| Comparison.VerdictCases | streamlit_app.py:128-133 | The verdict is perfect iff all key problems are hit. It is acceptable iff not all are hit but the hits reach half of them rounded down. Otherwise it is poor |
| Comparison.PerfectIffAllNamed | streamlit_app.py:120-128 | With distinct key problems the verdict is perfect exactly when every key problem is among the candidates |
| Comparison.ExampleAllMatched | streamlit_app.py:128-129 | Two key problems, both among the candidates: two hits, perfect |
| Comparison.ExampleHalfMatched | streamlit_app.py:130-131 | Four key problems, two among the candidates: two hits, which is half, acceptable |
| Comparison.ExampleNoneMatched | streamlit_app.py:132-133 | Three key problems, none among the candidates: no hits, poor |
| Evaluation.Evaluate | streamlit_app.py:78-122 | The user's ranking is the priority-then-count ranking of the entries, and the real ranking is the count ranking of the problems. Both are permutations of their inputs. Each table annotates its ranking with running totals and shares. The key problems are those of the real ranking, and each names the real row at its position. A zero total gives no key problems. The outcome compares the leading names of the user's table with the key problems, and its bounds hold |
| Evaluation.KeyProblemsOfScenario | streamlit_app.py:115-120 | The key problems an evaluation reports are the key problems of the scenario's real ranking |
| Evaluation.KeyProblemsIgnoreEntries | streamlit_app.py:115-120 | Two evaluations of the same scenario with different user entries report the same key problems and the same real table |
| Evaluation.KeyProblemsDistinct | streamlit_app.py:120 | Distinct problem names give distinct key problems |
| Evaluation.PerfectIffKeyProblemsNamed | streamlit_app.py:120-133 | With distinct problem names, the evaluation is perfect exactly when every key problem is among the user's candidates |
| Pareto.ItemTotalIsOrderFree | streamlit_app.py:82 | Two rankings of the same (name, count) rows in any order have the same incident total |
| Evaluation.TotalIsOrderFree | streamlit_app.py:118 | The total incident count is the same for every order of the same problems, so sorting the scenario does not change the real table's total |
| Evaluation.Run | streamlit_app.py:49-122 | One run keeps the session invariant and records the selection. Its session update is exactly the shuffle-once rule, so selecting the same scenario again keeps the stored order. It stores an order of the selected scenario's problems with one problem per slider. Both tables divide by the same total. The report is the evaluation of the scenario's problems against the entries built from that stored order and the sliders. The user's ranking carries exactly the scenario's (name, count) pairs, and the real ranking is a permutation of the scenario's problems |
| CatalogResults.RankingByOrder | streamlit_app.py:116 | A rearrangement by an index permutation, with distinct counts listed non-increasing, is the real ranking |
| CatalogResults.ThreeKeyProblems | streamlit_app.py:117-120 | In a six-problem ranking whose first three counts stay within 80% of the total and whose first four exceed it, the key problems are the first three names |
| CatalogResults.MugFactoryRanking | streamlit_app.py:16-21 | The mug factory ranks late delivery (30), scratched product (25), bad assembly (18), valve leak (12), customer service (9), packaging (6) |
| CatalogResults.MugFactoryTop | streamlit_app.py:16-21 | The mug factory's key problems are late delivery, scratched product and bad assembly |
| CatalogResults.MugFactoryKeyProblems | streamlit_app.py:13-21 | Whatever the user enters, the evaluation of the mug factory names those three key problems |
| CatalogResults.ClinicRanking | streamlit_app.py:27-32 | The clinic ranks lack of beds (24), consultation delays (22), billing errors (16), staff treatment (15), prescription errors (12), cleanliness (7) |
| CatalogResults.ClinicTop | streamlit_app.py:27-32 | The clinic's key problems are lack of beds, consultation delays and billing errors |
| CatalogResults.ClinicKeyProblems | streamlit_app.py:24-32 | Whatever the user enters, the evaluation of the clinic names those three key problems |
| CatalogResults.ShopRanking | streamlit_app.py:38-43 | The online shop ranks late deliveries (28), wrong product (21), damaged product (18), slow chat (12), payment failures (10), hard returns (8) |
| CatalogResults.ShopTop | streamlit_app.py:38-43 | The online shop's key problems are late deliveries, wrong product and damaged product |
| CatalogResults.ShopKeyProblems | streamlit_app.py:35-43 | Whatever the user enters, the evaluation of the online shop names those three key problems |
| CatalogResults.CatalogPerfectIffAllNamed | streamlit_app.py:120-133 | For every catalog scenario and any entries, the verdict is perfect exactly when every key problem is among the user's candidates |

## Left out

- Page layout, titles, the description box and the scenario selector widget are not modelled. The selector is represented by the selected name.
- The Plotly charts (lines 84-112 and 135 onward) are not modelled. They display the two tables the model computes and change nothing.
- The "Evaluate" button is not modelled: `Evaluation.Run` is one page run with the button pressed. Without the press the page only shuffles and shows sliders, which `Session.EnsureShuffled` covers.
- The randomness of `random.sample` is not modelled. The draw is a parameter, an arbitrary index permutation, so every property holds for every draw.
- Evaluation.Entries: the slider's range 1 to 10 and its default `10 - i` are not modelled. A priority may be any integer, which covers every value the widget can produce.
- Evaluation.RealRanking: the order among problems with equal incident counts is not stated. The source's single-column sort does not promise a stable order. `Evaluation.RealRankingCanonical` shows that with distinct counts, as in every catalog scenario, the ranking is determined anyway.
- Floating-point percentages are replaced by exact fractions. The rounding of the floating-point division is not modelled.
- The text messages (lines 125-133) are reduced to the three verdicts and the hit count.
