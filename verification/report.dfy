/** Count maps from classification to number of URLs: the `report` that
    WebSearchProcessor.Task.run fills and the one Svc.main merges batch
    summaries into. A key is present only once something was counted under
    it, as with a Java map that starts empty. */
module Report {
  import opened Models

  type Summary = map<Result, int>

  /** Map.getOrDefault(k, 0) */
  function Get(m: Summary, k: Result): int {
    if k in m then m[k] else 0
  }

  /** The sum of all counts: Result has exactly three values. */
  function Total(m: Summary): int {
    Get(m, Match) + Get(m, NotMatch) + Get(m, Exception)
  }

  /** One more URL of classification k. */
  function Bump(m: Summary, k: Result): (r: Summary)
    ensures r.Keys == m.Keys + {k}
    ensures Get(r, k) == Get(m, k) + 1
    ensures forall j :: j != k ==> Get(r, j) == Get(m, j)
    ensures Total(r) == Total(m) + 1
  {
    var r := m[k := Get(m, k) + 1];
    assert k == Match || k == NotMatch || k == Exception;
    r
  }

  /** The report after counting the classifications one by one from an
      empty map. */
  function Tally(cls: seq<Result>): (t: Summary)
    ensures Total(t) == |cls|
  {
    if cls == [] then map[] else Bump(Tally(cls[..|cls| - 1]), cls[|cls| - 1])
  }

  /** Counting one more classification after a run. */
  lemma TallySnoc(cls: seq<Result>, k: Result)
    ensures Tally(cls + [k]) == Bump(Tally(cls), k)
  {
    assert (cls + [k])[..|cls|] == cls;
  }

  /** `summary` added into `report` key by key. */
  function Merged(report: Summary, summary: Summary): (r: Summary)
    ensures r.Keys == report.Keys + summary.Keys
    ensures forall k :: Get(r, k) == Get(report, k) + Get(summary, k)
    ensures Total(r) == Total(report) + Total(summary)
  {
    map k | k in report.Keys + summary.Keys :: Get(report, k) + Get(summary, k)
  }

  /** The sum of the summaries' totals. */
  function SumOfTotals(summaries: seq<Summary>): int
  {
    if summaries == [] then 0
    else SumOfTotals(summaries[..|summaries| - 1]) + Total(summaries[|summaries| - 1])
  }

  /** All summaries merged, in order, into an initially empty report. */
  function Combined(summaries: seq<Summary>): (c: Summary)
    ensures Total(c) == SumOfTotals(summaries)
  {
    if summaries == [] then map[]
    else Merged(Combined(summaries[..|summaries| - 1]), summaries[|summaries| - 1])
  }

  /** The tally holds, for each classification, how often it occurs, and has a
      key exactly for the classifications that occur. */
  lemma {:induction false} TallyCounts(cls: seq<Result>, k: Result)
    ensures Get(Tally(cls), k) == multiset(cls)[k]
    ensures k in Tally(cls) <==> k in cls
  {
    if cls != [] {
      var init := cls[..|cls| - 1];
      TallyCounts(init, k);
      assert cls == init + [cls[|cls| - 1]];
      assert multiset(cls) == multiset(init) + multiset{cls[|cls| - 1]};
    }
  }

  /** Two summaries that agree on every key are equal. */
  lemma SameCounts(l: Summary, r: Summary)
    requires forall k :: (k in l <==> k in r) && Get(l, k) == Get(r, k)
    ensures l == r
  {
    assert l.Keys == r.Keys;
    forall k | k in l ensures l[k] == r[k] {
      assert Get(l, k) == Get(r, k);
    }
  }

  lemma TallyConcatAt(a: seq<Result>, b: seq<Result>, k: Result)
    ensures k in Tally(a + b) <==> k in Merged(Tally(a), Tally(b))
    ensures Get(Tally(a + b), k) == Get(Merged(Tally(a), Tally(b)), k)
  {
    TallyCounts(a + b, k);
    TallyCounts(a, k);
    TallyCounts(b, k);
    assert multiset(a + b) == multiset(a) + multiset(b);
  }

  /** Counting two runs separately and merging the counts gives the count of
      both runs together. */
  lemma TallyConcat(a: seq<Result>, b: seq<Result>)
    ensures Tally(a + b) == Merged(Tally(a), Tally(b))
  {
    forall k
      ensures (k in Tally(a + b) <==> k in Merged(Tally(a), Tally(b)))
      ensures Get(Tally(a + b), k) == Get(Merged(Tally(a), Tally(b)), k)
    {
      TallyConcatAt(a, b, k);
    }
    SameCounts(Tally(a + b), Merged(Tally(a), Tally(b)));
  }
}
