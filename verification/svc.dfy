/** Svc.java: the driver. It cuts the URL list into batches of BATCH_SIZE,
    writes the header, hands each batch to the processor and adds each
    batch's summary into one report. */
module Svc {
  import opened Models
  import Report
  import Batches
  import Searcher

  const BATCH_SIZE: int := 20
  const HEADER: string := "url, result, error_message\n"

  /** Svc.partition: runs of BATCH_SIZE URLs, the last one possibly shorter. */
  method Partition(urls: seq<string>) returns (batches: seq<seq<string>>)
    ensures Batches.IsBatching(batches, urls, BATCH_SIZE)
    ensures (|batches| - 1) * BATCH_SIZE < |urls| <= |batches| * BATCH_SIZE || (urls == [] && batches == [])
  {
    batches := Batches.Chunk(urls, BATCH_SIZE);
    Batches.BatchCount(batches, urls, BATCH_SIZE);
  }

  /** The inner loop of main: every key of `summary` added into `report`. */
  method MergeInto(report: Report.Summary, summary: Report.Summary) returns (merged: Report.Summary)
    ensures merged == Report.Merged(report, summary)
  {
    merged := report;
    var keys := summary.Keys;
    ghost var done: set<Result> := {};
    while keys != {}
      invariant keys !! done && keys + done == summary.Keys
      invariant merged.Keys == report.Keys + done
      invariant forall k :: Report.Get(merged, k) == Report.Get(report, k) + (if k in done then summary[k] else 0)
      decreases keys
    {
      var k :| k in keys;
      merged := merged[k := Report.Get(merged, k) + summary[k]];
      keys := keys - {k};
      done := done + {k};
    }
    Report.SameCounts(merged, Report.Merged(report, summary));
  }

  /** The summary of each batch, in batch order. */
  function BatchSummaries(batches: seq<seq<string>>, resolve: string -> MatchResult): (sums: seq<Report.Summary>)
    ensures |sums| == |batches|
    ensures forall i :: 0 <= i < |batches| ==> sums[i] == Searcher.Counts(batches[i], resolve)
  {
    if batches == [] then []
    else BatchSummaries(batches[..|batches| - 1], resolve) + [Searcher.Counts(batches[|batches| - 1], resolve)]
  }

  /** The per-batch reports of any batching merge into the report of the
      whole list. */
  lemma {:induction false} MergedBatches(batches: seq<seq<string>>, resolve: string -> MatchResult)
    ensures Report.Combined(BatchSummaries(batches, resolve)) == Searcher.Counts(Batches.Flatten(batches), resolve)
  {
    if batches != [] {
      var init, last := batches[..|batches| - 1], batches[|batches| - 1];
      var sums := BatchSummaries(batches, resolve);
      MergedBatches(init, resolve);
      assert sums[..|sums| - 1] == BatchSummaries(init, resolve);
      assert Batches.Flatten(batches) == Batches.Flatten(init) + last;
      Searcher.CountsConcat(Batches.Flatten(init), last, resolve);
    }
  }

  lemma FlattenStep(batches: seq<seq<string>>, i: int)
    requires 0 <= i < |batches|
    ensures Batches.Flatten(batches[..i + 1]) == Batches.Flatten(batches[..i]) + batches[i]
  {
    assert batches[..i + 1][..i] == batches[..i];
  }

  /** The search part of main: partition, header, then each batch processed
      and its summary merged. The report and the written lines are those of
      the whole list processed in one go. */
  method Search(processor: Searcher.WebSearchProcessor, urls: seq<string>, net: string -> Searcher.Attempt,
                criteria: string -> bool, concurrentHttpLimit: int)
    returns (report: Report.Summary)
    requires processor.Valid()
    requires concurrentHttpLimit >= 1 || urls == []
    modifies processor
    ensures processor.Valid()
    ensures report == Searcher.Counts(urls, Searcher.Classify(net, criteria))
    ensures Report.Total(report) == |urls|
    ensures processor.written == old(processor.written) + [HEADER] + Searcher.ResultLines(urls, Searcher.Classify(net, criteria))
    ensures processor.requested == old(processor.requested) + Searcher.FlatMap(urls, Searcher.RequestsOf(net, criteria))
    ensures processor.connects == old(processor.connects) + Searcher.SumOver(urls, Searcher.ConnectionsOf(net, criteria))
    ensures processor.disconnects == old(processor.disconnects) + Searcher.SumOver(urls, Searcher.ConnectionsOf(net, criteria))
    ensures processor.probed == old(processor.probed) + Searcher.FlatMap(urls, Searcher.ProbesOf(net, criteria))
  {
    var batches := Partition(urls);
    report := map[];
    processor.written := processor.written + [HEADER];
    ghost var start := processor.written;
    ghost var done: seq<string> := [];
    ghost var resolve := Searcher.Classify(net, criteria);
    ghost var asks, opens, probes := Searcher.RequestsOf(net, criteria), Searcher.ConnectionsOf(net, criteria),
      Searcher.ProbesOf(net, criteria);
    var i := 0;
    while i < |batches|
      invariant 0 <= i <= |batches|
      invariant done == Batches.Flatten(batches[..i])
      invariant processor.Valid()
      invariant report == Searcher.Counts(done, resolve)
      invariant processor.written == start + Searcher.ResultLines(done, resolve)
      invariant processor.requested == old(processor.requested) + Searcher.FlatMap(done, asks)
      invariant processor.connects == old(processor.connects) + Searcher.SumOver(done, opens)
      invariant processor.probed == old(processor.probed) + Searcher.FlatMap(done, probes)
    {
      ghost var lines, more := Searcher.ResultLines(done, resolve), Searcher.ResultLines(batches[i], resolve);
      var summary := processor.Process(batches[i], net, criteria, concurrentHttpLimit);
      assert processor.written == (start + lines) + more;
      report := MergeInto(report, summary);
      FlattenStep(batches, i);
      Searcher.CountsConcat(done, batches[i], resolve);
      Searcher.ResultLinesConcat(done, batches[i], resolve);
      Searcher.Regroup(start, lines, more);
      Searcher.FlatMapConcat(done, batches[i], asks);
      Searcher.FlatMapConcat(done, batches[i], probes);
      Searcher.SumOverConcat(done, batches[i], opens);
      Searcher.Regroup(old(processor.requested), Searcher.FlatMap(done, asks), Searcher.FlatMap(batches[i], asks));
      Searcher.Regroup(old(processor.probed), Searcher.FlatMap(done, probes), Searcher.FlatMap(batches[i], probes));
      done := done + batches[i];
      i := i + 1;
    }
    assert batches[..i] == batches;
  }
}
