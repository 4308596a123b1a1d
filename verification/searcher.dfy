/** WebSearchProcessor.java: the fetch-and-match engine, run one URL after
    another. A fetch is not performed here: `net` says what each full URL
    yields (the connection fails, or a stream of decoded lines that ends or
    breaks off), and `criteria` is the page predicate. */
module Searcher {
  import opened Models
  import Report
  import Util

  const HTTPS_PROTOCOL: string := "https://"
  const HTTP_PROTOCOL: string := "http://"

  /** How the line stream of an open connection stops: readLine returns
      null, or a read throws (this also stands for getInputStream or the
      decoder throwing before the first line). */
  datatype StreamEnd = EndOfStream | ReadFailure(message: Option<string>)

  datatype Body = Body(lines: seq<string>, end: StreamEnd)

  /** One fetch of one URL: connectUrl throws, or it returns a connection
      whose body is read line by line. */
  datatype Attempt = ConnectFailure(message: Option<string>) | Connected(body: Body)

  /** What matchUrl does: return a boolean, or throw with a message. */
  datatype MatchOutcome = Matched(found: bool) | Threw(message: Option<string>)

  /** The index of the first line satisfying the predicate, or the number of
      lines when there is none. */
  function FirstHit(lines: seq<string>, criteria: string -> bool): (k: nat)
    ensures k <= |lines|
    ensures forall i :: 0 <= i < k ==> !criteria(lines[i])
    ensures k < |lines| ==> criteria(lines[k])
  {
    if lines == [] then 0
    else if criteria(lines[0]) then 0
    else 1 + FirstHit(lines[1..], criteria)
  }

  /** matchUrl's result for one attempt: true at the first satisfying line,
      false when the stream ends without one, and the error otherwise. */
  function Scan(attempt: Attempt, criteria: string -> bool): (o: MatchOutcome)
    ensures o == Matched(true) ==> Hit(attempt, criteria)
    ensures o == Matched(false) ==> Completes(attempt)
    ensures o.Threw? ==> o.message == ErrorOf(attempt)
  {
    match attempt
    case ConnectFailure(message) => Threw(message)
    case Connected(body) =>
      if FirstHit(body.lines, criteria) < |body.lines| then Matched(true)
      else
        match body.end
        case EndOfStream => Matched(false)
        case ReadFailure(message) => Threw(message)
  }

  /** The lines matchUrl hands to the predicate: up to and including the
      first satisfying one. */
  function Probes(attempt: Attempt, criteria: string -> bool): seq<string>
  {
    match attempt
    case ConnectFailure(_) => []
    case Connected(body) =>
      var k := FirstHit(body.lines, criteria);
      if k < |body.lines| then body.lines[..k + 1] else body.lines
  }

  /** 1 for an attempt that obtained a connection (and must release it). */
  function Opened(attempt: Attempt): nat {
    if attempt.Connected? then 1 else 0
  }

  /** The message an attempt fails with, if it fails with one. */
  function ErrorOf(attempt: Attempt): Option<string> {
    match attempt
    case ConnectFailure(message) => message
    case Connected(body) => if body.end.ReadFailure? then body.end.message else None
  }

  /** Some line of the page satisfies the predicate. */
  ghost predicate Hit(attempt: Attempt, criteria: string -> bool) {
    attempt.Connected? && exists i :: 0 <= i < |attempt.body.lines| && criteria(attempt.body.lines[i])
  }

  /** The page was read to its end. */
  ghost predicate Completes(attempt: Attempt) {
    attempt.Connected? && attempt.body.end == EndOfStream
  }

  /** What matchUrl returns, stated by the page alone; and the predicate sees
      no line after the first satisfying one. */
  lemma ScanMeaning(attempt: Attempt, criteria: string -> bool)
    ensures Scan(attempt, criteria) == Matched(true) <==> Hit(attempt, criteria)
    ensures Scan(attempt, criteria) == Matched(false) <==> !Hit(attempt, criteria) && Completes(attempt)
    ensures Scan(attempt, criteria).Threw? <==> !Hit(attempt, criteria) && !Completes(attempt)
    ensures Scan(attempt, criteria).Threw? ==> Scan(attempt, criteria).message == ErrorOf(attempt)
    ensures attempt.Connected? ==> Probes(attempt, criteria) <= attempt.body.lines
    ensures forall i :: 0 <= i < |Probes(attempt, criteria)| - 1 ==> !criteria(Probes(attempt, criteria)[i])
    ensures Hit(attempt, criteria) ==> criteria(Probes(attempt, criteria)[|Probes(attempt, criteria)| - 1])
  {
    if attempt.Connected? {
      var lines := attempt.body.lines;
      var k := FirstHit(lines, criteria);
      if Hit(attempt, criteria) {
        var i :| 0 <= i < |lines| && criteria(lines[i]);
        assert k <= i;
      }
    }
  }

  /** The diagnostic of a URL for which both attempts threw: the HTTP error's
      message, else the HTTPS error's, else "UNKNOWN". */
  function Diagnostic(httpError: Option<string>, httpsError: Option<string>): (d: string)
    ensures httpError.Some? ==> d == httpError.value
    ensures httpError == None ==> httpsError.Some? ==> d == httpsError.value
    ensures d == "UNKNOWN" || Some(d) == httpError || Some(d) == httpsError
  {
    if httpError.Some? then httpError.value
    else if httpsError.Some? then httpsError.value
    else "UNKNOWN"
  }

  /** processUrl: HTTPS first; HTTP only when the HTTPS attempt threw. */
  function Resolve(host: string, net: string -> Attempt, criteria: string -> bool): (r: MatchResult)
    ensures r.url == host
    ensures r.errorMessage.Some? <==> r.result == Exception
    ensures r.result == Exception <==>
      Scan(net(HTTPS_PROTOCOL + host), criteria).Threw? && Scan(net(HTTP_PROTOCOL + host), criteria).Threw?
  {
    var https := Scan(net(HTTPS_PROTOCOL + host), criteria);
    if https == Matched(true) then NewMatchResult(host, Match)
    else if https.Threw? then
      var http := Scan(net(HTTP_PROTOCOL + host), criteria);
      if http == Matched(true) then NewMatchResult(host, Match)
      else if http.Threw? then NewMatchResultWithError(host, Exception, Diagnostic(http.message, https.message))
      else NewMatchResult(host, NotMatch)
    else NewMatchResult(host, NotMatch)
  }

  /** The URLs processUrl asks connectUrl for. */
  function Requests(host: string, net: string -> Attempt, criteria: string -> bool): seq<string>
  {
    if Scan(net(HTTPS_PROTOCOL + host), criteria).Threw? then [HTTPS_PROTOCOL + host, HTTP_PROTOCOL + host]
    else [HTTPS_PROTOCOL + host]
  }

  /** The connections processUrl obtains for one host; each is released. */
  function Connections(host: string, net: string -> Attempt, criteria: string -> bool): (n: nat)
    ensures n <= |Requests(host, net, criteria)|
  {
    Opened(net(HTTPS_PROTOCOL + host))
      + (if Scan(net(HTTPS_PROTOCOL + host), criteria).Threw? then Opened(net(HTTP_PROTOCOL + host)) else 0)
  }

  /** The lines processUrl hands to the predicate: those of the HTTPS page,
      then, after an HTTPS failure, those of the HTTP page. */
  function ProbedLines(host: string, net: string -> Attempt, criteria: string -> bool): seq<string>
  {
    Probes(net(HTTPS_PROTOCOL + host), criteria)
      + (if Scan(net(HTTPS_PROTOCOL + host), criteria).Threw? then Probes(net(HTTP_PROTOCOL + host), criteria) else [])
  }

  /** The fallback policy case by case, in terms of the pages themselves. */
  lemma ResolveByCases(host: string, net: string -> Attempt, criteria: string -> bool)
    ensures var https := net(HTTPS_PROTOCOL + host);
      Hit(https, criteria) ==>
        Resolve(host, net, criteria) == NewMatchResult(host, Match)
        && Requests(host, net, criteria) == [HTTPS_PROTOCOL + host]
    ensures var https := net(HTTPS_PROTOCOL + host);
      !Hit(https, criteria) && Completes(https) ==>
        Resolve(host, net, criteria) == NewMatchResult(host, NotMatch)
        && Requests(host, net, criteria) == [HTTPS_PROTOCOL + host]
    ensures var https, http := net(HTTPS_PROTOCOL + host), net(HTTP_PROTOCOL + host);
      !Hit(https, criteria) && !Completes(https) ==>
        && Requests(host, net, criteria) == [HTTPS_PROTOCOL + host, HTTP_PROTOCOL + host]
        && (Hit(http, criteria) ==> Resolve(host, net, criteria) == NewMatchResult(host, Match))
        && (!Hit(http, criteria) && Completes(http) ==> Resolve(host, net, criteria) == NewMatchResult(host, NotMatch))
    ensures var https, http := net(HTTPS_PROTOCOL + host), net(HTTP_PROTOCOL + host);
      !Hit(https, criteria) && !Completes(https) && !Hit(http, criteria) && !Completes(http) ==>
        Resolve(host, net, criteria) == NewMatchResultWithError(host, Exception,
          if ErrorOf(http).Some? then ErrorOf(http).value
          else if ErrorOf(https).Some? then ErrorOf(https).value
          else "UNKNOWN")
  {
    ScanMeaning(net(HTTPS_PROTOCOL + host), criteria);
    ScanMeaning(net(HTTP_PROTOCOL + host), criteria);
  }

  /** WebSearchProcessorTest.test_process_retryWithHttp: the HTTPS connect
      throws, the HTTP page has no matching line. */
  lemma RetryWithHttpExample(host: string, net: string -> Attempt, criteria: string -> bool)
    requires net(HTTPS_PROTOCOL + host) == ConnectFailure(None)
    requires net(HTTP_PROTOCOL + host) == Connected(Body(["line1"], EndOfStream))
    requires !criteria("line1")
    ensures Resolve(host, net, criteria) == NewMatchResult(host, NotMatch)
    ensures Requests(host, net, criteria) == [HTTPS_PROTOCOL + host, HTTP_PROTOCOL + host]
    ensures Connections(host, net, criteria) == 1
  {
    ResolveByCases(host, net, criteria);
  }

  /** WebSearchProcessorTest.test_process_exception: both connects throw
      without a message. */
  lemma ExceptionExample(host: string, net: string -> Attempt, criteria: string -> bool)
    requires net(HTTPS_PROTOCOL + host) == ConnectFailure(None)
    requires net(HTTP_PROTOCOL + host) == ConnectFailure(None)
    ensures Resolve(host, net, criteria) == NewMatchResultWithError(host, Exception, "UNKNOWN")
    ensures Requests(host, net, criteria) == [HTTPS_PROTOCOL + host, HTTP_PROTOCOL + host]
    ensures Connections(host, net, criteria) == 0
  {
  }

  /** processUrl with the network and the predicate fixed. */
  function Classify(net: string -> Attempt, criteria: string -> bool): string -> MatchResult
  {
    host => Resolve(host, net, criteria)
  }

  /** The classification of every URL, in input order. */
  function Classes(urls: seq<string>, resolve: string -> MatchResult): (cls: seq<Result>)
    ensures |cls| == |urls|
  {
    if urls == [] then []
    else Classes(urls[..|urls| - 1], resolve) + [resolve(urls[|urls| - 1]).result]
  }

  /** The report process returns. */
  function Counts(urls: seq<string>, resolve: string -> MatchResult): (c: Report.Summary)
    ensures Report.Total(c) == |urls|
  {
    Report.Tally(Classes(urls, resolve))
  }

  /** The lines handed to the writer, in processing order. */
  function ResultLines(urls: seq<string>, resolve: string -> MatchResult): (out: seq<string>)
    ensures |out| == |urls|
  {
    if urls == [] then []
    else ResultLines(urls[..|urls| - 1], resolve) + [Util.WriteLine(resolve(urls[|urls| - 1]))]
  }

  /** What f gives for each URL, laid end to end in URL order. */
  function FlatMap(urls: seq<string>, f: string -> seq<string>): seq<string>
  {
    if urls == [] then [] else FlatMap(urls[..|urls| - 1], f) + f(urls[|urls| - 1])
  }

  /** What f gives for each URL, added up. */
  function SumOver(urls: seq<string>, f: string -> nat): nat
  {
    if urls == [] then 0 else SumOver(urls[..|urls| - 1], f) + f(urls[|urls| - 1])
  }

  /** The per-host effects of processUrl with the network and the predicate
      fixed: the URLs it requests, the connections it obtains, the lines it
      reads. */
  function RequestsOf(net: string -> Attempt, criteria: string -> bool): string -> seq<string>
  {
    host => Requests(host, net, criteria)
  }

  function ConnectionsOf(net: string -> Attempt, criteria: string -> bool): string -> nat
  {
    host => Connections(host, net, criteria)
  }

  function ProbesOf(net: string -> Attempt, criteria: string -> bool): string -> seq<string>
  {
    host => ProbedLines(host, net, criteria)
  }

  /** Every URL is requested over HTTPS, and at most once more over HTTP;
      no more connections are obtained than URLs requested. */
  lemma {:induction false} RequestBounds(urls: seq<string>, net: string -> Attempt, criteria: string -> bool)
    ensures |urls| <= |FlatMap(urls, RequestsOf(net, criteria))| <= 2 * |urls|
    ensures SumOver(urls, ConnectionsOf(net, criteria)) <= |FlatMap(urls, RequestsOf(net, criteria))|
  {
    if urls != [] {
      var host := urls[|urls| - 1];
      RequestBounds(urls[..|urls| - 1], net, criteria);
      assert RequestsOf(net, criteria)(host) == Requests(host, net, criteria);
      assert ConnectionsOf(net, criteria)(host) == Connections(host, net, criteria);
    }
  }

  /** The i-th classification and the i-th line are those of the i-th URL. */
  lemma {:induction false} ClassesAt(urls: seq<string>, resolve: string -> MatchResult, i: int)
    requires 0 <= i < |urls|
    ensures Classes(urls, resolve)[i] == resolve(urls[i]).result
    ensures ResultLines(urls, resolve)[i] == Util.WriteLine(resolve(urls[i]))
  {
    if i < |urls| - 1 {
      ClassesAt(urls[..|urls| - 1], resolve, i);
    }
  }

  /** Each URL adds exactly one to the count of its own classification, so
      the counts add up to the number of URLs. */
  lemma CountsMeaning(urls: seq<string>, resolve: string -> MatchResult, k: Result)
    ensures Report.Get(Counts(urls, resolve), k) == multiset(Classes(urls, resolve))[k]
    ensures k in Counts(urls, resolve) <==> exists i :: 0 <= i < |urls| && resolve(urls[i]).result == k
  {
    var cls := Classes(urls, resolve);
    Report.TallyCounts(cls, k);
    if k in cls {
      var i :| 0 <= i < |cls| && cls[i] == k;
      ClassesAt(urls, resolve, i);
    }
    if exists i :: 0 <= i < |urls| && resolve(urls[i]).result == k {
      var i :| 0 <= i < |urls| && resolve(urls[i]).result == k;
      ClassesAt(urls, resolve, i);
      assert cls[i] == k;
    }
  }

  /** URLs are classified independently of one another. */
  lemma {:induction false} ClassesConcat(a: seq<string>, b: seq<string>, resolve: string -> MatchResult)
    ensures Classes(a + b, resolve) == Classes(a, resolve) + Classes(b, resolve)
    decreases |b|
  {
    if b == [] {
      assert a + b == a;
    } else {
      var b', x := b[..|b| - 1], resolve(b[|b| - 1]).result;
      ClassesConcat(a, b', resolve);
      assert (a + b)[..|a + b| - 1] == a + b';
      assert Classes(a + b, resolve) == Classes(a + b', resolve) + [x];
      assert Classes(b, resolve) == Classes(b', resolve) + [x];
      assert (Classes(a, resolve) + Classes(b', resolve)) + [x] == Classes(a, resolve) + (Classes(b', resolve) + [x]);
    }
  }

  /** Lines are written in the order of the URLs. */
  lemma {:induction false} ResultLinesConcat(a: seq<string>, b: seq<string>, resolve: string -> MatchResult)
    ensures ResultLines(a + b, resolve) == ResultLines(a, resolve) + ResultLines(b, resolve)
    decreases |b|
  {
    if b == [] {
      assert a + b == a;
    } else {
      var b' := b[..|b| - 1];
      ResultLinesConcat(a, b', resolve);
      assert (a + b)[..|a + b| - 1] == a + b';
      Regroup(ResultLines(a, resolve), ResultLines(b', resolve), [Util.WriteLine(resolve(b[|b| - 1]))]);
    }
  }

  /** The per-URL effects of two lists, in order, are those of the two lists
      processed as one. */
  lemma {:induction false} FlatMapConcat(a: seq<string>, b: seq<string>, f: string -> seq<string>)
    ensures FlatMap(a + b, f) == FlatMap(a, f) + FlatMap(b, f)
    decreases |b|
  {
    if b == [] {
      assert a + b == a;
    } else {
      var b' := b[..|b| - 1];
      FlatMapConcat(a, b', f);
      assert (a + b)[..|a + b| - 1] == a + b';
      Regroup(FlatMap(a, f), FlatMap(b', f), f(b[|b| - 1]));
    }
  }

  /** Counted effects add up over two lists. */
  lemma {:induction false} SumOverConcat(a: seq<string>, b: seq<string>, g: string -> nat)
    ensures SumOver(a + b, g) == SumOver(a, g) + SumOver(b, g)
    decreases |b|
  {
    if b == [] {
      assert a + b == a;
    } else {
      var b' := b[..|b| - 1];
      SumOverConcat(a, b', g);
      assert (a + b)[..|a + b| - 1] == a + b';
    }
  }

  /** Processing two lists and merging their reports gives the report of
      both lists processed as one. */
  lemma CountsConcat(a: seq<string>, b: seq<string>, resolve: string -> MatchResult)
    ensures Counts(a + b, resolve) == Report.Merged(Counts(a, resolve), Counts(b, resolve))
  {
    ClassesConcat(a, b, resolve);
    Report.TallyConcat(Classes(a, resolve), Classes(b, resolve));
  }

  /** Processing one more URL: one more count, one more written line. */
  lemma ProcessStep(urls: seq<string>, resolve: string -> MatchResult, i: int, written: seq<string>)
    requires 0 <= i < |urls|
    ensures Counts(urls[..i + 1], resolve) == Report.Bump(Counts(urls[..i], resolve), resolve(urls[i]).result)
    ensures (written + ResultLines(urls[..i], resolve)) + [Util.WriteLine(resolve(urls[i]))]
      == written + ResultLines(urls[..i + 1], resolve)
  {
    assert urls[..i + 1][..i] == urls[..i];
    Report.TallySnoc(Classes(urls[..i], resolve), resolve(urls[i]).result);
  }

  /** One more URL processed: its effects follow those of the URLs before it. */
  lemma TaskStep(urls: seq<string>, f: string -> seq<string>, g: string -> nat, i: int, before: seq<string>)
    requires 0 <= i < |urls|
    ensures (before + FlatMap(urls[..i], f)) + f(urls[i]) == before + FlatMap(urls[..i + 1], f)
    ensures SumOver(urls[..i + 1], g) == SumOver(urls[..i], g) + g(urls[i])
  {
    assert urls[..i + 1][..i] == urls[..i];
  }

  /** Regrouping a concatenation, stated once so that a proof can name the
      three parts instead of comparing sequences element by element. */
  lemma Regroup(a: seq<string>, b: seq<string>, c: seq<string>)
    ensures (a + b) + c == a + (b + c)
  {
  }

  /** WebSearchProcessorTest.test_process_https: one page has a matching
      line, the other does not. */
  lemma ProcessHttpsExample(urls: seq<string>, net: string -> Attempt, criteria: string -> bool)
    requires |urls| == 2
    requires net(HTTPS_PROTOCOL + urls[0]) == Connected(Body(["line1"], EndOfStream))
    requires net(HTTPS_PROTOCOL + urls[1]) == Connected(Body(["line2"], EndOfStream))
    requires criteria("line1") && !criteria("line2")
    ensures Counts(urls, Classify(net, criteria)) == map[Match := 1, NotMatch := 1]
  {
    var resolve := Classify(net, criteria);
    ResolveByCases(urls[0], net, criteria);
    ResolveByCases(urls[1], net, criteria);
    assert resolve(urls[0]).result == Match;
    assert resolve(urls[1]).result == NotMatch;
    assert urls[..1][..0] == [];
    assert Classes(urls[..1], resolve) == [Match];
    assert urls[..|urls| - 1] == urls[..1];
    assert Classes(urls, resolve) == [Match, NotMatch];
    Report.TallySnoc([], Match);
    Report.TallySnoc([Match], NotMatch);
    assert [Match] + [NotMatch] == [Match, NotMatch];
  }

  /** The same run: each page is fetched over HTTPS only, and each of the two
      connections is released, so connectUrl and disconnect are called twice. */
  lemma ProcessHttpsConnections(urls: seq<string>, net: string -> Attempt, criteria: string -> bool)
    requires |urls| == 2
    requires net(HTTPS_PROTOCOL + urls[0]) == Connected(Body(["line1"], EndOfStream))
    requires net(HTTPS_PROTOCOL + urls[1]) == Connected(Body(["line2"], EndOfStream))
    requires criteria("line1") && !criteria("line2")
    ensures |FlatMap(urls, RequestsOf(net, criteria))| == 2
    ensures SumOver(urls, ConnectionsOf(net, criteria)) == 2
  {
    var asks, opens := RequestsOf(net, criteria), ConnectionsOf(net, criteria);
    assert asks(urls[0]) == Requests(urls[0], net, criteria) && |asks(urls[0])| == 1;
    assert asks(urls[1]) == Requests(urls[1], net, criteria) && |asks(urls[1])| == 1;
    assert opens(urls[0]) == Connections(urls[0], net, criteria) == 1;
    assert opens(urls[1]) == Connections(urls[1], net, criteria) == 1;
    TaskStep(urls, asks, opens, 0, []);
    TaskStep(urls, asks, opens, 1, []);
    assert urls[..0] == [] && urls[..2] == urls;
  }

  /** The processor and the state its tasks share: the in-flight counter,
      the report map and the writer. `connects` and `disconnects` count the
      connections obtained and released; `requested` and `probed` record
      every URL passed to connectUrl and every line passed to the predicate. */
  class WebSearchProcessor {
    var counter: int
    var connects: nat
    var disconnects: nat
    var report: Report.Summary
    var written: seq<string>
    ghost var requested: seq<string>
    ghost var probed: seq<string>

    /** Between fetches every connection is released and none is in flight. */
    ghost predicate Valid()
      reads this
    {
      connects == disconnects && counter == 0
    }

    constructor ()
      ensures Valid()
      ensures connects == 0 && report == map[] && written == []
      ensures requested == [] && probed == []
    {
      counter, connects, disconnects := 0, 0, 0;
      report, written := map[], [];
      requested, probed := [], [];
    }

    /** matchUrl: read lines until one satisfies the predicate. A connection
        that was obtained is released and the counter restored on every exit
        path; a connect that throws touches neither. */
    method MatchUrl(url: string, net: string -> Attempt, criteria: string -> bool) returns (outcome: MatchOutcome)
      requires Valid()
      modifies this
      ensures Valid()
      ensures outcome == Scan(net(url), criteria)
      ensures counter == old(counter)
      ensures connects == old(connects) + Opened(net(url))
      ensures disconnects == old(disconnects) + Opened(net(url))
      ensures requested == old(requested) + [url]
      ensures probed == old(probed) + Probes(net(url), criteria)
      ensures report == old(report) && written == old(written)
    {
      requested := requested + [url];
      var attempt := net(url);
      if attempt.ConnectFailure? {
        return Threw(attempt.message);
      }
      connects := connects + 1;
      counter := counter + 1;
      var found := ReadUntilMatch(attempt.body.lines, criteria);
      // the finally block
      disconnects := disconnects + 1;
      counter := counter - 1;
      if found {
        outcome := Matched(true);
      } else if attempt.body.end == EndOfStream {
        outcome := Matched(false);
      } else {
        outcome := Threw(attempt.body.end.message);
      }
    }

    /** The read loop of matchUrl: hand the lines to the predicate in order and
        stop at the first one it accepts. */
    method ReadUntilMatch(lines: seq<string>, criteria: string -> bool) returns (found: bool)
      modifies this
      ensures found <==> FirstHit(lines, criteria) < |lines|
      ensures probed == old(probed) + if found then lines[..FirstHit(lines, criteria) + 1] else lines
      ensures counter == old(counter) && connects == old(connects) && disconnects == old(disconnects)
      ensures requested == old(requested) && report == old(report) && written == old(written)
    {
      var i := 0;
      found := false;
      while i < |lines| && !found
        invariant 0 <= i <= |lines|
        invariant i <= FirstHit(lines, criteria)
        invariant found ==> i == FirstHit(lines, criteria) < |lines|
        invariant probed == old(probed) + lines[..if found then i + 1 else i]
        invariant counter == old(counter) && connects == old(connects) && disconnects == old(disconnects)
        invariant requested == old(requested) && report == old(report) && written == old(written)
        decreases |lines| - i, if found then 0 else 1
      {
        assert lines[..i + 1] == lines[..i] + [lines[i]];
        probed := probed + [lines[i]];
        if criteria(lines[i]) {
          found := true;
        } else {
          i := i + 1;
        }
      }
      assert !found ==> lines[..i] == lines;
    }

    /** processUrl: try HTTPS; only if it throws, try HTTP once; classify. */
    method ProcessUrl(host: string, net: string -> Attempt, criteria: string -> bool) returns (r: MatchResult)
      requires Valid()
      modifies this
      ensures Valid()
      ensures r == Resolve(host, net, criteria)
      ensures requested == old(requested) + Requests(host, net, criteria)
      ensures connects == old(connects) + Connections(host, net, criteria)
      ensures disconnects == old(disconnects) + Connections(host, net, criteria)
      ensures probed == old(probed) + ProbedLines(host, net, criteria)
      ensures report == old(report) && written == old(written)
    {
      ghost var asked, before := requested, probed;
      var https := MatchUrl(HTTPS_PROTOCOL + host, net, criteria);
      ghost var seen := Probes(net(HTTPS_PROTOCOL + host), criteria);
      if https == Matched(true) {
        assert ProbedLines(host, net, criteria) == seen + [];
        return NewMatchResult(host, Match);
      }
      if https.Threw? {
        var http := MatchUrl(HTTP_PROTOCOL + host, net, criteria);
        ghost var more := Probes(net(HTTP_PROTOCOL + host), criteria);
        Regroup(before, seen, more);
        Regroup(asked, [HTTPS_PROTOCOL + host], [HTTP_PROTOCOL + host]);
        if http == Matched(true) {
          return NewMatchResult(host, Match);
        }
        if http.Threw? {
          return NewMatchResultWithError(host, Exception, Diagnostic(http.message, https.message));
        }
      } else {
        assert ProbedLines(host, net, criteria) == seen + [];
      }
      r := NewMatchResult(host, NotMatch);
    }

    /** Task.run: classify one URL, count it and write its line. */
    method RunTask(host: string, net: string -> Attempt, criteria: string -> bool)
      requires Valid()
      modifies this
      ensures Valid()
      ensures report == Report.Bump(old(report), Classify(net, criteria)(host).result)
      ensures written == old(written) + [Util.WriteLine(Classify(net, criteria)(host))]
      ensures requested == old(requested) + RequestsOf(net, criteria)(host)
      ensures connects == old(connects) + ConnectionsOf(net, criteria)(host)
      ensures disconnects == old(disconnects) + ConnectionsOf(net, criteria)(host)
      ensures probed == old(probed) + ProbesOf(net, criteria)(host)
    {
      var result := ProcessUrl(host, net, criteria);
      report := report[result.result := Report.Get(report, result.result) + 1];
      written := written + [Util.WriteLine(result)];
    }

    /** process, one task after another: a fresh report and counter, every
        URL classified exactly once, the report returned. With nothing in
        flight between tasks, the admission wait never blocks; a limit below
        one would make it wait forever at the first URL. */
    method Process(urls: seq<string>, net: string -> Attempt, criteria: string -> bool, concurrentHttpLimit: int)
      returns (summary: Report.Summary)
      requires Valid()
      requires concurrentHttpLimit >= 1 || urls == []
      modifies this
      ensures Valid()
      ensures summary == report == Counts(urls, Classify(net, criteria))
      ensures Report.Total(summary) == |urls|
      ensures written == old(written) + ResultLines(urls, Classify(net, criteria))
      ensures requested == old(requested) + FlatMap(urls, RequestsOf(net, criteria))
      ensures connects == old(connects) + SumOver(urls, ConnectionsOf(net, criteria))
      ensures disconnects == old(disconnects) + SumOver(urls, ConnectionsOf(net, criteria))
      ensures probed == old(probed) + FlatMap(urls, ProbesOf(net, criteria))
    {
      report := map[];
      counter := 0;
      var i := 0;
      while i < |urls|
        invariant 0 <= i <= |urls|
        invariant Valid()
        invariant report == Counts(urls[..i], Classify(net, criteria))
        invariant written == old(written) + ResultLines(urls[..i], Classify(net, criteria))
        invariant requested == old(requested) + FlatMap(urls[..i], RequestsOf(net, criteria))
        invariant connects == old(connects) + SumOver(urls[..i], ConnectionsOf(net, criteria))
        invariant probed == old(probed) + FlatMap(urls[..i], ProbesOf(net, criteria))
      {
        assert counter < concurrentHttpLimit;
        var host := urls[i];
        RunTask(host, net, criteria);
        ProcessStep(urls, Classify(net, criteria), i, old(written));
        TaskStep(urls, RequestsOf(net, criteria), ConnectionsOf(net, criteria), i, old(requested));
        TaskStep(urls, ProbesOf(net, criteria), ConnectionsOf(net, criteria), i, old(probed));
        i := i + 1;
      }
      summary := report;
      assert urls[..i] == urls;
    }
  }
}
