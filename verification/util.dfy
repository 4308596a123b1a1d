/** utils/Util.java: the URL-list parser, the result-line writer, the batch
    partitioner and the choice of decoder for a response's content
    encoding. A BufferedReader is the sequence of lines its readLine calls
    return before the null; a BufferedWriter receives the string written. */
module Util {
  import opened Models
  import Strings
  import Batches

  const SEP: char := ','

  // ---------------------------------------------------------------------
  // parseUrl

  /** The column text `charAt(length - 2)` and `substring(1, length - trail)`
      accept: anything shorter, or two characters of which the first is a
      slash, raises StringIndexOutOfBoundsException. */
  predicate WellFormedColumn(col: string) {
    |col| >= 2 && !(|col| == 2 && col[0] == '/')
  }

  /** The host inside a column: the first and last characters (the quotes)
      are dropped, and one more character when the one before the closing
      quote is a slash. */
  function ExtractHost(col: string): (host: string)
    requires WellFormedColumn(col)
    ensures |col| - 3 <= |host| <= |col| - 2
    ensures host == col[1..1 + |host|]
    ensures |host| == |col| - 3 <==> col[|col| - 2] == '/'
  {
    var trail := if col[|col| - 2] == '/' then 2 else 1;
    col[1..|col| - trail]
  }

  /** What one data line contributes to the list. */
  datatype LineOutcome = Skipped | Entry(host: string) | OutOfBounds

  function ParseDataLine(line: string): (o: LineOutcome)
    ensures o.Skipped? <==> |Strings.JavaSplit(line, SEP)| <= 1
    ensures SEP !in line ==> o == Skipped
    ensures o.Entry? ==> SEP !in o.host
  {
    var columns := Strings.JavaSplit(line, SEP);
    if |columns| > 1 then
      var url := Strings.Trim(columns[1]);
      if WellFormedColumn(url) then
        var host := ExtractHost(url);
        assert SEP !in url by {
          var k := Strings.LeadingTrimmed(columns[1]);
          assert url == columns[1][k..k + |url|];
        }
        assert host == url[1..1 + |host|];
        Entry(host)
      else OutOfBounds
    else Skipped
  }

  /** The lines after the header; with no lines at all the header read
      already returns null, and so does the next read. */
  function DataLines(lines: seq<string>): seq<string>
  {
    if lines == [] then [] else lines[1..]
  }

  /** What each data line contributes, line by line. */
  function LineOutcomes(data: seq<string>): (outs: seq<LineOutcome>)
    ensures |outs| == |data|
  {
    if data == [] then [] else LineOutcomes(data[..|data| - 1]) + [ParseDataLine(data[|data| - 1])]
  }

  /** The hosts of the entries, in order; None once a line raises. */
  function Gather(outs: seq<LineOutcome>): (r: Option<seq<string>>)
    ensures r.Some? ==> |r.value| <= |outs|
  {
    if outs == [] then Some([])
    else
      match Gather(outs[..|outs| - 1])
      case None => None
      case Some(urls) =>
        match outs[|outs| - 1]
        case Skipped => Some(urls)
        case Entry(host) => Some(urls + [host])
        case OutOfBounds => None
  }

  function CollectUrls(data: seq<string>): (r: Option<seq<string>>)
  {
    Gather(LineOutcomes(data))
  }

  function ParseUrlSpec(lines: seq<string>): Option<seq<string>>
  {
    CollectUrls(DataLines(lines))
  }

  /** Util.parseUrl: skip the header, then keep the cleaned second column of
      every line that has one. None stands for the exception that escapes
      when a column is too short. */
  method ParseUrl(lines: seq<string>) returns (urls: Option<seq<string>>)
    ensures urls == ParseUrlSpec(lines)
  {
    var acc: seq<string> := [];
    if |lines| == 0 {
      return Some(acc);
    }
    ghost var outs := LineOutcomes(lines[1..]);
    var i := 1;
    while i < |lines|
      invariant 1 <= i <= |lines|
      invariant Gather(outs[..i - 1]) == Some(acc)
    {
      LineOutcomesAt(lines[1..], i - 1);
      GatherStep(outs, i - 1);
      var columns := Strings.JavaSplit(lines[i], SEP);
      if |columns| > 1 {
        var url := Strings.Trim(columns[1]);
        if !WellFormedColumn(url) {
          GatherStaysNone(outs, i);
          return None;
        }
        acc := acc + [ExtractHost(url)];
      }
      i := i + 1;
    }
    assert outs[..i - 1] == outs;
    urls := Some(acc);
  }

  /** Gathering one more outcome. */
  lemma GatherStep(outs: seq<LineOutcome>, j: int)
    requires 0 <= j < |outs|
    ensures Gather(outs[..j + 1]) ==
      match Gather(outs[..j])
      case None => None
      case Some(urls) =>
        match outs[j]
        case Skipped => Some(urls)
        case Entry(host) => Some(urls + [host])
        case OutOfBounds => None
  {
    assert outs[..j + 1][..j] == outs[..j];
  }

  /** Once a prefix fails, the whole run fails. */
  lemma GatherStaysNone(outs: seq<LineOutcome>, j: int)
    requires 0 <= j <= |outs| && Gather(outs[..j]) == None
    ensures Gather(outs) == None
  {
    GatherConcat(outs[..j], outs[j..]);
    assert outs[..j] + outs[j..] == outs;
  }

  lemma {:induction false} LineOutcomesConcat(a: seq<string>, b: seq<string>)
    ensures LineOutcomes(a + b) == LineOutcomes(a) + LineOutcomes(b)
    decreases |b|
  {
    if b == [] {
      assert a + b == a;
    } else {
      var b' := b[..|b| - 1];
      LineOutcomesConcat(a, b');
      assert (a + b)[..|a + b| - 1] == a + b';
      assert (a + b)[|a + b| - 1] == b[|b| - 1];
    }
  }

  lemma {:induction false} GatherConcat(a: seq<LineOutcome>, b: seq<LineOutcome>)
    ensures Gather(a + b) ==
      if Gather(a).Some? && Gather(b).Some? then Some(Gather(a).value + Gather(b).value) else None
    decreases |b|
  {
    if b == [] {
      assert a + b == a;
      if Gather(a).Some? {
        assert Gather(a).value + [] == Gather(a).value;
      }
    } else {
      var b', last := b[..|b| - 1], b[|b| - 1];
      GatherConcat(a, b');
      assert (a + b)[..|a + b| - 1] == a + b';
      assert (a + b)[|a + b| - 1] == last;
      if Gather(a).Some? && Gather(b').Some? && last.Entry? {
        var x, y := Gather(a).value, Gather(b').value;
        assert x + (y + [last.host]) == (x + y) + [last.host];
      }
    }
  }

  /** Data lines are read independently and their hosts kept in order:
      parsing two runs of lines is parsing each and concatenating. */
  lemma CollectConcat(a: seq<string>, b: seq<string>)
    ensures CollectUrls(a + b) ==
      if CollectUrls(a).Some? && CollectUrls(b).Some? then Some(CollectUrls(a).value + CollectUrls(b).value)
      else None
  {
    LineOutcomesConcat(a, b);
    GatherConcat(LineOutcomes(a), LineOutcomes(b));
  }

  lemma {:induction false} LineOutcomesAt(data: seq<string>, i: int)
    requires 0 <= i < |data|
    ensures LineOutcomes(data)[i] == ParseDataLine(data[i])
  {
    if i < |data| - 1 {
      LineOutcomesAt(data[..|data| - 1], i);
    }
  }

  lemma {:induction false} GatherFailsIff(outs: seq<LineOutcome>)
    ensures Gather(outs).None? <==> exists i :: 0 <= i < |outs| && outs[i].OutOfBounds?
  {
    if outs != [] {
      var init := outs[..|outs| - 1];
      GatherFailsIff(init);
      if exists i :: 0 <= i < |init| && init[i].OutOfBounds? {
        var i :| 0 <= i < |init| && init[i].OutOfBounds?;
        assert outs[i] == init[i];
      }
      if exists i :: 0 <= i < |outs| && outs[i].OutOfBounds? {
        var i :| 0 <= i < |outs| && outs[i].OutOfBounds?;
        if i < |init| { assert init[i] == outs[i]; }
      }
    }
  }

  /** Parsing fails exactly when some data line has a column that is too
      short; otherwise there is at most one host per line. */
  lemma CollectFailsIff(data: seq<string>)
    ensures CollectUrls(data).None? <==> exists i :: 0 <= i < |data| && ParseDataLine(data[i]).OutOfBounds?
    ensures CollectUrls(data).Some? ==> |CollectUrls(data).value| <= |data|
  {
    GatherFailsIff(LineOutcomes(data));
    forall i | 0 <= i < |data| ensures LineOutcomes(data)[i] == ParseDataLine(data[i]) {
      LineOutcomesAt(data, i);
    }
  }

  /** The header alone, or nothing at all, yields an empty list. */
  lemma HeaderOnly(lines: seq<string>)
    requires |lines| <= 1
    ensures ParseUrlSpec(lines) == Some([])
  {
  }

  function Quoted(s: string): string {
    ['"'] + s + ['"']
  }

  /** Stripping the quotes gives back a host that does not end in a slash. */
  lemma ExtractQuoted(host: string)
    requires host == [] || host[|host| - 1] != '/'
    ensures WellFormedColumn(Quoted(host)) && ExtractHost(Quoted(host)) == host
  {
    assert Quoted(host)[1..|host| + 1] == host;
  }

  /** Exactly one slash before the closing quote is dropped. */
  lemma ExtractQuotedSlash(host: string)
    ensures WellFormedColumn(Quoted(host + "/")) && ExtractHost(Quoted(host + "/")) == host
  {
    assert Quoted(host + "/")[1..|host| + 1] == host;
  }

  /** With a non-empty second field, String.split keeps it in place. */
  lemma SecondColumn(rank: string, col: string, rest: string)
    requires SEP !in rank && SEP !in col && col != []
    ensures var columns := Strings.JavaSplit(rank + [SEP] + col + [SEP] + rest, SEP);
      |columns| > 1 && columns[1] == col
  {
    var line := rank + [SEP] + col + [SEP] + rest;
    assert line == rank + [SEP] + (col + [SEP] + rest);
    Strings.SplitAllAfterField(rank, col + [SEP] + rest, SEP);
    Strings.SplitAllAfterField(col, rest, SEP);
    var fields := Strings.SplitAll(line, SEP);
    assert fields[1] == col;
    assert SEP in line by { assert line[|rank|] == SEP; }
    assert fields[1] != [];
  }

  /** A quoted host column comes out as the bare host. */
  lemma QuotedColumn(host: string, slash: bool)
    requires !slash ==> host == [] || host[|host| - 1] != '/'
    ensures var col := Quoted(host + (if slash then "/" else ""));
      Strings.Trim(col) == col && WellFormedColumn(col) && ExtractHost(col) == host
  {
    var col := Quoted(host + (if slash then "/" else ""));
    Strings.TrimVisibleEnds(col);
    if slash { ExtractQuotedSlash(host); } else { assert host + "" == host; ExtractQuoted(host); }
  }

  /** A line of the seed list, `rank,"host",...` or `rank,"host/",...`,
      contributes its bare host. */
  lemma CsvRowGivesHost(rank: string, host: string, slash: bool, rest: string)
    requires SEP !in rank && SEP !in host
    requires !slash ==> host == [] || host[|host| - 1] != '/'
    ensures ParseDataLine(rank + [SEP] + Quoted(host + (if slash then "/" else "")) + [SEP] + rest) == Entry(host)
  {
    var col := Quoted(host + (if slash then "/" else ""));
    assert SEP !in col;
    SecondColumn(rank, col, rest);
    QuotedColumn(host, slash);
  }

  /** The two data lines of UtilTest.test_parseUrl_multiLines. */
  lemma FacebookRow(line: string)
    requires line == "1,\"facebook.com/\",120"
    ensures ParseDataLine(line) == Entry("facebook.com")
  {
    assert line == "1" + [SEP] + Quoted("facebook.com" + "/") + [SEP] + "120";
    CsvRowGivesHost("1", "facebook.com", true, "120");
  }

  lemma GoogleRow(line: string)
    requires line == "1,\"google.com\",120"
    ensures ParseDataLine(line) == Entry("google.com")
  {
    assert line == "1" + [SEP] + Quoted("google.com" + "") + [SEP] + "120";
    CsvRowGivesHost("1", "google.com", false, "120");
  }

  /** A single data line contributes exactly its entry. */
  lemma CollectOne(line: string, host: string)
    requires ParseDataLine(line) == Entry(host)
    ensures CollectUrls([line]) == Some([host])
  {
    assert [line][..0] == [];
    assert LineOutcomes([line]) == [Entry(host)];
    assert [Entry(host)][..0] == [];
    assert Gather([]) == Some([]);
    assert Gather([Entry(host)]) == Some([] + [host]);
    assert [] + [host] == [host];
  }

  /** A header and two data lines that each yield a host. */
  lemma ParseTwoRows(header: string, l1: string, h1: string, l2: string, h2: string)
    requires ParseDataLine(l1) == Entry(h1) && ParseDataLine(l2) == Entry(h2)
    ensures ParseUrlSpec([header, l1, l2]) == Some([h1, h2])
  {
    CollectOne(l1, h1);
    CollectOne(l2, h2);
    CollectConcat([l1], [l2]);
    assert DataLines([header, l1, l2]) == [l1] + [l2];
    assert CollectUrls([l1] + [l2]) == Some([h1] + [h2]);
    assert [h1] + [h2] == [h1, h2];
  }

  /** The reader of UtilTest.test_parseUrl_multiLines. */
  lemma ParseUrlExample(reader: seq<string>)
    requires reader == ["header", "1,\"facebook.com/\",120", "1,\"google.com\",120"]
    ensures ParseUrlSpec(reader) == Some(["facebook.com", "google.com"])
  {
    var l1, l2 := reader[1], reader[2];
    FacebookRow(l1);
    GoogleRow(l2);
    ParseTwoRows(reader[0], l1, "facebook.com", l2, "google.com");
    assert reader == [reader[0], l1, l2];
  }

  // ---------------------------------------------------------------------
  // writeLine

  /** Util.writeLine: `url, RESULT, message-or-empty` and a newline. */
  function WriteLine(r: MatchResult): (line: string)
  {
    r.url + ", " + Name(r.result) + ", " + r.errorMessage.GetOr("") + "\n"
  }

  /** A result line read back into its three fields. */
  datatype Row = Row(url: string, result: Result, message: string)

  function ReadRow(line: string): Option<Row>
  {
    if line == [] || line[|line| - 1] != '\n' then None
    else
      var fields := Strings.SplitAll(line[..|line| - 1], SEP);
      if |fields| != 3 || fields[1] == [] || fields[1][0] != ' ' || fields[2] == [] || fields[2][0] != ' ' then None
      else
        match FromName(fields[1][1..])
        case None => None
        case Some(result) => Some(Row(fields[0], result, fields[2][1..]))
  }

  /** The written line is its three fields joined by commas, the second and
      third led by a space. */
  lemma WriteLineFields(r: MatchResult)
    ensures WriteLine(r) ==
      Strings.Join([r.url, [' '] + Name(r.result), [' '] + r.errorMessage.GetOr("")], SEP) + "\n"
  {
    var name, msg := Name(r.result), r.errorMessage.GetOr("");
    var fields := [r.url, [' '] + name, [' '] + msg];
    Strings.JoinThree(fields, SEP);
    assert ", " == [SEP] + [' '];
    assert r.url + ", " + name == r.url + [SEP] + ([' '] + name);
    assert r.url + ", " + name + ", " + msg == r.url + [SEP] + ([' '] + name) + [SEP] + ([' '] + msg);
  }

  lemma NameHasNoSep(res: Result)
    ensures SEP !in Name(res)
  {
    match res
    case Match =>
    case NotMatch =>
    case Exception =>
  }

  /** Every line written reads back as the url, the classification and the
      message (empty when absent), provided neither text holds a comma. */
  lemma WriteThenRead(r: MatchResult)
    requires SEP !in r.url && SEP !in r.errorMessage.GetOr("")
    ensures ReadRow(WriteLine(r)) == Some(Row(r.url, r.result, r.errorMessage.GetOr("")))
  {
    var name, msg := Name(r.result), r.errorMessage.GetOr("");
    var fields := [r.url, [' '] + name, [' '] + msg];
    var line := WriteLine(r);
    WriteLineFields(r);
    assert line[..|line| - 1] == Strings.Join(fields, SEP);
    NameHasNoSep(r.result);
    Strings.SplitJoin(fields, SEP);
    assert ([' '] + name)[1..] == name;
    assert ([' '] + msg)[1..] == msg;
  }

  /** Conversely, every line that reads back is the line written for that
      row's result. */
  lemma ReadRowFields(line: string, row: Row)
    requires ReadRow(line) == Some(row)
    ensures line != [] && line[|line| - 1] == '\n'
    ensures Strings.SplitAll(line[..|line| - 1], SEP) == [row.url, [' '] + Name(row.result), [' '] + row.message]
  {
    var fields := Strings.SplitAll(line[..|line| - 1], SEP);
    assert |fields| == 3 && fields[1] != [] && fields[1][0] == ' ' && fields[2] != [] && fields[2][0] == ' ';
    assert FromName(fields[1][1..]) == Some(row.result);
    assert fields[1][1..] == Name(row.result);
    assert row.url == fields[0] && row.message == fields[2][1..];
    assert fields[1] == [' '] + fields[1][1..];
    assert fields[2] == [' '] + fields[2][1..];
    assert fields == [fields[0], fields[1], fields[2]];
  }

  lemma ReadThenWrite(line: string, row: Row)
    requires ReadRow(line) == Some(row)
    ensures line == WriteLine(MatchResult(row.url, row.result, if row.message == [] then None else Some(row.message)))
  {
    ReadRowFields(line, row);
    var body := line[..|line| - 1];
    Strings.JoinSplit(body, SEP);
    var r := MatchResult(row.url, row.result, if row.message == [] then None else Some(row.message));
    assert r.errorMessage.GetOr("") == row.message;
    WriteLineFields(r);
    assert line == body + "\n";
  }

  /** The writer call of UtilTest.test_writeLine. */
  lemma WriteLineExample()
    ensures WriteLine(NewMatchResultWithError("test.com", NotMatch, "error")) == "test.com, NOT_MATCH, error\n"
  {
  }

  // ---------------------------------------------------------------------
  // partition

  /** Util.partition: no batches for a non-positive size; otherwise the list
      cut into runs of batchSize. */
  method Partition(urls: seq<string>, batchSize: int) returns (batches: seq<seq<string>>)
    ensures batchSize <= 0 || urls == [] ==> batches == []
    ensures batchSize > 0 ==> Batches.IsBatching(batches, urls, batchSize)
  {
    batches := [];
    if batchSize > 0 {
      batches := Batches.Chunk(urls, batchSize);
      if urls == [] {
        Batches.NoItemsNoBatches(batches, batchSize);
      }
    }
  }

  /** UtilTest.test_partition_partial: the only batching of a, b, c by two. */
  lemma PartitionPartialExample(batches: seq<seq<string>>)
    requires Batches.IsBatching(batches, ["a", "b", "c"], 2)
    ensures batches == [["a", "b"], ["c"]]
  {
    var expected := [["a", "b"], ["c"]];
    assert Batches.Flatten(expected) == ["a", "b", "c"] by {
      assert expected[..1] == [["a", "b"]];
      assert [["a", "b"]][..0] == [];
    }
    Batches.BatchingUnique(batches, expected, ["a", "b", "c"], 2);
  }

  // ---------------------------------------------------------------------
  // convertInputStream

  /** The stream wrapper chosen for a Content-Encoding header; the
      decompressors themselves are library code. */
  datatype Decoder = Gzip | RawInflate | PassThrough

  /** A missing header (null) passes the stream through. */
  function SelectDecoder(encoding: Option<string>): (d: Decoder)
    ensures d == Gzip <==>
      && encoding.Some? && |encoding.value| == 4
      && forall i :: 0 <= i < 4 ==> Strings.ToLower(encoding.value[i]) == "gzip"[i]
    ensures d == RawInflate <==>
      && encoding.Some? && |encoding.value| == 7
      && forall i :: 0 <= i < 7 ==> Strings.ToLower(encoding.value[i]) == "deflate"[i]
  {
    if encoding.Some? && Strings.EqualsIgnoreCase("gzip", encoding.value) then Gzip
    else if encoding.Some? && Strings.EqualsIgnoreCase("deflate", encoding.value) then RawInflate
    else PassThrough
  }

  /** The tags match in any letter case; anything else passes through. */
  lemma SelectDecoderExamples()
    ensures SelectDecoder(Some("GZip")) == Gzip
    ensures SelectDecoder(Some("DEFLATE")) == RawInflate
    ensures SelectDecoder(Some("br")) == PassThrough
    ensures SelectDecoder(None) == PassThrough
  {
    assert Strings.EqualsIgnoreCase("gzip", "GZip");
    assert Strings.EqualsIgnoreCase("deflate", "DEFLATE");
  }
}
