# website-searcher, modelled in Dafny

website-searcher reads a list of hostnames from a CSV-like resource. For each host it fetches the home page, HTTPS first and HTTP only when HTTPS fails. It hands the decoded page to a predicate line by line and classifies the host as `MATCH`, `NOT_MATCH` or `EXCEPTION`. It writes one result line per host and returns a count per classification. The driver (`Svc`) cuts the list into batches of 20, runs each batch and adds the batch counts into one report.

The model has eight modules, one file each:

- `models.dfy`, module `Models`: `MatchResult` and its `Result` enum, as values.
- `strings.dfy`, module `Strings`: the `java.lang.String` behaviour the parser and writer rely on: `split` on one character (trailing empty fields dropped), `trim`, and `equalsIgnoreCase`.
- `batches.dfy`, module `Batches`: the nested partition loop shared by `Util.partition` and `Svc.partition`, as an imperative method, with its specification `IsBatching`.
- `report.dfy`, module `Report`: the classification count maps: counting (`Tally`), merging (`Merged`), totals.
- `util.dfy`, module `Util`:
  - `parseUrl` as a loop over the reader's lines, specified by a line-by-line function.
  - `writeLine`, with a reader that inverts it.
  - `partition`.
  - The choice of decoder in `convertInputStream`.
- `fileutil.dfy`, module `FileUtil`: `FileUtil`'s copies of `parseUrl` and `writeLine`, stated against `Util`'s.
- `searcher.dfy`, module `Searcher`: `WebSearchProcessor` as a class.
  - Its fields are the in-flight counter, the counts of connections obtained and released, the report map and the lines written. Two ghost fields record each URL passed to `connectUrl` and each line shown to the predicate.
  - `matchUrl`, `processUrl`, `Task.run` and a one-task-at-a-time `process` are methods.
  - Each method is proved against the functions `Scan`, `Resolve` and `Counts`, and against the per-host effects `Requests`, `Connections` and `ProbedLines`.
- `svc.dfy`, module `Svc`: `BATCH_SIZE`, `Svc.partition`, and the batch loop of `main` with its report merge.

The network is a parameter `net: string -> Attempt`. Given a full URL, it says whether the connect throws, or which lines the decoded body yields and whether the stream ends or breaks off. The page predicate is a parameter `criteria: string -> bool`. A `BufferedReader` is the sequence of lines its `readLine` returns before `null`. The `BufferedWriter` is the `written` sequence of the processor.

Two behaviours of the code that the model keeps:
- Output header: the driver writes `url, result, error_message` and a newline (`Svc.java:45`).
- HTTP fallback: HTTP is tried only after the HTTPS attempt throws (`WebSearchProcessor.java:82-99`). An HTTPS page read to its end without a matching line gives `NOT_MATCH` with no HTTP request.

## Model

| member | source | states |
|---|---|---|
| Models.NewMatchResult | src/main/java/com/website/searcher/models/MatchResult.java:10-14 | the two-argument constructor keeps url and result and has no error message |
| Models.NewMatchResultWithError | src/main/java/com/website/searcher/models/MatchResult.java:16-20 | the three-argument constructor keeps url, result and a present error message |
| Models.FromName | src/main/java/com/website/searcher/models/MatchResult.java:22-26 | a string names a classification exactly when it is that classification's enum name |
| Models.NameInjective | src/main/java/com/website/searcher/models/MatchResult.java:22-26 | distinct classifications have distinct names |
| Models.Name | src/main/java/com/website/searcher/utils/Util.java:50 | the enum name of a classification: at least five characters, all upper-case letters or underscores |
| Models.Option.GetOr | src/main/java/com/website/searcher/utils/Util.java:51 | `orElse`: the value when present, the default when absent |
| Strings.SplitAll | src/main/java/com/website/searcher/utils/Util.java:35 | splitting yields at least one field and no field contains the separator |
| Strings.DropTrailingEmpty | src/main/java/com/website/searcher/utils/Util.java:35 | the kept fields are a prefix, end in a non-empty field, and only empty fields are dropped |
| Strings.JavaSplit | src/main/java/com/website/searcher/utils/Util.java:35 | no column holds a comma; a line without a comma is one column, even when empty; with a comma, the last column is non-empty (or there is none), and the columns with the dropped empty fields put back join to the line |
| Strings.TrimStart | src/main/java/com/website/searcher/utils/Util.java:38 | the result is a suffix that starts with a visible character, and everything removed is at most U+0020 |
| Strings.TrimEnd | src/main/java/com/website/searcher/utils/Util.java:38 | the result is a prefix that ends with a visible character, and everything removed is at most U+0020 |
| Strings.SplitJoin | src/main/java/com/website/searcher/utils/Util.java:35 | splitting the comma-joined fields gives the fields back, when no field holds a comma |
| Strings.JoinSplit | src/main/java/com/website/searcher/utils/Util.java:35 | joining the split fields with commas gives the line back |
| Strings.SplitAllAfterField | src/main/java/com/website/searcher/utils/Util.java:35 | a comma after a comma-free prefix closes the first field |
| Strings.TrimVisibleEnds | src/main/java/com/website/searcher/utils/Util.java:38 | trim leaves a string with visible first and last characters unchanged |
| Strings.Trim | src/main/java/com/website/searcher/utils/Util.java:38 | the result is the contiguous part of the string after its leading characters at most U+0020; everything after the result is at most U+0020; a non-empty result starts and ends with a character above U+0020 |
| Strings.JavaSplitRejoins | src/main/java/com/website/searcher/utils/Util.java:35 | the columns followed by the dropped empty fields, joined by commas, give the line back |
| Strings.EqualsIgnoreCase | src/main/java/com/website/searcher/utils/Util.java:80-82 | true exactly when both strings have the same length and agree character by character after ASCII lower-casing |
| Util.ExtractHost | src/main/java/com/website/searcher/utils/Util.java:39-40 | the host is the column without its first character and its last one or two; two exactly when a slash precedes the closing quote |
| Util.Gather | src/main/java/com/website/searcher/utils/Util.java:34-42 | a successful parse has at most one host per data line |
| Util.ParseUrl | src/main/java/com/website/searcher/utils/Util.java:29-45 | the loop returns what the line-by-line specification gives: the header skipped, one host per line with a second column, none on an index error |
| Util.CollectFailsIff | src/main/java/com/website/searcher/utils/Util.java:38-40 | parsing fails exactly when some data line has a second column too short for `charAt`/`substring`; otherwise at most one host per line |
| Util.CollectConcat | src/main/java/com/website/searcher/utils/Util.java:34-42 | lines are parsed independently: parsing two runs of lines is parsing each and concatenating the hosts |
| Util.GatherConcat | src/main/java/com/website/searcher/utils/Util.java:34-42 | gathering two runs of outcomes concatenates their hosts, or fails if either fails |
| Util.GatherFailsIff | src/main/java/com/website/searcher/utils/Util.java:34-42 | gathering fails exactly when some outcome is an index error |
| Util.ParseDataLine | src/main/java/com/website/searcher/utils/Util.java:35-41 | a data line is skipped exactly when it splits into at most one column, in particular when it has no comma; a host taken from it holds no comma |
| Util.LineOutcomesAt | src/main/java/com/website/searcher/utils/Util.java:34-42 | the i-th outcome is that of the i-th data line |
| Util.HeaderOnly | src/test/java/com/website/searcher/utils/UtilTest.java:27-33 | no lines, or the header alone, give an empty list |
| Util.CsvRowGivesHost | src/main/java/com/website/searcher/utils/Util.java:35-40 | a row `rank,"host",...` or `rank,"host/",...` yields the bare host, one trailing slash stripped |
| Util.SecondColumn | src/main/java/com/website/searcher/utils/Util.java:35-37 | a row with a non-empty second field has that field as its second column |
| Util.QuotedColumn | src/main/java/com/website/searcher/utils/Util.java:38-40 | a quoted host column is left alone by trim, is long enough, and gives back the host |
| Util.ExtractQuoted | src/main/java/com/website/searcher/utils/Util.java:39-40 | stripping the quotes of a host without a trailing slash gives the host |
| Util.ExtractQuotedSlash | src/main/java/com/website/searcher/utils/Util.java:39-40 | exactly one slash before the closing quote is dropped |
| Util.FacebookRow | src/test/java/com/website/searcher/utils/UtilTest.java:37-44 | the row `1,"facebook.com/",120` yields `facebook.com` |
| Util.GoogleRow | src/test/java/com/website/searcher/utils/UtilTest.java:48-60 | the row `1,"google.com",120` yields `google.com` |
| Util.CollectOne | src/main/java/com/website/searcher/utils/Util.java:34-42 | a single data line contributes exactly its host |
| Util.ParseTwoRows | src/main/java/com/website/searcher/utils/Util.java:32-42 | a header and two rows give the two hosts in order |
| Util.ParseUrlExample | src/test/java/com/website/searcher/utils/UtilTest.java:48-60 | the header and the facebook and google rows give `["facebook.com", "google.com"]` |
| Util.WriteThenRead | src/main/java/com/website/searcher/utils/Util.java:47-52 | every written line reads back as the url, the enum name and the message or the empty string, when neither text holds a comma |
| Util.ReadThenWrite | src/main/java/com/website/searcher/utils/Util.java:47-52 | every line that reads back as a row is exactly the line written for that row's result |
| Util.ReadRowFields | src/main/java/com/website/searcher/utils/Util.java:47-52 | a line that reads back is newline-terminated and splits into the url, a space and the name, and a space and the message |
| Util.WriteLineFields | src/main/java/com/website/searcher/utils/Util.java:48-51 | the written line is the three fields joined by commas, the second and third led by a space, then a newline |
| Util.NameHasNoSep | src/main/java/com/website/searcher/models/MatchResult.java:22-26 | no classification name holds a comma |
| Util.WriteLineExample | src/test/java/com/website/searcher/utils/UtilTest.java:64-70 | the error result of `test.com` is written as `test.com, NOT_MATCH, error` and a newline |
| Util.Partition | src/main/java/com/website/searcher/utils/Util.java:54-68 | no batches when the size is not positive or the list is empty; otherwise the list cut into full batches of the size and a final, possibly shorter one |
| Util.PartitionPartialExample | src/test/java/com/website/searcher/utils/UtilTest.java:85-90 | the only batching of a, b, c by two is [a, b], [c] |
| Util.SelectDecoder | src/main/java/com/website/searcher/utils/Util.java:77-88 | gzip exactly when the tag is present and is "gzip" letter for letter after ASCII lower-casing; raw inflate exactly when it is "deflate" in the same sense; otherwise pass-through, also when the tag is absent |
| Util.SelectDecoderExamples | src/main/java/com/website/searcher/utils/Util.java:80-86 | "GZip" and "DEFLATE" are recognised, "br" and a missing tag pass through |
| FileUtil.ParseUrl | src/main/java/com/website/searcher/utils/FileUtil.java:25-41 | the same result as Util's parser; the header alone gives an empty list |
| FileUtil.WriteLine | src/main/java/com/website/searcher/utils/FileUtil.java:43-48 | the same line as Util's writer |
| FileUtil.WriteLineExample | src/test/java/com/website/searcher/utils/FileUtilTest.java:61-68 | `test.com, NOT_MATCH, error` and a newline |
| FileUtil.ParseUrlSkipHeaderExample | src/test/java/com/website/searcher/utils/FileUtilTest.java:34-43 | the header is skipped and `facebook.com/` loses its slash |
| Batches.Chunk | src/main/java/com/website/searcher/utils/Util.java:58-64 | the batches laid end to end are the list; each holds 1 to size items; all but the last hold exactly size |
| Batches.FlattenConcat | src/main/java/com/website/searcher/utils/Util.java:58-64 | laying two runs of batches end to end concatenates their items |
| Batches.FlattenAtLeast | src/main/java/com/website/searcher/utils/Util.java:58-64 | non-empty batches hold at least as many items as there are batches |
| Batches.NoItemsNoBatches | src/test/java/com/website/searcher/utils/UtilTest.java:72-76 | an empty list has no batches |
| Batches.FirstBatch | src/main/java/com/website/searcher/utils/Util.java:60-62 | the first batch is the first size items, or the whole list when shorter, and the rest is a batching of the remainder |
| Batches.BatchCount | src/main/java/com/website/searcher/utils/Util.java:58-64 | n items by size give n / size batches rounded up |
| Batches.BatchingUnique | src/main/java/com/website/searcher/utils/Util.java:58-64 | the batching is determined by the list and the size |
| Report.Bump | src/main/java/com/website/searcher/WebSearchProcessor.java:159 | one more URL of a classification: that count up by one, present; every other count unchanged; total up by one |
| Report.Merged | src/main/java/com/website/searcher/Svc.java:52-54 | the keys of both maps, each count the sum of both counts, the total the sum of both totals |
| Report.Tally | src/main/java/com/website/searcher/WebSearchProcessor.java:159 | the counts of a run of classifications add up to its length |
| Report.TallySnoc | src/main/java/com/website/searcher/WebSearchProcessor.java:159 | counting one more classification after a run bumps that count |
| Report.TallyCounts | src/main/java/com/website/searcher/WebSearchProcessor.java:159 | each count is how often that classification occurs, and a key is present exactly when it occurs |
| Report.SameCounts | src/main/java/com/website/searcher/Svc.java:52-54 | two reports with the same keys and the same counts are equal |
| Report.TallyConcatAt | src/main/java/com/website/searcher/Svc.java:52-54 | per key, counting two runs apart and merging equals counting them together |
| Report.TallyConcat | src/main/java/com/website/searcher/Svc.java:47-55 | counting two runs apart and merging the counts equals counting them together |
| Report.Combined | src/main/java/com/website/searcher/Svc.java:47-55 | the merged report's total is the sum of the batch totals |
| Searcher.FirstHit | src/main/java/com/website/searcher/WebSearchProcessor.java:110-114 | the first line the predicate accepts, no accepted line before it, or the number of lines when none is accepted |
| Searcher.Scan | src/main/java/com/website/searcher/WebSearchProcessor.java:104-123 | matchUrl returns true only when some line is accepted, false only when the body is read to its end, and a throw carries the attempt's error message or none |
| Searcher.ScanMeaning | src/main/java/com/website/searcher/WebSearchProcessor.java:104-123 | matchUrl is true iff some line matches, false iff none matches and the stream ends, and throws otherwise with the attempt's error; the predicate sees a prefix of the lines, none after the first match |
| Searcher.Resolve | src/main/java/com/website/searcher/WebSearchProcessor.java:80-102 | the result keeps the host; it carries a message iff it is EXCEPTION; it is EXCEPTION iff both attempts threw |
| Searcher.Diagnostic | src/main/java/com/website/searcher/WebSearchProcessor.java:94-95 | the HTTP error message when it has one, else the HTTPS one, else "UNKNOWN"; never any other text |
| Searcher.Connections | src/main/java/com/website/searcher/WebSearchProcessor.java:80-123 | processUrl obtains at most one connection per URL it passes to connectUrl |
| Searcher.ResolveByCases | src/main/java/com/website/searcher/WebSearchProcessor.java:80-102 | an HTTPS page that matches gives MATCH, and one read to the end without a match gives NOT_MATCH, with no HTTP request. After an HTTPS failure HTTP is requested once; its match, miss or failure gives MATCH, NOT_MATCH or EXCEPTION with the HTTP message, else the HTTPS message, else "UNKNOWN" |
| Searcher.RetryWithHttpExample | src/test/java/com/website/searcher/WebSearchProcessorTest.java:64-88 | HTTPS connect fails, the HTTP page does not match: NOT_MATCH; connectUrl is called for the HTTPS and then the HTTP URL, and one connection is obtained and released |
| Searcher.ExceptionExample | src/test/java/com/website/searcher/WebSearchProcessorTest.java:90-102 | both connects fail without a message: EXCEPTION with "UNKNOWN"; connectUrl is called twice and no connection is obtained |
| Searcher.Classes | src/main/java/com/website/searcher/WebSearchProcessor.java:155-162 | one classification per URL |
| Searcher.ResultLines | src/main/java/com/website/searcher/WebSearchProcessor.java:155-167 | one written line per URL |
| Searcher.Counts | src/main/java/com/website/searcher/WebSearchProcessor.java:155-160 | the counts of the report add up to the number of URLs |
| Searcher.RequestBounds | src/main/java/com/website/searcher/WebSearchProcessor.java:80-102 | over a list, processUrl asks connectUrl for at least one and at most two URLs per host, and obtains no more connections than it asks for |
| Searcher.ClassesAt | src/main/java/com/website/searcher/WebSearchProcessor.java:155-162 | the i-th classification and the i-th written line are those of the i-th URL |
| Searcher.CountsMeaning | src/main/java/com/website/searcher/WebSearchProcessor.java:155-160 | each count is how many URLs got that classification, and a key is present iff some URL got it |
| Searcher.ClassesConcat | src/main/java/com/website/searcher/WebSearchProcessor.java:42-57 | URLs are classified independently of one another |
| Searcher.ResultLinesConcat | src/main/java/com/website/searcher/WebSearchProcessor.java:42-57 | the lines of two lists processed one after the other are the lines of each, in order |
| Searcher.FlatMapConcat | src/main/java/com/website/searcher/WebSearchProcessor.java:42-57 | the URLs requested and the lines probed for two lists processed one after the other are those of each list, in order |
| Searcher.SumOverConcat | src/main/java/com/website/searcher/WebSearchProcessor.java:42-57 | the connections obtained for two lists processed one after the other add up |
| Searcher.CountsConcat | src/main/java/com/website/searcher/WebSearchProcessor.java:42-57 | the report of two lists processed as one is the merge of their reports |
| Searcher.ProcessStep | src/main/java/com/website/searcher/WebSearchProcessor.java:155-167 | one more URL processed adds one to its classification's count and appends its line |
| Searcher.ProcessHttpsExample | src/test/java/com/website/searcher/WebSearchProcessorTest.java:35-62 | one matching and one non-matching HTTPS page give exactly MATCH 1 and NOT_MATCH 1 |
| Searcher.ProcessHttpsConnections | src/test/java/com/website/searcher/WebSearchProcessorTest.java:57-61 | the same run calls connectUrl twice and obtains, and so releases, two connections: `disconnect` is called twice |
| Searcher.WebSearchProcessor.constructor | src/main/java/com/website/searcher/WebSearchProcessor.java:24-26 | a fresh processor: nothing in flight, no connections, an empty report, nothing written, requested or probed |
| Searcher.WebSearchProcessor.MatchUrl | src/main/java/com/website/searcher/WebSearchProcessor.java:104-123 | returns Scan of the attempt. An opened connection is released exactly once and the counter restored; a connect that throws touches neither. The URL is requested once and the predicate sees exactly the probed prefix |
| Searcher.WebSearchProcessor.ReadUntilMatch | src/main/java/com/website/searcher/WebSearchProcessor.java:110-114 | stops at the first matching line, true iff there is one; the predicate sees the lines up to and including it, or all lines |
| Searcher.WebSearchProcessor.ProcessUrl | src/main/java/com/website/searcher/WebSearchProcessor.java:80-102 | returns Resolve. It requests the HTTPS URL, and the HTTP URL only after an HTTPS failure. The connections it obtains are those of the attempts it makes, and all are released. The predicate sees the lines read from the HTTPS page, then, after an HTTPS failure, those read from the HTTP page |
| Searcher.WebSearchProcessor.RunTask | src/main/java/com/website/searcher/WebSearchProcessor.java:155-167 | bumps the count of the URL's classification and writes its line. The URLs requested, the connections obtained and released, and the lines probed are processUrl's for that URL |
| Searcher.WebSearchProcessor.Process | src/main/java/com/website/searcher/WebSearchProcessor.java:35-72 | with a limit of at least one, or no URLs: a fresh report holding, per classification, the number of URLs that got it. The counts add up to the number of URLs, and one line per URL is written in order. The URLs requested and the lines probed are each URL's in list order; the connections obtained and released are the sum over the URLs. No in-flight count is left over |
| Svc.Partition | src/main/java/com/website/searcher/Svc.java:63-74 | the list cut into batches of BATCH_SIZE (20), the last possibly shorter; n URLs give n / 20 batches rounded up |
| Svc.MergeInto | src/main/java/com/website/searcher/Svc.java:52-54 | every key of the batch summary added into the report, key by key |
| Svc.BatchSummaries | src/main/java/com/website/searcher/Svc.java:47-55 | one summary per batch, the i-th being the report of the i-th batch |
| Svc.MergedBatches | src/main/java/com/website/searcher/Svc.java:47-55 | for any batching, the merged batch reports are the report of the whole list |
| Svc.Search | src/main/java/com/website/searcher/Svc.java:38-55 | after the header, the batched run writes the lines and returns the report of the whole list processed at once; the counts add up to the number of URLs. The URLs requested, the lines probed and the connections obtained and released are those of the whole list processed at once |

## Left out

- Network I/O is a parameter. `UrlUtil`, `Util.connectUrl`, `WebSearchProcessor.parseUrls` and the HTTP settings (redirects, timeout, Accept-Encoding) are not part of this model.
- Failures are attempts. `ConnectFailure(m)` is a `connectUrl` that throws: no connection is obtained. `Connected(Body(lines, ReadFailure(m)))` is a connection whose reading throws after `lines`: it is released. A failing `getInputStream` or decoder is `Connected(Body([], ReadFailure(m)))`.
- A malformed URL is not a separate case. In the source, `new URL` throws before `connectUrl` is called (`WebSearchProcessor.java:83,89`). The model treats such a URL as a `ConnectFailure`, so it is recorded in `requested` although the source never passes it to `connectUrl`.
- The network is a fixed mapping from URL to attempt, so two requests for the same URL get the same answer. A real network may answer differently.
- Decompression is library code. Only the choice of decoder is modelled; a decoder failure is a stream that breaks off.
- The page predicate (a case-insensitive regular expression in `Svc.main`) is an arbitrary pure function.
- Concurrency is not modelled: threads, `wait`/`notify`, `join`, `interrupt`, and the non-atomic read-then-put on the report map. `process` runs its tasks one after another in list order, so the written lines are in list order too. The model does not show that `concurrentHttpLimit` bounds the fetches in flight.
- Searcher.WebSearchProcessor.Process: requires a limit of at least one for a non-empty list. With a non-empty list and a limit of zero or less, the source's admission loop waits forever at the first URL. An empty list returns an empty report at any limit. Svc.Search has the same precondition.
- Closing the reader when `matchUrl` returns is not modelled, nor a `close` that throws.
- I/O errors of the writer (`Task.run` catches and logs them) and all console output are left out.
- `Svc.main` reading the list, opening the output file, catching errors and printing the report is left out. So are `Svc.printReport` and `main`'s constructor and three-argument `process` calls, which belong to another revision of `WebSearchProcessor`. The batch loop calls the four-argument `process` with the limit as a parameter.
- Counts are unbounded integers; `Integer` overflow after 2^31 URLs is not modelled.
- `equalsIgnoreCase` is modelled with ASCII case mapping only. Non-ASCII letters whose upper or lower case is an ASCII letter (for example U+0131, dotless i) are not folded.
- A Dafny `char` is a Unicode scalar value, while Java's `length` and `charAt` count UTF-16 code units. A character outside the Basic Multilingual Plane is one `char` here and two units in Java. For the column `a😀` the model extracts the empty host, while `Util.java:39-40` gives a lone high surrogate.
- Util.ParseUrl: an index error is the absent result. The source's exception carries no list, so nothing is lost. A `readLine` that throws partway through the file (`Util.java:34`, `FileUtil.java:30`) is not modelled: the reader is only the lines it returns before `null`. In the source that exception would leave no list, like the index error. The same holds for FileUtil.ParseUrl.
- Util.WriteThenRead: a message that is present but empty reads back like an absent one. The written line is the same for both.
