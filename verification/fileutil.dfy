/** utils/FileUtil.java: the later home of the URL-list parser and the
    result writer. Its parseUrl and writeLine are the same code as Util's,
    so they are stated against Util's definitions. */
module FileUtil {
  import opened Models
  import Util

  /** FileUtil.parseUrl: the header is skipped and every data line with a
      second column contributes its cleaned host, in order. */
  method ParseUrl(lines: seq<string>) returns (urls: Option<seq<string>>)
    ensures urls == Util.ParseUrlSpec(lines)
    ensures |lines| <= 1 ==> urls == Some([])
  {
    urls := Util.ParseUrl(lines);
  }

  /** FileUtil.writeLine: the line Util.writeLine produces. */
  function WriteLine(r: MatchResult): (line: string)
    ensures line == Util.WriteLine(r)
  {
    r.url + ", " + Name(r.result) + ", " + r.errorMessage.GetOr("") + "\n"
  }

  /** The writer call of FileUtilTest.test_writeLine. */
  lemma WriteLineExample()
    ensures WriteLine(NewMatchResultWithError("test.com", NotMatch, "error")) == "test.com, NOT_MATCH, error\n"
  {
  }

  /** The reader of FileUtilTest.test_parseUrl_skipHeader. */
  lemma ParseUrlSkipHeaderExample(reader: seq<string>)
    requires reader == ["header", "1,\"facebook.com/\",120"]
    ensures Util.ParseUrlSpec(reader) == Some(["facebook.com"])
  {
    Util.FacebookRow(reader[1]);
    Util.CollectOne(reader[1], "facebook.com");
    assert Util.DataLines(reader) == [reader[1]];
  }
}
