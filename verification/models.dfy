/** The result record of one URL check: models/MatchResult.java.
    The Java class assigns its fields only in its constructors and exposes
    them through getters, so it is a value here. */
module Models {

  /** java.util.Optional */
  datatype Option<+T> = None | Some(value: T) {
    /** Optional.orElse */
    function GetOr(default: T): (v: T)
      ensures this.Some? ==> v == this.value
      ensures this.None? ==> v == default
    {
      match this
      case Some(v) => v
      case None => default
    }
  }

  /** MatchResult.Result: the three classifications of a URL. */
  datatype Result = Match | NotMatch | Exception

  /** Enum.name(): the spelling the result writer emits. */
  function Name(r: Result): (s: string)
    ensures |s| >= 5
    ensures forall i :: 0 <= i < |s| ==> 'A' <= s[i] <= 'Z' || s[i] == '_'
  {
    match r
    case Match => "MATCH"
    case NotMatch => "NOT_MATCH"
    case Exception => "EXCEPTION"
  }

  /** Enum.valueOf, with an absent value where Java throws. */
  function FromName(s: string): (r: Option<Result>)
    ensures forall res :: r == Some(res) <==> s == Name(res)
  {
    if s == "MATCH" then Some(Match)
    else if s == "NOT_MATCH" then Some(NotMatch)
    else if s == "EXCEPTION" then Some(Exception)
    else None
  }

  /** A result never changes after creation: its getters are its fields. */
  datatype MatchResult = MatchResult(url: string, result: Result, errorMessage: Option<string>)

  /** The two-argument constructor: no error message. */
  function NewMatchResult(url: string, result: Result): (m: MatchResult)
    ensures m.url == url && m.result == result
    ensures m.errorMessage == None
  {
    MatchResult(url, result, None)
  }

  /** The three-argument constructor: the error message is present. */
  function NewMatchResultWithError(url: string, result: Result, errorMessage: string): (m: MatchResult)
    ensures m.url == url && m.result == result
    ensures m.errorMessage == Some(errorMessage)
  {
    MatchResult(url, result, Some(errorMessage))
  }

  /** Distinct classifications have distinct names. */
  lemma NameInjective(a: Result, b: Result)
    ensures Name(a) == Name(b) ==> a == b
  {
    if Name(a) == Name(b) {
      assert FromName(Name(a)) == Some(a);
    }
  }
}
