/**
 * The report server's reading of a request path (src/main.rs, PageHandler::handle):
 * the first path segment chooses how many of the most recent measurements to
 * show, and that choice becomes the text of the SELECT statement.
 */
module Routing {
  import opened Wrappers
  import opened Decimal

  /** The number of rows shown when the path names no window. */
  const DefaultRows: int := 600

  /** What a request asks for, decided by its first path segment alone. */
  datatype Intent =
    | DefaultWindow      // no segment, or an empty one
    | FullHistory        // the segment "all"
    | WindowOf(n: int)   // a segment that parses as an i32
    | Invalid            // anything else: answered with 404

  function Route(path: seq<string>): (intent: Intent)
    ensures intent == DefaultWindow <==> |path| == 0 || path[0] == ""
    ensures intent == FullHistory <==> |path| > 0 && path[0] == "all"
    ensures intent.WindowOf? <==> |path| > 0 && path[0] != "" && ParseI32(path[0]).Some?
    ensures intent.WindowOf? ==> InI32(intent.n) && ParseI32(path[0]) == Some(intent.n)
    ensures intent == Invalid <==> |path| > 0 && path[0] != "" && path[0] != "all" && ParseI32(path[0]).None?
  {
    if |path| > 0 && |path[0]| > 0 then
      if path[0] == "all" then FullHistory
      else match ParseI32(path[0])
        case Some(i) => WindowOf(i)
        case None => Invalid
    else DefaultWindow
  }

  /** Segments after the first never change the outcome. */
  lemma RouteIgnoresLaterSegments(path: seq<string>, rest: seq<string>)
    requires |path| > 0
    ensures Route(path + rest) == Route([path[0]])
  {
    assert (path + rest)[0] == path[0];
  }

  /**
   * A number outside the i32 range is not a window: with or without a sign,
   * it is answered with 404, like any text that is not a number.
   */
  lemma RouteOutOfRange(digits: string)
    requires |digits| > 0 && AllDigits(digits)
    ensures DigitsValue(digits) > I32Max ==> Route([digits]) == Invalid && Route(["+" + digits]) == Invalid
    ensures DigitsValue(digits) > -I32Min ==> Route(["-" + digits]) == Invalid
  {
    ParseDigits(digits);
    assert IsDigit(digits[0]);
  }

  /** The row limit of a request that is answered with a report; `None` means every row. */
  function Limit(intent: Intent): (limit: Option<int>)
    requires !intent.Invalid?
    ensures limit.None? <==> intent == FullHistory
    ensures intent == DefaultWindow ==> limit == Some(DefaultRows)
    ensures intent.WindowOf? ==> limit == Some(intent.n)
  {
    match intent
    case DefaultWindow => Some(DefaultRows)
    case FullHistory => None
    case WindowOf(n) => Some(n)
  }

  /** The fixed head of every report query, trailing blank included. */
  const SelectPrefix: string := "SELECT host, t, missing, latency_ms FROM pings ORDER BY t DESC "

  /** The statement text: the fixed head, then `LIMIT n` only when there is a limit. */
  function QueryText(limit: Option<int>): (sql: string)
  {
    SelectPrefix + match limit
      case Some(n) => "LIMIT " + IntText(n)
      case None => ""
  }

  /**
   * Reads the limit back out of a statement text: `Some(None)` for the bare
   * head, `Some(Some(n))` for the head followed by `LIMIT n`, `None` for any
   * other text.
   */
  function LimitOfQuery(sql: string): (limit: Option<Option<int>>)
  {
    if |sql| < |SelectPrefix| || sql[..|SelectPrefix|] != SelectPrefix then None
    else
      var tail := sql[|SelectPrefix|..];
      if tail == "" then Some(None)
      else if |tail| > 6 && tail[..6] == "LIMIT " then
        match ParseI32(tail[6..])
        case Some(n) => Some(Some(n))
        case None => None
      else None
  }

  /** Every statement starts with the fixed head, and the limit can be read back from it. */
  lemma QueryTextRoundTrip(limit: Option<int>)
    requires limit.Some? ==> InI32(limit.value)
    ensures |QueryText(limit)| >= |SelectPrefix| && QueryText(limit)[..|SelectPrefix|] == SelectPrefix
    ensures LimitOfQuery(QueryText(limit)) == Some(limit)
  {
    var sql := QueryText(limit);
    assert sql[..|SelectPrefix|] == SelectPrefix;
    match limit
    case None =>
      assert sql[|SelectPrefix|..] == "";
    case Some(n) =>
      ParseIntText(n);
      NatTextDigits(if n < 0 then -n else n);
      var tail := sql[|SelectPrefix|..];
      assert tail == "LIMIT " + IntText(n);
      assert tail[6..] == IntText(n);
  }

  /** Nothing follows the trailing blank exactly when there is no limit. */
  lemma QueryTextBareIffNoLimit(limit: Option<int>)
    requires limit.Some? ==> InI32(limit.value)
    ensures QueryText(limit) == SelectPrefix <==> limit.None?
  {
    QueryTextRoundTrip(limit);
    if QueryText(limit) == SelectPrefix {
      QueryTextRoundTrip(None);
    }
  }

  /** Different limits give different statements. */
  lemma QueryTextInjective(a: Option<int>, b: Option<int>)
    requires a.Some? ==> InI32(a.value)
    requires b.Some? ==> InI32(b.value)
    requires QueryText(a) == QueryText(b)
    ensures a == b
  {
    QueryTextRoundTrip(a);
    QueryTextRoundTrip(b);
  }

  /** The statement a request issues, for every request that is not answered with 404. */
  lemma RouteQuery(path: seq<string>)
    requires !Route(path).Invalid?
    ensures LimitOfQuery(QueryText(Limit(Route(path)))) ==
      if |path| == 0 || path[0] == "" then Some(Some(DefaultRows))
      else if path[0] == "all" then Some(None)
      else Some(ParseI32(path[0]))
  {
    QueryTextRoundTrip(Limit(Route(path)));
  }

  /** The four kinds of request, on sample paths. */
  lemma RouteExamples()
    ensures Route([]) == DefaultWindow && Route([""]) == DefaultWindow
    ensures Route(["all"]) == FullHistory && Route(["all", "x"]) == FullHistory
    ensures Route(["42"]) == WindowOf(42) && Route(["-5"]) == WindowOf(-5)
    ensures Route(["banana"]) == Invalid && Route(["+"]) == Invalid
  {
    assert DigitsValue("42") == 42 by {
      assert "42"[..1] == "4";
    }
    assert "-5"[1..] == "5";
  }
}
