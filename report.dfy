/**
 * The HTML report (src/main.rs, PageHandler::handle, the rendering loop):
 * a fixed head with the header row, one table row per result row in the
 * order given, and a fixed tail.
 */
module Report {
  import opened Store

  /**
   * The two renderings the program borrows from libraries: the `asctime`
   * text of a Unix time in the local time zone, and Rust's `{}` text of an
   * f64 latency.
   */
  datatype Formatters = Formatters(asctime: int -> string, latency: real -> string)

  /**
   * The fixed head: the document and table openings, then the header row
   * (one literal in the source).
   */
  const DocumentOpen: string := "<html><body><table border=\"1\">"
  const Head: string :=
    DocumentOpen + "<tr>" + HeaderCell("Hostname") + HeaderCell("Time") + HeaderCell("Ping") + "</tr>"
  const Tail: string := "</table></body></html>"
  const NoResponse: string := "NO RESPONSE"

  /** One header cell. */
  function HeaderCell(title: string): (html: string)
  {
    "<th>" + title + "</th>"
  }

  /** One table cell. */
  function Cell(content: string): (html: string)
  {
    "<td>" + content + "</td>"
  }

  /** What the third cell of a row shows. */
  function PingText(row: Row, fmt: Formatters): (text: string)
  {
    if row.missing then NoResponse else fmt.latency(row.latency) + " ms"
  }

  /** The table row of one result row: hostname, time, ping. */
  function RowHtml(row: Row, fmt: Formatters): (html: string)
  {
    "<tr>" + Cell(row.host) + Cell(fmt.asctime(row.t)) + Cell(PingText(row, fmt)) + "</tr>"
  }

  function RowsHtml(rows: seq<Row>, fmt: Formatters): (html: string)
  {
    if rows == [] then "" else RowHtml(rows[0], fmt) + RowsHtml(rows[1..], fmt)
  }

  /** The whole response body for the rows a query returned. */
  function ReportHtml(rows: seq<Row>, fmt: Formatters): (html: string)
  {
    Head + RowsHtml(rows, fmt) + Tail
  }

  /** Rendering distributes over concatenation of the input rows. */
  lemma {:induction false} RowsHtmlAppend(a: seq<Row>, b: seq<Row>, fmt: Formatters)
    ensures RowsHtml(a + b, fmt) == RowsHtml(a, fmt) + RowsHtml(b, fmt)
  {
    if a == [] {
      assert a + b == b;
    } else {
      assert (a + b)[0] == a[0];
      assert (a + b)[1..] == a[1..] + b;
      RowsHtmlAppend(a[1..], b, fmt);
    }
  }

  /** Rendering one more row appends that row's markup. */
  lemma ReportPrefixStep(rows: seq<Row>, i: nat, fmt: Formatters)
    requires i < |rows|
    ensures Head + RowsHtml(rows[..i + 1], fmt) == (Head + RowsHtml(rows[..i], fmt)) + RowHtml(rows[i], fmt)
  {
    assert rows[..i + 1] == rows[..i] + [rows[i]];
    RowsHtmlAppend(rows[..i], [rows[i]], fmt);
    assert RowsHtml([rows[i]], fmt) == RowHtml(rows[i], fmt) + RowsHtml([], fmt);
  }

  /** Pushing a row's pieces one by one appends that row's markup. */
  lemma RowPushes(before: string, row: Row, fmt: Formatters)
    ensures before + "<tr>" + Cell(row.host) + Cell(fmt.asctime(row.t)) + Cell(PingText(row, fmt)) + "</tr>"
         == before + RowHtml(row, fmt)
  {
  }

  /** The rendering loop: appends the head, each row's markup in turn, then the tail. */
  method RenderReport(rows: seq<Row>, fmt: Formatters) returns (text: string)
    ensures text == ReportHtml(rows, fmt)
  {
    text := "";
    text := text + Head;
    for i := 0 to |rows|
      invariant text == Head + RowsHtml(rows[..i], fmt)
    {
      var row := rows[i];
      ghost var before := text;
      text := text + "<tr>";
      text := text + Cell(row.host) + Cell(fmt.asctime(row.t));
      if row.missing {
        text := text + Cell(NoResponse);
      } else {
        text := text + Cell(fmt.latency(row.latency) + " ms");
      }
      text := text + "</tr>";
      RowPushes(before, row, fmt);
      ReportPrefixStep(rows, i, fmt);
    }
    assert rows[..|rows|] == rows;
    text := text + Tail;
  }

  /** The rows' markup is that of the rows before `k`, then row `k`, then the rows after it. */
  lemma RowsHtmlAt(rows: seq<Row>, k: nat, fmt: Formatters)
    requires k < |rows|
    ensures RowsHtml(rows, fmt) == RowsHtml(rows[..k], fmt) + RowHtml(rows[k], fmt) + RowsHtml(rows[k + 1..], fmt)
  {
    assert rows == rows[..k] + rows[k..];
    RowsHtmlAppend(rows[..k], rows[k..], fmt);
    assert rows[k..][0] == rows[k] && rows[k..][1..] == rows[k + 1..];
    assert RowsHtml(rows[k..], fmt) == RowHtml(rows[k], fmt) + RowsHtml(rows[k + 1..], fmt);
  }

  predicate EndsWith(s: string, suffix: string)
  {
    |suffix| <= |s| && s[|s| - |suffix|..] == suffix
  }

  /**
   * A row's third cell reads NO RESPONSE exactly when the row is missing,
   * and `<latency> ms` exactly when it is not.
   */
  lemma PingCellShowsMissing(row: Row, fmt: Formatters)
    ensures row.missing <==> EndsWith(RowHtml(row, fmt), "<td>NO RESPONSE</td></tr>")
    ensures !row.missing <==> EndsWith(RowHtml(row, fmt), " ms</td></tr>")
  {
    var s := RowHtml(row, fmt);
    var pre := "<tr>" + Cell(row.host) + Cell(fmt.asctime(row.t));
    if row.missing {
      assert s == pre + "<td>NO RESPONSE</td></tr>";
      assert s[|s| - 13] == 'N';
    } else {
      var lat := fmt.latency(row.latency);
      assert s == (pre + "<td>" + lat) + " ms</td></tr>";
      assert s[|s| - 13] == ' ';
      assert "<td>NO RESPONSE</td></tr>"[12] == 'N';
    }
  }

  /*
   * Counting `<tr>` openings. CountTr counts the positions where `<tr>`
   * begins; two texts can be counted apart when no opening can straddle the
   * seam between them.
   */

  function CountTr(s: string): (count: nat)
  {
    if |s| < 4 then 0
    else (if s[0] == '<' && s[1] == 't' && s[2] == 'r' && s[3] == '>' then 1 else 0) + CountTr(s[1..])
  }

  /** No `<` among the last three characters of `a`, or `b` cannot continue a partial `<tr>`. */
  predicate Seamless(a: string, b: string)
  {
    (forall i :: 0 <= i < |a| && |a| - 3 <= i ==> a[i] != '<')
    || b == [] || (b[0] != 't' && b[0] != 'r' && b[0] != '>')
  }

  lemma {:induction false} CountTrConcat(a: string, b: string)
    requires Seamless(a, b)
    ensures CountTr(a + b) == CountTr(a) + CountTr(b)
    decreases |a|
  {
    if a == [] {
      assert a + b == b;
    } else if |a + b| < 4 {
      CountTrShort(a);
      CountTrShort(b);
    } else {
      var s := a + b;
      assert s[1..] == a[1..] + b;
      CountTrConcat(a[1..], b);
      if |a| >= 4 {
        assert s[0] == a[0] && s[1] == a[1] && s[2] == a[2] && s[3] == a[3];
      } else {
        CountTrShort(a);
        CountTrShort(a[1..]);
        assert !(s[0] == '<' && s[1] == 't' && s[2] == 'r' && s[3] == '>') by {
          if b != [] && b[0] != 't' && b[0] != 'r' && b[0] != '>' {
            assert s[|a|] == b[0];
          } else {
            assert s[0] == a[0];
          }
        }
      }
    }
  }

  lemma CountTrShort(s: string)
    requires |s| < 4
    ensures CountTr(s) == 0
  {
  }

  lemma CellCount(content: string)
    ensures CountTr(Cell(content)) == CountTr(content) && Cell(content)[0] == '<'
  {
    assert CountTr("<td>") == 0 && CountTr("</td>") == 0;
    CountTrConcat("<td>", content);
    CountTrConcat("<td>" + content, "</td>");
  }

  lemma HeaderCellCount(title: string)
    ensures CountTr(HeaderCell(title)) == CountTr(title) && HeaderCell(title)[0] == '<'
  {
    assert CountTr("<th>") == 0 && CountTr("</th>") == 0;
    CountTrConcat("<th>", title);
    CountTrConcat("<th>" + title, "</th>");
  }

  /** A text in which `<tr` never occurs holds no opening. */
  lemma {:induction false} CountTrAbsent(s: string)
    requires forall i :: 0 <= i && i + 2 < |s| ==> !(s[i] == '<' && s[i + 1] == 't' && s[i + 2] == 'r')
    ensures CountTr(s) == 0
    decreases |s|
  {
    if |s| >= 4 {
      assert !(s[0] == '<' && s[1] == 't' && s[2] == 'r');
      CountTrAbsent(s[1..]);
    }
  }

  lemma DocumentOpenCount()
    ensures CountTr(DocumentOpen) == 0
  {
    CountTrAbsent(DocumentOpen);
  }

  lemma TitleCounts()
    ensures CountTr("Hostname") == 0 && CountTr("Time") == 0 && CountTr("Ping") == 0
  {
  }

  lemma RowTagCounts()
    ensures CountTr("<tr>") == 1 && CountTr("</tr>") == 0
  {
  }

  /** Three pieces, each joined where no `<tr>` can straddle the seam. */
  lemma CountTrThree(p1: string, p2: string, p3: string)
    requires Seamless(p1, p2) && Seamless(p1 + p2, p3)
    ensures CountTr(p1 + p2 + p3) == CountTr(p1) + CountTr(p2) + CountTr(p3)
  {
    CountTrConcat(p1, p2);
    CountTrConcat(p1 + p2, p3);
  }

  lemma HeadCount()
    ensures CountTr(Head) == 1
  {
    DocumentOpenCount();
    TitleCounts();
    RowTagCounts();
    HeaderCellCount("Hostname");
    HeaderCellCount("Time");
    HeaderCellCount("Ping");
    var front := DocumentOpen + "<tr>" + HeaderCell("Hostname");
    CountTrThree(DocumentOpen, "<tr>", HeaderCell("Hostname"));
    assert CountTr(front) == 1;
    CountTrThree(front, HeaderCell("Time"), HeaderCell("Ping"));
    assert CountTr(front + HeaderCell("Time") + HeaderCell("Ping")) == 1;
    CountTrConcat(front + HeaderCell("Time") + HeaderCell("Ping"), "</tr>");
  }

  lemma TailCount()
    ensures CountTr(Tail) == 0
  {
    CountTrAbsent(Tail);
  }

  /** The texts a row brings from outside the program contain no `<tr>`. */
  predicate PlainRow(row: Row, fmt: Formatters)
  {
    CountTr(row.host) == 0 && CountTr(fmt.asctime(row.t)) == 0 &&
    (!row.missing ==> CountTr(fmt.latency(row.latency)) == 0)
  }

  lemma RowHtmlCount(row: Row, fmt: Formatters)
    requires PlainRow(row, fmt)
    ensures CountTr(RowHtml(row, fmt)) == 1
  {
    var ping := PingText(row, fmt);
    if row.missing {
      assert CountTr(NoResponse) == 0;
    } else {
      CountTrShort(" ms");
      CountTrConcat(fmt.latency(row.latency), " ms");
    }
    assert CountTr("<tr>") == 1 && CountTr("</tr>") == 0;
    CellCount(row.host);
    CellCount(fmt.asctime(row.t));
    CellCount(ping);
    var c1, c2, c3 := Cell(row.host), Cell(fmt.asctime(row.t)), Cell(ping);
    CountTrConcat("<tr>", c1);
    CountTrConcat("<tr>" + c1, c2);
    CountTrConcat("<tr>" + c1 + c2, c3);
    CountTrConcat("<tr>" + c1 + c2 + c3, "</tr>");
  }
  lemma {:induction false} RowsHtmlCount(rows: seq<Row>, fmt: Formatters)
    requires forall k :: 0 <= k < |rows| ==> PlainRow(rows[k], fmt)
    ensures CountTr(RowsHtml(rows, fmt)) == |rows|
    ensures RowsHtml(rows, fmt) == [] || RowsHtml(rows, fmt)[0] == '<'
  {
    if rows != [] {
      RowHtmlCount(rows[0], fmt);
      RowsHtmlCount(rows[1..], fmt);
      CountTrConcat(RowHtml(rows[0], fmt), RowsHtml(rows[1..], fmt));
    }
  }

  /**
   * A report holds one `<tr>` opening for the header and one per result row,
   * provided the hostnames and the borrowed renderings contain no `<tr>`
   * themselves (the hostname is not escaped).
   */
  lemma ReportRowCount(rows: seq<Row>, fmt: Formatters)
    requires forall k :: 0 <= k < |rows| ==> PlainRow(rows[k], fmt)
    ensures CountTr(ReportHtml(rows, fmt)) == |rows| + 1
  {
    HeadCount();
    TailCount();
    RowsHtmlCount(rows, fmt);
    CountTrConcat(Head, RowsHtml(rows, fmt));
    CountTrConcat(Head + RowsHtml(rows, fmt), Tail);
  }
}
