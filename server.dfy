/**
 * The report server's request handler (src/main.rs, `PageHandler`): route
 * the path, and either answer 404 at once or query the shared connection
 * and render the rows it returns.
 */
module Server {
  import opened Wrappers
  import opened Routing
  import opened Store
  import opened Report

  datatype Status = Ok | NotFound

  /** The parts of a response the handler decides: status and body. */
  datatype Response = Response(status: Status, body: string)

  const NotFoundBody: string := "404 Not Found"

  class PageHandler {
    const db: Connection

    constructor (db: Connection)
      ensures this.db == db
    {
      this.db := db;
    }

    /**
     * `handle`: a path that is not a window is answered with 404 before any
     * query text is built or issued; any other path issues exactly one
     * query, for the window it names, and answers 200 with the rendered rows.
     * `answer` gives the rows the store returns for a query text.
     */
    method Handle(path: seq<string>, answer: string -> seq<Row>, fmt: Formatters) returns (resp: Response)
      modifies db
      ensures db.inserted == old(db.inserted)
      ensures Route(path).Invalid? ==> resp == Response(NotFound, NotFoundBody) && db.selects == old(db.selects)
      ensures !Route(path).Invalid? ==>
        var sql := QueryText(Limit(Route(path)));
        db.selects == old(db.selects) + [sql] && resp == Response(Ok, ReportHtml(answer(sql), fmt))
    {
      var intent := Route(path);
      if intent.Invalid? {
        return Response(NotFound, NotFoundBody);
      }
      var limit := Limit(intent);
      var sql := QueryText(limit);
      var rows := db.Query(sql, answer);
      var text := RenderReport(rows, fmt);
      resp := Response(Ok, text);
    }
  }
}
