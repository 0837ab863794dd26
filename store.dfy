/**
 * The shared database connection (src/main.rs, `DBConn`) seen only through
 * the statements the program hands it. What the engine stores and returns is
 * not modelled: a query's rows are supplied by the caller.
 */
module Store {
  /** One row of the `pings` table: host, Unix time as i64, missing, latency in ms. */
  datatype Row = Row(host: string, t: int, missing: bool, latency: real)

  /**
   * The connection the prober and the report server share. It records, in
   * order, the rows inserted through it (each by the one fixed `insert`
   * statement) and the texts of the SELECT statements run on it.
   */
  class Connection {
    var inserted: seq<Row>
    var selects: seq<string>

    constructor ()
      ensures inserted == [] && selects == []
    {
      inserted := [];
      selects := [];
    }

    /**
     * `insert into pings(host, t, missing, latency_ms) values(?, ?, ?, ?)`
     * bound to one row; no SELECT is run.
     */
    method Insert(row: Row)
      modifies this
      ensures inserted == old(inserted) + [row]
      ensures selects == old(selects)
    {
      inserted := inserted + [row];
    }

    /**
     * Prepares and runs a SELECT; `answer` stands for the rows the engine
     * returns for a statement text at this moment.
     */
    method Query(sql: string, answer: string -> seq<Row>) returns (rows: seq<Row>)
      modifies this
      ensures selects == old(selects) + [sql]
      ensures inserted == old(inserted)
      ensures rows == answer(sql)
    {
      selects := selects + [sql];
      rows := answer(sql);
    }
  }
}
