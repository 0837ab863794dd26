# pingd, modelled in Dafny

pingd pings one host every ten seconds, stores each outcome as a row of
the `pings` table (host, Unix time, missing, latency in ms), and serves
an HTML table of the most recent rows over HTTP. This project models the
program's own logic in `src/main.rs`:

- **Routing** (`routing.dfy`, `decimal.dfy`). The first path segment is
  parsed into a row limit. No segment or an empty one gives 600. `all`
  gives no limit. Anything Rust's `i32` parser accepts gives that
  number. Everything else gives a 404. The limit becomes the text of
  the `SELECT` statement. Rust's `i32` parsing and printing are modelled
  exactly: an optional sign, ASCII digits, and the 32-bit range.
- **Rendering** (`report.dfy`). The rendering loop is a method. It is
  proved equal to a specification function: a fixed head, one `<tr>`
  block per row in input order, then a fixed tail.
- **Probe encoding and cadence** (`prober.dfy`). A probe's reply becomes
  an outcome and then a row. The `u64 as i64` cast of the time is written
  out. Each cycle sleeps for whatever is left of the ten-second period.
  `Pinger.Run` covers the first `n` turns of the endless loop.
- **The shared connection** (`store.dfy`). A class records, in order,
  the rows inserted and the texts of the SELECT statements run. `PageHandler.Handle`
  (`server.dfy`) and `Pinger` share one instance of it, as they share
  the `Arc` in the source.
- **Start-up** (`bootstrap.dfy`). The argument-count check in `main`.

These come from outside the model and enter as parameters:

- the clock reading
- the echo reply (drop count and latency)
- the elapsed time of a cycle, in nanoseconds
- the rows the database returns for a query text
- the `asctime` rendering of a time
- the `{}` rendering of an `f64` latency

Latencies are Dafny `real`s.

Any `i32` is a window, negative ones included: `/-5` gives `LIMIT -5`
and `/+7` gives `LIMIT 7`. Only a value outside the `i32` range, or text
that is not a number, gets a 404.

## Model

| member | source | states |
|---|---|---|
| Routing.Route | src/main.rs:82-93 | A request is a default window exactly when it has no first segment or an empty one. It is the full history exactly when the first segment is `all`. It is a window exactly when the segment parses as an `i32`, and then it carries that value, which is in range. It is invalid in every other case. |
| Routing.RouteIgnoresLaterSegments | src/main.rs:83-86 | Only the first segment decides the outcome. Later segments are ignored. |
| Routing.Limit | src/main.rs:84-93 | A request that is not invalid has no limit exactly when it asks for the full history. The default window is 600 rows. A window's limit is its parsed value. |
| Routing.RouteOutOfRange | src/main.rs:86-90 | A run of digits whose value is above the `i32` maximum is answered 404, bare or after `+`. After `-`, it is answered 404 when its negation is below the `i32` minimum. |
| Routing.RouteExamples | src/main.rs:82-93 | `/` and `//` give the default window. `/all` and `/all/x` give the full history. `/42` and `/-5` give windows of 42 and -5. `/banana` and `/+` are invalid. |
| Routing.QueryTextRoundTrip | src/main.rs:96-101 | Every query text starts with the fixed `SELECT … ORDER BY t DESC ` head. The limit it was built from can be read back from the text: `LIMIT n` follows exactly when there was a limit `n`. |
| Routing.QueryTextBareIffNoLimit | src/main.rs:96-101 | Nothing follows the head's trailing blank exactly when there is no limit. |
| Routing.QueryTextInjective | src/main.rs:96-101 | Different limits give different query texts. |
| Routing.RouteQuery | src/main.rs:83-101 | For each request that is not a 404, the query text asks for 600 rows (empty path), for all rows (`all`), or for the parsed value. |
| Decimal.ParseI32 | src/main.rs:86 | A parsed segment is non-empty and its value lies in the `i32` range. A negative value comes only from a leading `-`. An accepted text is digits, or a sign followed by at least one digit, and nothing else: an empty text, a lone sign, a leading non-sign non-digit and any later non-digit are rejected. |
| Decimal.ParseDigits | src/main.rs:86 | A run of digits parses to its value, with leading zeros allowed and a `+` changing nothing (`007` and `+7` give 7), exactly when that value is at most the `i32` maximum. After `-` it parses to the negated value exactly when that is at least the `i32` minimum. Otherwise it is rejected. |
| Decimal.ParseIntText | src/main.rs:98 | Parsing the `{}` text of any `i32` gives back that value. |
| Store.Connection.constructor | src/main.rs:146 | A fresh connection has inserted nothing and run no SELECT. |
| Store.Connection.Insert | src/main.rs:52-59 | An insert appends exactly its row and runs no SELECT. |
| Store.Connection.Query | src/main.rs:103-104 | A SELECT appends its text to the SELECTs run, inserts nothing, and returns the rows the store gives for that text. |
| Report.RenderReport | src/main.rs:106-124 | The loop's text is the head, then each row's `<tr>` block in input order, then the tail. |
| Report.RowsHtmlAppend | src/main.rs:109-123 | Rendering follows input order: the markup of `a + b` is the markup of `a` followed by that of `b`. |
| Report.RowsHtmlAt | src/main.rs:109-123 | Row `k`'s block stands between the blocks of the rows before it and the rows after it. |
| Report.PingCellShowsMissing | src/main.rs:117-121 | A row's block ends in `<td>NO RESPONSE</td></tr>` exactly when the row is missing. It ends in ` ms</td></tr>` exactly when it is not. |
| Report.HeadCount | src/main.rs:107-108 | The fixed head holds exactly one `<tr>` opening: the header row. |
| Report.TailCount | src/main.rs:124 | The fixed tail holds no `<tr>` opening. |
| Report.ReportRowCount | src/main.rs:106-124 | The body holds `rows + 1` `<tr>` openings. This needs the hostnames and the borrowed renderings to contain no `<tr>`. |
| Prober.Outcome | src/main.rs:43-47 | A reply is `None` exactly when something was dropped. Otherwise it is the measured latency. |
| Prober.DoPing | src/main.rs:35-48 | The result pairs the clock reading with an outcome that is absent exactly when the echo was dropped, and is the measured latency otherwise. |
| Prober.AsI64 | src/main.rs:54 | `u64 as i64` keeps the value modulo 2^64 and lands in the `i64` range. Times below 2^63 are unchanged. |
| Prober.EncodeRow | src/main.rs:54-58 | The row carries the host and the time (modulo 2^64). Reading the row's `missing`/latency back gives the outcome it was built from. A missing row has latency 0.0. |
| Prober.RecordedProbe | src/main.rs:43-58 | A recorded probe is missing exactly when its echo was dropped. Its latency is 0.0 in that case and the measured latency otherwise. |
| Prober.SleepFor | src/main.rs:68-71 | A cycle's elapsed time plus its sleep is `max(10 s, elapsed)`. The sleep is at most 10 s, and it is zero exactly when the cycle overran. |
| Prober.Rows | src/main.rs:63-66 | A run inserts one row per cycle. |
| Prober.WallTimeBounds | src/main.rs:63-72 | `n` cycles take at least `n` periods. When no cycle overruns they take exactly `n` periods in the model, where a sleep lasts what was asked. No cycle is skipped. |
| Prober.RowsChronological | src/main.rs:54 | Row times are non-decreasing when the clock readings are, as long as they stay below 2^63. |
| Prober.Pinger.constructor | src/main.rs:26-31 | A pinger keeps the host and the shared connection it is given. |
| Prober.Pinger.RecordResult | src/main.rs:50-60 | Recording appends exactly the encoded row to the connection's inserted rows. |
| Prober.Pinger.Run | src/main.rs:62-72 | After `n` cycles, the connection holds the `n` encoded rows in cycle order. Each cycle's sleep is `SleepFor(elapsed)`. No SELECT is run. |
| Server.PageHandler.constructor | src/main.rs:160 | The handler keeps the shared connection it is given. |
| Server.PageHandler.Handle | src/main.rs:81-131 | An invalid path is answered `404 Not Found` and no SELECT is run. Any other path runs exactly one SELECT, for its limit, and is answered 200 with the report of the rows returned. |
| Bootstrap.StartAsWritten | src/main.rs:135-144 | Usage is printed exactly when there are fewer than three argv entries. With exactly three, the third `unwrap` panics. |
| Bootstrap.TwoArgumentsPanic | src/main.rs:135-144 | `pingd ping.db myhost` panics. |
| Bootstrap.Start | src/main.rs:135-144 | With the guard the usage line implies, start-up never panics and serves exactly when three user arguments are given. |
| Bootstrap.StartAgreesUnlessPanic | src/main.rs:135-144 | The corrected start-up matches the original on every input where the original does not panic. Where the original panics, the corrected one prints usage. |

## Left out

- ICMP transport (`oping` set-up, send, reply iteration). A cycle's reply is an input, and library failures (`unwrap` panics) are not modelled.
- SQLite: opening the file, the `sqlite_master` check and `CREATE TABLE` at start-up, and what `ORDER BY t DESC` and `LIMIT` select. Query results are a caller-supplied function of the query text, so nothing is claimed about which rows are returned or how many. A negative `LIMIT` is passed through as text.
- Locking (`Arc<Mutex<…>>`) and the `crossbeam` threads. The model is sequential.
- The iron server and the URL parsing that produces `url.path`, along with the content-type header and `Response` construction. A response is a status and a body.
- `f64` values and their `{}` display, and `time::at(…).asctime()`. Both renderings are function parameters, and latencies are `real`s.
- `SystemTime::now`, `Instant::now` and `sleep`. These are inputs and outputs of a cycle. `run`'s endless loop is modelled through its first `n` iterations.
- `main`'s printing of usage and its spawning of the prober and the server. Only the argument check is modelled.
- Report.ReportRowCount: holds only when hostnames, time texts and latency texts contain no `<tr>`, because the hostname is written into the page unescaped.
- Prober.WallTimeBounds: the exact `n` periods assume each sleep lasts exactly what was asked and that no time passes between `elapsed()` and the next cycle's `Instant::now()`. `std::thread::sleep` promises only a minimum, so in the program `n` periods is a lower bound only.
- Prober.RowsChronological: stated only for clock readings below 2^63, because the `as i64` cast wraps above that.

## Findings

| source | as written | input that shows it | evidently intended | confidence | as-written member | corrected member |
|---|---|---|---|---|---|---|
| src/main.rs:135-144 | `env::args().len() < 3` guards three `unwrap`s of the arguments after the program name | `pingd ping.db myhost` (two user arguments) passes the guard and panics on the third `unwrap` | print usage unless three user arguments are given (`len() < 4`) | high; not executed | Bootstrap.StartAsWritten, Bootstrap.TwoArgumentsPanic | Bootstrap.Start |
