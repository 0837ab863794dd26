/**
 * The prober (src/main.rs, `Pinger`): each cycle sends one echo, records the
 * outcome as one row, and sleeps for what is left of the ten-second period.
 * The clock, the echo transport and `sleep` are outside the model: a cycle's
 * clock reading, echo reply and elapsed time are inputs, and its sleep is an
 * output.
 */
module Prober {
  import opened Wrappers
  import opened Store

  const TwoTo63: int := 0x8000_0000_0000_0000
  const TwoTo64: int := 0x1_0000_0000_0000_0000

  /** Rust's `u64`: seconds since the Unix epoch as `as_secs()` returns them. */
  type U64 = n: int | 0 <= n < 0x1_0000_0000_0000_0000

  /** What the echo library reports for the one host: how many echoes were dropped, and the round trip in ms. */
  datatype Reply = Reply(dropped: nat, latency: real)

  /** The outcome of one probe: `None` when the echo was dropped, else the measured latency. */
  function Outcome(reply: Reply): (latency: Option<real>)
    ensures latency.None? <==> reply.dropped > 0
    ensures latency.Some? ==> latency.value == reply.latency
  {
    if reply.dropped > 0 then None else Some(reply.latency)
  }

  /** `do_ping`: the clock reading taken before sending, paired with the outcome. */
  function DoPing(now: U64, reply: Reply): (result: (U64, Option<real>))
    ensures result.0 == now
    ensures result.1.None? <==> reply.dropped > 0
    ensures result.1.Some? ==> result.1.value == reply.latency
  {
    (now, Outcome(reply))
  }

  /** Rust's `u64 as i64`: the same 64 bits read as two's complement. */
  function AsI64(t: U64): (r: int)
    ensures -TwoTo63 <= r < TwoTo63
    ensures r % TwoTo64 == t
    ensures t < TwoTo63 ==> r == t
  {
    if t < TwoTo63 then t else t - TwoTo64
  }

  /** What a row says about the probe it records: no latency when missing, else the latency. */
  function RowOutcome(row: Row): (outcome: Option<real>)
  {
    if row.missing then None else Some(row.latency)
  }

  /**
   * The row `record_result` inserts for one probe: the host, the time as
   * i64, and `(missing, latency_ms)` as `(true, 0.0)` for no reply or
   * `(false, latency)` for a reply.
   */
  function EncodeRow(host: string, result: (U64, Option<real>)): (row: Row)
    ensures row.host == host && row.t % TwoTo64 == result.0
    ensures RowOutcome(row) == result.1
    ensures row.missing ==> row.latency == 0.0
  {
    var (missing, latency) := match result.1
      case Some(l) => (false, l)
      case None => (true, 0.0);
    Row(host, AsI64(result.0), missing, latency)
  }

  /** A recorded probe is missing exactly when its echo was dropped, and otherwise carries the measured latency. */
  lemma RecordedProbe(host: string, now: U64, reply: Reply)
    ensures EncodeRow(host, DoPing(now, reply)).missing <==> reply.dropped > 0
    ensures EncodeRow(host, DoPing(now, reply)).latency == if reply.dropped > 0 then 0.0 else reply.latency
    ensures now < TwoTo63 ==> EncodeRow(host, DoPing(now, reply)).t == now
  {
  }

  /** The sampling period, `Duration::from_secs(10)`, in nanoseconds. */
  const Period: nat := 10_000_000_000

  /** The sleep at the end of a cycle that took `elapsed` nanoseconds. */
  function SleepFor(elapsed: nat): (pause: nat)
    ensures elapsed + pause == if elapsed < Period then Period else elapsed
    ensures pause <= Period
    ensures pause == 0 <==> elapsed >= Period
  {
    if elapsed < Period then Period - elapsed else 0
  }

  /** The inputs of one cycle: the clock reading, the echo reply, and the time the probe and its insert took. */
  datatype Cycle = Cycle(now: U64, reply: Reply, elapsed: nat)

  /** The rows a run of cycles inserts, one per cycle, in order. */
  function Rows(host: string, cycles: seq<Cycle>): (rows: seq<Row>)
    ensures |rows| == |cycles|
  {
    seq(|cycles|, k requires 0 <= k < |cycles| => EncodeRow(host, DoPing(cycles[k].now, cycles[k].reply)))
  }

  /** Wall-clock length of a run of cycles, sleeps included. */
  function WallTime(cycles: seq<Cycle>): (total: nat)
  {
    if cycles == [] then 0
    else
      var last := cycles[|cycles| - 1].elapsed;
      WallTime(cycles[..|cycles| - 1]) + last + SleepFor(last)
  }

  /**
   * Each cycle lasts at least the period, and exactly the period when it does
   * not overrun it: `n` cycles take at least `n` periods and are never skipped.
   */
  lemma {:induction false} WallTimeBounds(cycles: seq<Cycle>)
    ensures WallTime(cycles) >= Period * |cycles|
    ensures (forall k :: 0 <= k < |cycles| ==> cycles[k].elapsed <= Period) ==> WallTime(cycles) == Period * |cycles|
  {
    if cycles != [] {
      var init := cycles[..|cycles| - 1];
      WallTimeBounds(init);
      assert forall k :: 0 <= k < |init| ==> init[k] == cycles[k];
    }
  }

  /** Rows carry non-decreasing times when the clock readings do and stay below 2^63. */
  lemma RowsChronological(host: string, cycles: seq<Cycle>)
    requires forall k :: 0 <= k < |cycles| ==> cycles[k].now < TwoTo63
    requires forall j, k :: 0 <= j < k < |cycles| ==> cycles[j].now <= cycles[k].now
    ensures forall j, k :: 0 <= j < k < |cycles| ==> Rows(host, cycles)[j].t <= Rows(host, cycles)[k].t
  {
  }

  /** The prober: one fixed host, and the connection shared with the report server. */
  class Pinger {
    const host: string
    const db: Connection

    constructor (host: string, db: Connection)
      ensures this.host == host && this.db == db
    {
      this.host := host;
      this.db := db;
    }

    /** `record_result`: inserts the probe's row. */
    method RecordResult(result: (U64, Option<real>))
      modifies db
      ensures db.inserted == old(db.inserted) + [EncodeRow(host, result)]
      ensures db.selects == old(db.selects)
    {
      db.Insert(EncodeRow(host, result));
    }

    /**
     * The first `|cycles|` turns of `run`'s endless loop: probe, record, then
     * sleep only when the cycle took less than the period. Returns the sleeps.
     */
    method Run(cycles: seq<Cycle>) returns (pauses: seq<nat>)
      modifies db
      ensures db.inserted == old(db.inserted) + Rows(host, cycles)
      ensures db.selects == old(db.selects)
      ensures |pauses| == |cycles|
      ensures forall k :: 0 <= k < |cycles| ==> pauses[k] == SleepFor(cycles[k].elapsed)
    {
      pauses := [];
      var i := 0;
      while i < |cycles|
        invariant 0 <= i <= |cycles|
        invariant db.inserted == old(db.inserted) + Rows(host, cycles[..i])
        invariant db.selects == old(db.selects)
        invariant |pauses| == i
        invariant forall k :: 0 <= k < i ==> pauses[k] == SleepFor(cycles[k].elapsed)
      {
        var cycle := cycles[i];
        RecordResult(DoPing(cycle.now, cycle.reply));
        var pause := 0;
        if cycle.elapsed < Period {
          pause := Period - cycle.elapsed;
        }
        pauses := pauses + [pause];
        assert Rows(host, cycles[..i + 1]) == Rows(host, cycles[..i]) + [EncodeRow(host, DoPing(cycle.now, cycle.reply))];
        i := i + 1;
      }
      assert cycles[..|cycles|] == cycles;
    }
  }
}
