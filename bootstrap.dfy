/**
 * Process start-up (src/main.rs, `main`): the argument check that decides
 * between printing usage and starting the prober and the server.
 */
module Bootstrap {
  /** How `main` ends up, given the full argument list (program name first). */
  datatype Outcome =
    | Usage                                                  // prints usage and returns
    | Panic                                                  // an `unwrap` on a missing argument
    | Serve(dbPath: string, host: string, listenAddr: string)

  /**
   * `main` as written: usage when there are fewer than 3 entries, otherwise
   * three arguments are taken after the program name, so with exactly two
   * user arguments the third `unwrap` panics.
   */
  function StartAsWritten(args: seq<string>): (l: Outcome)
    ensures l.Usage? <==> |args| < 3
    ensures l.Panic? <==> |args| == 3
    ensures l.Serve? ==> l == Serve(args[1], args[2], args[3])
  {
    if |args| < 3 then Usage
    else if |args| < 4 then Panic
    else Serve(args[1], args[2], args[3])
  }

  /** The usage line's own example, with its listen address left off, panics. */
  lemma TwoArgumentsPanic()
    ensures StartAsWritten(["pingd", "ping.db", "myhost"]) == Panic
  {
  }

  /** `main` with the guard the usage line implies: fewer than three user arguments print usage. */
  function Start(args: seq<string>): (l: Outcome)
    ensures !l.Panic?
    ensures l.Usage? <==> |args| < 4
    ensures l.Serve? ==> l == Serve(args[1], args[2], args[3])
  {
    if |args| < 4 then Usage else Serve(args[1], args[2], args[3])
  }

  /** The corrected start-up differs from the original only where the original panics. */
  lemma StartAgreesUnlessPanic(args: seq<string>)
    ensures StartAsWritten(args) != Panic ==> Start(args) == StartAsWritten(args)
    ensures StartAsWritten(args) == Panic ==> Start(args) == Usage
  {
  }
}
