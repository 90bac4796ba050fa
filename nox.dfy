/**
 * The part of a nox session that the orchestration script can observe: its name, the
 * passthrough arguments it was invoked with, and the ordered operations it performs.
 * Processes are never started; each operation is recorded instead.
 */
module Nox {

  /** A keyword argument passed on to `session.install`: the `env` dictionary, or any other value. */
  datatype KwValue = Dict(entries: map<string, string>) | Opaque(repr: string)

  type Kwargs = map<string, KwValue>

  /** Why a session was aborted with `session.error`. */
  datatype Failure =
    | EngineMissing(engine: string)                        // the CONTAINER_ENGINE override does not resolve
    | NoEngine(candidates: seq<string>, session: string)   // no candidate engine resolves
    | FilesChanged                                         // pip-compile check mode found a diff

  datatype Op =
    | LoggedExport(key: string, value: string)                // session.log of an `export KEY=value` line
    | Installed(args: seq<string>, kwargs: Kwargs)            // session.install
    | Ran(args: seq<string>, external: bool, silent: bool)    // session.run
    | Errored(failure: Failure)                               // session.error, which ends the session

  datatype Session = Session(name: string, posargs: seq<string>, ops: seq<Op>) {

    /** The session after it has also performed `more`. */
    function Then(more: seq<Op>): Session {
      this.(ops := ops + more)
    }

    predicate Aborted() {
      exists op :: op in ops && op.Errored?
    }
  }
}
