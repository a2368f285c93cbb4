/** What the services with an outbox have in common: an instance, its committed
    transactions and what was published with each. */
module Services {
  import opened Options
  import opened Records
  import opened DocumentEvents

  /** `Raised` is an exception that is none of the domain's. */
  datatype Ending = Finished | Denied(error: Error) | Raised

  /** A transaction of this instance that was committed, and what was published with it. */
  datatype LogEntry = LogEntry(before: Database, after: Database, sent: seq<StatusChange>)

  /** One instance: the committed database, the changes waiting in the outbox, and what was
      committed so far. */
  datatype Service = Service(db: Database, waiting: seq<StatusChange>, log: seq<LogEntry>)
  {
    /** A commit publishes whatever waits, also what an earlier transaction left behind. */
    function Committed(after: Database, own: seq<StatusChange>): Service {
      Service(after, [], log + [LogEntry(db, after, waiting + own)])
    }

    /** What others have committed meanwhile, if anything. */
    function Seeing(others: Option<Database>): Service {
      if others.Some? then this.(db := others.value) else this
    }
  }

  function Sent(log: seq<LogEntry>): seq<StatusChange> {
    if log == [] then [] else Sent(log[..|log| - 1]) + log[|log| - 1].sent
  }

  function ServeAll<Call>(serve: (Service, Call) -> Service, s: Service, calls: seq<Call>): Service {
    if calls == [] then s
    else serve(ServeAll(serve, s, calls[..|calls| - 1]), calls[|calls| - 1])
  }
}
