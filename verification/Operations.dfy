/** Operations and the process numbers with a special meaning
    (src/jepsen/Operation.h, src/jepsen/include/constant.h). */
module Operations {

  /** The process and the thread number of the nemesis. */
  const NEMESIS: int := -1
  /** The process of an operation that has not been given one, and the answer of a failed lookup. */
  const INVALID_PROCESS: int := -2
  /** A cutoff or a next time that has not been set. */
  const INVALID_TIME: int := -3

  /** Thread numbers: clients from 0, then the nemesis, then the answer of a failed lookup. */
  type Thread = t: int | t >= INVALID_PROCESS witness 0

  datatype Kind = Init | Invoke | Success | Failed | Info | Exit | Nil | Pending

  /** What is asked of the system under test: all of an operation but when and by whom. */
  datatype Request = Request(kind: Kind, payload: string)

  /** The function, value and helper fields are never inspected by the scheduler: they are the payload. */
  datatype Operation = Operation(kind: Kind, payload: string, time: int, process: int)
  {
    /** The scheduler hands an operation to a worker only when it is neither nil, pending nor exit. */
    predicate Dispatchable() {
      !kind.Nil? && !kind.Pending? && !kind.Exit?
    }

    function AsIs(): Request {
      Request(kind, payload)
    }

    /** The request once the blanks are filled in: an operation without a type is an invocation. */
    function FilledIn(): Request {
      Request(if kind.Init? then Invoke else kind, payload)
    }

    /** An operation that a generator really offers. */
    predicate Real() {
      !kind.Nil? && !kind.Pending?
    }
  }

  const NIL := Operation(Nil, "", 0, INVALID_PROCESS)
  const EXIT := Operation(Exit, "exit", 0, INVALID_PROCESS)
}
