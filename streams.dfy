/**
 * Go's `io.Writer` and `io.Reader` as the modelled code sees them: a writer
 * keeps everything written to it unless it is failing, and a reader is the
 * finite sequence of results its successive `Read` calls return.
 */
module Streams {
  import opened Wrappers

  /** The two kinds of write error the modelled code tells apart. */
  datatype WriteError = EofError | OtherError(reason: string) {
    /** What `err.Error()` / `%v` prints for it. */
    function Message(): string
    {
      match this
      case EofError => "EOF"
      case OtherError(reason) => reason
    }
  }

  /** An `io.Writer`: healthy (fault None) or failing every write with the same error. */
  class Sink {
    var data: string
    const fault: Option<WriteError>

    constructor (fault: Option<WriteError>)
      ensures data == [] && this.fault == fault
    {
      data := [];
      this.fault := fault;
    }

    /** A write either appends all of `s` or, on a failing sink, nothing. */
    method Write(s: string) returns (err: Option<WriteError>)
      modifies this
      ensures err == fault
      ensures data == if fault.None? then old(data) + s else old(data)
    {
      err := fault;
      if fault.None? {
        data := data + s;
      }
    }
  }

  /** One `Read` call: some bytes, or an error (the bytes of a failing read are dropped). */
  datatype ReadResult = Bytes(chunk: string) | ReadFailed(reason: string)

  predicate AllBytes(input: seq<ReadResult>)
  {
    forall i :: 0 <= i < |input| ==> input[i].Bytes?
  }

  /** The stream a sequence of successful reads delivers, whatever its chunking. */
  function Flatten(input: seq<ReadResult>): string
    requires AllBytes(input)
  {
    if |input| == 0 then "" else input[0].chunk + Flatten(input[1..])
  }
}
