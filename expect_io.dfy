/**
 * `ExpectListener` (util/io.go): a writer that watches each chunk written to
 * it and, when the chunk matches a pattern, answers on another stream (used to
 * type a password when a prompt appears). The pattern enters as a predicate.
 */
module ExpectIo {
  import opened Wrappers
  import opened Streams

  class ExpectListener {
    const writeTo: Sink
    const matches: string -> bool
    const toWrite: string

    /** `NewExpectListener`. */
    constructor (writeTo: Sink, matches: string -> bool, toWrite: string)
      ensures this.writeTo == writeTo && this.matches == matches && this.toWrite == toWrite
    {
      this.writeTo := writeTo;
      this.matches := matches;
      this.toWrite := toWrite;
    }

    /**
     * `Write`: the whole chunk is always consumed; a matching chunk sends
     * `toWrite` once, a failed send is reported, and a chunk that does not
     * match sends nothing. Only `writeTo` changes; the listener keeps no state.
     */
    method Write(p: string) returns (n: nat, err: Option<string>)
      modifies writeTo
      ensures n == |p|
      ensures !matches(p) ==> writeTo.data == old(writeTo.data) && err == None
      ensures matches(p) && writeTo.fault.None? ==> writeTo.data == old(writeTo.data) + toWrite && err == None
      ensures matches(p) && writeTo.fault.Some? ==>
        && writeTo.data == old(writeTo.data)
        && err == Some("Unable to write after seeing expected input: " + writeTo.fault.value.Message())
    {
      if matches(p) {
        var werr := writeTo.Write(toWrite);
        if werr.Some? {
          return |p|, Some("Unable to write after seeing expected input: " + werr.value.Message());
        }
      }
      return |p|, None;
    }
  }
}
