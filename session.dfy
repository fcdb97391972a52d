/**
 * The optimizer as its callers (`compare_mode.rs`, `graphs_runner.rs`, `leaderboard/subcommand.rs`)
 * see it: a stream of decoded messages and a log of the graph requests written to it.
 */
module Session {
  import opened Wrappers
  import Geometry

  type byte = b: int | 0 <= b < 256

  /** The responses the callers match on; `NoResponse` carries the exit status of a crashed optimizer. */
  datatype Message = Start(name: string) | GraphResult(graph: Geometry.Graph) | Done | NoResponse(status: Option<int>)

  class Channel {
    /** The messages the optimizer will still send, in order. */
    var pending: seq<Message>
    /** The requests written to the optimizer so far, one framed line each. */
    var written: seq<seq<byte>>

    constructor (messages: seq<Message>)
      ensures pending == messages && written == []
    {
      pending := messages;
      written := [];
    }

    /** The next message; None once the optimizer has nothing more to say (a read that never completes). */
    method Receive() returns (m: Option<Message>)
      modifies this`pending
      ensures old(pending) == [] ==> m == None && pending == []
      ensures old(pending) != [] ==> m == Some(old(pending)[0]) && pending == old(pending)[1..]
    {
      if pending == [] {
        m := None;
      } else {
        m := Some(pending[0]);
        pending := pending[1..];
      }
    }

    /** Write one request line. */
    method Send(request: seq<byte>)
      modifies this`written
      ensures written == old(written) + [request]
    {
      written := written + [request];
    }
  }
}
