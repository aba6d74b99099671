/** One direction of a remote call: messages arrive once, in order, until the stream ends or breaks. */
module Rpc {
  import opened Common

  class Source<T> {
    var pending: seq<T>   // what the other end will still deliver

    constructor (messages: seq<T>)
      ensures pending == messages
    {
      pending := messages;
    }

    method Recv() returns (m: Option<T>)
      modifies this
      ensures old(pending) == [] ==> m == None && pending == []
      ensures old(pending) != [] ==> m == Some(old(pending)[0]) && pending == old(pending)[1..]
    {
      if pending == [] {
        return None;
      }
      m := Some(pending[0]);
      pending := pending[1..];
    }
  }

  class Sink<T> {
    var sent: seq<T>
    ghost var broken: bool   // some send failed

    constructor ()
      ensures sent == [] && !broken
    {
      sent := [];
      broken := false;
    }

    method Send(m: T) returns (ok: bool)
      modifies this
      ensures ok ==> sent == old(sent) + [m] && broken == old(broken)
      ensures !ok ==> sent == old(sent) && broken
    {
      ok := *;
      if ok {
        sent := sent + [m];
      } else {
        broken := true;
      }
    }
  }
}
