/** The connection object of the ADB server: framing on top of a stream that may split, stop or fail anywhere. */
module RawConnection {
  import opened Common
  import opened Wire

  datatype Failure =
    | BadStream                 // the transport failed or ended, or a length was malformed
    | Remote(message: bytes)    // the other side reported an error
    | Unexpected                // a packet id nobody asked for
    | TooLarge

  datatype Result<+T> = Ok(value: T) | Error(failure: Failure) | Panic

  /** The outcome of a read against its specification: what is returned, what is left, and whether the connection is closed. */
  ghost predicate Conforms<T>(spec: ReadResult<T>, r: Result<T>, left: bytes, wasClosed: bool, closed: bool) {
    match spec
    case Got(v, rest) => r == Ok(v) && left == rest && closed == wasClosed
    case Broken => r == Error(BadStream) && closed
    case Crash => r == Panic
  }

  class Conn {
    var incoming: bytes         // what the peer delivers from here until its stream ends or fails
    var closed: bool
    ghost var outgoing: bytes   // what the transport has accepted
    ghost var writeFailed: bool // some write was cut short or failed

    constructor (fromPeer: bytes)
      ensures incoming == fromPeer && outgoing == [] && !closed && !writeFailed
    {
      incoming := fromPeer;
      closed := false;
      outgoing, writeFailed := [], false;
    }

    /** Nothing can be read from a closed connection. */
    function Readable(): bytes
      reads this
    {
      if closed then [] else incoming
    }

    method Close()
      modifies this`closed
      ensures closed
    {
      closed := true;
    }

    // ------------------------------------------------------------ the transport

    /** One write of the transport: it may take any part of the packet, with or without an error. */
    method Write(packet: bytes) returns (wrote: nat, failed: bool)
      modifies this`outgoing
      ensures wrote <= |packet| && outgoing == old(outgoing) + packet[..wrote]
      ensures closed ==> failed && outgoing == old(outgoing)
    {
      var broke: bool := *;
      failed := closed || broke;
      if closed {
        wrote := 0;
      } else {
        wrote :| 0 <= wrote <= |packet|;
      }
      outgoing := outgoing + packet[..wrote];
    }

    /** One read of the transport: at least one byte, but no particular number, unless the stream is over. */
    method Read(want: nat) returns (chunk: bytes, failed: bool)
      requires want > 0
      modifies this`incoming
      ensures failed <==> old(Readable()) == []
      ensures failed ==> incoming == old(incoming)
      ensures !failed ==> 0 < |chunk| <= want && chunk + Readable() == old(Readable())
    {
      if closed || incoming == [] {
        return [], true;
      }
      var k: int :| 0 < k <= want && k <= |incoming|;
      chunk, failed := incoming[..k], false;
      incoming := incoming[k..];
    }

    /** However the transport splits the bytes, exactly `want` of them are returned. */
    method ReadFull(want: nat) returns (r: Result<bytes>)
      modifies this`incoming
      ensures |old(Readable())| >= want ==> r == Ok(old(Readable())[..want]) && Readable() == old(Readable())[want..]
      ensures |old(Readable())| < want ==> r == Error(BadStream) && Readable() == []
    {
      var blob: bytes := [];
      while |blob| < want
        invariant |blob| <= want
        invariant blob + Readable() == old(Readable())
        decreases want - |blob|
      {
        var chunk, failed := Read(want - |blob|);
        if failed {
          return Error(BadStream);
        }
        assert (blob + chunk) + Readable() == blob + (chunk + Readable());
        blob := blob + chunk;
      }
      assert old(Readable())[..want] == blob;
      r := Ok(blob);
    }

    // ------------------------------------------------------------ raw packets

    /** Success means the whole packet went out; failure closes the connection with some prefix of it sent. */
    method WriteRaw(packet: bytes) returns (ok: bool)
      modifies this`outgoing, this`closed, this`writeFailed
      ensures ok ==> outgoing == old(outgoing) + packet && !old(closed) && !closed
      ensures !ok ==> closed && old(outgoing) <= outgoing <= old(outgoing) + packet
      ensures old(closed) ==> outgoing == old(outgoing)
      ensures writeFailed == (old(writeFailed) || !ok)
    {
      var wrote, failed := Write(packet);
      if failed {
        Close();
        writeFailed := true;
        return false;
      }
      if wrote != |packet| {
        Close();
        writeFailed := true;
        return false;
      }
      assert packet[..wrote] == packet;
      ok := true;
    }

    method WriteMessage(msg: bytes) returns (ok: bool)
      modifies this`outgoing, this`closed, this`writeFailed
      ensures ok ==> outgoing == old(outgoing) + HexMessage(msg) && !old(closed) && !closed
      ensures !ok ==> closed && old(outgoing) <= outgoing <= old(outgoing) + HexMessage(msg)
      ensures writeFailed == (old(writeFailed) || !ok)
    {
      ok := WriteRaw(Hex04(|msg|) + msg);
      if !ok {
        Close();
      }
    }

    method ReadRaw(size: nat) returns (r: Result<bytes>)
      modifies this`incoming, this`closed
      ensures |old(Readable())| >= size ==>
                r == Ok(old(Readable())[..size]) && Readable() == old(Readable())[size..] && closed == old(closed)
      ensures |old(Readable())| < size ==> r == Error(BadStream) && closed
    {
      r := ReadFull(size);
      if r.Error? {
        Close();
      }
    }

    method ReadHexPrefixedBlob() returns (r: Result<bytes>)
      modifies this`incoming, this`closed
      ensures Conforms(ReadHexMessage(old(Readable())), r, Readable(), old(closed), closed)
    {
      ghost var s := Readable();
      var sizeBlob := ReadFull(4);
      if sizeBlob.Error? {
        Close();
        return Error(BadStream);
      }
      assert sizeBlob.value == s[..4] && Readable() == s[4..];
      var size := ParseHex(sizeBlob.value);
      if size.None? {
        Close();
        return Error(BadStream);
      }
      r := ReadSized(size.value);
      assert 0 <= size.value <= |s| - 4 ==>
          var n := size.value; s[4..][..n] == s[4..4 + n] && s[4..][n..] == s[4 + n..];
    }

    /** The payload behind a length; the length may be negative. */
    method ReadSized(size: int) returns (r: Result<bytes>)
      modifies this`incoming, this`closed
      ensures size < 0 ==> r == Panic
      ensures 0 <= size <= |old(Readable())| ==>
                r == Ok(old(Readable())[..size]) && Readable() == old(Readable())[size..] && closed == old(closed)
      ensures size > |old(Readable())| ==> r == Error(BadStream) && closed
    {
      if size < 0 {
        return Panic;
      }
      r := ReadFull(size);
      if r.Error? {
        Close();
      }
    }

    // ------------------------------------------------------------ shell blobs

    method ReadShellBlob() returns (r: Result<ShellBlob>)
      modifies this`incoming, this`closed
      ensures Conforms(ReadShellFrame(old(Readable())), r, Readable(), old(closed), closed)
    {
      ghost var s := Readable();
      var header := ReadFull(5);
      if header.Error? {
        Close();
        return Error(BadStream);
      }
      var id := header.value[0];
      var size := FromLE(header.value[1..]);
      assert header.value[1..] == s[1..5];
      var blob := ReadFull(size);
      if blob.Error? {
        Close();
        return Error(BadStream);
      }
      assert s[5..][..size] == s[5..5 + size];
      assert s[5..][size..] == s[5 + size..];
      r := Ok(ShellBlob(id, blob.value));
    }

    method WriteShellBlob(id: byte, blob: bytes) returns (ok: bool)
      modifies this`outgoing, this`closed, this`writeFailed
      ensures ok ==> outgoing == old(outgoing) + ShellFrame(ShellBlob(id, blob)) && !old(closed) && !closed
      ensures !ok ==> closed && old(outgoing) <= outgoing <= old(outgoing) + ShellFrame(ShellBlob(id, blob))
      ensures old(closed) ==> outgoing == old(outgoing)
      ensures writeFailed == (old(writeFailed) || !ok)
    {
      var header := [id] + PutUint32(|blob|);
      assert ShellFrame(ShellBlob(id, blob)) == header + blob;
      assert outgoing + ShellFrame(ShellBlob(id, blob)) == outgoing + header + blob;
      ok := WriteRaw(header);
      if !ok {
        Close();
        return;
      }
      ok := WriteRaw(blob);
      if !ok {
        Close();
      }
    }

    // ------------------------------------------------------------ commands

    /**
     A refusal is an error that leaves the connection open and aligned; everything else that goes
     wrong closes it.
     */
    method SendCommand(cmd: bytes) returns (r: Result<()>)
      modifies this
      ensures old(outgoing) <= outgoing <= old(outgoing) + HexMessage(cmd)
      ensures writeFailed && !old(writeFailed) ==> r == Error(BadStream) && closed
      ensures r.Ok? ==> !old(closed) && !closed && outgoing == old(outgoing) + HexMessage(cmd)
      ensures !writeFailed ==> !old(writeFailed) && outgoing == old(outgoing) + HexMessage(cmd)
      ensures !writeFailed ==>
                match ReadReply(old(Readable()))
                case Got(Accepted, rest) => r == Ok(()) && Readable() == rest && !closed
                case Got(Refused(message), rest) => r == Error(Remote(message)) && Readable() == rest && !closed
                case Broken => r == Error(BadStream) && closed
                case Crash => r == Panic
    {
      ghost var s := Readable();
      var ok := WriteMessage(cmd);
      if !ok {
        Close();
        return Error(BadStream);
      }
      var status := ReadFull(4);
      if status.Error? {
        Close();
        return Error(BadStream);
      }
      if status.value != OKAY {
        var errBlob := ReadHexPrefixedBlob();
        match errBlob {
          case Panic => return Panic;
          case Error(_) =>
            Close();
            return Error(BadStream);
          case Ok(message) => return Error(Remote(message));
        }
      }
      r := Ok(());
    }
  }

  // ---------------------------------------------------------------- many commands

  lemma OneMoreCommand(base: bytes, cmds: seq<bytes>, i: nat, out: bytes)
    requires i < |cmds| && out + HexMessages(cmds[i..]) == base + HexMessages(cmds)
    ensures (out + HexMessage(cmds[i])) + HexMessages(cmds[i + 1..]) == base + HexMessages(cmds)
    ensures out + HexMessage(cmds[i]) <= base + HexMessages(cmds)
  {
    hide HexMessage, HexMessages;
    FirstMessage(cmds[i..]);
    assert cmds[i..][1..] == cmds[i + 1..];
    var head, tail := HexMessage(cmds[i]), HexMessages(cmds[i + 1..]);
    assert (out + head) + tail == out + (head + tail);
  }

  lemma FirstMessage(cmds: seq<bytes>)
    requires cmds != []
    ensures HexMessages(cmds) == HexMessage(cmds[0]) + HexMessages(cmds[1..])
  {
  }

  lemma OneMoreReply(rs: seq<Reply>, i: nat, rest: bytes)
    requires i < |rs| && (rs[i].Refused? ==> |rs[i].message| <= 65535)
    ensures ReadReply(Replies(rs[i..]) + rest) == Got(rs[i], Replies(rs[i + 1..]) + rest)
  {
    hide ReplyBytes, ReadReply;
    assert rs[i..][1..] == rs[i + 1..];
    assert Replies(rs[i..]) + rest == ReplyBytes(rs[i]) + (Replies(rs[i + 1..]) + rest);
    ReplyReadsBack(rs[i], Replies(rs[i + 1..]) + rest);
  }

  /**
   Any commands, each answered by acceptance or refusal: the answers come in their order, and both
   streams stand at the next command.
   */
  method Exchange(conn: Conn, cmds: seq<bytes>, ghost rs: seq<Reply>, ghost rest: bytes) returns (ok: bool, results: seq<Reply>)
    requires !conn.closed && !conn.writeFailed
    requires |rs| == |cmds| && forall i :: 0 <= i < |rs| && rs[i].Refused? ==> |rs[i].message| <= 65535
    requires conn.Readable() == Replies(rs) + rest
    modifies conn
    ensures ok <==> !conn.writeFailed
    ensures ok ==>
              && results == rs && conn.Readable() == rest && !conn.closed
              && conn.outgoing == old(conn.outgoing) + HexMessages(cmds)
    ensures !ok ==> conn.closed && old(conn.outgoing) <= conn.outgoing <= old(conn.outgoing) + HexMessages(cmds)
  {
    hide HexMessage, HexMessages, Replies, ReadReply;
    ghost var base := conn.outgoing;
    results := [];
    assert cmds[0..] == cmds && rs[0..] == rs;
    for i := 0 to |cmds|
      invariant !conn.closed && !conn.writeFailed
      invariant results == rs[..i]
      invariant conn.Readable() == Replies(rs[i..]) + rest
      invariant conn.outgoing + HexMessages(cmds[i..]) == base + HexMessages(cmds)
      invariant base <= conn.outgoing
    {
      OneMoreReply(rs, i, rest);
      OneMoreCommand(base, cmds, i, conn.outgoing);
      var r := conn.SendCommand(cmds[i]);
      if r.Ok? {
        results := results + [Accepted];
      } else if r.Error? && r.failure.Remote? {
        results := results + [Refused(r.failure.message)];
      } else {
        return false, results;
      }
    }
    NothingMore(rest);
    assert cmds[|cmds|..] == [] && rs[|rs|..] == [];
    assert conn.outgoing + [] == conn.outgoing;
    ok := true;
  }

  lemma NothingMore(rest: bytes)
    ensures HexMessages([]) == [] && Replies([]) + rest == rest
  {
  }
}
