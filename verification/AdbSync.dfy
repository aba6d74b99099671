/** The ADB side of directory listings, pulls and pushes: methods over a connection to the device. */
module AdbSync {
  import opened Common
  import opened Wire
  import opened RawConnection
  import opened SyncFormat

  /** The two commands that lead to the sync service. */
  datatype Commands = Commands(transport: bytes, sync: bytes)

  function Greeting(cmds: Commands): bytes {
    HexMessage(cmds.transport) + HexMessage(cmds.sync)
  }

  /** The replies to the two commands, up to the first refusal. */
  function ReadTwoReplies(s: bytes): ReadResult<Reply> {
    match ReadReply(s)
    case Got(Accepted, rest) => ReadReply(rest)
    case other => other
  }

  function ReplyResult(spec: ReadResult<Reply>): Result<()> {
    match spec
    case Got(Accepted, _) => Ok(())
    case Got(Refused(message), _) => Error(Remote(message))
    case Broken => Error(BadStream)
    case Crash => Panic
  }

  /** Both commands are accepted exactly where the stream begins with OKAY twice. */
  lemma AcceptedTwiceIff(s: bytes, rest: bytes)
    ensures ReadTwoReplies(s) == Got(Accepted, rest) <==> s == [79, 75, 65, 89] + ([79, 75, 65, 89] + rest)
  {
    if |s| >= 4 {
      ReplyReadsIff(s, [], s[4..]);
      ReplyReadsIff(s[4..], [], rest);
    }
    ReplyReadsIff(s, [], [79, 75, 65, 89] + rest);
    ReplyReadsIff([79, 75, 65, 89] + rest, [], rest);
    hide ReadReply;
    assert |s| >= 4 ==> s == s[..4] + s[4..];
  }

  /** A refusal of either command is reported with the device's message. */
  lemma RefusalIsReported(second: bool, message: bytes, rest: bytes)
    requires |message| <= 65535
    ensures var refusal := ReplyBytes(Refused(message)) + rest;
            var s := if second then ReplyBytes(Accepted) + refusal else refusal;
            ReplyResult(ReadTwoReplies(s)) == Error(Remote(message)) && ListingResult(s) == Error(Remote(message))
  {
    hide ReadReply, ReplyBytes;
    ReplyReadsBack(Refused(message), rest);
    ReplyReadsBack(Accepted, ReplyBytes(Refused(message)) + rest);
  }

  /** The device reads the command for the transport, then the one for the service. */
  lemma GreetingDecodes(cmds: Commands, rest: bytes)
    requires |cmds.transport| <= 65535 && |cmds.sync| <= 65535
    ensures ReadHexMessages(Greeting(cmds) + rest, 2) == Got([cmds.transport, cmds.sync], rest)
  {
    hide HexMessage, HexMessages, ReadHexMessages;
    var both := [cmds.transport, cmds.sync];
    HexMessagesReadBack(both, rest);
    assert both[1..] == [cmds.sync] && [cmds.sync][1..] == [];
    FirstMessage(both);
    FirstMessage([cmds.sync]);
    NothingMore(rest);
    assert HexMessages(both) == Greeting(cmds);
  }

  method Greet(conn: Conn, cmds: Commands) returns (r: Result<()>)
    requires !conn.closed && !conn.writeFailed
    modifies conn
    ensures old(conn.outgoing) <= conn.outgoing <= old(conn.outgoing) + Greeting(cmds)
    ensures r.Ok? ==>
              && !conn.closed && !conn.writeFailed
              && conn.outgoing == old(conn.outgoing) + Greeting(cmds)
              && ReadTwoReplies(old(conn.Readable())) == Got(Accepted, conn.Readable())
    ensures r.Error? ==> conn.closed
    ensures conn.writeFailed ==> r == Error(BadStream)
    ensures !conn.writeFailed ==> r == ReplyResult(ReadTwoReplies(old(conn.Readable())))
  {
    ghost var base := conn.outgoing;
    r := conn.SendCommand(cmds.transport);
    assert base + Greeting(cmds) == base + HexMessage(cmds.transport) + HexMessage(cmds.sync);
    if !r.Ok? {
      PrefixOfSum(conn.outgoing, base + HexMessage(cmds.transport), HexMessage(cmds.sync));
      conn.Close();
      return;
    }
    r := conn.SendCommand(cmds.sync);
    if !r.Ok? {
      conn.Close();
    }
  }

  /**
   Connects to the emulator, switches the connection to the sync service and sends one request. Any
   failure closes the connection.
   */
  method OpenSync(conn: Conn, cmds: Commands, request: bytes) returns (r: Result<()>)
    requires !conn.closed && !conn.writeFailed
    modifies conn
    ensures old(conn.outgoing) <= conn.outgoing <= old(conn.outgoing) + (Greeting(cmds) + request)
    ensures r.Ok? ==>
              && !conn.closed && !conn.writeFailed
              && conn.outgoing == old(conn.outgoing) + (Greeting(cmds) + request)
              && ReadTwoReplies(old(conn.Readable())) == Got(Accepted, conn.Readable())
    ensures r.Error? ==> conn.closed
    ensures conn.writeFailed ==> r == Error(BadStream)
    ensures !conn.writeFailed ==> r == ReplyResult(ReadTwoReplies(old(conn.Readable())))
  {
    ghost var base, greeting := conn.outgoing, Greeting(cmds);
    assert base + (greeting + request) == base + greeting + request;
    r := Greet(conn, cmds);
    if !r.Ok? {
      PrefixOfSum(conn.outgoing, base + greeting, request);
      return;
    }
    var ok := conn.WriteRaw(request);
    if !ok {
      conn.Close();
      r := Error(BadStream);
    }
  }

  // ---------------------------------------------------------------- listing

  function ListingOutcome(spec: ReadResult<Option<seq<DirEntry>>>): Result<seq<DirEntry>> {
    match spec
    case Got(Some(entries), _) => Ok(entries)
    case Got(None, _) => Error(Unexpected)
    case Broken => Error(BadStream)
    case Crash => Panic
  }

  /** What a listing makes of the device's whole byte stream. */
  function ListingResult(s: bytes): Result<seq<DirEntry>> {
    match ReadTwoReplies(s)
    case Got(Accepted, rest) => ListingOutcome(ReadListing(rest))
    case Got(Refused(message), _) => Error(Remote(message))
    case Broken => Error(BadStream)
    case Crash => Panic
  }

  /** The device accepts both commands and lists exactly these entries. */
  ghost predicate DeviceLists(s: bytes, entries: seq<DirEntry>) {
    exists body: bytes, rest: bytes :: s == [79, 75, 65, 89] + ([79, 75, 65, 89] + body) && Lists(body, entries, rest)
  }

  /** A listing succeeds with these entries on exactly the streams that say so; otherwise an error comes back. */
  lemma ListingSucceedsIff(s: bytes, entries: seq<DirEntry>)
    ensures ListingResult(s) == Ok(entries) <==> DeviceLists(s, entries)
  {
    hide ReadListing, ReadTwoReplies, Lists;
    if ListingResult(s) == Ok(entries) {
      var body := ReadTwoReplies(s).rest;
      AcceptedTwiceIff(s, body);
      ListingReadsIff(body, entries, ReadListing(body).rest);
    }
    if DeviceLists(s, entries) {
      var body: bytes, rest: bytes :| s == [79, 75, 65, 89] + ([79, 75, 65, 89] + body) && Lists(body, entries, rest);
      AcceptedTwiceIff(s, body);
      ListingReadsIff(body, entries, rest);
    }
  }

  method ListDirectory(conn: Conn, cmds: Commands, path: bytes) returns (r: Result<seq<DirEntry>>)
    requires !conn.closed && !conn.writeFailed
    modifies conn
    ensures old(conn.outgoing) <= conn.outgoing <= old(conn.outgoing) + (Greeting(cmds) + ListRequest(path))
    ensures conn.writeFailed ==> r == Error(BadStream)
    ensures !conn.writeFailed ==> r == ListingResult(old(conn.Readable()))
    ensures r.Ok? ==> conn.outgoing == old(conn.outgoing) + (Greeting(cmds) + ListRequest(path))
    ensures !r.Panic? ==> conn.closed
  {
    var greeted := OpenSync(conn, cmds, Header(ID_LIST_V2, |path|) + path);
    match greeted {
      case Error(f) => return Error(f);
      case Panic => return Panic;
      case Ok(_) =>
    }
    r := ReadEntries(conn);
    conn.Close();
  }

  method ReadEntry(conn: Conn) returns (r: Result<Record>)
    modifies conn`incoming, conn`closed
    ensures Conforms(ReadRecord(old(conn.Readable())), r, conn.Readable(), old(conn.closed), conn.closed)
  {
    ghost var s := conn.Readable();
    var resp := conn.ReadRaw(FILE_STAT_SIZE + 12);
    if resp.Error? {
      return Error(BadStream);
    }
    var packet := resp.value;
    assert packet[0..4] == s[0..4] && packet[4..8] == s[4..8];
    var id := HeaderId(packet);
    var statErr := HeaderArg(packet);
    if id == ID_DONE {
      return Ok(EndOfListing);
    } else if id != ID_DENT_V2 {
      return Ok(Stray);
    }
    assert packet[8..8 + FILE_STAT_SIZE] == s[8..8 + FILE_STAT_SIZE];
    assert packet[8 + FILE_STAT_SIZE..12 + FILE_STAT_SIZE] == s[8 + FILE_STAT_SIZE..12 + FILE_STAT_SIZE];
    var fs := ParseFileStat(packet[8..8 + FILE_STAT_SIZE]);
    var name := conn.ReadRaw(Uint32At(packet, 8 + FILE_STAT_SIZE));
    if name.Error? {
      return Error(BadStream);
    }
    r := Ok(Entry(DirEntry(name.value, statErr, fs)));
  }

  /** What is still to be read, behind the entries already read. */
  ghost function Behind(entries: seq<DirEntry>, spec: ReadResult<Option<seq<DirEntry>>>): ReadResult<Option<seq<DirEntry>>> {
    match spec
    case Got(Some(more), rest) => Got(Some(entries + more), rest)
    case other => other
  }

  lemma BehindOne(entries: seq<DirEntry>, s: bytes)
    requires ReadRecord(s).Got? && ReadRecord(s).value.Entry?
    ensures Behind(entries, ReadListing(s)) == Behind(entries + [ReadRecord(s).value.entry], ReadListing(ReadRecord(s).rest))
  {
    var e, spec := ReadRecord(s).value.entry, ReadListing(ReadRecord(s).rest);
    if spec.Got? && spec.value.Some? {
      assert entries + ([e] + spec.value.value) == (entries + [e]) + spec.value.value;
    }
  }

  /** The read loop. It ends on every finite stream, and takes no byte beyond the DONE record. */
  method ReadEntries(conn: Conn) returns (r: Result<seq<DirEntry>>)
    modifies conn`incoming, conn`closed
    ensures r == ListingOutcome(ReadListing(old(conn.Readable())))
    ensures r.Ok? ==> ReadListing(old(conn.Readable())) == Got(Some(r.value), conn.Readable())
  {
    ghost var whole := ReadListing(conn.Readable());
    var entries: seq<DirEntry> := [];
    assert whole == Behind([], whole) by {
      assert whole.Got? && whole.value.Some? ==> [] + whole.value.value == whole.value.value;
    }
    while true
      invariant whole == Behind(entries, ReadListing(conn.Readable()))
      decreases |conn.Readable()|
    {
      ghost var s := conn.Readable();
      var record := ReadEntry(conn);
      match record {
        case Error(_) => return Error(BadStream);
        case Panic => return Panic;
        case Ok(EndOfListing) =>
          assert entries + [] == entries;
          return Ok(entries);
        case Ok(Stray) => return Error(Unexpected);
        case Ok(Entry(e)) =>
          BehindOne(entries, s);
          entries := entries + [e];
      }
    }
  }

  // ---------------------------------------------------------------- pulling

  class PullFileStream {
    const conn: Conn

    constructor (c: Conn)
      ensures conn == c
    {
      conn := c;
    }

    /** One fragment; Ok(None) is the end of the file. Everything but a fragment closes the connection. */
    method Recv() returns (r: Result<Option<bytes>>)
      modifies conn`incoming, conn`closed
      ensures match ReadPacket(old(conn.Readable()))
              case Got(Data(blob), rest) => r == Ok(Some(blob)) && conn.Readable() == rest && conn.closed == old(conn.closed)
              case Got(Done, _) => r == Ok(None) && conn.closed
              case Got(Fail(message), _) => r == Error(Remote(message)) && conn.closed
              case Got(_, _) => r == Error(Unexpected) && conn.closed
              case _ => r == Error(BadStream) && conn.closed
    {
      ghost var s := conn.Readable();
      var header := conn.ReadRaw(8);
      if header.Error? {
        return Error(BadStream);
      }
      assert header.value[0..4] == s[0..4] && header.value[4..8] == s[4..8];
      var id := HeaderId(header.value);
      var length := HeaderArg(header.value);
      var blob := conn.ReadRaw(length);
      if blob.Error? {
        return Error(BadStream);
      }
      assert s[8..][..length] == s[8..8 + length] && s[8..][length..] == s[8 + length..];
      if id == ID_FAIL {
        conn.Close();
        return Error(Remote(blob.value));
      } else if id == ID_DATA {
        return Ok(Some(blob.value));
      } else if id == ID_DONE {
        conn.Close();
        return Ok(None);
      } else {
        conn.Close();
        return Error(Unexpected);
      }
    }
  }

  method PullFile(conn: Conn, cmds: Commands, path: bytes) returns (r: Result<()>)
    requires !conn.closed && !conn.writeFailed
    modifies conn
    ensures old(conn.outgoing) <= conn.outgoing <= old(conn.outgoing) + (Greeting(cmds) + RecvRequest(path))
    ensures r.Ok? ==>
              && !conn.closed && !conn.writeFailed
              && conn.outgoing == old(conn.outgoing) + (Greeting(cmds) + RecvRequest(path))
              && ReadTwoReplies(old(conn.Readable())) == Got(Accepted, conn.Readable())
    ensures r.Error? ==> conn.closed
    ensures conn.writeFailed ==> r == Error(BadStream)
    ensures !conn.writeFailed ==> r == ReplyResult(ReadTwoReplies(old(conn.Readable())))
  {
    r := OpenSync(conn, cmds, Header(ID_RECV_V2, |path|) + path + Header(ID_RECV_V2, 0));
  }

  // ---------------------------------------------------------------- pushing

  /** What the receipt behind a push says: by its id alone, OKAY, the device's message, or neither. */
  lemma ReceiptSays(id: nat, blob: bytes, rest: bytes)
    requires id < TWO_32 && |blob| < TWO_32
    ensures ReceiptResult(PayloadPacket(id, blob) + rest) ==
            if id == ID_OKAY then Ok(()) else if id == ID_FAIL then Error(Remote(blob)) else Error(Unexpected)
  {
    hide ReadPacket, PayloadPacket;
    PacketReadsBack(id, blob, rest);
    DistinctIds();
  }

  lemma DistinctIds()
    ensures ID_OKAY != ID_FAIL && ID_OKAY != ID_DATA && ID_OKAY != ID_DONE && ID_FAIL != ID_DATA && ID_FAIL != ID_DONE
  {
  }

  /** What the receipt behind a push says. */
  function ReceiptResult(s: bytes): Result<()> {
    match ReadPacket(s)
    case Got(Okay, _) => Ok(())
    case Got(Fail(message), _) => Error(Remote(message))
    case Got(_, _) => Error(Unexpected)
    case _ => Error(BadStream)
  }

  class PushFileStream {
    const conn: Conn

    constructor (c: Conn)
      ensures conn == c
    {
      conn := c;
    }

    /** An oversize chunk contributes no byte. */
    method Send(blob: bytes) returns (r: Result<()>)
      modifies conn`outgoing, conn`closed, conn`writeFailed
      ensures r.Ok? ==>
                && |blob| <= MAX_DATA && !old(conn.closed) && !conn.closed
                && conn.outgoing == old(conn.outgoing) + PayloadPacket(ID_DATA, blob)
                && conn.writeFailed == old(conn.writeFailed)
      ensures !r.Ok? ==> r.Error? && conn.closed
      ensures |blob| > MAX_DATA ==> r == Error(TooLarge) && conn.outgoing == old(conn.outgoing) && conn.writeFailed == old(conn.writeFailed)
      ensures |blob| <= MAX_DATA ==> old(conn.outgoing) <= conn.outgoing <= old(conn.outgoing) + PayloadPacket(ID_DATA, blob)
      ensures |blob| <= MAX_DATA && !r.Ok? ==> conn.writeFailed && r == Error(BadStream)
    {
      if |blob| > MAX_DATA {
        conn.Close();
        return Error(TooLarge);
      }
      ghost var base := conn.outgoing;
      assert base + PayloadPacket(ID_DATA, blob) == base + Header(ID_DATA, |blob|) + blob;
      var ok := conn.WriteRaw(Header(ID_DATA, |blob|));
      if !ok {
        conn.Close();
        return Error(BadStream);
      }
      ok := conn.WriteRaw(blob);
      if !ok {
        conn.Close();
        return Error(BadStream);
      }
      r := Ok(());
    }

    /** The error of writing DONE is dropped, but the receipt cannot then be read: success still means DONE went out. */
    method Done(mtime: uint32) returns (r: Result<()>)
      modifies conn
      ensures conn.closed
      ensures old(conn.outgoing) <= conn.outgoing <= old(conn.outgoing) + DonePacket(mtime)
      ensures !conn.writeFailed ==> conn.outgoing == old(conn.outgoing) + DonePacket(mtime)
      ensures old(conn.writeFailed) ==> conn.writeFailed
      ensures conn.writeFailed && !old(conn.writeFailed) ==> r == Error(BadStream)
      ensures r.Ok? ==> conn.outgoing == old(conn.outgoing) + DonePacket(mtime) && conn.writeFailed == old(conn.writeFailed)
      ensures conn.writeFailed == old(conn.writeFailed) && !old(conn.closed) && !old(conn.writeFailed) ==>
                r == ReceiptResult(old(conn.Readable()))
      ensures !conn.writeFailed && !old(conn.closed) ==>
                match ReadPacket(old(conn.Readable()))
                case Got(Okay, _) => r == Ok(())
                case Got(Fail(message), _) => r == Error(Remote(message))
                case Got(_, _) => r == Error(Unexpected)
                case _ => r == Error(BadStream)
    {
      ghost var s := conn.Readable();
      var _ := conn.WriteRaw(Header(ID_DONE, mtime));
      r := Receipt(conn);
      conn.Close();
    }
  }

  method Receipt(conn: Conn) returns (r: Result<()>)
    modifies conn`incoming, conn`closed
    ensures r == ReceiptResult(old(conn.Readable()))
  {
    ghost var s := conn.Readable();
    var header := conn.ReadRaw(8);
    if header.Error? {
      return Error(BadStream);
    }
    assert header.value[0..4] == s[0..4] && header.value[4..8] == s[4..8];
    var id := HeaderId(header.value);
    var length := HeaderArg(header.value);
    var blob := conn.ReadRaw(length);
    if blob.Error? {
      return Error(BadStream);
    }
    assert s[8..][..length] == s[8..8 + length];
    if id == ID_FAIL {
      return Error(Remote(blob.value));
    } else if id == ID_OKAY {
      return Ok(());
    } else {
      return Error(Unexpected);
    }
  }

  method PushFile(conn: Conn, cmds: Commands, path: bytes, mode: uint32) returns (r: Result<()>)
    requires !conn.closed && !conn.writeFailed
    modifies conn
    ensures old(conn.outgoing) <= conn.outgoing <= old(conn.outgoing) + (Greeting(cmds) + SendRequest(path, mode))
    ensures r.Ok? ==>
              && !conn.closed && !conn.writeFailed
              && conn.outgoing == old(conn.outgoing) + (Greeting(cmds) + SendRequest(path, mode))
              && ReadTwoReplies(old(conn.Readable())) == Got(Accepted, conn.Readable())
    ensures r.Error? ==> conn.closed
    ensures conn.writeFailed ==> r == Error(BadStream)
    ensures !conn.writeFailed ==> r == ReplyResult(ReadTwoReplies(old(conn.Readable())))
  {
    r := OpenSync(conn, cmds, Header(ID_SEND_V2, |path|) + path + Header(ID_SEND_V2, mode) + PutUint32(0));
  }
}

/** The commands themselves. */
module AdbCommands {
  import opened Wire
  import opened AdbSync

  const TRANSPORT_COMMAND := Ascii("host:transport-local")
  const SYNC_COMMAND := Ascii("sync:")
  const COMMANDS := Commands(TRANSPORT_COMMAND, SYNC_COMMAND)
}
