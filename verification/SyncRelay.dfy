/** The remote messages of the sync calls. */
module SyncProtocol {
  import opened Common
  import opened SyncFormat

  datatype ProtoStat = ProtoStat(
    dev: uint64, ino: uint64, mode: uint32, nlink: uint32, uid: uint32, gid: uint32,
    size: uint64, atime: int64, mtime: int64, ctime: int64)

  datatype StatChoice = StatError(code: uint32) | StatValue(value: ProtoStat) | NotSet
  datatype ListingEntry = ListingEntry(name: bytes, stat: StatChoice)

  /** An empty fragment and an absent one are the same message. */
  datatype PullMessage = PullMessage(data: bytes, last: bool)

  datatype PushRequest = Start(path: bytes, mode: uint32) | Chunk(data: bytes) | End(mtime: uint32) | Other
}

/** The agent's half: between the device's streams and the remote messages. */
module ServerSync {
  import opened Common
  import opened Wire
  import opened RawConnection
  import opened Rpc
  import opened SyncFormat
  import opened SyncProtocol
  import AdbSync

  function ConvertFileStat(st: FileStat): ProtoStat {
    ProtoStat(st.dev, st.ino, st.mode, st.nlink, st.uid, st.gid, st.size, st.atime, st.mtime, st.ctime)
  }

  function ConvertEntry(e: DirEntry): ListingEntry {
    if e.statError != 0 then ListingEntry(e.name, StatError(e.statError))
    else ListingEntry(e.name, StatValue(ConvertFileStat(e.stat)))
  }

  method ConvertListing(entries: seq<DirEntry>) returns (result: seq<ListingEntry>)
    ensures |result| == |entries| && forall i :: 0 <= i < |entries| ==> result[i] == ConvertEntry(entries[i])
  {
    result := [];
    for k := 0 to |entries|
      invariant |result| == k && forall i :: 0 <= i < k ==> result[i] == ConvertEntry(entries[i])
    {
      var entry := entries[k];
      if entry.statError != 0 {
        result := result + [ListingEntry(entry.name, StatError(entry.statError))];
      } else {
        result := result + [ListingEntry(entry.name, StatValue(ConvertFileStat(entry.stat)))];
      }
    }
  }

  // ---------------------------------------------------------------- pulling

  /** All messages a pull sends when no send fails, and whether it ends without an error. */
  function PullMessages(s: bytes): (seq<PullMessage>, bool)
    decreases |s|
  {
    match ReadPacket(s)
    case Got(Data(blob), rest) =>
      var (more, ok) := PullMessages(rest);
      ([PullMessage(blob, false)] + more, ok)
    case Got(Done, _) => ([PullMessage([], true)], true)
    case _ => ([], false)
  }

  /** The next packet decides, and is taken off the stream. */
  lemma MessagesOf(s: bytes)
    ensures ReadPacket(s).Got? ==> |ReadPacket(s).rest| < |s|
    ensures match ReadPacket(s)
            case Got(Data(blob), rest) =>
              PullMessages(s).0 == [PullMessage(blob, false)] + PullMessages(rest).0 && PullMessages(s).1 == PullMessages(rest).1
            case Got(Done, _) => PullMessages(s) == ([PullMessage([], true)], true)
            case _ => PullMessages(s) == ([], false)
  {
  }

  lemma OneMoreMessage(base: seq<PullMessage>, done: seq<PullMessage>, message: PullMessage, more: seq<PullMessage>)
    ensures done + ([message] + more) == (done + [message]) + more
    ensures base + done + [message] == base + (done + [message]) <= base + ((done + [message]) + more)
    ensures done + [] == done
  {
  }

  /** The relay loop of a pull whose request was accepted. */
  method RelayFragments(conn: Conn, server: Sink<PullMessage>) returns (ok: bool)
    modifies conn`incoming, conn`closed, server
    ensures old(server.sent) <= server.sent <= old(server.sent) + PullMessages(old(conn.Readable())).0
    ensures !server.broken || ok ==>
              server.sent == old(server.sent) + PullMessages(old(conn.Readable())).0 && ok == PullMessages(old(conn.Readable())).1
    ensures conn.closed
  {
    hide PullMessages, ReadPacket;
    var stream := new AdbSync.PullFileStream(conn);
    ghost var base := server.sent;
    ghost var all := PullMessages(conn.Readable());
    ghost var done: seq<PullMessage> := [];
    while true
      invariant stream.conn == conn
      invariant server.sent == base + done
      invariant server.broken == old(server.broken)
      invariant all.0 == done + PullMessages(conn.Readable()).0 && all.1 == PullMessages(conn.Readable()).1
      decreases |conn.Readable()|
    {
      ghost var s := conn.Readable();
      MessagesOf(s);
      OneMoreMessage(base, done, PullMessage([], true), []);
      var fragment := stream.Recv();
      if !fragment.Ok? {
        conn.Close();
        return false;
      }
      if fragment.value.None? {
        ok := server.Send(PullMessage([], true));
        conn.Close();
        return;
      }
      ghost var message, more := PullMessage(fragment.value.value, false), PullMessages(conn.Readable()).0;
      OneMoreMessage(base, done, message, more);
      var sent := server.Send(PullMessage(fragment.value.value, false));
      if !sent {
        conn.Close();
        return false;
      }
      done := done + [message];
    }
  }

  /** The messages a whole pull would send: none unless the device accepts both commands. */
  function AllMessages(s: bytes): (seq<PullMessage>, bool) {
    match AdbSync.ReadTwoReplies(s)
    case Got(Accepted, rest) => PullMessages(rest)
    case _ => ([], false)
  }

  /** A whole pull: opening it, then the relay loop. */
  method PullFile(conn: Conn, cmds: AdbSync.Commands, path: bytes, server: Sink<PullMessage>) returns (ok: bool)
    requires !conn.closed && !conn.writeFailed
    modifies conn, server
    ensures old(conn.outgoing) <= conn.outgoing <= old(conn.outgoing) + (AdbSync.Greeting(cmds) + RecvRequest(path))
    ensures old(server.sent) <= server.sent <= old(server.sent) + AllMessages(old(conn.Readable())).0
    ensures ok ==> AllMessages(old(conn.Readable())).1 && server.sent == old(server.sent) + AllMessages(old(conn.Readable())).0
    ensures ok || server.sent != old(server.sent) ==>
              && AdbSync.ReadTwoReplies(old(conn.Readable())).Got? && AdbSync.ReadTwoReplies(old(conn.Readable())).value == Accepted
              && conn.outgoing == old(conn.outgoing) + (AdbSync.Greeting(cmds) + RecvRequest(path))
    ensures AdbSync.ReadTwoReplies(old(conn.Readable())).Got? && AdbSync.ReadTwoReplies(old(conn.Readable())).value == Accepted ==>
              conn.writeFailed || conn.outgoing == old(conn.outgoing) + (AdbSync.Greeting(cmds) + RecvRequest(path))
    ensures !conn.writeFailed && !server.broken ==>
              server.sent == old(server.sent) + AllMessages(old(conn.Readable())).0 && ok == AllMessages(old(conn.Readable())).1
  {
    hide PullMessages, AdbSync.ReadTwoReplies, AdbSync.Greeting, RecvRequest;
    var opening := AdbSync.PullFile(conn, cmds, path);
    if !opening.Ok? {
      return false;
    }
    ok := RelayFragments(conn, server);
  }

  // ---------------------------------------------------------------- pushing

  /** The packet a push sends for one request behind Start, if it sends one. */
  function PlanOne(req: PushRequest): bytes {
    match req
    case Chunk(data) => if |data| > MAX_DATA then [] else PayloadPacket(ID_DATA, data)
    case End(mtime) => DonePacket(mtime)
    case _ => []
  }

  /** Only a chunk of allowed size lets the push go on. */
  predicate Stops(req: PushRequest) {
    !(req.Chunk? && |req.data| <= MAX_DATA)
  }

  /** The packets for all requests, up to the first that ends or breaks the push. */
  function Plan(reqs: seq<PushRequest>): bytes {
    if reqs == [] then []
    else if Stops(reqs[0]) then PlanOne(reqs[0])
    else PlanOne(reqs[0]) + Plan(reqs[1..])
  }

  /** The requests end the transfer properly: chunks of allowed size, then End. */
  predicate Completes(reqs: seq<PushRequest>) {
    reqs != [] && if Stops(reqs[0]) then reqs[0].End? else Completes(reqs[1..])
  }

  /** What a request that stops the push makes of it, given the device's receipt. */
  function Verdict(req: PushRequest, receipt: Result<()>): Result<()> {
    match req
    case End(_) => receipt
    case Chunk(_) => Error(TooLarge)
    case _ => Error(Unexpected)
  }

  /** The result of a push whose writes all succeed. */
  function PushResult(reqs: seq<PushRequest>, receipt: Result<()>): Result<()> {
    if reqs == [] then Error(BadStream)
    else if Stops(reqs[0]) then Verdict(reqs[0], receipt)
    else PushResult(reqs[1..], receipt)
  }

  lemma {:induction false} SuccessMeansComplete(reqs: seq<PushRequest>, receipt: Result<()>)
    ensures PushResult(reqs, receipt).Ok? <==> Completes(reqs) && receipt.Ok?
  {
    if reqs != [] && !Stops(reqs[0]) {
      SuccessMeansComplete(reqs[1..], receipt);
    }
  }

  /** Requests of allowed chunks. */
  function ChunkRequests(chunks: seq<bytes>): seq<PushRequest> {
    if chunks == [] then [] else [Chunk(chunks[0])] + ChunkRequests(chunks[1..])
  }

  /** What becomes of a push behind allowed chunks, by the request that comes then or the end of the requests. */
  lemma {:induction false} PushEndsAs(chunks: seq<bytes>, then_: seq<PushRequest>, receipt: Result<()>)
    requires forall i :: 0 <= i < |chunks| ==> |chunks[i]| <= 65536
    ensures var r := PushResult(ChunkRequests(chunks) + then_, receipt);
            && (then_ == [] ==> r == Error(BadStream))
            && (then_ != [] && then_[0].End? ==> r == receipt)
            && (then_ != [] && then_[0].Chunk? && |then_[0].data| > 65536 ==> r == Error(TooLarge))
            && (then_ != [] && (then_[0].Start? || then_[0].Other?) ==> r == Error(Unexpected))
  {
    if chunks == [] {
      assert ChunkRequests(chunks) + then_ == then_;
    } else {
      assert (ChunkRequests(chunks) + then_)[1..] == ChunkRequests(chunks[1..]) + then_;
      PushEndsAs(chunks[1..], then_, receipt);
    }
  }

  /** The relay's reaction to one request. */
  method Serve(stream: AdbSync.PushFileStream, req: PushRequest) returns (go: bool, r: Result<()>)
    requires !stream.conn.closed && !stream.conn.writeFailed
    modifies stream.conn
    ensures go ==>
              && !Stops(req) && !stream.conn.closed && !stream.conn.writeFailed
              && stream.conn.outgoing == old(stream.conn.outgoing) + PlanOne(req)
              && stream.conn.Readable() == old(stream.conn.Readable())
    ensures !go ==>
              && stream.conn.closed
              && old(stream.conn.outgoing) <= stream.conn.outgoing <= old(stream.conn.outgoing) + PlanOne(req)
    ensures !go && stream.conn.writeFailed ==> r == Error(BadStream)
    ensures !go && !stream.conn.writeFailed ==>
              && Stops(req) && r == Verdict(req, AdbSync.ReceiptResult(old(stream.conn.Readable())))
              && stream.conn.outgoing == old(stream.conn.outgoing) + PlanOne(req)
  {
    match req {
      case Chunk(data) =>
        r := stream.Send(data);
        go := r.Ok?;
      case End(mtime) =>
        r := stream.Done(mtime);
        go := false;
      case _ =>
        r := Error(Unexpected);
        go := false;
        assert stream.conn.outgoing + [] == stream.conn.outgoing;
    }
    if !go {
      stream.conn.Close();
    }
  }

  /** The relay loop of a push, behind its accepted request. */
  method RelayChunks(conn: Conn, server: Source<PushRequest>) returns (r: Result<()>)
    requires !conn.closed && !conn.writeFailed
    modifies conn, server
    ensures conn.closed
    ensures old(conn.outgoing) <= conn.outgoing <= old(conn.outgoing) + Plan(old(server.pending))
    ensures conn.writeFailed ==> r == Error(BadStream)
    ensures !conn.writeFailed ==>
              && conn.outgoing == old(conn.outgoing) + Plan(old(server.pending))
              && r == PushResult(old(server.pending), AdbSync.ReceiptResult(old(conn.Readable())))
  {
    hide PlanOne, AdbSync.ReceiptResult;
    var stream := new AdbSync.PushFileStream(conn);
    ghost var base, reqs, s := conn.outgoing, server.pending, conn.Readable();
    ghost var receipt := AdbSync.ReceiptResult(s);
    ghost var done: bytes := [];
    assert Plan(reqs) == [] + Plan(reqs);
    while true
      invariant stream.conn == conn && !conn.closed && !conn.writeFailed
      invariant conn.Readable() == s
      invariant conn.outgoing == base + done
      invariant Plan(reqs) == done + Plan(server.pending)
      invariant PushResult(reqs, receipt) == PushResult(server.pending, receipt)
      decreases |server.pending|
    {
      ghost var pending := server.pending;
      var rmsg := server.Recv();
      if rmsg.None? {
        conn.Close();
        return Error(BadStream);
      }
      var go;
      go, r := Serve(stream, rmsg.value);
      ghost var packet, tail := PlanOne(pending[0]), if Stops(pending[0]) then [] else Plan(pending[1..]);
      assert Plan(pending) == packet + tail;
      if !go {
        OnTheWay(base, done, packet, tail, conn.outgoing);
        return;
      }
      assert done + (packet + tail) == (done + packet) + tail;
      assert base + done + packet == base + (done + packet);
      done := done + packet;
    }
  }

  /** All bytes of a push that nothing interrupts. */
  function WholePush(cmds: AdbSync.Commands, reqs: seq<PushRequest>): bytes {
    if reqs == [] || !reqs[0].Start? then []
    else (AdbSync.Greeting(cmds) + SendRequest(reqs[0].path, reqs[0].mode)) + Plan(reqs[1..])
  }

  /** A whole push: the first request must be Start. */
  method PushFile(conn: Conn, cmds: AdbSync.Commands, server: Source<PushRequest>) returns (r: Result<()>)
    requires !conn.closed && !conn.writeFailed
    modifies conn, server
    ensures old(conn.outgoing) <= conn.outgoing <= old(conn.outgoing) + WholePush(cmds, old(server.pending))
    ensures old(server.pending) == [] || !old(server.pending)[0].Start? ==> r.Error?
    ensures r.Ok? ==>
              && old(server.pending) != [] && old(server.pending)[0].Start? && Completes(old(server.pending)[1..])
              && conn.outgoing == old(conn.outgoing) + WholePush(cmds, old(server.pending))
              && AdbSync.ReadTwoReplies(old(conn.Readable())).Got? && AdbSync.ReadTwoReplies(old(conn.Readable())).value == Accepted
              && AdbSync.ReceiptResult(AdbSync.ReadTwoReplies(old(conn.Readable())).rest).Ok?
    ensures !conn.writeFailed && old(server.pending) != [] && old(server.pending)[0].Start? ==>
              match AdbSync.ReadTwoReplies(old(conn.Readable()))
              case Got(Accepted, rest) => r == PushResult(old(server.pending)[1..], AdbSync.ReceiptResult(rest))
              case refused => r == AdbSync.ReplyResult(refused)
  {
    hide SendRequest, AdbSync.Greeting, Completes, Plan, AdbSync.ReadTwoReplies, AdbSync.ReceiptResult;
    ghost var base, reqs := conn.outgoing, server.pending;
    var initMsg := server.Recv();
    if initMsg.None? {
      return Error(BadStream);
    }
    if !initMsg.value.Start? {
      return Error(Unexpected);
    }
    var start := initMsg.value;
    ghost var request, plan := AdbSync.Greeting(cmds) + SendRequest(start.path, start.mode), Plan(reqs[1..]);
    assert WholePush(cmds, reqs) == request + plan;
    r := AdbSync.PushFile(conn, cmds, start.path, start.mode);
    if !r.Ok? {
      OnTheWay(base, [], request, plan, conn.outgoing);
      assert [] + (request + plan) == request + plan;
      return;
    }
    ghost var s := conn.Readable();
    r := RelayChunks(conn, server);
    OnTheWay(base, request, plan, [], conn.outgoing);
    assert request + (plan + []) == request + plan;
    SuccessMeansComplete(reqs[1..], AdbSync.ReceiptResult(s));
  }
}

/** The client's half: between the remote messages and the caller. */
module ClientSync {
  import opened Common
  import opened Rpc
  import opened SyncFormat
  import opened SyncProtocol

  datatype ClientStat = ClientStat(
    dev: uint64, ino: uint64, mode: uint32, nlink: uint32, uid: uint32, gid: uint32,
    size: uint64, atime: int64, mtime: int64, ctime: int64)

  datatype ClientEntry = ClientEntry(name: bytes, statError: uint32, stat: Option<ClientStat>)

  function ConvertFileStat(st: ProtoStat): ClientStat {
    ClientStat(st.dev, st.ino, st.mode, st.nlink, st.uid, st.gid, st.size, st.atime, st.mtime, st.ctime)
  }

  function ConvertEntry(e: ListingEntry): ClientEntry
    requires !e.stat.NotSet?
  {
    match e.stat
    case StatError(code) => ClientEntry(e.name, code, None)
    case StatValue(value) => ClientEntry(e.name, 0, Some(ConvertFileStat(value)))
  }

  /** None when an entry says neither. */
  method ConvertListing(entries: seq<ListingEntry>) returns (result: Option<seq<ClientEntry>>)
    ensures result.None? <==> exists i :: 0 <= i < |entries| && entries[i].stat.NotSet?
    ensures result.Some? ==>
              |result.value| == |entries| &&
              forall i :: 0 <= i < |entries| ==> !entries[i].stat.NotSet? && result.value[i] == ConvertEntry(entries[i])
  {
    var converted: seq<ClientEntry> := [];
    for k := 0 to |entries|
      invariant |converted| == k
      invariant forall i :: 0 <= i < k ==> !entries[i].stat.NotSet? && converted[i] == ConvertEntry(entries[i])
    {
      var newEntry := ClientEntry(entries[k].name, 0, None);
      match entries[k].stat {
        case StatError(code) => newEntry := newEntry.(statError := code);
        case StatValue(value) => newEntry := newEntry.(stat := Some(ConvertFileStat(value)));
        case NotSet => return None;
      }
      converted := converted + [newEntry];
    }
    result := Some(converted);
  }

  datatype Fragment = Bytes(data: bytes) | Nothing | Failed

  /** An empty message decodes to no fragment, the same answer as the end of the file. */
  function Decode(data: bytes): Fragment {
    if data == [] then Nothing else Bytes(data)
  }

  class PullStream {
    const server: Source<PullMessage>
    var complete: bool

    constructor (s: Source<PullMessage>)
      ensures server == s && !complete
    {
      server := s;
      complete := false;
    }

    method Recv() returns (f: Fragment)
      modifies this, server
      ensures old(complete) ==> f == Nothing && complete && server.pending == old(server.pending)
      ensures !old(complete) && old(server.pending) == [] ==> f == Failed && !complete && server.pending == []
      ensures !old(complete) && old(server.pending) != [] ==>
                && f == Decode(old(server.pending)[0].data)
                && complete == old(server.pending)[0].last
                && server.pending == old(server.pending)[1..]
    {
      if complete {
        return Nothing;
      }
      var resp := server.Recv();
      if resp.None? {
        return Failed;
      }
      if resp.value.last {
        complete := true;
      }
      f := Decode(resp.value.data);
    }
  }

  /** What a caller has who calls Recv until there is nothing more, or an error. */
  datatype Download = Download(data: bytes, complete: bool, failed: bool)

  function Drain(messages: seq<PullMessage>): Download {
    if messages == [] then Download([], false, true)
    else if messages[0].data == [] then Download([], messages[0].last, false)
    else if messages[0].last then Download(messages[0].data, true, false)
    else
      var rest := Drain(messages[1..]);
      rest.(data := messages[0].data + rest.data)
  }

  /** The documented reading loop, over the real stream object. */
  method ReadAll(stream: PullStream) returns (d: Download)
    requires !stream.complete
    modifies stream, stream.server
    ensures d == Drain(old(stream.server.pending))
  {
    var data: bytes := [];
    ghost var all := stream.server.pending;
    while true
      invariant !stream.complete ==> Drain(all) == Drain(stream.server.pending).(data := data + Drain(stream.server.pending).data)
      invariant stream.complete ==> Drain(all) == Download(data, true, false)
      decreases !stream.complete, |stream.server.pending|
    {
      ghost var pending := stream.server.pending;
      var was := stream.complete;
      var f := stream.Recv();
      match f {
        case Nothing =>
          assert data + [] == data;
          return Download(data, stream.complete, false);
        case Failed =>
          assert data + [] == data;
          return Download(data, stream.complete, true);
        case Bytes(fragment) =>
          assert !pending[0].last ==> data + (fragment + Drain(pending[1..]).data) == (data + fragment) + Drain(pending[1..]).data;
          data := data + fragment;
      }
    }
  }

  /** Opening a push asks for the path with its mode. */
  method OpenPush(server: Sink<PushRequest>, path: bytes, mode: uint32) returns (ok: bool, stream: PushStream)
    modifies server
    ensures stream.server == server && fresh(stream)
    ensures ok ==> server.sent == old(server.sent) + [Start(path, mode)]
    ensures !ok ==> server.sent == old(server.sent)
  {
    ok := server.Send(Start(path, mode));
    stream := new PushStream(server);
  }

  class PushStream {
    const server: Sink<PushRequest>

    constructor (s: Sink<PushRequest>)
      ensures server == s
    {
      server := s;
    }

    method Send(blob: bytes) returns (ok: bool)
      modifies server
      ensures ok ==> server.sent == old(server.sent) + [Chunk(blob)]
      ensures !ok ==> server.sent == old(server.sent)
    {
      ok := server.Send(Chunk(blob));
    }

    method Finish(mtime: uint32) returns (ok: bool)
      modifies server
      ensures ok ==> server.sent == old(server.sent) + [End(mtime)]
      ensures !ok ==> server.sent == old(server.sent)
    {
      ok := server.Send(End(mtime));
    }
  }
}

/** The transfers from end to end: device, agent, client. */
module SyncEndToEnd {
  import opened Rpc
  import opened Common
  import opened Wire
  import opened RawConnection
  import opened SyncFormat
  import opened SyncProtocol
  import AdbSync
  import ServerSync
  import ClientSync

  // ---------------------------------------------------------------- listing

  /** What the client should see of a device entry: its name with the nonzero stat error, or with all ten fields. */
  predicate SeenBy(e: DirEntry, c: ClientSync.ClientEntry) {
    && c.name == e.name
    && c.statError == e.statError
    && (e.statError != 0 ==> c.stat == None)
    && (e.statError == 0 ==>
          && c.stat.Some?
          && c.stat.value.dev == e.stat.dev && c.stat.value.ino == e.stat.ino && c.stat.value.mode == e.stat.mode
          && c.stat.value.nlink == e.stat.nlink && c.stat.value.uid == e.stat.uid && c.stat.value.gid == e.stat.gid
          && c.stat.value.size == e.stat.size && c.stat.value.atime == e.stat.atime
          && c.stat.value.mtime == e.stat.mtime && c.stat.value.ctime == e.stat.ctime)
  }

  lemma CleanListing(entries: seq<DirEntry>, filler: bytes, rest: bytes)
    requires |filler| == FILE_STAT_SIZE + 8
    requires forall i :: 0 <= i < |entries| ==> |entries[i].name| < TWO_32
    ensures AdbSync.ListingResult(OKAY + (OKAY + (ListingBytes(entries, filler) + rest))) == Ok(entries)
  {
    AcceptedTwice(ListingBytes(entries, filler) + rest);
    ListingReadsBack(entries, filler, rest);
  }

  /** Agent and client together, from the device's stream to the caller. None is an error at either end. */
  method ListDirectory(conn: Conn, cmds: AdbSync.Commands, path: bytes) returns (result: Option<seq<ClientSync.ClientEntry>>)
    requires !conn.closed && !conn.writeFailed
    modifies conn
    ensures !conn.writeFailed ==>
              match AdbSync.ListingResult(old(conn.Readable()))
              case Ok(entries) =>
                result.Some? && |result.value| == |entries| && forall i :: 0 <= i < |entries| ==> SeenBy(entries[i], result.value[i])
              case _ => result.None?
    ensures conn.writeFailed ==> result.None?
    ensures result.Some? ==> exists entries: seq<DirEntry> ::
              AdbSync.DeviceLists(old(conn.Readable()), entries) && |entries| == |result.value|
              && forall i :: 0 <= i < |entries| ==> SeenBy(entries[i], result.value[i])
    ensures !conn.writeFailed && result.None? ==> forall entries: seq<DirEntry> :: !AdbSync.DeviceLists(old(conn.Readable()), entries)
    ensures result.Some? && |path| < TWO_32 ==>
              && old(conn.outgoing) + AdbSync.Greeting(cmds) <= conn.outgoing
              && DecodeList(conn.outgoing[|old(conn.outgoing)| + |AdbSync.Greeting(cmds)|..]) == Got(path, [])
  {
    hide AdbSync.Greeting, ListRequest, AdbSync.ListingResult, AdbSync.DeviceLists, DecodeList, SeenBy;
    ghost var s, base := conn.Readable(), conn.outgoing;
    forall entries: seq<DirEntry>
      ensures AdbSync.ListingResult(s) == Ok(entries) <==> AdbSync.DeviceLists(s, entries)
    {
      AdbSync.ListingSucceedsIff(s, entries);
    }
    ListRequestRoundTripIff(path, []);
    BehindGreeting(base, AdbSync.Greeting(cmds), ListRequest(path));
    var r := AdbSync.ListDirectory(conn, cmds, path);
    if !r.Ok? {
      return None;
    }
    var sent := ServerSync.ConvertListing(r.value);
    result := ClientSync.ConvertListing(sent);
    forall i | 0 <= i < |r.value|
      ensures SeenBy(r.value[i], result.value[i])
    {
      EntryIsSeen(r.value[i]);
    }
  }

  lemma EntryIsSeen(e: DirEntry)
    ensures SeenBy(e, ClientSync.ConvertEntry(ServerSync.ConvertEntry(e)))
  {
  }

  lemma BehindGreeting(base: bytes, greeting: bytes, request: bytes)
    ensures var out := base + (greeting + request);
            && base + greeting <= out && out[|base| + |greeting|..] == request && request + [] == request
  {
    assert base + (greeting + request) == (base + greeting) + request;
  }

  lemma AcceptedTwice(s: bytes)
    ensures AdbSync.ReadTwoReplies(OKAY + (OKAY + s)) == Got(Accepted, s)
  {
  }

  // ---------------------------------------------------------------- pulling

  /** How a device may end a pull. */
  datatype Ending = AtDone | AtFail(message: bytes) | AtStrange(id: nat, payload: bytes) | CutOff(part: bytes)

  predicate PossibleEnding(e: Ending) {
    match e
    case AtDone => true
    case AtFail(message) => |message| < TWO_32
    case AtStrange(id, payload) => id < TWO_32 && id != ID_DATA && id != ID_DONE && |payload| < TWO_32
    case CutOff(part) => ReadPacket(part).Broken?
  }

  function EndingBytes(e: Ending): bytes {
    match e
    case AtDone => PayloadPacket(ID_DONE, [])
    case AtFail(message) => PayloadPacket(ID_FAIL, message)
    case AtStrange(id, payload) => PayloadPacket(id, payload)
    case CutOff(part) => part
  }

  function Fragments(frames: seq<bytes>): seq<PullMessage> {
    if frames == [] then [] else [PullMessage(frames[0], false)] + Fragments(frames[1..])
  }

  lemma EndingAlone(end: Ending)
    requires PossibleEnding(end)
    ensures ServerSync.PullMessages(EndingBytes(end)) == (if end.AtDone? then [PullMessage([], true)] else [], end.AtDone?)
  {
    var s := EndingBytes(end);
    assert s + [] == s;
    match end
    case AtDone => PacketReadsBack(ID_DONE, [], []);
    case AtFail(message) => PacketReadsBack(ID_FAIL, message, []);
    case AtStrange(id, payload) => PacketReadsBack(id, payload, []);
    case CutOff(_) =>
  }

  function LastMessage(end: Ending): seq<PullMessage> {
    if end.AtDone? then [PullMessage([], true)] else []
  }

  lemma {:induction false} PullMessagesOf(frames: seq<bytes>, end: Ending)
    requires forall i :: 0 <= i < |frames| ==> |frames[i]| < TWO_32
    requires PossibleEnding(end)
    ensures ServerSync.PullMessages(DataFrames(frames) + EndingBytes(end)) == (Fragments(frames) + LastMessage(end), end.AtDone?)
  {
    if frames == [] {
      assert DataFrames(frames) + EndingBytes(end) == EndingBytes(end);
      EndingAlone(end);
      assert Fragments(frames) + LastMessage(end) == LastMessage(end);
    } else {
      var blob, more := frames[0], frames[1..];
      var tail := DataFrames(more) + EndingBytes(end);
      var s := PayloadPacket(ID_DATA, blob) + tail;
      assert DataFrames(frames) + EndingBytes(end) == s;
      PacketReadsBack(ID_DATA, blob, tail);
      PullMessagesOf(more, end);
      PullMessagesStep(s, blob, tail);
      assert [PullMessage(blob, false)] + (Fragments(more) + LastMessage(end)) == Fragments(frames) + LastMessage(end);
    }
  }

  lemma PullMessagesStep(s: bytes, blob: bytes, rest: bytes)
    requires ReadPacket(s) == Got(Data(blob), rest)
    ensures ServerSync.PullMessages(s) ==
            ([PullMessage(blob, false)] + ServerSync.PullMessages(rest).0, ServerSync.PullMessages(rest).1)
  {
  }

  /** Exactly one message is marked last, and it is the final one; without DONE there is none. */
  lemma {:induction false} OneLastMessage(frames: seq<bytes>, end: Ending)
    requires forall i :: 0 <= i < |frames| ==> |frames[i]| < TWO_32
    requires PossibleEnding(end)
    ensures var messages := ServerSync.PullMessages(DataFrames(frames) + EndingBytes(end)).0;
            forall i :: 0 <= i < |messages| ==> (messages[i].last <==> end.AtDone? && i == |messages| - 1)
  {
    PullMessagesOf(frames, end);
    FragmentsAreNotLast(frames);
  }

  lemma {:induction false} FragmentsAreNotLast(frames: seq<bytes>)
    ensures |Fragments(frames)| == |frames|
    ensures forall i :: 0 <= i < |frames| ==> Fragments(frames)[i] == PullMessage(frames[i], false)
  {
    if frames != [] {
      FragmentsAreNotLast(frames[1..]);
    }
  }

  /** The frames in front of the first empty one. */
  function UntilEmpty(frames: seq<bytes>): seq<bytes> {
    if frames == [] || frames[0] == [] then [] else [frames[0]] + UntilEmpty(frames[1..])
  }

  ghost predicate NoneEmpty(frames: seq<bytes>) {
    forall i :: 0 <= i < |frames| ==> frames[i] != []
  }

  lemma {:induction false} DrainOf(frames: seq<bytes>, last: seq<PullMessage>)
    requires last == [] || last == [PullMessage([], true)]
    ensures ClientSync.Drain(Fragments(frames) + last) ==
            ClientSync.Download(Flatten(UntilEmpty(frames)), NoneEmpty(frames) && last != [], NoneEmpty(frames) && last == [])
  {
    var messages := Fragments(frames) + last;
    if frames == [] {
      assert messages == last;
    } else {
      assert messages[0] == PullMessage(frames[0], false);
      assert messages[1..] == Fragments(frames[1..]) + last;
      if frames[0] != [] {
        DrainOf(frames[1..], last);
        assert NoneEmpty(frames) <==> NoneEmpty(frames[1..]) by {
          assert frames == [frames[0]] + frames[1..];
        }
        assert ([frames[0]] + UntilEmpty(frames[1..]))[1..] == UntilEmpty(frames[1..]);
      }
    }
  }

  lemma {:induction false} UntilEmptyIsAll(frames: seq<bytes>)
    requires NoneEmpty(frames)
    ensures UntilEmpty(frames) == frames
  {
    if frames != [] {
      assert forall i :: 0 <= i < |frames[1..]| ==> frames[1..][i] == frames[i + 1];
      UntilEmptyIsAll(frames[1..]);
    }
  }

  /**
   A pull is conserving: the caller ends with the whole file marked complete exactly when the device
   got to DONE and no DATA frame was empty; without DONE it is never marked complete.
   */
  lemma PullConserves(frames: seq<bytes>, end: Ending)
    requires forall i :: 0 <= i < |frames| ==> |frames[i]| < TWO_32
    requires PossibleEnding(end)
    ensures var (messages, ok) := ServerSync.PullMessages(DataFrames(frames) + EndingBytes(end));
            var d := ClientSync.Drain(messages);
            && (d.complete <==> end.AtDone? && NoneEmpty(frames))
            && (d.complete ==> d.data == Flatten(frames) && !d.failed)
            && (!end.AtDone? ==> !ok && (NoneEmpty(frames) ==> d.failed))
  {
    PullMessagesOf(frames, end);
    DrainOf(frames, LastMessage(end));
    if NoneEmpty(frames) {
      UntilEmptyIsAll(frames);
    }
  }

  lemma NothingIsNotComplete()
    ensures !ClientSync.Drain([]).complete
  {
  }

  lemma {:induction false} CompleteNeedsLast(messages: seq<PullMessage>)
    ensures ClientSync.Drain(messages).complete ==> exists i :: 0 <= i < |messages| && messages[i].last
  {
    if messages != [] && !messages[0].last {
      CompleteNeedsLast(messages[1..]);
    }
  }

  lemma {:induction false} DrainedIsAPrefix(frames: seq<bytes>, last: seq<PullMessage>, messages: seq<PullMessage>)
    requires messages <= Fragments(frames) + last
    requires last == [] || last == [PullMessage([], true)]
    ensures ClientSync.Drain(messages).data <= Flatten(frames)
  {
    if messages != [] && frames != [] {
      assert messages[0] == PullMessage(frames[0], false);
      assert (Fragments(frames) + last)[1..] == Fragments(frames[1..]) + last;
      DrainedIsAPrefix(frames[1..], last, messages[1..]);
    }
  }

  /**
   Whatever part of a pull's messages arrives, the caller has a prefix of the file; it is marked complete
   only if everything arrived, and then it is the file.
   */
  lemma CutOffPullIsAPrefix(frames: seq<bytes>, end: Ending, messages: seq<PullMessage>)
    requires forall i :: 0 <= i < |frames| ==> |frames[i]| < TWO_32
    requires PossibleEnding(end)
    requires messages <= ServerSync.PullMessages(DataFrames(frames) + EndingBytes(end)).0
    ensures var d := ClientSync.Drain(messages);
            && d.data <= Flatten(frames)
            && (d.complete ==>
                  && messages == ServerSync.PullMessages(DataFrames(frames) + EndingBytes(end)).0
                  && end.AtDone? && NoneEmpty(frames) && d.data == Flatten(frames))
  {
    PullMessagesOf(frames, end);
    DrainedIsAPrefix(frames, LastMessage(end), messages);
    if ClientSync.Drain(messages).complete {
      CompleteNeedsLast(messages);
      OneLastMessage(frames, end);
      hide ServerSync.PullMessages, ClientSync.Drain, DataFrames, EndingBytes, Flatten;
      var all := ServerSync.PullMessages(DataFrames(frames) + EndingBytes(end)).0;
      var i :| 0 <= i < |messages| && messages[i].last;
      assert all[i].last;
      assert messages == all;
      PullConserves(frames, end);
    }
  }

  /** Behind the greeting the device reads a request for this path, without flags, and nothing more. */
  ghost predicate PullIsAsked(before: bytes, greeting: bytes, after: bytes, path: bytes) {
    before + greeting <= after && DecodeRecv(after[|before| + |greeting|..]) == Got(RecvOrder(path, 0), [])
  }

  lemma RequestIsAsked(before: bytes, greeting: bytes, path: bytes)
    requires |path| < TWO_32
    ensures PullIsAsked(before, greeting, before + (greeting + RecvRequest(path)), path)
  {
    hide RecvRequest, DecodeRecv;
    RecvRequestRoundTripIff(path, []);
    BehindGreeting(before, greeting, RecvRequest(path));
  }

  lemma AcceptedPull(body: bytes)
    ensures AdbSync.ReadTwoReplies(OKAY + (OKAY + body)) == Got(Accepted, body)
    ensures ServerSync.AllMessages(OKAY + (OKAY + body)) == ServerSync.PullMessages(body)
  {
    hide ServerSync.PullMessages, AdbSync.ReadTwoReplies;
    AcceptedTwice(body);
  }

  /** Device, agent and client: whatever fails on the way, a complete download is the device's file, and that path was asked for. */
  method PullFile(conn: Conn, cmds: AdbSync.Commands, path: bytes, ghost frames: seq<bytes>, ghost end: Ending)
    returns (d: ClientSync.Download)
    requires !conn.closed && !conn.writeFailed
    requires forall i :: 0 <= i < |frames| ==> |frames[i]| < TWO_32
    requires PossibleEnding(end)
    requires conn.Readable() == OKAY + (OKAY + (DataFrames(frames) + EndingBytes(end)))
    modifies conn
    ensures d.data <= Flatten(frames)
    ensures d.complete ==> end.AtDone? && NoneEmpty(frames) && d.data == Flatten(frames)
    ensures (d.complete || !conn.writeFailed) && |path| < TWO_32 ==>
              PullIsAsked(old(conn.outgoing), AdbSync.Greeting(cmds), conn.outgoing, path)
  {
    hide *;
    ghost var body := DataFrames(frames) + EndingBytes(end);
    AcceptedPull(body);
    if |path| < TWO_32 {
      RequestIsAsked(conn.outgoing, AdbSync.Greeting(cmds), path);
    }
    NothingIsNotComplete();
    var sink := new Sink<PullMessage>();
    var _ := ServerSync.PullFile(conn, cmds, path, sink);
    CutOffPullIsAPrefix(frames, end, sink.sent);
    var source := new Source<PullMessage>(sink.sent);
    var stream := new ClientSync.PullStream(source);
    d := ClientSync.ReadAll(stream);
  }

  // ---------------------------------------------------------------- pushing

  function Chunks(reqs: seq<PushRequest>): seq<bytes> {
    if reqs == [] || !reqs[0].Chunk? || |reqs[0].data| > MAX_DATA then [] else [reqs[0].data] + Chunks(reqs[1..])
  }

  /** The requests behind Start up to where they stop mattering, as one plan for the device. */
  lemma {:induction false} PlanIsFramesThenDone(reqs: seq<PushRequest>) returns (mtime: uint32)
    ensures ServerSync.Plan(reqs) <= DataFrames(Chunks(reqs)) + DonePacket(mtime)
    ensures ServerSync.Completes(reqs) <==> ServerSync.Plan(reqs) == DataFrames(Chunks(reqs)) + DonePacket(mtime)
    ensures !ServerSync.Completes(reqs) ==> ServerSync.Plan(reqs) == DataFrames(Chunks(reqs))
    ensures forall i :: 0 <= i < |Chunks(reqs)| ==> |Chunks(reqs)[i]| <= MAX_DATA
    ensures ServerSync.Completes(reqs) ==> |Chunks(reqs)| < |reqs| && reqs[|Chunks(reqs)|] == End(mtime)
  {
    hide PayloadPacket, DonePacket;
    mtime := 0;
    if reqs != [] {
      match reqs[0]
      case Chunk(data) =>
        if |data| <= MAX_DATA {
          mtime := PlanIsFramesThenDone(reqs[1..]);
          var frame, more := PayloadPacket(ID_DATA, data), Chunks(reqs[1..]);
          assert Chunks(reqs) == [data] + more;
          assert ([data] + more)[1..] == more;
          assert DataFrames(Chunks(reqs)) == frame + DataFrames(more);
          assert frame + DataFrames(more) + DonePacket(mtime) == frame + (DataFrames(more) + DonePacket(mtime));
        }
      case End(m) => mtime := m;
      case _ =>
    }
  }

  /**
   Whatever becomes of a push, the device holds a prefix of the client's chunks, each whole and at
   most 64 KiB. It is told the transfer is done only if the requests complete, and then it holds all
   of them and the requested time.
   */
  lemma PushedBytesDecode(reqs: seq<PushRequest>, s: bytes)
    requires s <= ServerSync.Plan(reqs)
    ensures var (frames, done) := DecodeFrames(s);
            && frames <= Chunks(reqs)
            && (forall i :: 0 <= i < |frames| ==> |frames[i]| <= MAX_DATA)
            && (done.Some? <==> ServerSync.Completes(reqs) && s == ServerSync.Plan(reqs))
            && (done.Some? ==> frames == Chunks(reqs) && |frames| < |reqs| && reqs[|frames|] == End(done.value))
  {
    var mtime := PlanIsFramesThenDone(reqs);
    var all := DataFrames(Chunks(reqs)) + DonePacket(mtime);
    assert s <= all;
    CutOffPushIsAPrefix(Chunks(reqs), mtime, s);
  }

  /** Every push the client can ask for: Start, chunks, End. */
  function ClientRequests(chunks: seq<bytes>, mtime: uint32): seq<PushRequest> {
    if chunks == [] then [End(mtime)] else [Chunk(chunks[0])] + ClientRequests(chunks[1..], mtime)
  }

  lemma {:induction false} ClientRequestsDecode(chunks: seq<bytes>, mtime: uint32)
    ensures var reqs := ClientRequests(chunks, mtime);
            && Chunks(reqs) <= chunks
            && (ServerSync.Completes(reqs) <==> forall i :: 0 <= i < |chunks| ==> |chunks[i]| <= MAX_DATA)
            && (ServerSync.Completes(reqs) ==> Chunks(reqs) == chunks)
            && |reqs| == |chunks| + 1 && reqs[|chunks|] == End(mtime)
  {
    if chunks != [] {
      ClientRequestsDecode(chunks[1..], mtime);
      var reqs := ClientRequests(chunks, mtime);
      assert reqs[1..] == ClientRequests(chunks[1..], mtime);
      assert chunks == [chunks[0]] + chunks[1..];
    }
  }

  /** What the device makes of the bytes behind the greeting: order, chunks and closing time. */
  ghost predicate DeviceHas(pushed: bytes, order: SendOrder, chunks: seq<bytes>, mtime: uint32) {
    && DecodeSend(pushed).Got?
    && DecodeSend(pushed).value == order
    && DecodeFrames(DecodeSend(pushed).rest) == (chunks, Some(mtime))
  }

  lemma WholePushDecodes(cmds: AdbSync.Commands, path: bytes, mode: uint32, chunks: seq<bytes>, mtime: uint32)
    requires |path| < TWO_32
    requires ServerSync.Completes(ClientRequests(chunks, mtime))
    ensures var whole := ServerSync.WholePush(cmds, [Start(path, mode)] + ClientRequests(chunks, mtime));
            AdbSync.Greeting(cmds) <= whole && DeviceHas(whole[|AdbSync.Greeting(cmds)|..], SendOrder(path, mode, 0), chunks, mtime)
  {
    hide AdbSync.Greeting, SendRequest, ServerSync.Plan, ServerSync.Completes, ClientRequests, DecodeSend, DecodeFrames, Chunks;
    var reqs := ClientRequests(chunks, mtime);
    var plan, greeting := ServerSync.Plan(reqs), AdbSync.Greeting(cmds);
    assert ([Start(path, mode)] + reqs)[1..] == reqs;
    var whole := (greeting + SendRequest(path, mode)) + plan;
    assert whole[|greeting|..] == SendRequest(path, mode) + plan;
    SendRequestRoundTripIff(path, mode, plan);
    PushedBytesDecode(reqs, plan);
    ClientRequestsDecode(chunks, mtime);
  }

  /** The client's side of a push: what the library sends for a file given in chunks. */
  method Upload(sink: Sink<PushRequest>, path: bytes, mode: uint32, chunks: seq<bytes>, mtime: uint32) returns (ok: bool)
    modifies sink
    ensures ok ==> sink.sent == old(sink.sent) + ([Start(path, mode)] + ClientRequests(chunks, mtime))
    ensures old(sink.sent) <= sink.sent <= old(sink.sent) + ([Start(path, mode)] + ClientRequests(chunks, mtime))
  {
    ghost var base, all := sink.sent, [Start(path, mode)] + ClientRequests(chunks, mtime);
    var stream;
    ok, stream := ClientSync.OpenPush(sink, path, mode);
    if !ok {
      return;
    }
    assert chunks[0..] == chunks;
    for i := 0 to |chunks|
      invariant stream.server == sink
      invariant base <= sink.sent && sink.sent + ClientRequests(chunks[i..], mtime) == base + all
    {
      assert chunks[i..][1..] == chunks[i + 1..];
      assert sink.sent + ([Chunk(chunks[i])] + ClientRequests(chunks[i + 1..], mtime))
             == (sink.sent + [Chunk(chunks[i])]) + ClientRequests(chunks[i + 1..], mtime);
      ok := stream.Send(chunks[i]);
      if !ok {
        return;
      }
    }
    ok := stream.Finish(mtime);
  }

  lemma {:induction false} RequestsOfChunks(chunks: seq<bytes>, mtime: uint32)
    ensures ClientRequests(chunks, mtime) == ServerSync.ChunkRequests(chunks) + [End(mtime)]
  {
    if chunks != [] {
      RequestsOfChunks(chunks[1..], mtime);
    }
  }

  /** The device accepts both commands, and what it says at the end is this packet. */
  ghost predicate DeviceAnswers(s: bytes, id: nat, blob: bytes, rest: bytes) {
    id < TWO_32 && |blob| < TWO_32 && s == [79, 75, 65, 89] + ([79, 75, 65, 89] + (PayloadPacket(id, blob) + rest))
  }

  lemma AnsweredPush(s: bytes, id: nat, blob: bytes, rest: bytes, chunks: seq<bytes>, mtime: uint32)
    requires DeviceAnswers(s, id, blob, rest) && forall i :: 0 <= i < |chunks| ==> |chunks[i]| <= 65536
    ensures var opening := AdbSync.ReadTwoReplies(s);
            && opening == Got(Accepted, PayloadPacket(id, blob) + rest)
            && ServerSync.PushResult(ClientRequests(chunks, mtime), AdbSync.ReceiptResult(opening.rest)) ==
               if id == ID_OKAY then Ok(()) else if id == ID_FAIL then Error(Remote(blob)) else Error(Unexpected)
  {
    AdbSync.AcceptedTwiceIff(s, PayloadPacket(id, blob) + rest);
    AdbSync.ReceiptSays(id, blob, rest);
    RequestsOfChunks(chunks, mtime);
    ServerSync.PushEndsAs(chunks, [End(mtime)], AdbSync.ReceiptResult(PayloadPacket(id, blob) + rest));
    hide AdbSync.ReadTwoReplies, AdbSync.ReceiptResult, PayloadPacket, ClientRequests;
  }

  /** Behind the greeting the device has the whole push. */
  ghost predicate PushIsWhole(before: bytes, greeting: bytes, after: bytes, order: SendOrder, chunks: seq<bytes>, mtime: uint32) {
    before + greeting <= after && DeviceHas(after[|before| + |greeting|..], order, chunks, mtime)
  }

  lemma WholePushIsWhole(before: bytes, cmds: AdbSync.Commands, path: bytes, mode: uint32, chunks: seq<bytes>, mtime: uint32)
    requires |path| < TWO_32
    requires ServerSync.Completes(ClientRequests(chunks, mtime))
    ensures PushIsWhole(before, AdbSync.Greeting(cmds),
                        before + ServerSync.WholePush(cmds, [Start(path, mode)] + ClientRequests(chunks, mtime)),
                        SendOrder(path, mode, 0), chunks, mtime)
  {
    hide SendRequest, AdbSync.Greeting, ServerSync.WholePush, ServerSync.Completes, DeviceHas, ClientRequests;
    WholePushDecodes(cmds, path, mode, chunks, mtime);
    var whole, greeting := ServerSync.WholePush(cmds, [Start(path, mode)] + ClientRequests(chunks, mtime)), AdbSync.Greeting(cmds);
    var request := whole[|greeting|..];
    assert whole == greeting + request;
    BehindGreeting(before, greeting, request);
  }

  /** The device accepted both commands and sent OKAY behind the push. */
  ghost predicate EndedInOkay(s: bytes) {
    exists body: bytes, rest: bytes :: s == [79, 75, 65, 89] + ([79, 75, 65, 89] + body) && ReadPacket(body) == Got(Okay, rest)
  }

  lemma ReceiptIsOkay(s: bytes)
    requires AdbSync.ReadTwoReplies(s).Got? && AdbSync.ReadTwoReplies(s).value == Accepted
    requires AdbSync.ReceiptResult(AdbSync.ReadTwoReplies(s).rest).Ok?
    ensures EndedInOkay(s)
  {
    hide AdbSync.ReadTwoReplies, ReadPacket;
    var body := AdbSync.ReadTwoReplies(s).rest;
    AdbSync.AcceptedTwiceIff(s, body);
    assert ReadPacket(body) == Got(Okay, ReadPacket(body).rest);
  }

  /**
   A push that reports success has put the client's whole file, path, mode and time on the device's stream,
   and has read OKAY; where every write succeeds and no chunk is oversize, the device's answer alone decides:
   success if and only if it is OKAY, its own message if it is FAIL.
   */
  method PushFile(conn: Conn, cmds: AdbSync.Commands, server: Source<PushRequest>,
                  ghost path: bytes, ghost mode: uint32, ghost chunks: seq<bytes>, ghost mtime: uint32,
                  ghost id: nat, ghost blob: bytes, ghost rest: bytes)
    returns (r: Result<()>)
    requires !conn.closed && !conn.writeFailed
    requires |path| < TWO_32
    requires server.pending == [Start(path, mode)] + ClientRequests(chunks, mtime)
    modifies conn, server
    ensures r.Ok? ==>
              && PushIsWhole(old(conn.outgoing), AdbSync.Greeting(cmds), conn.outgoing, SendOrder(path, mode, 0), chunks, mtime)
              && EndedInOkay(old(conn.Readable()))
    ensures DeviceAnswers(old(conn.Readable()), id, blob, rest) && !conn.writeFailed
            && (forall i :: 0 <= i < |chunks| ==> |chunks[i]| <= 65536) ==>
              r == if id == ID_OKAY then Ok(()) else if id == ID_FAIL then Error(Remote(blob)) else Error(Unexpected)
  {
    hide *;
    ghost var s, base, reqs := conn.Readable(), conn.outgoing, server.pending;
    if DeviceAnswers(s, id, blob, rest) && forall i :: 0 <= i < |chunks| ==> |chunks[i]| <= 65536 {
      AnsweredPush(s, id, blob, rest, chunks, mtime);
    }
    assert reqs[0] == Start(path, mode) && reqs[1..] == ClientRequests(chunks, mtime);
    r := ServerSync.PushFile(conn, cmds, server);
    if r.Ok? {
      WholePushIsWhole(base, cmds, path, mode, chunks, mtime);
      ReceiptIsOkay(s);
    }
  }
}
