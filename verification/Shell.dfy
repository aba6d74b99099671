/** Messages of a remote shell and how they map to and from ADB shell blobs. */
module ShellMessages {
  import opened Common
  import opened Wire

  datatype ShellRequest =
    | Stdin(data: bytes, close: bool)
    | Resize(rows: uint32, cols: uint32, width: uint32, height: uint32)
    | OtherRequest

  datatype Channel = OUT | ERR
  datatype ShellResponse = Output(channel: Channel, data: bytes) | Exit(code: uint32) | OtherResponse

  const STDIN_ID: byte := 0
  const STDOUT_ID: byte := 1
  const STDERR_ID: byte := 2
  const EXIT_ID: byte := 3
  const CLOSE_ID: byte := 4
  const RESIZE_ID: byte := 5

  /** %d */
  function Decimal(n: nat): (s: bytes)
    ensures |s| > 0
    decreases n
  {
    if n < 10 then [48 + n] else Decimal(n / 10) + [48 + n % 10]
  }

  const CROSS: bytes := [120]
  const COMMA: bytes := [44]

  function ResizePayload(rows: nat, cols: nat, width: nat, height: nat): bytes {
    Decimal(rows) + CROSS + Decimal(cols) + COMMA + Decimal(width) + CROSS + Decimal(height)
  }

  /** The blobs one request becomes. Data first, then the close notice. */
  function RequestBlobs(m: ShellRequest): seq<ShellBlob> {
    match m
    case Stdin(data, close) =>
      (if data != [] then [ShellBlob(STDIN_ID, data)] else []) + (if close then [ShellBlob(CLOSE_ID, [])] else [])
    case Resize(rows, cols, width, height) => [ShellBlob(RESIZE_ID, ResizePayload(rows, cols, width, height))]
    case OtherRequest => []
  }

  function AllBlobs(ms: seq<ShellRequest>): seq<ShellBlob> {
    if ms == [] then [] else RequestBlobs(ms[0]) + AllBlobs(ms[1..])
  }

  lemma {:induction false} AllBlobsAppend(a: seq<ShellRequest>, b: seq<ShellRequest>)
    ensures AllBlobs(a + b) == AllBlobs(a) + AllBlobs(b)
  {
    if a == [] {
      assert a + b == b;
    } else {
      assert (a + b)[1..] == a[1..] + b;
      AllBlobsAppend(a[1..], b);
    }
  }

  /** The exit code is the first byte of an exit blob; an exit blob without bytes is an index error. */
  datatype Reading = Response(r: ShellResponse) | Strange | IndexError

  function ReadingOf(b: ShellBlob): Reading {
    if b.id == STDOUT_ID then Response(Output(OUT, b.data))
    else if b.id == STDERR_ID then Response(Output(ERR, b.data))
    else if b.id == EXIT_ID then (if b.data == [] then IndexError else Response(Exit(b.data[0])))
    else Strange
  }

  // ---------------------------------------------------------------- what the device reads out of a resize blob

  /** Decimal digits at the front of `s`, on top of those already read. */
  function ReadNumber(sofar: nat, s: bytes): (nat, bytes)
    decreases |s|
  {
    if s == [] || !(48 <= s[0] <= 57) then (sofar, s)
    else ReadNumber(sofar * 10 + (s[0] - 48), s[1..])
  }

  /** rows x cols , width x height; None unless the payload is exactly that. */
  function DecodeResize(s: bytes): Option<(nat, nat, nat, nat)> {
    var (rows, s1) := ReadNumber(0, s);
    if s1 == [] || s1[0] != 120 then None
    else
      var (cols, s2) := ReadNumber(0, s1[1..]);
      if s2 == [] || s2[0] != 44 then None
      else
        var (width, s3) := ReadNumber(0, s2[1..]);
        if s3 == [] || s3[0] != 120 then None
        else
          var (height, s4) := ReadNumber(0, s3[1..]);
          if s4 == [] then Some((rows, cols, width, height)) else None
  }

  lemma {:induction false} DecimalReads(n: nat, rest: bytes)
    ensures ReadNumber(0, Decimal(n) + rest) == ReadNumber(n, rest)
    decreases n
  {
    if n >= 10 {
      var digit: bytes := [48 + n % 10];
      assert Decimal(n) + rest == Decimal(n / 10) + (digit + rest);
      DecimalReads(n / 10, digit + rest);
      assert (digit + rest)[1..] == rest;
    } else {
      assert (Decimal(n) + rest)[1..] == rest;
    }
  }

  lemma ResizeReadsBack(rows: nat, cols: nat, width: nat, height: nat)
    ensures DecodeResize(ResizePayload(rows, cols, width, height)) == Some((rows, cols, width, height))
  {
    hide Decimal;
    var s3 := CROSS + Decimal(height);
    var s2 := COMMA + (Decimal(width) + s3);
    var s1 := CROSS + (Decimal(cols) + s2);
    assert ResizePayload(rows, cols, width, height) == Decimal(rows) + s1;
    DecimalReads(rows, s1);
    DecimalReads(cols, s2);
    DecimalReads(width, s3);
    assert Decimal(height) + [] == Decimal(height);
    DecimalReads(height, []);
    assert s1[1..] == Decimal(cols) + s2 && s2[1..] == Decimal(width) + s3 && s3[1..] == Decimal(height);
  }

  /** 24x80,0x0 */
  lemma ResizeText()
    ensures ResizePayload(24, 80, 0, 0) == [50, 52, 120, 56, 48, 44, 48, 120, 48]
  {
    assert Decimal(24) == [50, 52] && Decimal(80) == [56, 48];
  }

  // ---------------------------------------------------------------- what the device hears

  /** What one blob tells the device. */
  datatype Notice = Typed(data: bytes) | InputClosed | NewSize(rows: nat, cols: nat, width: nat, height: nat) | Garbled

  /** The ids of the shell protocol: 0 input, 4 its end, 5 a new window size. */
  function NoticeOf(b: ShellBlob): Notice {
    if b.id == 0 then Typed(b.data)
    else if b.id == 4 && b.data == [] then InputClosed
    else if b.id == 5 then
      match DecodeResize(b.data)
      case Some((rows, cols, width, height)) => NewSize(rows, cols, width, height)
      case None => Garbled
    else Garbled
  }

  function Notices(blobs: seq<ShellBlob>): seq<Notice> {
    if blobs == [] then [] else [NoticeOf(blobs[0])] + Notices(blobs[1..])
  }

  /** What a client's request is meant to tell the device: typed bytes unless there are none, then the end of input. */
  function AskedBy(m: ShellRequest): seq<Notice> {
    match m
    case Stdin(data, close) => (if data != [] then [Typed(data)] else []) + (if close then [InputClosed] else [])
    case Resize(rows, cols, width, height) => [NewSize(rows, cols, width, height)]
    case OtherRequest => []
  }

  function Asked(ms: seq<ShellRequest>): seq<Notice> {
    if ms == [] then [] else AskedBy(ms[0]) + Asked(ms[1..])
  }

  lemma {:induction false} NoticesAppend(a: seq<ShellBlob>, b: seq<ShellBlob>)
    ensures Notices(a + b) == Notices(a) + Notices(b)
  {
    hide NoticeOf;
    if a == [] {
      assert a + b == b;
    } else {
      assert (a + b)[1..] == a[1..] + b;
      NoticesAppend(a[1..], b);
    }
  }

  lemma {:induction false} NoticesOfAPrefix(a: seq<ShellBlob>, b: seq<ShellBlob>)
    requires a <= b
    ensures Notices(a) <= Notices(b)
  {
    assert b == a + b[|a|..];
    NoticesAppend(a, b[|a|..]);
  }

  lemma RequestIsHeard(m: ShellRequest)
    ensures Notices(RequestBlobs(m)) == AskedBy(m)
  {
    hide ResizePayload, DecodeResize;
    match m
    case Stdin(data, close) =>
      NoticesAppend(if data != [] then [ShellBlob(STDIN_ID, data)] else [], if close then [ShellBlob(CLOSE_ID, [])] else []);
    case Resize(rows, cols, width, height) => ResizeReadsBack(rows, cols, width, height);
    case OtherRequest =>
  }

  /** Reading the blobs back gives what the requests asked for, each thing in its place. */
  lemma {:induction false} DeviceHears(ms: seq<ShellRequest>)
    ensures Notices(AllBlobs(ms)) == Asked(ms)
  {
    hide RequestBlobs, NoticeOf, AskedBy;
    if ms != [] {
      NoticesAppend(RequestBlobs(ms[0]), AllBlobs(ms[1..]));
      RequestIsHeard(ms[0]);
      DeviceHears(ms[1..]);
    }
  }

  lemma NoticesOfOneMore(a: seq<ShellRequest>, m: ShellRequest, b: seq<ShellRequest>)
    ensures Notices(AllBlobs(a + [m] + b)) == Notices(AllBlobs(a)) + AskedBy(m) + Notices(AllBlobs(b))
  {
    hide RequestBlobs, NoticeOf, AskedBy, Notices;
    AllBlobsAppend(a + [m], b);
    AllBlobsAppend(a, [m]);
    assert [m][1..] == [] && AllBlobs([m]) == RequestBlobs(m) + AllBlobs([]) == RequestBlobs(m);
    NoticesAppend(AllBlobs(a) + RequestBlobs(m), AllBlobs(b));
    NoticesAppend(AllBlobs(a), RequestBlobs(m));
    RequestIsHeard(m);
  }

  /** One request among others: behind what the earlier ones tell, the device hears exactly its four numbers, or its bytes. */
  lemma HeardInItsPlace(a: seq<ShellRequest>, m: ShellRequest, b: seq<ShellRequest>)
    ensures var told, before, behind := Notices(AllBlobs(a + [m] + b)), Notices(AllBlobs(a)), Notices(AllBlobs(b));
            && (m.Resize? ==> told == before + [NewSize(m.rows, m.cols, m.width, m.height)] + behind)
            && (m.Stdin? && m.data != [] && m.close ==> told == before + [Typed(m.data), InputClosed] + behind)
            && (m.Stdin? && m.data != [] && !m.close ==> told == before + [Typed(m.data)] + behind)
            && (m.Stdin? && m.data == [] && m.close ==> told == before + [InputClosed] + behind)
            && (m.Stdin? && m.data == [] && !m.close ==> told == before + behind)
            && (m.OtherRequest? ==> told == before + behind)
  {
    hide AllBlobs, Notices;
    NoticesOfOneMore(a, m, b);
    assert m.Stdin? && m.data != [] && m.close ==> AskedBy(m) == [Typed(m.data), InputClosed];
  }

  function TypedBytes(told: seq<Notice>): bytes {
    if told == [] then [] else (if told[0].Typed? then told[0].data else []) + TypedBytes(told[1..])
  }

  function Input(ms: seq<ShellRequest>): bytes {
    if ms == [] then [] else (if ms[0].Stdin? then ms[0].data else []) + Input(ms[1..])
  }

  lemma {:induction false} TypedAppend(a: seq<Notice>, b: seq<Notice>)
    ensures TypedBytes(a + b) == TypedBytes(a) + TypedBytes(b)
  {
    if a == [] {
      assert a + b == b;
    } else {
      assert (a + b)[1..] == a[1..] + b;
      TypedAppend(a[1..], b);
    }
  }

  /** Input is conserved: what the device is typed is what the client sent, empty requests and all. */
  lemma {:induction false} InputIsConserved(ms: seq<ShellRequest>)
    ensures TypedBytes(Notices(AllBlobs(ms))) == Input(ms)
  {
    hide Notices, AllBlobs;
    DeviceHears(ms);
    if ms != [] {
      var one := AskedBy(ms[0]);
      TypedAppend(one, Asked(ms[1..]));
      DeviceHears(ms[1..]);
      InputIsConserved(ms[1..]);
      assert TypedBytes(one) == if ms[0].Stdin? then ms[0].data else [] by {
        if |one| > 0 { assert |one| == 2 ==> one[1..] == [InputClosed]; }
      }
    }
  }

  // ---------------------------------------------------------------- every number of a resize fits

  function Pow10(k: nat): (p: nat)
    ensures p > 0
  {
    if k == 0 then 1 else 10 * Pow10(k - 1)
  }

  lemma {:induction false} DecimalIsShort(n: nat, k: nat)
    requires k > 0 && n < Pow10(k)
    ensures |Decimal(n)| <= k
    decreases k
  {
    if n >= 10 {
      DecimalIsShort(n / 10, k - 1);
    }
  }

  lemma Pow10OfTen()
    ensures Pow10(10) == 10_000_000_000
  {
    assert Pow10(3) == 1000;
    assert Pow10(6) == 1_000_000;
    assert Pow10(8) == 100_000_000;
  }

  /** Only input can be too long for a blob's length field. */
  predicate FitsItsBlob(m: ShellRequest) {
    m.Stdin? ==> |m.data| < 0x1_0000_0000
  }

  lemma BlobsFit(m: ShellRequest)
    requires FitsItsBlob(m)
    ensures forall i :: 0 <= i < |RequestBlobs(m)| ==> |RequestBlobs(m)[i].data| < TWO_32
  {
    hide Decimal, Pow10;
    if m.Resize? {
      Pow10OfTen();
      DecimalIsShort(m.rows, 10);
      DecimalIsShort(m.cols, 10);
      DecimalIsShort(m.width, 10);
      DecimalIsShort(m.height, 10);
    }
  }

  lemma {:induction false} AllBlobsFit(ms: seq<ShellRequest>)
    requires forall i :: 0 <= i < |ms| ==> FitsItsBlob(ms[i])
    ensures forall i :: 0 <= i < |AllBlobs(ms)| ==> |AllBlobs(ms)[i].data| < TWO_32
  {
    hide RequestBlobs;
    if ms != [] {
      BlobsFit(ms[0]);
      AllBlobsFit(ms[1..]);
    }
  }

  // ---------------------------------------------------------------- streams of blobs cut off anywhere

  lemma PartialFrame(b: ShellBlob, p: bytes)
    requires |b.data| < TWO_32 && p <= ShellFrame(b) && p != ShellFrame(b)
    ensures WholeShellFrames(p) == []
  {
    hide PutUint32, FromLE;
    if |p| >= 5 {
      PutUint32RoundTrip(|b.data|);
      assert p[1..5] == PutUint32(|b.data|);
    }
  }

  /** Of a stream of blobs cut off anywhere, the whole blobs are a prefix of those written. */
  lemma {:induction false} CutOffFramesAreAPrefix(blobs: seq<ShellBlob>, p: bytes)
    requires forall i :: 0 <= i < |blobs| ==> |blobs[i].data| < TWO_32
    requires p <= ShellFrames(blobs)
    ensures WholeShellFrames(p) <= blobs
    ensures p == ShellFrames(blobs) ==> WholeShellFrames(p) == blobs
  {
    hide ShellFrame, WholeShellFrames;
    if blobs == [] {
      assert WholeShellFrames([]) == [] by { NoFrames(); }
    } else {
      var frame, more := ShellFrame(blobs[0]), blobs[1..];
      assert blobs == [blobs[0]] + more;
      if |p| < |frame| {
        assert p == (frame + ShellFrames(more))[..|p|] == frame[..|p|];
        PartialFrame(blobs[0], p);
        assert p != ShellFrames(blobs);
      } else {
        var p' := p[|frame|..];
        assert p == frame + p' && p' <= ShellFrames(more);
        WholeShellFramesStep(blobs[0], p');
        CutOffFramesAreAPrefix(more, p');
      }
    }
  }

  lemma NoFrames()
    ensures WholeShellFrames([]) == []
  {
  }
}

/**
 The shell multiplexer of the agent: two receiving goroutines that hand over one message at a time on
 unbuffered channels, and a select loop that stops at the first error, closes the channels and the
 connection, and so makes blocked receivers panic and recover.
 */
module ShellMux {
  import opened Common
  import opened Wire
  import opened ShellMessages

  /** A receiver waits for its stream, or blocks in a channel send, or has returned. */
  datatype Slot<+M> = Fetching | Offering(m: M) | Finished

  datatype FromClient = Request(r: ShellRequest) | RequestError
  datatype FromDevice = Blob(b: ShellBlob) | BlobError

  datatype Phase = Running | Stopped | ChannelsClosed | Released | Crashed

  datatype Mux = Mux(
    requests: seq<ShellRequest>,       // still to come from the client
    incoming: bytes,                   // still to come from the device; nothing once the connection is closed
    requestSlot: Slot<FromClient>,
    responseSlot: Slot<FromDevice>,
    phase: Phase,
    connClosed: bool,
    sent: seq<ShellResponse>,          // what the client was sent
    outgoing: bytes,                   // what the device was sent
    handledRequests: seq<ShellRequest>,
    handledBlobs: seq<ShellBlob>)

  /** Whether the blobs of a request are written, or cut off after some bytes. */
  datatype Writing = Wrote | Cut(k: nat)

  datatype Step =
    | FetchRequest
    | FetchBlob
    | TakeRequest(w: Writing)
    | TakeResponse(sendOk: bool)
    | CloseChannels
    | CloseConnection
    | DropRequest
    | DropBlob

  function Begin(requests: seq<ShellRequest>, incoming: bytes, outgoing: bytes): Mux {
    Mux(requests, incoming, Fetching, Fetching, Running, false, [], outgoing, [], [])
  }

  predicate WritingPossible(s: Mux, frames: bytes, w: Writing) {
    match w
    case Wrote => frames == [] || !s.connClosed
    case Cut(k) => frames != [] && k <= |frames| && (s.connClosed ==> k == 0)
  }

  predicate Enabled(s: Mux, step: Step) {
    && s.phase != Crashed
    && match step
       case FetchRequest => s.requestSlot.Fetching?
       case FetchBlob => s.responseSlot.Fetching?
       case TakeRequest(w) =>
         && s.phase == Running && s.requestSlot.Offering?
         && (s.requestSlot.m.Request? ==> WritingPossible(s, ShellFrames(RequestBlobs(s.requestSlot.m.r)), w))
       case TakeResponse(_) => s.phase == Running && s.responseSlot.Offering?
       case CloseChannels => s.phase == Stopped
       case CloseConnection => s.phase == ChannelsClosed
       case DropRequest => s.requestSlot.Offering? && (s.phase == ChannelsClosed || s.phase == Released)
       case DropBlob => s.responseSlot.Offering? && (s.phase == ChannelsClosed || s.phase == Released)
  }

  function HandleRequest(s: Mux, m: ShellRequest, w: Writing): Mux
    requires WritingPossible(s, ShellFrames(RequestBlobs(m)), w)
  {
    var frames := ShellFrames(RequestBlobs(m));
    if m.OtherRequest? then s.(phase := Stopped)
    else
      match w
      case Wrote => s.(outgoing := s.outgoing + frames, handledRequests := s.handledRequests + [m])
      case Cut(k) => s.(outgoing := s.outgoing + frames[..k], connClosed := true, incoming := [], phase := Stopped)
  }

  function HandleBlob(s: Mux, b: ShellBlob, sendOk: bool): Mux {
    match ReadingOf(b)
    case IndexError => s.(phase := Crashed)
    case Strange => s.(phase := Stopped)
    case Response(r) =>
      if !sendOk then s.(phase := Stopped)
      else s.(sent := s.sent + [r], handledBlobs := s.handledBlobs + [b], phase := if r.Exit? then Stopped else Running)
  }

  function Next(s: Mux, step: Step): Mux
    requires Enabled(s, step)
  {
    match step
    case FetchRequest =>
      if s.requests == [] then s.(requestSlot := Offering(RequestError))
      else s.(requestSlot := Offering(Request(s.requests[0])), requests := s.requests[1..])
    case FetchBlob =>
      (match ReadShellFrame(s.incoming)
       case Got(b, rest) => s.(responseSlot := Offering(Blob(b)), incoming := rest)
       case _ => s.(responseSlot := Offering(BlobError), connClosed := true, incoming := []))
    case TakeRequest(w) =>
      (match s.requestSlot.m
       case RequestError => s.(requestSlot := Finished, phase := Stopped)
       case Request(m) => HandleRequest(s.(requestSlot := Fetching), m, w))
    case TakeResponse(sendOk) =>
      (match s.responseSlot.m
       case BlobError => s.(responseSlot := Finished, phase := Stopped)
       case Blob(b) => HandleBlob(s.(responseSlot := Fetching), b, sendOk))
    case CloseChannels => s.(phase := ChannelsClosed)
    case CloseConnection => s.(phase := Released, connClosed := true, incoming := [])
    case DropRequest => s.(requestSlot := Finished)
    case DropBlob => s.(responseSlot := Finished)
  }

  predicate Runs(s: Mux, steps: seq<Step>)
    decreases |steps|
  {
    steps == [] || (Enabled(s, steps[0]) && Runs(Next(s, steps[0]), steps[1..]))
  }

  function Run(s: Mux, steps: seq<Step>): Mux
    requires Runs(s, steps)
    decreases |steps|
  {
    if steps == [] then s else Run(Next(s, steps[0]), steps[1..])
  }

  // ---------------------------------------------------------------- the invariant

  function OfferedRequest(s: Mux): seq<ShellRequest> {
    if s.requestSlot.Offering? && s.requestSlot.m.Request? then [s.requestSlot.m.r] else []
  }

  function OfferedBlob(s: Mux): seq<ShellBlob> {
    if s.responseSlot.Offering? && s.responseSlot.m.Blob? then [s.responseSlot.m.b] else []
  }

  /** One response per blob, each the image of its blob. */
  ghost predicate Answers(blobs: seq<ShellBlob>, sent: seq<ShellResponse>) {
    |sent| == |blobs| && forall i :: 0 <= i < |blobs| ==> ReadingOf(blobs[i]) == Response(sent[i])
  }

  /** Exit only as the last response, and only when the loop is over. */
  ghost predicate ExitIsLast(sent: seq<ShellResponse>, running: bool) {
    forall i :: 0 <= i < |sent| && sent[i].Exit? ==> i == |sent| - 1 && !running
  }

  /** Toward the client: in order, nothing lost while running, Exit only at the very end. */
  ghost predicate ClientSide(s: Mux, blobs: seq<ShellBlob>) {
    && s.handledBlobs <= blobs
    && (s.phase == Running ==> s.handledBlobs + OfferedBlob(s) + WholeShellFrames(s.incoming) == blobs)
    && Answers(s.handledBlobs, s.sent)
    && ExitIsLast(s.sent, s.phase == Running)
    && (s.phase == Crashed ==>
          && |s.handledBlobs| < |blobs| && ReadingOf(blobs[|s.handledBlobs|]).IndexError?
          && forall i :: 0 <= i < |s.sent| ==> !s.sent[i].Exit?)
  }

  /** Toward the device: the blobs of the handled requests, then at most a part of the next one's. */
  ghost predicate DeviceSide(s: Mux, requests: seq<ShellRequest>, base: bytes) {
    && s.handledRequests <= requests
    && (s.phase == Running ==> s.handledRequests + OfferedRequest(s) + s.requests == requests)
    && (s.phase == Running ==> s.outgoing == base + ShellFrames(AllBlobs(s.handledRequests)))
    && base + ShellFrames(AllBlobs(s.handledRequests)) <= s.outgoing <= base + ShellFrames(AllBlobs(requests))
  }

  lemma FetchKeepsClientSide(s: Mux, blobs: seq<ShellBlob>)
    requires ClientSide(s, blobs) && Enabled(s, FetchBlob)
    ensures ClientSide(Next(s, FetchBlob), blobs)
  {
  }

  lemma TakeKeepsClientSide(s: Mux, blobs: seq<ShellBlob>, sendOk: bool)
    requires ClientSide(s, blobs) && Enabled(s, TakeResponse(sendOk))
    ensures ClientSide(Next(s, TakeResponse(sendOk)), blobs)
  {
    hide WholeShellFrames, ReadingOf;
    if s.responseSlot.m.Blob? {
      var b := s.responseSlot.m.b;
      assert blobs[|s.handledBlobs|] == b;
      assert s.handledBlobs + [b] + [] == s.handledBlobs + [b];
    }
  }

  lemma OneMoreRequest(base: bytes, done: seq<ShellRequest>, m: ShellRequest, more: seq<ShellRequest>)
    ensures var head, frames := base + ShellFrames(AllBlobs(done)), ShellFrames(RequestBlobs(m));
            && base + ShellFrames(AllBlobs(done + [m])) == head + frames
            && head + frames <= base + ShellFrames(AllBlobs((done + [m]) + more))
  {
    hide RequestBlobs, ShellFrame;
    AllBlobsAppend(done, [m]);
    assert AllBlobs([m]) == RequestBlobs(m) by { assert [m][1..] == [] && RequestBlobs(m) + [] == RequestBlobs(m); }
    ShellFramesAppend(AllBlobs(done), RequestBlobs(m));
    AllBlobsAppend(done + [m], more);
    ShellFramesAppend(AllBlobs(done + [m]), AllBlobs(more));
  }

  lemma TakeKeepsDeviceSide(s: Mux, requests: seq<ShellRequest>, base: bytes, w: Writing)
    requires DeviceSide(s, requests, base) && Enabled(s, TakeRequest(w))
    ensures DeviceSide(Next(s, TakeRequest(w)), requests, base)
  {
    hide RequestBlobs, ShellFrames, AllBlobs;
    if s.requestSlot.m.Request? {
      var m := s.requestSlot.m.r;
      assert requests == (s.handledRequests + [m]) + s.requests;
      OneMoreRequest(base, s.handledRequests, m, s.requests);
    }
  }

  lemma StepKeepsClientSide(s: Mux, step: Step, blobs: seq<ShellBlob>)
    requires ClientSide(s, blobs) && Enabled(s, step)
    ensures ClientSide(Next(s, step), blobs)
  {
    hide WholeShellFrames, ReadShellFrame, ShellFrames, RequestBlobs, ReadingOf, Answers;
    match step
    case FetchBlob => FetchKeepsClientSide(s, blobs);
    case TakeResponse(sendOk) => TakeKeepsClientSide(s, blobs, sendOk);
    case _ =>
  }

  lemma StepKeepsDeviceSide(s: Mux, step: Step, requests: seq<ShellRequest>, base: bytes)
    requires DeviceSide(s, requests, base) && Enabled(s, step)
    ensures DeviceSide(Next(s, step), requests, base)
  {
    hide ReadShellFrame, ShellFrames, AllBlobs, RequestBlobs, ReadingOf;
    match step
    case TakeRequest(w) => TakeKeepsDeviceSide(s, requests, base, w);
    case FetchRequest =>
      if s.requests != [] {
        assert s.requests == [s.requests[0]] + s.requests[1..];
      }
    case _ =>
  }

  lemma {:induction false} RunKeepsSides(s: Mux, steps: seq<Step>, requests: seq<ShellRequest>, blobs: seq<ShellBlob>, base: bytes)
    requires ClientSide(s, blobs) && DeviceSide(s, requests, base) && Runs(s, steps)
    ensures ClientSide(Run(s, steps), blobs) && DeviceSide(Run(s, steps), requests, base)
    decreases |steps|
  {
    hide ClientSide, DeviceSide, Enabled, Next;
    if steps != [] {
      StepKeepsClientSide(s, steps[0], blobs);
      StepKeepsDeviceSide(s, steps[0], requests, base);
      RunKeepsSides(Next(s, steps[0]), steps[1..], requests, blobs, base);
    }
  }

  // ---------------------------------------------------------------- main results

  /**
   Every interleaving: the client is sent exactly the images of a prefix of the device's blobs, with
   Exit at most once and last; the device is sent the blobs of a prefix of the client's requests and
   at most a part of the next one's; the process dies only on an exit blob without a byte.
   */
  lemma EveryInterleavingKeepsOrder(requests: seq<ShellRequest>, incoming: bytes, base: bytes, steps: seq<Step>)
    requires Runs(Begin(requests, incoming, base), steps)
    ensures var s := Run(Begin(requests, incoming, base), steps);
            ClientSide(s, WholeShellFrames(incoming)) && DeviceSide(s, requests, base)
  {
    var s := Begin(requests, incoming, base);
    assert [] + [] + WholeShellFrames(incoming) == WholeShellFrames(incoming);
    assert [] + [] + requests == requests;
    assert base + [] == base;
    RunKeepsSides(s, steps, requests, WholeShellFrames(incoming), base);
  }

  /**
   The device, reading blobs from what it was sent, hears a prefix of what the client asked for, whole things
   only, and at least what the handled requests ask for: input, its end, and every size with its four numbers.
   */
  lemma DeviceReadsAPrefix(requests: seq<ShellRequest>, incoming: bytes, base: bytes, steps: seq<Step>)
    requires Runs(Begin(requests, incoming, base), steps)
    requires forall i :: 0 <= i < |requests| ==> FitsItsBlob(requests[i])
    ensures var s := Run(Begin(requests, incoming, base), steps);
            && base <= s.outgoing
            && Asked(s.handledRequests) <= Notices(WholeShellFrames(s.outgoing[|base|..])) <= Asked(requests)
  {
    EveryInterleavingKeepsOrder(requests, incoming, base, steps);
    AllBlobsFit(requests);
    hide AllBlobs, Notices, Asked, WholeShellFrames, ShellFrames, Run, Runs, Begin, ClientSide, FitsItsBlob;
    var s := Run(Begin(requests, incoming, base), steps);
    HandledComeFirst(requests, s.handledRequests);
    FramesBetween(AllBlobs(s.handledRequests), AllBlobs(requests), base, s.outgoing);
    var read := WholeShellFrames(s.outgoing[|base|..]);
    NoticesOfAPrefix(AllBlobs(s.handledRequests), read);
    NoticesOfAPrefix(read, AllBlobs(requests));
    DeviceHears(requests);
    DeviceHears(s.handledRequests);
  }

  lemma FramesBetween(done: seq<ShellBlob>, all: seq<ShellBlob>, base: bytes, out: bytes)
    requires done <= all && forall i :: 0 <= i < |all| ==> |all[i].data| < TWO_32
    requires base + ShellFrames(done) <= out <= base + ShellFrames(all)
    ensures base <= out && done <= WholeShellFrames(out[|base|..]) <= all
  {
    hide WholeShellFrames, ShellFrames;
    var p := out[|base|..];
    assert out == base + p;
    CutOffFramesAreAPrefix(all, p);
    var rest := p[|ShellFrames(done)|..];
    assert p == ShellFrames(done) + rest;
    ShellFramesReadBack(done, rest);
  }

  lemma HandledComeFirst(requests: seq<ShellRequest>, handled: seq<ShellRequest>)
    requires handled <= requests
    ensures AllBlobs(handled) <= AllBlobs(requests)
  {
  }

  // ---------------------------------------------------------------- why the loop stops

  /** Every write and every send succeeds. */
  predicate Smooth(steps: seq<Step>) {
    forall i :: 0 <= i < |steps| ==> (steps[i].TakeRequest? ==> steps[i].w == Wrote) && (steps[i].TakeResponse? ==> steps[i].sendOk)
  }

  /** One side has nothing more to say, or says something unknown, or the shell has exited. */
  ghost predicate HasCause(s: Mux, requests: seq<ShellRequest>, blobs: seq<ShellBlob>) {
    || s.handledRequests == requests
    || (|s.handledRequests| < |requests| && requests[|s.handledRequests|].OtherRequest?)
    || s.handledBlobs == blobs
    || (|s.handledBlobs| < |blobs| && (blobs[|s.handledBlobs|].id == 0 || blobs[|s.handledBlobs|].id > 3))
    || (s.handledBlobs != [] && s.handledBlobs[|s.handledBlobs| - 1].id == 3)
  }

  ghost predicate Explained(s: Mux, requests: seq<ShellRequest>, blobs: seq<ShellBlob>) {
    if s.phase == Running then
      && (s.requestSlot == Offering(RequestError) ==> s.requests == [])
      && (s.responseSlot == Offering(BlobError) ==> s.incoming == [])
    else
      s.phase == Crashed || HasCause(s, requests, blobs)
  }

  lemma SmoothStepIsExplained(s: Mux, step: Step, requests: seq<ShellRequest>, blobs: seq<ShellBlob>, base: bytes)
    requires ClientSide(s, blobs) && DeviceSide(s, requests, base) && Explained(s, requests, blobs) && Enabled(s, step)
    requires step.TakeRequest? ==> step.w == Wrote
    requires step.TakeResponse? ==> step.sendOk
    ensures Explained(Next(s, step), requests, blobs)
  {
    hide AllBlobs, RequestBlobs, ShellFrames, Answers, ExitIsLast, FromLE;
    if s.phase == Running && step.TakeRequest? {
      assert s.requestSlot.m.Request? ==> (s.handledRequests + [s.requestSlot.m.r] + s.requests)[|s.handledRequests|] == s.requestSlot.m.r;
    }
    if s.phase == Running && step.TakeResponse? {
      assert s.responseSlot.m.Blob? ==>
          (s.handledBlobs + [s.responseSlot.m.b] + WholeShellFrames(s.incoming))[|s.handledBlobs|] == s.responseSlot.m.b;
    }
  }

  lemma {:induction false} SmoothRunIsExplained(s: Mux, steps: seq<Step>, requests: seq<ShellRequest>, blobs: seq<ShellBlob>, base: bytes)
    requires ClientSide(s, blobs) && DeviceSide(s, requests, base) && Explained(s, requests, blobs) && Runs(s, steps) && Smooth(steps)
    ensures Explained(Run(s, steps), requests, blobs)
    decreases |steps|
  {
    hide ClientSide, DeviceSide, Enabled, Next, Explained;
    if steps != [] {
      StepKeepsClientSide(s, steps[0], blobs);
      StepKeepsDeviceSide(s, steps[0], requests, base);
      SmoothStepIsExplained(s, steps[0], requests, blobs, base);
      assert forall i :: 0 <= i < |steps[1..]| ==> steps[1..][i] == steps[i + 1];
      SmoothRunIsExplained(Next(s, steps[0]), steps[1..], requests, blobs, base);
    }
  }

  /**
   The loop never gives up on its own: where all writes and sends succeed and the process lives, it has
   stopped only because one side ended or said something unknown, or because the shell exited.
   */
  lemma NothingStopsEarly(requests: seq<ShellRequest>, incoming: bytes, base: bytes, steps: seq<Step>)
    requires Runs(Begin(requests, incoming, base), steps) && Smooth(steps)
    ensures var s := Run(Begin(requests, incoming, base), steps);
            s.phase == Running || s.phase == Crashed || HasCause(s, requests, WholeShellFrames(incoming))
  {
    hide WholeShellFrames, Run, Runs, ShellFrames, HasCause, Smooth;
    assert [] + [] + WholeShellFrames(incoming) == WholeShellFrames(incoming);
    assert [] + [] + requests == requests;
    assert base + [] == base;
    NoBlobsNoBytes();
    SmoothRunIsExplained(Begin(requests, incoming, base), steps, requests, WholeShellFrames(incoming), base);
  }

  lemma NoBlobsNoBytes()
    ensures ShellFrames([]) == []
  {
  }

  // ---------------------------------------------------------------- the panic

  /** Blob i is an exit without a byte, and everything in front of it is output. */
  ghost predicate DiesAt(blobs: seq<ShellBlob>, i: nat) {
    && i < |blobs| && ReadingOf(blobs[i]).IndexError?
    && forall j :: 0 <= j < i ==> ReadingOf(blobs[j]).Response? && ReadingOf(blobs[j]).r.Output?
  }

  ghost predicate Dies(s: Mux, steps: seq<Step>) {
    Runs(s, steps) && Run(s, steps).phase == Crashed
  }

  /** Two steps hand one blob to the loop and have it handled. */
  lemma OneBlobHandled(s: Mux)
    requires s.phase == Running && s.responseSlot.Fetching? && WholeShellFrames(s.incoming) != []
    ensures var b := WholeShellFrames(s.incoming)[0];
            && Enabled(s, FetchBlob) && Enabled(Next(s, FetchBlob), TakeResponse(true))
            && (var s' := Next(Next(s, FetchBlob), TakeResponse(true));
                && (ReadingOf(b).IndexError? ==> s'.phase == Crashed)
                && (ReadingOf(b).Response? && ReadingOf(b).r.Output? ==>
                      && s'.phase == Running && s'.responseSlot.Fetching?
                      && WholeShellFrames(s'.incoming) == WholeShellFrames(s.incoming)[1..]))
  {
    hide ReadingOf;
    var b, rest := ReadShellFrame(s.incoming).value, ReadShellFrame(s.incoming).rest;
    assert WholeShellFrames(s.incoming) == [b] + WholeShellFrames(rest);
    assert Next(s, FetchBlob) == s.(responseSlot := Offering(Blob(b)), incoming := rest);
  }

  lemma RunCons(s: Mux, step: Step, rest: seq<Step>)
    requires Enabled(s, step) && Runs(Next(s, step), rest)
    ensures Runs(s, [step] + rest) && Run(s, [step] + rest) == Run(Next(s, step), rest)
  {
    hide Enabled, Next;
    assert ([step] + rest)[1..] == rest;
  }

  lemma {:induction false} DyingRun(s: Mux, i: nat) returns (steps: seq<Step>)
    requires s.phase == Running && s.responseSlot.Fetching? && DiesAt(WholeShellFrames(s.incoming), i)
    ensures Dies(s, steps)
    decreases i
  {
    hide WholeShellFrames, Next, Enabled, ReadingOf;
    OneBlobHandled(s);
    var s' := Next(Next(s, FetchBlob), TakeResponse(true));
    var rest: seq<Step> := [];
    if i > 0 {
      rest := DyingRun(s', i - 1);
    }
    RunCons(Next(s, FetchBlob), TakeResponse(true), rest);
    RunCons(s, FetchBlob, [TakeResponse(true)] + rest);
    steps := [FetchBlob] + ([TakeResponse(true)] + rest);
  }

  lemma DeathHasItsBlob(requests: seq<ShellRequest>, incoming: bytes, base: bytes, steps: seq<Step>)
    requires Dies(Begin(requests, incoming, base), steps)
    ensures DiesAt(WholeShellFrames(incoming), |Run(Begin(requests, incoming, base), steps).handledBlobs|)
  {
    EveryInterleavingKeepsOrder(requests, incoming, base, steps);
    var s, blobs := Run(Begin(requests, incoming, base), steps), WholeShellFrames(incoming);
    hide Runs, Run, Begin, DeviceSide, WholeShellFrames;
    assert forall j :: 0 <= j < |s.handledBlobs| ==> blobs[j] == s.handledBlobs[j] && ReadingOf(blobs[j]) == Response(s.sent[j]);
  }

  /** Some interleaving kills the process if and only if an exit blob without a byte follows nothing but output. */
  lemma DiesIff(requests: seq<ShellRequest>, incoming: bytes, base: bytes)
    ensures (exists steps: seq<Step> :: Dies(Begin(requests, incoming, base), steps))
            <==> exists i: nat :: DiesAt(WholeShellFrames(incoming), i)
  {
    hide WholeShellFrames, Dies, DiesAt;
    if i: nat :| DiesAt(WholeShellFrames(incoming), i) {
      var steps := DyingRun(Begin(requests, incoming, base), i);
    }
    if steps: seq<Step> :| Dies(Begin(requests, incoming, base), steps) {
      DeathHasItsBlob(requests, incoming, base, steps);
    }
  }

  // ---------------------------------------------------------------- every schedule ends

  function RequestWeight(slot: Slot<FromClient>): nat {
    match slot
    case Finished => 0
    case Fetching => 2
    case Offering(m) => if m.Request? then 3 else 1
  }

  function BlobWeight(slot: Slot<FromDevice>): nat {
    match slot
    case Finished => 0
    case Fetching => 2
    case Offering(m) => if m.Blob? then 3 else 1
  }

  function PhaseWeight(phase: Phase): nat {
    match phase
    case Running => 3
    case Stopped => 2
    case ChannelsClosed => 1
    case _ => 0
  }

  /** An upper bound on the steps still to come. */
  function Left(s: Mux): nat {
    3 * |s.requests| + RequestWeight(s.requestSlot) + 3 * |s.incoming| + BlobWeight(s.responseSlot) + PhaseWeight(s.phase)
  }

  /** While the loop runs, so do both receivers. */
  predicate Attended(s: Mux) {
    s.phase == Running ==> !s.requestSlot.Finished? && !s.responseSlot.Finished?
  }

  lemma EveryStepCountsDown(s: Mux, step: Step)
    requires Enabled(s, step)
    ensures Left(Next(s, step)) < Left(s)
    ensures Attended(s) ==> Attended(Next(s, step))
  {
    hide FromLE, ReadingOf, ShellFrames, RequestBlobs;
  }

  /** Everything has come to its end: the loop and both receivers, or the process. */
  predicate Over(s: Mux) {
    s.phase == Crashed || (s.phase == Released && s.requestSlot.Finished? && s.responseSlot.Finished?)
  }

  lemma OnlyTheEndIsStuck(s: Mux)
    requires Attended(s)
    ensures (forall step :: !Enabled(s, step)) <==> Over(s)
  {
    hide ShellFrames, RequestBlobs;
    if !Over(s) {
      var step :=
        if s.requestSlot.Fetching? then FetchRequest
        else if s.responseSlot.Fetching? then FetchBlob
        else if s.phase == Stopped then CloseChannels
        else if s.phase == ChannelsClosed then CloseConnection
        else if s.phase == Running then TakeResponse(true)
        else if s.requestSlot.Offering? then DropRequest
        else DropBlob;
      assert Enabled(s, step);
    }
  }

  lemma {:induction false} RunsCountDown(s: Mux, steps: seq<Step>)
    requires Runs(s, steps) && Attended(s)
    ensures Left(Run(s, steps)) + |steps| <= Left(s) && Attended(Run(s, steps))
    decreases |steps|
  {
    hide Left, Attended, Enabled, Next;
    if steps != [] {
      EveryStepCountsDown(s, steps[0]);
      RunsCountDown(Next(s, steps[0]), steps[1..]);
    }
  }

  /**
   No schedule runs for ever or gets stuck: its length is bounded, and where no step is possible the loop
   has closed everything and both receivers have returned, panicked ones included, or the process has died.
   */
  lemma EveryScheduleEnds(requests: seq<ShellRequest>, incoming: bytes, base: bytes, steps: seq<Step>)
    requires Runs(Begin(requests, incoming, base), steps)
    ensures |steps| <= 3 * |requests| + 3 * |incoming| + 7
    ensures (forall step :: !Enabled(Run(Begin(requests, incoming, base), steps), step))
            <==> Over(Run(Begin(requests, incoming, base), steps))
  {
    RunsCountDown(Begin(requests, incoming, base), steps);
    OnlyTheEndIsStuck(Run(Begin(requests, incoming, base), steps));
  }

  lemma {:induction false} RunSnoc(s: Mux, steps: seq<Step>, step: Step)
    requires Runs(s, steps) && Enabled(Run(s, steps), step)
    ensures Runs(s, steps + [step]) && Run(s, steps + [step]) == Next(Run(s, steps), step)
    decreases |steps|
  {
    hide Enabled, Next;
    if steps == [] {
      assert [step][1..] == [] && steps + [step] == [step];
    } else {
      assert (steps + [step])[1..] == steps[1..] + [step];
      RunSnoc(Next(s, steps[0]), steps[1..], step);
    }
  }
}

/** The handlers of the agent's select loop and the client's end, over the real connection and stream objects. */
module ShellEnds {
  import opened Common
  import opened Wire
  import opened RawConnection
  import opened Rpc
  import opened ShellMessages

  /** The command that opens the shell: protocol version, terminal, kind, then the command line. None for an unknown kind. */
  datatype ShellType = RAW | PTY | UnknownType

  function ShellCommand(term: Option<bytes>, kind: ShellType, command: Option<bytes>): Option<bytes> {
    if kind == UnknownType then None
    else
      Some(Ascii("shell,v2")
           + (if term.Some? then Ascii(",TERM=") + term.value else [])
           + (if kind == RAW then Ascii(",raw") else Ascii(",pty"))
           + Ascii(":")
           + (if command.Some? then command.value else []))
  }

  /** What is in front of the first `c`, and what is behind it. */
  function SplitAt(c: byte, s: bytes): (parts: (bytes, bytes))
    ensures c !in parts.0
    ensures c in s ==> s == parts.0 + [c] + parts.1
    ensures c !in s ==> parts == (s, [])
  {
    if s == [] then ([], [])
    else if s[0] == c then ([], s[1..])
    else
      var (front, behind) := SplitAt(c, s[1..]);
      assert s == [s[0]] + s[1..];
      ([s[0]] + front, behind)
  }

  /** raw, pty */
  function KindOf(s: bytes): Option<bool> {
    if s == [114, 97, 119] then Some(false) else if s == [112, 116, 121] then Some(true) else None
  }

  /** What is behind the protocol version's comma: a kind, or TERM= with a name up to the next comma, and a kind. */
  function ReadArgs(args: bytes): Option<(Option<bytes>, bool)> {
    if KindOf(args).Some? then Some((None, KindOf(args).value))
    else
      var (term, kind) := SplitAt(44, args);
      if [84, 69, 82, 77, 61] <= term && KindOf(kind).Some? then Some((Some(term[5..]), KindOf(kind).value)) else None
  }

  /** How the device takes such a command apart: at the first colon, then behind shell,v2 and a comma. */
  function ReadShellCommand(s: bytes): Option<(Option<bytes>, bool, bytes)> {
    var (head, line) := SplitAt(58, s);
    if !([115, 104, 101, 108, 108, 44, 118, 50, 44] <= head) then None
    else
      match ReadArgs(head[9..])
      case Some((term, pty)) => Some((term, pty, line))
      case None => None
  }

  lemma {:induction false} SplitsAt(c: byte, front: bytes, behind: bytes)
    requires c !in front
    ensures SplitAt(c, front + [c] + behind) == (front, behind)
  {
    var s := front + [c] + behind;
    if front == [] {
      assert s[1..] == behind;
    } else {
      assert s[0] == front[0] && s[1..] == front[1..] + [c] + behind;
      assert front == [front[0]] + front[1..];
      SplitsAt(c, front[1..], behind);
    }
  }

  lemma ShellWord()
    ensures Ascii("shell,v2") == [115, 104, 101, 108, 108, 44, 118, 50]
  {
    hide Ascii;
    var s := "shell,v2";
    assert |s| == 8;
    var b := Ascii(s);
    assert b[0] == 115 && b[1] == 104 && b[2] == 101 && b[3] == 108;
    assert b[4] == 108 && b[5] == 44 && b[6] == 118 && b[7] == 50;
  }

  lemma TermWord()
    ensures Ascii(",TERM=") == [44] + [84, 69, 82, 77, 61]
  {
    hide Ascii;
    var s := ",TERM=";
    assert |s| == 6;
  }

  lemma KindWords()
    ensures Ascii(",raw") == [44] + [114, 97, 119] && Ascii(",pty") == [44] + [112, 116, 121] && Ascii(":") == [58]
  {
    hide Ascii;
  }

  /** The kind, behind the terminal if there is one. */
  function Args(term: Option<bytes>, pty: bool): bytes {
    var kind: bytes := if pty then [112, 116, 121] else [114, 97, 119];
    if term.Some? then [84, 69, 82, 77, 61] + term.value + [44] + kind else kind
  }

  lemma Regroup(word: bytes, comma: bytes, name: bytes, term: bytes, kind: bytes, colon: bytes, line: bytes)
    ensures word + ((comma + name) + term) + (comma + kind) + colon + line == (word + comma) + (name + term + comma + kind) + colon + line
    ensures word + [] + (comma + kind) + colon + line == (word + comma) + kind + colon + line
  {
  }

  lemma CommandIs(term: Option<bytes>, pty: bool, command: Option<bytes>)
    ensures ShellCommand(term, if pty then PTY else RAW, command) ==
            Some([115, 104, 101, 108, 108, 44, 118, 50] + [44] + Args(term, pty) + [58] + (if command.Some? then command.value else []))
  {
    hide Ascii;
    ShellWord();
    TermWord();
    KindWords();
    Regroup(Ascii("shell,v2"), [44], [84, 69, 82, 77, 61], if term.Some? then term.value else [],
            if pty then [112, 116, 121] else [114, 97, 119], [58], if command.Some? then command.value else []);
  }

  lemma ArgsRead(term: Option<bytes>, pty: bool)
    requires term.Some? ==> 44 !in term.value && 58 !in term.value
    ensures 58 !in Args(term, pty) && ReadArgs(Args(term, pty)) == Some((term, pty))
  {
    hide SplitAt;
    if term.Some? {
      var kind: bytes := if pty then [112, 116, 121] else [114, 97, 119];
      SplitsAt(44, [84, 69, 82, 77, 61] + term.value, kind);
      assert Args(term, pty)[0] == 84;
    }
  }

  /**
   The device finds the terminal, the kind and the command line the client named, whatever they are,
   exactly when the terminal's name has no comma and no colon in it.
   */
  lemma ShellCommandRoundTripIff(term: Option<bytes>, pty: bool, command: Option<bytes>)
    ensures var line := if command.Some? then command.value else [];
            var sent := ShellCommand(term, if pty then PTY else RAW, command);
            && sent.Some?
            && (ReadShellCommand(sent.value) == Some((term, pty, line)) <==> (term.Some? ==> 44 !in term.value && 58 !in term.value))
  {
    hide ShellCommand, Args, SplitAt, ReadArgs, KindOf;
    CommandIs(term, pty, command);
    var line, word := if command.Some? then command.value else [], [115, 104, 101, 108, 108, 44, 118, 50] + [44];
    assert word == [115, 104, 101, 108, 108, 44, 118, 50, 44];
    var sent := ShellCommand(term, if pty then PTY else RAW, command).value;
    if term.None? || (44 !in term.value && 58 !in term.value) {
      ArgsRead(term, pty);
      SplitsAt(58, word + Args(term, pty), line);
      assert (word + Args(term, pty))[9..] == Args(term, pty);
    }
    if ReadShellCommand(sent) == Some((term, pty, line)) && term.Some? {
      var head := SplitAt(58, sent).0;
      assert forall i :: 9 <= i < |head| ==> head[9..][i - 9] == head[i];
      ReadTermIsPlain(head[9..]);
    }
  }

  lemma ReadTermIsPlain(args: bytes)
    requires 58 !in args && ReadArgs(args).Some? && ReadArgs(args).value.0.Some?
    ensures 44 !in ReadArgs(args).value.0.value && 58 !in ReadArgs(args).value.0.value
  {
    hide KindOf;
    var front := SplitAt(44, args).0;
    assert forall i :: 0 <= i < |front| ==> front[i] == args[i];
    assert forall i :: 5 <= i < |front| ==> front[5..][i - 5] == front[i];
  }

  /** One request from the client: everything it asks for is written, or the loop stops. */
  method OnRequest(conn: Conn, m: ShellRequest) returns (go: bool)
    modifies conn`outgoing, conn`closed, conn`writeFailed
    ensures go ==> !m.OtherRequest? && conn.outgoing == old(conn.outgoing) + ShellFrames(RequestBlobs(m)) && conn.closed == old(conn.closed)
    ensures !go ==> old(conn.outgoing) <= conn.outgoing <= old(conn.outgoing) + ShellFrames(RequestBlobs(m))
    ensures m.OtherRequest? ==> conn.outgoing == old(conn.outgoing) && conn.closed == old(conn.closed)
    ensures !go ==> m.OtherRequest? || (conn.closed && RequestBlobs(m) != [])
    ensures old(conn.closed) ==> conn.outgoing == old(conn.outgoing) && (go ==> RequestBlobs(m) == [])
  {
    hide ShellFrame, ResizePayload;
    go := true;
    ghost var base := conn.outgoing;
    match m {
      case Stdin(data, close) =>
        ghost var first: bytes := if data != [] then ShellFrame(ShellBlob(STDIN_ID, data)) else [];
        ghost var second: bytes := if close then ShellFrame(ShellBlob(CLOSE_ID, [])) else [];
        StdinFrames(data, close);
        assert base + ShellFrames(RequestBlobs(m)) == base + first + second;
        if data != [] {
          go := conn.WriteShellBlob(STDIN_ID, data);
        }
        if go && close {
          go := conn.WriteShellBlob(CLOSE_ID, []);
        }
      case Resize(rows, cols, width, height) =>
        SingleFrame(ShellBlob(RESIZE_ID, ResizePayload(rows, cols, width, height)));
        go := conn.WriteShellBlob(RESIZE_ID, ResizePayload(rows, cols, width, height));
      case OtherRequest =>
        go := false;
    }
  }

  lemma SingleFrame(b: ShellBlob)
    ensures ShellFrames([b]) == ShellFrame(b)
  {
  }

  lemma StdinFrames(data: bytes, close: bool)
    ensures ShellFrames(RequestBlobs(Stdin(data, close))) ==
            (if data != [] then ShellFrame(ShellBlob(STDIN_ID, data)) else [])
            + (if close then ShellFrame(ShellBlob(CLOSE_ID, [])) else [])
  {
    hide ShellFrame;
    var a: seq<ShellBlob> := if data != [] then [ShellBlob(STDIN_ID, data)] else [];
    var b: seq<ShellBlob> := if close then [ShellBlob(CLOSE_ID, [])] else [];
    ShellFramesAppend(a, b);
    if data != [] { SingleFrame(a[0]); }
    if close { SingleFrame(b[0]); }
  }

  datatype Verdict = GoOn | Stop | Die

  /** One blob from the device: its response is sent, or the loop stops; an exit blob stops it either way. */
  method OnBlob(server: Sink<ShellResponse>, b: ShellBlob) returns (v: Verdict, ghost sendOk: bool)
    modifies server
    ensures match ReadingOf(b)
            case IndexError => v == Die && server.sent == old(server.sent)
            case Strange => v == Stop && server.sent == old(server.sent)
            case Response(r) =>
              && server.sent == old(server.sent) + (if sendOk then [r] else [])
              && v == (if sendOk && !r.Exit? then GoOn else Stop)
  {
    sendOk := true;
    if b.id == STDOUT_ID || b.id == STDERR_ID {
      var channel := OUT;
      if b.id == STDERR_ID {
        channel := ERR;
      }
      var ok := server.Send(Output(channel, b.data));
      v, sendOk := if ok then GoOn else Stop, ok;
    } else if b.id == EXIT_ID {
      if b.data == [] {
        return Die, sendOk;
      }
      var ok := server.Send(Exit(b.data[0]));
      v, sendOk := Stop, ok;
    } else {
      v := Stop;
    }
  }

  // ---------------------------------------------------------------- the client

  datatype Received = Data(channel: Channel, data: bytes) | Nothing | Failed

  class Shell {
    const client: Source<ShellResponse>
    var exited: bool
    var exitCode: byte

    constructor (c: Source<ShellResponse>)
      ensures client == c && !exited && exitCode == 0
    {
      client := c;
      exited, exitCode := false, 0;
    }

    /** Nothing means the shell has exited. */
    method Recv() returns (r: Received)
      modifies this, client
      ensures old(exited) ==> r == Nothing && exited && exitCode == old(exitCode) && client.pending == old(client.pending)
      ensures !old(exited) && old(client.pending) == [] ==> r == Failed && !exited && client.pending == [] && exitCode == old(exitCode)
      ensures !old(exited) && old(client.pending) != [] ==>
                && client.pending == old(client.pending)[1..]
                && match old(client.pending)[0]
                   case Output(channel, data) => r == Data(channel, data) && !exited && exitCode == old(exitCode)
                   case Exit(code) => r == Nothing && exited && exitCode == code % 256
                   case OtherResponse => r == Failed && !exited && exitCode == old(exitCode)
    {
      if exited {
        return Nothing;
      }
      var rmsg := client.Recv();
      match rmsg {
        case None => return Failed;
        case Some(Output(channel, data)) => return Data(channel, data);
        case Some(Exit(code)) =>
          exitCode := code % 256;
          exited := true;
          return Nothing;
        case Some(OtherResponse) => return Failed;
      }
    }

    /** Whether the shell has closed, and its exit code if so. */
    method ExitCode() returns (e: bool, code: byte)
      ensures e == exited && code == exitCode
    {
      e, code := exited, exitCode;
    }
  }

  /** What a caller has who receives until there is nothing more, or an error. */
  datatype Session = Session(out: bytes, err: bytes, exit: Option<byte>)

  function Watch(responses: seq<ShellResponse>): Session {
    if responses == [] then Session([], [], None)
    else
      match responses[0]
      case Output(OUT, data) => var rest := Watch(responses[1..]); rest.(out := data + rest.out)
      case Output(ERR, data) => var rest := Watch(responses[1..]); rest.(err := data + rest.err)
      case Exit(code) => Session([], [], Some(code % 256))
      case OtherResponse => Session([], [], None)
  }

  method ReceiveAll(shell: Shell) returns (s: Session)
    requires !shell.exited
    modifies shell, shell.client
    ensures s == Watch(old(shell.client.pending))
    ensures shell.exited <==> s.exit.Some?
    ensures s.exit.Some? ==> shell.exitCode == s.exit.value
  {
    ghost var all := shell.client.pending;
    var out: bytes, err: bytes := [], [];
    while true
      invariant !shell.exited
      invariant Watch(all) == (var rest := Watch(shell.client.pending); Session(out + rest.out, err + rest.err, rest.exit))
      decreases |shell.client.pending|
    {
      ghost var pending := shell.client.pending;
      ghost var rest := if pending == [] then Session([], [], None) else Watch(pending[1..]);
      var r := shell.Recv();
      assert out + [] == out && err + [] == err;
      match r {
        case Nothing => return Session(out, err, Some(shell.exitCode));
        case Failed => return Session(out, err, None);
        case Data(OUT, data) =>
          assert out + (data + rest.out) == (out + data) + rest.out;
          out := out + data;
        case Data(ERR, data) =>
          assert err + (data + rest.err) == (err + data) + rest.err;
          err := err + data;
      }
    }
  }

  // ---------------------------------------------------------------- end to end

  /** The device's own account of its blobs: the bytes on each channel, and the exit byte. */
  function OnChannel(id: byte, blobs: seq<ShellBlob>): bytes {
    if blobs == [] then [] else (if blobs[0].id == id then blobs[0].data else []) + OnChannel(id, blobs[1..])
  }

  lemma {:induction false} WatchOfResponses(blobs: seq<ShellBlob>, responses: seq<ShellResponse>)
    requires |blobs| == |responses|
    requires forall i :: 0 <= i < |blobs| ==> ReadingOf(blobs[i]) == Response(responses[i])
    requires forall i :: 0 <= i < |blobs| && responses[i].Exit? ==> i == |blobs| - 1
    ensures var s := Watch(responses);
            && s.out == OnChannel(1, blobs) && s.err == OnChannel(2, blobs)
            && (s.exit.Some? <==> blobs != [] && blobs[|blobs| - 1].id == 3)
            && (s.exit.Some? ==> blobs[|blobs| - 1].data != [] && s.exit.value == blobs[|blobs| - 1].data[0])
  {
    if blobs != [] {
      var b, r := blobs[0], responses[0];
      assert ReadingOf(b) == Response(r);
      if r.Exit? {
        assert blobs[1..] == [];
      } else {
        WatchOfResponses(blobs[1..], responses[1..]);
      }
    }
  }
}

/** The multiplexer as the program runs it: two receivers and the loop over the real connection and streams. */
module ShellProcess {
  import opened Common
  import opened Wire
  import opened RawConnection
  import opened Rpc
  import opened ShellMessages
  import opened ShellEnds
  import opened ShellMux
  import AdbSync

  class Multiplexer {
    const conn: Conn
    const client: Source<ShellRequest>
    const server: Sink<ShellResponse>
    var requestSlot: Slot<FromClient>    // where the request receiver is, and what it offers on its channel
    var responseSlot: Slot<FromDevice>   // the same for the response receiver
    var phase: Phase
    ghost var handledRequests: seq<ShellRequest>
    ghost var handledBlobs: seq<ShellBlob>

    ghost function State(): Mux
      reads this, conn, client, server
    {
      Mux(client.pending, conn.Readable(), requestSlot, responseSlot, phase, conn.closed, server.sent, conn.outgoing,
          handledRequests, handledBlobs)
    }

    constructor (c: Conn, requests: Source<ShellRequest>, responses: Sink<ShellResponse>)
      requires !c.closed && responses.sent == []
      ensures conn == c && client == requests && server == responses
      ensures State() == Begin(requests.pending, c.Readable(), c.outgoing)
    {
      conn, client, server := c, requests, responses;
      requestSlot, responseSlot, phase := Fetching, Fetching, Running;
      handledRequests, handledBlobs := [], [];
    }

    /** The request receiver, up to its channel send. */
    method ReceiveRequest()
      requires phase != Crashed && requestSlot.Fetching?
      modifies this`requestSlot, client
      ensures Enabled(old(State()), FetchRequest) && State() == Next(old(State()), FetchRequest)
    {
      ghost var s := State();
      var m := client.Recv();
      requestSlot := Offering(if m.None? then RequestError else Request(m.value));
      assert requestSlot == Next(s, FetchRequest).requestSlot;
    }

    /** The response receiver, up to its channel send. */
    method ReceiveResponse()
      requires phase != Crashed && responseSlot.Fetching?
      modifies this`responseSlot, conn`incoming, conn`closed
      ensures Enabled(old(State()), FetchBlob) && State() == Next(old(State()), FetchBlob)
    {
      hide FromLE;
      ghost var s := State();
      var b := conn.ReadShellBlob();
      responseSlot := Offering(if b.Ok? then Blob(b.value) else BlobError);
      assert responseSlot == Next(s, FetchBlob).responseSlot;
    }

    /** The select loop takes what the request receiver offers; an error has let that receiver return. */
    method SelectRequest() returns (ghost w: Writing)
      requires phase == Running && requestSlot.Offering?
      modifies this`requestSlot, this`phase, this`handledRequests, conn`outgoing, conn`closed, conn`writeFailed
      ensures Enabled(old(State()), TakeRequest(w)) && State() == Next(old(State()), TakeRequest(w))
    {
      hide ShellFrames, RequestBlobs;
      w := Wrote;
      if requestSlot.m.RequestError? {
        requestSlot, phase := Finished, Stopped;
        return;
      }
      var m := requestSlot.m.r;
      ghost var before, frames := conn.outgoing, ShellFrames(RequestBlobs(m));
      FramesOfNothing(m);
      requestSlot := Fetching;
      var go := OnRequest(conn, m);
      if go {
        handledRequests := handledRequests + [m];
        return;
      }
      phase := Stopped;
      if !m.OtherRequest? {
        w := Cut(|conn.outgoing| - |before|);
        assert conn.outgoing == (before + frames)[..|conn.outgoing|] == before + frames[..w.k];
      }
    }

    /** The select loop takes what the response receiver offers. */
    method SelectResponse() returns (ghost sendOk: bool)
      requires phase == Running && responseSlot.Offering?
      modifies this`responseSlot, this`phase, this`handledBlobs, server
      ensures Enabled(old(State()), TakeResponse(sendOk)) && State() == Next(old(State()), TakeResponse(sendOk))
    {
      hide ReadingOf;
      sendOk := true;
      if responseSlot.m.BlobError? {
        responseSlot, phase := Finished, Stopped;
        return;
      }
      var b := responseSlot.m.b;
      responseSlot := Fetching;
      var v;
      v, sendOk := OnBlob(server, b);
      phase := if v == GoOn then Running else if v == Stop then Stopped else Crashed;
      if ReadingOf(b).Response? && sendOk {
        handledBlobs := handledBlobs + [b];
      }
      assert server.sent + [] == server.sent;
    }

    /** Behind the loop; a send that blocks on a closed channel panics, and its receiver recovers and returns. */
    method CloseChannels()
      requires phase == Stopped
      modifies this`phase
      ensures Enabled(old(State()), Step.CloseChannels) && State() == Next(old(State()), Step.CloseChannels)
    {
      phase := ChannelsClosed;
    }

    method CloseConnection()
      requires phase == ChannelsClosed
      modifies this`phase, conn`closed
      ensures Enabled(old(State()), Step.CloseConnection) && State() == Next(old(State()), Step.CloseConnection)
    {
      conn.Close();
      phase := Released;
    }

    method RecoverRequest()
      requires requestSlot.Offering? && (phase == ChannelsClosed || phase == Released)
      modifies this`requestSlot
      ensures Enabled(old(State()), DropRequest) && State() == Next(old(State()), DropRequest)
    {
      requestSlot := Finished;
    }

    method RecoverResponse()
      requires responseSlot.Offering? && (phase == ChannelsClosed || phase == Released)
      modifies this`responseSlot
      ensures Enabled(old(State()), DropBlob) && State() == Next(old(State()), DropBlob)
    {
      responseSlot := Finished;
    }

    /**
     Both receivers and the loop under any schedule. It comes to its end, with both receivers returned, and
     what then stands on both streams is what a run of the machine leaves there.
     */
    method Schedule() returns (ghost steps: seq<Step>)
      requires State() == Begin(client.pending, conn.Readable(), conn.outgoing)
      modifies this, conn, client, server
      ensures var s := Begin(old(client.pending), old(conn.Readable()), old(conn.outgoing));
              Runs(s, steps) && Run(s, steps) == State() && Over(State())
    {
      ghost var s := State();
      steps := [];
      hide *;
      NothingYet(s, client.pending, conn.Readable(), conn.outgoing);
      while
        invariant Runs(s, steps) && Run(s, steps) == State() && Attended(State())
        decreases Left(State())
      {
        case phase != Crashed && requestSlot.Fetching? =>
          ghost var before := State();
          ReceiveRequest();
          steps := OneMoreStep(s, steps, before, FetchRequest);
        case phase != Crashed && responseSlot.Fetching? =>
          ghost var before := State();
          ReceiveResponse();
          steps := OneMoreStep(s, steps, before, FetchBlob);
        case phase == Running && requestSlot.Offering? =>
          ghost var before := State();
          ghost var w := SelectRequest();
          steps := OneMoreStep(s, steps, before, TakeRequest(w));
        case phase == Running && responseSlot.Offering? =>
          ghost var before := State();
          ghost var sendOk := SelectResponse();
          steps := OneMoreStep(s, steps, before, TakeResponse(sendOk));
        case phase == Stopped =>
          ghost var before := State();
          CloseChannels();
          steps := OneMoreStep(s, steps, before, Step.CloseChannels);
        case phase == ChannelsClosed =>
          ghost var before := State();
          CloseConnection();
          steps := OneMoreStep(s, steps, before, Step.CloseConnection);
        case (phase == ChannelsClosed || phase == Released) && requestSlot.Offering? =>
          ghost var before := State();
          RecoverRequest();
          steps := OneMoreStep(s, steps, before, DropRequest);
        case (phase == ChannelsClosed || phase == Released) && responseSlot.Offering? =>
          ghost var before := State();
          RecoverResponse();
          steps := OneMoreStep(s, steps, before, DropBlob);
      }
      NothingLeft();
    }

    lemma NothingLeft()
      requires Attended(State())
      requires phase != Stopped && phase != ChannelsClosed
      requires phase != Crashed ==> !requestSlot.Fetching? && !responseSlot.Fetching?
      requires phase == Running || phase == Released ==> !requestSlot.Offering? && !responseSlot.Offering?
      ensures Over(State())
    {
    }
  }

  lemma NothingYet(s: Mux, requests: seq<ShellRequest>, incoming: bytes, outgoing: bytes)
    requires s == Begin(requests, incoming, outgoing)
    ensures Runs(s, []) && Run(s, []) == s && Attended(s)
  {
  }

  lemma OneMoreStep(s: Mux, steps: seq<Step>, before: Mux, step: Step) returns (steps': seq<Step>)
    requires Runs(s, steps) && Run(s, steps) == before && Attended(before) && Enabled(before, step)
    ensures Runs(s, steps') && Run(s, steps') == Next(before, step)
    ensures Attended(Next(before, step)) && Left(Next(before, step)) < Left(before)
  {
    hide *;
    EveryStepCountsDown(before, step);
    RunSnoc(s, steps, step);
    steps' := steps + [step];
  }

  lemma FramesOfNothing(m: ShellRequest)
    ensures RequestBlobs(m) == [] <==> ShellFrames(RequestBlobs(m)) == []
    ensures m.OtherRequest? ==> RequestBlobs(m) == []
  {
  }

  /** The first message of a shell stream. */
  datatype Start = Start(term: Option<bytes>, kind: ShellType, command: Option<bytes>)

  /** What a session leaves behind: nothing, or what some run of the machine does behind the two accepted commands. */
  ghost predicate Served(requests: seq<ShellRequest>, incoming: bytes, base: bytes, end: Mux) {
    && ClientSide(end, WholeShellFrames(incoming)) && DeviceSide(end, requests, base) && Over(end)
  }

  /**
   A whole session. Without a proper start nothing is sent to anybody; otherwise the device gets the command
   for the transport and the shell's own, and the multiplexer starts behind their acceptance.
   */
  method Process(conn: Conn, transport: bytes, start: Option<Start>, client: Source<ShellRequest>, server: Sink<ShellResponse>)
    returns (mux: Option<Multiplexer>)
    requires !conn.closed && !conn.writeFailed && server.sent == []
    modifies conn, client, server
    ensures var command := if start.None? then None else ShellCommand(start.value.term, start.value.kind, start.value.command);
            && (command.None? ==> mux.None? && conn.outgoing == old(conn.outgoing))
            && (mux.None? ==> server.sent == [])
            && (command.Some? && mux.None? && !conn.writeFailed ==> AdbSync.ReplyResult(AdbSync.ReadTwoReplies(old(conn.Readable()))) != Ok(()))
            && (command.Some? && mux.None? ==>
                  old(conn.outgoing) <= conn.outgoing <= old(conn.outgoing) + HexMessage(transport) + HexMessage(command.value))
            && (command.Some? && mux.Some? ==>
                  && AdbSync.ReadTwoReplies(old(conn.Readable())).Got? && AdbSync.ReadTwoReplies(old(conn.Readable())).value == Accepted
                  && mux.value.conn == conn && mux.value.server == server && mux.value.client == client
                  && Served(old(client.pending), AdbSync.ReadTwoReplies(old(conn.Readable())).rest,
                            old(conn.outgoing) + HexMessage(transport) + HexMessage(command.value), mux.value.State()))
  {
    hide HexMessage, ShellCommand, ReadReply, ClientSide, DeviceSide, WholeShellFrames;
    if start.None? {
      return None;
    }
    var command := ShellCommand(start.value.term, start.value.kind, start.value.command);
    if command.None? {
      return None;
    }
    ghost var base := conn.outgoing;
    var reached := conn.SendCommand(transport);
    if !reached.Ok? {
      conn.Close();
      return None;
    }
    var accepted := conn.SendCommand(command.value);
    if !accepted.Ok? {
      return None;
    }
    ghost var requests, incoming, out := client.pending, conn.Readable(), conn.outgoing;
    var m := new Multiplexer(conn, client, server);
    ghost var steps := m.Schedule();
    EveryInterleavingKeepsOrder(requests, incoming, out, steps);
    mux := Some(m);
  }
}

/** From the device's stream, through any interleaving of the multiplexer, to the caller of the client library. */
module ShellEndToEnd {
  import opened Common
  import opened Wire
  import opened ShellMessages
  import opened ShellMux
  import opened ShellEnds

  /** The caller has, per channel, exactly the bytes of the handled blobs, and the exit byte of the one that ended them. */
  lemma ClientSeesThePrefix(requests: seq<ShellRequest>, incoming: bytes, base: bytes, steps: seq<Step>)
    requires Runs(Begin(requests, incoming, base), steps)
    ensures var s := Run(Begin(requests, incoming, base), steps);
            var seen := Watch(s.sent);
            && s.handledBlobs <= WholeShellFrames(incoming)
            && seen.out == OnChannel(1, s.handledBlobs) && seen.err == OnChannel(2, s.handledBlobs)
            && (seen.exit.Some? <==> s.handledBlobs != [] && s.handledBlobs[|s.handledBlobs| - 1].id == 3)
            && (seen.exit.Some? ==> s.handledBlobs[|s.handledBlobs| - 1].data != [] && seen.exit.value == s.handledBlobs[|s.handledBlobs| - 1].data[0])
  {
    EveryInterleavingKeepsOrder(requests, incoming, base, steps);
    var s := Run(Begin(requests, incoming, base), steps);
    hide WholeShellFrames, Run, Runs, Begin, DeviceSide;
    WatchOfResponses(s.handledBlobs, s.sent);
  }
}
