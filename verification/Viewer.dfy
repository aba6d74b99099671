/** The websocket viewers of the demo server: a viewer is given video from the first keyframe on. */
module Viewers {
  import opened Common
  import opened DisplayStream
  import Rpc

  /** The messages of one frame for a viewer that is (now) started: a start notice in front of each keyframe. */
  function FrameMessages(f: DisplayFrame): seq<bytes> {
    (if f.keyframe then [[1]] else []) + [[2, if f.keyframe then 1 else 0] + f.data]
  }

  function StartedAfter(started: bool, f: DisplayFrame): bool {
    started || f.keyframe
  }

  function Messages(started: bool, f: DisplayFrame): seq<bytes> {
    if StartedAfter(started, f) then FrameMessages(f) else []
  }

  /** All messages of a viewer for the frames it is shown. */
  function Feed(started: bool, frames: seq<DisplayFrame>): seq<bytes>
    decreases frames
  {
    if frames == [] then [] else Messages(started, frames[0]) + Feed(StartedAfter(started, frames[0]), frames[1..])
  }

  /** The frames from the first keyframe on. */
  function FromKeyframe(frames: seq<DisplayFrame>): seq<DisplayFrame> {
    if frames == [] || frames[0].keyframe then frames else FromKeyframe(frames[1..])
  }

  // ---------------------------------------------------------------- the viewer's side

  datatype Packet = Packet(keyframe: bool, data: bytes)

  /** Reads the messages back: each video message with its flag, a start notice only right in front of a keyframe. None otherwise. */
  function Read(messages: seq<bytes>): Option<seq<Packet>> {
    if messages == [] then Some([])
    else if messages[0] == [1] then
      if |messages| >= 2 && |messages[1]| >= 2 && messages[1][0] == 2 && messages[1][1] == 1 then
        match Read(messages[2..])
        case None => None
        case Some(more) => Some([Packet(true, messages[1][2..])] + more)
      else None
    else if |messages[0]| >= 2 && messages[0][0] == 2 && messages[0][1] == 0 then
      match Read(messages[1..])
      case None => None
      case Some(more) => Some([Packet(false, messages[0][2..])] + more)
    else None
  }

  function Packets(frames: seq<DisplayFrame>): (p: seq<Packet>)
    ensures |p| == |frames| && forall i :: 0 <= i < |p| ==> p[i] == Packet(frames[i].keyframe, frames[i].data)
  {
    seq(|frames|, i requires 0 <= i < |frames| => Packet(frames[i].keyframe, frames[i].data))
  }

  lemma OneFrameReads(f: DisplayFrame, rest: seq<bytes>, more: seq<Packet>)
    requires Read(rest) == Some(more)
    ensures Read(FrameMessages(f) + rest) == Some([Packet(f.keyframe, f.data)] + more)
  {
  }

  lemma {:induction false} StartedFeedReads(frames: seq<DisplayFrame>)
    ensures Read(Feed(true, frames)) == Some(Packets(frames))
  {
    hide Read, FrameMessages;
    if frames == [] {
      assert Packets(frames) == [];
      assert Read([]) == Some([]) by { NothingReads(); }
    } else {
      StartedFeedReads(frames[1..]);
      OneFrameReads(frames[0], Feed(true, frames[1..]), Packets(frames[1..]));
      assert Packets(frames) == [Packet(frames[0].keyframe, frames[0].data)] + Packets(frames[1..]);
    }
  }

  lemma NothingReads()
    ensures Read([]) == Some([])
  {
  }

  /** A viewer shown any frames reads exactly those from the first keyframe on. */
  lemma {:induction false} FeedReads(frames: seq<DisplayFrame>)
    ensures Read(Feed(false, frames)) == Some(Packets(FromKeyframe(frames)))
  {
    if frames == [] {
      assert Packets(frames) == [];
    } else if frames[0].keyframe {
      StartedFeedReads(frames);
      assert Feed(false, frames) == Feed(true, frames);
    } else {
      FeedReads(frames[1..]);
      assert Feed(false, frames) == Feed(false, frames[1..]);
    }
  }

  lemma {:induction false} FromKeyframeIsASuffix(frames: seq<DisplayFrame>) returns (skipped: nat)
    ensures skipped <= |frames| && FromKeyframe(frames) == frames[skipped..]
    ensures forall i :: 0 <= i < skipped ==> !frames[i].keyframe
    ensures skipped < |frames| ==> frames[skipped].keyframe
  {
    skipped := 0;
    if frames != [] && !frames[0].keyframe {
      var n := FromKeyframeIsASuffix(frames[1..]);
      skipped := n + 1;
      assert frames[1..][n..] == frames[n + 1..];
      assert forall i :: 1 <= i < skipped ==> frames[i] == frames[1..][i - 1];
    }
  }

  lemma LatestKeyInSuffix(s: seq<DisplayFrame>, j: nat, i: nat)
    requires j <= |s| && i <= |s| - j && j < |s| && s[j].keyframe && i > 0
    ensures LatestKey(s[j..], i) + j == LatestKey(s, i + j)
  {
  }

  /**
   A viewer that joins after any `joined` frames of a decodable stream is given exactly the rest of the
   stream from its first keyframe on, and that is decodable on its own.
   */
  lemma EveryViewerCanDecode(stream: seq<DisplayFrame>, joined: nat)
    requires Decodable(stream) && joined <= |stream|
    ensures Read(Feed(false, stream[joined..])) == Some(Packets(FromKeyframe(stream[joined..])))
    ensures Decodable(FromKeyframe(stream[joined..]))
  {
    hide *;
    var rest := stream[joined..];
    FeedReads(rest);
    var skipped := FromKeyframeIsASuffix(rest);
    assert rest[skipped..] == stream[joined + skipped..];
    KeyedSuffixIsDecodable(stream, joined + skipped);
  }

  lemma KeyedSuffixIsDecodable(stream: seq<DisplayFrame>, j: nat)
    requires Decodable(stream) && j <= |stream| && (j < |stream| ==> stream[j].keyframe)
    ensures Decodable(stream[j..])
  {
    hide LatestKey;
    var given := stream[j..];
    forall i | 0 <= i < |given| ensures DecodableAt(given, i) {
      assert DecodableAt(stream, i + j);
      if i > 0 {
        LatestKeyInSuffix(stream, j, i);
      }
    }
  }

  /** From the emulator's frames to any viewer. */
  lemma EveryViewerOfTheEmulatorCanDecode(interval: uint32, inputs: seq<Input>, joined: nat)
    requires Positive(inputs) && KeysArePacked(interval, inputs) && joined <= |Stream(interval, inputs)|
    ensures var shown := Stream(interval, inputs)[joined..];
            Read(Feed(false, shown)) == Some(Packets(FromKeyframe(shown))) && Decodable(FromKeyframe(shown))
  {
    StreamIsDecodable(interval, inputs);
    EveryViewerCanDecode(Stream(interval, inputs), joined);
  }

  lemma {:induction false} FeedAppends(started: bool, frames: seq<DisplayFrame>, f: DisplayFrame)
    ensures Feed(started, frames + [f]) == Feed(started, frames) + Messages(Started(started, frames), f)
    ensures Started(started, frames + [f]) == StartedAfter(Started(started, frames), f)
    decreases frames
  {
    hide Messages;
    if frames == [] {
      assert frames + [f] == [f];
      assert Messages(started, f) + [] == Messages(started, f);
    } else {
      assert (frames + [f])[1..] == frames[1..] + [f];
      var next := StartedAfter(started, frames[0]);
      FeedAppends(next, frames[1..], f);
      var a, b, c := Messages(started, frames[0]), Feed(next, frames[1..]), Messages(Started(started, frames), f);
      assert a + (b + c) == (a + b) + c;
    }
  }

  function Started(started: bool, frames: seq<DisplayFrame>): bool
    decreases frames
  {
    if frames == [] then started else Started(StartedAfter(started, frames[0]), frames[1..])
  }

  // ---------------------------------------------------------------- the objects

  class Client {
    const ws: Rpc.Sink<bytes>
    var videoStarted: bool
    ghost var shown: seq<DisplayFrame>   // the frames handed to this client so far

    /** As long as its websocket works, a client has been sent its whole feed. */
    ghost predicate Valid()
      reads this, ws
    {
      !ws.broken ==> videoStarted == Started(false, shown) && ws.sent == Feed(false, shown)
    }

    constructor (socket: Rpc.Sink<bytes>)
      requires socket.sent == []
      ensures Valid() && ws == socket && shown == [] && !videoStarted
    {
      ws, videoStarted := socket, false;
      shown := [];
    }

    method ProcessFrame(f: DisplayFrame) returns (ok: bool)
      requires Valid()
      modifies this, ws
      ensures Valid() && shown == old(shown) + [f]
      ensures videoStarted == StartedAfter(old(videoStarted), f)
      ensures ok ==> ws.sent == old(ws.sent) + Messages(old(videoStarted), f)
      ensures !ok ==> ws.broken
    {
      ghost var was, sent := videoStarted, ws.sent;
      shown := shown + [f];
      FeedAppends(false, old(shown), f);
      if f.keyframe {
        videoStarted := true;
        ok := ws.Send([1]);
        if !ok {
          return;
        }
      }
      if videoStarted {
        ok := ws.Send([2, if f.keyframe then 1 else 0] + f.data);
        if !ok {
          return;
        }
        assert ws.sent == sent + FrameMessages(f);
      } else {
        assert sent + [] == sent;
      }
      ok := true;
    }
  }

  class Server {
    var clients: seq<Client>

    /** Each client is an object of its own with a websocket of its own. */
    ghost predicate Valid()
      reads this, clients, set c | c in clients :: c.ws
    {
      && (forall i :: 0 <= i < |clients| ==> clients[i].Valid())
      && (forall i, j :: 0 <= i < j < |clients| ==> clients[i] != clients[j] && clients[i].ws != clients[j].ws)
    }

    constructor ()
      ensures Valid() && clients == []
    {
      clients := [];
    }

    /** A viewer joins: it is shown every frame from here on. */
    method Join(socket: Rpc.Sink<bytes>) returns (c: Client)
      requires Valid() && socket.sent == []
      requires forall i :: 0 <= i < |clients| ==> clients[i].ws != socket
      modifies this
      ensures Valid() && clients == old(clients) + [c] && fresh(c) && c.ws == socket && c.shown == []
    {
      c := new Client(socket);
      clients := clients + [c];
    }

    /** One frame of the display stream goes to every viewer, whatever happens to the others. */
    method ShowFrame(f: DisplayFrame)
      requires Valid()
      modifies clients, set c | c in clients :: c.ws
      ensures Valid() && clients == old(clients)
      ensures forall i :: 0 <= i < |clients| ==> clients[i].shown == old(clients[i].shown) + [f]
    {
      for k := 0 to |clients|
        invariant clients == old(clients) && Valid()
        invariant forall i :: 0 <= i < k ==> clients[i].shown == old(clients[i].shown) + [f]
        invariant forall i :: k <= i < |clients| ==> clients[i].shown == old(clients[i].shown)
      {
        var _ := clients[k].ProcessFrame(f);
      }
    }
  }
}
