/** The display stream of one client as a machine: resolution changes, blanks, keyframes and their timing. */
module DisplayStream {
  import opened Common

  /** A frame of the emulator by its size, or no picture at all; with the time it is processed and the packets the encoder makes of it. */
  datatype Input =
    | Blank(now: nat)
    | Picture(width: uint32, height: uint32, now: nat, packets: seq<bytes>)

  datatype DisplayFrame = DisplayFrame(keyframe: bool, width: uint32, height: uint32, data: bytes)

  /** The fields of the processor that decide about keyframes. Times are in nanoseconds. */
  datatype Processor = Processor(width: uint32, height: uint32, frameCount: uint32, lastKeyframe: nat)

  const INITIAL := Processor(0, 0, 0, 0)

  /** uint32(d.Milliseconds()) for a clock that does not run backwards. */
  function ElapsedMs(now: nat, since: nat): uint32 {
    if now < since then 0 else ((now - since) / 1_000_000) % TWO_32
  }

  /** After a change of size: a new encoder whose first frame is frame 0. */
  function Resized(p: Processor, in_: Input): Processor
    requires in_.Picture?
  {
    if in_.width != p.width || in_.height != p.height then Processor(in_.width, in_.height, 0, in_.now) else p
  }

  predicate Due(p: Processor, interval: uint32, now: nat) {
    interval != 0 && ElapsedMs(now, p.lastKeyframe) >= interval
  }

  function After(p: Processor, interval: uint32, in_: Input): Processor {
    match in_
    case Blank(now) => Processor(0, 0, 0, now)
    case Picture(w, h, now, _) =>
      var q := Resized(p, in_);
      q.(lastKeyframe := if Due(q, interval, now) then now else q.lastKeyframe, frameCount := (q.frameCount + 1) % TWO_32)
  }

  predicate IsKey(p: Processor, interval: uint32, in_: Input)
    requires in_.Picture?
  {
    Resized(p, in_).frameCount == 0 || Due(Resized(p, in_), interval, in_.now)
  }

  function Packed(keyframe: bool, w: uint32, h: uint32, packets: seq<bytes>): (s: seq<DisplayFrame>)
    ensures |s| == |packets| && forall i :: 0 <= i < |s| ==> s[i] == DisplayFrame(keyframe, w, h, packets[i])
  {
    seq(|packets|, i requires 0 <= i < |packets| => DisplayFrame(keyframe, w, h, packets[i]))
  }

  const BLANK_FRAME := DisplayFrame(true, 0, 0, [])

  function Sent(p: Processor, interval: uint32, in_: Input): seq<DisplayFrame> {
    match in_
    case Blank(_) => [BLANK_FRAME]
    case Picture(w, h, _, packets) => Packed(IsKey(p, interval, in_), w, h, packets)
  }

  function Process(interval: uint32, inputs: seq<Input>): Processor {
    if inputs == [] then INITIAL else After(Process(interval, inputs[..|inputs| - 1]), interval, inputs[|inputs| - 1])
  }

  /** Everything sent for the inputs, in order. */
  function Stream(interval: uint32, inputs: seq<Input>): seq<DisplayFrame> {
    if inputs == [] then []
    else
      var before := inputs[..|inputs| - 1];
      Stream(interval, before) + Sent(Process(interval, before), interval, inputs[|inputs| - 1])
  }

  /** Pictures have a positive size. */
  ghost predicate Positive(inputs: seq<Input>) {
    forall i :: 0 <= i < |inputs| && inputs[i].Picture? ==> inputs[i].width > 0 && inputs[i].height > 0
  }

  /** The encoder yields a packet for every keyframe it is asked for. */
  ghost predicate KeysArePacked(interval: uint32, inputs: seq<Input>) {
    forall i :: 0 <= i < |inputs| && inputs[i].Picture? && IsKey(Process(interval, inputs[..i]), interval, inputs[i]) ==>
      inputs[i].packets != []
  }

  // ---------------------------------------------------------------- decoding

  /** The latest keyframe in front of position i, or -1. */
  function LatestKey(s: seq<DisplayFrame>, i: nat): (k: int)
    requires i <= |s|
    ensures -1 <= k < i
    ensures k >= 0 ==> s[k].keyframe
    ensures forall j :: k < j < i ==> !s[j].keyframe
  {
    if i == 0 then -1 else if s[i - 1].keyframe then i - 1 else LatestKey(s, i - 1)
  }

  /** A delta can be decoded: the latest keyframe in front of it is a real one of the same size. */
  ghost predicate DecodableAt(s: seq<DisplayFrame>, i: nat)
    requires i < |s|
  {
    var k := LatestKey(s, i);
    s[i].keyframe || (k >= 0 && s[k].width == s[i].width && s[k].height == s[i].height && s[k].width > 0 && s[k].height > 0)
  }

  ghost predicate Decodable(s: seq<DisplayFrame>) {
    forall i :: 0 <= i < |s| ==> DecodableAt(s, i)
  }

  lemma {:induction false} LatestKeyOfPrefix(s: seq<DisplayFrame>, t: seq<DisplayFrame>, i: nat)
    requires i <= |s|
    ensures LatestKey(s + t, i) == LatestKey(s, i)
  {
    if i > 0 {
      LatestKeyOfPrefix(s, t, i - 1);
    }
  }

  /** The latest keyframe behind a burst of equal flags. */
  lemma {:induction false} LatestKeyInBurst(s: seq<DisplayFrame>, burst: seq<DisplayFrame>, n: nat)
    requires n <= |burst| && forall i, j :: 0 <= i < j < |burst| ==> burst[i].keyframe == burst[j].keyframe
    ensures LatestKey(s + burst, |s| + n) ==
            if n > 0 && burst[0].keyframe then |s| + n - 1 else LatestKey(s, |s|)
  {
    if n == 0 {
      LatestKeyOfPrefix(s, burst, |s|);
    } else {
      assert (s + burst)[|s| + n - 1] == burst[n - 1];
      LatestKeyInBurst(s, burst, n - 1);
    }
  }

  /** What the processor's size says about the stream so far: its last keyframe is a real one of that size. */
  ghost predicate SizeIsKeyed(p: Processor, s: seq<DisplayFrame>) {
    p.width > 0 && p.height > 0 ==>
      var k := LatestKey(s, |s|);
      k >= 0 && s[k].width == p.width && s[k].height == p.height
  }

  lemma BurstKeepsDecodable(s: seq<DisplayFrame>, key: bool, w: uint32, h: uint32, packets: seq<bytes>)
    requires Decodable(s) && w > 0 && h > 0
    requires if key then packets != [] else (var k := LatestKey(s, |s|); k >= 0 && s[k].width == w && s[k].height == h)
    ensures var s' := s + Packed(key, w, h, packets);
            && Decodable(s')
            && (var k := LatestKey(s', |s'|); k >= 0 && s'[k].width == w && s'[k].height == h)
  {
    var burst := Packed(key, w, h, packets);
    var s' := s + burst;
    forall i | 0 <= i < |s'| ensures DecodableAt(s', i) {
      if i < |s| {
        assert DecodableAt(s, i);
        LatestKeyOfPrefix(s, burst, i);
      } else {
        LatestKeyInBurst(s, burst, i - |s|);
        assert s'[i] == burst[i - |s|];
      }
    }
    LatestKeyInBurst(s, burst, |burst|);
  }

  lemma BlankKeepsDecodable(s: seq<DisplayFrame>)
    requires Decodable(s)
    ensures Decodable(s + [BLANK_FRAME])
  {
    var s' := s + [BLANK_FRAME];
    forall i | 0 <= i < |s'| ensures DecodableAt(s', i) {
      if i < |s| {
        assert DecodableAt(s, i);
        LatestKeyOfPrefix(s, [BLANK_FRAME], i);
      }
    }
  }

  /** Whatever the emulator shows and whenever, every delta on the stream follows a real keyframe of its size. */
  lemma {:induction false} StreamIsDecodable(interval: uint32, inputs: seq<Input>)
    requires Positive(inputs) && KeysArePacked(interval, inputs)
    ensures Decodable(Stream(interval, inputs)) && SizeIsKeyed(Process(interval, inputs), Stream(interval, inputs))
    decreases |inputs|
  {
    hide Decodable, LatestKey, Packed;
    if inputs == [] {
      assert Decodable([]) by { NothingIsDecodable(); }
    } else {
      var before, last := inputs[..|inputs| - 1], inputs[|inputs| - 1];
      assert forall i :: 0 <= i < |before| ==> before[..i] == inputs[..i];
      StreamIsDecodable(interval, before);
      var p, s := Process(interval, before), Stream(interval, before);
      match last
      case Blank(_) => BlankKeepsDecodable(s);
      case Picture(w, h, _, packets) => BurstKeepsDecodable(s, IsKey(p, interval, last), w, h, packets);
    }
  }

  lemma NothingIsDecodable()
    ensures Decodable([])
  {
  }

  /** A stream cut off anywhere, by a failed send or a failed encoder, is as decodable. */
  lemma CutOffStreamIsDecodable(s: seq<DisplayFrame>, n: nat)
    requires Decodable(s) && n <= |s|
    ensures Decodable(s[..n])
  {
    assert s == s[..n] + s[n..];
    forall i | 0 <= i < n ensures DecodableAt(s[..n], i) {
      assert DecodableAt(s, i);
      LatestKeyOfPrefix(s[..n], s[n..], i);
    }
  }

  /** The packet is needed: an encoder that swallows a keyframe leaves an undecodable delta. */
  lemma SilentKeyframeBreaksDecoding()
    ensures var inputs := [Picture(2, 2, 0, []), Picture(2, 2, 1, [[7]])];
            Stream(0, inputs) == [DisplayFrame(false, 2, 2, [7])] && !Decodable(Stream(0, inputs))
  {
    var a, b := Picture(2, 2, 0, []), Picture(2, 2, 1, [[7]]);
    var inputs := [a, b];
    assert inputs[..1] == [a] && [a][..0] == [];
    assert Stream(0, [a]) == [];
    assert Process(0, [a]) == Processor(2, 2, 1, 0);
    assert Stream(0, inputs) == [DisplayFrame(false, 2, 2, [7])];
    assert !DecodableAt(Stream(0, inputs), 0);
  }

  // ---------------------------------------------------------------- timing

  /** Input i is a picture that starts over: the first at all, after a blank, or of a new size. */
  predicate StartsOver(inputs: seq<Input>, i: nat)
    requires i < |inputs| && inputs[i].Picture?
  {
    i == 0 || inputs[i - 1].Blank? || inputs[i - 1].width != inputs[i].width || inputs[i - 1].height != inputs[i].height
  }

  /** When a picture should be a keyframe, by the history alone. */
  predicate ShouldBeKey(inputs: seq<Input>, interval: uint32, i: nat)
    requires i < |inputs| && inputs[i].Picture?
    decreases i, 1
  {
    StartsOver(inputs, i) || (interval != 0 && (inputs[i].now - Mark(inputs, interval, i)) / 1_000_000 >= interval)
  }

  /** The time of the latest keyframe or blank among the first n inputs. */
  function Mark(inputs: seq<Input>, interval: uint32, n: nat): int
    requires n <= |inputs|
    decreases n, 0
  {
    if n == 0 then 0
    else if inputs[n - 1].Blank? || ShouldBeKey(inputs, interval, n - 1) then inputs[n - 1].now
    else Mark(inputs, interval, n - 1)
  }

  /** How many pictures of one size in a row end at position n. */
  function Streak(inputs: seq<Input>, n: nat): nat
    requires n <= |inputs|
  {
    if n == 0 || inputs[n - 1].Blank? then 0
    else if StartsOver(inputs, n - 1) then 1
    else Streak(inputs, n - 1) + 1
  }

  /** The clock does not run backwards. */
  ghost predicate Monotone(inputs: seq<Input>) {
    forall i, j :: 0 <= i < j < |inputs| ==> inputs[i].now <= inputs[j].now
  }

  /** Milliseconds since the latest keyframe or blank. */
  function SinceMark(inputs: seq<Input>, interval: uint32, i: nat): int
    requires i < |inputs|
  {
    (inputs[i].now - Mark(inputs, interval, i)) / 1_000_000
  }

  lemma {:induction false} MarkIsPast(inputs: seq<Input>, interval: uint32, n: nat, now: nat)
    requires n <= |inputs| && forall i :: 0 <= i < n ==> inputs[i].now <= now
    ensures 0 <= Mark(inputs, interval, n) <= now
  {
    if n > 0 {
      MarkIsPast(inputs, interval, n - 1, now);
    }
  }

  /** The processor's size and frame counter, read off the history; the counter wraps. */
  ghost predicate Counts(p: Processor, inputs: seq<Input>, n: nat)
    requires n <= |inputs|
  {
    && p.frameCount == Streak(inputs, n) % TWO_32
    && (if n == 0 || inputs[n - 1].Blank? then p.width == 0 && p.height == 0
        else p.width == inputs[n - 1].width && p.height == inputs[n - 1].height)
  }

  lemma OneMoreCounts(p: Processor, interval: uint32, inputs: seq<Input>, i: nat)
    requires Positive(inputs) && i < |inputs| && Counts(p, inputs, i)
    ensures Counts(After(p, interval, inputs[i]), inputs, i + 1)
  {
    hide Due;
    if inputs[i].Picture? {
      assert inputs[i].width > 0 && inputs[i].height > 0;
      Wrapping(Streak(inputs, i));
    }
    hide Positive;
  }

  lemma Wrapping(n: nat)
    ensures (n % TWO_32 + 1) % TWO_32 == (n + 1) % TWO_32
  {
  }

  lemma {:induction false} FramesAreCounted(interval: uint32, inputs: seq<Input>, n: nat)
    requires Positive(inputs) && n <= |inputs|
    ensures Counts(Process(interval, inputs[..n]), inputs, n)
  {
    if n > 0 {
      hide Positive, Counts, After;
      FramesAreCounted(interval, inputs, n - 1);
      OneMoreCounts(Process(interval, inputs[..n - 1]), interval, inputs, n - 1);
      assert inputs[..n][..n - 1] == inputs[..n - 1] && inputs[..n][n - 1] == inputs[n - 1];
    }
  }

  /** Input i is handled as its history asks: the flag of a picture, and the time remembered behind it. */
  ghost predicate Follows(interval: uint32, inputs: seq<Input>, i: nat)
    requires i < |inputs|
  {
    && Process(interval, inputs[..i + 1]).lastKeyframe == Mark(inputs, interval, i + 1)
    && (inputs[i].Picture? ==> (IsKey(Process(interval, inputs[..i]), interval, inputs[i]) <==> ShouldBeKey(inputs, interval, i)))
  }

  /**
   Neither 32-bit number misleads at picture i: an interval that has passed is still seen as passed after
   the elapsed time was cut to 32 bits, and one that has not passed does not meet a wrapped frame counter.
   */
  predicate Legible(interval: uint32, inputs: seq<Input>, i: nat)
    requires i < |inputs| && inputs[i].Picture?
  {
    StartsOver(inputs, i) ||
    (if interval != 0 && SinceMark(inputs, interval, i) >= interval then SinceMark(inputs, interval, i) % TWO_32 >= interval
     else Streak(inputs, i) % TWO_32 != 0)
  }

  ghost predicate AllFollow(interval: uint32, inputs: seq<Input>, n: nat)
    requires n <= |inputs|
  {
    forall i :: 0 <= i < n ==> Follows(interval, inputs, i)
  }

  ghost predicate AllLegible(interval: uint32, inputs: seq<Input>, n: nat)
    requires n <= |inputs|
  {
    forall i :: 0 <= i < n && inputs[i].Picture? ==> Legible(interval, inputs, i)
  }

  lemma ElapsedIs(now: nat, since: nat)
    requires since <= now
    ensures ElapsedMs(now, since) == ((now - since) / 1_000_000) % TWO_32
    ensures ElapsedMs(now, now) == 0
  {
  }

  /** One picture, with the right time remembered in front of it. */
  lemma PictureFollowsIff(p: Processor, interval: uint32, inputs: seq<Input>, i: nat)
    requires Positive(inputs) && Monotone(inputs) && i < |inputs| && inputs[i].Picture? && Counts(p, inputs, i)
    requires i > 0 ==> p.lastKeyframe == Mark(inputs, interval, i)
    ensures Legible(interval, inputs, i) <==>
              && After(p, interval, inputs[i]).lastKeyframe == Mark(inputs, interval, i + 1)
              && (IsKey(p, interval, inputs[i]) <==> ShouldBeKey(inputs, interval, i))
  {
    var in_ := inputs[i];
    assert in_.width > 0 && in_.height > 0;
    MarkIsPast(inputs, interval, i, in_.now);
    ElapsedIs(in_.now, Mark(inputs, interval, i));
    hide Positive, Monotone, ElapsedMs;
    assert Mark(inputs, interval, i + 1) == if ShouldBeKey(inputs, interval, i) then in_.now else Mark(inputs, interval, i);
    if StartsOver(inputs, i) {
      assert Resized(p, in_) == Processor(in_.width, in_.height, 0, in_.now);
    } else {
      assert Resized(p, in_) == p;
    }
  }

  /**
   Keyframe timing, exactly: over any history with a clock that does not run backwards, every flag is what
   the history asks for and every remembered time is that of the latest keyframe or blank, if and only if
   no 32-bit number misleads at any picture.
   */
  lemma {:induction false} KeyframesFollowTheHistoryIff(interval: uint32, inputs: seq<Input>, n: nat)
    requires Positive(inputs) && Monotone(inputs) && n <= |inputs|
    ensures AllFollow(interval, inputs, n) <==> AllLegible(interval, inputs, n)
  {
    if n > 0 {
      var i := n - 1;
      KeyframesFollowTheHistoryIff(interval, inputs, i);
      if AllFollow(interval, inputs, i) {
        var p := Process(interval, inputs[..i]);
        FramesAreCounted(interval, inputs, i);
        assert inputs[..n][..i] == inputs[..i] && inputs[..n][i] == inputs[i];
        assert Process(interval, inputs[..n]) == After(p, interval, inputs[i]);
        assert i > 0 ==> Follows(interval, inputs, i - 1);
        if inputs[i].Picture? {
          PictureFollowsIff(p, interval, inputs, i);
        }
        hide Process, Legible, ShouldBeKey, IsKey, Counts, Positive, Monotone;
        assert Follows(interval, inputs, i) <==> (inputs[i].Picture? ==> Legible(interval, inputs, i));
      }
      hide Follows, Legible;
    }
  }

  /**
   What each input adds to the stream, on the frames themselves: a blank adds one empty frame of no size; a
   picture adds its packets in order under its own size, all keyframes or none, as the history asks wherever
   no 32-bit number misleads.
   */
  lemma StreamFollowsTheHistory(interval: uint32, inputs: seq<Input>, n: nat) returns (added: seq<DisplayFrame>)
    requires Positive(inputs) && Monotone(inputs) && n < |inputs|
    ensures Stream(interval, inputs[..n + 1]) == Stream(interval, inputs[..n]) + added
    ensures inputs[n].Blank? ==> added == [DisplayFrame(true, 0, 0, [])]
    ensures inputs[n].Picture? ==>
              && |added| == |inputs[n].packets|
              && (forall i :: 0 <= i < |added| ==>
                    && added[i].width == inputs[n].width && added[i].height == inputs[n].height
                    && added[i].data == inputs[n].packets[i] && added[i].keyframe == added[0].keyframe)
              && (AllLegible(interval, inputs, n + 1) ==>
                    forall i :: 0 <= i < |added| ==> added[i].keyframe == ShouldBeKey(inputs, interval, n))
  {
    if AllLegible(interval, inputs, n + 1) {
      KeyframesFollowTheHistoryIff(interval, inputs, n + 1);
      assert Follows(interval, inputs, n);
    }
    hide ShouldBeKey, IsKey, Process, AllLegible, AllFollow, Positive, Monotone, Packed, Stream;
    added := Sent(Process(interval, inputs[..n]), interval, inputs[n]);
    OneMoreSent(interval, inputs, n);
  }

  lemma OneMoreSent(interval: uint32, inputs: seq<Input>, n: nat)
    requires n < |inputs|
    ensures Stream(interval, inputs[..n + 1]) == Stream(interval, inputs[..n]) + Sent(Process(interval, inputs[..n]), interval, inputs[n])
  {
    hide Process, Sent;
    var upTo := inputs[..n + 1];
    assert upTo[..|upTo| - 1] == inputs[..n] && upTo[|upTo| - 1] == inputs[n];
  }

  /**
   Short gaps between frames are not enough: 2^32 - 1 ms without a keyframe and then a gap of 2 ms make
   the elapsed time wrap, and a keyframe is missed.
   */
  lemma ElapsedTimeWraps()
    ensures var interval := TWO_32 - 1;
            var late := (TWO_32 - 2) * 1_000_000;
            var inputs := [Picture(2, 2, 0, [[1]]), Picture(2, 2, late, [[2]]), Picture(2, 2, late + 2_000_000, [[3]])];
            && ShouldBeKey(inputs, interval, 2)
            && !IsKey(Process(interval, inputs[..2]), interval, inputs[2])
  {
    var interval := TWO_32 - 1;
    var late := (TWO_32 - 2) * 1_000_000;
    var a, b, c := Picture(2, 2, 0, [[1]]), Picture(2, 2, late, [[2]]), Picture(2, 2, late + 2_000_000, [[3]]);
    var inputs := [a, b, c];
    assert Mark(inputs, interval, 1) == 0;
    assert Mark(inputs, interval, 2) == 0;
    assert inputs[..2] == [a, b] && [a, b][..1] == [a] && [a][..0] == [];
    assert Process(interval, [a]) == Processor(2, 2, 1, 0);
    assert Process(interval, [a, b]) == Processor(2, 2, 2, 0);
  }
}

/** The display processor as the object that serves one client. */
module Display {
  import opened Common
  import opened Vpx
  import opened DisplayStream
  import Rpc

  datatype EmulatorFrame = EmulatorFrame(width: uint32, height: uint32, data: bytes)

  datatype Outcome = Served | Failed | Panicked

  class DisplayProcessor {
    const sds: Rpc.Sink<DisplayFrame>
    const keyframeInterval: uint32
    var width: uint32
    var height: uint32
    var frameCount: uint32
    var lastKeyframe: nat
    var img: Image?

    function Fields(): Processor
      reads this
    {
      Processor(width, height, frameCount, lastKeyframe)
    }

    /** Once a picture of positive size was shown there is an image of that size. */
    ghost predicate Valid()
      reads this
    {
      width > 0 && height > 0 ==> img != null && Fits(img, width, height)
    }

    /** libvpx allocates no image with a side of 2^32 - 1. */
    predicate Allocatable(w: uint32, h: uint32) {
      w < MAX_COUNT && h < MAX_COUNT
    }

    constructor (s: Rpc.Sink<DisplayFrame>, interval: uint32)
      ensures Valid() && Fields() == INITIAL && sds == s && keyframeInterval == interval
    {
      sds, keyframeInterval := s, interval;
      width, height, frameCount, lastKeyframe := 0, 0, 0, 0;
      img := null;
    }

    /** Allocation chooses the row pitch. */
    method Alloc(w: uint32, h: uint32) returns (image: Image)
      requires Allocatable(w, h)
      ensures fresh(image) && Fits(image, w, h) && fresh(image.planes[0]) && fresh(image.planes[1]) && fresh(image.planes[2])
    {
      var p0: nat, p1: nat :| w <= p0 && Half(w) <= p1;
      var y := new byte[h * p0](_ => 0);
      var u := new byte[Half(h) * p1](_ => 0);
      var v := new byte[Half(h) * p1](_ => 0);
      image := new Image.I420(w, h, [y, u, v], [p0, p1, p1]);
    }

    method SendAll(keyframe: bool, packets: seq<bytes>) returns (ok: bool)
      modifies sds
      ensures old(sds.sent) <= sds.sent <= old(sds.sent) + Packed(keyframe, width, height, packets)
      ensures ok ==> sds.sent == old(sds.sent) + Packed(keyframe, width, height, packets) && sds.broken == old(sds.broken)
      ensures !ok ==> sds.broken
    {
      ghost var base, all := sds.sent, Packed(keyframe, width, height, packets);
      for i := 0 to |packets|
        invariant sds.sent == base + all[..i] && sds.broken == old(sds.broken)
      {
        ok := sds.Send(DisplayFrame(keyframe, width, height, packets[i]));
        if !ok {
          return;
        }
        assert all[..i] + [all[i]] == all[..i + 1];
      }
      ok := true;
    }

    /** A new size gets a new encoder and image. */
    method Reconfigure(f: EmulatorFrame, now: nat, configured: bool) returns (ok: bool)
      requires Valid() && (configured ==> Allocatable(f.width, f.height))
      modifies this
      ensures Fields() == Resized(old(Fields()), Picture(f.width, f.height, now, []))
      ensures ok ==> Valid() && (img == old(img) || (img != null && fresh(img) && forall i :: 0 <= i < |img.planes| ==> fresh(img.planes[i])))
      ensures !ok ==> !configured && img == old(img)
    {
      if f.width != width || f.height != height {
        width, height, frameCount, lastKeyframe := f.width, f.height, 0, now;
        if !configured {
          return false;
        }
        img := Alloc(width, height);
        assert |img.planes| == 3;
      }
      ok := true;
    }

    lemma EmptyIsNotLoadable(w: uint32, h: uint32, size: nat)
      ensures w == 0 || h == 0 ==> !Loadable(w, h, size)
    {
    }

    /** Conversion, the keyframe decision, and the packets. */
    method Encode(f: EmulatorFrame, now: nat, packets: seq<bytes>) returns (o: Outcome)
      requires Valid() && width == f.width && height == f.height
      modifies this`frameCount, this`lastKeyframe, sds, if img != null then img.planes else []
      ensures width == old(width) && height == old(height) && img == old(img)
      ensures o == Panicked <==> !Loadable(width, height, |f.data|)
      ensures o == Panicked ==> sds.sent == old(sds.sent) && Fields() == old(Fields())
      ensures o != Panicked ==> img != null && Fits(img, width, height) && Shows(img, f.data, width, height)
      ensures var keyframe := old(frameCount) == 0 || Due(old(Fields()), keyframeInterval, now);
              && old(sds.sent) <= sds.sent <= old(sds.sent) + Packed(keyframe, width, height, packets)
              && (o == Served ==> sds.sent == old(sds.sent) + Packed(keyframe, width, height, packets))
      ensures o == Served ==>
                && frameCount == (old(frameCount) + 1) % TWO_32
                && lastKeyframe == if Due(old(Fields()), keyframeInterval, now) then now else old(lastKeyframe)
      ensures o == Failed ==> sds.broken
    {
      EmptyIsNotLoadable(width, height, |f.data|);
      hide Fits, Shows, Loadable, Packed, ElapsedMs;
      if width == 0 || height == 0 {
        return Panicked; // the converted blob is empty: it has no first byte to point at
      }
      var loaded := LoadFrame(img, f.data, width, height);
      if !loaded {
        return Panicked;
      }
      var keyframe := frameCount == 0;
      if keyframeInterval != 0 && ElapsedMs(now, lastKeyframe) >= keyframeInterval {
        keyframe := true;
        lastKeyframe := now;
      }
      var sent := SendAll(keyframe, packets);
      if !sent {
        return Failed;
      }
      frameCount := (frameCount + 1) % TWO_32;
      o := Served;
    }

    /**
     One frame from the listener; `packets` is what the encoder will make of it, `configured` whether a
     new encoder and its image could be set up.
     */
    method ProcessFrame(frame: Option<EmulatorFrame>, now: nat, packets: seq<bytes>, configured: bool) returns (o: Outcome)
      requires Valid()
      requires frame.Some? && configured ==> Allocatable(frame.value.width, frame.value.height)
      modifies this, sds, if img != null then img.planes else []
      ensures o == Served ==> Valid()
      ensures frame.None? ==> Fields() == After(old(Fields()), keyframeInterval, Blank(now))
      ensures frame.None? && o == Served ==> sds.sent == old(sds.sent) + Sent(old(Fields()), keyframeInterval, Blank(now))
      ensures frame.Some? ==>
                var in_ := Picture(frame.value.width, frame.value.height, now, packets);
                && (o == Served ==>
                      && Loadable(in_.width, in_.height, |frame.value.data|)
                      && Fields() == After(old(Fields()), keyframeInterval, in_)
                      && sds.sent == old(sds.sent) + Sent(old(Fields()), keyframeInterval, in_)
                      && img != null && Fits(img, in_.width, in_.height) && Shows(img, frame.value.data, in_.width, in_.height))
                && old(sds.sent) <= sds.sent <= old(sds.sent) + Sent(old(Fields()), keyframeInterval, in_)
                && (o == Panicked ==> !Loadable(in_.width, in_.height, |frame.value.data|))
      ensures o == Failed ==> sds.broken || !configured
    {
      hide Fits, Shows, Loadable, Packed, ElapsedMs;
      if frame.None? {
        width, height, frameCount, lastKeyframe := 0, 0, 0, now;
        var ok := sds.Send(DisplayFrame(true, 0, 0, []));
        return if ok then Served else Failed;
      }
      var ready := Reconfigure(frame.value, now, configured);
      if !ready {
        return Failed;
      }
      o := Encode(frame.value, now, packets);
    }
  }
}
