/**
 The byte formats of the ADB connection as pure functions: little-endian words, hex-prefixed
 messages, shell blobs and command replies, each with the reader that takes it off a stream.
 */
module Wire {
  import opened Common

  /** What a reader makes of a stream: a value and the bytes left, an error that closes the connection, or a crash. */
  datatype ReadResult<+T> = Got(value: T, rest: bytes) | Broken | Crash

  function Ascii(s: string): (b: bytes)
    requires forall i :: 0 <= i < |s| ==> s[i] as int < 128
    ensures |b| == |s| && forall i :: 0 <= i < |s| ==> b[i] == s[i] as int
  {
    if s == "" then [] else [s[0] as int] + Ascii(s[1..])
  }

  // ---------------------------------------------------------------- little-endian words

  function Pow256(k: nat): (p: nat)
    ensures p > 0
  {
    if k == 0 then 1 else 256 * Pow256(k - 1)
  }

  /** The low `k` bytes of n, least significant first. */
  function LE(n: nat, k: nat): (s: bytes)
    ensures |s| == k
  {
    if k == 0 then [] else [n % 256] + LE(n / 256, k - 1)
  }

  function FromLE(s: bytes): nat {
    if s == [] then 0 else s[0] + 256 * FromLE(s[1..])
  }

  lemma {:induction false} FromLEBound(s: bytes)
    ensures FromLE(s) < Pow256(|s|)
  {
    if s != [] {
      FromLEBound(s[1..]);
    }
  }

  lemma {:induction false} LERoundTrip(n: nat, k: nat)
    requires n < Pow256(k)
    ensures FromLE(LE(n, k)) == n
  {
    if k != 0 {
      LERoundTrip(n / 256, k - 1);
      assert LE(n, k)[1..] == LE(n / 256, k - 1);
    }
  }

  lemma {:induction false} LEWritesBack(s: bytes)
    ensures LE(FromLE(s), |s|) == s
  {
    if s != [] {
      LEWritesBack(s[1..]);
      LowByte(s[0], FromLE(s[1..]), |s| - 1);
    }
  }

  lemma Pow256Values()
    ensures Pow256(4) == TWO_32 && Pow256(8) == TWO_64
  {
    assert Pow256(1) == 256;
    assert Pow256(2) == 0x1_0000;
    assert Pow256(3) == 0x100_0000;
    assert Pow256(4) == TWO_32;
    assert Pow256(5) == 0x100_0000_0000;
    assert Pow256(6) == 0x1_0000_0000_0000;
    assert Pow256(7) == 0x100_0000_0000_0000;
  }

  /** PutUint32 of a Go int: the conversion keeps the low 32 bits. */
  function PutUint32(n: nat): (s: bytes)
    ensures |s| == 4
  {
    LE(n % TWO_32, 4)
  }

  lemma PutUint32RoundTrip(n: nat)
    ensures FromLE(PutUint32(n)) == n % TWO_32
  {
    Pow256Values();
    LERoundTrip(n % TWO_32, 4);
  }

  lemma Uint32Bound(s: bytes)
    requires |s| == 4
    ensures FromLE(s) < TWO_32
  {
    Pow256Values();
    FromLEBound(s);
  }

  lemma LowByte(low: byte, high: nat, k: nat)
    ensures LE(low + 256 * high, k + 1) == [low] + LE(high, k)
  {
    assert (low + 256 * high) % 256 == low && (low + 256 * high) / 256 == high;
  }

  /** The four bytes of a word, the lowest first. */
  lemma WordBytes(n: nat, a: byte, b: byte, c: byte, d: byte)
    requires n % TWO_32 == (a as int) + 256 * ((b as int) + 256 * ((c as int) + 256 * d))
    ensures PutUint32(n) == [a, b, c, d]
  {
    LowByte(a, b + 256 * (c + 256 * (d + 256 * 0)), 3);
    LowByte(b, c + 256 * (d + 256 * 0), 2);
    LowByte(c, d + 256 * 0, 1);
    LowByte(d, 0, 0);
    hide LE;
  }

  /** And what four bytes mean. */
  lemma WordValue(s: bytes)
    requires |s| == 4
    ensures FromLE(s) == (s[0] as int) + 256 * ((s[1] as int) + 256 * ((s[2] as int) + 256 * (s[3] as int)))
  {
    assert s[1..][1..] == s[2..] && s[2..][1..] == s[3..] && s[3..][1..] == [];
    assert FromLE(s[3..]) == s[3];
    assert FromLE(s[2..]) == (s[2] as int) + 256 * (s[3] as int);
    assert FromLE(s[1..]) == s[1] as int + 256 * FromLE(s[2..]);
  }

  // ---------------------------------------------------------------- hex-prefixed messages

  function HexDigit(d: nat): byte
    requires d < 16
  {
    if d < 10 then 48 + d else 87 + d
  }

  function HexValue(c: byte): Option<nat> {
    if 48 <= c <= 57 then Some(c - 48)
    else if 97 <= c <= 102 then Some(c - 87)
    else if 65 <= c <= 70 then Some(c - 55)
    else None
  }

  /** %x */
  function Hex(n: nat): (s: bytes)
    ensures |s| > 0
    decreases n
  {
    if n < 16 then [HexDigit(n)] else Hex(n / 16) + [HexDigit(n % 16)]
  }

  function Zeros(k: nat): (s: bytes)
    ensures |s| == k
  {
    seq(k, _ => 48)
  }

  /** %04x: at least four digits. */
  function Hex04(n: nat): bytes {
    var h := Hex(n);
    if |h| < 4 then Zeros(4 - |h|) + h else h
  }

  /** The digits of a base 16 number, most significant first; at least one. */
  function ParseDigits(s: bytes): Option<nat> {
    if s == [] then None
    else
      match HexValue(s[|s| - 1])
      case None => None
      case Some(d) =>
        if |s| == 1 then Some(d)
        else
          match ParseDigits(s[..|s| - 1])
          case None => None
          case Some(high) => Some(16 * high + d)
  }

  /** strconv.ParseInt in base 16: an optional sign, then digits. */
  function ParseHex(s: bytes): Option<int> {
    if s != [] && s[0] == 43 then ParseDigits(s[1..])
    else if s != [] && s[0] == 45 then
      match ParseDigits(s[1..])
      case None => None
      case Some(n) => Some(0 - n as int)
    else ParseDigits(s)
  }

  function HexMessage(msg: bytes): bytes {
    Hex04(|msg|) + msg
  }

  /** A negative length makes the buffer allocation panic. */
  function ReadHexMessage(s: bytes): ReadResult<bytes> {
    if |s| < 4 then Broken
    else
      match ParseHex(s[..4])
      case None => Broken
      case Some(n) =>
        if n < 0 then Crash
        else if |s| - 4 < n then Broken
        else Got(s[4..4 + n], s[4 + n..])
  }

  lemma {:induction false} ParseDigitsBound(s: bytes)
    requires |s| <= 4
    ensures ParseDigits(s).Some? ==>
              ParseDigits(s).value < (if |s| == 1 then 16 else if |s| == 2 then 256 else if |s| == 3 then 4096 else 65536)
  {
    if |s| > 1 {
      ParseDigitsBound(s[..|s| - 1]);
    }
  }

  lemma {:induction false} HexParses(n: nat)
    ensures ParseDigits(Hex(n)) == Some(n)
    ensures Hex(n)[0] != 43 && Hex(n)[0] != 45
  {
    if n >= 16 {
      HexParses(n / 16);
      assert Hex(n)[..|Hex(n)| - 1] == Hex(n / 16);
    }
  }

  lemma {:induction false} ZerosParse(k: nat, h: bytes, n: nat)
    requires ParseDigits(h) == Some(n)
    ensures ParseDigits(Zeros(k) + h) == Some(n)
  {
    var s := Zeros(k) + h;
    if |h| == 1 {
      ZerosOnly(k);
      assert s[..|s| - 1] == Zeros(k);
    } else {
      var low := h[..|h| - 1];
      assert s[..|s| - 1] == Zeros(k) + low;
      ZerosParse(k, low, ParseDigits(low).value);
    }
  }

  lemma {:induction false} ZerosOnly(k: nat)
    ensures k > 0 ==> ParseDigits(Zeros(k)) == Some(0)
  {
    if k > 1 {
      ZerosOnly(k - 1);
      assert Zeros(k)[..k - 1] == Zeros(k - 1);
    }
  }

  lemma HexLength(n: nat)
    ensures n < 65536 <==> |Hex(n)| <= 4
  {
    if n >= 16 {
      var a := n / 16;
      assert |Hex(n)| == |Hex(a)| + 1;
      if a >= 16 {
        var b := a / 16;
        assert |Hex(a)| == |Hex(b)| + 1;
        if b >= 16 {
          var c := b / 16;
          assert |Hex(b)| == |Hex(c)| + 1;
          assert c >= 16 <==> n >= 65536;
          if c >= 16 {
            assert |Hex(c)| == |Hex(c / 16)| + 1;
          }
        }
      }
    }
  }

  lemma HexMessageReadsBack(msg: bytes, rest: bytes)
    requires |msg| <= 65535
    ensures ReadHexMessage(HexMessage(msg) + rest) == Got(msg, rest)
  {
    var n := |msg|;
    HexLength(n);
    HexParses(n);
    ZerosParse(4 - |Hex(n)|, Hex(n), n);
    var s := HexMessage(msg) + rest;
    assert Hex04(n) == Zeros(4 - |Hex(n)|) + Hex(n);
    assert s[..4] == Hex04(n);
    assert s[4..4 + n] == msg;
    assert s[4 + n..] == rest;
  }

  lemma DigitsAreZeroIff(s: bytes)
    requires |s| == 3 && ParseDigits(s).Some?
    ensures ParseDigits(s).value == 0 <==> s == [48, 48, 48]
  {
    assert s[..2][..1] == s[..1];
    assert ParseDigits(s[..1]).Some? && ParseDigits(s[..2]).Some?;
    assert s == [s[0], s[1], s[2]];
  }

  /** The reader crashes exactly on a minus sign in front of digits that are not all zero. */
  lemma HexMessageCrashesIff(s: bytes)
    ensures ReadHexMessage(s).Crash? <==>
            |s| >= 4 && s[0] == 45 && ParseDigits(s[1..4]).Some? && s[1..4] != [48, 48, 48]
  {
    if |s| >= 4 && s[0] == 45 {
      assert s[..4][1..] == s[1..4];
      if ParseDigits(s[1..4]).Some? {
        DigitsAreZeroIff(s[1..4]);
      }
    }
  }

  /** "-001" */
  lemma MinusOneCrashes(rest: bytes)
    ensures ReadHexMessage([45, 48, 48, 49] + rest).Crash?
  {
    var s := [45, 48, 48, 49] + rest;
    var digits := s[1..4];
    assert digits == [48, 48, 49] && digits[..2] == [48, 48] && digits[..2][..1] == [48];
    assert ParseDigits(digits[..2]) == Some(0);
    HexMessageCrashesIff(s);
  }

  /** A message survives its framing exactly when its length fits four hex digits. */
  lemma HexMessageRoundTripIff(msg: bytes, rest: bytes)
    ensures ReadHexMessage(HexMessage(msg) + rest) == Got(msg, rest) <==> |msg| <= 65535
  {
    if |msg| <= 65535 {
      HexMessageReadsBack(msg, rest);
    } else {
      var s := HexMessage(msg) + rest;
      if |s| >= 4 {
        ParseDigitsBound(s[..4]);
        ParseDigitsBound(s[..4][1..]);
      }
    }
  }

  const DIGITS: bytes := [48, 49, 50, 51, 52, 53, 54, 55, 56, 57, 97, 98, 99, 100, 101, 102]

  lemma HexStep(high: nat, low: nat)
    requires low < 16
    ensures Hex(16 * high + low) == if high == 0 then [HexDigit(low)] else Hex(high) + [HexDigit(low)]
  {
    assert (16 * high + low) / 16 == high && (16 * high + low) % 16 == low;
  }

  lemma DigitIs(d: nat)
    requires d < 16
    ensures HexDigit(d) == DIGITS[d]
  {
  }

  /** Four lower-case hex digits of the length, the highest first, then the message. */
  lemma HexMessageLayout(msg: bytes, a: nat, b: nat, c: nat, d: nat)
    requires a < 16 && b < 16 && c < 16 && d < 16 && |msg| == 16 * (16 * (16 * a + b) + c) + d
    ensures HexMessage(msg) == [DIGITS[a], DIGITS[b], DIGITS[c], DIGITS[d]] + msg
  {
    FourHex(a, b, c, d);
    DigitIs(a);
    DigitIs(b);
    DigitIs(c);
    DigitIs(d);
    hide Hex04, HexDigit, DIGITS;
  }

  lemma FourHex(a: nat, b: nat, c: nat, d: nat)
    requires a < 16 && b < 16 && c < 16 && d < 16
    ensures Hex04(16 * (16 * (16 * a + b) + c) + d) == [HexDigit(a), HexDigit(b), HexDigit(c), HexDigit(d)]
  {
    assert HexDigit(0) == 48;
    HexStep(0, a);
    HexStep(a, b);
    HexStep(16 * a + b, c);
    HexStep(16 * (16 * a + b) + c, d);
    hide Hex, HexDigit;
    var h := Hex(16 * (16 * (16 * a + b) + c) + d);
    assert h == if a > 0 then [HexDigit(a), HexDigit(b), HexDigit(c), HexDigit(d)]
                else if b > 0 then [HexDigit(b), HexDigit(c), HexDigit(d)]
                else if c > 0 then [HexDigit(c), HexDigit(d)] else [HexDigit(d)];
  }

  /** c stands for the hex digit d, in either case. */
  predicate Stands(c: byte, d: nat) {
    (d < 10 && c == 48 + d) || (10 <= d < 16 && (c == 87 + d || c == 55 + d))
  }

  predicate IsDigit(c: byte) {
    48 <= c <= 57 || 97 <= c <= 102 || 65 <= c <= 70
  }

  /** What the digits of a length field say. */
  lemma FieldReads(s: bytes, a: nat, b: nat, c: nat, d: nat)
    requires |s| == 4 && Stands(s[1], b) && Stands(s[2], c) && Stands(s[3], d)
    ensures Stands(s[0], a) ==> ParseHex(s) == Some(16 * (16 * (16 * a + b) + c) + d)
    ensures s[0] == 43 ==> ParseHex(s) == Some(16 * (16 * b + c) + d)
    ensures s[0] == 45 ==> ParseHex(s) == Some(-(16 * (16 * b + c) + d))
  {
    ThreeDigits(s[1..]);
    FourDigits(s);
    hide ParseDigits;
  }

  /** Anything else is no length. */
  lemma OtherFieldsDoNotRead(s: bytes)
    requires |s| == 4
    requires !IsDigit(s[1]) || !IsDigit(s[2]) || !IsDigit(s[3]) || !(IsDigit(s[0]) || s[0] == 43 || s[0] == 45)
    ensures ParseHex(s).None?
  {
    ThreeDigits(s[1..]);
    FourDigits(s);
    hide ParseDigits;
  }

  lemma ThreeDigits(s: bytes)
    requires |s| == 3
    ensures ParseDigits(s) ==
            if HexValue(s[0]).Some? && HexValue(s[1]).Some? && HexValue(s[2]).Some?
            then Some(16 * (16 * HexValue(s[0]).value + HexValue(s[1]).value) + HexValue(s[2]).value) else None
  {
    hide HexValue;
    assert s[..2][..1] == s[..1];
    assert ParseDigits(s[..1]) == HexValue(s[0]);
  }

  lemma FourDigits(s: bytes)
    requires |s| == 4
    ensures ParseDigits(s) ==
            if HexValue(s[0]).Some? && HexValue(s[1]).Some? && HexValue(s[2]).Some? && HexValue(s[3]).Some?
            then Some(16 * (16 * (16 * HexValue(s[0]).value + HexValue(s[1]).value) + HexValue(s[2]).value) + HexValue(s[3]).value)
            else None
  {
    ThreeDigits(s[..3]);
    hide HexValue;
  }

  // ---------------------------------------------------------------- shell blobs

  datatype ShellBlob = ShellBlob(id: byte, data: bytes)

  function ShellFrame(b: ShellBlob): bytes {
    [b.id] + PutUint32(|b.data|) + b.data
  }

  function ReadShellFrame(s: bytes): ReadResult<ShellBlob> {
    if |s| < 5 then Broken
    else
      var size := FromLE(s[1..5]);
      if |s| - 5 < size then Broken
      else Got(ShellBlob(s[0], s[5..5 + size]), s[5 + size..])
  }

  /** The id, the length with its lowest byte first, the data. */
  lemma ShellFrameLayout(blob: ShellBlob, a: byte, b: byte, c: byte, d: byte)
    requires |blob.data| == (a as int) + 256 * ((b as int) + 256 * ((c as int) + 256 * d))
    ensures ShellFrame(blob) == [blob.id, a, b, c, d] + blob.data
  {
    WordBytes(|blob.data|, a, b, c, d);
    hide PutUint32;
  }

  /** A blob survives its framing exactly when its length fits 32 bits. */
  lemma ShellFrameRoundTripIff(b: ShellBlob, rest: bytes)
    ensures ReadShellFrame(ShellFrame(b) + rest) == Got(b, rest) <==> |b.data| < TWO_32
  {
    hide PutUint32, FromLE;
    var s := ShellFrame(b) + rest;
    PutUint32RoundTrip(|b.data|);
    assert s[1..5] == PutUint32(|b.data|);
    if |b.data| < TWO_32 {
      assert s[5..5 + |b.data|] == b.data;
      assert s[5 + |b.data|..] == rest;
    }
  }

  // ---------------------------------------------------------------- many frames back to back

  function HexMessages(msgs: seq<bytes>): bytes {
    if msgs == [] then [] else HexMessage(msgs[0]) + HexMessages(msgs[1..])
  }

  function ReadHexMessages(s: bytes, count: nat): ReadResult<seq<bytes>> {
    if count == 0 then Got([], s)
    else
      match ReadHexMessage(s)
      case Broken => Broken
      case Crash => Crash
      case Got(msg, rest) =>
        match ReadHexMessages(rest, count - 1)
        case Broken => Broken
        case Crash => Crash
        case Got(msgs, rest') => Got([msg] + msgs, rest')
  }

  lemma {:induction false} HexMessagesReadBack(msgs: seq<bytes>, rest: bytes)
    requires forall i :: 0 <= i < |msgs| ==> |msgs[i]| <= 65535
    ensures ReadHexMessages(HexMessages(msgs) + rest, |msgs|) == Got(msgs, rest)
  {
    hide HexMessage, ReadHexMessage;
    if msgs == [] {
      assert HexMessages(msgs) + rest == rest;
    } else {
      var tail := HexMessages(msgs[1..]) + rest;
      assert HexMessages(msgs) + rest == HexMessage(msgs[0]) + tail;
      HexMessageReadsBack(msgs[0], tail);
      HexMessagesReadBack(msgs[1..], rest);
      assert msgs == [msgs[0]] + msgs[1..];
    }
  }

  function ShellFrames(blobs: seq<ShellBlob>): bytes {
    if blobs == [] then [] else ShellFrame(blobs[0]) + ShellFrames(blobs[1..])
  }

  /** All the whole blobs at the front of a stream. */
  function WholeShellFrames(s: bytes): seq<ShellBlob>
    decreases |s|
  {
    match ReadShellFrame(s)
    case Got(b, rest) => [b] + WholeShellFrames(rest)
    case _ => []
  }

  lemma WholeShellFramesStep(b: ShellBlob, tail: bytes)
    requires |b.data| < TWO_32
    ensures WholeShellFrames(ShellFrame(b) + tail) == [b] + WholeShellFrames(tail)
  {
    ShellFrameRoundTripIff(b, tail);
    assert ReadShellFrame(ShellFrame(b) + tail) == Got(b, tail);
  }

  lemma {:induction false} ShellFramesReadBack(blobs: seq<ShellBlob>, rest: bytes)
    requires forall i :: 0 <= i < |blobs| ==> |blobs[i].data| < TWO_32
    ensures WholeShellFrames(ShellFrames(blobs) + rest) == blobs + WholeShellFrames(rest)
  {
    hide ShellFrame, WholeShellFrames;
    if blobs == [] {
      assert ShellFrames(blobs) + rest == rest;
      assert blobs + WholeShellFrames(rest) == WholeShellFrames(rest);
    } else {
      var b, more := blobs[0], blobs[1..];
      var frames := ShellFrames(more);
      assert ShellFrames(blobs) + rest == ShellFrame(b) + (frames + rest);
      WholeShellFramesStep(b, frames + rest);
      ShellFramesReadBack(more, rest);
      var whole := WholeShellFrames(rest);
      assert [b] + (more + whole) == blobs + whole;
    }
  }

  lemma {:induction false} ShellFramesAppend(a: seq<ShellBlob>, b: seq<ShellBlob>)
    ensures ShellFrames(a + b) == ShellFrames(a) + ShellFrames(b)
  {
    if a == [] {
      assert a + b == b;
    } else {
      assert (a + b)[1..] == a[1..] + b;
      ShellFramesAppend(a[1..], b);
    }
  }

  // ---------------------------------------------------------------- command replies

  const OKAY: bytes := [79, 75, 65, 89]
  const FAIL: bytes := [70, 65, 73, 76]

  lemma StatusWords()
    ensures OKAY == Ascii("OKAY") && FAIL == Ascii("FAIL")
  {
  }

  /** A service's answer: accepted, or refused with a message. */
  datatype Reply = Accepted | Refused(message: bytes)

  function ReplyBytes(r: Reply): bytes {
    if r.Accepted? then OKAY else FAIL + HexMessage(r.message)
  }

  /** Every status other than OKAY is taken for a refusal. */
  function ReadReply(s: bytes): ReadResult<Reply> {
    if |s| < 4 then Broken
    else if s[..4] == OKAY then Got(Accepted, s[4..])
    else
      match ReadHexMessage(s[4..])
      case Broken => Broken
      case Crash => Crash
      case Got(msg, rest) => Got(Refused(msg), rest)
  }

  /** Accepted is exactly OKAY; any other four bytes are a refusal with the message behind them. */
  lemma ReplyReadsIff(s: bytes, message: bytes, rest: bytes)
    ensures ReadReply(s) == Got(Accepted, rest) <==> s == [79, 75, 65, 89] + rest
    ensures ReadReply(s) == Got(Refused(message), rest) <==>
            |s| >= 4 && s[..4] != [79, 75, 65, 89] && ReadHexMessage(s[4..]) == Got(message, rest)
  {
    hide ReadHexMessage;
    if |s| >= 4 {
      assert s == s[..4] + s[4..];
    }
    if s == [79, 75, 65, 89] + rest {
      assert s[..4] == OKAY && s[4..] == rest;
    }
  }

  lemma ReplyReadsBack(r: Reply, rest: bytes)
    requires r.Refused? ==> |r.message| <= 65535
    ensures ReadReply(ReplyBytes(r) + rest) == Got(r, rest)
  {
    hide HexMessage, ReadHexMessage;
    var s := ReplyBytes(r) + rest;
    if r.Accepted? {
      assert s[..4] == OKAY && s[4..] == rest;
    } else {
      assert s[..4] == FAIL;
      assert s[4..] == HexMessage(r.message) + rest;
      HexMessageReadsBack(r.message, rest);
    }
  }

  function Replies(rs: seq<Reply>): bytes {
    if rs == [] then [] else ReplyBytes(rs[0]) + Replies(rs[1..])
  }

  function ReadReplies(s: bytes, count: nat): ReadResult<seq<Reply>> {
    if count == 0 then Got([], s)
    else
      match ReadReply(s)
      case Broken => Broken
      case Crash => Crash
      case Got(r, rest) =>
        match ReadReplies(rest, count - 1)
        case Broken => Broken
        case Crash => Crash
        case Got(rs, rest') => Got([r] + rs, rest')
  }

  /** Any list of exchanges, accepted or refused, leaves the reply stream at the next reply. */
  lemma {:induction false} RepliesReadBack(rs: seq<Reply>, rest: bytes)
    requires forall i :: 0 <= i < |rs| && rs[i].Refused? ==> |rs[i].message| <= 65535
    ensures ReadReplies(Replies(rs) + rest, |rs|) == Got(rs, rest)
  {
    hide ReplyBytes, ReadReply;
    if rs == [] {
      assert Replies(rs) + rest == rest;
    } else {
      var tail := Replies(rs[1..]) + rest;
      assert Replies(rs) + rest == ReplyBytes(rs[0]) + tail;
      ReplyReadsBack(rs[0], tail);
      RepliesReadBack(rs[1..], rest);
      assert rs == [rs[0]] + rs[1..];
    }
  }
}
