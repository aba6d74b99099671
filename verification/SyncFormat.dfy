/**
 Packets of the ADB sync service, version 2. Requests and packets are written as the agent writes
 them; the decoders of the device side are written on their own.
 */
module SyncFormat {
  import opened Common
  import opened Wire

  const MAX_DATA := 64 * 1024

  function Id(a: char, b: char, c: char, d: char): (n: nat)
    requires a < 128 as char && b < 128 as char && c < 128 as char && d < 128 as char
    ensures n < TWO_32
  {
    a as int + 0x100 * b as int + 0x1_0000 * c as int + 0x100_0000 * d as int
  }

  const ID_LIST_V2 := Id('L', 'I', 'S', '2')
  const ID_DENT_V2 := Id('D', 'N', 'T', '2')
  const ID_DONE := Id('D', 'O', 'N', 'E')
  const ID_RECV_V2 := Id('R', 'C', 'V', '2')
  const ID_FAIL := Id('F', 'A', 'I', 'L')
  const ID_DATA := Id('D', 'A', 'T', 'A')
  const ID_SEND_V2 := Id('S', 'N', 'D', '2')
  const ID_OKAY := Id('O', 'K', 'A', 'Y')

  // The ids as the device finds them: four ASCII letters in reading order.
  const LIST_TAG: bytes := [76, 73, 83, 50]
  const DENT_TAG: bytes := [68, 78, 84, 50]
  const DONE_TAG: bytes := [68, 79, 78, 69]
  const RECV_TAG: bytes := [82, 67, 86, 50]
  const FAIL_TAG: bytes := [70, 65, 73, 76]
  const DATA_TAG: bytes := [68, 65, 84, 65]
  const SEND_TAG: bytes := [83, 78, 68, 50]
  const OKAY_TAG: bytes := [79, 75, 65, 89]

  /** The agent's ids, written as words, are the device's letters. */
  lemma Tags()
    ensures PutUint32(ID_LIST_V2) == LIST_TAG && PutUint32(ID_DENT_V2) == DENT_TAG && PutUint32(ID_DONE) == DONE_TAG
    ensures PutUint32(ID_RECV_V2) == RECV_TAG && PutUint32(ID_FAIL) == FAIL_TAG && PutUint32(ID_DATA) == DATA_TAG
    ensures PutUint32(ID_SEND_V2) == SEND_TAG && PutUint32(ID_OKAY) == OKAY_TAG
  {
    hide PutUint32;
    WordBytes(ID_LIST_V2, 76, 73, 83, 50);
    WordBytes(ID_DENT_V2, 68, 78, 84, 50);
    WordBytes(ID_DONE, 68, 79, 78, 69);
    WordBytes(ID_RECV_V2, 82, 67, 86, 50);
    WordBytes(ID_FAIL, 70, 65, 73, 76);
    WordBytes(ID_DATA, 68, 65, 84, 65);
    WordBytes(ID_SEND_V2, 83, 78, 68, 50);
    WordBytes(ID_OKAY, 79, 75, 65, 89);
  }

  /** An id and a 32-bit argument, as they lie at the front of every packet. */
  function Header(id: nat, arg: nat): (s: bytes)
    ensures |s| == 8
  {
    PutUint32(id) + PutUint32(arg)
  }

  function HeaderId(s: bytes): nat
    requires |s| >= 8
  {
    FromLE(s[0..4])
  }

  function HeaderArg(s: bytes): (n: nat)
    requires |s| >= 8
    ensures n < TWO_32
  {
    Uint32Bound(s[4..8]);
    FromLE(s[4..8])
  }

  lemma HeaderReadsBack(id: nat, arg: nat, rest: bytes)
    requires id < TWO_32
    ensures var s := Header(id, arg) + rest;
            HeaderId(s) == id && HeaderArg(s) == arg % TWO_32 && s[8..] == rest
  {
    var s := Header(id, arg) + rest;
    PutUint32RoundTrip(id);
    PutUint32RoundTrip(arg);
    assert s[0..4] == PutUint32(id);
    assert s[4..8] == PutUint32(arg);
  }

  // ---------------------------------------------------------------- file stats

  type int64 = n: int | -0x8000_0000_0000_0000 <= n < 0x8000_0000_0000_0000

  /** int64(u): the bit pattern read as two's complement. */
  function ToInt64(u: uint64): int64 {
    if u < 0x8000_0000_0000_0000 then u else u - TWO_64
  }

  function ToUint64(n: int64): uint64 {
    if n >= 0 then n else n + TWO_64
  }

  /** Two's complement: the same number modulo 2^64, in the signed range. */
  lemma SignedIsCongruent(u: uint64)
    ensures ToInt64(u) == u || ToInt64(u) == u - TWO_64
    ensures ToUint64(ToInt64(u)) == u
  {
  }

  datatype FileStat = FileStat(
    dev: uint64, ino: uint64, mode: uint32, nlink: uint32, uid: uint32, gid: uint32,
    size: uint64, atime: int64, mtime: int64, ctime: int64)

  const FILE_STAT_SIZE := 64

  function Uint64At(d: bytes, i: nat): uint64
    requires i + 8 <= |d|
  {
    Pow256Values();
    FromLEBound(d[i..i + 8]);
    FromLE(d[i..i + 8])
  }

  function Uint32At(d: bytes, i: nat): uint32
    requires i + 4 <= |d|
  {
    Uint32Bound(d[i..i + 4]);
    FromLE(d[i..i + 4])
  }

  lemma WordAt(s: bytes, i: nat, n: nat)
    requires i + 4 <= |s| && s[i..i + 4] == PutUint32(n) && n < TWO_32
    ensures FromLE(s[i..i + 4]) == n && Uint32At(s, i) == n
  {
    PutUint32RoundTrip(n);
  }

  function ParseFileStat(d: bytes): FileStat
    requires |d| == FILE_STAT_SIZE
  {
    FileStat(
      Uint64At(d, 0), Uint64At(d, 8), Uint32At(d, 16), Uint32At(d, 20), Uint32At(d, 24), Uint32At(d, 28),
      Uint64At(d, 32), ToInt64(Uint64At(d, 40)), ToInt64(Uint64At(d, 48)), ToInt64(Uint64At(d, 56)))
  }

  /** Where each field lies in the 64 bytes. */
  lemma StatLayout(d: bytes)
    requires |d| == FILE_STAT_SIZE
    ensures var st := ParseFileStat(d);
            && st.dev == FromLE(d[0..8]) && st.ino == FromLE(d[8..16]) && st.mode == FromLE(d[16..20])
            && st.nlink == FromLE(d[20..24]) && st.uid == FromLE(d[24..28]) && st.gid == FromLE(d[28..32])
            && st.size == FromLE(d[32..40]) && st.atime % TWO_64 == FromLE(d[40..48])
            && st.mtime % TWO_64 == FromLE(d[48..56]) && st.ctime % TWO_64 == FromLE(d[56..64])
  {
    hide FromLE;
  }

  /** The device's serialisation of a stat. */
  function StatBytes(st: FileStat): (s: bytes)
    ensures |s| == FILE_STAT_SIZE
  {
    LE(st.dev, 8) + LE(st.ino, 8) + LE(st.mode, 4) + LE(st.nlink, 4) + LE(st.uid, 4) + LE(st.gid, 4)
    + LE(st.size, 8) + LE(ToUint64(st.atime), 8) + LE(ToUint64(st.mtime), 8) + LE(ToUint64(st.ctime), 8)
  }

  lemma Field64(n: uint64, d: bytes, i: nat)
    requires i + 8 <= |d| && d[i..i + 8] == LE(n, 8)
    ensures Uint64At(d, i) == n
  {
    Pow256Values();
    LERoundTrip(n, 8);
  }

  lemma Field32(n: uint32, d: bytes, i: nat)
    requires i + 4 <= |d| && d[i..i + 4] == LE(n, 4)
    ensures Uint32At(d, i) == n
  {
    Pow256Values();
    LERoundTrip(n, 4);
  }

  lemma StatReadsBack(st: FileStat)
    ensures ParseFileStat(StatBytes(st)) == st
  {
    hide LE, Uint32At, Uint64At;
    var d := StatBytes(st);
    Field64(st.dev, d, 0);
    Field64(st.ino, d, 8);
    Field32(st.mode, d, 16);
    Field32(st.nlink, d, 20);
    Field32(st.uid, d, 24);
    Field32(st.gid, d, 28);
    Field64(st.size, d, 32);
    Field64(ToUint64(st.atime), d, 40);
    Field64(ToUint64(st.mtime), d, 48);
    Field64(ToUint64(st.ctime), d, 56);
  }

  lemma LongWritesBack(d: bytes, i: nat)
    requires i + 8 <= |d|
    ensures LE(Uint64At(d, i), 8) == d[i..i + 8]
  {
    LEWritesBack(d[i..i + 8]);
  }

  lemma WordWritesBack(d: bytes, i: nat)
    requires i + 4 <= |d|
    ensures LE(Uint32At(d, i), 4) == d[i..i + 4] && PutUint32(Uint32At(d, i)) == d[i..i + 4]
  {
    LEWritesBack(d[i..i + 4]);
  }

  /** Every 64 bytes are the serialisation of the stat they parse to. */
  lemma StatWritesBack(d: bytes)
    requires |d| == FILE_STAT_SIZE
    ensures StatBytes(ParseFileStat(d)) == d
  {
    hide LE, Uint32At, Uint64At;
    LongWritesBack(d, 0);
    LongWritesBack(d, 8);
    WordWritesBack(d, 16);
    WordWritesBack(d, 20);
    WordWritesBack(d, 24);
    WordWritesBack(d, 28);
    LongWritesBack(d, 32);
    LongWritesBack(d, 40);
    LongWritesBack(d, 48);
    LongWritesBack(d, 56);
    SignedIsCongruent(Uint64At(d, 40));
    SignedIsCongruent(Uint64At(d, 48));
    SignedIsCongruent(Uint64At(d, 56));
    hide ToInt64, ToUint64;
    assert d == d[0..8] + d[8..16] + d[16..20] + d[20..24] + d[24..28] + d[28..32] + d[32..40] + d[40..48] + d[48..56] + d[56..64];
  }

  // ---------------------------------------------------------------- directory listings

  datatype DirEntry = DirEntry(name: bytes, statError: uint32, stat: FileStat)

  function ListRequest(path: bytes): bytes {
    Header(ID_LIST_V2, |path|) + path
  }

  /** The device: the request of a listing. */
  function DecodeList(s: bytes): ReadResult<bytes> {
    if |s| < 8 || s[..4] != LIST_TAG then Broken
    else
      var n := FromLE(s[4..8]);
      if |s| < 8 + n then Broken else Got(s[8..8 + n], s[8 + n..])
  }

  /** The device recovers the path exactly when its length fits 32 bits. */
  lemma ListRequestRoundTripIff(path: bytes, rest: bytes)
    ensures DecodeList(ListRequest(path) + rest) == Got(path, rest) <==> |path| < TWO_32
  {
    Tags();
    hide PutUint32, FromLE;
    var s, n := ListRequest(path) + rest, |path|;
    assert s == PutUint32(ID_LIST_V2) + PutUint32(n) + path + rest;
    assert s[..4] == LIST_TAG && s[4..8] == PutUint32(n);
    if n < TWO_32 {
      WordAt(s, 4, n);
      assert s[8..8 + n] == path && s[8 + n..] == rest;
    } else {
      Uint32Bound(s[4..8]);
    }
  }

  datatype Record = Entry(entry: DirEntry) | EndOfListing | Stray

  /** One record of a listing. The final record has the fixed size too. */
  function ReadRecord(s: bytes): ReadResult<Record> {
    if |s| < FILE_STAT_SIZE + 12 then Broken
    else
      var body := s[FILE_STAT_SIZE + 12..];
      if HeaderId(s) == ID_DONE then Got(EndOfListing, body)
      else if HeaderId(s) != ID_DENT_V2 then Got(Stray, body)
      else
        var nameLen := Uint32At(s, 8 + FILE_STAT_SIZE);
        if |body| < nameLen then Broken
        else
          Got(Entry(DirEntry(body[..nameLen], HeaderArg(s), ParseFileStat(s[8..8 + FILE_STAT_SIZE]))), body[nameLen..])
  }

  /** A whole listing, or None when a record has an unexpected id. */
  function ReadListing(s: bytes): ReadResult<Option<seq<DirEntry>>>
    decreases |s|
  {
    match ReadRecord(s)
    case Broken => Broken
    case Crash => Crash
    case Got(EndOfListing, rest) => Got(Some([]), rest)
    case Got(Stray, rest) => Got(None, rest)
    case Got(Entry(e), rest) =>
      match ReadListing(rest)
      case Broken => Broken
      case Crash => Crash
      case Got(None, rest') => Got(None, rest')
      case Got(Some(more), rest') => Got(Some([e] + more), rest')
  }

  /** The device's side: entries, then a DONE record whose other 72 bytes mean nothing. */
  function EntryBytes(e: DirEntry): bytes {
    Header(ID_DENT_V2, e.statError) + StatBytes(e.stat) + PutUint32(|e.name|) + e.name
  }

  function ListingBytes(entries: seq<DirEntry>, filler: bytes): bytes {
    if entries == [] then PutUint32(ID_DONE) + filler
    else EntryBytes(entries[0]) + ListingBytes(entries[1..], filler)
  }

  lemma EntryLayout(e: DirEntry, rest: bytes)
    ensures var s := EntryBytes(e) + rest;
            && |s| == FILE_STAT_SIZE + 12 + |e.name| + |rest|
            && s[0..4] == PutUint32(ID_DENT_V2) && s[4..8] == PutUint32(e.statError)
            && s[8..8 + FILE_STAT_SIZE] == StatBytes(e.stat)
            && s[8 + FILE_STAT_SIZE..12 + FILE_STAT_SIZE] == PutUint32(|e.name|)
            && s[FILE_STAT_SIZE + 12..] == e.name + rest
  {
  }

  lemma EntryReadsBack(e: DirEntry, rest: bytes)
    requires |e.name| < TWO_32
    ensures ReadRecord(EntryBytes(e) + rest) == Got(Entry(e), rest)
  {
    var s := EntryBytes(e) + rest;
    EntryLayout(e, rest);
    WordAt(s, 0, ID_DENT_V2);
    WordAt(s, 4, e.statError);
    WordAt(s, 8 + FILE_STAT_SIZE, |e.name|);
    StatReadsBack(e.stat);
    var body := s[FILE_STAT_SIZE + 12..];
    assert body[..|e.name|] == e.name && body[|e.name|..] == rest;
    assert ID_DENT_V2 != ID_DONE;
  }

  lemma DoneRecordReadsBack(filler: bytes, rest: bytes)
    requires |filler| == FILE_STAT_SIZE + 8
    ensures ReadRecord(PutUint32(ID_DONE) + filler + rest) == Got(EndOfListing, rest)
  {
    var s := PutUint32(ID_DONE) + filler + rest;
    assert s[0..4] == PutUint32(ID_DONE);
    WordAt(s, 0, ID_DONE);
    assert s[FILE_STAT_SIZE + 12..] == rest;
  }

  lemma ListingStep(s: bytes, e: DirEntry, tail: bytes, more: seq<DirEntry>, rest: bytes)
    requires ReadRecord(s) == Got(Entry(e), tail) && ReadListing(tail) == Got(Some(more), rest)
    ensures ReadListing(s) == Got(Some([e] + more), rest)
  {
  }

  /** Reading undoes the device's serialisation and consumes exactly its bytes. */
  lemma {:induction false} ListingReadsBack(entries: seq<DirEntry>, filler: bytes, rest: bytes)
    requires |filler| == FILE_STAT_SIZE + 8
    requires forall i :: 0 <= i < |entries| ==> |entries[i].name| < TWO_32
    ensures ReadListing(ListingBytes(entries, filler) + rest) == Got(Some(entries), rest)
  {
    hide ReadRecord, EntryBytes, PutUint32;
    if entries == [] {
      DoneRecordReadsBack(filler, rest);
    } else {
      var e, more := entries[0], entries[1..];
      var tail := ListingBytes(more, filler) + rest;
      var s := EntryBytes(e) + tail;
      assert ListingBytes(entries, filler) + rest == s;
      EntryReadsBack(e, tail);
      ListingReadsBack(more, filler, rest);
      ListingStep(s, e, tail, more, rest);
      assert entries == [e] + more;
    }
  }

  /** A long enough stream, cut where a record has its parts. */
  lemma RecordParts(s: bytes)
    requires |s| >= FILE_STAT_SIZE + 12
    ensures s == s[0..4] + s[4..8] + s[8..8 + FILE_STAT_SIZE] + s[8 + FILE_STAT_SIZE..FILE_STAT_SIZE + 12] + s[FILE_STAT_SIZE + 12..]
    ensures s == s[0..4] + s[4..FILE_STAT_SIZE + 12] + s[FILE_STAT_SIZE + 12..]
  {
  }

  lemma EntryFields(s: bytes)
    requires ReadRecord(s).Got? && ReadRecord(s).value.Entry?
    ensures |s| >= FILE_STAT_SIZE + 12
    ensures var e := ReadRecord(s).value.entry;
            && PutUint32(ID_DENT_V2) == s[0..4] && PutUint32(e.statError) == s[4..8]
            && StatBytes(e.stat) == s[8..8 + FILE_STAT_SIZE]
            && |e.name| < TWO_32 && PutUint32(|e.name|) == s[8 + FILE_STAT_SIZE..FILE_STAT_SIZE + 12]
            && s[FILE_STAT_SIZE + 12..] == e.name + ReadRecord(s).rest
  {
    WordWritesBack(s, 0);
    WordWritesBack(s, 4);
    WordWritesBack(s, 8 + FILE_STAT_SIZE);
    StatWritesBack(s[8..8 + FILE_STAT_SIZE]);
    hide PutUint32, FromLE, StatBytes, ParseFileStat;
    var body, n := s[FILE_STAT_SIZE + 12..], Uint32At(s, 8 + FILE_STAT_SIZE);
    assert body == body[..n] + body[n..];
  }

  lemma EntryIs(s: bytes)
    requires ReadRecord(s).Got? && ReadRecord(s).value.Entry?
    ensures var e := ReadRecord(s).value.entry; |e.name| < TWO_32 && s == EntryBytes(e) + ReadRecord(s).rest
  {
    hide ReadRecord, PutUint32, StatBytes;
    EntryFields(s);
    RecordParts(s);
    var e, rest := ReadRecord(s).value.entry, ReadRecord(s).rest;
    var front := s[0..4] + s[4..8] + s[8..8 + FILE_STAT_SIZE] + s[8 + FILE_STAT_SIZE..FILE_STAT_SIZE + 12];
    assert EntryBytes(e) == front + e.name;
    hide EntryBytes;
    assert front + (e.name + rest) == (front + e.name) + rest;
  }

  lemma EndIs(s: bytes)
    requires ReadRecord(s).Got? && ReadRecord(s).value.EndOfListing?
    ensures |s| >= FILE_STAT_SIZE + 12 && s == PutUint32(ID_DONE) + s[4..FILE_STAT_SIZE + 12] + ReadRecord(s).rest
  {
    RecordParts(s);
    WordWritesBack(s, 0);
    hide PutUint32, FromLE, ParseFileStat;
  }

  lemma {:induction false} ListingIs(s: bytes) returns (filler: bytes)
    requires ReadListing(s).Got? && ReadListing(s).value.Some?
    ensures |filler| == FILE_STAT_SIZE + 8
    ensures var entries := ReadListing(s).value.value;
            && s == ListingBytes(entries, filler) + ReadListing(s).rest
            && forall i :: 0 <= i < |entries| ==> |entries[i].name| < TWO_32
    decreases |s|
  {
    var record := ReadRecord(s);
    if record.value.EndOfListing? {
      EndIs(s);
      filler := s[4..FILE_STAT_SIZE + 12];
    } else {
      EntryIs(s);
      filler := ListingIs(record.rest);
      hide EntryBytes, ReadRecord;
      var more := ReadListing(record.rest).value.value;
      assert ReadListing(s).value.value == [record.value.entry] + more;
      assert ([record.value.entry] + more)[1..] == more;
    }
  }

  /** A device lists exactly these entries: each record in turn, then a DONE record, then anything. */
  ghost predicate Lists(s: bytes, entries: seq<DirEntry>, rest: bytes) {
    && (forall i :: 0 <= i < |entries| ==> |entries[i].name| < TWO_32)
    && exists filler: bytes :: |filler| == FILE_STAT_SIZE + 8 && s == ListingBytes(entries, filler) + rest
  }

  /** A listing is read from exactly the streams that serialise it: any other stream is an error. */
  lemma ListingReadsIff(s: bytes, entries: seq<DirEntry>, rest: bytes)
    ensures ReadListing(s) == Got(Some(entries), rest) <==> Lists(s, entries, rest)
  {
    hide ReadListing, ListingBytes;
    if ReadListing(s) == Got(Some(entries), rest) {
      var filler := ListingIs(s);
    }
    if Lists(s, entries, rest) {
      var filler: bytes :| |filler| == FILE_STAT_SIZE + 8 && s == ListingBytes(entries, filler) + rest;
      ListingReadsBack(entries, filler, rest);
    }
  }

  // ---------------------------------------------------------------- pulling

  datatype RecvOrder = RecvOrder(path: bytes, flags: uint32)

  /** The device: the request of a pull. */
  function DecodeRecv(s: bytes): ReadResult<RecvOrder> {
    if |s| < 8 || s[..4] != RECV_TAG then Broken
    else
      var n := FromLE(s[4..8]);
      if |s| < 8 + n + 8 || s[8 + n..12 + n] != RECV_TAG then Broken
      else Got(RecvOrder(s[8..8 + n], Uint32At(s, 12 + n)), s[16 + n..])
  }

  /** The device recovers the path and flags 0 exactly when the path length fits 32 bits. */
  lemma RecvRequestRoundTripIff(path: bytes, rest: bytes)
    ensures DecodeRecv(RecvRequest(path) + rest) == Got(RecvOrder(path, 0), rest) <==> |path| < TWO_32
  {
    Tags();
    hide PutUint32, FromLE;
    var s, n := RecvRequest(path) + rest, |path|;
    assert s == PutUint32(ID_RECV_V2) + PutUint32(n) + path + PutUint32(ID_RECV_V2) + PutUint32(0) + rest;
    assert s[..4] == RECV_TAG && s[4..8] == PutUint32(n);
    if n < TWO_32 {
      WordAt(s, 4, n);
      assert s[8..8 + n] == path && s[8 + n..12 + n] == RECV_TAG && s[12 + n..16 + n] == PutUint32(0) && s[16 + n..] == rest;
      WordAt(s, 12 + n, 0);
    } else {
      Uint32Bound(s[4..8]);
    }
  }

  function RecvRequest(path: bytes): bytes {
    Header(ID_RECV_V2, |path|) + path + Header(ID_RECV_V2, 0)
  }

  datatype Packet = Data(blob: bytes) | Done | Fail(message: bytes) | Okay | Unknown

  /** A packet with a payload: the payload is read before the id is looked at. */
  function ReadPacket(s: bytes): ReadResult<Packet> {
    if |s| < 8 then Broken
    else
      var size := HeaderArg(s);
      if |s| - 8 < size then Broken
      else
        var blob, rest := s[8..8 + size], s[8 + size..];
        var id := HeaderId(s);
        if id == ID_FAIL then Got(Fail(blob), rest)
        else if id == ID_DATA then Got(Data(blob), rest)
        else if id == ID_DONE then Got(Done, rest)
        else if id == ID_OKAY then Got(Okay, rest)
        else Got(Unknown, rest)
  }

  function PayloadPacket(id: nat, blob: bytes): bytes {
    Header(id, |blob|) + blob
  }

  lemma PacketReadsBack(id: nat, blob: bytes, rest: bytes)
    requires id < TWO_32 && |blob| < TWO_32
    ensures ReadPacket(PayloadPacket(id, blob) + rest) ==
            Got(if id == ID_FAIL then Fail(blob) else if id == ID_DATA then Data(blob)
                else if id == ID_DONE then Done else if id == ID_OKAY then Okay else Unknown, rest)
  {
    var s := PayloadPacket(id, blob) + rest;
    assert s == Header(id, |blob|) + (blob + rest);
    HeaderReadsBack(id, |blob|, blob + rest);
    assert s[8..8 + |blob|] == blob && s[8 + |blob|..] == rest;
  }

  function DataFrames(chunks: seq<bytes>): bytes {
    if chunks == [] then [] else PayloadPacket(ID_DATA, chunks[0]) + DataFrames(chunks[1..])
  }

  // ---------------------------------------------------------------- pushing

  function SendRequest(path: bytes, mode: uint32): bytes {
    Header(ID_SEND_V2, |path|) + path + Header(ID_SEND_V2, mode) + PutUint32(0)
  }

  function DonePacket(mtime: uint32): (s: bytes)
    ensures |s| == 8
  {
    Header(ID_DONE, mtime)
  }

  datatype SendOrder = SendOrder(path: bytes, mode: uint32, flags: uint32)

  /** The device: the request of a push. */
  function DecodeSend(s: bytes): ReadResult<SendOrder> {
    if |s| < 8 || s[..4] != SEND_TAG then Broken
    else
      var n := FromLE(s[4..8]);
      if |s| < 8 + n + 12 || s[8 + n..12 + n] != SEND_TAG then Broken
      else Got(SendOrder(s[8..8 + n], Uint32At(s, 12 + n), Uint32At(s, 16 + n)), s[20 + n..])
  }

  /** The device: the DATA frames that arrived whole, and the modification time if DONE arrived behind them. */
  function DecodeFrames(s: bytes): (seq<bytes>, Option<uint32>)
    decreases |s|
  {
    if |s| < 8 then ([], None)
    else if s[..4] == DONE_TAG then ([], Some(Uint32At(s, 4)))
    else
      var n := Uint32At(s, 4);
      if s[..4] != DATA_TAG || |s| < 8 + n then ([], None)
      else
        var (frames, done) := DecodeFrames(s[8 + n..]);
        ([s[8..8 + n]] + frames, done)
  }

  lemma SendRequestLayout(path: bytes, mode: uint32, rest: bytes)
    ensures var s := SendRequest(path, mode) + rest;
            var n := |path|;
            && |s| == n + 20 + |rest|
            && s[0..4] == PutUint32(ID_SEND_V2) && s[4..8] == PutUint32(n)
            && s[8..8 + n] == path
            && s[8 + n..12 + n] == PutUint32(ID_SEND_V2)
            && s[12 + n..16 + n] == PutUint32(mode)
            && s[16 + n..20 + n] == PutUint32(0)
            && s[20 + n..] == rest
  {
  }

  /** The device recovers path, mode and flags exactly when the path length fits 32 bits. */
  lemma SendRequestRoundTripIff(path: bytes, mode: uint32, rest: bytes)
    ensures DecodeSend(SendRequest(path, mode) + rest) == Got(SendOrder(path, mode, 0), rest) <==> |path| < TWO_32
  {
    var s := SendRequest(path, mode) + rest;
    var n := |path|;
    SendRequestLayout(path, mode, rest);
    Tags();
    assert s[..4] == s[0..4];
    if n < TWO_32 {
      WordAt(s, 4, n);
      WordAt(s, 12 + n, mode);
      WordAt(s, 16 + n, 0);
    } else if |s| >= 8 {
      Uint32Bound(s[4..8]);
    }
  }

  lemma PacketLayout(id: nat, blob: bytes, rest: bytes)
    ensures var s, n := PayloadPacket(id, blob) + rest, |blob|;
            && |s| == 8 + n + |rest| && s[..4] == PutUint32(id) && s[4..8] == PutUint32(n)
            && s[8..8 + n] == blob && s[8 + n..] == rest
  {
    hide PutUint32;
  }

  /** What the device makes of a DATA frame in front of anything. */
  lemma FrameDecodes(chunk: bytes, rest: bytes)
    requires |chunk| < TWO_32
    ensures DecodeFrames(PayloadPacket(ID_DATA, chunk) + rest) ==
            ([chunk] + DecodeFrames(rest).0, DecodeFrames(rest).1)
  {
    hide FromLE, PutUint32, PayloadPacket, Uint32At;
    Tags();
    PacketLayout(ID_DATA, chunk, rest);
    WordAt(PayloadPacket(ID_DATA, chunk) + rest, 4, |chunk|);
  }

  lemma PartialFrameDecodes(chunk: bytes, s: bytes)
    requires |chunk| < TWO_32
    requires s <= PayloadPacket(ID_DATA, chunk) && s != PayloadPacket(ID_DATA, chunk)
    ensures DecodeFrames(s) == ([], None)
  {
    Tags();
    hide FromLE, PutUint32;
    if |s| >= 8 {
      assert s == Header(ID_DATA, |chunk|) + s[8..];
      HeaderReadsBack(ID_DATA, |chunk|, s[8..]);
      assert s[..4] == DATA_TAG;
    }
  }

  lemma DoneDecodes(mtime: uint32, rest: bytes)
    ensures DecodeFrames(DonePacket(mtime) + rest) == ([], Some(mtime))
  {
    Tags();
    hide FromLE, PutUint32;
    var s := DonePacket(mtime) + rest;
    HeaderReadsBack(ID_DONE, mtime, rest);
    assert s[..4] == s[0..4];
  }

  lemma PartialDoneDecodes(mtime: uint32, s: bytes)
    requires s <= DonePacket(mtime)
    ensures DecodeFrames(s) == ([], if s == DonePacket(mtime) then Some(mtime) else None)
  {
    hide PutUint32;
    if |s| == 8 {
      assert s == DonePacket(mtime);
      assert DonePacket(mtime) + [] == DonePacket(mtime);
      DoneDecodes(mtime, []);
    }
  }

  /**
   A push cut off after any number of bytes: the device has a prefix of the chunks, each whole, and
   it sees DONE exactly when nothing is missing.
   */
  lemma {:induction false} CutOffPushIsAPrefix(chunks: seq<bytes>, mtime: uint32, s: bytes)
    requires forall i :: 0 <= i < |chunks| ==> |chunks[i]| < TWO_32
    requires s <= DataFrames(chunks) + DonePacket(mtime)
    ensures DecodeFrames(s).0 <= chunks
    ensures s == DataFrames(chunks) + DonePacket(mtime) <==> DecodeFrames(s).1.Some?
    ensures DecodeFrames(s).1.Some? ==> DecodeFrames(s) == (chunks, Some(mtime))
  {
    hide PayloadPacket, DonePacket, DecodeFrames;
    if chunks == [] {
      assert DataFrames(chunks) + DonePacket(mtime) == DonePacket(mtime);
      PartialDoneDecodes(mtime, s);
    } else {
      var frame, tail := PayloadPacket(ID_DATA, chunks[0]), DataFrames(chunks[1..]) + DonePacket(mtime);
      assert DataFrames(chunks) + DonePacket(mtime) == frame + tail;
      if |s| < |frame| {
        assert s == (frame + tail)[..|s|] == frame[..|s|];
        PartialFrameDecodes(chunks[0], s);
      } else {
        var s' := s[|frame|..];
        assert s == frame + s';
        assert s' <= tail;
        FrameDecodes(chunks[0], s');
        CutOffPushIsAPrefix(chunks[1..], mtime, s');
        assert chunks == [chunks[0]] + chunks[1..];
        assert s == frame + tail <==> s' == tail;
      }
    }
  }
}
