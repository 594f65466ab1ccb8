/** The binary form of trace entries: cpp/generated/Entry.cpp and cpp/generated/EntryParser.h. */
module Entries {
  import opened Wrappers
  import opened Words

  // EntryType (cpp/generated/EntryType.h), the codes that drive a trace's lifecycle.
  const TRACE_ABORT: Int32 := 37
  const TRACE_END: Int32 := 38
  const TRACE_START: Int32 := 39
  const TRACE_BACKWARDS: Int32 := 40
  const TRACE_TIMEOUT: Int32 := 41

  datatype Entry =
    | Standard(id: Int32, kind: Int32, timestamp: Int64, tid: Int32, callid: Int32, matchid: Int32, extra: Int64)
    | Frames(id: Int32, kind: Int32, timestamp: Int64, tid: Int32, matchid: Int32, frames: seq<Int64>)
    | Bytes(id: Int32, kind: Int32, matchid: Int32, bytes: seq<Byte>)

  /** frames.size and bytes.size are uint16_t. */
  predicate Sized(e: Entry) {
    match e
    case Standard(_, _, _, _, _, _, _) => true
    case Frames(_, _, _, _, _, frames) => |frames| < 0x1_0000
    case Bytes(_, _, _, bytes) => |bytes| < 0x1_0000
  }

  /** (offset + 0x03) & ~0x03 */
  function Align4(offset: nat): nat {
    (offset + 3) / 4 * 4
  }

  /** calculateSize; sizeof(entry.type) is that of the enum, 4, although pack writes one byte. */
  function CalculateSize(e: Entry): nat {
    match e
    case Standard(_, _, _, _, _, _, _) => 1 + 4 + 4 + 8 + 4 + 4 + 4 + 8
    case Frames(_, _, _, _, _, frames) => Align4(1 + 4 + 4 + 8 + 4 + 4) + 2 + |frames| * 8
    case Bytes(_, _, _, bytes) => Align4(1 + 4 + 4 + 4) + 2 + |bytes|
  }

  // ---------------------------------------------------------------- what pack writes

  function One(b: Byte): seq<Byte> {
    [b]
  }

  /** The fields in front of the value array, followed by `rest`. */
  function HeaderThen(e: Entry, rest: seq<Byte>): seq<Byte> {
    match e
    case Standard(id, kind, ts, tid, callid, matchid, extra) =>
      One(1) + (Little(id, 4) + (One(kind % 256) + (Little(ts, 8) + (Little(tid, 4) + (Little(callid, 4) +
      (Little(matchid, 4) + (Little(extra, 8) + rest)))))))
    case Frames(id, kind, ts, tid, matchid, frames) =>
      One(2) + (Little(id, 4) + (One(kind % 256) + (Little(ts, 8) + (Little(tid, 4) + (Little(matchid, 4) +
      (Little(|frames|, 2) + rest))))))
    case Bytes(id, kind, matchid, bytes) =>
      One(3) + (Little(id, 4) + (One(kind % 256) + (Little(matchid, 4) + (Little(|bytes|, 2) + rest))))
  }

  function Header(e: Entry): seq<Byte> {
    HeaderThen(e, [])
  }

  function FrameBytes(frames: seq<Int64>): (bytes: seq<Byte>)
    ensures |bytes| == 8 * |frames|
  {
    if frames == [] then [] else Little(frames[0], 8) + FrameBytes(frames[1..])
  }

  function Values(e: Entry): seq<Byte> {
    match e
    case Standard(_, _, _, _, _, _, _) => []
    case Frames(_, _, _, _, _, frames) => FrameBytes(frames)
    case Bytes(_, _, _, bytes) => bytes
  }

  function ValuesAt(e: Entry): nat {
    if e.Standard? then |Header(e)| else Align4(|Header(e)|)
  }

  /** The buffer holds the packed entry; the bytes after it are whatever was there. */
  ghost predicate HoldsEntry(buffer: seq<Byte>, e: Entry) {
    && ValuesAt(e) + |Values(e)| <= |buffer| && |Header(e)| <= ValuesAt(e)
    && buffer[..|Header(e)|] == Header(e)
    && buffer[ValuesAt(e)..ValuesAt(e) + |Values(e)|] == Values(e)
  }

  /** memcpy(dst + offset, bytes, |bytes|) */
  method Copy(dst: array<Byte>, offset: nat, bytes: seq<Byte>)
    requires offset + |bytes| <= dst.Length
    modifies dst
    ensures dst[..] == old(dst[..offset]) + bytes + old(dst[offset + |bytes|..])
  {
    var k := 0;
    while k < |bytes|
      invariant 0 <= k <= |bytes|
      invariant dst[..offset] == old(dst[..offset])
      invariant forall j :: 0 <= j < k ==> dst[offset + j] == bytes[j]
      invariant forall j :: offset + |bytes| <= j < dst.Length ==> dst[j] == old(dst[j])
    {
      dst[offset + k] := bytes[k];
      k := k + 1;
    }
  }

  lemma HeaderSize(e: Entry)
    ensures |Header(e)| == (match e
                            case Standard(_, _, _, _, _, _, _) => 34
                            case Frames(_, _, _, _, _, _) => 24
                            case Bytes(_, _, _, _) => 12)
  {
  }

  /** Packing writes 3 bytes less than calculateSize announced, or 6 with the alignment, and the
      value array starts on a 4-byte boundary, right after the header. */
  lemma PackedFits(e: Entry)
    ensures ValuesAt(e) + |Values(e)| == CalculateSize(e) - (if e.Standard? then 3 else 6)
    ensures !e.Standard? ==> ValuesAt(e) % 4 == 0
    ensures ValuesAt(e) == |Header(e)|
  {
    HeaderSize(e);
    SizesFrom(e, |Header(e)|);
  }

  lemma SizesFrom(e: Entry, n: nat)
    requires n == (match e
                   case Standard(_, _, _, _, _, _, _) => 34
                   case Frames(_, _, _, _, _, _) => 24
                   case Bytes(_, _, _, _) => 12)
    ensures (if e.Standard? then n else Align4(n)) == n
    ensures n + |Values(e)| == CalculateSize(e) - (if e.Standard? then 3 else 6)
  {
  }

  /** pack: refuses a destination smaller than calculateSize, otherwise writes the entry at the
      front of it and leaves the rest alone. */
  method Pack(e: Entry, dst: array<Byte>) returns (fits: bool)
    modifies dst
    ensures fits <==> CalculateSize(e) <= dst.Length
    ensures !fits ==> dst[..] == old(dst[..])
    ensures fits ==> HoldsEntry(dst[..], e) && ValuesAt(e) + |Values(e)| <= dst.Length
    ensures fits ==> dst[ValuesAt(e) + |Values(e)|..] == old(dst[ValuesAt(e) + |Values(e)|..])
  {
    if dst.Length < CalculateSize(e) {
      return false;
    }
    PackedFits(e);
    WriteParts(dst, Header(e), ValuesAt(e), Values(e));
    fits := true;
  }

  /** The fields first, then the value array at its aligned offset. */
  method WriteParts(dst: array<Byte>, header: seq<Byte>, at: nat, values: seq<Byte>)
    requires at == |header| && at + |values| <= dst.Length
    modifies dst
    ensures dst[..at] == header && dst[at..at + |values|] == values
    ensures dst[at + |values|..] == old(dst[at + |values|..])
  {
    ghost var before := dst[..];
    Copy(dst, 0, header);
    ghost var middle := dst[..];
    assert middle == header + before[|header|..];
    Copy(dst, at, values);
    PackedOver(header, values, before, middle, dst[..]);
    assert dst[..at] == dst[..][..at] && dst[at..at + |values|] == dst[..][at..at + |values|];
  }

  lemma PackedOver(header: seq<Byte>, values: seq<Byte>, before: seq<Byte>, middle: seq<Byte>, after: seq<Byte>)
    requires |header| + |values| <= |before|
    requires middle == header + before[|header|..]
    requires after == middle[..|header|] + values + middle[|header| + |values|..]
    ensures |after| == |before| && after[..|header|] == header
    ensures after[|header|..|header| + |values|] == values
    ensures after[|header| + |values|..] == before[|header| + |values|..]
  {
    assert middle[|header| + |values|..] == before[|header| + |values|..];
  }

  // ---------------------------------------------------------------- parse

  /** OutOfBounds marks inputs on which unpack would read past the end of the payload. */
  datatype Parsed = Visit(entry: Entry) | UnknownType | OutOfBounds

  function ReadFrames(bytes: seq<Byte>, n: nat): seq<Int64>
    requires |bytes| == 8 * n
  {
    if n == 0 then [] else [Wrap64(Value(bytes[..8]))] + ReadFrames(bytes[8..], n - 1)
  }

  /** The field of n bytes at the cursor, and the cursor moved past it. */
  function Field(src: seq<Byte>, n: nat): (seq<Byte>, seq<Byte>)
    requires n <= |src|
  {
    (src[..n], src[n..])
  }

  function UnpackStandard(src: seq<Byte>): Parsed {
    if |src| < 34 then OutOfBounds
    else
      var (_, s1) := Field(src, 1);
      var (id, s2) := Field(s1, 4);
      var (kind, s3) := Field(s2, 1);
      var (ts, s4) := Field(s3, 8);
      var (tid, s5) := Field(s4, 4);
      var (callid, s6) := Field(s5, 4);
      var (matchid, s7) := Field(s6, 4);
      var (extra, _) := Field(s7, 8);
      Visit(Standard(Wrap32(Value(id)), kind[0], Wrap64(Value(ts)), Wrap32(Value(tid)), Wrap32(Value(callid)),
                     Wrap32(Value(matchid)), Wrap64(Value(extra))))
  }

  datatype FramesHead = FramesHead(id: Int32, kind: Byte, timestamp: Int64, tid: Int32, matchid: Int32, size: nat)

  function ReadFramesHead(src: seq<Byte>): FramesHead
    requires |src| >= 24
  {
    var (_, s1) := Field(src, 1);
    var (id, s2) := Field(s1, 4);
    var (kind, s3) := Field(s2, 1);
    var (ts, s4) := Field(s3, 8);
    var (tid, s5) := Field(s4, 4);
    var (matchid, s6) := Field(s5, 4);
    var (size, _) := Field(s6, 2);
    FramesHead(Wrap32(Value(id)), kind[0], Wrap64(Value(ts)), Wrap32(Value(tid)), Wrap32(Value(matchid)), Value(size))
  }

  function UnpackFrames(src: seq<Byte>): Parsed {
    if |src| < 24 then OutOfBounds
    else
      var h := ReadFramesHead(src);
      var at := Align4(24);
      if |src| < at + 8 * h.size then OutOfBounds
      else Visit(Frames(h.id, h.kind, h.timestamp, h.tid, h.matchid, ReadFrames(src[at..at + 8 * h.size], h.size)))
  }

  function UnpackBytes(src: seq<Byte>): Parsed {
    if |src| < 12 then OutOfBounds
    else
      var (_, s1) := Field(src, 1);
      var (id, s2) := Field(s1, 4);
      var (kind, s3) := Field(s2, 1);
      var (matchid, s4) := Field(s3, 4);
      var (size, _) := Field(s4, 2);
      var n := Value(size);
      var at := Align4(12);
      if |src| < at + n then OutOfBounds
      else Visit(Bytes(Wrap32(Value(id)), kind[0], Wrap32(Value(matchid)), src[at..at + n]))
  }

  /** EntryParser::parse: dispatch on the first byte, unpack, visit. */
  function Parse(src: seq<Byte>): Parsed {
    if |src| == 0 then OutOfBounds
    else if src[0] == 1 then UnpackStandard(src)
    else if src[0] == 2 then UnpackFrames(src)
    else if src[0] == 3 then UnpackBytes(src)
    else UnknownType
  }

  lemma {:induction false} ReadsFrames(frames: seq<Int64>)
    ensures ReadFrames(FrameBytes(frames), |frames|) == frames
  {
    if frames != [] {
      var bytes := FrameBytes(frames);
      assert bytes[..8] == Little(frames[0], 8) && bytes[8..] == FrameBytes(frames[1..]);
      Reads64(frames[0]);
      ReadsFrames(frames[1..]);
    }
  }

  lemma ReadsSize(n: nat)
    requires n < 0x1_0000
    ensures Value(Little(n, 2)) == n
  {
    ValueOfLittle(n, 2);
    Powers();
  }

  /** The entry with the type code as one byte can hold it. */
  function Narrowed(e: Entry): Entry {
    match e
    case Standard(id, kind, ts, tid, callid, matchid, extra) => Standard(id, kind % 256, ts, tid, callid, matchid, extra)
    case Frames(id, kind, ts, tid, matchid, frames) => Frames(id, kind % 256, ts, tid, matchid, frames)
    case Bytes(id, kind, matchid, bytes) => Bytes(id, kind % 256, matchid, bytes)
  }

  lemma FieldOf(f: seq<Byte>, rest: seq<Byte>)
    ensures Field(f + rest, |f|) == (f, rest)
  {
  }

  /** A buffer that begins with the header is the header followed by the rest of the buffer. */
  lemma HeaderPlus(e: Entry, rest: seq<Byte>)
    ensures Header(e) + rest == HeaderThen(e, rest)
  {
    match e
    case Standard(id, kind, ts, tid, callid, matchid, extra) =>
      var w7 := Little(extra, 8) + [];
      var w6 := Little(matchid, 4) + w7;
      var w5 := Little(callid, 4) + w6;
      var w4 := Little(tid, 4) + w5;
      var w3 := Little(ts, 8) + w4;
      var w2 := One(kind % 256) + w3;
      var w1 := Little(id, 4) + w2;
      Associates(Little(extra, 8), [], rest);
      assert [] + rest == rest;
      Associates(Little(matchid, 4), w7, rest);
      Associates(Little(callid, 4), w6, rest);
      Associates(Little(tid, 4), w5, rest);
      Associates(Little(ts, 8), w4, rest);
      Associates(One(kind % 256), w3, rest);
      Associates(Little(id, 4), w2, rest);
      Associates(One(1), w1, rest);
    case Frames(id, kind, ts, tid, matchid, frames) =>
      var w6 := Little(|frames|, 2) + [];
      var w5 := Little(matchid, 4) + w6;
      var w4 := Little(tid, 4) + w5;
      var w3 := Little(ts, 8) + w4;
      var w2 := One(kind % 256) + w3;
      var w1 := Little(id, 4) + w2;
      Associates(Little(|frames|, 2), [], rest);
      assert [] + rest == rest;
      Associates(Little(matchid, 4), w6, rest);
      Associates(Little(tid, 4), w5, rest);
      Associates(Little(ts, 8), w4, rest);
      Associates(One(kind % 256), w3, rest);
      Associates(Little(id, 4), w2, rest);
      Associates(One(2), w1, rest);
    case Bytes(id, kind, matchid, bytes) =>
      var w4 := Little(|bytes|, 2) + [];
      var w3 := Little(matchid, 4) + w4;
      var w2 := One(kind % 256) + w3;
      var w1 := Little(id, 4) + w2;
      Associates(Little(|bytes|, 2), [], rest);
      assert [] + rest == rest;
      Associates(Little(matchid, 4), w4, rest);
      Associates(One(kind % 256), w3, rest);
      Associates(Little(id, 4), w2, rest);
      Associates(One(3), w1, rest);
  }

  lemma ParseStandard(e: Entry, rest: seq<Byte>)
    requires e.Standard?
    ensures UnpackStandard(HeaderThen(e, rest)) == Visit(Narrowed(e))
  {
    var t7 := Little(e.extra, 8) + rest;
    var t6 := Little(e.matchid, 4) + t7;
    var t5 := Little(e.callid, 4) + t6;
    var t4 := Little(e.tid, 4) + t5;
    var t3 := Little(e.timestamp, 8) + t4;
    var t2 := One(e.kind % 256) + t3;
    var t1 := Little(e.id, 4) + t2;
    FieldOf(One(1), t1);
    FieldOf(Little(e.id, 4), t2);
    FieldOf(One(e.kind % 256), t3);
    FieldOf(Little(e.timestamp, 8), t4);
    FieldOf(Little(e.tid, 4), t5);
    FieldOf(Little(e.callid, 4), t6);
    FieldOf(Little(e.matchid, 4), t7);
    FieldOf(Little(e.extra, 8), rest);
    Reads32(e.id);
    Reads64(e.timestamp);
    Reads32(e.tid);
    Reads32(e.callid);
    Reads32(e.matchid);
    Reads64(e.extra);
  }

  lemma ParseFramesHead(e: Entry, rest: seq<Byte>)
    requires e.Frames? && Sized(e)
    ensures |HeaderThen(e, rest)| == 24 + |rest|
    ensures ReadFramesHead(HeaderThen(e, rest)) == FramesHead(e.id, e.kind % 256, e.timestamp, e.tid, e.matchid, |e.frames|)
  {
    var t6 := Little(|e.frames|, 2) + rest;
    var t5 := Little(e.matchid, 4) + t6;
    var t4 := Little(e.tid, 4) + t5;
    var t3 := Little(e.timestamp, 8) + t4;
    var t2 := One(e.kind % 256) + t3;
    var t1 := Little(e.id, 4) + t2;
    FieldOf(One(2), t1);
    FieldOf(Little(e.id, 4), t2);
    FieldOf(One(e.kind % 256), t3);
    FieldOf(Little(e.timestamp, 8), t4);
    FieldOf(Little(e.tid, 4), t5);
    FieldOf(Little(e.matchid, 4), t6);
    FieldOf(Little(|e.frames|, 2), rest);
    Reads32(e.id);
    Reads64(e.timestamp);
    Reads32(e.tid);
    Reads32(e.matchid);
    ReadsSize(|e.frames|);
  }

  lemma ParseFrames(e: Entry, rest: seq<Byte>)
    requires e.Frames? && Sized(e) && |FrameBytes(e.frames)| <= |rest|
    requires rest[..|FrameBytes(e.frames)|] == FrameBytes(e.frames)
    ensures UnpackFrames(HeaderThen(e, rest)) == Visit(Narrowed(e))
  {
    var src, n := HeaderThen(e, rest), |e.frames|;
    ParseFramesHead(e, rest);
    assert src[24..24 + 8 * n] == FrameBytes(e.frames) by {
      HeaderSize(e);
      BodyAt(e, rest, 8 * n);
    }
    ReadsFrames(e.frames);
  }

  lemma ParseBytes(e: Entry, rest: seq<Byte>)
    requires e.Bytes? && Sized(e) && |e.bytes| <= |rest| && rest[..|e.bytes|] == e.bytes
    ensures UnpackBytes(HeaderThen(e, rest)) == Visit(Narrowed(e))
  {
    var t4 := Little(|e.bytes|, 2) + rest;
    var t3 := Little(e.matchid, 4) + t4;
    var t2 := One(e.kind % 256) + t3;
    var t1 := Little(e.id, 4) + t2;
    FieldOf(One(3), t1);
    FieldOf(Little(e.id, 4), t2);
    FieldOf(One(e.kind % 256), t3);
    FieldOf(Little(e.matchid, 4), t4);
    FieldOf(Little(|e.bytes|, 2), rest);
    Reads32(e.id);
    Reads32(e.matchid);
    ReadsSize(|e.bytes|);
    BodyAt(e, rest, |e.bytes|);
  }

  lemma BodyAt(e: Entry, rest: seq<Byte>, n: nat)
    requires n <= |rest|
    ensures var h := |Header(e)|; |HeaderThen(e, rest)| == h + |rest| && HeaderThen(e, rest)[h..h + n] == rest[..n]
  {
    HeaderPlus(e, rest);
    SliceAfter(Header(e), rest, n);
  }

  lemma SliceAfter(h: seq<Byte>, rest: seq<Byte>, n: nat)
    requires n <= |rest|
    ensures |h + rest| == |h| + |rest| && (h + rest)[|h|..|h| + n] == rest[..n]
  {
  }

  lemma ParseHeaderThen(e: Entry, rest: seq<Byte>)
    requires Sized(e) && |Values(e)| <= |rest| && rest[..|Values(e)|] == Values(e)
    ensures Parse(HeaderThen(e, rest)) == Visit(Narrowed(e))
  {
    match e
    case Standard(_, _, _, _, _, _, _) =>
      ParseStandard(e, rest);
      assert HeaderThen(e, rest)[0] == 1;
    case Frames(_, _, _, _, _, _) =>
      ParseFrames(e, rest);
      assert HeaderThen(e, rest)[0] == 2;
    case Bytes(_, _, _, _) =>
      ParseBytes(e, rest);
      assert HeaderThen(e, rest)[0] == 3;
  }

  lemma BufferSplits(e: Entry, buffer: seq<Byte>) returns (rest: seq<Byte>)
    requires HoldsEntry(buffer, e)
    ensures buffer == HeaderThen(e, rest)
    ensures |Values(e)| <= |rest| && rest[..|Values(e)|] == Values(e)
  {
    assert ValuesAt(e) == |Header(e)| by { PackedFits(e); }
    rest := buffer[|Header(e)|..];
    SplitBuffer(buffer, Header(e), Values(e));
    HeaderPlus(e, rest);
  }

  lemma SplitBuffer(buffer: seq<Byte>, header: seq<Byte>, values: seq<Byte>)
    requires |header| + |values| <= |buffer|
    requires buffer[..|header|] == header && buffer[|header|..|header| + |values|] == values
    ensures buffer == header + buffer[|header|..] && buffer[|header|..][..|values|] == values
  {
    assert buffer == buffer[..|header|] + buffer[|header|..];
    assert buffer[|header|..][..|values|] == buffer[|header|..|header| + |values|];
  }

  /** The round trip: whatever follows the packed entry in the buffer, parsing visits the entry
      itself, provided its type code fits the byte it is stored in; otherwise the code comes
      back reduced modulo 256, and the round trip fails. */
  lemma ParseUndoesPack(e: Entry, buffer: seq<Byte>)
    requires Sized(e) && HoldsEntry(buffer, e)
    ensures Parse(buffer) == Visit(Narrowed(e))
    ensures Parse(buffer) == Visit(e) <==> 0 <= e.kind < 256
  {
    var rest := BufferSplits(e, buffer);
    ParseHeaderThen(e, rest);
    NarrowedIs(e);
  }

  lemma NarrowedIs(e: Entry)
    ensures Narrowed(e) == e <==> 0 <= e.kind < 256
  {
  }

  // ---------------------------------------------------------------- the layout

  /** The bytes of a field follow those of the fields before it. */
  predicate FieldAt(buffer: seq<Byte>, at: nat, field: seq<Byte>) {
    at + |field| <= |buffer| && buffer[at..at + |field|] == field
  }

  lemma NextField(buffer: seq<Byte>, at: nat, field: seq<Byte>, rest: seq<Byte>)
    requires at <= |buffer| && buffer[at..] == field + rest
    ensures FieldAt(buffer, at, field) && at + |field| <= |buffer| && buffer[at + |field|..] == rest
  {
    assert buffer[at..][..|field|] == field;
    assert buffer[at..][|field|..] == rest;
  }

  /** Where each field of a packed standard entry is. */
  lemma StandardLayout(e: Entry, buffer: seq<Byte>)
    requires e.Standard? && HoldsEntry(buffer, e)
    ensures FieldAt(buffer, 0, [1]) && FieldAt(buffer, 1, Little(e.id, 4)) && FieldAt(buffer, 5, [e.kind % 256])
    ensures FieldAt(buffer, 6, Little(e.timestamp, 8)) && FieldAt(buffer, 14, Little(e.tid, 4))
    ensures FieldAt(buffer, 18, Little(e.callid, 4)) && FieldAt(buffer, 22, Little(e.matchid, 4))
    ensures FieldAt(buffer, 26, Little(e.extra, 8))
  {
    var rest := BufferSplits(e, buffer);
    var t7 := Little(e.extra, 8) + rest;
    var t6 := Little(e.matchid, 4) + t7;
    var t5 := Little(e.callid, 4) + t6;
    var t4 := Little(e.tid, 4) + t5;
    var t3 := Little(e.timestamp, 8) + t4;
    var t2 := One(e.kind % 256) + t3;
    var t1 := Little(e.id, 4) + t2;
    NextField(buffer, 0, One(1), t1);
    NextField(buffer, 1, Little(e.id, 4), t2);
    NextField(buffer, 5, One(e.kind % 256), t3);
    NextField(buffer, 6, Little(e.timestamp, 8), t4);
    NextField(buffer, 14, Little(e.tid, 4), t5);
    NextField(buffer, 18, Little(e.callid, 4), t6);
    NextField(buffer, 22, Little(e.matchid, 4), t7);
    NextField(buffer, 26, Little(e.extra, 8), rest);
  }

  /** Frame k is 8 k bytes into the value array. */
  lemma {:induction false} FrameAt(frames: seq<Int64>, k: nat)
    requires k < |frames|
    ensures FrameBytes(frames) == FrameBytes(frames[..k]) + (Little(frames[k], 8) + FrameBytes(frames[k + 1..]))
    ensures |FrameBytes(frames[..k])| == 8 * k
  {
    if k == 0 {
      assert frames[..0] == [] && [] + FrameBytes(frames) == FrameBytes(frames);
    } else {
      var tail := frames[1..];
      FrameAt(tail, k - 1);
      assert frames[..k][1..] == tail[..k - 1] && frames[k + 1..] == tail[k..];
      Associates(Little(frames[0], 8), FrameBytes(tail[..k - 1]), Little(frames[k], 8) + FrameBytes(tail[k..]));
    }
  }

  /** The value array is where the header ends. */
  lemma ValuesLayout(e: Entry, buffer: seq<Byte>)
    requires HoldsEntry(buffer, e)
    ensures e.Frames? ==> FieldAt(buffer, 24, FrameBytes(e.frames))
    ensures e.Bytes? ==> FieldAt(buffer, 12, e.bytes)
  {
    HeaderSize(e);
    PackedFits(e);
  }

  /** And of a packed frames entry. */
  lemma FramesLayout(e: Entry, buffer: seq<Byte>)
    requires e.Frames? && HoldsEntry(buffer, e)
    ensures FieldAt(buffer, 0, [2]) && FieldAt(buffer, 1, Little(e.id, 4)) && FieldAt(buffer, 5, [e.kind % 256])
    ensures FieldAt(buffer, 6, Little(e.timestamp, 8)) && FieldAt(buffer, 14, Little(e.tid, 4))
    ensures FieldAt(buffer, 18, Little(e.matchid, 4)) && FieldAt(buffer, 22, Little(|e.frames|, 2))
    ensures FieldAt(buffer, 24, FrameBytes(e.frames))
  {
    var rest := BufferSplits(e, buffer);
    var t6 := Little(|e.frames|, 2) + rest;
    var t5 := Little(e.matchid, 4) + t6;
    var t4 := Little(e.tid, 4) + t5;
    var t3 := Little(e.timestamp, 8) + t4;
    var t2 := One(e.kind % 256) + t3;
    var t1 := Little(e.id, 4) + t2;
    NextField(buffer, 0, One(2), t1);
    NextField(buffer, 1, Little(e.id, 4), t2);
    NextField(buffer, 5, One(e.kind % 256), t3);
    NextField(buffer, 6, Little(e.timestamp, 8), t4);
    NextField(buffer, 14, Little(e.tid, 4), t5);
    NextField(buffer, 18, Little(e.matchid, 4), t6);
    NextField(buffer, 22, Little(|e.frames|, 2), rest);
    ValuesLayout(e, buffer);
  }

  /** And of a packed bytes entry. */
  lemma BytesLayout(e: Entry, buffer: seq<Byte>)
    requires e.Bytes? && HoldsEntry(buffer, e)
    ensures FieldAt(buffer, 0, [3]) && FieldAt(buffer, 1, Little(e.id, 4)) && FieldAt(buffer, 5, [e.kind % 256])
    ensures FieldAt(buffer, 6, Little(e.matchid, 4)) && FieldAt(buffer, 10, Little(|e.bytes|, 2))
    ensures FieldAt(buffer, 12, e.bytes)
  {
    var rest := BufferSplits(e, buffer);
    var t4 := Little(|e.bytes|, 2) + rest;
    var t3 := Little(e.matchid, 4) + t4;
    var t2 := One(e.kind % 256) + t3;
    var t1 := Little(e.id, 4) + t2;
    NextField(buffer, 0, One(3), t1);
    NextField(buffer, 1, Little(e.id, 4), t2);
    NextField(buffer, 5, One(e.kind % 256), t3);
    NextField(buffer, 6, Little(e.matchid, 4), t4);
    NextField(buffer, 10, Little(|e.bytes|, 2), rest);
    ValuesLayout(e, buffer);
  }

  /** A size of two bytes. */
  function SizeAt(src: seq<Byte>, at: nat): nat
    requires at + 1 < |src|
  {
    src[at] as int + 256 * src[at + 1] as int
  }

  lemma ValueOfTwo(src: seq<Byte>, at: nat)
    requires at + 1 < |src|
    ensures Value(src[at..at + 2]) == SizeAt(src, at)
  {
    var bytes := src[at..at + 2];
    assert Value(bytes[1..]) == bytes[1] as int + 256 * Value([]);
  }

  /** Which payloads are refused: those of an unknown kind, and those that end before their entry
      does, going by the size stored in front of the value array. */
  lemma ParseRefuses(src: seq<Byte>)
    ensures Parse(src) == UnknownType <==> src != [] && src[0] !in {1, 2, 3}
    ensures Parse(src) == OutOfBounds <==>
              || src == []
              || (src[0] == 1 && |src| < 34)
              || (src[0] == 2 && (|src| < 24 || |src| < 24 + 8 * SizeAt(src, 22)))
              || (src[0] == 3 && (|src| < 12 || |src| < 12 + SizeAt(src, 10)))
  {
    if |src| >= 24 && src[0] == 2 {
      assert src[1..][4..][1..][8..][4..][4..][..2] == src[22..24];
      ValueOfTwo(src, 22);
    }
    if |src| >= 12 && src[0] == 3 {
      assert src[1..][4..][1..][4..][..2] == src[10..12];
      ValueOfTwo(src, 10);
    }
  }
}
