/** The visitors that write a trace file, and the importer that reads it back:
    cpp/writer/StackTraceInvertingVisitor.cpp, TimestampTruncatingVisitor.cpp,
    DeltaEncodingVisitor.cpp, PrintEntryVisitor.cpp, python/profilo/importer/trace_file.py. */
module Visitors {
  import opened Wrappers
  import opened Words
  import opened Entries
  import opened Division

  const MAX_STACK_DEPTH: nat := 512

  // ---------------------------------------------------------------- printing

  /** to_string names the codes of EntryType, 0 to STKERR_INVALID_MAP, and throws for any other. */
  predicate Known(kind: Int32) {
    0 <= kind <= 118
  }

  /** One line of the trace file. A line is torn when to_string throws: only "id|" is out by then. */
  datatype Line =
    | StandardLine(id: Int32, kind: Int32, timestamp: Int64, tid: Int32, arg1: Int32, arg2: Int32, arg3: Int64)
    | BytesLine(id: Int32, kind: Int32, arg1: Int32, data: seq<Byte>)
    | TornLine(id: Int32)

  /** A char* streams up to its first zero byte. */
  function UntilNul(bytes: seq<Byte>): seq<Byte> {
    if bytes == [] || bytes[0] == 0 then [] else [bytes[0]] + UntilNul(bytes[1..])
  }

  function FrameLine(e: Entry, k: nat): Line
    requires e.Frames? && k < |e.frames|
  {
    StandardLine(e.id, e.kind, e.timestamp, e.tid, 0, e.matchid, e.frames[k])
  }

  /** An entry without frames prints nothing at all. */
  predicate Silent(e: Entry) {
    e.Frames? && e.frames == []
  }

  /** Printing gets through to_string. */
  predicate Prints(e: Entry) {
    Silent(e) || Known(e.kind)
  }

  function Printed(e: Entry): seq<Line> {
    if !Prints(e) then [TornLine(e.id)]
    else
      match e
      case Standard(id, kind, ts, tid, callid, matchid, extra) => [StandardLine(id, kind, ts, tid, callid, matchid, extra)]
      case Frames(_, _, _, _, _, frames) => seq(|frames|, k requires 0 <= k < |frames| => FrameLine(e, k))
      case Bytes(id, kind, matchid, bytes) => [BytesLine(id, kind, matchid, UntilNul(bytes))]
  }

  class PrintEntryVisitor {
    var lines: seq<Line>

    constructor ()
      ensures lines == []
    {
      lines := [];
    }

    /** Throws from the middle of a line when the type code has no name. */
    method Visit(e: Entry) returns (ok: bool)
      modifies this
      ensures ok <==> Prints(e)
      ensures lines == old(lines) + Printed(e)
    {
      ok := true;
      if e.Frames? {
        var k := 0;
        while k < |e.frames|
          invariant 0 <= k <= |e.frames| && (k > 0 ==> Known(e.kind))
          invariant lines == old(lines) + (if k == 0 then [] else Printed(e)[..k])
        {
          if !Known(e.kind) {
            lines := lines + [TornLine(e.id)];
            return false;
          }
          lines := lines + [FrameLine(e, k)];
          k := k + 1;
        }
      } else if !Known(e.kind) {
        lines := lines + [TornLine(e.id)];
        ok := false;
      } else if e.Standard? {
        lines := lines + [StandardLine(e.id, e.kind, e.timestamp, e.tid, e.callid, e.matchid, e.extra)];
      } else {
        lines := lines + [BytesLine(e.id, e.kind, e.matchid, UntilNul(e.bytes))];
      }
    }
  }

  // ---------------------------------------------------------------- delta encoding

  /** last_values_ */
  datatype Values = Values(id: Int32, timestamp: Int64, tid: Int32, callid: Int32, matchid: Int32, extra: Int64)

  const ZERO: Values := Values(0, 0, 0, 0, 0, 0)

  /** The encoder's memory and the file behind it. */
  datatype Chain = Chain(last: Values, lines: seq<Line>)

  /** The line that leads from `last` to `next`, each field as a wrapping difference. */
  function Difference(last: Values, next: Values, kind: Int32): Line {
    StandardLine(Wrap32(next.id - last.id), kind, Wrap64(next.timestamp - last.timestamp), Wrap32(next.tid - last.tid),
                 Wrap32(next.callid - last.callid), Wrap32(next.matchid - last.matchid), Wrap64(next.extra - last.extra))
  }

  function ValuesOf(e: Entry): Values
    requires e.Standard?
  {
    Values(e.id, e.timestamp, e.tid, e.callid, e.matchid, e.extra)
  }

  /** Frame k of the entry is numbered id + k and keeps the call id of whatever came before. */
  function FrameValues(e: Entry, k: nat, callid: Int32): Values
    requires e.Frames? && k < |e.frames|
  {
    Values(Wrap32(e.id + k), e.timestamp, e.tid, callid, e.matchid, e.frames[k])
  }

  function Moved(c: Chain, next: Values, kind: Int32): Chain {
    Chain(next, c.lines + [Difference(c.last, next, kind)])
  }

  /** The printer threw: the encoder has moved on, and the line is torn. */
  function Torn(c: Chain, next: Values): Chain {
    Chain(next, c.lines + [TornLine(Wrap32(next.id - c.last.id))])
  }

  function WithFrames(c: Chain, e: Entry, k: nat): Chain
    requires e.Frames? && k <= |e.frames|
    decreases |e.frames| - k
  {
    if k == |e.frames| then c
    else if !Known(e.kind) then Torn(c, FrameValues(e, k, c.last.callid))
    else WithFrames(Moved(c, FrameValues(e, k, c.last.callid), e.kind), e, k + 1)
  }

  function Encoded(c: Chain, e: Entry): Chain {
    match e
    case Standard(_, _, _, _, _, _, _) => if Known(e.kind) then Moved(c, ValuesOf(e), e.kind) else Torn(c, ValuesOf(e))
    case Frames(_, _, _, _, _, _) => WithFrames(c, e, 0)
    case Bytes(id, kind, matchid, bytes) =>
      c.(lines := c.lines + [if Known(kind) then BytesLine(id, kind, matchid, UntilNul(bytes)) else TornLine(id)])
  }

  class DeltaEncodingVisitor {
    const delegate: PrintEntryVisitor
    var last: Values

    constructor (delegate: PrintEntryVisitor)
      ensures this.delegate == delegate && last == ZERO
    {
      this.delegate := delegate;
      last := ZERO;
    }

    function Contents(): Chain
      reads this, delegate
    {
      Chain(last, delegate.lines)
    }

    method Visit(e: Entry) returns (ok: bool)
      modifies this, delegate
      ensures ok <==> Prints(e)
      ensures Contents() == Encoded(old(Contents()), e)
    {
      match e
      case Standard(id, kind, ts, tid, callid, matchid, extra) =>
        var encoded := Standard(Wrap32(id - last.id), kind, Wrap64(ts - last.timestamp), Wrap32(tid - last.tid),
                                Wrap32(callid - last.callid), Wrap32(matchid - last.matchid), Wrap64(extra - last.extra));
        last := Values(id, ts, tid, callid, matchid, extra);
        ok := delegate.Visit(encoded);
      case Frames(_, _, _, _, _, _) =>
        ok := VisitFrames(e);
      case Bytes(_, _, _, _) =>
        ok := delegate.Visit(e);
    }

    method VisitFrames(e: Entry) returns (ok: bool)
      requires e.Frames?
      modifies this, delegate
      ensures ok <==> Prints(e)
      ensures Contents() == WithFrames(old(Contents()), e, 0)
    {
      var idx := 0;
      while idx < |e.frames|
        invariant 0 <= idx <= |e.frames| && (idx > 0 ==> Known(e.kind))
        invariant WithFrames(Contents(), e, idx) == WithFrames(old(Contents()), e, 0)
      {
        var printed := VisitFrame(e, idx);
        if !printed {
          return false;
        }
        idx := idx + 1;
      }
      ok := true;
    }

    /** One round of the loop over frames. */
    method VisitFrame(e: Entry, idx: nat) returns (ok: bool)
      requires e.Frames? && idx < |e.frames|
      modifies this, delegate
      ensures ok <==> Known(e.kind)
      ensures var next := FrameValues(e, idx, old(last).callid);
              Contents() == if ok then Moved(old(Contents()), next, e.kind) else Torn(old(Contents()), next)
    {
      var encoded := Frames(Wrap32(e.id - last.id + idx), e.kind, Wrap64(e.timestamp - last.timestamp),
                            Wrap32(e.tid - last.tid), Wrap32(e.matchid - last.matchid), [Wrap64(e.frames[idx] - last.extra)]);
      SameDifference(last, e, idx, encoded);
      last := Values(Wrap32(e.id + idx), e.timestamp, e.tid, last.callid, e.matchid, e.frames[idx]);
      ok := delegate.Visit(encoded);
    }
  }

  /** id - last.id + idx, wrapped, is the difference to the wrapped id + idx. */
  lemma SameDifference(last: Values, e: Entry, k: nat, encoded: Entry)
    requires e.Frames? && k < |e.frames|
    requires encoded == Frames(Wrap32(e.id - last.id + k), e.kind, Wrap64(e.timestamp - last.timestamp),
                               Wrap32(e.tid - last.tid), Wrap32(e.matchid - last.matchid), [Wrap64(e.frames[k] - last.extra)])
    ensures var next := FrameValues(e, k, last.callid);
            Printed(encoded) == [if Known(e.kind) then Difference(last, next, e.kind) else TornLine(Wrap32(next.id - last.id))]
  {
    Wrap32Difference(e.id + k, last.id);
    assert Known(e.kind) ==> Printed(encoded) == [FrameLine(encoded, 0)];
  }

  lemma Wrap32Difference(a: int, b: int)
    ensures Wrap32(Wrap32(a) - b) == Wrap32(a - b)
  {
    var d := (a - Wrap32(a)) / TWO_32;
    assert a - Wrap32(a) == TWO_32 * d;
    Wrap32Shift(Wrap32(a) - b, d);
  }

  lemma Wrap32Shift(x: int, d: int)
    ensures Wrap32(x + TWO_32 * d) == Wrap32(x)
  {
    Remainder(x + TWO_32 * d, TWO_32, x / TWO_32 + d, x % TWO_32);
  }

  lemma Wrap64Shift(x: int, d: int)
    ensures Wrap64(x + TWO_64 * d) == Wrap64(x)
  {
    Remainder(x + TWO_64 * d, TWO_64, x / TWO_64 + d, x % TWO_64);
  }

  // ---------------------------------------------------------------- truncation and inversion

  function Truncated(e: Entry): Entry {
    if e.Bytes? then e else e.(timestamp := Truncate(e.timestamp))
  }

  class TimestampTruncatingVisitor {
    const delegate: DeltaEncodingVisitor

    constructor (delegate: DeltaEncodingVisitor)
      ensures this.delegate == delegate
    {
      this.delegate := delegate;
    }

    method Visit(e: Entry) returns (ok: bool)
      modifies delegate, delegate.delegate
      ensures ok <==> Prints(e)
      ensures delegate.Contents() == Encoded(old(delegate.Contents()), Truncated(e))
    {
      if e.Bytes? {
        ok := delegate.Visit(e);
      } else {
        var micros := TruncateTimestamp(e.timestamp);
        ok := delegate.Visit(e.(timestamp := micros));
      }
    }
  }

  function Reversed(s: seq<Int64>): (r: seq<Int64>)
    ensures |r| == |s|
    ensures forall k :: 0 <= k < |s| ==> r[k] == s[|s| - 1 - k]
  {
    if s == [] then [] else Reversed(s[1..]) + [s[0]]
  }

  function Inverted(e: Entry): Entry {
    if e.Frames? then e.(frames := Reversed(e.frames)) else e
  }

  predicate TooDeep(e: Entry) {
    e.Frames? && |e.frames| > MAX_STACK_DEPTH
  }

  class StackTraceInvertingVisitor {
    const delegate: TimestampTruncatingVisitor
    const stack: array<Int64>

    constructor (delegate: TimestampTruncatingVisitor)
      ensures this.delegate == delegate && fresh(stack) && stack.Length == MAX_STACK_DEPTH
    {
      this.delegate := delegate;
      stack := new Int64[MAX_STACK_DEPTH];
    }

    /** Refuses a stack that does not fit the buffer, before touching anything; otherwise throws
        only if the printer at the end of the chain does. */
    method Visit(e: Entry) returns (ok: bool)
      requires stack.Length == MAX_STACK_DEPTH
      modifies stack, delegate.delegate, delegate.delegate.delegate
      ensures ok <==> !TooDeep(e) && Prints(e)
      ensures TooDeep(e) <==> e.Frames? && |e.frames| > 512
      ensures var file := delegate.delegate;
              file.Contents() == if TooDeep(e) then old(file.Contents())
                                 else Encoded(old(file.Contents()), Truncated(Inverted(e)))
    {
      if e.Frames? {
        if |e.frames| > MAX_STACK_DEPTH {
          return false;
        }
        ReverseCopy(e.frames, stack);
        ok := delegate.Visit(Frames(e.id, e.kind, e.timestamp, e.tid, e.matchid, stack[..|e.frames|]));
      } else {
        ok := delegate.Visit(e);
      }
    }
  }

  /** std::reverse_copy */
  method ReverseCopy(frames: seq<Int64>, stack: array<Int64>)
    requires |frames| <= stack.Length
    modifies stack
    ensures stack[..|frames|] == Reversed(frames)
  {
    var k := 0;
    while k < |frames|
      invariant 0 <= k <= |frames|
      invariant forall j :: 0 <= j < k ==> stack[j] == frames[|frames| - 1 - j]
    {
      stack[k] := frames[|frames| - 1 - k];
      k := k + 1;
    }
  }

  /** The file after all the entries have gone through the chain. */
  function Pipeline(entries: seq<Entry>): Chain {
    if entries == [] then Chain(ZERO, [])
    else Encoded(Pipeline(entries[..|entries| - 1]), Truncated(Inverted(entries[|entries| - 1])))
  }

  // ---------------------------------------------------------------- the importer

  /** An entry as the importer returns it; a first timestamp is an unbounded Python integer. */
  datatype Row =
    | Row(id: Int32, kind: Int32, timestamp: int, tid: Int32, arg1: Int32, arg2: Int32, arg3: Int64)
    | Blob(id: Int32, kind: Int32, arg: int, data: seq<Byte>)

  datatype Last = NoEntry | LastEntry(row: Row)

  datatype Import = Import(rows: seq<Row>, last: Last) | Raised

  /** STRING_KEY, STRING_VALUE and STRING_NAME: construct goes by the type's name alone. */
  predicate IsString(kind: Int32) {
    kind == 56 || kind == 57 || kind == 83
  }

  /** A nonnegative number in decimal digits. */
  function Digits(n: nat): seq<Byte> {
    if n < 10 then [48 + n] else Digits(n / 10) + [48 + n % 10]
  }

  function Decimal(x: int): seq<Byte> {
    if x < 0 then [45] + Digits(-x) else Digits(x)
  }

  function Add32(a: int, b: int): (r: Int32)
    ensures r == Wrap32(a + b)
  {
    var val := a + b;
    if !(-0x8000_0000 <= val <= 0x7fff_ffff) then (val + 0x8000_0000) % TWO_32 - 0x8000_0000 else val
  }

  function Add64(a: int, b: int): (r: Int64)
    ensures r == Wrap64(a + b)
  {
    var val := a + b;
    if !(-0x8000_0000_0000_0000 <= val <= 0x7fff_ffff_ffff_ffff)
    then (val + 0x8000_0000_0000_0000) % TWO_64 - 0x8000_0000_0000_0000 else val
  }

  /** A StandardEntry is added to the last one, timestamps going from microseconds to nanoseconds. */
  function ImportStandard(st: Import, line: Line): Import
    requires st.Import? && line.StandardLine?
  {
    var row := if st.last.LastEntry? && st.last.row.Row?
               then
                 var l := st.last.row;
                 Row(Add32(l.id, line.id), line.kind, Add64(l.timestamp, line.timestamp * 1000), Add32(l.tid, line.tid),
                     Add32(l.arg1, line.arg1), Add32(l.arg2, line.arg2), Add64(l.arg3, line.arg3))
               else Row(line.id, line.kind, line.timestamp * 1000, line.tid, line.arg1, line.arg2, line.arg3);
    Import(st.rows + [row], LastEntry(row))
  }

  /** One round: construct takes the line's fields by position, as a BytesEntry for the three
      string types and as a StandardEntry for all others. A line with too few fields raises. */
  function ImportLine(st: Import, line: Line): Import {
    if st.Raised? then Raised
    else
      match line
      case TornLine(_) => Raised
      case BytesLine(id, kind, arg1, data) =>
        if IsString(kind) then st.(rows := st.rows + [Blob(id, kind, arg1, data)]) else Raised
      case StandardLine(id, kind, ts, tid, _, _, _) =>
        if IsString(kind) then st.(rows := st.rows + [Blob(id, kind, ts, Decimal(tid))]) else ImportStandard(st, line)
  }

  method ImportLines(lines: seq<Line>) returns (st: Import)
    ensures st == Imported(lines)
  {
    st := Import([], NoEntry);
    var k := 0;
    while k < |lines|
      invariant 0 <= k <= |lines|
      invariant st == Imported(lines[..k])
    {
      assert lines[..k + 1][..k] == lines[..k];
      st := ImportLine(st, lines[k]);
      k := k + 1;
    }
    assert lines[..k] == lines;
  }

  function Imported(lines: seq<Line>): Import {
    if lines == [] then Import([], NoEntry) else ImportLine(Imported(lines[..|lines| - 1]), lines[|lines| - 1])
  }

  // ---------------------------------------------------------------- what the file means

  /** The call id of the last standard entry. */
  function LastCallId(entries: seq<Entry>): Int32 {
    if entries == [] then 0
    else if entries[|entries| - 1].Standard? then entries[|entries| - 1].callid
    else LastCallId(entries[..|entries| - 1])
  }

  /** Nothing with a timestamp has been written yet. */
  predicate NoneYet(entries: seq<Entry>) {
    forall k :: 0 <= k < |entries| ==> Timeless(entries[k])
  }

  predicate Timeless(e: Entry) {
    e.Bytes? || (e.Frames? && e.frames == [])
  }

  /** Microseconds as nanoseconds; only the importer's first row is not wrapped. */
  function Scaled(micros: Int64, first: bool): int {
    if first then 1000 * micros else Wrap64(1000 * micros)
  }

  function FrameRow(e: Entry, k: nat, micros: Int64, callid: Int32, first: bool): Row
    requires e.Frames? && k < |e.frames|
  {
    Row(Wrap32(e.id + k), e.kind, Scaled(micros, first && k == 0), e.tid, callid, e.matchid, e.frames[|e.frames| - 1 - k])
  }

  /** The rows of frames k and after. */
  function FrameRows(e: Entry, k: nat, micros: Int64, callid: Int32, first: bool): seq<Row>
    requires e.Frames? && k <= |e.frames|
    decreases |e.frames| - k
  {
    if k == |e.frames| then []
    else [FrameRow(e, k, micros, callid, first)] + FrameRows(e, k + 1, micros, callid, first)
  }

  /** What the importer should return for one entry: its own fields, with the timestamp rounded;
      a stack trace as its frames from the outermost in, numbered from the entry's id. */
  function Meaning(e: Entry, callid: Int32, first: bool): seq<Row> {
    match e
    case Standard(id, kind, ts, tid, cid, matchid, extra) =>
      [Row(id, kind, Scaled(Truncate(ts), first), tid, cid, matchid, extra)]
    case Frames(_, _, ts, _, _, _) => FrameRows(e, 0, Truncate(ts), callid, first)
    case Bytes(id, kind, matchid, bytes) => [Blob(id, kind, matchid, UntilNul(bytes))]
  }

  function Meanings(entries: seq<Entry>): seq<Row> {
    if entries == [] then []
    else
      var before := entries[..|entries| - 1];
      Meanings(before) + Meaning(entries[|entries| - 1], LastCallId(before), NoneYet(before))
  }

  /** The importer takes the entry for what it is. */
  predicate Typed(e: Entry) {
    Silent(e) || (Known(e.kind) && (e.Bytes? <==> IsString(e.kind)))
  }

  predicate AllTyped(entries: seq<Entry>) {
    forall k :: 0 <= k < |entries| ==> Typed(entries[k])
  }

  /** The importer's last row agrees with the encoder's last values. */
  ghost predicate Synced(c: Chain) {
    Imported(c.lines).Import? &&
    match Imported(c.lines).last
    case NoEntry => c.last == ZERO
    case LastEntry(row) =>
      && row.Row? && row.id == c.last.id && row.tid == c.last.tid && row.arg1 == c.last.callid
      && row.arg2 == c.last.matchid && row.arg3 == c.last.extra
      && Wrap64(row.timestamp) == Wrap64(1000 * c.last.timestamp)
  }

  function RowOf(v: Values, kind: Int32, timestamp: int): Row {
    Row(v.id, kind, timestamp, v.tid, v.callid, v.matchid, v.extra)
  }

  lemma AddsBack32(a: Int32, b: Int32)
    ensures Add32(a, Wrap32(b - a)) == b
  {
    var m: int := a;
    Wrap32Difference(b - m, -m);
    WrapsBack32(b, b % TWO_32);
  }

  lemma Wrap64Shifted(x: int) returns (d: int)
    ensures Wrap64(x) == x + TWO_64 * d
  {
    d := (Wrap64(x) - x) / TWO_64;
  }

  lemma AddsBack64(a: Int64, b: Int64)
    ensures Add64(a, Wrap64(b - a)) == b
  {
    var d := Wrap64Shifted(b - a);
    Wrap64Shift(b, d);
    WrapsBack64(b, b % TWO_64);
  }

  /** The importer scales the difference; the sum is still right, because both wrap at 2^64. */
  lemma AddsBackScaled(a: Int64, b: Int64, sum: int)
    requires Wrap64(sum) == Wrap64(1000 * a)
    ensures Add64(sum, Wrap64(b - a) * 1000) == Wrap64(1000 * b)
  {
    var d := Wrap64Shifted(b - a);
    var s := Wrap64Shifted(sum);
    var t := Wrap64Shifted(1000 * a);
    assert sum + Wrap64(b - a) * 1000 == 1000 * b + TWO_64 * (t - s + 1000 * d);
    Wrap64Shift(1000 * b, t - s + 1000 * d);
  }

  /** What reading the file so far gives. */
  ghost predicate ReadsAs(c: Chain, rows: seq<Row>, first: bool) {
    Synced(c) && Imported(c.lines).rows == rows && (Imported(c.lines).last.NoEntry? <==> first)
  }

  lemma ImportedLast(lines: seq<Line>, line: Line)
    ensures Imported(lines + [line]) == ImportLine(Imported(lines), line)
  {
    assert (lines + [line])[..|lines|] == lines;
  }

  /** The importer's arithmetic undoes the encoder's. */
  lemma DifferenceReadsBack(last: Values, next: Values, kind: Int32, st: Import)
    requires st.Import? && st.last.LastEntry? && st.last.row.Row? && !IsString(kind)
    requires var row := st.last.row; row == RowOf(last, row.kind, row.timestamp)
    requires Wrap64(st.last.row.timestamp) == Wrap64(1000 * last.timestamp)
    ensures var row := RowOf(next, kind, Scaled(next.timestamp, false));
            ImportLine(st, Difference(last, next, kind)) == Import(st.rows + [row], LastEntry(row))
  {
    AddsBack32(last.id, next.id);
    AddsBack32(last.tid, next.tid);
    AddsBack32(last.callid, next.callid);
    AddsBack32(last.matchid, next.matchid);
    AddsBack64(last.extra, next.extra);
    AddsBackScaled(last.timestamp, next.timestamp, st.last.row.timestamp);
  }

  /** The first line is taken as it is. */
  lemma FirstDifferenceReadsBack(next: Values, kind: Int32, st: Import)
    requires st.Import? && st.last.NoEntry? && !IsString(kind)
    ensures var row := RowOf(next, kind, Scaled(next.timestamp, true));
            ImportLine(st, Difference(ZERO, next, kind)) == Import(st.rows + [row], LastEntry(row))
  {
    FromZero(next, kind);
  }

  lemma SyncedAfter(c: Chain, row: Row, kind: Int32, first: bool)
    requires Imported(c.lines).Import? && Imported(c.lines).last == LastEntry(row)
    requires row == RowOf(c.last, kind, Scaled(c.last.timestamp, first))
    ensures Synced(c)
  {
    WrapTwice(1000 * c.last.timestamp);
  }

  /** One difference, read back. */
  lemma LineReadsBack(c: Chain, rows: seq<Row>, first: bool, next: Values, kind: Int32)
    requires ReadsAs(c, rows, first) && !IsString(kind)
    ensures ReadsAs(Moved(c, next, kind), rows + [RowOf(next, kind, Scaled(next.timestamp, first))], false)
  {
    var st, row := Imported(c.lines), RowOf(next, kind, Scaled(next.timestamp, first));
    ImportedLast(c.lines, Difference(c.last, next, kind));
    assert ImportLine(st, Difference(c.last, next, kind)) == Import(rows + [row], LastEntry(row)) by {
      if first {
        FirstDifferenceReadsBack(next, kind, st);
      } else {
        DifferenceReadsBack(c.last, next, kind, st);
      }
    }
    SyncedAfter(Moved(c, next, kind), row, kind, first);
  }

  lemma WrapTwice(x: int)
    ensures Wrap64(Wrap64(x)) == Wrap64(x)
  {
    var d := Wrap64Shifted(x);
    Wrap64Shift(x, d);
  }

  lemma FromZero(v: Values, kind: Int32)
    ensures Difference(ZERO, v, kind) == StandardLine(v.id, kind, v.timestamp, v.tid, v.callid, v.matchid, v.extra)
  {
    WrapsBack32(v.id, v.id % TWO_32);
    WrapsBack32(v.tid, v.tid % TWO_32);
    WrapsBack32(v.callid, v.callid % TWO_32);
    WrapsBack32(v.matchid, v.matchid % TWO_32);
    WrapsBack64(v.timestamp, v.timestamp % TWO_64);
    WrapsBack64(v.extra, v.extra % TWO_64);
  }

  /** The frames of one entry, read back. */
  lemma {:induction false} FramesReadBack(c: Chain, rows: seq<Row>, first: bool, e: Entry, sent: Entry, k: nat)
    requires Flips(e, sent) && k <= |e.frames| && ReadsAs(c, rows, first && k == 0) && Typed(e)
    ensures ReadsAs(WithFrames(c, sent, k), rows + FrameRows(e, k, sent.timestamp, c.last.callid, first),
                    first && |e.frames| == 0)
    ensures WithFrames(c, sent, k).last.callid == c.last.callid
    decreases |e.frames| - k
  {
    var callid, micros := c.last.callid, sent.timestamp;
    if k == |e.frames| {
      assert rows + [] == rows;
    } else {
      var row := FrameRow(e, k, micros, callid, first);
      FrameReadsBack(c, rows, first, e, sent, k, callid);
      FramesReadBack(Moved(c, FrameValues(sent, k, callid), sent.kind), rows + [row], first, e, sent, k + 1);
      Associates(rows, [row], FrameRows(e, k + 1, micros, callid, first));
    }
  }

  predicate Flips(e: Entry, sent: Entry) {
    && e.Frames? && sent.Frames? && |sent.frames| == |e.frames|
    && sent == e.(timestamp := sent.timestamp, frames := sent.frames)
    && forall k :: 0 <= k < |e.frames| ==> sent.frames[k] == e.frames[|e.frames| - 1 - k]
  }

  lemma FrameReadsBack(c: Chain, rows: seq<Row>, first: bool, e: Entry, sent: Entry, k: nat, callid: Int32)
    requires ReadsAs(c, rows, first && k == 0) && Flips(e, sent) && k < |e.frames| && !IsString(e.kind)
    ensures ReadsAs(Moved(c, FrameValues(sent, k, callid), sent.kind),
                    rows + [FrameRow(e, k, sent.timestamp, callid, first)], false)
  {
    LineReadsBack(c, rows, first && k == 0, FrameValues(sent, k, callid), sent.kind);
  }

  /** One entry, read back. */
  ghost predicate EntryReads(c: Chain, rows: seq<Row>, first: bool, e: Entry) {
    var c' := Encoded(c, Truncated(Inverted(e)));
    && ReadsAs(c', rows + Meaning(e, c.last.callid, first), first && Timeless(e))
    && c'.last.callid == (if e.Standard? then e.callid else c.last.callid)
  }

  lemma StandardReadsBack(c: Chain, rows: seq<Row>, first: bool, e: Entry)
    requires ReadsAs(c, rows, first) && Typed(e) && e.Standard?
    ensures EntryReads(c, rows, first, e)
  {
    LineReadsBack(c, rows, first, ValuesOf(Truncated(e)), e.kind);
  }

  lemma FramesEntryReadsBack(c: Chain, rows: seq<Row>, first: bool, e: Entry)
    requires ReadsAs(c, rows, first) && Typed(e) && e.Frames?
    ensures EntryReads(c, rows, first, e)
  {
    FramesReadBack(c, rows, first, e, Truncated(Inverted(e)), 0);
  }

  lemma BytesReadBack(c: Chain, rows: seq<Row>, first: bool, e: Entry)
    requires ReadsAs(c, rows, first) && Typed(e) && e.Bytes?
    ensures EntryReads(c, rows, first, e)
  {
    ImportedLast(c.lines, BytesLine(e.id, e.kind, e.matchid, UntilNul(e.bytes)));
  }

  lemma EntryReadsBack(c: Chain, rows: seq<Row>, first: bool, e: Entry)
    requires ReadsAs(c, rows, first) && Typed(e)
    ensures EntryReads(c, rows, first, e)
  {
    match e
    case Standard(_, _, _, _, _, _, _) => StandardReadsBack(c, rows, first, e);
    case Frames(_, _, _, _, _, _) => FramesEntryReadsBack(c, rows, first, e);
    case Bytes(_, _, _, _) => BytesReadBack(c, rows, first, e);
  }

  lemma NoneYetLast(entries: seq<Entry>)
    requires entries != []
    ensures NoneYet(entries) <==> NoneYet(entries[..|entries| - 1]) && Timeless(entries[|entries| - 1])
  {
  }

  lemma {:induction false} PipelineReadsAs(entries: seq<Entry>)
    requires AllTyped(entries)
    ensures ReadsAs(Pipeline(entries), Meanings(entries), NoneYet(entries))
    ensures Pipeline(entries).last.callid == LastCallId(entries)
  {
    if entries != [] {
      var before, e := entries[..|entries| - 1], entries[|entries| - 1];
      PipelineReadsAs(before);
      EntryReadsBack(Pipeline(before), Meanings(before), NoneYet(before), e);
      NoneYetLast(entries);
    }
  }

  // ---------------------------------------------------------------- and only those files

  /** The importer returns exactly what the entries mean. */
  ghost predicate ReadsBack(entries: seq<Entry>) {
    Imported(Pipeline(entries).lines).Import? && Imported(Pipeline(entries).lines).rows == Meanings(entries)
  }

  /** Importing goes line by line: one row for each, and an exception is final. */
  lemma {:induction false} ImportedPrefix(lines: seq<Line>, n: nat)
    requires n <= |lines| && Imported(lines).Import?
    ensures Imported(lines[..n]).Import? && |Imported(lines[..n]).rows| == n
    ensures |Imported(lines).rows| == |lines| && Imported(lines[..n]).rows == Imported(lines).rows[..n]
  {
    if |lines| > 0 {
      var front := lines[..|lines| - 1];
      if n < |lines| {
        ImportedPrefix(front, n);
        assert front[..n] == lines[..n];
      } else {
        ImportedPrefix(front, n - 1);
        assert lines[..n] == lines;
      }
    }
  }

  /** An entry adds its lines to the file; the first of them is torn or is for its row. */
  lemma {:induction false} FramesAddLines(c: Chain, e: Entry, k: nat)
    requires e.Frames? && k <= |e.frames|
    ensures c.lines <= WithFrames(c, e, k).lines
    ensures Known(e.kind) ==> |WithFrames(c, e, k).lines| == |c.lines| + (|e.frames| - k)
    decreases |e.frames| - k
  {
    if k < |e.frames| && Known(e.kind) {
      FramesAddLines(Moved(c, FrameValues(e, k, c.last.callid), e.kind), e, k + 1);
    }
  }

  predicate LineFor(line: Line, e: Entry) {
    !line.TornLine? && line.kind == e.kind && (line.BytesLine? <==> e.Bytes?)
  }

  lemma AddsLines(c: Chain, e: Entry, callid: Int32, first: bool)
    ensures var c' := Encoded(c, Truncated(Inverted(e)));
            && c.lines <= c'.lines
            && (!Prints(e) ==> |c'.lines| > |c.lines| && c'.lines[|c.lines|].TornLine?)
            && (Prints(e) ==> |c'.lines| == |c.lines| + |Meaning(e, callid, first)|)
            && (Prints(e) && !Silent(e) ==> |c'.lines| > |c.lines| && LineFor(c'.lines[|c.lines|], e))
  {
    if e.Frames? {
      var sent := Truncated(Inverted(e));
      FramesAddLines(c, sent, 0);
      MeaningRows(e, callid, first);
      if e.frames != [] && Known(e.kind) {
        FramesAddLines(Moved(c, FrameValues(sent, 0, c.last.callid), e.kind), sent, 1);
      }
    }
  }

  lemma {:induction false} FrameRowsAre(e: Entry, k: nat, micros: Int64, callid: Int32, first: bool)
    requires e.Frames? && k <= |e.frames|
    ensures var rows := FrameRows(e, k, micros, callid, first);
            |rows| == |e.frames| - k && forall j :: 0 <= j < |rows| ==> rows[j] == FrameRow(e, k + j, micros, callid, first)
    decreases |e.frames| - k
  {
    if k < |e.frames| {
      FrameRowsAre(e, k + 1, micros, callid, first);
    }
  }

  /** The rows an entry means: blobs for bytes, one row a frame otherwise. */
  lemma MeaningRows(e: Entry, callid: Int32, first: bool)
    ensures var rows := Meaning(e, callid, first);
            && |rows| == (if e.Frames? then |e.frames| else 1)
            && (|rows| > 0 ==> (rows[0].Blob? <==> e.Bytes?))
  {
    if e.Frames? {
      FrameRowsAre(e, 0, Truncate(e.timestamp), callid, first);
    }
  }

  /** What the importer made of line n. */
  lemma FirstLine(lines: seq<Line>, n: nat)
    requires n < |lines| && Imported(lines).Import?
    ensures |Imported(lines).rows| == |lines| && !lines[n].TornLine? && (lines[n].BytesLine? ==> IsString(lines[n].kind))
    ensures Imported(lines).rows[n].Blob? <==> IsString(lines[n].kind)
  {
    ImportedPrefix(lines, n);
    ImportedPrefix(lines, n + 1);
    assert lines[..n + 1][..n] == lines[..n];
    assert Imported(lines).rows[n] == Imported(lines[..n + 1]).rows[n];
  }

  /** The lines of one more entry, if they import at all. */
  lemma OneMoreEntry(c: Chain, e: Entry, callid: Int32, first: bool, c': Chain)
    requires c' == Encoded(c, Truncated(Inverted(e))) && Imported(c'.lines).Import?
    ensures Prints(e) && Imported(c.lines).Import? && |c.lines| <= |c'.lines| == |Imported(c'.lines).rows|
    ensures Imported(c.lines).rows == Imported(c'.lines).rows[..|c.lines|]
    ensures |c'.lines| == |c.lines| + |Meaning(e, callid, first)|
    ensures !Silent(e) ==> |c'.lines| > |c.lines| && (e.Bytes? ==> IsString(e.kind))
                           && (Imported(c'.lines).rows[|c.lines|].Blob? <==> IsString(e.kind))
  {
    AddsLines(c, e, callid, first);
    ImportedPrefix(c'.lines, |c.lines|);
    assert c'.lines[..|c.lines|] == c.lines;
    if !Silent(e) {
      FirstLine(c'.lines, |c.lines|);
    }
  }

  /** A file that imports has one row for each line of its entries. */
  lemma {:induction false} RowCounts(entries: seq<Entry>)
    requires Imported(Pipeline(entries).lines).Import?
    ensures |Imported(Pipeline(entries).lines).rows| == |Pipeline(entries).lines| == |Meanings(entries)|
  {
    if entries != [] {
      var before, e := entries[..|entries| - 1], entries[|entries| - 1];
      OneMoreEntry(Pipeline(before), e, LastCallId(before), NoneYet(before), Pipeline(entries));
      RowCounts(before);
    }
  }

  lemma Prefixes(rows: seq<Row>, a: seq<Row>, b: seq<Row>)
    requires rows == a + b
    ensures rows[..|a|] == a && (b != [] ==> rows[|a|] == b[0])
  {
  }

  lemma LastIsTyped(c: Chain, e: Entry, callid: Int32, first: bool, c': Chain, meant: seq<Row>)
    requires c' == Encoded(c, Truncated(Inverted(e))) && Imported(c'.lines).Import? && |meant| == |c.lines|
    requires Imported(c'.lines).rows == meant + Meaning(e, callid, first)
    ensures Typed(e) && Imported(c.lines).Import? && Imported(c.lines).rows == meant
  {
    OneMoreEntry(c, e, callid, first, c');
    MeaningRows(e, callid, first);
    Prefixes(Imported(c'.lines).rows, meant, Meaning(e, callid, first));
  }

  lemma AllTypedLast(entries: seq<Entry>)
    requires entries != [] && AllTyped(entries[..|entries| - 1]) && Typed(entries[|entries| - 1])
    ensures AllTyped(entries)
  {
  }

  lemma {:induction false} OnlyTyped(entries: seq<Entry>)
    requires ReadsBack(entries)
    ensures AllTyped(entries)
  {
    if entries != [] {
      var before, e := entries[..|entries| - 1], entries[|entries| - 1];
      var callid, first := LastCallId(before), NoneYet(before);
      OneMoreEntry(Pipeline(before), e, callid, first, Pipeline(entries));
      RowCounts(before);
      LastIsTyped(Pipeline(before), e, callid, first, Pipeline(entries), Meanings(before));
      OnlyTyped(before);
      AllTypedLast(entries);
    }
  }

  /** The importer recovers from the file what every entry means, if and only if every entry that
      prints anything has a named type, one of the three string types exactly when it is a bytes
      entry. Then rounding never accumulates, stack traces come back outermost first, and wrapping
      differences lose nothing. */
  lemma ImporterUndoesPipeline(entries: seq<Entry>)
    ensures ReadsBack(entries) <==> AllTyped(entries)
    ensures AllTyped(entries) <==> forall e <- entries ::
              (e.Frames? && e.frames == []) || (0 <= e.kind <= 118 && (e.Bytes? <==> e.kind in {56, 57, 83}))
  {
    if AllTyped(entries) {
      PipelineReadsAs(entries);
    }
    if ReadsBack(entries) {
      OnlyTyped(entries);
    }
  }

  /** For the first 48 days the timestamp read back is within half a microsecond of the one logged. */
  lemma TimestampRecovered(t: Int64, first: bool)
    requires -500 <= t && 4384 * (t + 500) < TWO_64
    ensures -500 <= t - Scaled(Truncate(t), first) < 500
  {
    TruncateRounds(t);
    ScalesExactly(Truncate(t), first);
  }

  lemma ScalesExactly(micros: Int64, first: bool)
    requires 0 <= 1000 * micros < 0x8000_0000_0000_0000
    ensures Scaled(micros, first) == 1000 * micros
  {
  }

  /** What is printed of a bytes entry is the longest prefix without a zero byte. */
  lemma {:induction false} UntilNulLongest(bytes: seq<Byte>)
    ensures UntilNul(bytes) <= bytes && 0 !in UntilNul(bytes)
    ensures |UntilNul(bytes)| < |bytes| ==> bytes[|UntilNul(bytes)|] == 0
    ensures UntilNul(bytes) == bytes <==> 0 !in bytes
  {
    if bytes != [] {
      UntilNulLongest(bytes[1..]);
      assert bytes == [bytes[0]] + bytes[1..];
    }
  }
}
