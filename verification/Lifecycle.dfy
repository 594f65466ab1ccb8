/** A trace's lifecycle, from packets to a closed file:
    cpp/writer/TraceLifecycleVisitor.cpp and processTrace in cpp/writer/TraceWriter.cpp. */
module Lifecycle {
  import opened Words
  import opened Entries
  import opened Packets
  import opened Reassembly
  import opened Visitors

  // AbortReason (cpp/writer/AbortReason.h)
  datatype Reason = ControllerInitiated | MissedEvent | Timeout | NewStart

  datatype Callback = Start(trace: Int64, flags: Int32) | End(trace: Int64) | Abort(trace: Int64, reason: Reason)

  /** The visitor's state: the entries written to the open file and to each closed one. */
  datatype Life = Life(started: bool, done: bool, open: bool, written: seq<Entry>, closed: seq<seq<Entry>>,
                       history: seq<Callback>)

  const Unborn: Life := Life(false, false, false, [], [], [])

  /** Whose trace is written, and whether anybody is told. */
  datatype Owner = Owner(trace: Int64, hasCallbacks: bool)

  // ---------------------------------------------------------------- one entry

  predicate Opening(kind: Int32) {
    kind == TRACE_START || kind == TRACE_BACKWARDS
  }

  predicate Closing(kind: Int32) {
    kind == TRACE_END || kind == TRACE_TIMEOUT || kind == TRACE_ABORT
  }

  function Told(l: Life, o: Owner, c: Callback): Life {
    if l.started && o.hasCallbacks then l.(history := l.history + [c]) else l
  }

  function CleanedUp(l: Life): Life {
    if l.open then l.(open := false, written := [], closed := l.closed + [l.written]) else l
  }

  /** onTraceEnd and onTraceAbort */
  function Finished(l: Life, o: Owner, c: Callback): Life {
    Told(CleanedUp(l.(done := true)), o, c)
  }

  function Forwarded(l: Life, e: Entry): Life {
    if l.open then l.(written := l.written + [e]) else l
  }

  /** onTraceStart */
  function Begun(l: Life, o: Owner, flags: Int32): Life {
    if l.open then Finished(l, o, Abort(o.trace, NewStart))
    else Told(l.(open := true, started := true, done := false), o, Start(o.trace, flags))
  }

  /** The callback that a closing entry brings about. */
  function Farewell(o: Owner, kind: Int32): Callback {
    if kind == TRACE_END then End(o.trace)
    else Abort(o.trace, if kind == TRACE_TIMEOUT then Timeout else ControllerInitiated)
  }

  function Visited(l: Life, o: Owner, e: Entry): Life {
    if e.Standard? && Closing(e.kind) then
      if e.extra != o.trace then l else Finished(Forwarded(l, e), o, Farewell(o, e.kind))
    else if e.Standard? && Opening(e.kind) then
      if e.extra != o.trace then l else Forwarded(Begun(l, o, e.matchid), e)
    else Forwarded(l, e)
  }

  /** The chain throws: at its start for a stack too deep, which leaves everything as it was, or at
      its end for a type without a name, which leaves a torn line. */
  predicate Throws(l: Life, e: Entry) {
    l.open && (TooDeep(e) || !Prints(e))
  }

  /** What a visit leaves, whether it throws or not. */
  function Left(l: Life, o: Owner, e: Entry): Life {
    if l.open && TooDeep(e) then l else Visited(l, o, e)
  }

  function FileOf(entries: seq<Entry>): seq<Line> {
    Pipeline(entries).lines
  }

  /** The visitors of a new file, outermost first. */
  method NewChain() returns (chain: StackTraceInvertingVisitor)
    ensures var delta := chain.delegate.delegate;
            && fresh(chain.stack) && fresh(delta) && fresh(delta.delegate)
            && chain.stack.Length == MAX_STACK_DEPTH && delta.Contents() == Pipeline([])
  {
    var printer := new PrintEntryVisitor();
    var delta := new DeltaEncodingVisitor(printer);
    var truncating := new TimestampTruncatingVisitor(delta);
    chain := new StackTraceInvertingVisitor(truncating);
  }

  class TraceLifecycleVisitor {
    const owner: Owner
    var output: PrintEntryVisitor?
    var delegates: StackTraceInvertingVisitor?
    var started: bool
    var done: bool
    var history: seq<Callback>
    var files: seq<seq<Line>>
    ghost var written: seq<Entry>
    ghost var closed: seq<seq<Entry>>
    ghost var repr: set<object>

    ghost predicate Valid()
      reads this, repr
    {
      && this in repr
      && (output == null <==> delegates == null)
      && (output != null <==> started && !done)
      && (delegates == null ==> written == [])
      && (delegates != null ==>
            var delta := delegates.delegate.delegate;
            && delegates.stack in repr && delta in repr && delta.delegate in repr
            && delegates.stack.Length == MAX_STACK_DEPTH && output == delta.delegate
            && delta.Contents() == Pipeline(written))
      && |files| == |closed|
      && forall k :: 0 <= k < |files| ==> files[k] == FileOf(closed[k])
    }

    ghost function Now(): Life
      reads this
    {
      Life(started, done, output != null, written, closed, history)
    }

    constructor (owner: Owner)
      ensures Valid() && fresh(repr) && this.owner == owner && Now() == Unborn
    {
      this.owner := owner;
      output, delegates, started, done, history, files := null, null, false, false, [], [];
      written, closed, repr := [], [], {this};
    }

    method CleanupState()
      requires this in repr && done
      requires delegates != null ==> output != null && output in repr && output.lines == FileOf(written)
      requires output == null <==> delegates == null
      requires delegates == null ==> written == []
      requires |files| == |closed| && forall k :: 0 <= k < |files| ==> files[k] == FileOf(closed[k])
      modifies this
      ensures Valid() && repr == old(repr) && Now() == CleanedUp(old(Now()))
    {
      delegates := null;
      if output != null {
        files := files + [output.lines];
        closed := closed + [written];
        written := [];
        output := null;
      }
    }

    method Forward(e: Entry) returns (ok: bool)
      requires Valid()
      modifies repr
      ensures Valid() && repr == old(repr)
      ensures ok <==> !Throws(old(Now()), e)
      ensures Now() == if old(Now()).open && TooDeep(e) then old(Now()) else Forwarded(old(Now()), e)
    {
      ok := true;
      if delegates != null {
        ok := delegates.Visit(e);
        if !TooDeep(e) {
          assert (written + [e])[..|written|] == written;
          written := written + [e];
        }
      }
    }

    method OnTraceAbort(reason: Reason)
      requires Valid()
      modifies this
      ensures Valid() && repr == old(repr) && Now() == Finished(old(Now()), owner, Abort(owner.trace, reason))
    {
      done := true;
      CleanupState();
      if started && owner.hasCallbacks {
        history := history + [Abort(owner.trace, reason)];
      }
    }

    method OnTraceEnd()
      requires Valid()
      modifies this
      ensures Valid() && repr == old(repr) && Now() == Finished(old(Now()), owner, End(owner.trace))
    {
      done := true;
      CleanupState();
      if started && owner.hasCallbacks {
        history := history + [End(owner.trace)];
      }
    }

    method OnTraceStart(flags: Int32)
      requires Valid()
      modifies this
      ensures Valid() && fresh(repr - old(repr)) && Now() == Begun(old(Now()), owner, flags)
    {
      if output != null {
        OnTraceAbort(NewStart);
        return;
      }
      var chain := NewChain();
      var delta := chain.delegate.delegate;
      output, delegates := delta.delegate, chain;
      repr := repr + {delta.delegate, delta, chain.stack};
      if owner.hasCallbacks {
        history := history + [Start(owner.trace, flags)];
      }
      started, done := true, false;
    }

    /** This trace's TRACE_END, TRACE_TIMEOUT or TRACE_ABORT: written before the file is closed. */
    method VisitClosing(e: Entry)
      requires Valid() && e.Standard? && Closing(e.kind)
      modifies repr
      ensures Valid() && repr == old(repr)
      ensures Now() == Finished(Forwarded(old(Now()), e), owner, Farewell(owner, e.kind))
    {
      var _ := Forward(e);
      if e.kind == TRACE_END {
        OnTraceEnd();
      } else {
        OnTraceAbort(if e.kind == TRACE_TIMEOUT then Timeout else ControllerInitiated);
      }
    }

    /** This trace's TRACE_START or TRACE_BACKWARDS, the latter with a null callback. */
    method VisitOpening(e: Entry)
      requires Valid() && e.Standard?
      modifies repr
      ensures Valid() && fresh(repr - old(repr))
      ensures Now() == Forwarded(Begun(old(Now()), owner, e.matchid), e)
    {
      OnTraceStart(e.matchid);
      var _ := Forward(e);
    }

    /** visit, for all three kinds of entry. */
    method Visit(e: Entry) returns (ok: bool)
      requires Valid()
      modifies repr
      ensures Valid() && fresh(repr - old(repr))
      ensures ok <==> !Throws(old(Now()), e)
      ensures Now() == Left(old(Now()), owner, e)
    {
      ok := true;
      if e.Standard? && Closing(e.kind) {
        if e.extra == owner.trace {
          VisitClosing(e);
        }
      } else if e.Standard? && Opening(e.kind) {
        if e.extra == owner.trace {
          VisitOpening(e);
        }
      } else {
        ok := Forward(e);
      }
    }
  }

  // ---------------------------------------------------------------- a whole run

  datatype Run = Run(life: Life, threw: bool)

  /** One payload: parsing it may throw, and so may visiting the entry. Once the trace is done
      or something has thrown, nothing more is read. */
  function Took(r: Run, o: Owner, item: Parsed): Run {
    if r.threw || r.life.done then r
    else if !item.Visit? then r.(threw := true)
    else Run(Left(r.life, o, item.entry), Throws(r.life, item.entry))
  }

  function RunItems(o: Owner, items: seq<Parsed>): Run {
    if items == [] then Run(Unborn, false)
    else Took(RunItems(o, items[..|items| - 1]), o, items[|items| - 1])
  }

  /** A missed event ends a trace that nothing else has ended. */
  function Concluded(r: Run, o: Owner): Run {
    if r.threw || r.life.done then r else r.(life := Finished(r.life, o, Abort(o.trace, MissedEvent)))
  }

  function ParseAll(payloads: seq<seq<Byte>>): (items: seq<Parsed>)
    ensures |items| == |payloads|
  {
    seq(|payloads|, k requires 0 <= k < |payloads| => Parse(payloads[k]))
  }

  /** What a reader that has consumed these packets has seen. */
  function RunPackets(o: Owner, packets: seq<Packet>): Run {
    RunItems(o, ParseAll(RunForwards(packets).delivered))
  }

  /** The reassembler and the visitor after these packets. */
  ghost predicate ReaderAt(o: Owner, packets: seq<Packet>, lists: State, run: Run) {
    lists == RunForwards(packets) && run == RunItems(o, ParseAll(lists.delivered))
  }

  function TookLast(o: Owner, before: State, after: State, run: Run): Run {
    if |after.delivered| > |before.delivered| then Took(run, o, Parse(after.delivered[|after.delivered| - 1])) else run
  }

  /** A packet completes at most one payload. */
  lemma DeliversAtMostOne(st: State, p: Packet)
    ensures var before, after := st.delivered, Forwards(st, p).delivered;
            after == before || (|after| == |before| + 1 && after[..|before|] == before)
  {
  }

  lemma ReaderStep(o: Owner, packets: seq<Packet>, p: Packet, before: State, run: Run, after: State)
    requires ReaderAt(o, packets, before, run) && after == Forwards(before, p)
    ensures ReaderAt(o, packets + [p], after, TookLast(o, before, after, run))
  {
    assert (packets + [p])[..|packets|] == packets;
    DeliversAtMostOne(before, p);
    if |after.delivered| > |before.delivered| {
      var items := ParseAll(after.delivered);
      assert items[..|items| - 1] == ParseAll(before.delivered);
    }
  }

  /** A reader that has stopped stays as it is. */
  lemma {:induction false} StoppedStays(o: Owner, packets: seq<Packet>, n: nat)
    requires n <= |packets|
    requires var r := RunPackets(o, packets[..n]); r.threw || r.life.done
    ensures RunPackets(o, packets) == RunPackets(o, packets[..n])
  {
    if n == |packets| {
      assert packets[..n] == packets;
    } else {
      var front, p := packets[..|packets| - 1], packets[|packets| - 1];
      assert front[..n] == packets[..n] && packets == front + [p];
      StoppedStays(o, front, n);
      var before := RunForwards(front);
      ReaderStep(o, front, p, before, RunPackets(o, front), Forwards(before, p));
    }
  }

  ghost predicate Stopped(o: Owner, packets: seq<Packet>) {
    RunPackets(o, packets).threw || RunPackets(o, packets).life.done
  }

  /** The reader goes on for the first n packets at least. */
  ghost predicate ReadsOn(o: Owner, packets: seq<Packet>, n: nat)
    requires n <= |packets|
  {
    forall k :: 0 <= k < n ==> !Stopped(o, packets[..k])
  }

  /** One round of the loop in processTrace. */
  method Feed(o: Owner, visitor: TraceLifecycleVisitor, reassembler: PacketReassembler, p: Packet,
              ghost packets: seq<Packet>)
    returns (threw: bool)
    requires visitor.Valid() && visitor.owner == o && reassembler !in visitor.repr && !visitor.done
    requires ReaderAt(o, packets, reassembler.Lists(), Run(visitor.Now(), false))
    modifies visitor.repr, reassembler
    ensures visitor.Valid() && fresh(visitor.repr - old(visitor.repr)) && reassembler !in visitor.repr
    ensures ReaderAt(o, packets + [p], reassembler.Lists(), Run(visitor.Now(), threw))
  {
    ghost var before, run := reassembler.Lists(), Run(visitor.Now(), false);
    var count := |reassembler.delivered|;
    reassembler.Process(p);
    ReaderStep(o, packets, p, before, run, reassembler.Lists());
    threw := false;
    if |reassembler.delivered| > count {
      var item := Parse(reassembler.delivered[|reassembler.delivered| - 1]);
      threw := true;
      if item.Visit? {
        var ok := visitor.Visit(item.entry);
        threw := !ok;
      }
    }
  }

  /** The loop itself: it stops at the first packet after which the trace is done. */
  method ReadLoop(o: Owner, packets: seq<Packet>)
    returns (visitor: TraceLifecycleVisitor, threw: bool, consumed: nat)
    ensures visitor.Valid() && visitor.owner == o && fresh(visitor.repr)
    ensures consumed <= |packets| && ReadsOn(o, packets, consumed)
    ensures Stopped(o, packets[..consumed]) || consumed == |packets|
    ensures RunPackets(o, packets[..consumed]) == Run(visitor.Now(), threw)
  {
    visitor := new TraceLifecycleVisitor(o);
    var reassembler := new PacketReassembler();
    threw, consumed := false, 0;
    while !visitor.done && !threw && consumed < |packets|
      invariant consumed <= |packets|
      invariant visitor.Valid() && visitor.owner == o && fresh(visitor.repr) && fresh(reassembler)
      invariant reassembler !in visitor.repr
      invariant ReaderAt(o, packets[..consumed], reassembler.Lists(), Run(visitor.Now(), threw))
      invariant ReadsOn(o, packets, consumed)
      decreases |packets| - consumed
    {
      NextRound(o, packets, consumed, reassembler.Lists(), Run(visitor.Now(), threw));
      threw := Feed(o, visitor, reassembler, packets[consumed], packets[..consumed]);
      consumed := consumed + 1;
    }
    SeenSoFar(o, packets[..consumed], reassembler.Lists(), Run(visitor.Now(), threw));
  }

  lemma SeenSoFar(o: Owner, packets: seq<Packet>, lists: State, run: Run)
    requires ReaderAt(o, packets, lists, run)
    ensures RunPackets(o, packets) == run && (Stopped(o, packets) <==> run.threw || run.life.done)
  {
  }

  /** As long as the loop goes on, the reader has not stopped. */
  lemma NextRound(o: Owner, packets: seq<Packet>, n: nat, lists: State, run: Run)
    requires n < |packets| && ReaderAt(o, packets[..n], lists, run) && ReadsOn(o, packets, n)
    requires !run.threw && !run.life.done
    ensures ReadsOn(o, packets, n + 1) && packets[..n + 1] == packets[..n] + [packets[n]]
  {
    SeenSoFar(o, packets[..n], lists, run);
  }

  /** processTrace over a buffer from its cursor on: the packets it can still read, and then a
      missed event. */
  method ProcessTrace(o: Owner, packets: seq<Packet>)
    returns (threw: bool, consumed: nat, history: seq<Callback>, files: seq<seq<Line>>, open: bool)
    ensures consumed <= |packets| && ReadsOn(o, packets, consumed)
    ensures Stopped(o, packets[..consumed]) || consumed == |packets|
    ensures var r := Concluded(RunPackets(o, packets), o);
            && threw == r.threw && history == r.life.history && open == r.life.open
            && |files| == |r.life.closed| && forall k :: 0 <= k < |files| ==> files[k] == FileOf(r.life.closed[k])
  {
    var visitor;
    visitor, threw, consumed := ReadLoop(o, packets);
    StoppedOrAll(o, packets, consumed);
    if !visitor.done && !threw {
      visitor.OnTraceAbort(MissedEvent);
    }
    history, files, open := visitor.history, visitor.files, visitor.output != null;
  }

  lemma StoppedOrAll(o: Owner, packets: seq<Packet>, n: nat)
    requires n <= |packets| && (Stopped(o, packets[..n]) || n == |packets|)
    ensures RunPackets(o, packets) == RunPackets(o, packets[..n])
  {
    if n == |packets| {
      assert packets[..n] == packets;
    } else {
      StoppedStays(o, packets, n);
    }
  }

  // ---------------------------------------------------------------- what a run writes, by position

  predicate OwnOpening(item: Parsed, trace: Int64) {
    item.Visit? && item.entry.Standard? && Opening(item.entry.kind) && item.entry.extra == trace
  }

  predicate OwnClosing(item: Parsed, trace: Int64) {
    item.Visit? && item.entry.Standard? && Closing(item.entry.kind) && item.entry.extra == trace
  }

  predicate Own(item: Parsed, trace: Int64) {
    OwnOpening(item, trace) || OwnClosing(item, trace)
  }

  predicate Foreign(e: Entry, trace: Int64) {
    e.Standard? && (Opening(e.kind) || Closing(e.kind)) && e.extra != trace
  }

  /** The first lifecycle entry of this trace at or after `from`. */
  function FirstOwn(items: seq<Parsed>, trace: Int64, from: nat): (k: nat)
    requires from <= |items|
    ensures from <= k <= |items| && (k < |items| ==> Own(items[k], trace))
    ensures forall j :: from <= j < k ==> !Own(items[j], trace)
    decreases |items| - from
  {
    if from == |items| || Own(items[from], trace) then from else FirstOwn(items, trace, from + 1)
  }

  /** The entries of this window, other traces' lifecycle entries left out. */
  function Kept(items: seq<Parsed>, trace: Int64): seq<Entry> {
    if items == [] then []
    else
      var item := items[|items| - 1];
      Kept(items[..|items| - 1], trace) + (if item.Visit? && !Foreign(item.entry, trace) then [item.entry] else [])
  }

  /** The trace's window: from its opening entry to its next lifecycle entry. */
  function OpensAt(items: seq<Parsed>, trace: Int64): nat {
    FirstOwn(items, trace, 0)
  }

  predicate NeverOpens(items: seq<Parsed>, trace: Int64) {
    var s := OpensAt(items, trace);
    s == |items| || !OwnOpening(items[s], trace)
  }

  function ClosesAt(items: seq<Parsed>, trace: Int64): (t: nat)
    ensures t <= |items|
  {
    var s := OpensAt(items, trace);
    if NeverOpens(items, trace) then s else FirstOwn(items, trace, s + 1)
  }

  /** Something the reader chokes on: an unknown kind of entry or a short payload anywhere; or, while
      the file is open, a stack too deep for the inverting visitor or a type without a name, unless
      there is nothing to print. */
  predicate Bad(items: seq<Parsed>, trace: Int64, k: nat)
    requires k < |items|
  {
    !items[k].Visit? || (OpensAt(items, trace) < k && (TooDeep(items[k].entry) || !Prints(items[k].entry)))
  }

  ghost predicate Clean(items: seq<Parsed>, trace: Int64, n: nat)
    requires n <= |items|
  {
    forall k :: 0 <= k < n ==> !Bad(items, trace, k)
  }

  function IfTold(o: Owner, history: seq<Callback>): seq<Callback> {
    if o.hasCallbacks then history else []
  }

  /** The state within the window. */
  function Within(items: seq<Parsed>, o: Owner, n: nat): Life
    requires OpensAt(items, o.trace) < n <= |items| && !NeverOpens(items, o.trace)
  {
    var s := OpensAt(items, o.trace);
    Life(true, false, true, Kept(items[s..n], o.trace), [], IfTold(o, [Start(o.trace, items[s].entry.matchid)]))
  }

  /** The state once the trace is over. */
  function Over(items: seq<Parsed>, o: Owner): Life {
    var s, t := OpensAt(items, o.trace), ClosesAt(items, o.trace);
    if NeverOpens(items, o.trace) then Unborn.(done := true)
    else
      var body, start := Kept(items[s..t], o.trace), Start(o.trace, items[s].entry.matchid);
      if t == |items| then Life(true, true, false, [], [body], IfTold(o, [start, Abort(o.trace, MissedEvent)]))
      else if OwnOpening(items[t], o.trace) then Life(true, true, false, [], [body], IfTold(o, [start, Abort(o.trace, NewStart)]))
      else Life(true, true, false, [], [body + [items[t].entry]], IfTold(o, [start, Farewell(o, items[t].entry.kind)]))
  }

  lemma RunPrefix(o: Owner, items: seq<Parsed>, n: nat)
    requires n < |items|
    ensures RunItems(o, items[..n + 1]) == Took(RunItems(o, items[..n]), o, items[n])
  {
    assert items[..n + 1][..n] == items[..n];
  }

  /** Before the first lifecycle entry of this trace, nothing happens. */
  lemma {:induction false} Before(o: Owner, items: seq<Parsed>, n: nat)
    requires n <= OpensAt(items, o.trace) && Clean(items, o.trace, n)
    ensures RunItems(o, items[..n]) == Run(Unborn, false)
  {
    if n > 0 {
      Before(o, items, n - 1);
      RunPrefix(o, items, n - 1);
      assert !Bad(items, o.trace, n - 1) && !Own(items[n - 1], o.trace);
    }
  }

  lemma KeptLast(items: seq<Parsed>, trace: Int64, s: nat, n: nat)
    requires s <= n < |items| && items[n].Visit?
    ensures Kept(items[s..n + 1], trace) ==
            Kept(items[s..n], trace) + (if Foreign(items[n].entry, trace) then [] else [items[n].entry])
  {
    assert items[s..n + 1][..n - s] == items[s..n];
  }

  lemma JustOpened(o: Owner, items: seq<Parsed>)
    requires !NeverOpens(items, o.trace)
    ensures var s := OpensAt(items, o.trace); Took(Run(Unborn, false), o, items[s]) == Run(Within(items, o, s + 1), false)
  {
    var s := OpensAt(items, o.trace);
    KeptLast(items, o.trace, s, s);
    assert items[s..s] == [];
  }

  lemma OneMore(o: Owner, items: seq<Parsed>, n: nat)
    requires !NeverOpens(items, o.trace) && OpensAt(items, o.trace) < n < ClosesAt(items, o.trace)
    requires !Bad(items, o.trace, n)
    ensures Took(Run(Within(items, o, n), false), o, items[n]) == Run(Within(items, o, n + 1), false)
  {
    KeptLast(items, o.trace, OpensAt(items, o.trace), n);
    assert !Own(items[n], o.trace);
  }

  /** Within the window, everything but other traces' lifecycle entries is written. */
  lemma {:induction false} Inside(o: Owner, items: seq<Parsed>, n: nat)
    requires !NeverOpens(items, o.trace) && OpensAt(items, o.trace) < n <= ClosesAt(items, o.trace)
    requires Clean(items, o.trace, n)
    ensures RunItems(o, items[..n]) == Run(Within(items, o, n), false)
  {
    RunPrefix(o, items, n - 1);
    if n == OpensAt(items, o.trace) + 1 {
      Before(o, items, n - 1);
      JustOpened(o, items);
    } else {
      Inside(o, items, n - 1);
      OneMore(o, items, n - 1);
    }
  }

  /** One step more from just before the end. */
  lemma EndsOn(o: Owner, items: seq<Parsed>, r: Run)
    requires var t := ClosesAt(items, o.trace);
             r == Run(if NeverOpens(items, o.trace) then Unborn else Within(items, o, t), false)
    ensures var t := ClosesAt(items, o.trace);
            if t < |items| then Took(r, o, items[t]) == Run(Over(items, o), false)
            else Concluded(r, o) == Run(Over(items, o), false)
  {
  }

  /** The lifecycle entry that ends the trace, or the missed event that does. */
  lemma Ends(o: Owner, items: seq<Parsed>)
    requires Clean(items, o.trace, ClosesAt(items, o.trace))
    ensures var t := ClosesAt(items, o.trace);
            if t < |items| then RunItems(o, items[..t + 1]) == Run(Over(items, o), false)
            else Concluded(RunItems(o, items), o) == Run(Over(items, o), false)
  {
    var s, t := OpensAt(items, o.trace), ClosesAt(items, o.trace);
    if NeverOpens(items, o.trace) {
      Before(o, items, s);
    } else {
      Inside(o, items, t);
    }
    EndsOn(o, items, RunItems(o, items[..t]));
    if t < |items| {
      RunPrefix(o, items, t);
    } else {
      assert items[..t] == items;
    }
  }

  lemma {:induction false} StaysStopped(o: Owner, items: seq<Parsed>, n: nat)
    requires n <= |items|
    requires var r := RunItems(o, items[..n]); r.threw || r.life.done
    ensures RunItems(o, items) == RunItems(o, items[..n])
  {
    if n == |items| {
      assert items[..n] == items;
    } else {
      var front := items[..|items| - 1];
      assert front[..n] == items[..n];
      StaysStopped(o, front, n);
    }
  }

  /** The state a bad item leaves: that before it, with a torn line if it got as far as the printer. */
  function Choked(items: seq<Parsed>, o: Owner, k: nat): Life
    requires k < |items| && k < ClosesAt(items, o.trace)
  {
    var before := if k <= OpensAt(items, o.trace) then Unborn else Within(items, o, k);
    if items[k].Visit? && !TooDeep(items[k].entry) then Forwarded(before, items[k].entry) else before
  }

  /** The first bad item before the end of the trace throws. */
  lemma Chokes(o: Owner, items: seq<Parsed>, n: nat)
    requires n < ClosesAt(items, o.trace) && Clean(items, o.trace, n) && Bad(items, o.trace, n)
    ensures RunItems(o, items) == Run(Choked(items, o, n), true)
  {
    RunPrefix(o, items, n);
    ChokesOn(o, items, n);
    StaysStopped(o, items, n + 1);
  }

  lemma ChokesOn(o: Owner, items: seq<Parsed>, n: nat)
    requires n < ClosesAt(items, o.trace) && Clean(items, o.trace, n) && Bad(items, o.trace, n)
    ensures Took(RunItems(o, items[..n]), o, items[n]) == Run(Choked(items, o, n), true)
  {
    if n <= OpensAt(items, o.trace) {
      Before(o, items, n);
    } else {
      Inside(o, items, n);
      assert !Own(items[n], o.trace);
    }
  }

  lemma {:induction false} FirstBad(items: seq<Parsed>, trace: Int64, n: nat) returns (k: nat)
    requires n <= |items| && !Clean(items, trace, n)
    ensures k < n && Clean(items, trace, k) && Bad(items, trace, k)
  {
    if Clean(items, trace, n - 1) {
      k := n - 1;
    } else {
      k := FirstBad(items, trace, n - 1);
    }
  }

  /** Every run: processTrace throws exactly when something bad comes before the end of the
      trace, and then leaves the state at the first such item; otherwise it returns in the state
      read off the positions of the trace's lifecycle entries, with one file holding exactly the
      window, or none, and the callbacks to match. */
  lemma LifecycleIsExact(o: Owner, items: seq<Parsed>)
    ensures Concluded(RunItems(o, items), o).threw <==> !Clean(items, o.trace, ClosesAt(items, o.trace))
    ensures Clean(items, o.trace, ClosesAt(items, o.trace)) ==> Concluded(RunItems(o, items), o).life == Over(items, o)
    ensures forall k: nat :: k < ClosesAt(items, o.trace) && Clean(items, o.trace, k) && Bad(items, o.trace, k) ==>
              Concluded(RunItems(o, items), o).life == Choked(items, o, k)
  {
    forall k: nat | k < ClosesAt(items, o.trace) && Clean(items, o.trace, k) && Bad(items, o.trace, k)
      ensures Concluded(RunItems(o, items), o).life == Choked(items, o, k)
    {
      Chokes(o, items, k);
    }
    if Clean(items, o.trace, ClosesAt(items, o.trace)) {
      RunsClean(o, items);
    } else {
      var k := FirstBad(items, o.trace, ClosesAt(items, o.trace));
      Chokes(o, items, k);
    }
  }

  lemma RunsClean(o: Owner, items: seq<Parsed>)
    requires Clean(items, o.trace, ClosesAt(items, o.trace))
    ensures Concluded(RunItems(o, items), o) == Run(Over(items, o), false)
  {
    Ends(o, items);
    if ClosesAt(items, o.trace) < |items| {
      StaysStopped(o, items, ClosesAt(items, o.trace) + 1);
    }
  }

  /** An entry of type 200 between this trace's start and end: EntryType has no such name, so the
      run throws, with the start written and a torn line after it. */
  lemma UnknownTypeThrows(o: Owner, start: Entry, middle: Entry, end: Entry) returns (items: seq<Parsed>)
    requires start.Standard? && start.kind == TRACE_START && start.extra == o.trace
    requires middle.Standard? && middle.kind == 200
    requires end.Standard? && end.kind == TRACE_END && end.extra == o.trace
    ensures items == [Visit(start), Visit(middle), Visit(end)]
    ensures Concluded(RunItems(o, items), o).threw
    ensures Concluded(RunItems(o, items), o).life.written == [start, middle]
    ensures |FileOf([start, middle])| > 1 && FileOf([start, middle])[1].TornLine?
  {
    items := [Visit(start), Visit(middle), Visit(end)];
    assert !Own(items[1], o.trace) && Own(items[2], o.trace);
    assert FirstOwn(items, o.trace, 2) == 2 && FirstOwn(items, o.trace, 1) == 2;
    assert Clean(items, o.trace, 1) && Bad(items, o.trace, 1);
    Chokes(o, items, 1);
    assert Kept(items[0..1], o.trace) == [start] by {
      KeptLast(items, o.trace, 0, 0);
      assert items[0..0] == [];
    }
    TornFile(start, middle);
  }

  lemma TornFile(start: Entry, middle: Entry)
    requires start.Standard? && Known(start.kind) && middle.Standard? && !Known(middle.kind)
    ensures |FileOf([start, middle])| > 1 && FileOf([start, middle])[1].TornLine?
  {
    assert [start, middle][..1] == [start] && [start][..0] == [];
    AddsLines(Pipeline([]), start, 0, true);
    MeaningRows(start, 0, true);
    AddsLines(Pipeline([start]), middle, 0, false);
  }

  /** At any moment of any run the output is open iff the trace has started and is not done, at
      most one file is ever opened, and the callbacks so far are none, a start, or a start and
      one end or abort. */
  lemma {:induction false} LifecycleInv(o: Owner, items: seq<Parsed>)
    ensures var l := RunItems(o, items).life;
            && (l.open <==> l.started && !l.done) && (!l.open ==> l.written == [])
            && |l.closed| == (if l.started && l.done then 1 else 0)
            && WellTold(l, o)
  {
    if items != [] {
      LifecycleInv(o, items[..|items| - 1]);
    }
  }

  predicate WellTold(l: Life, o: Owner) {
    if !l.started || !o.hasCallbacks then l.history == []
    else if !l.done then |l.history| == 1 && l.history[0].Start?
    else |l.history| == 2 && l.history[0].Start? && !l.history[1].Start?
  }

  // ---------------------------------------------------------------- which callback

  /** A lifecycle entry of this trace: TRACE_ABORT, TRACE_END, TRACE_START, TRACE_BACKWARDS or
      TRACE_TIMEOUT. */
  predicate OwnEvent(item: Parsed, trace: Int64) {
    item.Visit? && item.entry.Standard? && 37 <= item.entry.kind <= 41 && item.entry.extra == trace
  }

  lemma OwnIsOwnEvent(item: Parsed, trace: Int64)
    ensures Own(item, trace) <==> OwnEvent(item, trace)
    ensures OwnOpening(item, trace) <==> OwnEvent(item, trace) && (item.entry.kind == 39 || item.entry.kind == 40)
  {
  }

  lemma FirstOwnIs(items: seq<Parsed>, trace: Int64, from: nat, k: nat)
    requires from <= k <= |items| && forall j :: from <= j < k ==> !OwnEvent(items[j], trace)
    requires k < |items| ==> OwnEvent(items[k], trace)
    ensures FirstOwn(items, trace, from) == k
    decreases k - from
  {
    if from < |items| {
      OwnIsOwnEvent(items[from], trace);
      if from < k {
        FirstOwnIs(items, trace, from + 1, k);
      }
    }
  }

  /** The trace starts at item s, and its next lifecycle entry, if it has one, is item t; all in
      between can be read and written. */
  ghost predicate Spans(items: seq<Parsed>, trace: Int64, s: nat, t: nat) {
    && s < t <= |items|
    && OwnEvent(items[s], trace) && (items[s].entry.kind == 39 || items[s].entry.kind == 40)
    && (forall j :: 0 <= j < t && j != s ==> items[j].Visit? && !OwnEvent(items[j], trace))
    && (forall j :: s < j < t ==> !TooDeep(items[j].entry) && Prints(items[j].entry))
    && (t < |items| ==> OwnEvent(items[t], trace))
  }

  /** Which callback ends a trace: an end for TRACE_END (38), a timeout for TRACE_TIMEOUT (41), an
      abort by the controller for TRACE_ABORT (37), an abort by a new start for a second TRACE_START
      (39) or TRACE_BACKWARDS (40), and a missed event when the buffer runs out. */
  lemma EndingTells(o: Owner, items: seq<Parsed>, s: nat, t: nat)
    requires Spans(items, o.trace, s, t) && o.hasCallbacks
    ensures var r := Concluded(RunItems(o, items), o);
            var told := r.life.history;
            && !r.threw && |told| == 2 && told[0] == Start(o.trace, items[s].entry.matchid)
            && (told[1] == End(o.trace) <==> t < |items| && items[t].entry.kind == 38)
            && (told[1] == Abort(o.trace, Timeout) <==> t < |items| && items[t].entry.kind == 41)
            && (told[1] == Abort(o.trace, ControllerInitiated) <==> t < |items| && items[t].entry.kind == 37)
            && (told[1] == Abort(o.trace, NewStart) <==> t < |items| && items[t].entry.kind in {39, 40})
            && (told[1] == Abort(o.trace, MissedEvent) <==> t == |items|)
  {
    forall j | 0 <= j < |items|
      ensures Own(items[j], o.trace) <==> OwnEvent(items[j], o.trace)
    {
      OwnIsOwnEvent(items[j], o.trace);
    }
    FirstOwnIs(items, o.trace, 0, s);
    OwnIsOwnEvent(items[s], o.trace);
    FirstOwnIs(items, o.trace, s + 1, t);
    if t < |items| {
      OwnIsOwnEvent(items[t], o.trace);
    }
    RunsClean(o, items);
  }
}
