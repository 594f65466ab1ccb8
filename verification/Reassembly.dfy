/** Reassembling payloads from packets: cpp/writer/PacketReassembler.cpp. */
module Reassembly {
  import opened Wrappers
  import opened Words
  import opened Packets

  const STREAM_POOL_SIZE: nat := 8

  datatype PacketStream = PacketStream(stream: StreamId, data: seq<Byte>)

  /** The reassembler's lists, and the payloads handed to the callback so far. */
  datatype State = State(active: seq<PacketStream>, pooled: seq<PacketStream>, delivered: seq<seq<Byte>>)

  function Reverse(bytes: seq<Byte>): seq<Byte> {
    if bytes == [] then [] else Reverse(bytes[1..]) + [bytes[0]]
  }

  /** Index of the first active stream with this id, or |active|. */
  function Find(active: seq<PacketStream>, id: StreamId): (k: nat)
    ensures k <= |active|
    ensures k < |active| ==> active[k].stream == id
    ensures forall j :: 0 <= j < k ==> active[j].stream != id
  {
    if active == [] || active[0].stream == id then 0 else 1 + Find(active[1..], id)
  }

  // ---------------------------------------------------------------- one packet

  /** recycleStream */
  function Recycle(pooled: seq<PacketStream>, s: PacketStream): seq<PacketStream> {
    if |pooled| < STREAM_POOL_SIZE then pooled + [s.(data := [])] else pooled
  }

  /** newStream hands out the front of the pool, whatever it holds. */
  function Open(st: State, id: StreamId, bytes: seq<Byte>): State {
    var kept := if st.pooled != [] then st.pooled[0].data else [];
    State([PacketStream(id, kept + bytes)] + st.active, if st.pooled != [] then st.pooled[1..] else [], st.delivered)
  }

  function Close(st: State, k: nat, payload: seq<Byte>): State
    requires k < |st.active|
  {
    State(st.active[..k] + st.active[k + 1..], Recycle(st.pooled, st.active[k]), st.delivered + [payload])
  }

  function Forwards(st: State, p: Packet): State {
    var k := Find(st.active, p.stream);
    if k < |st.active| then
      var s := st.active[k].(data := st.active[k].data + p.data);
      var st1 := st.(active := st.active[k := s]);
      if p.next then st1 else Close(st1, k, s.data)
    else if p.start && !p.next then st.(delivered := st.delivered + [p.data])
    else if p.start then Open(st, p.stream, p.data)
    else st
  }

  function Backwards(st: State, p: Packet): State {
    var k := Find(st.active, p.stream);
    if k < |st.active| then
      var s := st.active[k].(data := st.active[k].data + Reverse(p.data));
      var st1 := st.(active := st.active[k := s]);
      if p.start then Close(st1, k, Reverse(s.data)) else st1
    else if p.start && !p.next then st.(delivered := st.delivered + [p.data])
    else if !p.next then Open(st, p.stream, Reverse(p.data))
    else st
  }

  class PacketReassembler {
    var active: seq<PacketStream>
    var pooled: seq<PacketStream>
    var delivered: seq<seq<Byte>>

    function Lists(): State
      reads this
    {
      State(active, pooled, delivered)
    }

    constructor ()
      ensures Lists() == Initial()
    {
      active, delivered := [], [];
      pooled := seq(STREAM_POOL_SIZE, _ => PacketStream(0, []));
    }

    method NewStream() returns (s: PacketStream)
      modifies this`pooled
      ensures old(pooled) != [] ==> s == old(pooled)[0] && pooled == old(pooled)[1..]
      ensures old(pooled) == [] ==> s.data == [] && pooled == []
    {
      if |pooled| > 0 {
        s := pooled[0];
        pooled := pooled[1..];
      } else {
        s := PacketStream(0, []);
      }
    }

    method RecycleStream(s: PacketStream)
      modifies this`pooled
      ensures pooled == Recycle(old(pooled), s)
    {
      if |pooled| < STREAM_POOL_SIZE {
        pooled := pooled + [s.(data := [])];
      }
    }

    method Process(p: Packet)
      modifies this
      ensures Lists() == Forwards(old(Lists()), p)
    {
      var k := 0;
      while k < |active|
        invariant 0 <= k <= |active| && Lists() == old(Lists())
        invariant forall j :: 0 <= j < k ==> active[j].stream != p.stream
      {
        if active[k].stream == p.stream {
          assert k == Find(active, p.stream);
          active := active[k := active[k].(data := active[k].data + p.data)];
          if !p.next {
            var s := active[k];
            delivered := delivered + [s.data];
            active := active[..k] + active[k + 1..];
            RecycleStream(s);
          }
          return;
        }
        k := k + 1;
      }
      assert Find(active, p.stream) == |active|;
      if p.start && !p.next {
        delivered := delivered + [p.data];
      } else if p.start {
        var s := NewStream();
        active := [PacketStream(p.stream, s.data + p.data)] + active;
      }
    }

    method ProcessBackwards(p: Packet)
      modifies this
      ensures Lists() == Backwards(old(Lists()), p)
    {
      var k := 0;
      while k < |active|
        invariant 0 <= k <= |active| && Lists() == old(Lists())
        invariant forall j :: 0 <= j < k ==> active[j].stream != p.stream
      {
        if active[k].stream == p.stream {
          assert k == Find(active, p.stream);
          active := active[k := active[k].(data := active[k].data + Reverse(p.data))];
          if p.start {
            var s := active[k];
            delivered := delivered + [Reverse(s.data)];
            active := active[..k] + active[k + 1..];
            RecycleStream(s);
          }
          return;
        }
        k := k + 1;
      }
      assert Find(active, p.stream) == |active|;
      if p.start && !p.next {
        delivered := delivered + [p.data];
      } else if !p.next {
        var s := NewStream();
        active := [PacketStream(p.stream, s.data + Reverse(p.data))] + active;
      }
    }
  }

  function Initial(): State {
    State([], seq(STREAM_POOL_SIZE, _ => PacketStream(0, [])), [])
  }

  /** process on each packet of the window, oldest first. */
  function RunForwards(window: seq<Packet>): State {
    if window == [] then Initial()
    else Forwards(RunForwards(window[..|window| - 1]), window[|window| - 1])
  }

  /** processBackwards on each packet of the window, newest first. */
  function RunBackwards(window: seq<Packet>): State {
    if window == [] then Initial() else Backwards(RunBackwards(window[1..]), window[0])
  }

  // ---------------------------------------------------------------- what a window holds of a stream

  /** Consecutive packets of one stream: only the first may be the start, only the last the end. */
  ghost predicate Piece(s: seq<Packet>) {
    && (forall j :: 0 < j < |s| ==> !s[j].start)
    && (forall j :: 0 <= j < |s| - 1 ==> s[j].next)
  }

  ghost predicate Pieces(window: seq<Packet>) {
    forall id :: Piece(Sub(window, id))
  }

  predicate Whole(s: seq<Packet>) {
    s != [] && s[0].start && !s[|s| - 1].next
  }

  /** Streams completed by the window, in the order of their last packets. */
  function CompletedForwards(window: seq<Packet>): seq<StreamId> {
    if window == [] then []
    else
      var id := window[|window| - 1].stream;
      CompletedForwards(window[..|window| - 1]) + (if Whole(Sub(window, id)) then [id] else [])
  }

  /** Streams completed by the window, in reverse order of their first packets. */
  function CompletedBackwards(window: seq<Packet>): seq<StreamId> {
    if window == [] then []
    else
      var id := window[0].stream;
      CompletedBackwards(window[1..]) + (if Whole(Sub(window, id)) then [id] else [])
  }

  /** The pool never holds stale bytes, so a new stream starts empty; and it stays small. */
  ghost predicate PoolInv(pooled: seq<PacketStream>) {
    |pooled| <= STREAM_POOL_SIZE && forall j :: 0 <= j < |pooled| ==> pooled[j].data == []
  }

  ghost predicate DistinctStreams(active: seq<PacketStream>) {
    forall i, j :: 0 <= i < j < |active| ==> active[i].stream != active[j].stream
  }

  ghost predicate Delivers(delivered: seq<seq<Byte>>, ids: seq<StreamId>, window: seq<Packet>) {
    && |delivered| == |ids|
    && (forall i, j :: 0 <= i < j < |ids| ==> ids[i] != ids[j])
    && (forall id :: id in ids <==> Whole(Sub(window, id)))
    && (forall j :: 0 <= j < |ids| ==> delivered[j] == Data(Sub(window, ids[j])))
  }

  /** Forwards, a stream is active while its start has been seen and its end has not. */
  function ActiveForwards(s: seq<Packet>): Option<seq<Byte>> {
    if s != [] && s[0].start && s[|s| - 1].next then Some(Data(s)) else None
  }

  /** Backwards, it is active while its end has been seen and its start has not. */
  function ActiveBackwards(s: seq<Packet>): Option<seq<Byte>> {
    if s != [] && !s[0].start && !s[|s| - 1].next then Some(Reverse(Data(s))) else None
  }

  ghost predicate InvForwards(st: State, window: seq<Packet>) {
    && PoolInv(st.pooled) && DistinctStreams(st.active)
    && Delivers(st.delivered, CompletedForwards(window), window)
    && forall id :: Lookup(st.active, id) == ActiveForwards(Sub(window, id))
  }

  ghost predicate InvBackwards(st: State, window: seq<Packet>) {
    && PoolInv(st.pooled) && DistinctStreams(st.active)
    && Delivers(st.delivered, CompletedBackwards(window), window)
    && forall id :: Lookup(st.active, id) == ActiveBackwards(Sub(window, id))
  }

  // ---------------------------------------------------------------- the lists as a map

  function Lookup(active: seq<PacketStream>, id: StreamId): Option<seq<Byte>> {
    var k := Find(active, id);
    if k < |active| then Some(active[k].data) else None
  }

  lemma FindAt(active: seq<PacketStream>, id: StreamId, k: nat)
    requires k < |active| && active[k].stream == id
    requires forall j :: 0 <= j < k ==> active[j].stream != id
    ensures Find(active, id) == k
  {
  }

  /** Appending to the stream at k. */
  lemma Updated(active: seq<PacketStream>, k: nat, s: PacketStream, id: StreamId)
    requires k < |active| && s.stream == active[k].stream && DistinctStreams(active)
    ensures DistinctStreams(active[k := s]) && Find(active[k := s], s.stream) == k
    ensures Lookup(active[k := s], id) == if id == s.stream then Some(s.data) else Lookup(active, id)
  {
    var after, f := active[k := s], Find(active, id);
    FindAt(after, s.stream, k);
    if f < |active| {
      FindAt(after, id, f);
    }
  }

  /** Erasing the stream at k. */
  lemma Erased(active: seq<PacketStream>, k: nat, after: seq<PacketStream>, id: StreamId)
    requires k < |active| && DistinctStreams(active) && after == active[..k] + active[k + 1..]
    ensures DistinctStreams(after)
    ensures Lookup(after, id) == if id == active[k].stream then None else Lookup(active, id)
  {
    assert |after| == |active| - 1;
    assert forall j :: 0 <= j < k ==> after[j] == active[j];
    assert forall j :: k <= j < |after| ==> after[j] == active[j + 1];
    var f := Find(active, id);
    if f < |active| && f != k {
      var g := if f < k then f else f - 1;
      FindAt(after, id, g);
    }
  }

  /** Pushing a new stream to the front. */
  lemma Pushed(active: seq<PacketStream>, s: PacketStream, id: StreamId)
    requires DistinctStreams(active) && Lookup(active, s.stream).None?
    ensures DistinctStreams([s] + active)
    ensures Lookup([s] + active, id) == if id == s.stream then Some(s.data) else Lookup(active, id)
  {
    assert ([s] + active)[1..] == active;
  }

  /** What one packet does: the bytes added to an open stream, and whether it ends there. */
  function Acted(before: Option<seq<Byte>>, bytes: seq<Byte>, first: bool, last: bool): Option<seq<Byte>> {
    if last then None
    else match before
         case Some(data) => Some(data + bytes)
         case None => if first then Some(bytes) else None
  }

  lemma Opens(st: State, id: StreamId, bytes: seq<Byte>, other: StreamId)
    requires PoolInv(st.pooled) && DistinctStreams(st.active) && Lookup(st.active, id).None?
    ensures var st' := Open(st, id, bytes);
            && PoolInv(st'.pooled) && DistinctStreams(st'.active) && st'.delivered == st.delivered
            && Lookup(st'.active, other) == if other == id then Some(bytes) else Lookup(st.active, other)
  {
    var st' := Open(st, id, bytes);
    assert [] + bytes == bytes;
    Pushed(st.active, PacketStream(id, bytes), other);
  }

  lemma Appends(st: State, id: StreamId, bytes: seq<Byte>, last: bool, payload: seq<Byte>, st': State, other: StreamId)
    requires PoolInv(st.pooled) && DistinctStreams(st.active) && Lookup(st.active, id).Some?
    requires var k := Find(st.active, id);
             var s := st.active[k].(data := st.active[k].data + bytes);
             var st1 := st.(active := st.active[k := s]);
             st' == if last then Close(st1, k, payload) else st1
    ensures PoolInv(st'.pooled) && DistinctStreams(st'.active)
    ensures st'.delivered == st.delivered + if last then [payload] else []
    ensures Lookup(st'.active, other) ==
            if other != id then Lookup(st.active, other)
            else if last then None
            else Some(Lookup(st.active, id).value + bytes)
  {
    var k := Find(st.active, id);
    var s := st.active[k].(data := st.active[k].data + bytes);
    Updated(st.active, k, s, other);
    if last {
      Erased(st.active[k := s], k, st'.active, other);
    }
  }

  /** One packet, forwards, changes its own stream only. */
  lemma ForwardsActs(st: State, p: Packet, other: StreamId)
    requires PoolInv(st.pooled) && DistinctStreams(st.active)
    ensures var st', own := Forwards(st, p), Lookup(st.active, p.stream);
            && PoolInv(st'.pooled) && DistinctStreams(st'.active)
            && st'.delivered == st.delivered + (if p.next then []
                                                else if own.Some? then [own.value + p.data]
                                                else if p.start then [p.data] else [])
            && Lookup(st'.active, other) ==
               if other == p.stream then Acted(own, p.data, p.start, !p.next) else Lookup(st.active, other)
  {
    var k := Find(st.active, p.stream);
    if k < |st.active| {
      var payload := st.active[k].data + p.data;
      Appends(st, p.stream, p.data, !p.next, payload, Forwards(st, p), other);
    } else if p.start && p.next {
      Opens(st, p.stream, p.data, other);
    }
  }

  /** One packet, backwards, likewise. */
  lemma BackwardsActs(st: State, p: Packet, other: StreamId)
    requires PoolInv(st.pooled) && DistinctStreams(st.active)
    ensures var st', own := Backwards(st, p), Lookup(st.active, p.stream);
            && PoolInv(st'.pooled) && DistinctStreams(st'.active)
            && st'.delivered == st.delivered + (if !p.start then []
                                                else if own.Some? then [Reverse(own.value + Reverse(p.data))]
                                                else if !p.next then [p.data] else [])
            && Lookup(st'.active, other) ==
               if other == p.stream then Acted(own, Reverse(p.data), !p.next, p.start) else Lookup(st.active, other)
  {
    var k := Find(st.active, p.stream);
    if k < |st.active| {
      var payload := Reverse(st.active[k].data + Reverse(p.data));
      Appends(st, p.stream, Reverse(p.data), p.start, payload, Backwards(st, p), other);
    } else if !p.start && !p.next {
      Opens(st, p.stream, Reverse(p.data), other);
    }
  }

  datatype Call = Process(packet: Packet) | ProcessBackwards(packet: Packet)

  /** Any calls at all, in any mixture of directions, on any packets. */
  function RunCalls(calls: seq<Call>): State {
    if calls == [] then Initial()
    else
      var st, call := RunCalls(calls[..|calls| - 1]), calls[|calls| - 1];
      if call.Process? then Forwards(st, call.packet) else Backwards(st, call.packet)
  }

  /** No stream is lost before there are more than eight. */
  lemma PoolStep(st: State, p: Packet)
    requires |st.pooled| + |st.active| >= STREAM_POOL_SIZE
    ensures |Forwards(st, p).pooled| + |Forwards(st, p).active| >= STREAM_POOL_SIZE
    ensures |Backwards(st, p).pooled| + |Backwards(st, p).active| >= STREAM_POOL_SIZE
  {
  }

  /** Pooled streams are always empty and at most 8, and no id is ever active twice; eight streams at
      least are kept for use again. */
  lemma {:induction false} PoolStaysClean(calls: seq<Call>)
    ensures PoolInv(RunCalls(calls).pooled) && DistinctStreams(RunCalls(calls).active)
    ensures |RunCalls(calls).pooled| <= 8 <= |RunCalls(calls).pooled| + |RunCalls(calls).active|
  {
    if calls != [] {
      var front, call := calls[..|calls| - 1], calls[|calls| - 1];
      PoolStaysClean(front);
      PoolStep(RunCalls(front), call.packet);
      ForwardsActs(RunCalls(front), call.packet, 0);
      BackwardsActs(RunCalls(front), call.packet, 0);
    }
  }

  // ---------------------------------------------------------------- bytes

  lemma {:induction false} DataConcat(a: seq<Packet>, b: seq<Packet>)
    ensures Data(a + b) == Data(a) + Data(b)
  {
    if a == [] {
      assert a + b == b;
    } else {
      DataConcat(a[1..], b);
      assert (a + b)[0] == a[0] && (a + b)[1..] == a[1..] + b;
      Associates(a[0].data, Data(a[1..]), Data(b));
    }
  }

  lemma DataOne(p: Packet)
    ensures Data([p]) == p.data
  {
    assert [p][1..] == [] && Data([]) == [];
    assert p.data + [] == p.data;
  }

  lemma {:induction false} ReverseConcat(a: seq<Byte>, b: seq<Byte>)
    ensures Reverse(a + b) == Reverse(b) + Reverse(a)
  {
    if a == [] {
      assert a + b == b && Reverse(b) + [] == Reverse(b);
    } else {
      ReverseConcat(a[1..], b);
      assert (a + b)[0] == a[0] && (a + b)[1..] == a[1..] + b;
      Associates(Reverse(b), Reverse(a[1..]), [a[0]]);
    }
  }

  lemma {:induction false} ReverseTwice(a: seq<Byte>)
    ensures Reverse(Reverse(a)) == a
  {
    if a != [] {
      ReverseTwice(a[1..]);
      ReverseConcat(Reverse(a[1..]), [a[0]]);
      assert [a[0]][1..] == [] && Reverse([]) == [];
      assert Reverse([a[0]]) == [a[0]];
    }
  }

  // ---------------------------------------------------------------- a window grows by one packet

  lemma SubLast(window: seq<Packet>, p: Packet, id: StreamId)
    ensures Sub(window + [p], id) == if id == p.stream then Sub(window, id) + [p] else Sub(window, id)
  {
    SubConcat(window, [p], id);
    assert [p][1..] == [] && Sub([], id) == [];
  }

  lemma SubFirst(window: seq<Packet>, p: Packet, id: StreamId)
    ensures Sub([p] + window, id) == if id == p.stream then [p] + Sub(window, id) else Sub(window, id)
  {
    assert ([p] + window)[1..] == window;
  }

  lemma PrefixPieces(window: seq<Packet>, p: Packet)
    requires Pieces(window + [p])
    ensures Pieces(window)
  {
    forall id ensures Piece(Sub(window, id)) {
      var s := Sub(window + [p], id);
      SubLast(window, p, id);
      assert Piece(s);
      PrefixPiece(Sub(window, id), s);
    }
  }

  lemma PrefixPiece(s: seq<Packet>, longer: seq<Packet>)
    requires s <= longer && Piece(longer)
    ensures Piece(s)
  {
    assert forall j :: 0 <= j < |s| ==> s[j] == longer[j];
  }

  lemma SuffixPieces(window: seq<Packet>, p: Packet)
    requires Pieces([p] + window)
    ensures Pieces(window)
  {
    forall id ensures Piece(Sub(window, id)) {
      var s := Sub([p] + window, id);
      SubFirst(window, p, id);
      assert Piece(s);
      if id == p.stream {
        assert forall j :: 0 <= j < |s| - 1 ==> s[1..][j] == s[j + 1];
        assert s[1..] == Sub(window, id);
      }
    }
  }

  /** One more packet of stream `id` completes it, or completes nothing; the streams completed
      before stay as they were. */
  lemma DeliversGrows(delivered: seq<seq<Byte>>, ids: seq<StreamId>, window: seq<Packet>, id: StreamId,
                      window': seq<Packet>)
    requires Delivers(delivered, ids, window)
    requires forall other :: other != id ==> Sub(window', other) == Sub(window, other)
    requires !Whole(Sub(window, id))
    ensures Whole(Sub(window', id)) ==> Delivers(delivered + [Data(Sub(window', id))], ids + [id], window')
    ensures !Whole(Sub(window', id)) ==> Delivers(delivered, ids + [], window')
  {
    assert id !in ids;
    assert forall j :: 0 <= j < |ids| ==> ids[j] in ids;
    assert ids + [] == ids;
    forall other ensures other in ids + [id] <==> other in ids || other == id {}
  }

  /** Extending a piece at its end. */
  lemma PieceLast(s: seq<Packet>, p: Packet)
    requires Piece(s + [p])
    ensures !Whole(s) && (s != [] ==> !p.start)
    ensures Whole(s + [p]) <==> !p.next && (if s == [] then p.start else s[0].start)
    ensures s != [] ==> s[|s| - 1].next
    ensures Data(s + [p]) == Data(s) + p.data && (s == [] ==> Data(s + [p]) == p.data)
  {
    var t := s + [p];
    assert t[|s|] == p && (s != [] ==> t[0] == s[0] && t[|s| - 1] == s[|s| - 1]);
    DataConcat(s, [p]);
    DataOne(p);
    assert s == [] ==> t == [p];
  }

  lemma ForwardStep(st: State, window: seq<Packet>, p: Packet)
    requires InvForwards(st, window) && Pieces(window + [p])
    ensures InvForwards(Forwards(st, p), window + [p])
  {
    var window', st', id := window + [p], Forwards(st, p), p.stream;
    var s := Sub(window, id);
    forall other ensures Sub(window', other) == if other == id then s + [p] else Sub(window, other) {
      SubLast(window, p, other);
    }
    assert Piece(Sub(window', id));
    PieceLast(s, p);
    assert Lookup(st.active, id) == ActiveForwards(s);
    ForwardsActs(st, p, id);
    assert window'[..|window'| - 1] == window && window'[|window'| - 1] == p;
    DeliversGrows(st.delivered, CompletedForwards(window), window, id, window');
    forall other ensures Lookup(st'.active, other) == ActiveForwards(Sub(window', other)) {
      ForwardsActs(st, p, other);
    }
  }

  /** Extending a piece at its front. */
  lemma PieceFirst(s: seq<Packet>, p: Packet)
    requires Piece([p] + s)
    ensures !Whole(s) && (s != [] ==> p.next && !s[0].start)
    ensures Whole([p] + s) <==> p.start && (if s == [] then !p.next else !s[|s| - 1].next)
    ensures Data([p] + s) == p.data + Data(s) && (s == [] ==> Data([p] + s) == p.data)
    ensures Reverse(Data([p] + s)) == Reverse(Data(s)) + Reverse(p.data)
    ensures s == [] ==> Reverse(Data([p] + s)) == Reverse(p.data)
    ensures Reverse(Reverse(Data(s)) + Reverse(p.data)) == Data([p] + s)
  {
    var t := [p] + s;
    assert s != [] ==> t[1] == s[0] && t[|t| - 1] == s[|s| - 1];
    assert t[1..] == s;
    DataOne(p);
    assert s == [] ==> t == [p];
    ReverseConcat(p.data, Data(s));
    ReverseTwice(Data(t));
  }

  /** The stream's bytes after its packet p is taken, backwards. */
  lemma FirstActs(s: seq<Packet>, p: Packet)
    requires Piece([p] + s)
    ensures ActiveBackwards([p] + s) == Acted(ActiveBackwards(s), Reverse(p.data), !p.next, p.start)
    ensures Whole([p] + s) <==> p.start && (ActiveBackwards(s).Some? || !p.next)
    ensures Whole([p] + s) ==>
              Data([p] + s) == if ActiveBackwards(s).Some? then Reverse(ActiveBackwards(s).value + Reverse(p.data)) else p.data
  {
    PieceFirst(s, p);
    var t := [p] + s;
    assert s != [] ==> t[|t| - 1] == s[|s| - 1];
  }

  lemma BackwardStep(st: State, window: seq<Packet>, p: Packet)
    requires InvBackwards(st, window) && Pieces([p] + window)
    ensures InvBackwards(Backwards(st, p), [p] + window)
  {
    var window', st', id := [p] + window, Backwards(st, p), p.stream;
    var s := Sub(window, id);
    forall other ensures Sub(window', other) == if other == id then [p] + s else Sub(window, other) {
      SubFirst(window, p, other);
    }
    assert Piece(Sub(window', id)) && Lookup(st.active, id) == ActiveBackwards(s);
    PieceFirst(s, p);
    FirstActs(s, p);
    BackwardsActs(st, p, id);
    assert window'[1..] == window && window'[0] == p;
    DeliversGrows(st.delivered, CompletedBackwards(window), window, id, window');
    forall other ensures Lookup(st'.active, other) == ActiveBackwards(Sub(window', other)) {
      BackwardsActs(st, p, other);
    }
  }

  lemma InitialInv()
    ensures InvForwards(Initial(), []) && InvBackwards(Initial(), [])
  {
  }

  lemma {:induction false} ForwardsInv(window: seq<Packet>)
    requires Pieces(window)
    ensures InvForwards(RunForwards(window), window)
  {
    if window == [] {
      InitialInv();
    } else {
      var front, p := window[..|window| - 1], window[|window| - 1];
      assert window == front + [p];
      PrefixPieces(front, p);
      ForwardsInv(front);
      ForwardStep(RunForwards(front), front, p);
    }
  }

  lemma {:induction false} BackwardsInv(window: seq<Packet>)
    requires Pieces(window)
    ensures InvBackwards(RunBackwards(window), window)
  {
    if window == [] {
      InitialInv();
    } else {
      var rest, p := window[1..], window[0];
      assert window == [p] + rest;
      SuffixPieces(rest, p);
      BackwardsInv(rest);
      BackwardStep(RunBackwards(rest), rest, p);
    }
  }

  // ---------------------------------------------------------------- windows of an interleaving

  /** All the packets of the payload are in the buffer, at positions from i up to j. */
  ghost predicate LiesWithin(buffer: seq<Packet>, i: nat, j: nat, id: StreamId, payload: seq<Byte>, k: Capacity) {
    && Sub(buffer, id) == Split(id, payload, k)
    && forall n :: 0 <= n < |buffer| && buffer[n].stream == id ==> i <= n < j
  }

  /** The payloads of exactly the streams that lie within the window, once each, byte for byte. */
  ghost predicate ExactlyWithin(delivered: seq<seq<Byte>>, ids: seq<StreamId>, buffer: seq<Packet>, i: nat, j: nat,
                                payloads: map<StreamId, seq<Byte>>, k: Capacity)
  {
    && |delivered| == |ids|
    && (forall a, b :: 0 <= a < b < |ids| ==> ids[a] != ids[b])
    && (forall id :: id in ids <==> id in payloads && LiesWithin(buffer, i, j, id, payloads[id], k))
    && (forall a :: 0 <= a < |ids| ==> ids[a] in payloads && delivered[a] == payloads[ids[a]])
  }

  lemma {:induction false} SubEmpty(packets: seq<Packet>, id: StreamId)
    ensures Sub(packets, id) == [] <==> forall n :: 0 <= n < |packets| ==> packets[n].stream != id
  {
    if packets != [] {
      SubEmpty(packets[1..], id);
      assert forall n :: 1 <= n < |packets| ==> packets[n] == packets[1..][n - 1];
      assert forall n :: 0 <= n < |packets| - 1 ==> packets[1..][n] == packets[n + 1];
    }
  }

  lemma SubOfWindow(buffer: seq<Packet>, i: nat, j: nat, id: StreamId)
    requires i <= j <= |buffer|
    ensures Sub(buffer, id) == Sub(buffer[..i], id) + (Sub(buffer[i..j], id) + Sub(buffer[j..], id))
    ensures Sub(buffer[..i], id) == [] && Sub(buffer[j..], id) == []
            <==> forall n :: 0 <= n < |buffer| && buffer[n].stream == id ==> i <= n < j
  {
    assert buffer == buffer[..i] + (buffer[i..j] + buffer[j..]);
    SubConcat(buffer[..i], buffer[i..j] + buffer[j..], id);
    SubConcat(buffer[i..j], buffer[j..], id);
    SubEmpty(buffer[..i], id);
    SubEmpty(buffer[j..], id);
    Outside(buffer, i, j, id);
  }

  lemma Outside(buffer: seq<Packet>, i: nat, j: nat, id: StreamId)
    requires i <= j <= |buffer|
    ensures (forall n :: 0 <= n < |buffer[..i]| ==> buffer[..i][n].stream != id)
            && (forall n :: 0 <= n < |buffer[j..]| ==> buffer[j..][n].stream != id)
            <==> forall n :: 0 <= n < |buffer| && buffer[n].stream == id ==> i <= n < j
  {
    assert forall n :: 0 <= n < i ==> buffer[..i][n] == buffer[n];
    assert forall n :: j <= n < |buffer| ==> buffer[n] == buffer[j..][n - j];
  }

  /** A slice of the packets that carry a payload is a piece, and whole only if it is all of them. */
  lemma SliceOfCarrier(before: seq<Packet>, s: seq<Packet>, after: seq<Packet>, all: seq<Packet>, id: StreamId,
                       payload: seq<Byte>)
    requires Carries(all, id, payload) && before + (s + after) <= all
    ensures Piece(s)
    ensures Whole(s) <==> before == [] && s == all
  {
    var n := |before|;
    forall j | 0 <= j < |s| ensures s[j] == all[n + j] && Marked(all, n + j, id) {
      assert s[j] == (before + (s + after))[n + j];
    }
    if Whole(s) {
      assert s[0].start && !s[|s| - 1].next;
      assert n + |s| - 1 == |all| - 1;
      assert forall j :: 0 <= j < |s| ==> s[j] == all[j];
    }
    if before == [] && s == all {
      assert Marked(all, 0, id) && Marked(all, |all| - 1, id);
    }
  }

  lemma WindowOfStream(buffer: seq<Packet>, i: nat, j: nat, id: StreamId, payloads: map<StreamId, seq<Byte>>, k: Capacity)
    requires Interleaving(buffer, payloads, k) && i <= j <= |buffer|
    ensures Piece(Sub(buffer[i..j], id))
    ensures Whole(Sub(buffer[i..j], id)) <==> id in payloads && LiesWithin(buffer, i, j, id, payloads[id], k)
    ensures Whole(Sub(buffer[i..j], id)) ==> Data(Sub(buffer[i..j], id)) == payloads[id]
  {
    var before, s, after := Sub(buffer[..i], id), Sub(buffer[i..j], id), Sub(buffer[j..], id);
    SubOfWindow(buffer, i, j, id);
    assert Follows(buffer, payloads, k, id);
    if id in payloads {
      var all := Split(id, payloads[id], k);
      SplitCarries(id, payloads[id], k);
      SliceOfCarrier(before, s, after, all, id, payloads[id]);
      SliceIsAll(before, s, after, all);
    }
  }

  lemma SliceIsAll(before: seq<Packet>, s: seq<Packet>, after: seq<Packet>, all: seq<Packet>)
    requires before + (s + after) <= all
    ensures before == [] && s == all <==> before == [] && after == [] && before + (s + after) == all
  {
    if before == [] {
      assert before + (s + after) == s + after;
    }
  }

  lemma WindowDelivers(delivered: seq<seq<Byte>>, ids: seq<StreamId>, buffer: seq<Packet>, i: nat, j: nat,
                       payloads: map<StreamId, seq<Byte>>, k: Capacity)
    requires Interleaving(buffer, payloads, k) && i <= j <= |buffer|
    requires Delivers(delivered, ids, buffer[i..j])
    ensures ExactlyWithin(delivered, ids, buffer, i, j, payloads, k)
  {
    forall id ensures id in ids <==> id in payloads && LiesWithin(buffer, i, j, id, payloads[id], k) {
      WindowOfStream(buffer, i, j, id, payloads, k);
    }
    forall a | 0 <= a < |ids| ensures ids[a] in payloads && delivered[a] == payloads[ids[a]] {
      assert ids[a] in ids;
      WindowOfStream(buffer, i, j, ids[a], payloads, k);
    }
  }

  /** Reading any window of any interleaving, in either direction, delivers exactly the payloads
      that lie wholly within it; streams cut by the window's edges are dropped. The two
      directions differ only in order. */
  lemma ReassemblyIsExact(buffer: seq<Packet>, i: nat, j: nat, payloads: map<StreamId, seq<Byte>>, k: Capacity)
    requires Interleaving(buffer, payloads, k) && i <= j <= |buffer|
    ensures var window := buffer[i..j];
            && ExactlyWithin(RunForwards(window).delivered, CompletedForwards(window), buffer, i, j, payloads, k)
            && ExactlyWithin(RunBackwards(window).delivered, CompletedBackwards(window), buffer, i, j, payloads, k)
            && PoolInv(RunForwards(window).pooled) && PoolInv(RunBackwards(window).pooled)
  {
    var window := buffer[i..j];
    forall id ensures Piece(Sub(window, id)) {
      WindowOfStream(buffer, i, j, id, payloads, k);
    }
    ForwardsInv(window);
    BackwardsInv(window);
    WindowDelivers(RunForwards(window).delivered, CompletedForwards(window), buffer, i, j, payloads, k);
    WindowDelivers(RunBackwards(window).delivered, CompletedBackwards(window), buffer, i, j, payloads, k);
  }
}
