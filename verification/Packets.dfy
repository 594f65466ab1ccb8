/** Splitting payloads into packets: cpp/logger/PacketLogger.cpp. */
module Packets {
  import opened Words

  type StreamId = x: int | 0 <= x < 0x1_0000_0000

  datatype Packet = Packet(stream: StreamId, start: bool, next: bool, data: seq<Byte>)

  /** sizeof(Packet::data); 52 in cpp/logger/buffer/Packet.h. A packet's size is counted in a uint8_t. */
  type Capacity = k: int | 1 <= k < 0x100 witness 52

  function Min(a: int, b: int): int {
    if a < b then a else b
  }

  /** The packets that carry payload[offset..]. */
  function SplitFrom(id: StreamId, payload: seq<Byte>, offset: nat, k: Capacity): seq<Packet>
    decreases |payload| - offset
  {
    if offset >= |payload| then []
    else
      var remaining := |payload| - offset;
      var size := Min(k, remaining);
      [Packet(id, offset == 0, remaining > k, payload[offset..offset + size])] + SplitFrom(id, payload, offset + size, k)
  }

  function Split(id: StreamId, payload: seq<Byte>, k: Capacity): seq<Packet> {
    SplitFrom(id, payload, 0, k)
  }

  function Data(packets: seq<Packet>): seq<Byte> {
    if packets == [] then [] else packets[0].data + Data(packets[1..])
  }

  /** What a reader of the packets relies on: the first packet alone is marked start, the last
      alone has no next, and the data add up to the payload. */
  ghost predicate Carries(packets: seq<Packet>, id: StreamId, payload: seq<Byte>) {
    && |packets| > 0
    && Data(packets) == payload
    && forall j :: 0 <= j < |packets| ==> Marked(packets, j, id)
  }

  predicate Marked(packets: seq<Packet>, j: nat, id: StreamId)
    requires j < |packets|
  {
    packets[j].stream == id && (packets[j].start <==> j == 0) && (packets[j].next <==> j < |packets| - 1)
  }

  /** Only the last packet may be less than full. */
  predicate Filled(packet: Packet, k: Capacity) {
    0 < |packet.data| <= k && (packet.next ==> |packet.data| == k)
  }

  lemma {:induction false} SplitFromCarries(id: StreamId, payload: seq<Byte>, offset: nat, k: Capacity)
    requires offset < |payload|
    ensures var ps := SplitFrom(id, payload, offset, k);
            && |ps| > 0 && Data(ps) == payload[offset..]
            && (forall j :: 0 <= j < |ps| ==> ps[j].stream == id && (ps[j].start <==> j == 0 && offset == 0))
            && (forall j :: 0 <= j < |ps| ==> (ps[j].next <==> j < |ps| - 1) && Filled(ps[j], k))
    decreases |payload| - offset
  {
    var ps := SplitFrom(id, payload, offset, k);
    var size := Min(k, |payload| - offset);
    var rest := SplitFrom(id, payload, offset + size, k);
    assert ps[1..] == rest;
    if offset + size < |payload| {
      SplitFromCarries(id, payload, offset + size, k);
      assert payload[offset..] == payload[offset..offset + size] + payload[offset + size..];
      forall j | 0 <= j < |ps|
        ensures ps[j].stream == id && (ps[j].start <==> j == 0 && offset == 0)
        ensures (ps[j].next <==> j < |ps| - 1) && Filled(ps[j], k)
      {
        if j > 0 {
          assert ps[j] == rest[j - 1];
        }
      }
    } else {
      assert rest == [] && Data(rest) == [];
      assert payload[offset..] == payload[offset..offset + size];
    }
  }

  /** Every nonempty payload is carried, in packets none of which is empty or too large, and all of
      which but the last are full. */
  lemma SplitCarries(id: StreamId, payload: seq<Byte>, k: Capacity)
    requires payload != []
    ensures Carries(Split(id, payload, k), id, payload)
    ensures forall j :: 0 <= j < |Split(id, payload, k)| ==> Filled(Split(id, payload, k)[j], k)
  {
    SplitFromCarries(id, payload, 0, k);
    assert payload[0..] == payload;
  }

  lemma SentOne(before: seq<Packet>, sent: seq<Packet>, p: Packet, rest: seq<Packet>)
    ensures (before + sent) + [p] == before + (sent + [p])
    ensures sent + ([p] + rest) == (sent + [p]) + rest
  {
  }

  /** PacketLogger over the buffer it writes to. */
  class PacketLogger {
    const capacity: Capacity
    var streamId: StreamId
    var buffer: seq<Packet>

    constructor (capacity: Capacity)
      ensures this.capacity == capacity && streamId == 0 && buffer == []
    {
      this.capacity := capacity;
      streamId := 0;
      buffer := [];
    }

    /** writeAndGetCursor. An empty payload is refused; otherwise the payload goes out as its
        packets under a fresh stream id, and the cursor is at the first of them. */
    method Write(payload: seq<Byte>) returns (ok: bool, cursor: nat)
      modifies this
      ensures ok <==> payload != []
      ensures !ok ==> buffer == old(buffer) && streamId == old(streamId)
      ensures ok ==> buffer == old(buffer) + Split(old(streamId), payload, capacity)
      ensures ok ==> cursor == |old(buffer)| && cursor < |buffer| && buffer[cursor].start
      ensures ok ==> streamId == (old(streamId) + 1) % TWO_32
    {
      ok, cursor := false, |buffer|;
      if |payload| == 0 {
        return;
      }
      var id := streamId;
      streamId := (streamId + 1) % TWO_32;
      var offset := 0;
      ghost var before, all := buffer, Split(id, payload, capacity);
      ghost var sent: seq<Packet> := [];
      while offset < |payload|
        invariant 0 <= offset <= |payload|
        invariant buffer == before + sent && streamId == (id + 1) % TWO_32
        invariant all == sent + SplitFrom(id, payload, offset, capacity)
        invariant offset == 0 <==> sent == []
        invariant sent != [] ==> sent[0].start
      {
        var remaining := |payload| - offset;
        var hasNext := remaining > capacity;
        var size := Min(capacity, remaining);
        var packet := Packet(id, offset == 0, hasNext, payload[offset..offset + size]);
        SentOne(before, sent, packet, SplitFrom(id, payload, offset + size, capacity));
        buffer := buffer + [packet];
        sent := sent + [packet];
        offset := offset + size;
      }
      ok := true;
    }
  }

  // ---------------------------------------------------------------- concurrent writers

  /** The packets of one stream, in order. */
  function Sub(packets: seq<Packet>, id: StreamId): seq<Packet> {
    if packets == [] then []
    else if packets[0].stream == id then [packets[0]] + Sub(packets[1..], id)
    else Sub(packets[1..], id)
  }

  lemma {:induction false} SubConcat(a: seq<Packet>, b: seq<Packet>, id: StreamId)
    ensures Sub(a + b, id) == Sub(a, id) + Sub(b, id)
  {
    if a == [] {
      assert a + b == b;
    } else {
      SubConcat(a[1..], b, id);
      assert (a + b)[1..] == a[1..] + b;
    }
  }

  /** A buffer shared by writers, each with its own stream: every stream's packets are there in
      order, from the first one on. A writer may not have written all of its packets yet. */
  ghost predicate Interleaving(buffer: seq<Packet>, payloads: map<StreamId, seq<Byte>>, k: Capacity) {
    && (forall id <- payloads :: payloads[id] != [])
    && forall id :: Follows(buffer, payloads, k, id)
  }

  ghost predicate Follows(buffer: seq<Packet>, payloads: map<StreamId, seq<Byte>>, k: Capacity, id: StreamId) {
    if id in payloads then Sub(buffer, id) <= Split(id, payloads[id], k) else Sub(buffer, id) == []
  }

  /** Writers running at once: `next` is streamID_, `pending` what each writer has still to put. */
  datatype Writers = Writers(next: nat, pending: map<StreamId, seq<Packet>>, buffer: seq<Packet>,
                             payloads: map<StreamId, seq<Byte>>)

  datatype WriterAction = Begin(payload: seq<Byte>) | Put(id: StreamId)

  const Idle: Writers := Writers(0, map[], [], map[])

  predicate Enabled(w: Writers, a: WriterAction) {
    match a
    case Begin(payload) => payload != [] && w.next < TWO_32
    case Put(id) => id in w.pending && w.pending[id] != []
  }

  function Apply(w: Writers, a: WriterAction, k: Capacity): Writers
    requires Enabled(w, a)
  {
    match a
    case Begin(payload) =>
      Writers(w.next + 1, w.pending[w.next := Split(w.next, payload, k)], w.buffer, w.payloads[w.next := payload])
    case Put(id) =>
      w.(pending := w.pending[id := w.pending[id][1..]], buffer := w.buffer + [w.pending[id][0]])
  }

  ghost predicate WritersInv(w: Writers, k: Capacity) {
    && w.pending.Keys == w.payloads.Keys
    && (forall id <- w.payloads :: w.payloads[id] != [])
    && (forall id <- w.payloads :: id < w.next)
    && (forall id :: Owed(w, k, id))
  }

  ghost predicate Owed(w: Writers, k: Capacity, id: StreamId) {
    if id in w.payloads && id in w.pending
    then Sub(w.buffer, id) + w.pending[id] == Split(id, w.payloads[id], k)
    else Sub(w.buffer, id) == []
  }

  ghost predicate IsRun(states: seq<Writers>, actions: seq<WriterAction>, k: Capacity) {
    && |states| == |actions| + 1
    && states[0] == Idle
    && forall j {:trigger actions[j]} :: 0 <= j < |actions| ==>
         Enabled(states[j], actions[j]) && states[j + 1] == Apply(states[j], actions[j], k)
  }

  lemma OwedPut(w: Writers, id: StreamId, w': Writers, k: Capacity, other: StreamId)
    requires WritersInv(w, k) && Enabled(w, Put(id)) && w' == Apply(w, Put(id), k)
    ensures Owed(w', k, other)
  {
    var p := w.pending[id][0];
    assert Owed(w, k, id) && Owed(w, k, other);
    assert p.stream == id by {
      var all := Split(id, w.payloads[id], k);
      SplitCarries(id, w.payloads[id], k);
      assert p == all[|Sub(w.buffer, id)|];
      assert Marked(all, |Sub(w.buffer, id)|, id);
    }
    SubConcat(w.buffer, [p], other);
    assert Sub([p], other) == if p.stream == other then [p] else [] by {
      assert Sub([], other) == [];
    }
    assert w.pending[id] == [p] + w.pending[id][1..];
    assert other != id ==> w'.pending.Keys == w.pending.Keys;
    if other == id {
      assert (Sub(w.buffer, id) + [p]) + w.pending[id][1..] == Sub(w.buffer, id) + w.pending[id];
    }
  }

  lemma StepInv(w: Writers, a: WriterAction, w': Writers, k: Capacity)
    requires WritersInv(w, k) && Enabled(w, a) && w' == Apply(w, a, k)
    ensures WritersInv(w', k)
  {
    match a
    case Begin(payload) =>
      forall id ensures Owed(w', k, id) {
        assert Owed(w, k, id);
      }
    case Put(id) =>
      forall other ensures Owed(w', k, other) {
        OwedPut(w, id, w', k, other);
      }
  }

  lemma {:induction false} RunInv(states: seq<Writers>, actions: seq<WriterAction>, k: Capacity, n: nat)
    requires IsRun(states, actions, k) && n < |states|
    ensures WritersInv(states[n], k)
  {
    if n > 0 {
      RunInv(states, actions, k, n - 1);
      StepInv(states[n - 1], actions[n - 1], states[n], k);
    }
  }

  /** Whatever the writers' interleaving, until the stream ids wrap the buffer is one. */
  lemma WritersInterleave(states: seq<Writers>, actions: seq<WriterAction>, k: Capacity, n: nat)
    requires IsRun(states, actions, k) && n < |states|
    ensures Interleaving(states[n].buffer, states[n].payloads, k)
  {
    var w := states[n];
    RunInv(states, actions, k, n);
    forall id ensures Follows(w.buffer, w.payloads, k, id) {
      assert Owed(w, k, id);
    }
  }
}
