/** From loggers to importer: the stages of the trace pipeline composed. */
module EndToEnd {
  import opened Words
  import opened Entries
  import opened Packets
  import opened Reassembly
  import opened Visitors
  import opened Lifecycle

  /** The payload is the entry as pack writes it, its type code within the byte it is stored in. */
  ghost predicate Packs(payload: seq<Byte>, e: Entry) {
    Sized(e) && HoldsEntry(payload, e) && 0 <= e.kind < 256
  }

  /** What the writers logged, stream by stream. */
  ghost predicate Logged(payloads: map<StreamId, seq<Byte>>, entries: map<StreamId, Entry>) {
    payloads.Keys == entries.Keys && forall id <- payloads :: Packs(payloads[id], entries[id])
  }

  function EntriesOf(ids: seq<StreamId>, entries: map<StreamId, Entry>): (es: seq<Entry>)
    requires forall a :: 0 <= a < |ids| ==> ids[a] in entries
    ensures |es| == |ids|
  {
    seq(|ids|, a requires 0 <= a < |ids| => entries[ids[a]])
  }

  function Visits(es: seq<Entry>): (items: seq<Parsed>)
    ensures |items| == |es|
  {
    seq(|es|, a requires 0 <= a < |es| => Visit(es[a]))
  }

  /** The streams are exactly those with all their packets between i and j, once each. */
  ghost predicate ExactlyTheStreams(ids: seq<StreamId>, buffer: seq<Packet>, i: nat, j: nat,
                                    payloads: map<StreamId, seq<Byte>>, k: Capacity)
  {
    && (forall a, b :: 0 <= a < b < |ids| ==> ids[a] != ids[b])
    && (forall a :: 0 <= a < |ids| ==> ids[a] in payloads)
    && (forall id :: id in ids <==> id in payloads && LiesWithin(buffer, i, j, id, payloads[id], k))
  }

  /** The reader sees exactly the entries whose packets all lie in its window, once each. */
  lemma ReaderSeesTheWindow(buffer: seq<Packet>, i: nat, j: nat, payloads: map<StreamId, seq<Byte>>, k: Capacity,
                            entries: map<StreamId, Entry>)
    requires Interleaving(buffer, payloads, k) && i <= j <= |buffer| && Logged(payloads, entries)
    ensures var window := buffer[i..j];
            var ids := CompletedForwards(window);
            && ExactlyTheStreams(ids, buffer, i, j, payloads, k)
            && ParseAll(RunForwards(window).delivered) == Visits(EntriesOf(ids, entries))
  {
    var window := buffer[i..j];
    var ids, delivered := CompletedForwards(window), RunForwards(window).delivered;
    ReassemblyIsExact(buffer, i, j, payloads, k);
    forall a | 0 <= a < |ids| ensures Parse(delivered[a]) == Visit(entries[ids[a]]) {
      assert ids[a] in payloads && delivered[a] == payloads[ids[a]];
      assert Packs(payloads[ids[a]], entries[ids[a]]);
      ParseUndoesPack(entries[ids[a]], delivered[a]);
    }
  }

  /** The visitors cannot write some entry inside the trace's window: its stack is too deep, or its
      type has no name. */
  ghost predicate UnwritableInside(es: seq<Entry>, trace: Int64) {
    var items := Visits(es);
    exists a :: OpensAt(items, trace) < a < ClosesAt(items, trace) && (TooDeep(es[a]) || !Prints(es[a]))
  }

  lemma CleanUnlessUnwritable(es: seq<Entry>, trace: Int64)
    ensures var items := Visits(es); Clean(items, trace, ClosesAt(items, trace)) <==> !UnwritableInside(es, trace)
  {
    var items := Visits(es);
    var t := ClosesAt(items, trace);
    if UnwritableInside(es, trace) {
      var a :| OpensAt(items, trace) < a < t && (TooDeep(es[a]) || !Prints(es[a]));
      assert Bad(items, trace, a);
    } else {
      forall a | 0 <= a < t ensures !Bad(items, trace, a) {
        assert items[a].entry == es[a];
      }
    }
  }

  /** What processTrace leaves when it has seen these entries: the state read off the positions
      of the trace's lifecycle entries, and a file that the importer reads back to its meaning if
      and only if every entry in it is of the kind its type's name says. */
  ghost predicate Leaves(o: Owner, es: seq<Entry>, r: Run) {
    && (r.threw <==> UnwritableInside(es, o.trace))
    && (!r.threw ==> r.life == Over(Visits(es), o))
    && forall f <- r.life.closed :: ReadsBack(f) <==> AllTyped(f)
  }

  lemma LeavesTheWindow(o: Owner, es: seq<Entry>)
    ensures Leaves(o, es, Concluded(RunItems(o, Visits(es)), o))
  {
    LifecycleIsExact(o, Visits(es));
    CleanUnlessUnwritable(es, o.trace);
    var r := Concluded(RunItems(o, Visits(es)), o);
    forall f | f in r.life.closed ensures ReadsBack(f) <==> AllTyped(f) {
      ImporterUndoesPipeline(f);
    }
  }

  /** The whole path. Writers log entries concurrently; a reader follows the buffer from i until
      it misses an event at j. Unless something inside the window cannot be written, what it leaves
      is determined by the entries alone: the callbacks, and a file from which the importer, if
      every entry is of the kind its type's name says, recovers the meaning of exactly this
      trace's window. */
  lemma TraceSurvives(states: seq<Writers>, actions: seq<WriterAction>, k: Capacity, n: nat,
                      entries: map<StreamId, Entry>, i: nat, j: nat, o: Owner)
    requires IsRun(states, actions, k) && n < |states|
    requires i <= j <= |states[n].buffer| && Logged(states[n].payloads, entries)
    ensures var w := states[n];
            var ids := CompletedForwards(w.buffer[i..j]);
            && ExactlyTheStreams(ids, w.buffer, i, j, w.payloads, k)
            && Leaves(o, EntriesOf(ids, entries), Concluded(RunPackets(o, w.buffer[i..j]), o))
  {
    var w := states[n];
    WritersInterleave(states, actions, k, n);
    ReaderSeesTheWindow(w.buffer, i, j, w.payloads, k, entries);
    LeavesTheWindow(o, EntriesOf(CompletedForwards(w.buffer[i..j]), entries));
  }
}
