/**
 The stack-slot protocol of cpp/profiler/SamplingProfiler.cpp as interleaved steps.

 Threads run profiling handlers, which nest when the signal arrives again on the same thread; a
 fault inside a collect call runs FaultHandler, which jumps back to the handler that owns the
 most recent slot of the thread; one logger flushes published slots. Every access to a state word,
 every stamp and every jump is one step; so is a handler's run of plain stores into a slot it owns,
 and the logger's run of plain loads from a published slot, which `PublishedUntouched` shows
 nobody changes meanwhile.
 */
module Slots {

  type Tid = nat

  const MAX_STACKS_COUNT: nat := 24

  // StackCollectionRetcode (cpp/api/ExternalApiGlue.h) and StackSlotState.
  const SIGNAL_INTERRUPT: nat := 4
  const TRACER_DISABLED: nat := 6
  const IGNORE: nat := 7
  const MAXVAL: nat := 12
  const FREE: nat := 13
  const BUSY: nat := 14
  const BUSY_WITH_METADATA: nat := 15

  /** The atomic state word, `(tid << 16) | code`; a free slot carries no tid. */
  datatype Word = Word(tid: Tid, code: nat)

  const FREE_WORD := Word(0, FREE)

  function Packed(w: Word): nat {
    w.tid * 0x1_0000 + w.code
  }

  /** Comparing packed words is comparing tid and code. */
  lemma PackingIsInjective(v: Word, w: Word)
    requires v.code < 0x1_0000 && w.code < 0x1_0000
    ensures Packed(v) == Packed(w) <==> v == w
  {
  }

  /** What a handler leaves in a slot for the logger. */
  datatype Sample = Sample(word: Word, time: int, frames: seq<int>, profilerType: int, timerType: int)

  /** `env` is the jump buffer: which handler of the owning thread's stack it returns to.
      `sample` only records which publication the slot holds. */
  datatype Slot = Slot(
    word: Word,
    time: int,
    frames: seq<int>,
    profilerType: int,
    timerType: int,
    env: nat,
    sample: nat)

  function Contents(s: Slot): Sample {
    Sample(s.word, s.time, s.frames, s.profilerType, s.timerType)
  }

  /** One handler on a thread's stack. */
  datatype Frame =
    | Between                                   // UnwindStackHandler, at the top of the tracer loop
    | Scanning(start: nat, i: nat)              // getSlotIndex, before the i-th compare-and-exchange
    | Claimed(slot: nat)                        // FREE -> BUSY done, before the metadata
    | Timed(slot: nat)                          // before BUSY -> BUSY_WITH_METADATA
    | Ready(slot: nat)                          // before sigsetjmp
    | Collecting(slot: nat)                     // after sigsetjmp, inside the collect call
    | Collected(slot: nat, ret: nat)            // before the types are written
    | Typed(slot: nat, ret: nat)                // before the final compare-and-exchange
    | Crashed(slot: nat)                        // back through the jump buffer
    | CrashTimed(slot: nat)                     // before BUSY_WITH_METADATA -> SIGNAL_INTERRUPT
    | Faulting(i: nat, maxTime: int, maxIdx: int)  // FaultHandler, before looking at slot i

  datatype LoggerPc =
    | At(i: nat)
    | Reading(i: nat, word: Word)
    | Releasing(i: nat, word: Word, copy: Sample)

  datatype Release = Release(sample: nat, copy: Sample)

  datatype State = State(
    slots: seq<Slot>,
    threads: map<Tid, seq<Frame>>,
    clock: int,
    currentSlot: nat,
    logger: LoggerPc,
    aborted: bool,
    published: seq<Sample>,
    released: seq<Release>)

  datatype Action =
    | Deliver(tid: Tid)                         // the profiling signal arrives
    | EndHandler(tid: Tid)
    | BeginTracer(tid: Tid)
    | TryClaim(tid: Tid)
    | Stamp(tid: Tid)
    | MarkReady(tid: Tid)                       // BUSY -> BUSY_WITH_METADATA
    | SetJump(tid: Tid)                         // sigsetjmp
    | WriteFrames(tid: Tid, frames: seq<int>)
    | EndCollect(tid: Tid, ret: nat)
    | WriteTypes(tid: Tid, profiler: int, timer: int)
    | Publish(tid: Tid)
    | Fault(tid: Tid)
    | LookAt(tid: Tid)
    | Jump(tid: Tid)
    | CrashStamp(tid: Tid, profiler: int)
    | CrashPublish(tid: Tid)
    | LogLoad
    | LogCopy
    | LogRelease

  predicate IsLoggerStep(a: Action) {
    a.LogLoad? || a.LogCopy? || a.LogRelease?
  }

  // ---------------------------------------------------------------- handler steps

  function Top(stack: seq<Frame>): Frame
    requires stack != []
  {
    stack[|stack| - 1]
  }

  function Replace(stack: seq<Frame>, fr: Frame): seq<Frame>
    requires stack != []
  {
    stack[|stack| - 1 := fr]
  }

  /** currentSlot is a wrapping uint32_t. */
  function Probe(start: nat, i: nat): nat {
    (start + i) % 0x1_0000_0000 % MAX_STACKS_COUNT
  }

  predicate HandlerEnabled(st: State, a: Action)
    requires !IsLoggerStep(a)
  {
    if a.Deliver? then true else
    |st.slots| == MAX_STACKS_COUNT && a.tid in st.threads && st.threads[a.tid] != [] &&
    var fr := Top(st.threads[a.tid]);
    (HasSlot(fr) ==> fr.slot < MAX_STACKS_COUNT) &&
    match a
    case EndHandler(_) => fr.Between?
    case BeginTracer(_) => fr.Between?
    case TryClaim(_) => fr.Scanning? && fr.i < MAX_STACKS_COUNT
    case Stamp(_) => fr.Claimed?
    case MarkReady(_) => fr.Timed?
    case SetJump(_) => fr.Ready?
    case WriteFrames(_, _) => fr.Collecting?
    case EndCollect(_, ret) => fr.Collecting? && ret < MAXVAL
    case WriteTypes(_, _, _) => fr.Collected?
    case Publish(_) => fr.Typed?
    case Fault(_) => fr.Collecting?
    case LookAt(_) => fr.Faulting? && fr.i < MAX_STACKS_COUNT
    case Jump(_) =>
      fr.Faulting? && fr.i == MAX_STACKS_COUNT &&
      (0 <= fr.maxIdx ==> fr.maxIdx < MAX_STACKS_COUNT && st.slots[fr.maxIdx].env < |st.threads[a.tid]|)
    case CrashStamp(_, _) => fr.Crashed?
    case CrashPublish(_) => fr.CrashTimed?
  }

  /** A compare-and-exchange by the top handler of `tid` that the code insists must succeed. */
  function MustSwap(st: State, tid: Tid, slot: nat, expected: Word, desired: Word, fr: Frame): State
    requires slot < |st.slots| && tid in st.threads && st.threads[tid] != []
  {
    if st.slots[slot].word != expected then st.(aborted := true)
    else
      var s := st.slots[slot].(word := desired);
      var publishes := desired.code < MAXVAL;
      var s' := if publishes then s.(sample := |st.published|) else s;
      st.(slots := st.slots[slot := s'],
          threads := st.threads[tid := Replace(st.threads[tid], fr)],
          published := if publishes then st.published + [Contents(s')] else st.published)
  }

  function HandlerApply(st: State, a: Action): State
    requires !IsLoggerStep(a) && HandlerEnabled(st, a)
  {
    if a.Deliver? then
      st.(threads := st.threads[a.tid := (if a.tid in st.threads then st.threads[a.tid] else []) + [Between]])
    else
      var tid := a.tid;
      var stack := st.threads[tid];
      var fr := Top(stack);
      match a
      case EndHandler(_) => st.(threads := st.threads[tid := stack[..|stack| - 1]])
      case BeginTracer(_) =>
        st.(currentSlot := (st.currentSlot + 1) % 0x1_0000_0000,
            threads := st.threads[tid := Replace(stack, Scanning(st.currentSlot, 0))])
      case TryClaim(_) =>
        var s := Probe(fr.start, fr.i);
        if st.slots[s].word == FREE_WORD then
          st.(slots := st.slots[s := st.slots[s].(word := Word(tid, BUSY))],
              threads := st.threads[tid := Replace(stack, Claimed(s))])
        else if fr.i + 1 < MAX_STACKS_COUNT then
          st.(threads := st.threads[tid := Replace(stack, Scanning(fr.start, fr.i + 1))])
        else
          st.(threads := st.threads[tid := stack[..|stack| - 1]])
      case Stamp(_) =>
        st.(slots := st.slots[fr.slot := st.slots[fr.slot].(time := st.clock)], clock := st.clock + 1,
            threads := st.threads[tid := Replace(stack, Timed(fr.slot))])
      case MarkReady(_) =>
        MustSwap(st, tid, fr.slot, Word(tid, BUSY), Word(tid, BUSY_WITH_METADATA), Ready(fr.slot))
      case SetJump(_) =>
        st.(slots := st.slots[fr.slot := st.slots[fr.slot].(env := |stack| - 1)],
            threads := st.threads[tid := Replace(stack, Collecting(fr.slot))])
      case WriteFrames(_, frames) =>
        st.(slots := st.slots[fr.slot := st.slots[fr.slot].(frames := frames)])
      case EndCollect(_, ret) => st.(threads := st.threads[tid := Replace(stack, Collected(fr.slot, ret))])
      case WriteTypes(_, profiler, timer) =>
        st.(slots := st.slots[fr.slot := st.slots[fr.slot].(profilerType := profiler, timerType := timer)],
            threads := st.threads[tid := Replace(stack, Typed(fr.slot, fr.ret))])
      case Publish(_) =>
        var desired := if fr.ret == TRACER_DISABLED || fr.ret == IGNORE then FREE_WORD else Word(tid, fr.ret);
        MustSwap(st, tid, fr.slot, Word(tid, BUSY_WITH_METADATA), desired, Between)
      case Fault(_) => st.(threads := st.threads[tid := stack + [Faulting(0, -1, -1)]])
      case LookAt(_) =>
        var s := st.slots[fr.i];
        if s.word == Word(tid, BUSY_WITH_METADATA) && s.time > fr.maxTime then
          st.(threads := st.threads[tid := Replace(stack, Faulting(fr.i + 1, s.time, fr.i))])
        else
          st.(threads := st.threads[tid := Replace(stack, fr.(i := fr.i + 1))])
      case Jump(_) =>
        if fr.maxIdx < 0 then st.(threads := st.threads[tid := stack[..|stack| - 1]])
        else st.(threads := st.threads[tid := stack[..st.slots[fr.maxIdx].env] + [Crashed(fr.maxIdx)]])
      case CrashStamp(_, profiler) =>
        st.(slots := st.slots[fr.slot := st.slots[fr.slot].(time := st.clock, profilerType := profiler)],
            clock := st.clock + 1,
            threads := st.threads[tid := Replace(stack, CrashTimed(fr.slot))])
      case CrashPublish(_) =>
        MustSwap(st, tid, fr.slot, Word(tid, BUSY_WITH_METADATA), Word(tid, SIGNAL_INTERRUPT), Between)
  }

  // ---------------------------------------------------------------- logger steps

  predicate LoggerEnabled(st: State, a: Action)
    requires IsLoggerStep(a)
  {
    && |st.slots| == MAX_STACKS_COUNT && st.logger.i < MAX_STACKS_COUNT
    && (a.LogLoad? ==> st.logger.At?) && (a.LogCopy? ==> st.logger.Reading?) && (a.LogRelease? ==> st.logger.Releasing?)
  }

  function NextSlot(i: nat): LoggerPc {
    At(if i + 1 < MAX_STACKS_COUNT then i + 1 else 0)
  }

  function LoggerApply(st: State, a: Action): State
    requires IsLoggerStep(a) && LoggerEnabled(st, a)
  {
    var i := st.logger.i;
    match a
    case LogLoad =>
      var w := st.slots[i].word;
      if w.code == FREE || w.code == BUSY || w.code == BUSY_WITH_METADATA then st.(logger := NextSlot(i))
      else st.(logger := Reading(i, w))
    case LogCopy => st.(logger := Releasing(i, st.logger.word, Contents(st.slots[i])))
    case LogRelease =>
      if st.slots[i].word != st.logger.word then st.(aborted := true)
      else st.(slots := st.slots[i := st.slots[i].(word := FREE_WORD)], logger := NextSlot(i),
               released := st.released + [Release(st.slots[i].sample, st.logger.copy)])
  }

  predicate Enabled(st: State, a: Action) {
    !st.aborted && if IsLoggerStep(a) then LoggerEnabled(st, a) else HandlerEnabled(st, a)
  }

  function Apply(st: State, a: Action): State
    requires Enabled(st, a)
  {
    if IsLoggerStep(a) then LoggerApply(st, a) else HandlerApply(st, a)
  }

  ghost predicate Init(st: State) {
    && |st.slots| == MAX_STACKS_COUNT && (forall s :: 0 <= s < MAX_STACKS_COUNT ==> st.slots[s].word == FREE_WORD)
    && st.threads == map[] && st.clock >= 0 && st.logger == At(0) && !st.aborted
    && st.published == [] && st.released == []
  }

  ghost predicate IsRun(states: seq<State>, actions: seq<Action>) {
    && |states| == |actions| + 1
    && Init(states[0])
    && forall k {:trigger actions[k]} :: 0 <= k < |actions| ==>
         Enabled(states[k], actions[k]) && states[k + 1] == Apply(states[k], actions[k])
  }

  // ---------------------------------------------------------------- invariant

  predicate HasSlot(fr: Frame) {
    fr.Claimed? || fr.Timed? || HasMetadata(fr)
  }

  predicate HasMetadata(fr: Frame) {
    fr.Ready? || HasJump(fr)
  }

  /** The jump buffer of the handler's slot leads back to it. */
  predicate HasJump(fr: Frame) {
    fr.Collecting? || fr.Collected? || fr.Typed? || fr.Crashed? || fr.CrashTimed?
  }

  function HeldCode(fr: Frame): nat {
    if HasMetadata(fr) then BUSY_WITH_METADATA else BUSY
  }

  /** The slot's time is the stamp of this handler. */
  predicate Stamped(fr: Frame) {
    HasSlot(fr) && !fr.Claimed?
  }

  ghost predicate FrameOk(st: State, tid: Tid, stack: seq<Frame>, f: nat)
    requires |st.slots| == MAX_STACKS_COUNT && f < |stack|
  {
    var fr := stack[f];
    && (HasSlot(fr) ==> fr.slot < MAX_STACKS_COUNT && st.slots[fr.slot].word == Word(tid, HeldCode(fr)))
    && (Stamped(fr) ==> 0 <= st.slots[fr.slot].time < st.clock)
    && (HasJump(fr) ==> st.slots[fr.slot].env == f)
    && (fr.Collected? || fr.Typed? ==> fr.ret < MAXVAL)
    && (fr.Faulting? ==> fr.i <= MAX_STACKS_COUNT && f > 0 && stack[f - 1].Collecting? && ScanOk(st, stack, f, fr))
  }

  /** FaultHandler has the latest time among the slots below `i` held with metadata by the
      handlers underneath it. */
  ghost predicate ScanOk(st: State, stack: seq<Frame>, f: nat, fr: Frame)
    requires |st.slots| == MAX_STACKS_COUNT && f < |stack| && fr.Faulting?
  {
    && (fr.maxIdx < 0 ==> fr.maxTime == -1)
    && (forall g :: 0 <= g < f && HasMetadata(stack[g]) && stack[g].slot < fr.i && stack[g].slot < MAX_STACKS_COUNT ==>
          0 <= fr.maxIdx && st.slots[stack[g].slot].time <= fr.maxTime)
    && (0 <= fr.maxIdx ==> exists g :: 0 <= g < f && Winner(st, stack[g], fr))
  }

  ghost predicate Winner(st: State, low: Frame, fr: Frame)
    requires |st.slots| == MAX_STACKS_COUNT && fr.Faulting?
  {
    HasMetadata(low) && low.slot == fr.maxIdx && low.slot < MAX_STACKS_COUNT && st.slots[low.slot].time == fr.maxTime
  }

  /** Handlers of one thread hold different slots, and inner handlers have later stamps. */
  ghost predicate PairOk(st: State, stack: seq<Frame>, f: nat, g: nat)
    requires |st.slots| == MAX_STACKS_COUNT && f < g < |stack|
  {
    && (HasSlot(stack[f]) && HasSlot(stack[g]) ==> stack[f].slot != stack[g].slot)
    && (Stamped(stack[f]) && Stamped(stack[g]) && stack[f].slot < MAX_STACKS_COUNT && stack[g].slot < MAX_STACKS_COUNT ==>
          st.slots[stack[f].slot].time < st.slots[stack[g].slot].time)
  }

  ghost predicate StackOk(st: State, tid: Tid, stack: seq<Frame>)
    requires |st.slots| == MAX_STACKS_COUNT
  {
    && (forall f :: 0 <= f < |stack| ==> FrameOk(st, tid, stack, f))
    && (forall f, g :: 0 <= f < g < |stack| ==> PairOk(st, stack, f, g))
  }

  ghost predicate HeldBy(st: State, s: nat, w: Word) {
    w.tid in st.threads && exists f :: 0 <= f < |st.threads[w.tid]| && Holds(st.threads[w.tid][f], s)
  }

  predicate Holds(fr: Frame, s: nat) {
    HasSlot(fr) && fr.slot == s
  }

  ghost predicate SlotOk(st: State, s: nat)
    requires s < |st.slots|
  {
    var sl := st.slots[s];
    || sl.word == FREE_WORD
    || ((sl.word.code == BUSY || sl.word.code == BUSY_WITH_METADATA) && HeldBy(st, s, sl.word))
    || (sl.word.code < MAXVAL && sl.sample < |st.published| && st.published[sl.sample] == Contents(sl))
  }

  predicate HoldsSample(sl: Slot, id: nat) {
    sl.word.code < MAXVAL && sl.sample == id
  }

  ghost predicate SamplesOk(st: State) {
    && (forall r, s :: 0 <= r < s < |st.slots| && st.slots[r].word.code < MAXVAL && st.slots[s].word.code < MAXVAL ==>
          st.slots[r].sample != st.slots[s].sample)
    && (forall k :: 0 <= k < |st.released| ==> ReleaseOk(st, st.released[k]))
    && (forall j, k :: 0 <= j < k < |st.released| ==> st.released[j].sample != st.released[k].sample)
    && (forall id :: 0 <= id < |st.published| ==> Accounted(st, id))
  }

  ghost predicate ReleaseOk(st: State, r: Release) {
    && r.sample < |st.published| && r.copy == st.published[r.sample]
    && forall s :: 0 <= s < |st.slots| ==> !HoldsSample(st.slots[s], r.sample)
  }

  /** A published sample is still in a slot, or has been released. */
  ghost predicate Accounted(st: State, id: nat) {
    || (exists s :: 0 <= s < |st.slots| && HoldsSample(st.slots[s], id))
    || (exists k :: 0 <= k < |st.released| && st.released[k].sample == id)
  }

  ghost predicate LoggerOk(st: State)
    requires |st.slots| == MAX_STACKS_COUNT
  {
    && st.logger.i < MAX_STACKS_COUNT
    && (!st.logger.At? ==> st.slots[st.logger.i].word == st.logger.word && st.logger.word.code < MAXVAL)
    && (st.logger.Releasing? ==> st.logger.copy == Contents(st.slots[st.logger.i]))
  }

  ghost predicate Inv(st: State) {
    && !st.aborted && |st.slots| == MAX_STACKS_COUNT && st.clock >= 0
    && (forall tid :: tid in st.threads ==> StackOk(st, tid, st.threads[tid]))
    && (forall s :: 0 <= s < MAX_STACKS_COUNT ==> SlotOk(st, s))
    && SamplesOk(st) && LoggerOk(st)
  }

  lemma InitInv(st: State)
    requires Init(st)
    ensures Inv(st)
  {
  }

  // ---------------------------------------------------------------- preservation

  /** Slot s was written; every other slot is as before, and time went on. */
  ghost predicate OnlySlot(st: State, st': State, s: nat) {
    && |st.slots| == |st'.slots| == MAX_STACKS_COUNT && s < MAX_STACKS_COUNT
    && (forall r :: 0 <= r < MAX_STACKS_COUNT && r != s ==> st'.slots[r] == st.slots[r])
    && st.clock <= st'.clock
  }

  /** A stack none of whose handlers holds the written slot is not affected. */
  lemma StackKept(st: State, st': State, tid: Tid, stack: seq<Frame>, s: nat)
    requires OnlySlot(st, st', s) && StackOk(st, tid, stack)
    requires st'.slots[s] == st.slots[s] || forall f :: 0 <= f < |stack| ==> !Holds(stack[f], s)
    ensures StackOk(st', tid, stack)
  {
    forall f | 0 <= f < |stack|
      ensures FrameOk(st', tid, stack, f)
    {
      assert FrameOk(st, tid, stack, f);
      if stack[f].Faulting? {
        var fr := stack[f];
        forall g | 0 <= g < f && HasMetadata(stack[g])
          ensures stack[g].slot < MAX_STACKS_COUNT && st'.slots[stack[g].slot] == st.slots[stack[g].slot]
        {
          assert FrameOk(st, tid, stack, g);
        }
        if 0 <= fr.maxIdx {
          var g :| 0 <= g < f && Winner(st, stack[g], fr);
          assert Winner(st', stack[g], fr);
        }
      }
    }
    forall f, g | 0 <= f < g < |stack|
      ensures PairOk(st', stack, f, g)
    {
      assert PairOk(st, stack, f, g);
      assert FrameOk(st, tid, stack, f) && FrameOk(st, tid, stack, g);
    }
  }

  lemma StackPrefix(st: State, tid: Tid, stack: seq<Frame>, n: nat)
    requires |st.slots| == MAX_STACKS_COUNT && StackOk(st, tid, stack) && n <= |stack|
    ensures StackOk(st, tid, stack[..n])
  {
    var pre := stack[..n];
    forall f | 0 <= f < n
      ensures FrameOk(st, tid, pre, f)
    {
      assert FrameOk(st, tid, stack, f);
      if stack[f].Faulting? && 0 <= stack[f].maxIdx {
        var g :| 0 <= g < f && Winner(st, stack[g], stack[f]);
        assert pre[g] == stack[g];
      }
    }
    forall f, g | 0 <= f < g < n
      ensures PairOk(st, pre, f, g)
    {
      assert PairOk(st, stack, f, g);
    }
  }

  lemma StackPush(st: State, tid: Tid, pre: seq<Frame>, fr: Frame)
    requires |st.slots| == MAX_STACKS_COUNT && StackOk(st, tid, pre)
    requires FrameOk(st, tid, pre + [fr], |pre|)
    requires forall f :: 0 <= f < |pre| ==> PairOk(st, pre + [fr], f, |pre|)
    ensures StackOk(st, tid, pre + [fr])
  {
    var stack := pre + [fr];
    forall f | 0 <= f < |stack|
      ensures FrameOk(st, tid, stack, f)
    {
      if f < |pre| {
        assert FrameOk(st, tid, pre, f);
        if pre[f].Faulting? && 0 <= pre[f].maxIdx {
          var g :| 0 <= g < f && Winner(st, pre[g], pre[f]);
          assert stack[g] == pre[g];
        }
      }
    }
    forall f, g | 0 <= f < g < |stack|
      ensures PairOk(st, stack, f, g)
    {
      if g < |pre| {
        assert PairOk(st, pre, f, g);
      }
    }
  }

  /** What a handler step may do to slot s: nothing, or a write to a slot that is free or its own;
      and what it publishes, if anything, is exactly what the slot now holds. */
  ghost predicate OwnSlotOnly(st: State, st': State, tid: Tid, s: nat)
    requires OnlySlot(st, st', s)
  {
    var sl, sl' := st.slots[s], st'.slots[s];
    || (sl' == sl && st'.published == st.published)
    || (&& (sl.word == FREE_WORD || sl.word == Word(tid, BUSY) || sl.word == Word(tid, BUSY_WITH_METADATA))
        && ((sl'.word.code >= MAXVAL && st'.published == st.published) ||
            (sl'.word.code < MAXVAL && sl'.sample == |st.published| && st'.published == st.published + [Contents(sl')])))
  }

  ghost predicate StillHolds(st: State, st': State, tid: Tid, s: nat) {
    forall r :: 0 <= r < MAX_STACKS_COUNT && r != s && HeldBy(st, r, Word(tid, BUSY)) ==> HeldBy(st', r, Word(tid, BUSY))
  }

  lemma SlotsKept(st: State, st': State, tid: Tid, s: nat)
    requires Inv(st) && OnlySlot(st, st', s) && OwnSlotOnly(st, st', tid, s) && StillHolds(st, st', tid, s)
    requires tid in st'.threads && st'.threads == st.threads[tid := st'.threads[tid]] && SlotOk(st', s)
    ensures forall r :: 0 <= r < MAX_STACKS_COUNT ==> SlotOk(st', r)
  {
    forall r | 0 <= r < MAX_STACKS_COUNT
      ensures SlotOk(st', r)
    {
      if r != s {
        assert SlotOk(st, r);
        var w := st.slots[r].word;
        if w.code == BUSY || w.code == BUSY_WITH_METADATA {
          assert HeldBy(st, r, Word(w.tid, BUSY));
          if w.tid != tid {
            assert st'.threads[w.tid] == st.threads[w.tid];
          }
        }
      }
    }
  }

  lemma SamplesKept(st: State, st': State, tid: Tid, s: nat)
    requires Inv(st) && OnlySlot(st, st', s) && OwnSlotOnly(st, st', tid, s) && st'.released == st.released
    ensures SamplesOk(st')
  {
    assert SlotOk(st, s);
    forall r, q | 0 <= r < q < MAX_STACKS_COUNT && st'.slots[r].word.code < MAXVAL && st'.slots[q].word.code < MAXVAL
      ensures st'.slots[r].sample != st'.slots[q].sample
    {
      assert SlotOk(st, r) && SlotOk(st, q);
    }
    assert forall r :: 0 <= r < MAX_STACKS_COUNT ==> SlotOk(st, r);
    forall k | 0 <= k < |st'.released|
      ensures ReleaseOk(st', st'.released[k])
    {
      assert ReleaseOk(st, st.released[k]);
    }
    forall id | 0 <= id < |st'.published|
      ensures Accounted(st', id)
    {
      if id < |st.published| {
        assert Accounted(st, id);
        if r :| 0 <= r < |st.slots| && HoldsSample(st.slots[r], id) {
          assert r != s || st'.slots[s] == st.slots[s];
          assert HoldsSample(st'.slots[r], id);
        }
      } else {
        assert HoldsSample(st'.slots[s], id);
      }
    }
  }

  lemma OthersKept(st: State, st': State, tid: Tid, s: nat, u: Tid)
    requires Inv(st) && OnlySlot(st, st', s) && OwnSlotOnly(st, st', tid, s) && u in st.threads && u != tid
    ensures StackOk(st', u, st.threads[u])
  {
    var stack := st.threads[u];
    forall f | 0 <= f < |stack| && Holds(stack[f], s)
      ensures st'.slots[s] == st.slots[s]
    {
      assert FrameOk(st, u, stack, f);
    }
    StackKept(st, st', u, stack, s);
  }

  lemma HandlerMoveInv(st: State, st': State, tid: Tid, s: nat)
    requires Inv(st) && OnlySlot(st, st', s) && OwnSlotOnly(st, st', tid, s) && StillHolds(st, st', tid, s)
    requires tid in st'.threads && st'.threads == st.threads[tid := st'.threads[tid]]
    requires st'.released == st.released && st'.logger == st.logger && !st'.aborted
    requires StackOk(st', tid, st'.threads[tid]) && SlotOk(st', s)
    ensures Inv(st')
  {
    forall u | u in st'.threads
      ensures StackOk(st', u, st'.threads[u])
    {
      if u != tid {
        OthersKept(st, st', tid, s, u);
      }
    }
    SlotsKept(st, st', tid, s);
    SamplesKept(st, st', tid, s);
  }

  // ---------------------------------------------------------------- handler steps keep the invariant

  lemma SplitTop(stack: seq<Frame>, fr: Frame)
    requires stack != []
    ensures stack == stack[..|stack| - 1] + [Top(stack)]
    ensures Replace(stack, fr) == stack[..|stack| - 1] + [fr]
  {
  }

  /** Steps that write no slot: `keep` handlers stay, a new top handler may appear, and no slot
      is lost by the handlers that go. */
  lemma ControlInv(st: State, st': State, tid: Tid, keep: nat, added: seq<Frame>)
    requires Inv(st) && tid in st.threads && keep <= |st.threads[tid]| && |added| <= 1
    requires st' == st.(threads := st.threads[tid := st.threads[tid][..keep] + added], currentSlot := st'.currentSlot)
    requires forall f :: keep <= f < |st.threads[tid]| && HasSlot(st.threads[tid][f]) ==>
               |added| == 1 && HasSlot(added[0]) && added[0].slot == st.threads[tid][f].slot
    requires |added| == 1 ==> FrameOk(st', tid, st.threads[tid][..keep] + added, keep)
    requires |added| == 1 ==> forall f :: 0 <= f < keep ==> PairOk(st', st.threads[tid][..keep] + added, f, keep)
    ensures Inv(st')
  {
    var stack := st.threads[tid];
    var stack' := stack[..keep] + added;
    StackPrefix(st, tid, stack, keep);
    StackKept(st, st', tid, stack[..keep], 0);
    if |added| == 1 {
      StackPush(st', tid, stack[..keep], added[0]);
      assert added == [added[0]];
    } else {
      assert stack' == stack[..keep];
    }
    forall r: nat, w: Word | HeldBy(st, r, w)
      ensures HeldBy(st', r, w)
    {
      if w.tid == tid {
        var f :| 0 <= f < |stack| && Holds(stack[f], r);
        assert Holds(stack'[if f < keep then f else keep], r);
      } else {
        assert st'.threads[w.tid] == st.threads[w.tid];
      }
    }
    assert SlotOk(st, 0) && SlotOk(st', 0);
    assert StillHolds(st, st', tid, 0);
    HandlerMoveInv(st, st', tid, 0);
  }

  lemma DeliverInv(st: State, st': State, tid: Tid)
    requires Inv(st)
    requires st' == st.(threads := st.threads[tid := (if tid in st.threads then st.threads[tid] else []) + [Between]])
    ensures Inv(st')
  {
    if tid in st.threads {
      var n := |st.threads[tid]|;
      assert st.threads[tid][..n] == st.threads[tid];
      ControlInv(st, st', tid, n, [Between]);
    } else {
      var st0 := st.(threads := st.threads[tid := []]);
      assert SlotOk(st, 0);
      forall r: nat, w: Word | HeldBy(st, r, w)
        ensures HeldBy(st0, r, w)
      {
        assert st0.threads[w.tid] == st.threads[w.tid];
      }
      HandlerMoveInv(st, st0, tid, 0);
      assert [] + [Between] == [Between];
      ControlInv(st0, st', tid, 0, [Between]);
    }
  }

  lemma PopInv(st: State, st': State, tid: Tid)
    requires Inv(st) && tid in st.threads && st.threads[tid] != [] && !HasSlot(Top(st.threads[tid]))
    requires st' == st.(threads := st.threads[tid := st.threads[tid][..|st.threads[tid]| - 1]])
    ensures Inv(st')
  {
    var n := |st.threads[tid]|;
    assert st.threads[tid][..n - 1] + [] == st.threads[tid][..n - 1];
    ControlInv(st, st', tid, n - 1, []);
  }

  /** The top handler moves on without writing a slot, holding what it held. */
  lemma RetopInv(st: State, st': State, tid: Tid, fr: Frame)
    requires Inv(st) && tid in st.threads && st.threads[tid] != []
    requires st' == st.(threads := st.threads[tid := Replace(st.threads[tid], fr)], currentSlot := st'.currentSlot)
    requires var was := Top(st.threads[tid]);
             || (!HasSlot(was) && !HasSlot(fr) && !fr.Faulting?)
             || (was.Collecting? && fr.Collected? && fr.slot == was.slot && fr.ret < MAXVAL)
    ensures Inv(st')
  {
    var stack := st.threads[tid];
    var top := |stack| - 1;
    SplitTop(stack, fr);
    var stack' := stack[..top] + [fr];
    assert FrameOk(st, tid, stack, top);
    forall f | 0 <= f < top
      ensures PairOk(st', stack', f, top)
    {
      assert PairOk(st, stack, f, top);
    }
    ControlInv(st, st', tid, top, [fr]);
  }

  lemma FaultInv(st: State, st': State, tid: Tid)
    requires Inv(st) && tid in st.threads && st.threads[tid] != [] && Top(st.threads[tid]).Collecting?
    requires st' == st.(threads := st.threads[tid := st.threads[tid] + [Faulting(0, -1, -1)]])
    ensures Inv(st')
  {
    var stack := st.threads[tid];
    assert stack[..|stack|] == stack;
    ControlInv(st, st', tid, |stack|, [Faulting(0, -1, -1)]);
  }

  /** Looking at one more slot keeps the latest time among the slots looked at. */
  lemma LookAtScan(st: State, st': State, tid: Tid, stack: seq<Frame>, stack': seq<Frame>, top: nat)
    requires Inv(st) && StackOk(st, tid, stack) && |stack| == |stack'| == top + 1 && stack'[..top] == stack[..top]
    requires st'.slots == st.slots && tid in st.threads && stack == st.threads[tid]
    requires stack[top].Faulting? && stack[top].i < MAX_STACKS_COUNT && stack'[top].Faulting?
    requires var fr, s := stack[top], st.slots[stack[top].i];
             var hit := s.word == Word(tid, BUSY_WITH_METADATA) && s.time > fr.maxTime;
             stack'[top] == if hit then Faulting(fr.i + 1, s.time, fr.i) else Faulting(fr.i + 1, fr.maxTime, fr.maxIdx)
    ensures ScanOk(st', stack', top, stack'[top])
  {
    var fr, fr' := stack[top], stack'[top];
    assert FrameOk(st, tid, stack, top);
    forall g | 0 <= g < top && HasMetadata(stack[g]) && stack[g].slot < fr'.i
      ensures stack[g].slot < MAX_STACKS_COUNT && 0 <= fr'.maxIdx && st.slots[stack[g].slot].time <= fr'.maxTime
    {
      assert FrameOk(st, tid, stack, g);
    }
    assert forall g :: 0 <= g < top ==> stack'[g] == stack[..top][g] == stack[g];
    if fr'.maxTime != fr.maxTime {
      assert SlotOk(st, fr.i);
      var g :| 0 <= g < |stack| && Holds(stack[g], fr.i);
      assert FrameOk(st, tid, stack, g);
      assert Winner(st', stack'[g], fr');
    } else if 0 <= fr'.maxIdx {
      var g :| 0 <= g < top && Winner(st, stack[g], fr);
      assert Winner(st', stack'[g], fr');
    }
  }

  lemma LookAtInv(st: State, st': State, tid: Tid, fr: Frame)
    requires Inv(st) && tid in st.threads && st.threads[tid] != []
    requires fr.Faulting? && fr.i < MAX_STACKS_COUNT && Top(st.threads[tid]) == fr
    requires var s := st.slots[fr.i];
             var hit := s.word == Word(tid, BUSY_WITH_METADATA) && s.time > fr.maxTime;
             st' == st.(threads := st.threads[tid := Replace(st.threads[tid],
                          if hit then Faulting(fr.i + 1, s.time, fr.i) else Faulting(fr.i + 1, fr.maxTime, fr.maxIdx))])
    ensures Inv(st')
  {
    var stack := st.threads[tid];
    var top := |stack| - 1;
    var fr' := Top(st'.threads[tid]);
    SplitTop(stack, fr');
    var stack' := stack[..top] + [fr'];
    assert FrameOk(st, tid, stack, top);
    LookAtScan(st, st', tid, stack, stack', top);
    ControlInv(st, st', tid, top, [fr']);
  }

  /** The scan ends on the slot of the handler that faulted, and its jump buffer leads there. */
  lemma ScanFindsInnermost(st: State, tid: Tid, fr: Frame)
    requires Inv(st) && tid in st.threads && st.threads[tid] != []
    requires Top(st.threads[tid]) == fr && fr.Faulting? && fr.i == MAX_STACKS_COUNT
    ensures var stack := st.threads[tid];
            var low := |stack| - 2;
            && 0 <= low && 0 <= fr.maxIdx < MAX_STACKS_COUNT && stack[low] == Collecting(fr.maxIdx)
            && st.slots[fr.maxIdx].env == low
  {
    var stack := st.threads[tid];
    var top := |stack| - 1;
    assert FrameOk(st, tid, stack, top);
    var low := top - 1;
    assert FrameOk(st, tid, stack, low);
    assert stack[low].slot < fr.i && HasMetadata(stack[low]);
    var g :| 0 <= g < top && Winner(st, stack[g], fr);
    assert g < low ==> PairOk(st, stack, g, low);
  }

  lemma JumpInv(st: State, st': State, tid: Tid, fr: Frame)
    requires Inv(st) && tid in st.threads && st.threads[tid] != []
    requires Top(st.threads[tid]) == fr && fr.Faulting? && fr.i == MAX_STACKS_COUNT
    requires 0 <= fr.maxIdx < MAX_STACKS_COUNT && st.slots[fr.maxIdx].env < |st.threads[tid]|
    requires st' == st.(threads := st.threads[tid := st.threads[tid][..st.slots[fr.maxIdx].env] + [Crashed(fr.maxIdx)]])
    ensures Inv(st')
  {
    ScanFindsInnermost(st, tid, fr);
    var stack := st.threads[tid];
    var low := |stack| - 2;
    var stack' := stack[..low] + [Crashed(fr.maxIdx)];
    assert FrameOk(st, tid, stack, low);
    forall f | 0 <= f < low
      ensures PairOk(st', stack', f, low)
    {
      assert PairOk(st, stack, f, low);
    }
    ControlInv(st, st', tid, low, [Crashed(fr.maxIdx)]);
  }

  /** No handler below the top holds slot s. */
  lemma LowerDoNotHold(st: State, tid: Tid, s: nat, f: nat)
    requires Inv(st) && tid in st.threads && s < MAX_STACKS_COUNT && f + 1 < |st.threads[tid]|
    requires Holds(Top(st.threads[tid]), s) || st.slots[s].word == FREE_WORD
    ensures !Holds(st.threads[tid][f], s)
  {
    var stack := st.threads[tid];
    assert FrameOk(st, tid, stack, f);
    assert PairOk(st, stack, f, |stack| - 1);
  }

  /** The top handler writes slot s, which it holds or takes from the free ones, and becomes `fr`.
      Its time is either untouched or the current clock. */
  lemma SlotWriteInv(st: State, st': State, tid: Tid, s: nat, fr: Frame)
    requires Inv(st) && tid in st.threads && st.threads[tid] != [] && OnlySlot(st, st', s)
    requires OwnSlotOnly(st, st', tid, s)
    requires st' == st.(slots := st'.slots, clock := st'.clock, published := st'.published,
                        threads := st.threads[tid := Replace(st.threads[tid], fr)])
    requires Holds(Top(st.threads[tid]), s) || (!HasSlot(Top(st.threads[tid])) && st.slots[s].word == FREE_WORD)
    requires SlotOk(st', s)
    requires FrameOk(st', tid, st'.threads[tid], |st.threads[tid]| - 1)
    requires HasSlot(fr) ==> fr.slot == s
    requires Stamped(fr) ==>
               st'.slots[s].time == st.clock || (Stamped(Top(st.threads[tid])) && st'.slots[s].time == st.slots[s].time)
    ensures Inv(st')
  {
    var stack := st.threads[tid];
    var top := |stack| - 1;
    var pre := stack[..top];
    SplitTop(stack, fr);
    forall f | 0 <= f < top
      ensures !Holds(pre[f], s)
    {
      LowerDoNotHold(st, tid, s, f);
    }
    StackPrefix(st, tid, stack, top);
    StackKept(st, st', tid, pre, s);
    forall f | 0 <= f < top
      ensures PairOk(st', pre + [fr], f, |pre|)
    {
      assert FrameOk(st, tid, stack, f) && PairOk(st, stack, f, top);
    }
    StackPush(st', tid, pre, fr);
    forall r: nat | r != s && HeldBy(st, r, Word(tid, BUSY))
      ensures HeldBy(st', r, Word(tid, BUSY))
    {
      var f :| 0 <= f < |stack| && Holds(stack[f], r);
      assert Holds((pre + [fr])[f], r);
    }
    HandlerMoveInv(st, st', tid, s);
  }

  lemma ClaimInv(st: State, st': State, tid: Tid, s: nat)
    requires Inv(st) && tid in st.threads && st.threads[tid] != [] && Top(st.threads[tid]).Scanning?
    requires s < MAX_STACKS_COUNT && st.slots[s].word == FREE_WORD
    requires st' == st.(slots := st.slots[s := st.slots[s].(word := Word(tid, BUSY))],
                        threads := st.threads[tid := Replace(st.threads[tid], Claimed(s))])
    ensures Inv(st')
  {
    assert Holds(Top(st'.threads[tid]), s);
    SlotWriteInv(st, st', tid, s, Claimed(s));
  }

  /** Writes to a slot the top handler keeps. */
  lemma KeepSlotInv(st: State, st': State, tid: Tid, sl: Slot, fr: Frame)
    requires Inv(st) && tid in st.threads && st.threads[tid] != [] && HasSlot(Top(st.threads[tid]))
    requires var was := Top(st.threads[tid]);
             && was.slot < MAX_STACKS_COUNT && HasSlot(fr) && fr.slot == was.slot
             && st.clock <= st'.clock
             && st' == st.(slots := st.slots[was.slot := sl], clock := st'.clock,
                           threads := st.threads[tid := Replace(st.threads[tid], fr)])
             && (fr.Collected? || fr.Typed? ==> fr.ret < MAXVAL)
             && sl.word == Word(tid, HeldCode(fr))
             && (HasJump(fr) ==> sl.env == |st.threads[tid]| - 1)
             && (Stamped(fr) ==> (sl.time == st.clock < st'.clock) || (Stamped(was) && sl.time == st.slots[was.slot].time))
    ensures Inv(st')
  {
    var stack := st.threads[tid];
    var top := |stack| - 1;
    assert FrameOk(st, tid, stack, top);
    assert Holds(Top(st'.threads[tid]), fr.slot);
    SlotWriteInv(st, st', tid, fr.slot, fr);
  }

  lemma MustSwapInv(st: State, st': State, tid: Tid, desired: Word)
    requires Inv(st) && tid in st.threads && st.threads[tid] != []
    requires var was := Top(st.threads[tid]);
             && (was.Typed? || was.CrashTimed?) && was.slot < MAX_STACKS_COUNT
             && (desired == FREE_WORD || (desired.tid == tid && desired.code < MAXVAL))
             && st' == MustSwap(st, tid, was.slot, Word(tid, BUSY_WITH_METADATA), desired, Between)
    ensures Inv(st')
  {
    var stack := st.threads[tid];
    var s := Top(stack).slot;
    assert FrameOk(st, tid, stack, |stack| - 1);
    SlotWriteInv(st, st', tid, s, Between);
  }

  predicate WritesSlot(a: Action) {
    a.Stamp? || a.MarkReady? || a.SetJump? || a.WriteFrames? || a.WriteTypes? || a.Publish? || a.CrashStamp? || a.CrashPublish?
  }

  lemma WriteStepInv(st: State, a: Action, st': State)
    requires Inv(st) && WritesSlot(a) && HandlerEnabled(st, a) && st' == HandlerApply(st, a)
    ensures Inv(st')
  {
    var tid := a.tid;
    var stack := st.threads[tid];
    var fr := Top(stack);
    assert FrameOk(st, tid, stack, |stack| - 1);
    match a
    case Stamp(_) => KeepSlotInv(st, st', tid, st'.slots[fr.slot], Timed(fr.slot));
    case MarkReady(_) => KeepSlotInv(st, st', tid, st'.slots[fr.slot], Ready(fr.slot));
    case SetJump(_) => KeepSlotInv(st, st', tid, st'.slots[fr.slot], Collecting(fr.slot));
    case WriteFrames(_, _) =>
      assert Replace(stack, fr) == stack;
      KeepSlotInv(st, st', tid, st'.slots[fr.slot], fr);
    case WriteTypes(_, _, _) => KeepSlotInv(st, st', tid, st'.slots[fr.slot], Typed(fr.slot, fr.ret));
    case Publish(_) =>
      MustSwapInv(st, st', tid, if fr.ret == TRACER_DISABLED || fr.ret == IGNORE then FREE_WORD else Word(tid, fr.ret));
    case CrashStamp(_, _) => KeepSlotInv(st, st', tid, st'.slots[fr.slot], CrashTimed(fr.slot));
    case CrashPublish(_) => MustSwapInv(st, st', tid, Word(tid, SIGNAL_INTERRUPT));
  }

  lemma ControlStepInv(st: State, a: Action, st': State)
    requires Inv(st) && !IsLoggerStep(a) && !WritesSlot(a) && HandlerEnabled(st, a) && st' == HandlerApply(st, a)
    ensures Inv(st')
  {
    if a.Deliver? {
      DeliverInv(st, st', a.tid);
    } else {
      var tid := a.tid;
      var fr := Top(st.threads[tid]);
      match a
      case EndHandler(_) => PopInv(st, st', tid);
      case BeginTracer(_) => RetopInv(st, st', tid, Top(st'.threads[tid]));
      case TryClaim(_) =>
        var s := Probe(fr.start, fr.i);
        if st.slots[s].word == FREE_WORD {
          ClaimInv(st, st', tid, s);
        } else if fr.i + 1 < MAX_STACKS_COUNT {
          RetopInv(st, st', tid, Scanning(fr.start, fr.i + 1));
        } else {
          PopInv(st, st', tid);
        }
      case EndCollect(_, ret) => RetopInv(st, st', tid, Collected(fr.slot, ret));
      case Fault(_) => FaultInv(st, st', tid);
      case LookAt(_) => LookAtInv(st, st', tid, fr);
      case Jump(_) =>
        ScanFindsInnermost(st, tid, fr);
        JumpInv(st, st', tid, fr);
    }
  }

  // ---------------------------------------------------------------- logger steps keep the invariant

  lemma ReleaseSamples(st: State, st': State, i: nat)
    requires Inv(st) && i < MAX_STACKS_COUNT && st.slots[i].word.code < MAXVAL
    requires st'.slots == st.slots[i := st.slots[i].(word := FREE_WORD)] && st'.published == st.published
    requires st'.released == st.released + [Release(st.slots[i].sample, Contents(st.slots[i]))]
    ensures SamplesOk(st')
  {
    var id := st.slots[i].sample;
    var n := |st.released|;
    assert SlotOk(st, i);
    forall k | 0 <= k < |st'.released|
      ensures ReleaseOk(st', st'.released[k])
      ensures k < n ==> st'.released[k].sample != id
    {
      if k < n {
        assert ReleaseOk(st, st.released[k]);
        assert HoldsSample(st.slots[i], id);
      }
    }
    forall d | 0 <= d < |st'.published|
      ensures Accounted(st', d)
    {
      assert Accounted(st, d);
      if s :| 0 <= s < |st.slots| && HoldsSample(st.slots[s], d) {
        if s == i {
          assert st'.released[n].sample == d;
        } else {
          assert HoldsSample(st'.slots[s], d);
        }
      } else {
        var k :| 0 <= k < n && st.released[k].sample == d;
        assert st'.released[k].sample == d;
      }
    }
  }

  lemma LogReleaseInv(st: State, st': State)
    requires Inv(st) && st.logger.Releasing? && LoggerEnabled(st, LogRelease) && st' == LoggerApply(st, LogRelease)
    ensures Inv(st')
  {
    var i := st.logger.i;
    forall u | u in st'.threads
      ensures StackOk(st', u, st'.threads[u])
    {
      var stack := st.threads[u];
      assert StackOk(st, u, stack);
      forall f | 0 <= f < |stack|
        ensures !Holds(stack[f], i)
      {
        assert FrameOk(st, u, stack, f);
      }
      StackKept(st, st', u, stack, i);
    }
    forall s | 0 <= s < MAX_STACKS_COUNT
      ensures SlotOk(st', s)
    {
      assert SlotOk(st, s);
    }
    ReleaseSamples(st, st', i);
  }

  lemma LogQuietInv(st: State, a: Action, st': State)
    requires Inv(st) && (a.LogLoad? || a.LogCopy?) && LoggerEnabled(st, a) && st' == LoggerApply(st, a)
    ensures Inv(st')
  {
    forall u | u in st'.threads
      ensures StackOk(st', u, st'.threads[u])
    {
      assert StackOk(st, u, st.threads[u]);
      StackKept(st, st', u, st.threads[u], 0);
    }
    forall s | 0 <= s < MAX_STACKS_COUNT
      ensures SlotOk(st', s)
    {
      assert SlotOk(st, s);
    }
    forall k | 0 <= k < |st'.released|
      ensures ReleaseOk(st', st'.released[k])
    {
      assert ReleaseOk(st, st.released[k]);
    }
    forall d | 0 <= d < |st'.published|
      ensures Accounted(st', d)
    {
      assert Accounted(st, d);
    }
    assert SlotOk(st, st.logger.i);
  }

  lemma {:induction false} RunInv(states: seq<State>, actions: seq<Action>, k: nat)
    requires IsRun(states, actions) && k < |states|
    ensures Inv(states[k])
  {
    if k == 0 {
      InitInv(states[0]);
    } else {
      RunInv(states, actions, k - 1);
      var st, a, st' := states[k - 1], actions[k - 1], states[k];
      if WritesSlot(a) {
        WriteStepInv(st, a, st');
      } else if !IsLoggerStep(a) {
        ControlStepInv(st, a, st');
      } else if a.LogRelease? {
        LogReleaseInv(st, st');
      } else {
        LogQuietInv(st, a, st');
      }
    }
  }

  // ---------------------------------------------------------------- what every run keeps

  /** None of the five abort branches is ever taken. */
  lemma NeverAborts(states: seq<State>, actions: seq<Action>, k: nat)
    requires IsRun(states, actions) && k < |states|
    ensures !states[k].aborted
  {
    RunInv(states, actions, k);
  }

  /** A busy slot is written only by the thread whose tid it carries, by the handler on top of
      that thread's stack. */
  lemma OnlyOwnerWrites(states: seq<State>, actions: seq<Action>, k: nat, s: nat)
    requires IsRun(states, actions) && k < |actions| && s < MAX_STACKS_COUNT
    requires |states[k].slots| == |states[k + 1].slots| == MAX_STACKS_COUNT
    requires states[k].slots[s].word.code == BUSY || states[k].slots[s].word.code == BUSY_WITH_METADATA
    requires states[k + 1].slots[s] != states[k].slots[s]
    ensures var a, tid := actions[k], states[k].slots[s].word.tid;
            && !IsLoggerStep(a) && a.tid == tid && tid in states[k].threads
            && states[k].threads[tid] != [] && Holds(Top(states[k].threads[tid]), s)
  {
    RunInv(states, actions, k);
    var st, a := states[k], actions[k];
    assert Enabled(st, a) && states[k + 1] == Apply(st, a);
    if !IsLoggerStep(a) && !a.Deliver? {
      var stack := st.threads[a.tid];
      assert FrameOk(st, a.tid, stack, |stack| - 1);
    }
  }

  /** A fault always comes back to the handler that faulted: when FaultHandler has looked at all
      slots, the latest one is the slot of the handler directly underneath, and the jump is
      possible and leaves exactly that handler on top. */
  lemma FaultComesHome(states: seq<State>, actions: seq<Action>, k: nat, tid: Tid)
    requires IsRun(states, actions) && k < |states| && tid in states[k].threads && states[k].threads[tid] != []
    requires Top(states[k].threads[tid]).Faulting? && Top(states[k].threads[tid]).i == MAX_STACKS_COUNT
    ensures var stack := states[k].threads[tid];
            var s := Top(stack).maxIdx;
            && |stack| >= 2 && 0 <= s && stack[|stack| - 2] == Collecting(s)
            && Enabled(states[k], Jump(tid))
            && Apply(states[k], Jump(tid)).threads[tid] == stack[..|stack| - 2] + [Crashed(s)]
  {
    RunInv(states, actions, k);
    ScanFindsInnermost(states[k], tid, Top(states[k].threads[tid]));
  }

  /** Every published sample is still in exactly one slot with the contents its owner published,
      or has been released exactly once with those contents; never both. */
  lemma ReleasedExactlyOnce(states: seq<State>, actions: seq<Action>, k: nat, id: nat)
    requires IsRun(states, actions) && k < |states| && id < |states[k].published|
    ensures var st := states[k];
            var waiting := exists s :: 0 <= s < |st.slots| && HoldsSample(st.slots[s], id);
            var done := exists j :: 0 <= j < |st.released| && st.released[j].sample == id;
            waiting != done
    ensures forall s :: 0 <= s < |states[k].slots| && HoldsSample(states[k].slots[s], id) ==>
              Contents(states[k].slots[s]) == states[k].published[id]
    ensures forall r, s :: 0 <= r < s < |states[k].slots| ==>
              !(HoldsSample(states[k].slots[r], id) && HoldsSample(states[k].slots[s], id))
    ensures forall j :: 0 <= j < |states[k].released| && states[k].released[j].sample == id ==>
              states[k].released[j].copy == states[k].published[id]
    ensures forall i, j :: 0 <= i < j < |states[k].released| ==>
              states[k].released[i].sample != states[k].released[j].sample
  {
    RunInv(states, actions, k);
    var st := states[k];
    assert Accounted(st, id);
    forall j | 0 <= j < |st.released| && st.released[j].sample == id
      ensures st.released[j].copy == st.published[id]
      ensures forall s :: 0 <= s < |st.slots| ==> !HoldsSample(st.slots[s], id)
    {
      assert ReleaseOk(st, st.released[j]);
    }
    forall s | 0 <= s < |st.slots| && HoldsSample(st.slots[s], id)
      ensures Contents(st.slots[s]) == st.published[id]
    {
      assert SlotOk(st, s);
    }
  }

  lemma PublishedStep(st: State, a: Action, st': State)
    requires Enabled(st, a) && st' == Apply(st, a)
    ensures st.published <= st'.published && st.released <= st'.released
  {
  }

  /** Publications and releases are final: later steps only add to them. */
  lemma {:induction false} HistoryOnlyGrows(states: seq<State>, actions: seq<Action>, k: nat, m: nat)
    requires IsRun(states, actions) && k <= m < |states|
    ensures states[k].published <= states[m].published && states[k].released <= states[m].released
  {
    if k < m {
      HistoryOnlyGrows(states, actions, k, m - 1);
      PublishedStep(states[m - 1], actions[m - 1], states[m]);
    }
  }

  /** While a slot is published only the logger's release changes it. */
  lemma PublishedUntouched(states: seq<State>, actions: seq<Action>, k: nat, s: nat)
    requires IsRun(states, actions) && k < |actions| && s < |states[k].slots| && states[k].slots[s].word.code < MAXVAL
    requires !(actions[k].LogRelease? && states[k].logger.i == s)
    ensures s < |states[k + 1].slots| && states[k + 1].slots[s] == states[k].slots[s]
  {
    RunInv(states, actions, k);
    var st, a := states[k], actions[k];
    if !IsLoggerStep(a) && a.tid in st.threads && st.threads[a.tid] != [] {
      assert FrameOk(st, a.tid, st.threads[a.tid], |st.threads[a.tid]| - 1);
    }
  }
}
