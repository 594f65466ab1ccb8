/** What a handler and the logger of cpp/profiler/SamplingProfiler.cpp bring about, read off the
    actions of a run. */
module SlotEffects {
  import opened Slots

  // ---------------------------------------------------------------- one handler's own steps

  /** The handler at level f of the thread's stack, if there is one. */
  predicate Exists(st: State, tid: Tid, f: nat) {
    tid in st.threads && f < |st.threads[tid]|
  }

  /** The step is taken by the handler at level f of the thread's stack. */
  predicate Own(st: State, a: Action, tid: Tid, f: nat) {
    !IsLoggerStep(a) && !a.Deliver? && a.tid == tid && tid in st.threads && |st.threads[tid]| == f + 1
  }

  predicate SameKind(a: Action, b: Action) {
    match a
    case Stamp(_) => b.Stamp?
    case SetJump(_) => b.SetJump?
    case WriteFrames(_, _) => b.WriteFrames?
    case EndCollect(_, _) => b.EndCollect?
    case WriteTypes(_, _, _) => b.WriteTypes?
    case CrashStamp(_, _) => b.CrashStamp?
    case _ => false
  }

  /** Step m is the last one of its kind, before step k, that the handler at level f took. */
  ghost predicate LastOwn(states: seq<State>, actions: seq<Action>, tid: Tid, f: nat, m: nat, k: nat)
    requires k <= |actions| < |states|
  {
    && m < k && Own(states[m], actions[m], tid, f)
    && forall j :: m < j < k && SameKind(actions[j], actions[m]) ==> !Own(states[j], actions[j], tid, f)
  }

  lemma LastOwnLater(states: seq<State>, actions: seq<Action>, tid: Tid, f: nat, m: nat, k: nat)
    requires k < |actions| < |states| && LastOwn(states, actions, tid, f, m, k)
    requires !Own(states[k], actions[k], tid, f) || !SameKind(actions[k], actions[m])
    ensures LastOwn(states, actions, tid, f, m, k + 1)
  {
  }

  /** Working on one slot, in the tracer's loop or after a crash. */
  predicate Working(fr: Frame) {
    HasSlot(fr) && !fr.Crashed?
  }

  /** A step changes the top of its own thread's stack, or jumps down to a handler that crashed. */
  predicate TopOnly(stack: seq<Frame>, stack': seq<Frame>) {
    || (stack != [] && |stack'| >= |stack| - 1 && stack'[..|stack| - 1] == stack[..|stack| - 1] &&
        (|stack'| <= |stack| ||
         (|stack'| == |stack| + 1 && stack' == stack + [stack'[|stack|]] && stack'[|stack|].Faulting?)))
    || (stack' != [] && |stack'| <= |stack| && stack'[|stack'| - 1].Crashed? &&
        stack'[..|stack'| - 1] == stack[..|stack'| - 1])
  }

  lemma StackStep(st: State, a: Action, st': State)
    requires !IsLoggerStep(a) && !a.Deliver? && HandlerEnabled(st, a) && st' == HandlerApply(st, a)
    ensures a.tid in st.threads && a.tid in st'.threads && TopOnly(st.threads[a.tid], st'.threads[a.tid])
    ensures forall u :: u != a.tid ==> (u in st.threads <==> u in st'.threads)
    ensures forall u :: u != a.tid && u in st.threads ==> st'.threads[u] == st.threads[u]
  {
  }

  predicate Busy(fr: Frame) {
    !fr.Between? && !fr.Faulting? && !fr.Crashed?
  }

  /** A handler at work got there by its own step. */
  lemma LevelStep(st: State, a: Action, st': State, tid: Tid, f: nat)
    requires Enabled(st, a) && st' == Apply(st, a) && Exists(st', tid, f) && !Own(st, a, tid, f)
    requires Busy(st'.threads[tid][f])
    ensures Exists(st, tid, f) && st.threads[tid][f] == st'.threads[tid][f]
  {
    if !IsLoggerStep(a) && !a.Deliver? {
      StackStep(st, a, st');
      if a.tid == tid {
        LevelKept(st.threads[tid], st'.threads[tid], f);
      }
    }
  }

  lemma LevelKept(stack: seq<Frame>, stack': seq<Frame>, f: nat)
    requires TopOnly(stack, stack') && f < |stack'| && f + 1 != |stack| && Busy(stack'[f])
    ensures f < |stack| && stack[f] == stack'[f]
  {
    if stack != [] && |stack'| >= |stack| - 1 && stack'[..|stack| - 1] == stack[..|stack| - 1] {
      if f < |stack| - 1 {
        assert stack'[..|stack| - 1][f] == stack[..|stack| - 1][f];
      }
    } else if f < |stack'| - 1 {
      assert stack'[..|stack'| - 1][f] == stack[..|stack'| - 1][f];
    }
  }

  /** The handler's own step, from where it was before to where it is now. */
  predicate Moved(st: State, a: Action, st': State, fr: Frame, fr': Frame)
    requires |st.slots| == |st'.slots| == MAX_STACKS_COUNT
  {
    match fr'
    case Timed(s) => a.Stamp? && s < MAX_STACKS_COUNT && st'.slots[s].time == st.clock
    case Ready(s) => fr == Timed(s) && a.MarkReady? && s < MAX_STACKS_COUNT && st'.slots[s].time == st.slots[s].time
    case Collecting(s) =>
      && s < MAX_STACKS_COUNT && st'.slots[s].time == st.slots[s].time
      && ((a.SetJump? && fr == Ready(s) && st'.slots[s].frames == st.slots[s].frames) ||
          (a.WriteFrames? && fr == Collecting(s) && st'.slots[s].frames == a.frames) ||
          (a.Fault? && fr == Collecting(s) && st'.slots[s].frames == st.slots[s].frames))
    case Collected(s, ret) =>
      a.EndCollect? && a.ret == ret && fr == Collecting(s) && s < MAX_STACKS_COUNT && st'.slots[s] == st.slots[s]
    case Typed(s, ret) =>
      && a.WriteTypes? && fr == Collected(s, ret) && s < MAX_STACKS_COUNT
      && st'.slots[s] == st.slots[s].(profilerType := a.profiler, timerType := a.timer)
    case CrashTimed(s) =>
      && a.CrashStamp? && fr == Crashed(s) && s < MAX_STACKS_COUNT
      && st'.slots[s] == st.slots[s].(time := st.clock, profilerType := a.profiler)
    case _ => true
  }

  lemma OwnStep(st: State, a: Action, st': State, tid: Tid, f: nat)
    requires Enabled(st, a) && st' == Apply(st, a) && !st'.aborted && Own(st, a, tid, f)
    requires Exists(st', tid, f) && Working(st'.threads[tid][f])
    ensures Exists(st, tid, f) && |st.slots| == |st'.slots| == MAX_STACKS_COUNT
    ensures Moved(st, a, st', st.threads[tid][f], st'.threads[tid][f])
  {
  }

  /** A handler's step writes its own slot, or the free one it claims. */
  lemma TouchesOwn(st: State, a: Action, st': State, s: nat)
    requires Enabled(st, a) && st' == Apply(st, a) && !IsLoggerStep(a) && |st.slots| == MAX_STACKS_COUNT && s < |st.slots|
    ensures |st'.slots| == |st.slots|
    ensures st'.slots[s] == st.slots[s] || st.slots[s].word == FREE_WORD ||
            (!a.Deliver? && st.threads[a.tid] != [] && Holds(Top(st.threads[a.tid]), s))
  {
  }

  lemma LoggerTouches(st: State, a: Action, st': State, s: nat)
    requires IsLoggerStep(a) && LoggerEnabled(st, a) && st' == LoggerApply(st, a) && LoggerOk(st) && s < |st.slots|
    ensures |st'.slots| == |st.slots|
    ensures st'.slots[s] == st.slots[s] || st.slots[s].word.code < MAXVAL
  {
  }

  lemma HeldOnce(st: State, tid: Tid, f: nat, u: Tid, s: nat)
    requires Inv(st) && Exists(st, tid, f) && Holds(st.threads[tid][f], s)
    requires u in st.threads && st.threads[u] != [] && Holds(Top(st.threads[u]), s)
    ensures u == tid && f == |st.threads[u]| - 1
  {
    var stack := st.threads[u];
    assert FrameOk(st, tid, st.threads[tid], f) && FrameOk(st, u, stack, |stack| - 1);
    if u == tid && f < |stack| - 1 {
      LowerDoNotHold(st, tid, s, f);
    }
  }

  /** Nobody else writes the handler's slot. */
  lemma SlotStep(st: State, a: Action, st': State, tid: Tid, f: nat)
    requires Inv(st) && Enabled(st, a) && st' == Apply(st, a) && !Own(st, a, tid, f)
    requires Exists(st, tid, f) && HasSlot(st.threads[tid][f])
    ensures var s := st.threads[tid][f].slot;
            s < MAX_STACKS_COUNT == |st'.slots| && st'.slots[s] == st.slots[s]
  {
    var s := st.threads[tid][f].slot;
    assert FrameOk(st, tid, st.threads[tid], f);
    if IsLoggerStep(a) {
      LoggerTouches(st, a, st', s);
    } else {
      TouchesOwn(st, a, st', s);
      if !a.Deliver? && st.threads[a.tid] != [] && Holds(Top(st.threads[a.tid]), s) {
        HeldOnce(st, tid, f, a.tid, s);
      }
    }
  }

  // ---------------------------------------------------------------- back to the step that said so

  /** The last step, seen from a handler at work: somebody else's, which left it and its slot alone,
      or its own. */
  ghost predicate CameBy(states: seq<State>, actions: seq<Action>, tid: Tid, f: nat, k: nat)
    requires k < |states| == |actions| + 1 && Exists(states[k], tid, f) && Working(states[k].threads[tid][f])
  {
    && 0 < k && Exists(states[k - 1], tid, f) && |states[k].slots| == |states[k - 1].slots| == MAX_STACKS_COUNT
    && var st, st' := states[k - 1], states[k];
       var fr, fr' := st.threads[tid][f], st'.threads[tid][f];
       if Own(st, actions[k - 1], tid, f) then Moved(st, actions[k - 1], st', fr, fr') && actions[k - 1].tid == tid
       else fr == fr' && fr.slot < MAX_STACKS_COUNT && st'.slots[fr.slot] == st.slots[fr.slot]
  }

  lemma LastStep(states: seq<State>, actions: seq<Action>, tid: Tid, f: nat, k: nat)
    requires IsRun(states, actions) && k < |states| && Exists(states[k], tid, f) && Working(states[k].threads[tid][f])
    ensures CameBy(states, actions, tid, f, k)
  {
    RunInv(states, actions, k);
    RunInv(states, actions, k - 1);
    var st, a, st' := states[k - 1], actions[k - 1], states[k];
    assert Enabled(st, a) && st' == Apply(st, a);
    if Own(st, a, tid, f) {
      OwnStep(st, a, st', tid, f);
    } else {
      LevelStep(st, a, st', tid, f);
      SlotStep(st, a, st', tid, f);
    }
  }

  /** How a crashed handler got there: it is still so, or the jump from the fault above it found it
      in its collect call. */
  ghost predicate CrashedFrom(states: seq<State>, actions: seq<Action>, tid: Tid, f: nat, k: nat)
    requires k < |states| == |actions| + 1 && Exists(states[k], tid, f) && states[k].threads[tid][f].Crashed?
  {
    && 0 < k && Exists(states[k - 1], tid, f) && !Own(states[k - 1], actions[k - 1], tid, f)
    && var s := states[k].threads[tid][f].slot;
       && states[k - 1].threads[tid][f] in {Crashed(s), Collecting(s)}
       && s < MAX_STACKS_COUNT == |states[k].slots| == |states[k - 1].slots|
       && states[k].slots[s] == states[k - 1].slots[s]
  }

  lemma JumpLands(st: State, st': State, tid: Tid, f: nat)
    requires Inv(st) && HandlerEnabled(st, Jump(tid)) && st' == HandlerApply(st, Jump(tid))
    requires Exists(st', tid, f) && st'.threads[tid][f].Crashed?
    ensures Exists(st, tid, f) && f + 1 < |st.threads[tid]| && st'.slots == st.slots
    ensures st.threads[tid][f] in {st'.threads[tid][f], Collecting(st'.threads[tid][f].slot)}
  {
    ScanFindsInnermost(st, tid, Top(st.threads[tid]));
  }

  lemma CrashKept(st: State, a: Action, st': State, tid: Tid, f: nat)
    requires Enabled(st, a) && st' == Apply(st, a) && a != Jump(tid)
    requires Exists(st', tid, f) && st'.threads[tid][f].Crashed?
    ensures Exists(st, tid, f) && !Own(st, a, tid, f) && st.threads[tid][f] == st'.threads[tid][f]
  {
    if !IsLoggerStep(a) && !a.Deliver? {
      if a.tid == tid {
        OwnKeepsCrash(st, a, st', f);
      } else {
        StackStep(st, a, st');
      }
    }
  }

  lemma OwnKeepsCrash(st: State, a: Action, st': State, f: nat)
    requires !IsLoggerStep(a) && !a.Deliver? && !a.Jump? && HandlerEnabled(st, a) && st' == HandlerApply(st, a)
    requires Exists(st', a.tid, f) && st'.threads[a.tid][f].Crashed?
    ensures f + 1 < |st.threads[a.tid]| && st.threads[a.tid][f] == st'.threads[a.tid][f]
  {
  }

  lemma LastCrashed(states: seq<State>, actions: seq<Action>, tid: Tid, f: nat, k: nat)
    requires IsRun(states, actions) && k < |states| && Exists(states[k], tid, f) && states[k].threads[tid][f].Crashed?
    ensures CrashedFrom(states, actions, tid, f, k)
  {
    RunInv(states, actions, k);
    RunInv(states, actions, k - 1);
    var st, a, st' := states[k - 1], actions[k - 1], states[k];
    assert Enabled(st, a) && st' == Apply(st, a);
    assert FrameOk(st', tid, st'.threads[tid], f);
    if a == Jump(tid) {
      JumpLands(st, st', tid, f);
    } else {
      CrashKept(st, a, st', tid, f);
      SlotStep(st, a, st', tid, f);
    }
  }

  ghost predicate Traced(states: seq<State>, actions: seq<Action>, tid: Tid, f: nat) {
    && |states| == |actions| + 1
    && (forall k: nat {:trigger CameBy(states, actions, tid, f, k)} ::
          k < |states| && Exists(states[k], tid, f) && Working(states[k].threads[tid][f]) ==>
          CameBy(states, actions, tid, f, k))
    && (forall k: nat {:trigger CrashedFrom(states, actions, tid, f, k)} ::
          k < |states| && Exists(states[k], tid, f) && states[k].threads[tid][f].Crashed? ==>
          CrashedFrom(states, actions, tid, f, k))
  }

  lemma RunTraced(states: seq<State>, actions: seq<Action>, tid: Tid, f: nat)
    requires IsRun(states, actions)
    ensures Traced(states, actions, tid, f)
  {
    forall k: nat | k < |states| && Exists(states[k], tid, f) && Working(states[k].threads[tid][f])
      ensures CameBy(states, actions, tid, f, k)
    {
      LastStep(states, actions, tid, f, k);
    }
    forall k: nat | k < |states| && Exists(states[k], tid, f) && states[k].threads[tid][f].Crashed?
      ensures CrashedFrom(states, actions, tid, f, k)
    {
      LastCrashed(states, actions, tid, f, k);
    }
  }

  predicate HasCode(fr: Frame) {
    fr.Collected? || fr.Typed?
  }

  predicate HasFrames(fr: Frame) {
    fr.Collecting? || HasCode(fr) || fr.Crashed? || fr.CrashTimed?
  }

  predicate HasTime(fr: Frame) {
    fr.Timed? || fr.Ready? || fr.Collecting? || HasCode(fr)
  }

  /** The code a handler is about to publish is what its collect call returned. */
  lemma {:induction false} CodeComesFrom(states: seq<State>, actions: seq<Action>, tid: Tid, f: nat, k: nat) returns (c: nat)
    requires Traced(states, actions, tid, f) && k < |states| && Exists(states[k], tid, f)
    requires HasCode(states[k].threads[tid][f])
    ensures LastOwn(states, actions, tid, f, c, k) && actions[c] == EndCollect(tid, states[k].threads[tid][f].ret)
  {
    assert CameBy(states, actions, tid, f, k);
    var st, a := states[k - 1], actions[k - 1];
    if Own(st, a, tid, f) && a.EndCollect? {
      c := k - 1;
    } else {
      c := CodeComesFrom(states, actions, tid, f, k - 1);
      LastOwnLater(states, actions, tid, f, c, k - 1);
    }
  }

  /** The time in its slot is that of its stamp. */
  lemma {:induction false} TimeComesFrom(states: seq<State>, actions: seq<Action>, tid: Tid, f: nat, k: nat) returns (c: nat)
    requires Traced(states, actions, tid, f) && k < |states| && Exists(states[k], tid, f)
    requires HasTime(states[k].threads[tid][f])
    ensures LastOwn(states, actions, tid, f, c, k) && actions[c] == Stamp(tid)
    ensures states[k].threads[tid][f].slot < |states[k].slots|
    ensures states[k].slots[states[k].threads[tid][f].slot].time == states[c].clock
  {
    assert CameBy(states, actions, tid, f, k);
    var st, a := states[k - 1], actions[k - 1];
    if Own(st, a, tid, f) && a.Stamp? {
      c := k - 1;
    } else {
      c := TimeComesFrom(states, actions, tid, f, k - 1);
      LastOwnLater(states, actions, tid, f, c, k - 1);
    }
  }

  predicate SetsFrames(a: Action) {
    a.WriteFrames? || a.SetJump?
  }

  ghost predicate LastFrames(states: seq<State>, actions: seq<Action>, tid: Tid, f: nat, m: nat, k: nat)
    requires k <= |actions| < |states|
  {
    && m < k && Own(states[m], actions[m], tid, f) && SetsFrames(actions[m])
    && forall j :: m < j < k && SetsFrames(actions[j]) ==> !Own(states[j], actions[j], tid, f)
  }

  /** The frames of a slot after the step. */
  function FramesAfter(st: State, a: Action, slot: nat): seq<int>
    requires slot < |st.slots|
  {
    if a.WriteFrames? then a.frames else st.slots[slot].frames
  }

  /** Its frames are the last ones the collect call wrote, or, if it wrote none, what the slot held
      at the jump buffer. */
  lemma {:induction false} FramesComeFrom(states: seq<State>, actions: seq<Action>, tid: Tid, f: nat, k: nat) returns (c: nat)
    requires Traced(states, actions, tid, f) && k < |states| && Exists(states[k], tid, f)
    requires HasFrames(states[k].threads[tid][f])
    ensures LastFrames(states, actions, tid, f, c, k)
    ensures var s := states[k].threads[tid][f].slot;
            && s < |states[k].slots| && s < |states[c].slots|
            && states[k].slots[s].frames == FramesAfter(states[c], actions[c], s)
  {
    if states[k].threads[tid][f].Crashed? {
      assert CrashedFrom(states, actions, tid, f, k);
    } else {
      assert CameBy(states, actions, tid, f, k);
    }
    var st, a := states[k - 1], actions[k - 1];
    if Own(st, a, tid, f) && SetsFrames(a) {
      c := k - 1;
    } else {
      c := FramesComeFrom(states, actions, tid, f, k - 1);
    }
  }

  /** Its two types are those it wrote. */
  lemma {:induction false} TypesComeFrom(states: seq<State>, actions: seq<Action>, tid: Tid, f: nat, k: nat) returns (c: nat)
    requires Traced(states, actions, tid, f) && k < |states| && Exists(states[k], tid, f) && states[k].threads[tid][f].Typed?
    ensures states[k].threads[tid][f].slot < |states[k].slots| && LastOwn(states, actions, tid, f, c, k)
    ensures var s := states[k].slots[states[k].threads[tid][f].slot];
            actions[c] == WriteTypes(tid, s.profilerType, s.timerType)
  {
    assert CameBy(states, actions, tid, f, k);
    var st, a := states[k - 1], actions[k - 1];
    if Own(st, a, tid, f) {
      c := k - 1;
    } else {
      c := TypesComeFrom(states, actions, tid, f, k - 1);
      LastOwnLater(states, actions, tid, f, c, k - 1);
    }
  }

  /** After a crash, time and profiler type are those of the second stamp. */
  lemma {:induction false} CrashComesFrom(states: seq<State>, actions: seq<Action>, tid: Tid, f: nat, k: nat) returns (c: nat)
    requires Traced(states, actions, tid, f) && k < |states| && Exists(states[k], tid, f)
    requires states[k].threads[tid][f].CrashTimed?
    ensures states[k].threads[tid][f].slot < |states[k].slots| && LastOwn(states, actions, tid, f, c, k)
    ensures var s := states[k].slots[states[k].threads[tid][f].slot];
            actions[c] == CrashStamp(tid, s.profilerType) && s.time == states[c].clock
  {
    assert CameBy(states, actions, tid, f, k);
    var st, a := states[k - 1], actions[k - 1];
    if Own(st, a, tid, f) {
      c := k - 1;
    } else {
      c := CrashComesFrom(states, actions, tid, f, k - 1);
      LastOwnLater(states, actions, tid, f, c, k - 1);
    }
  }

  /** What a handler publishes is what it collected: the code its collect call returned, under the
      time of its stamp, with the frames and types it wrote last. It publishes nothing exactly when
      the tracer was disabled or takes care of its samples itself, and then the slot is free again. */
  lemma PublishesWhatItCollected(states: seq<State>, actions: seq<Action>, tid: Tid, f: nat, k: nat)
    returns (s: nat, w: nat, c: nat, y: nat)
    requires IsRun(states, actions) && k < |actions| && actions[k] == Publish(tid) && Own(states[k], actions[k], tid, f)
    ensures LastOwn(states, actions, tid, f, s, k) && actions[s] == Stamp(tid)
    ensures LastOwn(states, actions, tid, f, c, k) && actions[c].EndCollect?
    ensures LastOwn(states, actions, tid, f, y, k) && actions[y].WriteTypes?
    ensures LastFrames(states, actions, tid, f, w, k)
    ensures |states[k].slots| == |states[k + 1].slots| == |states[w].slots| == MAX_STACKS_COUNT
    ensures var slot := states[k].threads[tid][f].slot;
            && slot < MAX_STACKS_COUNT
            && states[k + 1].slots[slot].word.code !in {BUSY, BUSY_WITH_METADATA}
            && if actions[c].ret == TRACER_DISABLED || actions[c].ret == IGNORE then
                 states[k + 1].published == states[k].published && states[k + 1].slots[slot].word == FREE_WORD
               else
                 states[k + 1].published == states[k].published + [Sample(Word(tid, actions[c].ret), states[s].clock,
                   FramesAfter(states[w], actions[w], slot), actions[y].profiler, actions[y].timer)]
  {
    RunInv(states, actions, k);
    RunInv(states, actions, k + 1);
    var st := states[k];
    assert Enabled(st, actions[k]) && states[k + 1] == Apply(st, actions[k]);
    assert FrameOk(st, tid, st.threads[tid], f);
    RunTraced(states, actions, tid, f);
    s := TimeComesFrom(states, actions, tid, f, k);
    c := CodeComesFrom(states, actions, tid, f, k);
    w := FramesComeFrom(states, actions, tid, f, k);
    y := TypesComeFrom(states, actions, tid, f, k);
    RunInv(states, actions, w);
    PublishStep(st, states[k + 1], tid, f);
  }

  lemma PublishStep(st: State, st': State, tid: Tid, f: nat)
    requires Own(st, Publish(tid), tid, f) && HandlerEnabled(st, Publish(tid)) && st' == HandlerApply(st, Publish(tid))
    requires !st'.aborted
    ensures var slot, ret := st.threads[tid][f].slot, st.threads[tid][f].ret;
            && slot < |st.slots| == |st'.slots|
            && st'.slots[slot].word == (if ret == TRACER_DISABLED || ret == IGNORE then FREE_WORD else Word(tid, ret))
            && st'.published == if ret == TRACER_DISABLED || ret == IGNORE || ret >= MAXVAL then st.published
                                else st.published + [Contents(st.slots[slot].(word := Word(tid, ret)))]
  {
  }

  /** A handler that crashed publishes the interruption, under the time of its second stamp, with
      the frames its collect call had written by then. */
  lemma CrashPublishesInterrupt(states: seq<State>, actions: seq<Action>, tid: Tid, f: nat, k: nat) returns (c: nat, w: nat)
    requires IsRun(states, actions) && k < |actions| && actions[k] == CrashPublish(tid)
    requires Own(states[k], actions[k], tid, f)
    ensures LastOwn(states, actions, tid, f, c, k) && actions[c].CrashStamp?
    ensures LastFrames(states, actions, tid, f, w, k)
    ensures |states[k + 1].published| == |states[k].published| + 1 && states[k].published <= states[k + 1].published
    ensures var sample, slot := states[k + 1].published[|states[k].published|], states[k].threads[tid][f].slot;
            && sample.word == Word(tid, SIGNAL_INTERRUPT)
            && sample.time == states[c].clock && sample.profilerType == actions[c].profiler
            && slot < |states[w].slots| && sample.frames == FramesAfter(states[w], actions[w], slot)
  {
    RunInv(states, actions, k + 1);
    assert Enabled(states[k], actions[k]) && states[k + 1] == Apply(states[k], actions[k]);
    CrashStep(states[k], states[k + 1], tid, f);
    RunTraced(states, actions, tid, f);
    c := CrashComesFrom(states, actions, tid, f, k);
    w := FramesComeFrom(states, actions, tid, f, k);
  }

  lemma CrashStep(st: State, st': State, tid: Tid, f: nat)
    requires Own(st, CrashPublish(tid), tid, f) && HandlerEnabled(st, CrashPublish(tid))
    requires st' == HandlerApply(st, CrashPublish(tid)) && !st'.aborted
    ensures st.threads[tid][f].CrashTimed? && st.threads[tid][f].slot < |st.slots|
    ensures st'.published ==
              st.published + [Contents(st.slots[st.threads[tid][f].slot].(word := Word(tid, SIGNAL_INTERRUPT)))]
  {
  }

  /** Nothing else publishes. */
  lemma OnlyPublishPublishes(states: seq<State>, actions: seq<Action>, k: nat)
    requires IsRun(states, actions) && k < |actions| && !actions[k].Publish? && !actions[k].CrashPublish?
    ensures states[k + 1].published == states[k].published
  {
    assert Enabled(states[k], actions[k]) && states[k + 1] == Apply(states[k], actions[k]);
  }

  // ---------------------------------------------------------------- looking for a slot

  const WRAP: nat := 0x1_0000_0000

  lemma ProbeBeforeWrap(start: nat, i: nat)
    requires start + i < WRAP && i < MAX_STACKS_COUNT
    ensures Probe(start, i) == (start % MAX_STACKS_COUNT + i) % MAX_STACKS_COUNT
  {
  }

  /** The 24 probes of a handler reach every slot, unless the 32-bit counter wraps on the way. */
  lemma ProbesReachAllIff(start: nat)
    requires start < WRAP
    ensures (forall s: nat :: s < MAX_STACKS_COUNT ==> Probed(start, s)) <==> start + MAX_STACKS_COUNT <= WRAP
  {
    if start + MAX_STACKS_COUNT <= WRAP {
      forall s: nat | s < MAX_STACKS_COUNT
        ensures Probed(start, s)
      {
        var r := start % MAX_STACKS_COUNT;
        var i := if s >= r then s - r else s + MAX_STACKS_COUNT - r;
        ProbeBeforeWrap(start, i);
        assert Probe(start, i) == s;
      }
    } else {
      ProbesMiss(start, if WRAP - start <= 8 then 23 else 16);
    }
  }

  predicate Probed(start: nat, s: nat) {
    exists i: nat :: i < MAX_STACKS_COUNT && Probe(start, i) == s
  }

  /** 2^32 leaves 16 by 24, so the probes after the wrap partly repeat those before it. */
  lemma ProbesMiss(start: nat, s: nat)
    requires start < WRAP < start + MAX_STACKS_COUNT && s == if WRAP - start <= 8 then 23 else 16
    ensures !Probed(start, s)
  {
    forall i: nat | i < MAX_STACKS_COUNT
      ensures Probe(start, i) != s
    {
      var d := WRAP - start;
      assert (start + i) % WRAP == if i < d then start + i else i - d;
      assert WRAP == 24 * 178956970 + 16;
    }
  }

  /** A handler still scanning has probed, at its own earlier steps, one slot after the other from
      the counter value it took, and has found each of them occupied. */
  lemma {:induction false} ScanProbed(states: seq<State>, actions: seq<Action>, tid: Tid, f: nat, k: nat, j: nat)
    returns (m: nat)
    requires IsRun(states, actions) && k < |states| && Exists(states[k], tid, f) && states[k].threads[tid][f].Scanning?
    requires j < states[k].threads[tid][f].i
    ensures ProbedInVain(states, actions, tid, f, m, k, states[k].threads[tid][f].start, j)
  {
    var st, a, st' := states[k - 1], actions[k - 1], states[k];
    assert Enabled(st, a) && st' == Apply(st, a);
    ScanStep(st, a, st', tid, f);
    if Own(st, a, tid, f) && j == st.threads[tid][f].i {
      m := k - 1;
    } else {
      m := ScanProbed(states, actions, tid, f, k - 1, j);
    }
  }

  ghost predicate ProbedInVain(states: seq<State>, actions: seq<Action>, tid: Tid, f: nat, m: nat, k: nat, start: nat, j: nat)
    requires k < |states| == |actions| + 1
  {
    && m < k && Own(states[m], actions[m], tid, f) && actions[m].TryClaim?
    && Probe(start, j) < |states[m].slots| && states[m].slots[Probe(start, j)].word != FREE_WORD
  }

  lemma ScanStep(st: State, a: Action, st': State, tid: Tid, f: nat)
    requires Enabled(st, a) && st' == Apply(st, a) && Exists(st', tid, f) && st'.threads[tid][f].Scanning?
    ensures Exists(st, tid, f)
    ensures var fr, fr' := st.threads[tid][f], st'.threads[tid][f];
            if !Own(st, a, tid, f) then fr == fr'
            else if a.BeginTracer? then fr' == Scanning(st.currentSlot, 0)
            else a.TryClaim? && fr.Scanning? && fr' == Scanning(fr.start, fr.i + 1) && |st.slots| == MAX_STACKS_COUNT
                 && st.slots[Probe(fr.start, fr.i)].word != FREE_WORD
  {
    if !Own(st, a, tid, f) {
      LevelStep(st, a, st', tid, f);
    } else {
      OwnScanStep(st, a, st', tid, f);
    }
  }

  lemma OwnScanStep(st: State, a: Action, st': State, tid: Tid, f: nat)
    requires Own(st, a, tid, f) && HandlerEnabled(st, a) && st' == HandlerApply(st, a)
    requires Exists(st', tid, f) && st'.threads[tid][f].Scanning?
    ensures a.BeginTracer? || a.TryClaim?
    ensures a.BeginTracer? ==> st'.threads[tid][f] == Scanning(st.currentSlot, 0)
    ensures a.TryClaim? ==>
              var fr := st.threads[tid][f];
              && fr.Scanning? && st'.threads[tid][f] == Scanning(fr.start, fr.i + 1)
              && |st.slots| == MAX_STACKS_COUNT && st.slots[Probe(fr.start, fr.i)].word != FREE_WORD
  {
  }

  /** A handler gives up only after probing, in turn, the 24 slots from the counter value it took,
      each of them occupied when it looked. */
  lemma GivesUpAfterAllProbes(states: seq<State>, actions: seq<Action>, tid: Tid, f: nat, k: nat, j: nat) returns (m: nat)
    requires IsRun(states, actions) && k < |actions| && actions[k] == TryClaim(tid) && Own(states[k], actions[k], tid, f)
    requires |states[k + 1].threads[tid]| == f && j < MAX_STACKS_COUNT
    ensures states[k].threads[tid][f].Scanning?
    ensures ProbedInVain(states, actions, tid, f, m, k + 1, states[k].threads[tid][f].start, j)
  {
    assert Enabled(states[k], actions[k]) && states[k + 1] == Apply(states[k], actions[k]);
    if j == states[k].threads[tid][f].i {
      m := k;
    } else {
      m := ScanProbed(states, actions, tid, f, k, j);
    }
  }

  // ---------------------------------------------------------------- the logger

  /** The slots the logger looks at from step i to step k. */
  function Looks(states: seq<State>, actions: seq<Action>, i: nat, k: nat): seq<nat>
    requires k <= |actions| < |states|
    decreases k
  {
    if k <= i then []
    else Looks(states, actions, i, k - 1) + if actions[k - 1].LogLoad? then [states[k - 1].logger.i] else []
  }

  /** From slot a on, n slots have been looked at; the last one may not be done with. */
  predicate Looked(pc: LoggerPc, a: nat, n: nat) {
    if pc.At? then pc.i == (a + n) % MAX_STACKS_COUNT else n > 0 && pc.i == (a + n - 1) % MAX_STACKS_COUNT
  }

  lemma LookStep(st: State, a: Action, st': State, from: nat, n: nat)
    requires Inv(st) && Enabled(st, a) && st' == Apply(st, a) && !st'.aborted && Looked(st.logger, from, n)
    ensures if a.LogLoad? then st.logger.i == (from + n) % MAX_STACKS_COUNT && Looked(st'.logger, from, n + 1)
            else Looked(st'.logger, from, n)
  {
    LogMove(st, a, st');
    NextOf(from + n);
    if n > 0 {
      NextOf(from + n - 1);
    }
  }

  lemma NextOf(x: nat)
    ensures NextSlot(x % MAX_STACKS_COUNT) == At((x + 1) % MAX_STACKS_COUNT)
  {
  }

  predicate IsPublished(w: Word) {
    w.code != FREE && w.code != BUSY && w.code != BUSY_WITH_METADATA
  }

  /** The logger's three steps. */
  lemma LogMove(st: State, a: Action, st': State)
    requires Enabled(st, a) && st' == Apply(st, a) && !st'.aborted
    ensures !IsLoggerStep(a) ==> st'.logger == st.logger && st'.released == st.released
    ensures IsLoggerStep(a) ==> st.logger.i < MAX_STACKS_COUNT == |st.slots| == |st'.slots|
    ensures a.LogLoad? ==>
              && st.logger.At? && st'.released == st.released && st'.slots == st.slots
              && st'.logger == if IsPublished(st.slots[st.logger.i].word)
                               then Reading(st.logger.i, st.slots[st.logger.i].word) else NextSlot(st.logger.i)
    ensures a.LogCopy? ==>
              && st.logger.Reading? && st'.released == st.released && st'.slots == st.slots
              && st'.logger == Releasing(st.logger.i, st.logger.word, Contents(st.slots[st.logger.i]))
    ensures a.LogRelease? ==>
              && st.logger.Releasing? && st'.logger == NextSlot(st.logger.i)
              && st'.slots[st.logger.i].word == FREE_WORD
              && st'.released == st.released + [Release(st.slots[st.logger.i].sample, st.logger.copy)]
  {
  }

  /** From step i to step k the logger has looked at the slots in turn. */
  ghost predicate InTurn(states: seq<State>, actions: seq<Action>, i: nat, k: nat)
    requires i <= k <= |actions| < |states|
  {
    var from, looks := states[i].logger.i, Looks(states, actions, i, k);
    Looked(states[k].logger, from, |looks|) && forall j :: 0 <= j < |looks| ==> looks[j] == (from + j) % MAX_STACKS_COUNT
  }

  lemma InTurnNext(states: seq<State>, actions: seq<Action>, i: nat, k: nat)
    requires IsRun(states, actions) && i <= k < |actions| && InTurn(states, actions, i, k)
    ensures InTurn(states, actions, i, k + 1)
  {
    RunInv(states, actions, k);
    NeverAborts(states, actions, k + 1);
    assert Enabled(states[k], actions[k]) && states[k + 1] == Apply(states[k], actions[k]);
    LookStep(states[k], actions[k], states[k + 1], states[i].logger.i, |Looks(states, actions, i, k)|);
  }

  lemma InTurnStart(states: seq<State>, actions: seq<Action>, i: nat)
    requires IsRun(states, actions) && i < |states| && states[i].logger.At?
    ensures InTurn(states, actions, i, i)
  {
    RunInv(states, actions, i);
  }

  lemma {:induction false} InTurnClimbs(states: seq<State>, actions: seq<Action>, i: nat, k: nat)
    requires i <= k <= |actions| < |states| && InTurn(states, actions, i, i)
    requires forall m :: i <= m < k && InTurn(states, actions, i, m) ==> InTurn(states, actions, i, m + 1)
    ensures InTurn(states, actions, i, k)
  {
    if i < k {
      InTurnClimbs(states, actions, i, k - 1);
    }
  }

  /** The logger looks at the slots in turn, round and round. */
  lemma RoundRobin(states: seq<State>, actions: seq<Action>, i: nat, k: nat)
    requires IsRun(states, actions) && i <= k < |states| && states[i].logger.At?
    ensures InTurn(states, actions, i, k)
  {
    InTurnStart(states, actions, i);
    forall m | i <= m < k && InTurn(states, actions, i, m)
      ensures InTurn(states, actions, i, m + 1)
    {
      InTurnNext(states, actions, i, m);
    }
    InTurnClimbs(states, actions, i, k);
  }

  /** Between two looks at slot 0 it looks at every slot once, in order. */
  lemma PassLooksAtAll(states: seq<State>, actions: seq<Action>, i: nat, k: nat)
    requires IsRun(states, actions) && i < k < |states| && actions[i] == LogLoad
    requires states[i].logger == At(0) && states[k].logger == At(0) && 0 !in Looks(states, actions, i + 1, k)
    ensures Looks(states, actions, i, k) == seq(MAX_STACKS_COUNT, j => j)
  {
    RoundRobin(states, actions, i, k);
    LooksFrom(states, actions, i, k);
    WholeRound(Looks(states, actions, i, k), Looks(states, actions, i + 1, k));
  }

  lemma WholeRound(looks: seq<nat>, rest: seq<nat>)
    requires looks == [0] + rest && 0 !in rest && |looks| % MAX_STACKS_COUNT == 0
    requires forall j :: 0 <= j < |looks| ==> looks[j] == j % MAX_STACKS_COUNT
    ensures looks == seq(MAX_STACKS_COUNT, j => j)
  {
    if |looks| > MAX_STACKS_COUNT {
      ComesRound(looks, rest);
      assert false;
    }
  }

  lemma ComesRound(looks: seq<nat>, rest: seq<nat>)
    requires looks == [0] + rest && |looks| > MAX_STACKS_COUNT && looks[MAX_STACKS_COUNT] == 0
    ensures 0 in rest
  {
    assert rest[MAX_STACKS_COUNT - 1] == 0;
  }

  lemma {:induction false} LooksFrom(states: seq<State>, actions: seq<Action>, i: nat, k: nat)
    requires i < k <= |actions| < |states| && actions[i] == LogLoad
    ensures Looks(states, actions, i, k) == [states[i].logger.i] + Looks(states, actions, i + 1, k)
    decreases k
  {
    if k > i + 1 {
      LooksFrom(states, actions, i, k - 1);
    }
  }

  /** What has become of slot s, which held `was` when the logger looked at it. */
  ghost predicate Handled(st: State, s: nat, was: Slot, before: seq<Release>) {
    if !IsPublished(was.word) then st.logger == NextSlot(s) && st.released == before
    else if st.logger.At? then st.released == before + [Release(was.sample, Contents(was))]
    else
      && s < |st.slots| && st.slots[s] == was && st.released == before && st.logger.i == s
      && (st.logger.Releasing? ==> st.logger.copy == Contents(was))
  }

  lemma HandledStep(st: State, a: Action, st': State, s: nat, was: Slot, before: seq<Release>)
    requires Enabled(st, a) && st' == Apply(st, a) && !st'.aborted && Handled(st, s, was, before) && !a.LogLoad?
    requires IsPublished(was.word) && !st'.logger.At? ==> s < |st'.slots| && st'.slots[s] == was
    ensures Handled(st', s, was, before)
    ensures IsPublished(was.word) && st'.logger.At? && !st.logger.At? ==>
              a == LogRelease && s < |st'.slots| && st'.slots[s].word == FREE_WORD
  {
    LogMove(st, a, st');
  }

  lemma LookStarts(st: State, st': State)
    requires Enabled(st, LogLoad) && st' == Apply(st, LogLoad) && !st'.aborted
    ensures st.logger.i < |st.slots| && Handled(st', st.logger.i, st.slots[st.logger.i], st.released)
  {
    LogMove(st, LogLoad, st');
  }

  /** A published slot the logger is dealing with stays as it is until the release. */
  lemma WaitsForRelease(states: seq<State>, actions: seq<Action>, k: nat, s: nat)
    requires IsRun(states, actions) && k < |actions| && s < |states[k].slots| && IsPublished(states[k].slots[s].word)
    requires states[k].logger.i == s && !states[k].logger.At? && !states[k + 1].logger.At?
    ensures s < |states[k + 1].slots| && states[k + 1].slots[s] == states[k].slots[s]
  {
    RunInv(states, actions, k);
    RunInv(states, actions, k + 1);
    var st, a, st' := states[k], actions[k], states[k + 1];
    assert Enabled(st, a) && st' == Apply(st, a);
    LogMove(st, a, st');
    assert SlotOk(st, s);
    PublishedUntouched(states, actions, k, s);
  }

  ghost predicate FreedAt(states: seq<State>, actions: seq<Action>, i: nat, r: nat, k: nat, s: nat)
    requires k < |states| && |actions| == |states| - 1
  {
    i < r < k && actions[r] == LogRelease && s < |states[r + 1].slots| && states[r + 1].slots[s].word == FREE_WORD
  }

  ghost predicate Freed(states: seq<State>, actions: seq<Action>, i: nat, k: nat, s: nat)
    requires k < |states| && |actions| == |states| - 1
  {
    exists r :: FreedAt(states, actions, i, r, k, s)
  }

  /** Until it looks at the next slot the logger deals with this one: a published sample is logged
      with the contents it had, and its slot is freed; anything else is left alone. */
  lemma {:induction false} LookReleases(states: seq<State>, actions: seq<Action>, i: nat, k: nat)
    requires IsRun(states, actions) && i < k < |states| && actions[i] == LogLoad && Looks(states, actions, i + 1, k) == []
    ensures states[i].logger.i < |states[i].slots|
    ensures var s := states[i].logger.i;
            && Handled(states[k], s, states[i].slots[s], states[i].released)
            && (IsPublished(states[i].slots[s].word) && states[k].logger.At? ==> Freed(states, actions, i, k, s))
  {
    NeverAborts(states, actions, k);
    var st, a, st' := states[k - 1], actions[k - 1], states[k];
    assert Enabled(st, a) && st' == Apply(st, a);
    if k == i + 1 {
      LookStarts(st, st');
      LogMove(st, a, st');
    } else {
      LookReleases(states, actions, i, k - 1);
      LookGoesOn(states, actions, i, k);
    }
  }

  lemma LookGoesOn(states: seq<State>, actions: seq<Action>, i: nat, k: nat)
    requires IsRun(states, actions) && i + 1 < k < |states| && !actions[k - 1].LogLoad?
    requires states[i].logger.i < |states[i].slots|
    requires var s := states[i].logger.i;
             && Handled(states[k - 1], s, states[i].slots[s], states[i].released)
             && (IsPublished(states[i].slots[s].word) && states[k - 1].logger.At? ==>
                   Freed(states, actions, i, k - 1, s))
    ensures var s := states[i].logger.i;
            && Handled(states[k], s, states[i].slots[s], states[i].released)
            && (IsPublished(states[i].slots[s].word) && states[k].logger.At? ==> Freed(states, actions, i, k, s))
  {
    NeverAborts(states, actions, k);
    var st, a, st', s := states[k - 1], actions[k - 1], states[k], states[i].logger.i;
    assert Enabled(st, a) && st' == Apply(st, a);
    LogMove(st, a, st');
    if IsPublished(states[i].slots[s].word) && !st.logger.At? && !st'.logger.At? {
      WaitsForRelease(states, actions, k - 1, s);
    }
    HandledStep(st, a, st', s, states[i].slots[s], states[i].released);
    if IsPublished(states[i].slots[s].word) && st'.logger.At? {
      if st.logger.At? {
        var r :| FreedAt(states, actions, i, r, k - 1, s);
        assert FreedAt(states, actions, i, r, k, s);
      } else {
        assert FreedAt(states, actions, i, k - 1, k, s);
      }
    }
  }
}
