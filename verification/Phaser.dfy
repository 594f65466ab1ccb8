/**
 The futex phaser of deps/sigmux/phaser.c as interleaved atomic steps.

 Each read-modify-write on a counter, each plain load and each futex call is one step; any
 number of sections and the one serialised drainer take steps in any order. The deliberate
 race is kept: the DRAINING test and the increment of phaser_counter_try_inc are separate
 steps, so a drain may set DRAINING between them.
 */
module Phaser {
  import opened GracePeriod

  /** Sections inside one counter stay below this, so a count never reaches the high bit. */
  const MAX_SECTIONS: nat := 0x8000_0000

  /** futex(2) compares 32-bit words. */
  const FUTEX_MODULUS: nat := 0x1_0000_0000

  /** Where one pass through phaser_enter ... phaser_exit stands. `refusals` counts how often
      the pass found DRAINING set; `since` is how many drains had returned when it arrived. */
  datatype SectionPc =
    | Trying(phase: nat, refusals: nat, since: int)
    | Tested(phase: nat)
    | Inside(phase: nat)
    | Waking(phase: nat)
    | Left

  /** Where phaser_drain stands; `i` is the counter being drained. */
  datatype DrainPc =
    | Idle
    | Marking(i: nat)
    | Calling(i: nat, value: nat)
    | Asleep(i: nat)
    | Reloading(i: nat)
    | Clearing(i: nat)

  /** `high` is DRAINING, the top bit of size_t. `before`, `marks` and `drains` only record
      history: who was inside when the latest drain began, how many times DRAINING was set,
      and how many drains have begun. */
  datatype State = State(
    high: nat,
    counter: seq<nat>,
    sections: map<Section, SectionPc>,
    drainer: DrainPc,
    before: set<Section>,
    marks: nat,
    drains: nat)

  // ---------------------------------------------------------------- steps

  datatype Action =
    | Arrive(s: Section)     // phaser_enter is called
    | TestBit(s: Section)    // load the counter and test DRAINING
    | Increment(s: Section)  // add 1: the section is inside from here
    | Decrement(s: Section)  // phaser_exit subtracts 1
    | Wake(s: Section)       // FUTEX_WAKE after reaching COUNT_DRAINED
    | Begin                  // phaser_drain is called
    | Mark                   // or in DRAINING and inspect the result
    | Wait                   // FUTEX_WAIT compares the counter and may sleep
    | Interrupt              // the sleep ends early with EINTR
    | Reload                 // load the counter again and inspect it
    | Clear                  // mask DRAINING out, go to the next counter or return

  predicate Enabled(st: State, a: Action) {
    |st.counter| == 2 && st.high > 0 &&
    match a
    case Arrive(s) => s !in st.sections
    case TestBit(s) => s in st.sections && st.sections[s].Trying? && st.sections[s].phase < 2
    case Increment(s) =>
      && s in st.sections && st.sections[s].Tested? && st.sections[s].phase < 2
      && |At(st.sections, Inside(st.sections[s].phase))| + 1 < MAX_SECTIONS
    case Decrement(s) => s in st.sections && st.sections[s].Inside? && st.sections[s].phase < 2
    case Wake(s) => s in st.sections && st.sections[s].Waking?
    case Begin => st.drainer.Idle?
    case Mark => st.drainer.Marking? && st.drainer.i < 2
    case Wait => st.drainer.Calling? && st.drainer.i < 2
    case Interrupt => st.drainer.Asleep?
    case Reload => st.drainer.Reloading? && st.drainer.i < 2
    case Clear => st.drainer.Clearing? && st.drainer.i < 2
  }

  function Apply(st: State, a: Action): State
    requires Enabled(st, a)
  {
    match a
    case Arrive(s) => st.(sections := st.sections[s := Trying(0, 0, Returned(st))])
    case TestBit(s) =>
      var pc := st.sections[s];
      if st.counter[pc.phase] >= st.high then
        st.(sections := st.sections[s := Trying(1 - pc.phase, pc.refusals + 1, pc.since)])
      else
        st.(sections := st.sections[s := Tested(pc.phase)])
    case Increment(s) =>
      var p := st.sections[s].phase;
      st.(counter := st.counter[p := WordUp(st.high, st.counter[p])],
          sections := st.sections[s := Inside(p)])
    case Decrement(s) =>
      var p := st.sections[s].phase;
      var word := WordDown(st.high, st.counter[p]);
      st.(counter := st.counter[p := word],
          sections := st.sections[s := if word == st.high then Waking(p) else Left])
    case Wake(s) =>
      st.(sections := st.sections[s := Left],
          drainer := if st.drainer == Asleep(st.sections[s].phase)
                     then Reloading(st.drainer.i) else st.drainer)
    case Begin =>
      st.(drainer := Marking(0), before := Entered(st), drains := st.drains + 1)
    case Mark =>
      var i := st.drainer.i;
      var word := if st.counter[i] >= st.high then st.counter[i] else st.counter[i] + st.high;
      st.(counter := st.counter[i := word], drainer := Inspect(st.high, i, word), marks := st.marks + 1)
    case Wait =>
      var i := st.drainer.i;
      if st.counter[i] % FUTEX_MODULUS == st.drainer.value % FUTEX_MODULUS
      then st.(drainer := Asleep(i)) else st.(drainer := Reloading(i))
    case Interrupt => st.(drainer := Reloading(st.drainer.i))
    case Reload => st.(drainer := Inspect(st.high, st.drainer.i, st.counter[st.drainer.i]))
    case Clear =>
      var i := st.drainer.i;
      var word := if st.counter[i] >= st.high then st.counter[i] - st.high else st.counter[i];
      st.(counter := st.counter[i := word], drainer := if i == 0 then Marking(1) else Idle)
  }

  /** Adding and subtracting 1 on a size_t wraps around. */
  function WordUp(high: nat, word: nat): nat {
    if word + 1 >= 2 * high then 0 else word + 1
  }

  function WordDown(high: nat, word: nat): nat
    requires high > 0
  {
    if word == 0 then 2 * high - 1 else word - 1
  }

  /** The loop test of phaser_drain_counter on a freshly read value. */
  function Inspect(high: nat, i: nat, value: nat): DrainPc {
    if value == high then Clearing(i) else Calling(i, value)
  }

  /** phaser_init, with DRAINING for a 32-bit or a 64-bit size_t. */
  ghost predicate Init(st: State) {
    && (st.high == 0x8000_0000 || st.high == 0x8000_0000_0000_0000)
    && st == State(st.high, [0, 0], map[], Idle, {}, 0, 0)
  }

  ghost predicate IsRun(states: seq<State>, actions: seq<Action>) {
    && |states| == |actions| + 1
    && Init(states[0])
    && forall k {:trigger actions[k]} :: 0 <= k < |actions| ==>
         Enabled(states[k], actions[k]) && states[k + 1] == Apply(states[k], actions[k])
  }

  // ---------------------------------------------------------------- views of a state

  function At(sections: map<Section, SectionPc>, pc: SectionPc): set<Section> {
    set s | s in sections && sections[s] == pc
  }

  function Entered(st: State): set<Section> {
    set s | s in st.sections && st.sections[s].Inside?
  }

  /** Drains that have returned. */
  function Returned(st: State): int {
    if st.drainer.Idle? then st.drains else st.drains - 1
  }

  /** The drainer has set DRAINING on counter i and not yet cleared it. */
  predicate Marked(st: State, i: nat) {
    !st.drainer.Idle? && !st.drainer.Marking? && st.drainer.i == i
  }

  /** The current (or latest) drain has seen counter i at COUNT_DRAINED. */
  predicate SeenDrained(st: State, i: nat) {
    || st.drainer.Idle?
    || st.drainer == Clearing(i)
    || st.drainer.i > i
  }

  // ---------------------------------------------------------------- invariant

  ghost predicate Shape(st: State) {
    && (st.high == 0x8000_0000 || st.high == 0x8000_0000_0000_0000)
    && |st.counter| == 2
    && (!st.drainer.Idle? ==> st.drainer.i < 2)
    && (forall s :: s in st.sections && !st.sections[s].Left? ==> st.sections[s].phase < 2)
  }

  /** A counter is its DRAINING bit plus the number of sections inside it. */
  ghost predicate CountOk(st: State, i: nat)
    requires |st.counter| == 2 && i < 2
  {
    && |At(st.sections, Inside(i))| < MAX_SECTIONS
    && st.counter[i] == (if Marked(st, i) then st.high else 0) + |At(st.sections, Inside(i))|
  }

  ghost predicate Grace(st: State) {
    && (forall s :: s in st.before ==> s in st.sections && !st.sections[s].Trying? && !st.sections[s].Tested?)
    && (forall s :: s in st.before && st.sections[s].Inside? ==> !SeenDrained(st, st.sections[s].phase))
  }

  /** A sleeping drainer has someone left to wait for, or a wake-up on its way. */
  ghost predicate WakeComing(st: State) {
    && (st.drainer.Calling? ==> st.high < st.drainer.value < st.high + MAX_SECTIONS)
    && (st.drainer.Asleep? ==> At(st.sections, Inside(st.drainer.i)) != {} || At(st.sections, Waking(st.drainer.i)) != {})
  }

  ghost predicate Charged(st: State) {
    && st.marks == 2 * st.drains -
                   (if st.drainer.Idle? then 0
                    else if st.drainer.Marking? then 2 - st.drainer.i
                    else 1 - st.drainer.i)
    && (forall s :: s in st.sections && st.sections[s].Trying? ==> PaidFor(st, st.sections[s]))
  }

  ghost predicate PaidFor(st: State, pc: SectionPc)
    requires pc.Trying?
  {
    pc.refusals + (if Marked(st, pc.phase) then 1 else 0) <= st.marks - 2 * pc.since
  }

  ghost predicate Inv(st: State) {
    Shape(st) && CountOk(st, 0) && CountOk(st, 1) && Grace(st) && WakeComing(st) && Charged(st)
  }

  lemma InitInv(st: State)
    requires Init(st)
    ensures Inv(st)
  {
    assert At(st.sections, Inside(0)) == {} && At(st.sections, Inside(1)) == {};
  }

  /** Moving section s to `pc` changes the set at `pc` and the set it came from, and no other. */
  lemma Moved(st: State, st': State, s: Section, pc: SectionPc, other: SectionPc)
    requires st'.sections == st.sections[s := pc]
    ensures At(st'.sections, other) == if other == pc then At(st.sections, other) + {s} else At(st.sections, other) - {s}
    ensures s in st.sections ==> (s in At(st.sections, other) <==> st.sections[s] == other)
  {
    assert At(st'.sections, other) == if other == pc then At(st.sections, other) + {s} else At(st.sections, other) - {s};
  }

  lemma Unmoved(st: State, st': State, s: Section, pc: SectionPc, other: SectionPc)
    requires st'.sections == st.sections[s := pc]
    requires other != pc && (s in st.sections ==> st.sections[s] != other)
    ensures At(st'.sections, other) == At(st.sections, other)
  {
    assert At(st'.sections, other) == At(st.sections, other);
  }

  /** The sets of a section step that neither enters nor leaves a counter. */
  lemma KeptOutside(st: State, st': State, s: Section, pc: SectionPc)
    requires st'.sections == st.sections[s := pc] && !pc.Inside? && !pc.Waking?
    requires s in st.sections ==> !st.sections[s].Inside? && !st.sections[s].Waking?
    ensures At(st'.sections, Inside(0)) == At(st.sections, Inside(0))
    ensures At(st'.sections, Inside(1)) == At(st.sections, Inside(1))
    ensures At(st'.sections, Waking(0)) == At(st.sections, Waking(0))
    ensures At(st'.sections, Waking(1)) == At(st.sections, Waking(1))
  {
    Unmoved(st, st', s, pc, Inside(0));
    Unmoved(st, st', s, pc, Inside(1));
    Unmoved(st, st', s, pc, Waking(0));
    Unmoved(st, st', s, pc, Waking(1));
  }

  /** Section s moved to `pc`; the drainer did nothing, except possibly be woken up. */
  ghost predicate SectionMove(st: State, st': State, s: Section, pc: SectionPc) {
    && st' == st.(counter := st'.counter, sections := st.sections[s := pc], drainer := st'.drainer)
    && (st'.drainer == st.drainer || (st.drainer.Asleep? && st'.drainer == Reloading(st.drainer.i)))
  }

  lemma GraceAfterMove(st: State, st': State, s: Section, pc: SectionPc)
    requires Grace(st) && SectionMove(st, st', s, pc)
    requires s in st.before ==> pc.Waking? || pc.Left?
    ensures Grace(st')
  {
    assert forall i :: SeenDrained(st', i) == SeenDrained(st, i);
  }

  lemma ChargedAfterMove(st: State, st': State, s: Section, pc: SectionPc)
    requires Charged(st) && SectionMove(st, st', s, pc)
    requires pc.Trying? ==> PaidFor(st, pc)
    ensures Charged(st')
  {
    assert forall i :: Marked(st', i) == Marked(st, i);
  }

  lemma ArriveInv(st: State, s: Section, st': State)
    requires Inv(st) && Enabled(st, Arrive(s)) && st' == Apply(st, Arrive(s))
    ensures Inv(st')
  {
    var pc := st'.sections[s];
    KeptOutside(st, st', s, pc);
    GraceAfterMove(st, st', s, pc);
    ChargedAfterMove(st, st', s, pc);
  }

  lemma TestBitInv(st: State, s: Section, st': State)
    requires Inv(st) && Enabled(st, TestBit(s)) && st' == Apply(st, TestBit(s))
    ensures Inv(st')
  {
    var pc := st'.sections[s];
    KeptOutside(st, st', s, pc);
    GraceAfterMove(st, st', s, pc);
    assert PaidFor(st, st.sections[s]);
    ChargedAfterMove(st, st', s, pc);
  }

  lemma IncrementInv(st: State, s: Section, st': State)
    requires Inv(st) && Enabled(st, Increment(s)) && st' == Apply(st, Increment(s))
    ensures Inv(st')
  {
    var p := st.sections[s].phase;
    Moved(st, st', s, Inside(p), Inside(p));
    Unmoved(st, st', s, Inside(p), Inside(1 - p));
    assert CountOk(st', p) && CountOk(st', 1 - p);
    GraceAfterMove(st, st', s, Inside(p));
    ChargedAfterMove(st, st', s, Inside(p));
    if st.drainer.Asleep? {
      Unmoved(st, st', s, Inside(p), Waking(st.drainer.i));
    }
  }

  lemma DecrementInv(st: State, s: Section, st': State)
    requires Inv(st) && Enabled(st, Decrement(s)) && st' == Apply(st, Decrement(s))
    ensures Inv(st')
  {
    var p := st.sections[s].phase;
    var pc := st'.sections[s];
    Moved(st, st', s, pc, Inside(p));
    Unmoved(st, st', s, pc, Inside(1 - p));
    assert CountOk(st', p) && CountOk(st', 1 - p);
    GraceAfterMove(st, st', s, pc);
    ChargedAfterMove(st, st', s, pc);
    if st.drainer.Asleep? {
      Moved(st, st', s, pc, Waking(st.drainer.i));
    }
  }

  lemma WakeInv(st: State, s: Section, st': State)
    requires Inv(st) && Enabled(st, Wake(s)) && st' == Apply(st, Wake(s))
    ensures Inv(st')
  {
    var p := st.sections[s].phase;
    Unmoved(st, st', s, Left, Inside(0));
    Unmoved(st, st', s, Left, Inside(1));
    Unmoved(st, st', s, Left, Waking(1 - p));
    GraceAfterMove(st, st', s, Left);
    ChargedAfterMove(st, st', s, Left);
  }

  lemma MarkOrReloadInv(st: State, a: Action, st': State)
    requires Inv(st) && Enabled(st, a) && st' == Apply(st, a)
    requires a.Mark? || a.Reload?
    ensures Inv(st')
  {
    var i := st.drainer.i;
    if st'.drainer.Clearing? {
      assert At(st.sections, Inside(i)) == {};
      assert forall s :: s in st.before && st.sections[s] == Inside(i) ==> s in At(st.sections, Inside(i));
    }
  }

  lemma FutexComparesCounts(high: nat, m: nat, n: nat)
    requires high == 0x8000_0000 || high == 0x8000_0000_0000_0000
    requires m < MAX_SECTIONS && n < MAX_SECTIONS
    requires (high + m) % FUTEX_MODULUS == (high + n) % FUTEX_MODULUS
    ensures m == n
  {
  }

  /** Steps inside the wait loop of counter i touch nothing but the drainer's own position. */
  lemma LoopStepInv(st: State, st': State, i: nat)
    requires Inv(st) && Marked(st, i) && !st.drainer.Clearing?
    requires st' == st.(drainer := st'.drainer) && Marked(st', i) && !st'.drainer.Clearing?
    requires WakeComing(st')
    ensures Inv(st')
  {
    assert forall j :: Marked(st', j) == Marked(st, j) && SeenDrained(st', j) == SeenDrained(st, j);
  }

  lemma WaitInv(st: State, st': State)
    requires Inv(st) && Enabled(st, Wait) && st' == Apply(st, Wait)
    ensures Inv(st')
  {
    var i := st.drainer.i;
    if st'.drainer.Asleep? {
      var n := |At(st.sections, Inside(i))|;
      FutexComparesCounts(st.high, n, st.drainer.value - st.high);
      assert n > 0;
    }
    LoopStepInv(st, st', i);
  }

  lemma BeginInv(st: State, st': State)
    requires Inv(st) && Enabled(st, Begin) && st' == Apply(st, Begin)
    ensures Inv(st')
  {
    assert forall s :: s in st'.before ==> st.sections[s].Inside?;
  }

  lemma ClearInv(st: State, a: Action, st': State)
    requires Inv(st) && Enabled(st, a) && st' == Apply(st, a)
    requires a.Interrupt? || a.Clear?
    ensures Inv(st')
  {
    if a.Interrupt? {
      LoopStepInv(st, st', st.drainer.i);
    }
  }

  lemma StepInv(st: State, a: Action)
    requires Inv(st) && Enabled(st, a)
    ensures Inv(Apply(st, a))
  {
    match a
    case Arrive(s) => ArriveInv(st, s, Apply(st, a));
    case TestBit(s) => TestBitInv(st, s, Apply(st, a));
    case Increment(s) => IncrementInv(st, s, Apply(st, a));
    case Decrement(s) => DecrementInv(st, s, Apply(st, a));
    case Wake(s) => WakeInv(st, s, Apply(st, a));
    case Mark => MarkOrReloadInv(st, a, Apply(st, a));
    case Reload => MarkOrReloadInv(st, a, Apply(st, a));
    case Wait => WaitInv(st, Apply(st, a));
    case Begin => BeginInv(st, Apply(st, a));
    case _ => ClearInv(st, a, Apply(st, a));
  }

  lemma {:induction false} RunInv(states: seq<State>, actions: seq<Action>, k: nat)
    requires IsRun(states, actions) && k < |states|
    ensures Inv(states[k])
  {
    if k == 0 {
      InitInv(states[0]);
    } else {
      RunInv(states, actions, k - 1);
      StepInv(states[k - 1], actions[k - 1]);
    }
  }

  // ---------------------------------------------------------------- what every run keeps

  /** At most one counter has DRAINING set, and it is the one the drainer is working on. */
  lemma AtMostOneDraining(states: seq<State>, actions: seq<Action>, k: nat)
    requires IsRun(states, actions) && k < |states|
    ensures |states[k].counter| == 2
    ensures !(states[k].counter[0] >= states[k].high && states[k].counter[1] >= states[k].high)
    ensures forall i :: 0 <= i < 2 ==> (states[k].counter[i] >= states[k].high <==> Marked(states[k], i))
  {
    RunInv(states, actions, k);
  }

  /** No wake-up is lost: whenever the drainer sleeps, a section is still inside the counter it
      waits on, or a section that left it has yet to issue its FUTEX_WAKE. */
  lemma NoLostWakeup(states: seq<State>, actions: seq<Action>, k: nat)
    requires IsRun(states, actions) && k < |states|
    requires states[k].drainer.Asleep?
    ensures exists s :: s in states[k].sections &&
                        (states[k].sections[s] == Inside(states[k].drainer.i) ||
                         states[k].sections[s] == Waking(states[k].drainer.i))
  {
    RunInv(states, actions, k);
    var st := states[k];
    if At(st.sections, Inside(st.drainer.i)) != {} {
      var s :| s in At(st.sections, Inside(st.drainer.i));
    } else {
      var s :| s in At(st.sections, Waking(st.drainer.i));
    }
  }

  /** An enterer is turned away at most twice per drain that overlaps its attempt. */
  lemma RefusalsBounded(states: seq<State>, actions: seq<Action>, k: nat, s: Section)
    requires IsRun(states, actions) && k < |states|
    requires s in states[k].sections && states[k].sections[s].Trying?
    ensures states[k].sections[s].refusals <= 2 * (states[k].drains - states[k].sections[s].since)
  {
    RunInv(states, actions, k);
    assert PaidFor(states[k], states[k].sections[s]);
  }

  // ---------------------------------------------------------------- refinement

  function Abstract(st: State): GracePeriod.Grace {
    GracePeriod.Grace(Entered(st), !st.drainer.Idle?, if st.drainer.Idle? then {} else st.before * Entered(st))
  }

  /** What a step means to a client. A section enters with its increment and leaves with its
      decrement; a drain begins when it is called and finishes with its second `Clear`. */
  function Meaning(st: State, a: Action): Event {
    match a
    case Increment(s) => Enters(s)
    case Decrement(s) => Exits(s)
    case Begin => Begins
    case Clear => if st.drainer == Clearing(1) then Finishes else Stutters
    case _ => Stutters
  }

  lemma StepRefines(st: State, a: Action)
    requires Inv(st) && Enabled(st, a)
    ensures Allowed(Abstract(st), Meaning(st, a))
    ensures Abstract(Apply(st, a)) == After(Abstract(st), Meaning(st, a))
  {
    var st' := Apply(st, a);
    match a
    case Increment(s) => assert Entered(st') == Entered(st) + {s};
    case Decrement(s) => assert Entered(st') == Entered(st) - {s};
    case Clear =>
      if st.drainer == Clearing(1) {
        assert forall s :: s in st.before && st.sections[s].Inside? ==> st.sections[s].phase < 2;
        assert Abstract(st).pending == {};
      }
      assert Entered(st') == Entered(st);
    case Begin => assert st'.before * Entered(st') == Entered(st);
    case _ => assert Entered(st') == Entered(st);
  }

  /** Every run of the counters is a run of the grace-period specification. */
  lemma RunRefines(states: seq<State>, actions: seq<Action>)
    requires IsRun(states, actions)
    ensures Abstract(states[0]) == Quiet
    ensures forall k :: 0 <= k < |actions| ==>
              && Allowed(Abstract(states[k]), Meaning(states[k], actions[k]))
              && Abstract(states[k + 1]) == After(Abstract(states[k]), Meaning(states[k], actions[k]))
  {
    assert Entered(states[0]) == {};
    forall k | 0 <= k < |actions|
      ensures && Allowed(Abstract(states[k]), Meaning(states[k], actions[k]))
              && Abstract(states[k + 1]) == After(Abstract(states[k]), Meaning(states[k], actions[k]))
    {
      RunInv(states, actions, k);
      StepRefines(states[k], actions[k]);
    }
  }

  // ---------------------------------------------------------------- grace period over whole runs

  /** The drain called by action a returns with action b. */
  ghost predicate DrainSpan(states: seq<State>, actions: seq<Action>, a: nat, b: nat)
    requires IsRun(states, actions)
  {
    && a < b < |actions|
    && actions[a].Begin?
    && actions[b].Clear? && states[b].drainer == Clearing(1)
    && forall k :: a < k < b ==> !actions[k].Begin?
  }

  lemma {:induction false} BeforeKept(states: seq<State>, actions: seq<Action>, a: nat, k: nat)
    requires IsRun(states, actions) && a < k < |states| && actions[a].Begin?
    requires forall j :: a < j < k ==> !actions[j].Begin?
    ensures states[k].before == Entered(states[a])
  {
    if k > a + 1 {
      BeforeKept(states, actions, a, k - 1);
      assert !actions[k - 1].Begin? && states[k] == Apply(states[k - 1], actions[k - 1]);
    }
  }

  ghost predicate Out(st: State, s: Section) {
    s in st.sections && (st.sections[s].Waking? || st.sections[s].Left?)
  }

  lemma OutStep(st: State, a: Action, s: Section, st': State)
    requires Enabled(st, a) && st' == Apply(st, a)
    ensures Out(st, s) ==> Out(st', s)
    ensures s in Entered(st) && s !in Entered(st') ==> a == Decrement(s)
  {
  }

  lemma {:induction false} StaysOut(states: seq<State>, actions: seq<Action>, s: Section, a: nat, k: nat)
    requires IsRun(states, actions) && a <= k < |states|
    requires Out(states[a], s)
    ensures Out(states[k], s)
  {
    if a < k {
      StaysOut(states, actions, s, a, k - 1);
      OutStep(states[k - 1], actions[k - 1], s, states[k]);
    }
  }

  lemma {:induction false} MustDecrement(states: seq<State>, actions: seq<Action>, s: Section, a: nat, b: nat)
    requires IsRun(states, actions) && a <= b < |states|
    requires s in Entered(states[a]) && s !in Entered(states[b])
    ensures exists k :: a <= k < b && actions[k] == Decrement(s)
  {
    if s in Entered(states[b - 1]) {
      OutStep(states[b - 1], actions[b - 1], s, states[b]);
      assert actions[b - 1] == Decrement(s);
    } else {
      MustDecrement(states, actions, s, a, b - 1);
    }
  }

  /** The grace period: when phaser_drain returns, every section whose increment preceded the
      call has executed its decrement during the drain, and is never inside again. */
  lemma GracePeriodHolds(states: seq<State>, actions: seq<Action>, a: nat, b: nat, s: Section)
    requires IsRun(states, actions) && DrainSpan(states, actions, a, b)
    requires s in Entered(states[a])
    ensures exists k :: a <= k < b && actions[k] == Decrement(s)
    ensures forall m :: b < m < |states| ==> s !in Entered(states[m])
  {
    BeforeKept(states, actions, a, b);
    RunInv(states, actions, b);
    assert s in states[b].before;
    MustDecrement(states, actions, s, a, b);
    forall m | b < m < |states|
      ensures s !in Entered(states[m])
    {
      StaysOut(states, actions, s, b, m);
    }
  }

  // ---------------------------------------------------------------- drain progress

  /** What sections can still do on counter i: increment, decrement, wake. */
  function Load(st: State, i: nat): nat {
    3 * |At(st.sections, Tested(i))| + 2 * |At(st.sections, Inside(i))| + |At(st.sections, Waking(i))|
  }

  predicate WorksOn(st: State, a: Action, i: nat) {
    match a
    case Increment(s) => s in st.sections && st.sections[s] == Tested(i)
    case Decrement(s) => s in st.sections && st.sections[s] == Inside(i)
    case Wake(s) => s in st.sections && st.sections[s] == Waking(i)
    case _ => false
  }

  lemma LoadAfterMove(st: State, st': State, s: Section, i: nat)
    requires s in st.sections && s in st'.sections && st'.sections == st.sections[s := st'.sections[s]]
    requires st.sections[s] != st'.sections[s]
    ensures Load(st', i) == Load(st, i) + Weight(st'.sections[s], i) - Weight(st.sections[s], i)
  {
    var pc := st'.sections[s];
    Moved(st, st', s, pc, Tested(i));
    Moved(st, st', s, pc, Inside(i));
    Moved(st, st', s, pc, Waking(i));
  }

  function Weight(pc: SectionPc, i: nat): nat {
    if pc == Tested(i) then 3 else if pc == Inside(i) then 2 else if pc == Waking(i) then 1 else 0
  }

  /** While counter i is draining nobody new reaches it: the race between the DRAINING test and
      the increment can only use up the enterers that had already passed the test. */
  lemma LoadShrinks(st: State, a: Action, i: nat, st': State)
    requires Inv(st) && Enabled(st, a) && st' == Apply(st, a) && i < 2
    requires Marked(st, i)
    ensures Load(st', i) + (if WorksOn(st, a, i) then 1 else 0) <= Load(st, i)
  {
    match a
    case Arrive(s) =>
      Unmoved(st, st', s, st'.sections[s], Tested(i));
      KeptOutside(st, st', s, st'.sections[s]);
    case TestBit(s) =>
      assert st'.sections[s] != Tested(i);
      LoadAfterMove(st, st', s, i);
    case Increment(s) => LoadAfterMove(st, st', s, i);
    case Decrement(s) => LoadAfterMove(st, st', s, i);
    case Wake(s) => LoadAfterMove(st, st', s, i);
    case _ =>
  }

  function Work(states: seq<State>, actions: seq<Action>, a: nat, b: nat, i: nat): nat
    requires a <= b <= |actions| < |states|
  {
    if a == b then 0
    else Work(states, actions, a, b - 1, i) + (if WorksOn(states[b - 1], actions[b - 1], i) then 1 else 0)
  }

  /** However long a drain of counter i goes on, the sections take at most `Load` steps on it. */
  lemma {:induction false} DrainWorkBounded(states: seq<State>, actions: seq<Action>, a: nat, b: nat, i: nat)
    requires IsRun(states, actions) && a <= b < |states| && i < 2
    requires forall k :: a <= k < b ==> Marked(states[k], i)
    ensures Work(states, actions, a, b, i) + Load(states[b], i) <= Load(states[a], i)
  {
    if a < b {
      DrainWorkBounded(states, actions, a, b - 1, i);
      RunInv(states, actions, b - 1);
      var st, act, st' := states[b - 1], actions[b - 1], states[b];
      assert Enabled(st, act) && st' == Apply(st, act);
      LoadShrinks(st, act, i, st');
    }
  }

  function StepsToClear(pc: DrainPc): nat {
    match pc
    case Calling(_, _) => 3
    case Reloading(_) => 2
    case Clearing(_) => 1
    case _ => 0
  }

  /** Once the sections are done with counter i the drainer is awake and the counter drained. */
  lemma IdleDrainerIsAwake(st: State, i: nat)
    requires Inv(st) && Marked(st, i) && Load(st, i) == 0
    ensures !st.drainer.Asleep? && 0 < StepsToClear(st.drainer) <= 3 && st.counter[i] == st.high
  {
    assert At(st.sections, Inside(i)) == {} && At(st.sections, Waking(i)) == {};
  }

  /** From then on none of its own steps puts it to sleep, and each brings it closer to clearing the
      bit, which it does within three. */
  lemma IdleCounterClears(st: State, a: Action, i: nat)
    requires Inv(st) && Marked(st, i) && Load(st, i) == 0
    requires (a.Wait? || a.Reload? || a.Clear?) && Enabled(st, a)
    ensures !Apply(st, a).drainer.Asleep?
    ensures StepsToClear(Apply(st, a).drainer) < StepsToClear(st.drainer) <= 3
    ensures a.Clear? <==> StepsToClear(st.drainer) == 1
  {
    IdleDrainerIsAwake(st, i);
    if a.Wait? && Apply(st, a).drainer.Asleep? {
      FutexComparesCounts(st.high, 0, st.drainer.value - st.high);
      assert false;
    }
  }

  /** How many more steps the drainer takes on counter i if nothing else happens: it sleeps if the
      counter still has the value it read, and otherwise reads it again. */
  function Patience(st: State, i: nat): nat
    requires |st.counter| == 2 && i < 2
  {
    if !Marked(st, i) then 0
    else match st.drainer
         case Calling(_, value) => if st.counter[i] == value then 1 else 3
         case Reloading(_) => 2
         case Clearing(_) => 1
         case _ => 0
  }

  predicate DrainerStep(a: Action) {
    a.Wait? || a.Reload? || a.Clear?
  }

  function One(p: bool): nat {
    if p then 1 else 0
  }

  /** A drainer's step uses up patience; a section's step, or an interrupt, gives back two at most. */
  lemma PatienceStep(st: State, a: Action, i: nat, st': State)
    requires Inv(st) && Enabled(st, a) && st' == Apply(st, a) && i < 2 && Marked(st, i)
    ensures |st'.counter| == 2
    ensures One(DrainerStep(a)) + Patience(st', i) <= Patience(st, i) + 2 * (One(WorksOn(st, a, i)) + One(a.Interrupt?))
  {
  }

  function Count(states: seq<State>, actions: seq<Action>, a: nat, b: nat): (nat, nat)
    requires a <= b <= |actions| < |states|
  {
    if a == b then (0, 0)
    else
      var (steps, interrupts) := Count(states, actions, a, b - 1);
      (steps + One(DrainerStep(actions[b - 1])), interrupts + One(actions[b - 1].Interrupt?))
  }

  lemma {:induction false} PatienceLasts(states: seq<State>, actions: seq<Action>, a: nat, b: nat, i: nat)
    requires IsRun(states, actions) && a <= b < |states| && i < 2
    requires forall k :: a <= k < b ==> Marked(states[k], i)
    ensures |states[a].counter| == |states[b].counter| == 2
    ensures var (steps, interrupts) := Count(states, actions, a, b);
            steps + Patience(states[b], i) <= Patience(states[a], i) + 2 * (Work(states, actions, a, b, i) + interrupts)
  {
    if a == b {
      RunInv(states, actions, a);
    } else {
      PatienceLasts(states, actions, a, b - 1, i);
      RunInv(states, actions, b - 1);
      var st, act, st' := states[b - 1], actions[b - 1], states[b];
      assert Enabled(st, act) && st' == Apply(st, act);
      PatienceStep(st, act, i, st');
    }
  }

  /** A drain takes finitely many steps if the sections do: however long counter i stays marked, its
      drainer takes at most three steps, and two more for each step a section takes on the counter
      and for each interrupted sleep; and the sections take at most `Load`. */
  lemma DrainIsFinite(states: seq<State>, actions: seq<Action>, a: nat, b: nat, i: nat)
    requires IsRun(states, actions) && a <= b < |states| && i < 2
    requires forall k :: a <= k < b ==> Marked(states[k], i)
    ensures var (steps, interrupts) := Count(states, actions, a, b);
            && steps <= 2 * (Work(states, actions, a, b, i) + interrupts) + 3
            && steps <= 2 * (Load(states[a], i) + interrupts) + 3
  {
    PatienceLasts(states, actions, a, b, i);
    DrainWorkBounded(states, actions, a, b, i);
  }

  /** A drain in progress is never stuck: the drainer can move, or a section it waits for can. */
  lemma NeverStuck(states: seq<State>, actions: seq<Action>, k: nat) returns (a: Action)
    requires IsRun(states, actions) && k < |states|
    requires !states[k].drainer.Idle?
    ensures Enabled(states[k], a)
    ensures a.Mark? || a.Wait? || a.Reload? || a.Clear? || WorksOn(states[k], a, states[k].drainer.i)
  {
    RunInv(states, actions, k);
    var st := states[k];
    match st.drainer
    case Marking(_) => a := Mark;
    case Calling(_, _) => a := Wait;
    case Reloading(_) => a := Reload;
    case Clearing(_) => a := Clear;
    case Asleep(i) =>
      NoLostWakeup(states, actions, k);
      var s :| s in st.sections && (st.sections[s] == Inside(i) || st.sections[s] == Waking(i));
      a := if st.sections[s] == Inside(i) then Decrement(s) else Wake(s);
  }

  // ---------------------------------------------------------------- the race happens

  /** An enterer tests counter 0, a drain marks it and finds it empty, the enterer increments it. */
  const RACE: seq<Action> := [Arrive(0), TestBit(0), Begin, Mark, Increment(0), Clear, Mark, Clear]

  function Racing(k: nat): State
    requires k <= 8
  {
    var high := 0x8000_0000;
    var sections: map<Section, SectionPc> :=
      if k == 0 then map[] else map[0 := if k == 1 then Trying(0, 0, 0) else if k < 5 then Tested(0) else Inside(0)];
    var drainer := if k < 3 || k == 8 then Idle else if k == 3 then Marking(0) else if k < 6 then Clearing(0)
                   else if k == 6 then Marking(1) else Clearing(1);
    var first := (if 4 <= k < 6 then high else 0) + (if k < 5 then 0 else 1);
    State(high, [first, if k == 7 then high else 0], sections, drainer, {}, if k < 4 then 0 else if k < 7 then 1 else 2,
          if k < 3 then 0 else 1)
  }

  lemma RacingStep(k: nat)
    requires k < 8
    ensures Enabled(Racing(k), RACE[k]) && Racing(k + 1) == Apply(Racing(k), RACE[k])
  {
    var st, st' := Racing(k), Racing(k + 1);
    if k == 2 {
      assert Entered(st) == {};
    } else if k == 4 {
      assert At(st.sections, Inside(0)) == {};
    }
    assert Enabled(st, RACE[k]);
    var next := Apply(st, RACE[k]);
    assert next.counter == st'.counter && next.sections == st'.sections;
    assert next == st';
  }

  /** The race between the DRAINING test and the increment does happen: here a section enters a
      counter that is marked, the drain returns while it is inside, and rightly so, since it was
      not inside when the drain began. */
  lemma RaceHappens() returns (states: seq<State>)
    ensures IsRun(states, RACE) && DrainSpan(states, RACE, 2, 7)
    ensures Marked(states[5], 0) && 0 in Entered(states[5])
    ensures 0 !in Entered(states[2]) && 0 in Entered(states[8])
  {
    states := seq(9, k requires 0 <= k < 9 => Racing(k));
    forall k {:trigger RACE[k]} | 0 <= k < |RACE|
      ensures Enabled(states[k], RACE[k]) && states[k + 1] == Apply(states[k], RACE[k])
    {
      RacingStep(k);
    }
  }
}
