/** Calls through trampolines: push_hook_stack, pop_hook_stack and get_previous_from_hook of
    deps/plthooks/trampoline.cpp, while other threads hook and unhook. */
module CallChain {
  import opened Hooks
  import opened PltHooks

  type Thread = nat

  /** trampoline_hook_info: the run list is copied when the trampoline is entered. */
  datatype Frame = Frame(id: HookId, returnAddress: nat, runList: seq<Fn>)

  datatype Result = Done | Jump(target: Fn) | Resume(returnAddress: nat) | Abort

  /** get_previous_from_hook on the thread's stack of frames, innermost last. */
  function Previous(frames: seq<Frame>, hook: Fn): Result {
    if frames == [] then Abort
    else
      var runList := frames[|frames| - 1].runList;
      var k := Find(runList, hook);
      if k == 0 || k == |runList| then Abort else Jump(runList[k - 1])
  }

  /** A thread's stack. */
  class HookStack {
    var frames: seq<Frame>

    constructor ()
      ensures frames == []
    {
      frames := [];
    }

    method Push(registry: HookRegistry, id: HookId, returnAddress: nat) returns (result: Result)
      requires registry.Valid()
      modifies this
      ensures var runList := if id in registry.view.byId then registry.view.byId[id].hooks else [];
              if runList == [] then result == Abort && frames == old(frames)
              else result == Jump(runList[|runList| - 1]) && frames == old(frames) + [Frame(id, returnAddress, runList)]
    {
      var runList := registry.GetRunList(id);
      if |runList| == 0 {
        return Abort;
      }
      frames := frames + [Frame(id, returnAddress, runList)];
      result := Jump(runList[|runList| - 1]);
    }

    method Pop() returns (result: Result)
      requires frames != []
      modifies this
      ensures frames == old(frames)[..|old(frames)| - 1]
      ensures result == Resume(old(frames)[|old(frames)| - 1].returnAddress)
    {
      result := Resume(frames[|frames| - 1].returnAddress);
      frames := frames[..|frames| - 1];
    }

    method GetPrevious(hook: Fn) returns (result: Result)
      ensures result == Previous(frames, hook)
    {
      if |frames| == 0 {
        return Abort;
      }
      var runList := frames[|frames| - 1].runList;
      var k := 0;
      while k < |runList| && runList[k] != hook
        invariant 0 <= k <= |runList|
        invariant forall j :: 0 <= j < k ==> runList[j] != hook
      {
        k := k + 1;
      }
      assert k == Find(runList, hook);
      if k == 0 || k == |runList| {
        return Abort;
      }
      result := Jump(runList[k - 1]);
    }
  }

  // ---------------------------------------------------------------- one list

  predicate Distinct(runList: seq<Fn>) {
    forall j, k :: 0 <= j < k < |runList| ==> runList[j] != runList[k]
  }

  /** CALL_PREV by the function at position k: it aborts exactly when the list's original
      function is itself; otherwise it goes strictly towards the original, and to the very next
      position when the function is not in the list earlier on. */
  lemma PreviousGoesDown(frames: seq<Frame>, k: nat)
    requires frames != [] && 0 < k < |frames[|frames| - 1].runList|
    ensures var runList := frames[|frames| - 1].runList;
            var result := Previous(frames, runList[k]);
            && (result == Abort <==> runList[k] == runList[0])
            && (result != Abort ==> 0 < Find(runList, runList[k]) <= k && result == Jump(runList[Find(runList, runList[k]) - 1]))
            && (runList[k] !in runList[..k] ==> Find(runList, runList[k]) == k && result == Jump(runList[k - 1]))
  {
    var runList := frames[|frames| - 1].runList;
    assert Find(runList, runList[k]) < k ==> runList[Find(runList, runList[k])] in runList[..k];
  }

  /** The positions visited when every function from k down calls the previous one. */
  function Descent(runList: seq<Fn>, k: nat): (ks: seq<nat>)
    requires k < |runList| && runList[0] !in runList[1..]
    ensures |ks| >= 1 && ks[0] == k
    decreases k
  {
    if k == 0 then [0]
    else
      assert runList[k] == runList[1..][k - 1];
      [k] + Descent(runList, Find(runList, runList[k]) - 1)
  }

  /** It ends at the original function; a function that was hooked twice is run once only, and if
      none was, the descent misses no position. */
  lemma {:induction false} DescentReachesOriginal(runList: seq<Fn>, k: nat)
    requires k < |runList| && runList[0] !in runList[1..]
    ensures var ks := Descent(runList, k);
            && ks[|ks| - 1] == 0
            && (forall i :: 0 <= i < |ks| ==> 0 <= ks[i] <= k)
            && (forall i, j :: 0 <= i < j < |ks| ==> ks[i] > ks[j])
            && (Distinct(runList) ==> |ks| == k + 1 && forall i :: 0 <= i <= k ==> ks[i] == k - i)
    decreases k
  {
    if k > 0 {
      assert runList[k] == runList[1..][k - 1];
      var down := Find(runList, runList[k]) - 1;
      DescentReachesOriginal(runList, down);
      var ks, rest := Descent(runList, k), Descent(runList, down);
      assert forall i :: 1 <= i < |ks| ==> ks[i] == rest[i - 1];
    }
  }

  // ---------------------------------------------------------------- threads at once

  /** A frame, and the positions in its run list of the functions now running, the one that
      called CALL_PREV before the one it reached. */
  datatype Activation = Activation(frame: Frame, positions: seq<nat>)

  datatype System = System(world: World, stacks: map<Thread, seq<Activation>>)

  datatype Action =
    | Patch(op: Op)                                          // anybody hooks or unhooks
    | Enter(t: Thread, id: HookId, returnAddress: nat)       // call of a slot that held this trampoline
    | CallPrev(t: Thread)                                    // by the function running in t
    | Return(t: Thread)                                      // from a function that CALL_PREV reached
    | Leave(t: Thread)                                       // from the function the trampoline reached

  function Stack(s: System, t: Thread): seq<Activation> {
    if t in s.stacks then s.stacks[t] else []
  }

  function Top(s: System, t: Thread): Activation
    requires Stack(s, t) != []
  {
    Stack(s, t)[|Stack(s, t)| - 1]
  }

  function Frames(stack: seq<Activation>): (frames: seq<Frame>)
    ensures |frames| == |stack|
  {
    seq(|stack|, k requires 0 <= k < |stack| => stack[k].frame)
  }

  /** Where in its run list the thread's innermost activation now is. */
  predicate InChain(s: System, t: Thread) {
    Stack(s, t) != [] && Top(s, t).positions != []
    && var ks := Top(s, t).positions; ks[|ks| - 1] < |Top(s, t).frame.runList|
  }

  function Position(s: System, t: Thread): nat
    requires InChain(s, t)
  {
    Top(s, t).positions[|Top(s, t).positions| - 1]
  }

  function Running(s: System, t: Thread): Fn
    requires InChain(s, t)
  {
    Top(s, t).frame.runList[Position(s, t)]
  }

  /** Calls are properly nested, a trampoline is entered only once it has been made, and the
      original function does not use CALL_PREV. */
  ghost predicate Enabled(s: System, a: Action) {
    match a
    case Patch(op) => Indexed(s.world.registry) && op.a in s.world.got
    case Enter(t, id, _) => 0 < id < s.world.registry.nextId
    case CallPrev(t) => InChain(s, t) && Position(s, t) > 0
    case Return(t) => InChain(s, t) && |Top(s, t).positions| > 1
    case Leave(t) => InChain(s, t) && |Top(s, t).positions| == 1
  }

  function RunList(s: System, id: HookId): seq<Fn> {
    if id in s.world.registry.byId then s.world.registry.byId[id].hooks else []
  }

  function WithTop(s: System, t: Thread, positions: seq<nat>): System
    requires Stack(s, t) != []
  {
    var stack := Stack(s, t);
    s.(stacks := s.stacks[t := stack[..|stack| - 1] + [stack[|stack| - 1].(positions := positions)]])
  }

  /** The result says where control goes, or that the process aborts. */
  function Apply(s: System, a: Action): (System, Result)
    requires Enabled(s, a)
  {
    match a
    case Patch(op) =>
      (s.(world := Step(s.world, op).0), if Step(s.world, op).1 == Aborted then Abort else Done)
    case Enter(t, id, returnAddress) =>
      var runList := RunList(s, id);
      if runList == [] then (s, Abort)
      else
        var activation := Activation(Frame(id, returnAddress, runList), [|runList| - 1]);
        (s.(stacks := s.stacks[t := Stack(s, t) + [activation]]), Jump(runList[|runList| - 1]))
    case CallPrev(t) =>
      var result, first := Previous(Frames(Stack(s, t)), Running(s, t)), Find(Top(s, t).frame.runList, Running(s, t));
      if result == Abort || first == 0 then (s, Abort)
      else (WithTop(s, t, Top(s, t).positions + [first - 1]), result)
    case Return(t) =>
      var ks := Top(s, t).positions;
      (WithTop(s, t, ks[..|ks| - 1]), Done)
    case Leave(t) =>
      var stack := Stack(s, t);
      (s.(stacks := s.stacks[t := stack[..|stack| - 1]]), Resume(Top(s, t).frame.returnAddress))
  }

  function Initial(original: map<Address, Fn>): System {
    System(World(Registry(1, map[], map[]), original), map[])
  }

  ghost predicate IsRun(original: map<Address, Fn>, states: seq<System>, actions: seq<Action>) {
    && |states| == |actions| + 1
    && states[0] == Initial(original)
    && forall k {:trigger actions[k]} :: 0 <= k < |actions| ==>
         Enabled(states[k], actions[k]) && states[k + 1] == Apply(states[k], actions[k]).0
  }

  /** Positions stay within the snapshot they index, going down. */
  predicate Sound(act: Activation) {
    && act.positions != []
    && (forall i :: 0 <= i < |act.positions| ==> 0 <= act.positions[i] < |act.frame.runList|)
    && act.positions[0] == |act.frame.runList| - 1
    && (forall i, j :: 0 <= i < j < |act.positions| ==> act.positions[i] > act.positions[j])
  }

  ghost predicate AllSound(stack: seq<Activation>) {
    forall k :: 0 <= k < |stack| ==> Sound(stack[k])
  }

  ghost predicate Inv(s: System, original: map<Address, Fn>) {
    && PltHooks.Inv(s.world, original)
    && forall t <- s.stacks :: AllSound(s.stacks[t])
  }

  lemma TopPreviousIs(s: System, t: Thread)
    requires InChain(s, t) && Position(s, t) > 0
    ensures var runList, k := Top(s, t).frame.runList, Position(s, t);
            var result, first := Previous(Frames(Stack(s, t)), Running(s, t)), Find(runList, runList[k]);
            && (result == Abort <==> runList[k] == runList[0])
            && (result != Abort ==> 0 < first <= k && result == Jump(runList[first - 1]))
            && (runList[k] !in runList[..k] ==> first == k)
  {
    PreviousGoesDown(Frames(Stack(s, t)), Position(s, t));
  }

  lemma SoundPushed(act: Activation, down: nat)
    requires Sound(act) && down < act.positions[|act.positions| - 1]
    ensures Sound(act.(positions := act.positions + [down]))
  {
  }

  lemma SoundPopped(act: Activation)
    requires Sound(act) && |act.positions| > 1
    ensures Sound(act.(positions := act.positions[..|act.positions| - 1]))
  {
  }

  lemma TopIsSound(s: System, original: map<Address, Fn>, t: Thread)
    requires Inv(s, original) && Stack(s, t) != []
    ensures AllSound(Stack(s, t)) && Sound(Top(s, t))
  {
  }

  lemma TopReplaced(stack: seq<Activation>, act: Activation)
    requires AllSound(stack) && stack != [] && Sound(act)
    ensures AllSound(stack[..|stack| - 1] + [act])
  {
  }

  /** A thread's own step. */
  lemma StackInv(s: System, original: map<Address, Fn>, t: Thread, stack: seq<Activation>)
    requires Inv(s, original) && AllSound(stack)
    ensures Inv(s.(stacks := s.stacks[t := stack]), original)
  {
  }

  lemma WithTopInv(s: System, original: map<Address, Fn>, t: Thread, positions: seq<nat>)
    requires Inv(s, original) && Stack(s, t) != [] && Sound(Top(s, t).(positions := positions))
    ensures Inv(WithTop(s, t, positions), original)
  {
    TopIsSound(s, original, t);
    var stack := Stack(s, t);
    TopReplaced(stack, Top(s, t).(positions := positions));
    StackInv(s, original, t, stack[..|stack| - 1] + [Top(s, t).(positions := positions)]);
  }

  lemma CallPrevInv(s: System, original: map<Address, Fn>, t: Thread)
    requires Inv(s, original) && Enabled(s, CallPrev(t))
    ensures Inv(Apply(s, CallPrev(t)).0, original)
  {
    TopPreviousIs(s, t);
    TopIsSound(s, original, t);
    var top, first := Top(s, t), Find(Top(s, t).frame.runList, Running(s, t));
    if first > 0 {
      SoundPushed(top, first - 1);
      WithTopInv(s, original, t, top.positions + [first - 1]);
    }
  }

  lemma ReturnInv(s: System, original: map<Address, Fn>, t: Thread)
    requires Inv(s, original) && Enabled(s, Return(t))
    ensures Inv(Apply(s, Return(t)).0, original)
  {
    TopIsSound(s, original, t);
    var top := Top(s, t);
    SoundPopped(top);
    WithTopInv(s, original, t, top.positions[..|top.positions| - 1]);
  }

  lemma EnterInv(s: System, original: map<Address, Fn>, t: Thread, id: HookId, returnAddress: nat)
    requires Inv(s, original) && Enabled(s, Enter(t, id, returnAddress))
    ensures Inv(Apply(s, Enter(t, id, returnAddress)).0, original)
  {
    assert AllSound(Stack(s, t));
  }

  lemma LeaveInv(s: System, original: map<Address, Fn>, t: Thread)
    requires Inv(s, original) && Enabled(s, Leave(t))
    ensures Inv(Apply(s, Leave(t)).0, original)
  {
    TopIsSound(s, original, t);
  }

  lemma StepInv(s: System, original: map<Address, Fn>, a: Action)
    requires Inv(s, original) && Enabled(s, a)
    ensures Inv(Apply(s, a).0, original)
  {
    match a
    case Patch(op) => PltHooks.StepInv(s.world, original, op, Step(s.world, op).0);
    case Enter(t, id, returnAddress) => EnterInv(s, original, t, id, returnAddress);
    case CallPrev(t) => CallPrevInv(s, original, t);
    case Return(t) => ReturnInv(s, original, t);
    case Leave(t) => LeaveInv(s, original, t);
  }

  lemma {:induction false} RunInv(original: map<Address, Fn>, states: seq<System>, actions: seq<Action>, n: nat)
    requires IsRun(original, states, actions) && n < |states|
    ensures Inv(states[n], original)
  {
    if n > 0 {
      RunInv(original, states, actions, n - 1);
      StepInv(states[n - 1], original, actions[n - 1]);
    }
  }

  /** No run aborts, except where a hook is also the original function of the list it is in. */
  lemma NeverAborts(original: map<Address, Fn>, states: seq<System>, actions: seq<Action>, n: nat)
    requires IsRun(original, states, actions) && n < |actions|
    ensures Apply(states[n], actions[n]).1 == Abort
            <==> actions[n].CallPrev? && Running(states[n], actions[n].t) == Top(states[n], actions[n].t).frame.runList[0]
  {
    var s := states[n];
    RunInv(original, states, actions, n);
    match actions[n]
    case Patch(op) =>
      match op {
        case Hook(a, f, noChaining) => HookIs(s.world, original, a, f, noChaining);
        case Unhook(a, f) => UnhookIs(s.world, original, a, f);
      }
    case Enter(_, id, _) => assert ListInv(s.world, original, id);
    case CallPrev(t) => TopPreviousIs(s, t);
    case Return(_) =>
    case Leave(_) =>
  }

  // ---------------------------------------------------------------- from a push to its pop

  /** Thread t has not returned from the activation at depth d between steps i and j. */
  ghost predicate StaysAbove(states: seq<System>, t: Thread, d: nat, i: nat, j: nat)
    requires i <= j < |states|
  {
    forall m :: i < m <= j ==> |Stack(states[m], t)| > d
  }

  /** A step leaves alone everything below the top of each stack, and the frame at the top. */
  lemma StepKeepsFrames(s: System, a: Action, s': System, t: Thread, d: nat)
    requires Enabled(s, a) && s' == Apply(s, a).0 && |Stack(s, t)| > d && |Stack(s', t)| > d
    ensures Stack(s', t)[..d] == Stack(s, t)[..d] && Stack(s', t)[d].frame == Stack(s, t)[d].frame
  {
  }

  /** While the activation lasts, its frame is the one pushed, with the run list of that moment. */
  lemma {:induction false} SnapshotLasts(original: map<Address, Fn>, states: seq<System>, actions: seq<Action>,
                                         i: nat, j: nat)
    requires IsRun(original, states, actions) && i < j < |states| && actions[i].Enter?
    requires StaysAbove(states, actions[i].t, |Stack(states[i], actions[i].t)|, i, j)
    ensures var t, d := actions[i].t, |Stack(states[i], actions[i].t)|;
            && Stack(states[j], t)[..d] == Stack(states[i], t)
            && Stack(states[j], t)[d].frame == Frame(actions[i].id, actions[i].returnAddress, RunList(states[i], actions[i].id))
  {
    var t, d := actions[i].t, |Stack(states[i], actions[i].t)|;
    if j > i + 1 {
      SnapshotLasts(original, states, actions, i, j - 1);
      StepKeepsFrames(states[j - 1], actions[j - 1], states[j], t, d);
    } else {
      assert states[i + 1] == Apply(states[i], actions[i]).0;
    }
  }

  /** CALL_PREV inside the activation that step i entered goes by the list as it was at step i,
      whatever has been hooked or unhooked since; without repetitions, to the next position. */
  lemma CallPrevGoesBySnapshot(original: map<Address, Fn>, states: seq<System>, actions: seq<Action>, i: nat, j: nat)
    requires IsRun(original, states, actions) && i < j < |actions| && actions[i].Enter?
    requires actions[j] == CallPrev(actions[i].t)
    requires StaysAbove(states, actions[i].t, |Stack(states[i], actions[i].t)|, i, j)
    requires |Stack(states[j], actions[i].t)| == |Stack(states[i], actions[i].t)| + 1
    ensures var t, runList := actions[i].t, RunList(states[i], actions[i].id);
            && InChain(states[j], t) && 0 < Position(states[j], t) < |runList|
            && Running(states[j], t) == runList[Position(states[j], t)]
            && (Distinct(runList) ==> Apply(states[j], actions[j]).1 == Jump(runList[Position(states[j], t) - 1]))
            && (Distinct(runList) ==>
                  InChain(states[j + 1], t) && Position(states[j + 1], t) == Position(states[j], t) - 1)
  {
    SnapshotLasts(original, states, actions, i, j);
    TopPreviousIs(states[j], actions[i].t);
    assert states[j + 1] == Apply(states[j], actions[j]).0;
  }

  /** And leaving it resumes at the return address it was entered with, the stack being as it was. */
  lemma PopMatchesPush(original: map<Address, Fn>, states: seq<System>, actions: seq<Action>, i: nat, j: nat)
    requires IsRun(original, states, actions) && i < j < |actions| && actions[i].Enter?
    requires actions[j] == Leave(actions[i].t)
    requires StaysAbove(states, actions[i].t, |Stack(states[i], actions[i].t)|, i, j)
    requires |Stack(states[j], actions[i].t)| == |Stack(states[i], actions[i].t)| + 1
    ensures Apply(states[j], actions[j]).1 == Resume(actions[i].returnAddress)
    ensures Stack(states[j + 1], actions[i].t) == Stack(states[i], actions[i].t)
  {
    SnapshotLasts(original, states, actions, i, j);
    assert states[j + 1] == Apply(states[j], actions[j]).0;
  }

  // ---------------------------------------------------------------- who runs

  /** Wherever a trampoline or CALL_PREV sends a thread, that function is then the one running. */
  lemma JumpsToRunning(original: map<Address, Fn>, states: seq<System>, actions: seq<Action>, n: nat)
    requires IsRun(original, states, actions) && n < |actions| && (actions[n].Enter? || actions[n].CallPrev?)
    requires Apply(states[n], actions[n]).1 != Abort
    ensures InChain(states[n + 1], actions[n].t)
    ensures Apply(states[n], actions[n]).1 == Jump(Running(states[n + 1], actions[n].t))
  {
    var s, a := states[n], actions[n];
    assert Enabled(s, a) && states[n + 1] == Apply(s, a).0;
    if a.CallPrev? {
      TopPreviousIs(s, a.t);
    }
  }

  lemma TopAgain(s: System, t: Thread, positions: seq<nat>)
    requires Stack(s, t) != []
    ensures Stack(WithTop(s, t, positions), t) != [] && Top(WithTop(s, t, positions), t) == Top(s, t).(positions := positions)
    ensures positions == Top(s, t).positions ==> Stack(WithTop(s, t, positions), t) == Stack(s, t)
    ensures Stack(WithTop(s, t, positions), t)[..|Stack(s, t)| - 1] == Stack(s, t)[..|Stack(s, t)| - 1]
  {
  }

  lemma TopTwice(s: System, t: Thread, positions: seq<nat>, again: seq<nat>)
    requires Stack(s, t) != []
    ensures Stack(WithTop(s, t, positions), t) != []
    ensures Stack(WithTop(WithTop(s, t, positions), t, again), t) == Stack(WithTop(s, t, again), t)
  {
  }

  /** Returning from a function that CALL_PREV reached leaves the thread as before the call. */
  lemma ReturnUndoesCallPrev(s: System, t: Thread)
    requires Enabled(s, CallPrev(t)) && Apply(s, CallPrev(t)).1 != Abort
    ensures var s1 := Apply(s, CallPrev(t)).0;
            Enabled(s1, Return(t)) && Stack(Apply(s1, Return(t)).0, t) == Stack(s, t)
  {
    TopPreviousIs(s, t);
    var top := Top(s, t);
    var ks := top.positions + [Find(top.frame.runList, Running(s, t)) - 1];
    TopAgain(s, t, ks);
    assert ks[..|top.positions|] == top.positions;
    TopTwice(s, t, ks, top.positions);
    TopAgain(s, t, top.positions);
  }

  /** Slot a is hooked, by hook f last. */
  ghost predicate LastHooked(s: System, a: Address, f: Fn) {
    && Indexed(s.world.registry) && a in s.world.registry.byGot
    && var hooks := ListOf(s.world.registry, a);
       |hooks| > 1 && hooks[|hooks| - 1] == f
  }

  lemma OtherSlotsStay(w: World, original: map<Address, Fn>, op: Op, a: Address)
    requires PltHooks.Inv(w, original) && op.a in w.got && op.a != a && a in w.registry.byGot
    ensures var r := Step(w, op).0.registry;
            Indexed(r) && a in r.byGot && ListOf(r, a) == ListOf(w.registry, a)
  {
    var r := w.registry;
    PltHooks.StepInv(w, original, op, Step(w, op).0);
    match op
    case Hook(b, f, noChaining) => AddIs(r, b, f, w.got[b], noChaining);
    case Unhook(b, f) =>
      RemoveIs(r, b, f);
      var (r1, result) := Removed(r, b, f);
      if result.RemovedTrivial? {
        RemoveIs(r1, b, result.original);
      }
  }

  lemma {:induction false} StaysLast(original: map<Address, Fn>, states: seq<System>, actions: seq<Action>,
                                     a: Address, f: Fn, i: nat, j: nat)
    requires IsRun(original, states, actions) && i <= j < |states| && LastHooked(states[i], a, f)
    requires forall m :: i <= m < j && actions[m].Patch? ==> actions[m].op.a != a
    ensures LastHooked(states[j], a, f)
  {
    if i < j {
      StaysLast(original, states, actions, a, f, i, j - 1);
      var s, act := states[j - 1], actions[j - 1];
      assert Enabled(s, act) && states[j] == Apply(s, act).0;
      RunInv(original, states, actions, j - 1);
      if act.Patch? {
        OtherSlotsStay(s.world, original, act.op, a);
      }
    }
  }

  /** A hook takes effect: until somebody changes the slot again, a call through its trampoline
      goes to the function hooked last. */
  lemma HookTakesEffect(original: map<Address, Fn>, states: seq<System>, actions: seq<Action>, i: nat, j: nat,
                        a: Address, f: Fn, t: Thread, returnAddress: nat)
    requires IsRun(original, states, actions) && i < j < |actions|
    requires actions[i] == Patch(Hook(a, f, false)) && Step(states[i].world, actions[i].op).1 == Applied
    requires forall m :: i < m < j && actions[m].Patch? ==> actions[m].op.a != a
    requires a in states[j].world.registry.byGot
    requires actions[j] == Enter(t, states[j].world.registry.byGot[a], returnAddress)
    ensures Apply(states[j], actions[j]).1 == Jump(f)
    ensures InChain(states[j + 1], t) && Running(states[j + 1], t) == f
  {
    HookedLast(original, states, actions, i, a, f);
    StaysLast(original, states, actions, a, f, i + 1, j);
    assert Points(states[j].world.registry, a);
    assert RunList(states[j], actions[j].id) == ListOf(states[j].world.registry, a);
    assert states[j + 1] == Apply(states[j], actions[j]).0;
    EnterRunsLast(states[j], t, actions[j].id, returnAddress, f);
  }

  lemma EnterRunsLast(s: System, t: Thread, id: HookId, returnAddress: nat, f: Fn)
    requires Enabled(s, Enter(t, id, returnAddress)) && RunList(s, id) != [] && RunList(s, id)[|RunList(s, id)| - 1] == f
    ensures var (s', result) := Apply(s, Enter(t, id, returnAddress)); result == Jump(f) && InChain(s', t) && Running(s', t) == f
  {
  }

  lemma HookedLast(original: map<Address, Fn>, states: seq<System>, actions: seq<Action>, i: nat, a: Address, f: Fn)
    requires IsRun(original, states, actions) && i < |actions|
    requires actions[i] == Patch(Hook(a, f, false)) && Step(states[i].world, actions[i].op).1 == Applied
    ensures LastHooked(states[i + 1], a, f)
  {
    RunInv(original, states, actions, i);
    assert Enabled(states[i], actions[i]) && states[i + 1] == Apply(states[i], actions[i]).0;
    HookLast(states[i].world, original, a, f);
  }

  lemma HookLast(w: World, original: map<Address, Fn>, a: Address, f: Fn)
    requires PltHooks.Inv(w, original) && a in w.got && HookedSlot(w, a, f, false).1 == Applied
    ensures LastHooked(System(HookedSlot(w, a, f, false).0, map[]), a, f)
  {
    assert SlotInv(w, original, a);
    AddIs(w.registry, a, f, w.got[a], false);
  }
}
