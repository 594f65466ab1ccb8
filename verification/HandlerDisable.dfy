/**
 What Disable guarantees, exactly: SignalHandler::Disable stores the flag and drains the local
 phaser, and its documentation promises that every handler has exited when it returns.
 */
module HandlerDisable {
  import opened Wrappers
  import opened GracePeriod
  import opened SignalHandler
  import opened HandlerRuns

  /** The activation will run, or is running, the handler on this instance. */
  predicate Committed(pc: ActivationPc, inst: Instance) {
    pc == Joining(inst) || HasEnabledScope(pc, inst)
  }

  /** Caller c calls Disable on inst: its drain spans the actions a to b, and nobody enables the
      instance meanwhile. */
  ghost predicate DisableSpan(states: seq<State>, actions: seq<Action>, c: Caller, inst: Instance, a: nat, b: nat)
    requires IsRun(states, actions)
  {
    && a < b < |actions|
    && actions[a] == BeginDrain(c) && c in states[a].callers && states[a].callers[c] == Disabled(inst)
    && actions[b] == FinishDrain(c)
    && (forall k :: a < k <= b ==> c in states[k].callers && states[k].callers[c] == DrainingDisabled(inst))
    && (forall k :: a <= k <= b ==> inst !in states[k].enabled)
  }

  /** During the drain an activation is committed only if the drain waits for it, or if it had
      tested enabled_ before the drain began. */
  ghost predicate Accounted(st: State, late: set<Activation>, inst: Instance) {
    forall t :: t in st.activations && t !in late && Committed(st.activations[t], inst) ==>
      HasEnabledScope(st.activations[t], inst) && t in LocalOf(st, inst).pending
  }

  lemma AccountedActivationStep(st: State, a: Action, st': State, late: set<Activation>, inst: Instance)
    requires Inv(st) && IsActivationStep(a) && ActivationEnabled(st, a) && st' == ActivationApply(st, a)
    requires inst !in st.enabled && Accounted(st, late, inst)
    ensures Accounted(st', late, inst)
  {
    ActivationStepInv(st, a, st');
    assert OnlyMoves(LocalOf(st, inst), LocalOf(st', inst), a.t);
  }

  lemma OthersLeaveDrain(st: State, a: Action, st': State, c: Caller, inst: Instance)
    requires Inv(st) && !IsActivationStep(a) && CallerEnabled(st, a) && st' == CallerApply(st, a)
    requires c in st.callers && st.callers[c] == DrainingDisabled(inst)
    requires c in st'.callers && st'.callers[c] == DrainingDisabled(inst)
    ensures st'.activations == st.activations && LocalOf(st', inst) == LocalOf(st, inst)
  {
    assert DrainsLocal(st.callers[c], inst);
    if a.FinishDrain? {
      assert a.c != c;
      assert !DrainsLocal(st.callers[a.c], inst);
    }
  }

  lemma AccountedBegin(st: State, st': State, c: Caller, inst: Instance, late: set<Activation>)
    requires Inv(st) && Enabled(st, BeginDrain(c)) && st' == Apply(st, BeginDrain(c))
    requires st.callers[c] == Disabled(inst)
    requires late == set t | t in st.activations && st.activations[t] == Joining(inst)
    ensures Accounted(st', late, inst)
  {
    forall t | t in st.activations && HasEnabledScope(st.activations[t], inst)
      ensures t in LocalOf(st', inst).pending
    {
      assert PcPhased(st, t, st.activations[t]);
    }
  }

  lemma AccountedNext(states: seq<State>, actions: seq<Action>, c: Caller, inst: Instance, k: nat, late: set<Activation>)
    requires IsRun(states, actions) && k < |actions|
    requires c in states[k].callers && states[k].callers[c] == DrainingDisabled(inst)
    requires c in states[k + 1].callers && states[k + 1].callers[c] == DrainingDisabled(inst)
    requires inst !in states[k].enabled && Accounted(states[k], late, inst)
    ensures Accounted(states[k + 1], late, inst)
  {
    RunInv(states, actions, k);
    if IsActivationStep(actions[k]) {
      AccountedActivationStep(states[k], actions[k], states[k + 1], late, inst);
    } else {
      OthersLeaveDrain(states[k], actions[k], states[k + 1], c, inst);
    }
  }

  lemma {:induction false} AccountedRun(states: seq<State>, actions: seq<Action>, c: Caller, inst: Instance,
                                        a: nat, b: nat,
                     k: nat, late: set<Activation>)
    requires IsRun(states, actions) && DisableSpan(states, actions, c, inst, a, b) && a < k <= b
    requires late == set t | t in states[a].activations && states[a].activations[t] == Joining(inst)
    ensures Accounted(states[k], late, inst)
  {
    if k == a + 1 {
      RunInv(states, actions, a);
      AccountedBegin(states[a], states[k], c, inst, late);
    } else {
      AccountedRun(states, actions, c, inst, a, b, k - 1, late);
      AccountedNext(states, actions, c, inst, k - 1, late);
    }
  }

  /** What Disable really guarantees: when it returns, an activation is still committed to the
      instance only if it had already passed the test of enabled_, but not yet entered the local
      phaser, when the drain began. With no such activation, Disable waits for everyone. */
  lemma DisableWaits(states: seq<State>, actions: seq<Action>, c: Caller, inst: Instance, a: nat, b: nat, t: Activation)
    requires IsRun(states, actions) && DisableSpan(states, actions, c, inst, a, b)
    requires t in states[b + 1].activations && Committed(states[b + 1].activations[t], inst)
    ensures t in states[a].activations && states[a].activations[t] == Joining(inst)
  {
    var late := set u | u in states[a].activations && states[a].activations[u] == Joining(inst);
    AccountedRun(states, actions, c, inst, a, b, b, late);
    assert states[b + 1].activations == states[b].activations;
  }

  // ---------------------------------------------------------------- sections that nobody will leave

  predicate PastJoin(pc: ActivationPc) {
    pc.Departing? || pc.Running? || pc.Gone?
  }

  ghost predicate Joined(st: State, i: Instance, u: Activation) {
    u in LocalOf(st, i).inside ==> u in st.activations && PastJoin(st.activations[u])
  }

  ghost predicate Holds(st: State, u: Activation, inst: Instance) {
    u in st.activations && HasEnabledScope(st.activations[u], inst)
  }

  /** Somebody is inside the local phaser without a scope to leave it by: a handler that jumped out
      through a scope it had moved from. */
  ghost predicate Leaked(st: State, inst: Instance) {
    exists u :: u in LocalOf(st, inst).inside && !Holds(st, u, inst)
  }

  lemma JoinedByActivation(st: State, a: Action, st': State, i: Instance, u: Activation)
    requires IsActivationStep(a) && ActivationEnabled(st, a) && st' == ActivationApply(st, a) && Joined(st, i, u)
    ensures Joined(st', i, u)
  {
  }

  lemma JoinedByCaller(st: State, a: Action, st': State, i: Instance, u: Activation)
    requires !IsActivationStep(a) && CallerEnabled(st, a) && st' == CallerApply(st, a) && Joined(st, i, u)
    ensures Joined(st', i, u)
  {
  }

  lemma {:induction false} RunJoined(states: seq<State>, actions: seq<Action>, k: nat, i: Instance, u: Activation)
    requires IsRun(states, actions) && k < |states|
    ensures Joined(states[k], i, u)
  {
    if k > 0 {
      RunJoined(states, actions, k - 1, i, u);
      var st, a := states[k - 1], actions[k - 1];
      assert Enabled(st, a) && states[k] == Apply(st, a);
      if IsActivationStep(a) {
        JoinedByActivation(st, a, states[k], i, u);
      } else {
        JoinedByCaller(st, a, states[k], i, u);
      }
    }
  }

  /** A drain that waits for such a section waits for ever. */
  ghost predicate Stuck(st: State, inst: Instance, u: Activation) {
    && u in LocalOf(st, inst).inside && !Holds(st, u, inst)
    && LocalOf(st, inst).draining && u in LocalOf(st, inst).pending
  }

  lemma StuckByActivation(st: State, a: Action, st': State, inst: Instance, u: Activation)
    requires IsActivationStep(a) && ActivationEnabled(st, a) && st' == ActivationApply(st, a)
    requires Stuck(st, inst, u) && Joined(st, inst, u)
    ensures Stuck(st', inst, u)
  {
    if a.t == u {
      var pc := st.activations[u];
      match a
      case MoveScope(_, i) =>
        assert forall sc :: sc in st'.activations[u].scopes && sc.enabled ==> sc in pc.scopes by {
          ScopesFrom(pc.scopes, i);
        }
      case DropScope(_, i) =>
        assert pc.scopes[i] in pc.scopes;
        assert forall sc :: sc in st'.activations[u].scopes && sc.enabled ==> sc in pc.scopes by {
          ScopesFrom(pc.scopes, i);
        }
      case QuitScope(_, i) =>
        assert pc.scopes[i] in pc.scopes;
        assert forall sc :: sc in st'.activations[u].scopes && sc.enabled ==> sc in pc.scopes by {
          ScopesFrom(pc.scopes, i);
        }
      case LongJump(_, i) => assert pc.scopes[i] in pc.scopes;
      case _ =>
    }
  }

  /** Moving, dropping and quitting make no scope enabled. */
  lemma ScopesFrom(scopes: seq<Scope>, i: nat)
    requires i < |scopes|
    ensures var cleared := scopes[i := scopes[i].(enabled := false)];
            && (forall sc :: sc in cleared && sc.enabled ==> sc in scopes)
            && (forall sc :: sc in cleared + [scopes[i]] && sc.enabled ==> sc in scopes)
            && (forall sc :: sc in scopes[..i] + scopes[i + 1..] ==> sc in scopes)
  {
  }

  lemma StuckByCaller(st: State, a: Action, st': State, inst: Instance, u: Activation)
    requires !IsActivationStep(a) && CallerEnabled(st, a) && st' == CallerApply(st, a) && Stuck(st, inst, u)
    ensures Stuck(st', inst, u)
  {
  }

  lemma {:induction false} StuckForGood(states: seq<State>, actions: seq<Action>, inst: Instance, u: Activation,
                                        a: nat, k: nat)
    requires IsRun(states, actions) && a <= k < |states| && Stuck(states[a], inst, u)
    ensures Stuck(states[k], inst, u)
  {
    if a < k {
      StuckForGood(states, actions, inst, u, a, k - 1);
      RunJoined(states, actions, k - 1, inst, u);
      var st, act := states[k - 1], actions[k - 1];
      assert Enabled(st, act) && states[k] == Apply(st, act);
      if IsActivationStep(act) {
        StuckByActivation(st, act, states[k], inst, u);
      } else {
        StuckByCaller(st, act, states[k], inst, u);
      }
    }
  }

  lemma LeakBlocksDrain(states: seq<State>, actions: seq<Action>, c: Caller, inst: Instance, a: nat, b: nat)
    requires IsRun(states, actions) && DisableSpan(states, actions, c, inst, a, b)
    ensures !Leaked(states[a], inst)
  {
    assert Enabled(states[b], actions[b]) && LocalOf(states[b], inst).pending == {};
    if Leaked(states[a], inst) {
      var u :| u in LocalOf(states[a], inst).inside && !Holds(states[a], u, inst);
      assert Enabled(states[a], actions[a]) && states[a + 1] == Apply(states[a], actions[a]);
      assert Stuck(states[a + 1], inst, u);
      StuckForGood(states, actions, inst, u, a + 1, b);
      assert false;
    }
  }

  // ---------------------------------------------------------------- a drain that returns

  /** From a on, caller c is draining the disabled instance. */
  ghost predicate Draining(states: seq<State>, c: Caller, inst: Instance, a: nat) {
    forall k :: a < k < |states| ==>
      c in states[k].callers && states[k].callers[c] == DrainingDisabled(inst) && inst !in states[k].enabled
  }

  /** A step of an activation, during the drain. */
  lemma DrainingOn(states: seq<State>, actions: seq<Action>, a: Action, c: Caller, inst: Instance, from: nat)
    returns (states': seq<State>, actions': seq<Action>)
    requires IsRun(states, actions) && from < |states| - 1 && Draining(states, c, inst, from)
    requires IsActivationStep(a) && ActivationEnabled(Last(states), a)
    ensures Continues(states, actions, states', actions') && Draining(states', c, inst, from)
    ensures Last(states') == ActivationApply(Last(states), a) && |states'| > |states|
  {
    states', actions' := Extended(states, actions, a);
    ActivationLeavesCallers(Last(states), a, Last(states'));
    forall k | from < k < |states'|
      ensures c in states'[k].callers && states'[k].callers[c] == DrainingDisabled(inst) && inst !in states'[k].enabled
    {
      if k < |states| {
        assert states'[k] == states[k];
      } else {
        assert states'[k] == Last(states') && states[|states| - 1] == Last(states);
      }
    }
  }

  lemma ActivationLeavesCallers(st: State, a: Action, st': State)
    requires IsActivationStep(a) && ActivationEnabled(st, a) && st' == ActivationApply(st, a)
    ensures st'.callers == st.callers && st'.enabled == st.enabled
  {
  }

  /** The activation drops its enabled scope on the instance, and so leaves the local phaser. */
  lemma StepsOut(states: seq<State>, actions: seq<Action>, u: Activation, c: Caller, inst: Instance, from: nat)
    returns (states': seq<State>, actions': seq<Action>)
    requires IsRun(states, actions) && from < |states| - 1 && Draining(states, c, inst, from)
    requires Holds(Last(states), u, inst)
    ensures Continues(states, actions, states', actions') && Draining(states', c, inst, from) && |states'| > |states|
    ensures LocalOf(Last(states'), inst) == LocalOf(Last(states), inst).Exit(u)
    ensures forall v :: v != u && v in Last(states).activations ==>
              v in Last(states').activations && Last(states').activations[v] == Last(states).activations[v]
  {
    states', actions' := states, actions;
    if Last(states).activations[u].Departing? {
      states', actions' := DrainingOn(states', actions', Depart(u), c, inst, from);
      assert Last(states').activations[u] == Running([Scope(inst, true)]);
      states', actions' := DrainingOn(states', actions', DropScope(u, 0), c, inst, from);
    } else {
      var scopes := Last(states).activations[u].scopes;
      var i :| 0 <= i < |scopes| && scopes[i] == Scope(inst, true);
      states', actions' := DrainingOn(states', actions', DropScope(u, i), c, inst, from);
    }
  }

  /** The sections the drain waits for leave one after the other; t, which is not inside, waits. */
  lemma {:induction false} EverybodyLeaves(states: seq<State>, actions: seq<Action>, t: Activation, c: Caller,
                                           inst: Instance, from: nat)
    returns (states': seq<State>, actions': seq<Action>)
    requires IsRun(states, actions) && from < |states| - 1 && Draining(states, c, inst, from)
    requires var g := LocalOf(Last(states), inst);
             g.draining && g.pending <= g.inside && forall u :: u in g.inside ==> Holds(Last(states), u, inst)
    requires t in Last(states).activations && Last(states).activations[t] == Joining(inst)
    ensures Continues(states, actions, states', actions') && Draining(states', c, inst, from) && from < |states'| - 1
    ensures LocalOf(Last(states'), inst).draining && LocalOf(Last(states'), inst).pending == {}
    ensures t in Last(states').activations && Last(states').activations[t] == Joining(inst)
    decreases |LocalOf(Last(states), inst).pending|
  {
    states', actions' := states, actions;
    var g := LocalOf(Last(states), inst);
    if g.pending != {} {
      var u :| u in g.pending;
      states', actions' := StepsOut(states, actions, u, c, inst, from);
      assert g.Exit(u).pending < g.pending;
      states', actions' := EverybodyLeaves(states', actions', t, c, inst, from);
    }
  }

  /** From a state in which activation t has tested enabled_ and not yet joined, and no section has
      leaked, Disable can return with t still on its way into the handler. */
  lemma DisableOvertakes(states: seq<State>, actions: seq<Action>, c: Caller, inst: Instance, t: Activation)
    returns (states': seq<State>, actions': seq<Action>, b: nat)
    requires IsRun(states, actions) && CanBegin(Last(states), c, inst) && !Leaked(Last(states), inst)
    requires t in Last(states).activations && Last(states).activations[t] == Joining(inst)
    ensures Continues(states, actions, states', actions')
    ensures DisableSpan(states', actions', c, inst, |states| - 1, b) && b + 1 == |states'| - 1
    ensures t in states'[b + 1].activations && states'[b + 1].activations[t] == Joining(inst)
  {
    states', actions' := DrainBegins(states, actions, c, inst);
    states', actions' := EverybodyLeaves(states', actions', t, c, inst, |states| - 1);
    states', actions', b := DrainReturns(states', actions', c, inst, |states| - 1, t);
  }

  lemma DrainBegins(states: seq<State>, actions: seq<Action>, c: Caller, inst: Instance)
    returns (states': seq<State>, actions': seq<Action>)
    requires IsRun(states, actions) && CanBegin(Last(states), c, inst)
    ensures Continues(states, actions, states', actions') && Draining(states', c, inst, |states| - 1)
    ensures |states'| == |states| + 1 && actions'[|states| - 1] == BeginDrain(c)
    ensures Last(states').activations == Last(states).activations && LocalOf(Last(states), inst).Valid()
    ensures !LocalOf(Last(states), inst).draining && LocalOf(Last(states'), inst) == LocalOf(Last(states), inst).Begin()
  {
    RunInv(states, actions, |states| - 1);
    states', actions' := Extended(states, actions, BeginDrain(c));
    BeginsDrain(Last(states), c, inst, Last(states'));
    assert forall k :: |states| - 1 < k < |states'| ==> states'[k] == Last(states');
  }

  lemma DrainReturns(states: seq<State>, actions: seq<Action>, c: Caller, inst: Instance, from: nat, t: Activation)
    returns (states': seq<State>, actions': seq<Action>, b: nat)
    requires IsRun(states, actions) && from < |states| - 1 && Draining(states, c, inst, from)
    requires actions[from] == BeginDrain(c) && CanBegin(states[from], c, inst)
    requires LocalOf(Last(states), inst).draining && LocalOf(Last(states), inst).pending == {}
    requires t in Last(states).activations && Last(states).activations[t] == Joining(inst)
    ensures Continues(states, actions, states', actions')
    ensures DisableSpan(states', actions', c, inst, from, b) && b + 1 == |states'| - 1
    ensures t in states'[b + 1].activations && states'[b + 1].activations[t] == Joining(inst)
  {
    b := |actions|;
    assert states[b] == Last(states);
    states', actions' := Extended(states, actions, FinishDrain(c));
    assert forall k :: 0 <= k < |states| ==> states'[k] == states[k];
    assert actions'[from] == actions[from] && actions'[b] == FinishDrain(c);
    assert states'[b + 1] == Last(states');
    FinishesDrain(Last(states), c, inst, Last(states'));
  }

  lemma FinishesDrain(st: State, c: Caller, inst: Instance, st': State)
    requires c in st.callers && st.callers[c] == DrainingDisabled(inst) && Enabled(st, FinishDrain(c))
    requires st' == Apply(st, FinishDrain(c))
    ensures st'.activations == st.activations
  {
  }

  lemma BeginsDrain(st: State, c: Caller, inst: Instance, st': State)
    requires Inv(st) && CanBegin(st, c, inst) && st' == Apply(st, BeginDrain(c))
    ensures st'.activations == st.activations && st'.enabled == st.enabled
    ensures st'.callers == st.callers[c := DrainingDisabled(inst)]
    ensures LocalOf(st', inst) == LocalOf(st, inst).Begin()
  {
  }

  // ---------------------------------------------------------------- the exact guarantee

  /** Caller c has stored the flag and its drain can begin. */
  predicate CanBegin(st: State, c: Caller, inst: Instance) {
    c in st.callers && st.callers[c] == Disabled(inst) && Enabled(st, BeginDrain(c)) && inst !in st.enabled
  }

  ghost predicate NobodyCommitted(st: State, inst: Instance) {
    forall t :: t in st.activations ==> !Committed(st.activations[t], inst)
  }

  predicate NobodyJoining(st: State, inst: Instance) {
    forall t <- st.activations :: st.activations[t] != Joining(inst)
  }

  /** However the run goes on, once this Disable has returned nobody runs, or is bound to run, the
      handler. */
  ghost predicate DisableKeepsItsPromise(states: seq<State>, actions: seq<Action>, c: Caller, inst: Instance)
    requires states != []
  {
    forall states': seq<State>, actions': seq<Action>, b: nat ::
      Returns(states, actions, c, inst, states', actions', b) ==> NobodyCommitted(states'[b + 1], inst)
  }

  /** In this continuation the drain that begins now returns with action b. */
  ghost predicate Returns(states: seq<State>, actions: seq<Action>, c: Caller, inst: Instance,
                          states': seq<State>, actions': seq<Action>, b: nat)
  {
    states != [] && Continues(states, actions, states', actions')
    && DisableSpan(states', actions', c, inst, |states| - 1, b)
  }

  lemma PromiseKept(states: seq<State>, actions: seq<Action>, c: Caller, inst: Instance, a: nat, b: nat)
    requires IsRun(states, actions) && DisableSpan(states, actions, c, inst, a, b)
    requires NobodyJoining(states[a], inst) || Leaked(states[a], inst)
    ensures NobodyCommitted(states[b + 1], inst)
  {
    LeakBlocksDrain(states, actions, c, inst, a, b);
    var st := states[b + 1];
    forall t | t in st.activations
      ensures !Committed(st.activations[t], inst)
    {
      if Committed(st.activations[t], inst) {
        DisableWaits(states, actions, c, inst, a, b, t);
      }
    }
  }

  /** It keeps its promise exactly if, when the drain begins, no activation is between its test of
      enabled_ and the local phaser, or a leaked section keeps the drain from ever returning. */
  lemma DisableIsExact(states: seq<State>, actions: seq<Action>, c: Caller, inst: Instance)
    requires IsRun(states, actions) && CanBegin(Last(states), c, inst)
    ensures DisableKeepsItsPromise(states, actions, c, inst) <==>
            NobodyJoining(Last(states), inst) || Leaked(Last(states), inst)
  {
    var st := Last(states);
    if NobodyJoining(st, inst) || Leaked(st, inst) {
      forall states': seq<State>, actions': seq<Action>, b: nat
        | Returns(states, actions, c, inst, states', actions', b)
        ensures NobodyCommitted(states'[b + 1], inst)
      {
        PromiseKept(states', actions', c, inst, |states| - 1, b);
      }
    } else {
      var t :| t in st.activations && st.activations[t] == Joining(inst);
      var states', actions', b := DisableOvertakes(states, actions, c, inst, t);
      assert Committed(states'[b + 1].activations[t], inst);
      assert Returns(states, actions, c, inst, states', actions', b) && !NobodyCommitted(states'[b + 1], inst);
    }
  }

  const READY: State :=
    INITIAL.(table := map[1 := 0], live := {0}, next := 1, installed := {1}, published := {0},
             callers := map[0 := Finished], enabled := {0})

  /** Signal 1 arrives as activation 7. */
  lemma Arrived() returns (states: seq<State>, actions: seq<Action>)
    ensures IsRun(states, actions)
    ensures Last(states) == READY.(global := Quiet.Enter(7), activations := map[7 := Looking(1)])
  {
    states, actions := Installed();
    assert Last(states).table[1] == 0;
    states, actions := Extended(states, actions, Enable(0));
    assert Last(states) == READY;
    states, actions := Extended(states, actions, Deliver(7, 1));
  }

  /** It has seen instance 0 enabled. */
  lemma Tested() returns (states: seq<State>, actions: seq<Action>)
    ensures IsRun(states, actions)
    ensures Last(states) == READY.(global := Quiet.Enter(7), activations := map[7 := Joining(0)])
  {
    states, actions := Arrived();
    states, actions := Extended(states, actions, Lookup(7));
    assert Last(states).activations == map[7 := Reading(0)];
    states, actions := Extended(states, actions, ReadFlag(7));
    assert Last(states).activations == map[7 := Joining(0)];
  }

  /** Then caller 1 stores the flag. */
  lemma Caught() returns (states: seq<State>, actions: seq<Action>)
    ensures IsRun(states, actions) && CanBegin(Last(states), 1, 0)
    ensures Last(states).activations == map[7 := Joining(0)] && LocalOf(Last(states), 0) == Quiet
  {
    states, actions := Tested();
    assert Last(states).table[1] == 0;
    states, actions := Extended(states, actions, CallDisable(1, 0));
    assert Last(states).table[1] == 0;
  }

  /** A run in which Disable returns and the handler starts on the disabled instance afterwards. */
  lemma DisableFails() returns (states: seq<State>, actions: seq<Action>, a: nat, b: nat)
    ensures IsRun(states, actions) && DisableSpan(states, actions, 1, 0, a, b) && b + 1 == |states| - 1
    ensures Enabled(Last(states), Join(7)) && HasEnabledScope(Apply(Last(states), Join(7)).activations[7], 0)
  {
    states, actions := Caught();
    a := |states| - 1;
    states, actions, b := DisableOvertakes(states, actions, 1, 0, 7);
  }
}
