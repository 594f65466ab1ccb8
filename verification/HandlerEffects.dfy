/** What the calls of cpp/profiler/SignalHandler.cpp bring about, read off the actions of a run. */
module HandlerEffects {
  import opened Wrappers
  import opened GracePeriod
  import opened SignalHandler
  import opened HandlerLifetime
  import opened HandlerDisable

  // ---------------------------------------------------------------- Initialize

  /** Caller c allocated the instance at step e. */
  ghost predicate MadeAt(states: seq<State>, actions: seq<Action>, c: Caller, i: nat, e: nat, k: nat, created: Instance)
    requires k < |states| == |actions| + 1
  {
    i < e < k && actions[e] == Allocate(c) && states[e].next == created
  }

  /** And put it into the table at step m. */
  ghost predicate PutAt(states: seq<State>, actions: seq<Action>, c: Caller, g: Signum, i: nat, e: nat, m: nat, k: nat)
    requires k < |states| == |actions| + 1
  {
    && e < m < k && MadeAt(states, actions, c, i, e, m, states[e].next)
    && actions[m] == Swap(c) && Current(states[m + 1], g) == Some(states[e].next)
  }

  /** How far a call Initialize(g) of c, begun at step i, has come by step k. */
  ghost predicate Initializes(states: seq<State>, actions: seq<Action>, c: Caller, g: Signum, i: nat, e: nat, m: nat, k: nat)
    requires k < |states| == |actions| + 1
  {
    && c in states[k].callers
    && match states[k].callers[c]
       case Loading(h) => h == g
       case Loaded(h, _) => h == g
       case Copying(h, _, created) => h == g && MadeAt(states, actions, c, i, e, k, created)
       case Swapping(h, _, created) => h == g && MadeAt(states, actions, c, i, e, k, created)
       case Installing(h, created) => h == g && PutAt(states, actions, c, g, i, e, m, k) && g !in states[m].table
       case Finished => PutAt(states, actions, c, g, i, e, m, k) && Settled(states[m], states[k], g)
       case Disabled(_) => false
       case DrainingDisabled(_) => false
       case pc => PutAt(states, actions, c, g, i, e, m, k) && Current(states[m], g) == Some(pc.old_)
  }

  /** The signal has been taken over, or the instance that was in the table has been deleted. */
  ghost predicate Settled(before: State, st: State, g: Signum) {
    match Current(before, g)
    case None => g in st.installed
    case Some(replaced) => replaced < st.next && replaced !in st.live
  }

  lemma InstalledStays(st: State, a: Action, st': State)
    requires Enabled(st, a) && st' == Apply(st, a)
    ensures st.installed <= st'.installed
  {
  }

  /** The caller's own steps. */
  ghost predicate Advances(st: State, a: Action, st': State, c: Caller) {
    && c in st.callers && c in st'.callers
    && match st'.callers[c]
       case Loading(g) => a.Swap? && st.callers[c].Swapping? && st.callers[c].signum == g
       case Loaded(g, _) => st.callers[c] == Loading(g)
       case Copying(g, _, created) =>
         a == Allocate(c) && created == st.next && st.callers[c].Loaded? && st.callers[c].signum == g
       case Swapping(g, lookup, created) => st.callers[c] == Copying(g, lookup, created)
       case Installing(g, created) =>
         && a == Swap(c) && st.callers[c].Swapping? && st.callers[c].signum == g && st.callers[c].created == created
         && Current(st', g) == Some(created) && g !in st.table
       case Retiring(o) =>
         && a == Swap(c) && st.callers[c].Swapping?
         && Current(st', st.callers[c].signum) == Some(st.callers[c].created)
         && Current(st, st.callers[c].signum) == Some(o)
       case DrainingGlobal(o) => st.callers[c] == Retiring(o)
       case Retired(o) => st.callers[c] == DrainingGlobal(o)
       case DrainingLocal(o) => st.callers[c] == Retired(o)
       case Deleting(o) => st.callers[c] == DrainingLocal(o)
       case Finished =>
         || (st.callers[c].Installing? && st.callers[c].signum in st'.installed)
         || (st.callers[c].Deleting? && st.callers[c].old_ !in st'.live && st'.next == st.next)
         || st.callers[c].DrainingDisabled?
       case DrainingDisabled(o) => st.callers[c] == Disabled(o)
       case Disabled(_) => false
  }

  lemma OwnAdvance(st: State, a: Action, st': State, c: Caller)
    requires !IsActivationStep(a) && CallerEnabled(st, a) && st' == CallerApply(st, a)
    requires !OnInstance(a) && a.c == c && c in st.callers
    ensures Advances(st, a, st', c)
  {
  }

  lemma CallerStays(st: State, a: Action, st': State, c: Caller)
    requires Enabled(st, a) && st' == Apply(st, a) && c in st.callers
    ensures (c in st'.callers && st'.callers[c] == st.callers[c]) || Advances(st, a, st', c)
  {
    if IsActivationStep(a) {
      ActivationKeeps(st, a, st');
    } else if OnInstance(a) || a.c != c {
      CallerChanges(st, a, st');
    } else {
      OwnAdvance(st, a, st', c);
    }
  }

  lemma RetiredIsKnown(st: State, c: Caller)
    requires Inv(st) && c in st.callers && st.callers[c].Deleting?
    ensures st.callers[c].old_ < st.next
  {
    assert Retires(st.callers[c], st.callers[c].old_) && Unpublished(st, c, st.callers[c].old_);
  }

  lemma Advance(states: seq<State>, actions: seq<Action>, c: Caller, g: Signum, i: nat, e: nat, m: nat, k: nat)
    returns (e': nat, m': nat)
    requires IsRun(states, actions) && i < k < |actions| && Initializes(states, actions, c, g, i, e, m, k)
    ensures Initializes(states, actions, c, g, i, e', m', k + 1)
  {
    var st, a, st' := states[k], actions[k], states[k + 1];
    assert Enabled(st, a) && st' == Apply(st, a);
    RunInv(states, actions, k);
    if st.callers[c].Deleting? {
      RetiredIsKnown(st, c);
    }
    InstalledStays(st, a, st');
    FreshInstances(st, a, st');
    CallerStays(st, a, st', c);
    e', m' := e, m;
    if a == Allocate(c) {
      e' := k;
    } else if a == Swap(c) && !st'.callers[c].Loading? {
      m' := k;
    }
  }

  lemma Begins(states: seq<State>, actions: seq<Action>, c: Caller, g: Signum, i: nat)
    requires IsRun(states, actions) && i < |actions| && actions[i] == CallInitialize(c, g)
    ensures c in states[i + 1].callers && states[i + 1].callers[c] == Loading(g)
  {
    assert Enabled(states[i], actions[i]) && states[i + 1] == Apply(states[i], actions[i]);
  }

  lemma {:induction false} InitializesRun(states: seq<State>, actions: seq<Action>, c: Caller, g: Signum, i: nat, k: nat)
    returns (e: nat, m: nat)
    requires IsRun(states, actions) && i < k < |states| && actions[i] == CallInitialize(c, g)
    ensures Initializes(states, actions, c, g, i, e, m, k)
  {
    if k == i + 1 {
      Begins(states, actions, c, g, i);
      e, m := 0, 0;
    } else {
      e, m := InitializesRun(states, actions, c, g, i, k - 1);
      e, m := Advance(states, actions, c, g, i, e, m, k - 1);
    }
  }

  /** Initialize takes effect: a call that has returned has put an instance that it allocated itself
      into the table, and has taken the signal over or deleted the instance that was there. */
  lemma InitializeTakesEffect(states: seq<State>, actions: seq<Action>, c: Caller, g: Signum, i: nat, k: nat)
    returns (e: nat, m: nat)
    requires IsRun(states, actions) && i < k < |states| && actions[i] == CallInitialize(c, g)
    requires c in states[k].callers && states[k].callers[c].Finished?
    ensures i < e < m < k && actions[e] == Allocate(c) && actions[m] == Swap(c)
    ensures g in states[m + 1].table && states[m + 1].table[g] == states[e].next
    ensures g !in states[m].table ==> g in states[k].installed
    ensures g in states[m].table ==> states[m].table[g] !in states[k].live
  {
    e, m := InitializesRun(states, actions, c, g, i, k);
  }

  // ---------------------------------------------------------------- Enable and Disable

  lemma FlagStep(st: State, a: Action, st': State, inst: Instance)
    requires Enabled(st, a) && st' == Apply(st, a)
    ensures a == Enable(inst) ==> inst in st'.enabled
    ensures a.CallDisable? && a.inst == inst ==> inst !in st'.enabled
    ensures a != Enable(inst) && !(a.CallDisable? && a.inst == inst) ==> (inst in st'.enabled <==> inst in st.enabled)
  {
    if IsActivationStep(a) {
      ActivationsLeaveFlags(st, a, st');
    } else {
      CallersSetFlags(st, a, st', inst);
    }
  }

  lemma ActivationsLeaveFlags(st: State, a: Action, st': State)
    requires IsActivationStep(a) && ActivationEnabled(st, a) && st' == ActivationApply(st, a)
    ensures st'.enabled == st.enabled
  {
  }

  lemma CallersSetFlags(st: State, a: Action, st': State, inst: Instance)
    requires !IsActivationStep(a) && CallerEnabled(st, a) && st' == CallerApply(st, a)
    ensures a == Enable(inst) ==> inst in st'.enabled
    ensures a.CallDisable? && a.inst == inst ==> inst !in st'.enabled
    ensures a != Enable(inst) && !(a.CallDisable? && a.inst == inst) ==> (inst in st'.enabled <==> inst in st.enabled)
  {
  }

  /** Step i is the last call before step k of Enable or Disable on the instance. */
  ghost predicate LastFlagCall(actions: seq<Action>, inst: Instance, i: nat, k: nat)
    requires k <= |actions|
  {
    && i < k && SetsFlag(actions[i], inst)
    && forall j :: i < j < k ==> !SetsFlag(actions[j], inst)
  }

  predicate SetsFlag(a: Action, inst: Instance) {
    (a.Enable? || a.CallDisable?) && a.inst == inst
  }

  /** An instance is enabled if the last call on it was Enable, and disabled if it was Disable or
      there was none. */
  lemma {:induction false} FlagFollowsCalls(states: seq<State>, actions: seq<Action>, inst: Instance, k: nat)
    requires IsRun(states, actions) && k < |states|
    ensures inst in states[k].enabled <==> exists i: nat :: LastFlagCall(actions, inst, i, k) && actions[i].Enable?
  {
    if k > 0 {
      FlagFollowsCalls(states, actions, inst, k - 1);
      var a := actions[k - 1];
      assert Enabled(states[k - 1], a) && states[k] == Apply(states[k - 1], a);
      FlagStep(states[k - 1], a, states[k], inst);
      if SetsFlag(a, inst) {
        assert LastFlagCall(actions, inst, k - 1, k);
      } else {
        forall i: nat
          ensures LastFlagCall(actions, inst, i, k) <==> LastFlagCall(actions, inst, i, k - 1)
        {
        }
      }
    }
  }

  // ---------------------------------------------------------------- one activation

  /** What an activation of signal g, delivered at step a, found in the table at step b and in
      enabled_ at step r. */
  ghost predicate Decided(states: seq<State>, actions: seq<Action>, t: Activation, a: nat, b: nat, r: nat, k: nat)
    requires k < |states| == |actions| + 1
  {
    && t in states[k].activations
    && match states[k].activations[t]
       case Looking(g) => a < k && actions[a] == Deliver(t, g)
       case Reading(inst) => FoundAt(states, actions, t, a, b, k, inst)
       case Joining(inst) =>
         FoundAt(states, actions, t, a, b, r, inst) && r < k && actions[r] == ReadFlag(t) && inst in states[r].enabled
       case Departing(sc) =>
         && FoundAt(states, actions, t, a, b, r, sc.inst) && r < k && actions[r] == ReadFlag(t)
         && (sc.enabled <==> sc.inst in states[r].enabled)
       case _ => true
  }

  ghost predicate FoundAt(states: seq<State>, actions: seq<Action>, t: Activation, a: nat, b: nat, k: nat, inst: Instance)
    requires |states| == |actions| + 1
  {
    && a < b < k <= |actions| && actions[a].Deliver? && actions[a].t == t && actions[b] == Lookup(t)
    && Current(states[b], actions[a].signum) == Some(inst)
  }

  predicate Early(pc: ActivationPc) {
    pc.Looking? || pc.Reading? || pc.Joining? || pc.Departing?
  }

  /** The steps up to the handler. */
  lemma EarlyStep(st: State, a: Action, st': State, t: Activation)
    requires Enabled(st, a) && st' == Apply(st, a) && t in st'.activations && Early(st'.activations[t])
    ensures || (t in st.activations && st.activations[t] == st'.activations[t])
            || (match st'.activations[t]
                case Looking(g) => a == Deliver(t, g)
                case Reading(inst) =>
                  && a == Lookup(t) && t in st.activations && st.activations[t].Looking?
                  && Current(st, st.activations[t].signum) == Some(inst)
                case Joining(inst) =>
                  a == ReadFlag(t) && t in st.activations && st.activations[t] == Reading(inst) && inst in st.enabled
                case Departing(sc) =>
                  t in st.activations &&
                  if sc.enabled then st.activations[t] == Joining(sc.inst)
                  else a == ReadFlag(t) && st.activations[t] == Reading(sc.inst) && sc.inst !in st.enabled)
  {
    if !IsActivationStep(a) {
      CallerChanges(st, a, st');
    }
  }

  lemma {:induction false} RunDecided(states: seq<State>, actions: seq<Action>, t: Activation, k: nat)
    returns (a: nat, b: nat, r: nat)
    requires IsRun(states, actions) && k < |states| && t in states[k].activations && Early(states[k].activations[t])
    ensures Decided(states, actions, t, a, b, r, k)
  {
    var st, act, st' := states[k - 1], actions[k - 1], states[k];
    assert Enabled(st, act) && st' == Apply(st, act);
    EarlyStep(st, act, st', t);
    if t in st.activations && Early(st.activations[t]) {
      a, b, r := RunDecided(states, actions, t, k - 1);
      if st.activations[t] != st'.activations[t] {
        if act == Lookup(t) {
          b := k - 1;
        } else if act == ReadFlag(t) {
          r := k - 1;
        }
      }
    } else {
      a, b, r := k - 1, 0, 0;
    }
  }

  /** A delivered signal goes to the instance that was in the table at its lookup, and runs its
      handler if and only if the instance was enabled when it read the flag. */
  lemma HandlerRunsIffEnabled(states: seq<State>, actions: seq<Action>, t: Activation, k: nat)
    returns (a: nat, b: nat, r: nat)
    requires IsRun(states, actions) && k < |actions| && actions[k] == Depart(t)
    ensures a < b < r < k && actions[a].Deliver? && actions[a].t == t && actions[b] == Lookup(t) && actions[r] == ReadFlag(t)
    ensures actions[a].signum in states[b].table && t in states[k + 1].activations
    ensures var inst := states[b].table[actions[a].signum];
            states[k + 1].activations[t] == Running([Scope(inst, inst in states[r].enabled)])
  {
    assert Enabled(states[k], actions[k]) && states[k + 1] == Apply(states[k], actions[k]);
    a, b, r := RunDecided(states, actions, t, k);
  }

  /** Exactly those activations are in the global phaser that have entered it and not departed. */
  ghost predicate GlobalExactly(st: State) {
    forall t :: t in st.global.inside <==> t in st.activations && Early(st.activations[t])
  }

  lemma GlobalStep(st: State, a: Action, st': State)
    requires Enabled(st, a) && st' == Apply(st, a) && GlobalExactly(st)
    ensures GlobalExactly(st')
  {
    if IsActivationStep(a) {
      GlobalMoves(st, a, st');
    } else {
      CallerChanges(st, a, st');
      CallersLeaveInside(st, a, st');
    }
  }

  lemma GlobalMoves(st: State, a: Action, st': State)
    requires IsActivationStep(a) && ActivationEnabled(st, a) && st' == ActivationApply(st, a)
    ensures forall t :: t != a.t ==> (t in st'.global.inside <==> t in st.global.inside)
    ensures forall t :: t != a.t ==> (t in st'.activations <==> t in st.activations)
    ensures forall t :: t != a.t && t in st.activations ==> st'.activations[t] == st.activations[t]
    ensures a.t in st'.activations
    ensures (a.t in st.global.inside <==> a.t in st.activations && Early(st.activations[a.t])) ==>
              (a.t in st'.global.inside <==> Early(st'.activations[a.t]))
  {
  }

  lemma CallersLeaveInside(st: State, a: Action, st': State)
    requires !IsActivationStep(a) && CallerEnabled(st, a) && st' == CallerApply(st, a)
    ensures st'.global.inside == st.global.inside
    ensures forall i :: LocalOf(st', i).inside == LocalOf(st, i).inside
  {
  }

  lemma {:induction false} RunGlobal(states: seq<State>, actions: seq<Action>, k: nat)
    requires IsRun(states, actions) && k < |states|
    ensures GlobalExactly(states[k])
  {
    if k > 0 {
      RunGlobal(states, actions, k - 1);
      assert Enabled(states[k - 1], actions[k - 1]) && states[k] == Apply(states[k - 1], actions[k - 1]);
      GlobalStep(states[k - 1], actions[k - 1], states[k]);
    }
  }

  // ---------------------------------------------------------------- who is in a local phaser

  /** Activation t jumped out of its handler at step m through a scope it had moved from, while the
      scope it had moved to was still open on the instance. */
  ghost predicate JumpedAt(states: seq<State>, actions: seq<Action>, t: Activation, inst: Instance, m: nat)
    requires m < |actions| < |states|
  {
    && actions[m].LongJump? && actions[m].t == t && t in states[m].activations && states[m].activations[t].Running?
    && var scopes := states[m].activations[t].scopes;
       actions[m].i < |scopes| && !scopes[actions[m].i].enabled && Scope(inst, true) in scopes
  }

  ghost predicate JumpedBefore(states: seq<State>, actions: seq<Action>, t: Activation, inst: Instance, k: nat)
    requires k <= |actions| < |states|
  {
    exists m :: 0 <= m < k && JumpedAt(states, actions, t, inst, m)
  }

  /** Activation t is in the local phaser by way of a scope, or has jumped out past one. */
  ghost predicate LocalFor(st: State, t: Activation, inst: Instance, jumped: bool) {
    && (t in LocalOf(st, inst).inside <==> Holds(st, t, inst) || jumped)
    && (jumped ==> t in st.activations && st.activations[t].Gone?)
  }

  lemma OthersLocal(st: State, a: Action, st': State, t: Activation, inst: Instance)
    requires Enabled(st, a) && st' == Apply(st, a) && !(IsActivationStep(a) && a.t == t)
    ensures t in LocalOf(st', inst).inside <==> t in LocalOf(st, inst).inside
    ensures t in st'.activations <==> t in st.activations
    ensures t in st.activations ==> st'.activations[t] == st.activations[t]
  {
    if IsActivationStep(a) {
      OtherActivations(st, a, st', t, inst);
    } else {
      CallerChanges(st, a, st');
      CallersLeaveInside(st, a, st');
    }
  }

  lemma OtherActivations(st: State, a: Action, st': State, t: Activation, inst: Instance)
    requires IsActivationStep(a) && ActivationEnabled(st, a) && st' == ActivationApply(st, a) && a.t != t
    ensures t in LocalOf(st', inst).inside <==> t in LocalOf(st, inst).inside
    ensures t in st'.activations <==> t in st.activations
    ensures t in st.activations ==> st'.activations[t] == st.activations[t]
  {
  }

  /** Which scopes are enabled after one was moved, dropped or quit. */
  lemma EnabledAfter(scopes: seq<Scope>, i: nat, inst: Instance)
    requires OneEnabled(scopes) && i < |scopes|
    ensures var sc, open := scopes[i], Scope(inst, true);
            var cleared := scopes[i := sc.(enabled := false)];
            && (open in cleared + [sc] <==> open in scopes)
            && (open in scopes[..i] + scopes[i + 1..] <==> open in scopes && !sc.enabled)
            && (open in cleared <==> open in scopes && !sc.enabled)
            && (sc.enabled ==> (open in scopes <==> inst == sc.inst))
  {
    var sc, open := scopes[i], Scope(inst, true);
    var cleared, rest := scopes[i := sc.(enabled := false)], scopes[..i] + scopes[i + 1..];
    if open in scopes {
      var j :| 0 <= j < |scopes| && scopes[j] == open;
      assert j != i ==> cleared[j] == open && (cleared + [sc])[j] == open && rest[if j < i then j else j - 1] == open;
    }
    assert forall k :: 0 <= k < |rest| ==> rest[k] == scopes[if k < i then k else k + 1];
    assert sc.enabled ==> sc == Scope(sc.inst, true);
  }

  /** A local section begins with Join, moves along with the scope, and ends when the scope is
      dropped, quits, or jumps. */
  lemma OwnLocal(st: State, a: Action, st': State, t: Activation, inst: Instance)
    requires IsActivationStep(a) && ActivationEnabled(st, a) && st' == ActivationApply(st, a) && a.t == t
    requires LocalFor(st, t, inst, false)
    requires t in st.activations && st.activations[t].Running? ==> OneEnabled(st.activations[t].scopes)
    ensures LocalFor(st', t, inst, a.LongJump? && var scopes := st.activations[t].scopes;
                                    !scopes[a.i].enabled && Scope(inst, true) in scopes)
  {
    if a.MoveScope? || a.DropScope? || a.QuitScope? || a.LongJump? {
      EnabledAfter(st.activations[t].scopes, a.i, inst);
    }
  }

  lemma LocalNext(states: seq<State>, actions: seq<Action>, t: Activation, inst: Instance, k: nat)
    requires IsRun(states, actions) && k < |actions|
    requires LocalFor(states[k], t, inst, JumpedBefore(states, actions, t, inst, k))
    ensures LocalFor(states[k + 1], t, inst,
                     JumpedBefore(states, actions, t, inst, k) || JumpedAt(states, actions, t, inst, k))
  {
    var st, a, st' := states[k], actions[k], states[k + 1];
    assert Enabled(st, a) && st' == Apply(st, a);
    if IsActivationStep(a) && a.t == t {
      RunInv(states, actions, k);
      assert t in st.activations ==> PcPhased(st, t, st.activations[t]);
      OwnLocal(st, a, st', t, inst);
    } else {
      OthersLocal(st, a, st', t, inst);
    }
  }

  /** In every run an activation is in the local phaser of an instance exactly while it has an open
      scope on it, or for ever after jumping out through the scope that the open one was moved from. */
  lemma {:induction false} InLocalIff(states: seq<State>, actions: seq<Action>, t: Activation, inst: Instance, k: nat)
    requires IsRun(states, actions) && k < |states|
    ensures t in LocalOf(states[k], inst).inside <==>
              Holds(states[k], t, inst) || JumpedBefore(states, actions, t, inst, k)
    ensures JumpedBefore(states, actions, t, inst, k) ==> t in states[k].activations && states[k].activations[t].Gone?
  {
    if k > 0 {
      InLocalIff(states, actions, t, inst, k - 1);
      LocalNext(states, actions, t, inst, k - 1);
      assert JumpedBefore(states, actions, t, inst, k) <==>
             JumpedBefore(states, actions, t, inst, k - 1) || JumpedAt(states, actions, t, inst, k - 1);
    }
  }
}
