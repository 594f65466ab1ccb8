/**
 Runs of `SignalHandler` built step by step: how each unprotected access comes to touch a deleted
 instance, and how two drains of the global phaser come to overlap.
 */
module HandlerRuns {
  import opened Wrappers
  import opened GracePeriod
  import opened SignalHandler
  import opened HandlerLifetime

  function Last(states: seq<State>): State
    requires states != []
  {
    states[|states| - 1]
  }

  /** The second run goes on from where the first ends. */
  ghost predicate Continues(states: seq<State>, actions: seq<Action>, states': seq<State>, actions': seq<Action>) {
    IsRun(states', actions') && states <= states' && actions <= actions'
  }

  lemma Extended(states: seq<State>, actions: seq<Action>, a: Action) returns (states': seq<State>, actions': seq<Action>)
    requires IsRun(states, actions) && Enabled(Last(states), a)
    ensures Continues(states, actions, states', actions')
    ensures Last(states') == Apply(Last(states), a) && actions' == actions + [a]
  {
    states', actions' := states + [Apply(Last(states), a)], actions + [a];
    forall k {:trigger actions'[k]} | 0 <= k < |actions'|
      ensures Enabled(states'[k], actions'[k]) && states'[k + 1] == Apply(states'[k], actions'[k])
    {
      if k < |actions| {
        assert actions'[k] == actions[k];
      }
    }
  }

  // ---------------------------------------------------------------- one call of Initialize

  /** From the call to the allocation of the new instance; the pointer in the table is loaded. */
  lemma LoadsIn(states: seq<State>, actions: seq<Action>, c: Caller, g: Signum)
    returns (states': seq<State>, actions': seq<Action>)
    requires IsRun(states, actions) && c !in Last(states).callers
    ensures Continues(states, actions, states', actions')
    ensures var st, st' := Last(states), Last(states');
            st' == st.(live := st.live + {st.next}, next := st.next + 1,
                       callers := st.callers[c := Copying(g, Current(st, g), st.next)])
  {
    var st := Last(states);
    states', actions' := Extended(states, actions, CallInitialize(c, g));
    assert Last(states') == st.(callers := st.callers[c := Loading(g)]);
    states', actions' := Extended(states', actions', Load(c));
    assert Last(states') == st.(callers := st.callers[c := Loaded(g, Current(st, g))]);
    states', actions' := Extended(states', actions', Allocate(c));
  }

  /** And on to a successful CAS. */
  lemma SwapsIn(states: seq<State>, actions: seq<Action>, c: Caller, g: Signum)
    returns (states': seq<State>, actions': seq<Action>)
    requires IsRun(states, actions) && c !in Last(states).callers
    ensures Continues(states, actions, states', actions')
    ensures var st, st' := Last(states), Last(states');
            var pc := if g in st.table then Retiring(st.table[g]) else Installing(g, st.next);
            st' == st.(table := st.table[g := st.next], live := st.live + {st.next}, next := st.next + 1,
                       published := st.published + {st.next}, callers := st.callers[c := pc])
  {
    var st := Last(states);
    states', actions' := LoadsIn(states, actions, c, g);
    states', actions' := Extended(states', actions', Copy(c));
    assert Last(states').callers == st.callers[c := Swapping(g, Current(st, g), st.next)];
    states', actions' := Extended(states', actions', Swap(c));
    var pc := if g in st.table then Retiring(st.table[g]) else Installing(g, st.next);
    assert Last(states').callers == st.callers[c := pc];
  }

  predicate Idle(g: Grace) {
    !g.draining && g.inside == {} && g.pending == {}
  }

  /** The global drain, nobody being inside. */
  lemma DrainsGlobal(states: seq<State>, actions: seq<Action>, c: Caller, inst: Instance)
    returns (states': seq<State>, actions': seq<Action>)
    requires IsRun(states, actions) && c in Last(states).callers && Last(states).callers[c] == Retiring(inst)
    requires Idle(Last(states).global)
    ensures Continues(states, actions, states', actions')
    ensures Last(states') == Last(states).(callers := Last(states).callers[c := Retired(inst)])
  {
    var st := Last(states);
    states', actions' := Extended(states, actions, BeginDrain(c));
    assert Last(states') == st.(global := st.global.Begin(), callers := st.callers[c := DrainingGlobal(inst)]);
    states', actions' := Extended(states', actions', FinishDrain(c));
    assert Last(states').callers == st.callers[c := Retired(inst)];
  }

  /** The local drain and the deletion. */
  lemma Deletes(states: seq<State>, actions: seq<Action>, c: Caller, inst: Instance)
    returns (states': seq<State>, actions': seq<Action>)
    requires IsRun(states, actions) && c in Last(states).callers && Last(states).callers[c] == Retired(inst)
    requires Idle(LocalOf(Last(states), inst))
    ensures Continues(states, actions, states', actions')
    ensures var st, st' := Last(states), Last(states');
            && LocalOf(st', inst) == LocalOf(st, inst)
            && st' == st.(local := st'.local, live := st.live - {inst}, deleted := st.deleted + {inst},
                          callers := st.callers[c := Finished])
  {
    var st := Last(states);
    var drain := LocalOf(st, inst).Begin();
    states', actions' := Extended(states, actions, BeginDrain(c));
    assert Last(states') == st.(local := st.local[inst := drain], callers := st.callers[c := DrainingLocal(inst)]);
    states', actions' := Extended(states', actions', FinishDrain(c));
    assert Last(states') == st.(local := Last(states').local, callers := Last(states').callers);
    assert Last(states').callers == st.callers[c := Deleting(inst)];
    states', actions' := Extended(states', actions', Delete(c));
    assert Last(states').callers == st.callers[c := Finished];
  }

  lemma RegisteredIsOld(states: seq<State>, actions: seq<Action>, g: Signum)
    requires IsRun(states, actions) && g in Last(states).table
    ensures Last(states).table[g] < Last(states).next
  {
    RunTraced(states, actions, |states| - 1);
  }

  /** A call that replaces the registered instance, as far as the global drain. */
  lemma SwapsOut(states: seq<State>, actions: seq<Action>, c: Caller, g: Signum, inst: Instance)
    returns (states': seq<State>, actions': seq<Action>)
    requires IsRun(states, actions) && c !in Last(states).callers && g in Last(states).table
    requires inst == Last(states).table[g]
    requires Idle(Last(states).global) && inst < Last(states).next
    ensures Continues(states, actions, states', actions')
    ensures var st, st' := Last(states), Last(states');
            && st'.activations == st.activations && st'.callers == st.callers[c := Retired(inst)]
            && st'.local == st.local && st'.installed == st.installed && st.published <= st'.published
  {
    states', actions' := SwapsIn(states, actions, c, g);
    states', actions' := DrainsGlobal(states', actions', c, inst);
    assert Last(states').callers == Last(states).callers[c := Retired(inst)];
  }

  /** A whole call that replaces and deletes the registered instance. */
  lemma Replaces(states: seq<State>, actions: seq<Action>, c: Caller, g: Signum)
    returns (states': seq<State>, actions': seq<Action>)
    requires IsRun(states, actions) && c !in Last(states).callers && g in Last(states).table
    requires Idle(Last(states).global) && Idle(LocalOf(Last(states), Last(states).table[g]))
    ensures Continues(states, actions, states', actions')
    ensures var st, st' := Last(states), Last(states');
            && st'.activations == st.activations && st'.callers == st.callers[c := Finished]
            && st.table[g] !in st'.live && st'.installed == st.installed && st.published <= st'.published
            && LocalOf(st', st.table[g]) == LocalOf(st, st.table[g])
  {
    var st, inst := Last(states), Last(states).table[g];
    RegisteredIsOld(states, actions, g);
    states', actions' := SwapsOut(states, actions, c, g, inst);
    states', actions' := Deletes(states', actions', c, inst);
    assert Last(states').callers == st.callers[c := Finished];
  }

  // ---------------------------------------------------------------- the unprotected accesses

  /** Caller 0 installs instance 0 for signal 1. */
  lemma Installed() returns (states: seq<State>, actions: seq<Action>)
    ensures IsRun(states, actions)
    ensures Last(states) == INITIAL.(table := map[1 := 0], live := {0}, next := 1, installed := {1},
                                     published := {0}, callers := map[0 := Finished])
  {
    states, actions := SwapsIn([INITIAL], [], 0, 1);
    states, actions := Extended(states, actions, Install(0));
    assert Last(states).callers == map[0 := Finished];
  }

  ghost predicate TouchesDead(st: State, a: Action, inst: Instance) {
    Enabled(st, a) && Touches(st, a, inst) && inst !in st.live
  }

  /** A signal arrives while the instance is disabled, and leaves the global phaser; the instance is
      replaced and deleted; then CallPreviousHandler reads it. */
  lemma PreviousHandlerOfTheDead() returns (states: seq<State>, actions: seq<Action>)
    ensures IsRun(states, actions) && TouchesDead(Last(states), ReadInstance(7, 0), 0)
  {
    states, actions := Installed();
    states, actions := Extended(states, actions, Deliver(7, 1));
    states, actions := Extended(states, actions, Lookup(7));
    assert Last(states).activations == map[7 := Reading(0)];
    states, actions := Extended(states, actions, ReadFlag(7));
    assert Last(states).activations == map[7 := Departing(Scope(0, false))];
    states, actions := Extended(states, actions, Depart(7));
    assert Last(states).activations == map[7 := Running([Scope(0, false)])];
    states, actions := Replaces(states, actions, 1, 1);
  }

  /** Caller 1 has loaded instance 0; caller 2 replaces and deletes it; then caller 1 copies its
      old_sigaction_. */
  lemma CopyOfTheDead() returns (states: seq<State>, actions: seq<Action>)
    ensures IsRun(states, actions) && TouchesDead(Last(states), Copy(1), 0)
  {
    states, actions := Installed();
    states, actions := LoadsIn(states, actions, 1, 1);
    assert Last(states).callers[1] == Copying(1, Some(0), 1);
    states, actions := Replaces(states, actions, 2, 1);
  }

  /** Caller 0 has published instance 0 but not yet called sigaction; caller 1 replaces and deletes
      it; then sigaction stores the old action into it. */
  lemma InstallIntoTheDead() returns (states: seq<State>, actions: seq<Action>)
    ensures IsRun(states, actions) && TouchesDead(Last(states), Install(0), 0)
  {
    states, actions := SwapsIn([INITIAL], [], 0, 1);
    assert Last(states).callers[0] == Installing(1, 0);
    states, actions := Replaces(states, actions, 1, 1);
  }

  /** Caller 1 calls Disable on the registered instance 0 and stores the flag; caller 2 replaces and
      deletes it; then caller 1 drains its phaser, from beginning to end. */
  lemma DisableOfTheDead() returns (states: seq<State>, actions: seq<Action>)
    ensures IsRun(states, actions) && |states| >= 2
    ensures TouchesDead(states[|states| - 2], BeginDrain(1), 0) && TouchesDead(Last(states), FinishDrain(1), 0)
  {
    states, actions := Installed();
    states, actions := Extended(states, actions, CallDisable(1, 0));
    assert Last(states).callers == map[0 := Finished, 1 := Disabled(0)];
    states, actions := Replaces(states, actions, 2, 1);
    assert TouchesDead(Last(states), BeginDrain(1), 0);
    ghost var before := states;
    states, actions := Extended(states, actions, BeginDrain(1));
    assert states[|states| - 2] == Last(before);
  }

  /** The reference that caller 0 got from Initialize outlives the instance: caller 1 replaces and
      deletes it, and then each use of the reference touches it. */
  lemma OwnerOfTheDead() returns (states: seq<State>, actions: seq<Action>)
    ensures IsRun(states, actions)
    ensures TouchesDead(Last(states), Enable(0), 0) && TouchesDead(Last(states), SetData(0), 0)
    ensures TouchesDead(Last(states), CallDisable(2, 0), 0)
  {
    states, actions := Installed();
    states, actions := Replaces(states, actions, 1, 1);
  }

  // ---------------------------------------------------------------- overlapping drains

  /** Nothing in Initialize serialises the drains of the global phaser: one caller is draining it
      while another has replaced an instance and, in the code, drains next. */
  lemma GlobalDrainsOverlap() returns (states: seq<State>, actions: seq<Action>)
    ensures IsRun(states, actions)
    ensures var st := Last(states);
            && 1 in st.callers && st.callers[1] == DrainingGlobal(0)
            && 2 in st.callers && st.callers[2] == Retiring(1)
  {
    states, actions := Installed();
    states, actions := SwapsIn(states, actions, 1, 1);
    states, actions := Extended(states, actions, BeginDrain(1));
    assert Last(states).callers == map[0 := Finished, 1 := DrainingGlobal(0)];
    states, actions := SwapsIn(states, actions, 2, 1);
  }

  /** Callers 1 and 2 have both called Disable on instance 0 and stored the flag. */
  lemma TwoDisables() returns (states: seq<State>, actions: seq<Action>)
    ensures IsRun(states, actions)
    ensures Last(states) == INITIAL.(table := map[1 := 0], live := {0}, next := 1, installed := {1}, published := {0},
                                     callers := map[0 := Finished, 1 := Disabled(0), 2 := Disabled(0)])
  {
    states, actions := Installed();
    states, actions := Extended(states, actions, CallDisable(1, 0));
    states, actions := Extended(states, actions, CallDisable(2, 0));
    assert Last(states).callers == map[0 := Finished, 1 := Disabled(0), 2 := Disabled(0)];
  }

  /** Nor those of a local phaser: Initialize is draining it while Disable, or a second Disable, has
      stored the flag and, in the code, drains next. */
  lemma LocalDrainsOverlap() returns (states: seq<State>, actions: seq<Action>)
    ensures IsRun(states, actions)
    ensures var st := Last(states);
            && 1 in st.callers && st.callers[1] == Disabled(0) && 2 in st.callers && st.callers[2] == Disabled(0)
            && 3 in st.callers && st.callers[3] == DrainingLocal(0)
  {
    states, actions := TwoDisables();
    states, actions := SwapsIn(states, actions, 3, 1);
    states, actions := DrainsGlobal(states, actions, 3, 0);
    states, actions := Extended(states, actions, BeginDrain(3));
  }
}
