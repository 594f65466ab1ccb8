/**
 Which memory the steps of `SignalHandler` touch, and when it is gone. The phasers protect most
 accesses; those made outside them can reach a deleted instance, and are the only ones that can.
 */
module HandlerLifetime {
  import opened Wrappers
  import opened GracePeriod
  import opened SignalHandler

  // ---------------------------------------------------------------- accesses

  ghost predicate ScopeAt(st: State, t: Activation, i: nat, sc: Scope) {
    && t in st.activations && st.activations[t].Running?
    && i < |st.activations[t].scopes| && st.activations[t].scopes[i] == sc
  }

  /** The caller is about to use, or is using, the local phaser of the instance. */
  predicate OnLocal(pc: CallerPc, inst: Instance) {
    || pc == Retired(inst) || pc == DrainingLocal(inst)
    || pc == Disabled(inst) || pc == DrainingDisabled(inst)
  }

  function Current(st: State, g: Signum): Option<Instance> {
    if g in st.table then Some(st.table[g]) else None
  }

  /** The instance, constructed already, whose memory a step reads, writes or frees. */
  ghost predicate Touches(st: State, a: Action, inst: Instance) {
    match a
    case ReadFlag(t) => t in st.activations && st.activations[t] == Reading(inst)
    case Join(t) => t in st.activations && st.activations[t] == Joining(inst)
    case DropScope(t, i) => ScopeAt(st, t, i, Scope(inst, true))
    case QuitScope(t, i) => ScopeAt(st, t, i, Scope(inst, true))
    case LongJump(t, i) => ScopeAt(st, t, i, Scope(inst, true))
    case ReadInstance(t, i) => ScopeAt(st, t, i, Scope(inst, true)) || ScopeAt(st, t, i, Scope(inst, false))
    case Copy(c) =>
      && c in st.callers && st.callers[c].Copying?
      && (st.callers[c].lookup == Some(inst) || st.callers[c].created == inst)
    case Swap(c) =>
      && c in st.callers && st.callers[c].Swapping? && st.callers[c].created == inst
      && st.callers[c].lookup != Current(st, st.callers[c].signum)
    case Install(c) => c in st.callers && st.callers[c].Installing? && st.callers[c].created == inst
    case BeginDrain(c) => c in st.callers && OnLocal(st.callers[c], inst)
    case FinishDrain(c) => c in st.callers && OnLocal(st.callers[c], inst)
    case Delete(c) => c in st.callers && st.callers[c] == Deleting(inst)
    case Enable(i) => i == inst
    case SetData(i) => i == inst
    case CallDisable(_, i) => i == inst
    case _ => false
  }

  /** The accesses that no phaser covers: CallPreviousHandler (or GetData) through a scope that is
      outside the local phaser; the copy of old_sigaction_ from the loaded instance, and the store
      of the old action into an instance that is already published; and what Enable, SetData and
      Disable do to the instance they were called on, the two ends of Disable's drain included. */
  ghost predicate Unprotected(st: State, a: Action, inst: Instance) {
    match a
    case ReadInstance(t, i) => ScopeAt(st, t, i, Scope(inst, false))
    case Copy(c) => c in st.callers && st.callers[c].Copying? && st.callers[c].lookup == Some(inst)
    case Install(c) => c in st.callers && st.callers[c].Installing? && st.callers[c].created == inst
    case Enable(i) => i == inst
    case SetData(i) => i == inst
    case CallDisable(_, i) => i == inst
    case BeginDrain(c) => c in st.callers && st.callers[c] == Disabled(inst)
    case FinishDrain(c) => c in st.callers && st.callers[c] == DrainingDisabled(inst)
    case _ => false
  }

  // ---------------------------------------------------------------- where pointers come from

  predicate Mentions(pc: ActivationPc, inst: Instance) {
    match pc
    case Reading(i) => i == inst
    case Joining(i) => i == inst
    case Departing(sc) => sc.inst == inst
    case Running(scopes) => exists sc :: sc in scopes && sc.inst == inst
    case _ => false
  }

  predicate Remembers(pc: CallerPc, inst: Instance) {
    match pc
    case Loaded(_, lookup) => lookup == Some(inst)
    case Copying(_, lookup, _) => lookup == Some(inst)
    case Swapping(_, lookup, _) => lookup == Some(inst)
    case Installing(_, created) => created == inst
    case Disabled(i) => i == inst
    case DrainingDisabled(i) => i == inst
    case _ => Retires(pc, inst)
  }

  /** Every pointer is to an instance that has been in the table; such an instance is alive, or some
      Initialize deleted it. */
  ghost predicate Traced(st: State) {
    && Published(st)
    && (forall t, i :: t in st.activations && Mentions(st.activations[t], i) ==> i in st.published)
    && (forall c, i :: c in st.callers && Remembers(st.callers[c], i) ==> i in st.published)
  }

  ghost predicate Published(st: State) {
    && (forall i :: i in st.published ==> i < st.next && (i in st.live || i in st.deleted))
    && (forall i :: i in st.deleted ==> i !in st.live && i in st.published)
    && (forall g :: g in st.table ==> st.table[g] in st.published)
    && (forall c :: c in st.callers && HasNew(st.callers[c]) ==> st.callers[c].created !in st.published)
  }

  // ---------------------------------------------------------------- what the invariant says of instances

  ghost predicate NewIsPrivate(st: State, c: Caller)
    requires c in st.callers
  {
    HasNew(st.callers[c]) ==>
      && st.callers[c].created in st.live
      && forall d :: d in st.callers && d != c && HasNew(st.callers[d]) ==> st.callers[d].created != st.callers[c].created
  }

  ghost predicate Facts(st: State) {
    && (forall i :: i in st.live ==> i < st.next)
    && (forall g :: g in st.table ==> st.table[g] in st.live)
    && (forall c :: c in st.callers ==> NewIsPrivate(st, c))
    && (forall c, i :: c in st.callers && Retires(st.callers[c], i) ==> i in st.live)
  }

  lemma InvFacts(st: State)
    requires Inv(st)
    ensures Facts(st)
  {
    forall c | c in st.callers
      ensures NewIsPrivate(st, c)
    {
      assert HasNew(st.callers[c]) ==> Private(st, c, st.callers[c].created);
    }
    assert forall c, i :: c in st.callers && Retires(st.callers[c], i) ==> Unpublished(st, c, i);
  }

  /** An activation's step leaves the table, the callers and the instances alone. */
  lemma ActivationKeeps(st: State, a: Action, st': State)
    requires IsActivationStep(a) && ActivationEnabled(st, a) && st' == ActivationApply(st, a)
    ensures st'.table == st.table && st'.callers == st.callers && st'.published == st.published
    ensures st'.live == st.live && st'.deleted == st.deleted && st'.next == st.next
  {
  }

  predicate OnInstance(a: Action) {
    a.Enable? || a.SetData?
  }

  /** A caller's step moves that caller; instances come with Allocate, are published by a successful
      Swap, and go with a failed one or with Delete. */
  lemma CallerChanges(st: State, a: Action, st': State)
    requires !IsActivationStep(a) && CallerEnabled(st, a) && st' == CallerApply(st, a)
    ensures st'.activations == st.activations
    ensures OnInstance(a) ==> st'.callers == st.callers
    ensures !OnInstance(a) ==> a.c in st'.callers && st'.callers == st.callers[a.c := st'.callers[a.c]]
    ensures !a.Allocate? ==> st'.next == st.next
    ensures a.Allocate? ==> st'.next == st.next + 1 && st'.live == st.live + {st.next}
    ensures a.Swap? ==> SwapChanges(st, a.c, st')
    ensures !a.Swap? ==> st'.published == st.published && st'.table == st.table
    ensures a.Delete? ==> st'.live == st.live - {st.callers[a.c].old_} && st'.deleted == st.deleted + {st.callers[a.c].old_}
    ensures !a.Allocate? && !a.Swap? && !a.Delete? ==> st'.live == st.live
    ensures !a.Delete? ==> st'.deleted == st.deleted
  {
  }

  ghost predicate SwapChanges(st: State, c: Caller, st': State) {
    && c in st.callers && st.callers[c].Swapping?
    && var g, created := st.callers[c].signum, st.callers[c].created;
       || (st'.live == st.live - {created} && st'.published == st.published && st'.table == st.table)
       || (st'.live == st.live && st'.published == st.published + {created} && st'.table == st.table[g := created]
           && c in st'.callers && !HasNew(st'.callers[c]))
  }

  /** Who has a new instance had it before, or has just allocated it. */
  lemma NewFrom(st: State, a: Action, st': State, c: Caller)
    requires !IsActivationStep(a) && CallerEnabled(st, a) && st' == CallerApply(st, a)
    requires c in st'.callers && HasNew(st'.callers[c])
    ensures || (c in st.callers && HasNew(st.callers[c]) && st.callers[c].created == st'.callers[c].created)
            || (a.Allocate? && st'.callers[c].created == st.next)
  {
  }

  /** Once published, for ever published. */
  lemma StaysPublished(st: State, a: Action, st': State)
    requires Enabled(st, a) && st' == Apply(st, a)
    ensures st.published <= st'.published
  {
    if IsActivationStep(a) {
      ActivationKeeps(st, a, st');
    } else {
      CallerChanges(st, a, st');
    }
  }

  /** A pointer an activation holds was there before, or comes from the table. */
  lemma MentionsFrom(st: State, a: Action, st': State, t: Activation, i: Instance)
    requires IsActivationStep(a) && ActivationEnabled(st, a) && st' == ActivationApply(st, a)
    requires t in st'.activations && Mentions(st'.activations[t], i)
    ensures (t in st.activations && Mentions(st.activations[t], i)) || (exists g :: g in st.table && st.table[g] == i)
  {
    if a.t == t && (a.MoveScope? || a.QuitScope?) {
      ScopeSources(st.activations[t].scopes, a.i);
    }
  }

  lemma ScopeSources(scopes: seq<Scope>, n: nat)
    requires n < |scopes|
    ensures var cleared := scopes[n := scopes[n].(enabled := false)];
            && (forall sc :: sc in cleared ==> exists o :: o in scopes && o.inst == sc.inst)
            && (forall sc :: sc in cleared + [scopes[n]] ==> exists o :: o in scopes && o.inst == sc.inst)
  {
    var cleared := scopes[n := scopes[n].(enabled := false)];
    forall sc | sc in cleared + [scopes[n]]
      ensures exists o :: o in scopes && o.inst == sc.inst
    {
      var k :| 0 <= k < |cleared| + 1 && (cleared + [scopes[n]])[k] == sc;
      var o := if k < |cleared| then scopes[k] else scopes[n];
      assert o in scopes && o.inst == sc.inst;
    }
    assert forall sc :: sc in cleared ==> sc in cleared + [scopes[n]];
  }

  /** What a caller remembers it remembered before, was called on, or has from the table. */
  lemma RemembersFrom(st: State, a: Action, st': State, c: Caller, i: Instance)
    requires !IsActivationStep(a) && CallerEnabled(st, a) && st' == CallerApply(st, a)
    requires c in st'.callers && Remembers(st'.callers[c], i)
    ensures || (c in st.callers && Remembers(st.callers[c], i))
            || i in st'.published
            || (exists g :: g in st.table && st.table[g] == i)
  {
  }

  lemma PublishedByCaller(st: State, a: Action, st': State)
    requires Facts(st) && Traced(st) && !IsActivationStep(a) && CallerEnabled(st, a) && st' == CallerApply(st, a)
    ensures Published(st')
  {
    CallerChanges(st, a, st');
    if a.Swap? {
      assert NewIsPrivate(st, a.c);
    }
    forall c | c in st'.callers && HasNew(st'.callers[c])
      ensures st'.callers[c].created !in st'.published
    {
      NewFrom(st, a, st', c);
    }
    if a.Delete? {
      var gone := st.callers[a.c].old_;
      assert Retires(st.callers[a.c], gone) && Remembers(st.callers[a.c], gone);
    }
  }

  lemma TracedStep(st: State, a: Action, st': State)
    requires Facts(st) && Traced(st) && Enabled(st, a) && st' == Apply(st, a)
    ensures Traced(st')
  {
    StaysPublished(st, a, st');
    if IsActivationStep(a) {
      ActivationKeeps(st, a, st');
      forall t, i | t in st'.activations && Mentions(st'.activations[t], i)
        ensures i in st'.published
      {
        MentionsFrom(st, a, st', t, i);
      }
    } else {
      CallerChanges(st, a, st');
      PublishedByCaller(st, a, st');
      forall c, i | c in st'.callers && Remembers(st'.callers[c], i)
        ensures i in st'.published
      {
        RemembersFrom(st, a, st', c, i);
      }
    }
  }

  lemma {:induction false} RunTraced(states: seq<State>, actions: seq<Action>, k: nat)
    requires IsRun(states, actions) && k < |states|
    ensures Inv(states[k]) && Facts(states[k]) && Traced(states[k])
  {
    RunInv(states, actions, k);
    InvFacts(states[k]);
    if k > 0 {
      RunTraced(states, actions, k - 1);
      TracedStep(states[k - 1], actions[k - 1], states[k]);
    }
  }

  // ---------------------------------------------------------------- exactly which steps touch the dead

  /** Step j deletes the instance: another Initialize has replaced it and drained both phasers. */
  ghost predicate DeletesAt(states: seq<State>, actions: seq<Action>, j: nat, inst: Instance)
    requires IsRun(states, actions) && j < |actions|
  {
    && actions[j].Delete? && actions[j].c in states[j].callers
    && states[j].callers[actions[j].c] == Deleting(inst)
  }

  lemma DeletedChanges(st: State, a: Action, st': State, inst: Instance)
    requires Enabled(st, a) && st' == Apply(st, a)
    ensures inst in st'.deleted <==> inst in st.deleted || (a.Delete? && st.callers[a.c] == Deleting(inst))
  {
    if IsActivationStep(a) {
      ActivationKeeps(st, a, st');
    } else {
      CallerChanges(st, a, st');
    }
  }

  lemma {:induction false} DeletedMeans(states: seq<State>, actions: seq<Action>, k: nat, inst: Instance)
    requires IsRun(states, actions) && k < |states|
    ensures inst in states[k].deleted <==> exists j :: 0 <= j < k && DeletesAt(states, actions, j, inst)
  {
    if k > 0 {
      DeletedMeans(states, actions, k - 1, inst);
      DeletedChanges(states[k - 1], actions[k - 1], states[k], inst);
      if inst in states[k].deleted && inst !in states[k - 1].deleted {
        assert DeletesAt(states, actions, k - 1, inst);
      }
    }
  }

  lemma ActivationTouchesLive(st: State, a: Action, inst: Instance)
    requires Inv(st) && IsActivationStep(a) && Touches(st, a, inst) && !Unprotected(st, a, inst)
    ensures inst in st.live
  {
    assert PcPhased(st, a.t, st.activations[a.t]);
  }

  lemma CallerTouchesLive(st: State, a: Action, inst: Instance)
    requires Facts(st) && !IsActivationStep(a) && CallerEnabled(st, a)
    requires Touches(st, a, inst) && !Unprotected(st, a, inst)
    ensures inst in st.live
  {
    match a
    case Copy(c) => assert NewIsPrivate(st, c);
    case Swap(c) => assert NewIsPrivate(st, c);
    case Delete(c) => assert Retires(st.callers[c], inst);
    case BeginDrain(c) => assert Retires(st.callers[c], inst);
    case FinishDrain(c) => assert Retires(st.callers[c], inst);
  }

  /** An unprotected access goes to an instance that was published. */
  lemma UnprotectedWasPublished(st: State, a: Action, inst: Instance)
    requires Traced(st) && Enabled(st, a) && Unprotected(st, a, inst)
    ensures inst in st.published
  {
    match a
    case ReadInstance(t, i) =>
      assert st.activations[t].scopes[i] in st.activations[t].scopes;
      assert Mentions(st.activations[t], inst);
    case Copy(c) => assert Remembers(st.callers[c], inst);
    case Install(c) => assert Remembers(st.callers[c], inst);
    case BeginDrain(c) => assert Remembers(st.callers[c], inst);
    case FinishDrain(c) => assert Remembers(st.callers[c], inst);
    case Enable(_) =>
    case SetData(_) =>
    case CallDisable(_, _) =>
  }

  /** Of all the steps that touch an instance, those that touch a deleted one are exactly the
      unprotected accesses to an instance that some Initialize has replaced and deleted. */
  lemma TouchesDeadIff(states: seq<State>, actions: seq<Action>, k: nat, inst: Instance)
    requires IsRun(states, actions) && k < |actions| && Touches(states[k], actions[k], inst)
    ensures inst !in states[k].live <==>
            Unprotected(states[k], actions[k], inst) && exists j :: 0 <= j < k && DeletesAt(states, actions, j, inst)
  {
    var st, a := states[k], actions[k];
    RunTraced(states, actions, k);
    DeletedMeans(states, actions, k, inst);
    if Unprotected(st, a, inst) {
      UnprotectedWasPublished(st, a, inst);
    } else if IsActivationStep(a) {
      ActivationTouchesLive(st, a, inst);
    } else {
      CallerTouchesLive(st, a, inst);
    }
  }

  /** The deletion came after the pointer was loaded: at any earlier moment m at which the instance
      was alive, in particular when it was in the table, the deletion was still to come. */
  lemma DeletedSince(states: seq<State>, actions: seq<Action>, j: nat, m: nat, k: nat, inst: Instance)
    requires IsRun(states, actions) && j < k < |states| && m < |states|
    requires DeletesAt(states, actions, j, inst) && inst in states[m].live
    ensures m <= j && inst !in states[k].live
  {
    RunTraced(states, actions, j);
    assert Retires(states[j].callers[actions[j].c], inst);
    assert states[j + 1] == Apply(states[j], actions[j]) && Enabled(states[j], actions[j]);
    CallerChanges(states[j], actions[j], states[j + 1]);
    NeverRevived(states, actions, inst, j + 1, k);
    if m > j {
      NeverRevived(states, actions, inst, j + 1, m);
    }
  }

  lemma {:induction false} FinishedStays(states: seq<State>, actions: seq<Action>, c: Caller, j: nat, k: nat)
    requires IsRun(states, actions) && j <= k < |states| && c in states[j].callers && states[j].callers[c].Finished?
    ensures c in states[k].callers && states[k].callers[c].Finished?
  {
    if j < k {
      FinishedStays(states, actions, c, j, k - 1);
      var st, a := states[k - 1], actions[k - 1];
      assert Enabled(st, a) && states[k] == Apply(st, a);
      if IsActivationStep(a) {
        ActivationKeeps(st, a, states[k]);
      } else {
        CallerChanges(st, a, states[k]);
      }
    }
  }

  /** The initialisation that deleted it is another one than the one that touches it. */
  lemma DeletedByAnother(states: seq<State>, actions: seq<Action>, j: nat, k: nat, inst: Instance)
    requires IsRun(states, actions) && j < k < |actions| && DeletesAt(states, actions, j, inst)
    requires actions[k].Copy? || actions[k].Install?
    ensures actions[j].c != actions[k].c
  {
    assert Enabled(states[k], actions[k]) && states[j + 1] == Apply(states[j], actions[j]);
    FinishedStays(states, actions, actions[j].c, j + 1, k);
  }

  // ---------------------------------------------------------------- disciplines that keep clear of it

  /** The call of Initialize is under way. */
  predicate Initializing(pc: CallerPc) {
    !pc.Finished? && !pc.Disabled? && !pc.DrainingDisabled?
  }

  ghost predicate OneInitializing(st: State) {
    forall c, d :: c in st.callers && d in st.callers && c != d ==>
      !(Initializing(st.callers[c]) && Initializing(st.callers[d]))
  }

  /** A pointer that Initialize holds outside both phasers. */
  predicate HoldsRaw(pc: CallerPc, inst: Instance) {
    Initializing(pc) && !Retires(pc, inst) && Remembers(pc, inst)
  }

  ghost predicate RawIsLive(st: State) {
    forall c, i :: c in st.callers && HoldsRaw(st.callers[c], i) ==> i in st.live
  }

  lemma RawIsLiveStep(st: State, a: Action, st': State)
    requires Facts(st) && RawIsLive(st) && OneInitializing(st) && Enabled(st, a) && st' == Apply(st, a)
    ensures RawIsLive(st')
  {
    forall c, i | c in st'.callers && HoldsRaw(st'.callers[c], i)
      ensures i in st'.live
    {
      if IsActivationStep(a) {
        ActivationKeeps(st, a, st');
      } else {
        RawFrom(st, a, st', c, i);
      }
    }
  }

  lemma RawFrom(st: State, a: Action, st': State, c: Caller, i: Instance)
    requires Facts(st) && RawIsLive(st) && OneInitializing(st)
    requires !IsActivationStep(a) && CallerEnabled(st, a) && st' == CallerApply(st, a)
    requires c in st'.callers && HoldsRaw(st'.callers[c], i)
    ensures i in st'.live
  {
    CallerChanges(st, a, st');
    if !OnInstance(a) && a.c == c && a.Swap? {
      assert NewIsPrivate(st, c);
    }
  }

  lemma {:induction false} RunRawIsLive(states: seq<State>, actions: seq<Action>, k: nat)
    requires IsRun(states, actions) && k < |states| && forall m :: 0 <= m < k ==> OneInitializing(states[m])
    ensures RawIsLive(states[k])
  {
    if k > 0 {
      var st, a, st' := states[k - 1], actions[k - 1], states[k];
      assert Enabled(st, a) && st' == Apply(st, a);
      RunRawIsLive(states, actions, k - 1);
      RunTraced(states, actions, k - 1);
      RawIsLiveStep(st, a, st');
    }
  }

  lemma RawTouchIsLive(st: State, a: Action, i: Instance)
    requires Facts(st) && RawIsLive(st) && (a.Copy? || a.Install?) && Touches(st, a, i)
    ensures i in st.live
  {
    assert NewIsPrivate(st, a.c);
    assert HoldsRaw(st.callers[a.c], i) || i == st.callers[a.c].created;
  }

  /** As long as no two calls of Initialize overlap, neither the copy of old_sigaction_ nor the store
      by sigaction touches a deleted instance. */
  lemma OneAtATimeIsSafe(states: seq<State>, actions: seq<Action>, k: nat, inst: Instance)
    requires IsRun(states, actions) && k < |actions| && forall m :: 0 <= m < k ==> OneInitializing(states[m])
    requires (actions[k].Copy? || actions[k].Install?) && Touches(states[k], actions[k], inst)
    ensures inst in states[k].live
  {
    RunRawIsLive(states, actions, k);
    RunTraced(states, actions, k);
    RawTouchIsLive(states[k], actions[k], inst);
  }

  /** And while an instance is the registered one, it is alive, whoever uses it. */
  lemma RegisteredIsLive(states: seq<State>, actions: seq<Action>, k: nat, g: Signum)
    requires IsRun(states, actions) && k < |states| && g in states[k].table
    ensures states[k].table[g] in states[k].live
  {
    RunTraced(states, actions, k);
  }
}
