/**
 cpp/profiler/SignalHandler.{h,cpp} as interleaved steps: signal activations running
 UniversalHandler, threads running Initialize (which replaces and deletes a handler instance),
 and threads calling Enable and Disable. All signals share one global phaser; every instance
 has its own. Instances are identified by allocation, so an address that is reused is a new
 instance. Drains are serialised, as phaser.h asks. The phasers are the grace-period specification that `Phaser` refines.
 */
module SignalHandler {
  import opened Wrappers
  import opened GracePeriod

  type Signum = nat
  type Instance = nat
  type Activation = Section
  type Caller = nat

  /** A HandlerScope: the instance it refers to and its `enabled_` flag. */
  datatype Scope = Scope(inst: Instance, enabled: bool)

  /** One delivery of a signal, from UniversalHandler on. */
  datatype ActivationPc =
    | Looking(signum: Signum)                  // inside the global phaser, before the table load
    | Reading(inst: Instance)                  // before the load of enabled_
    | Joining(inst: Instance)                  // saw enabled_, before entering the local phaser
    | Departing(scope: Scope)                  // before leaving the global phaser
    | Running(scopes: seq<Scope>)              // the scopes alive in the handler
    | Gone

  /** A thread in Initialize or Disable. */
  datatype CallerPc =
    | Loading(signum: Signum)                  // top of the retry loop
    | Loaded(signum: Signum, lookup: Option<Instance>)                       // before the allocation
    | Copying(signum: Signum, lookup: Option<Instance>, created: Instance)   // before the copy of old_sigaction_
    | Swapping(signum: Signum, lookup: Option<Instance>, created: Instance)  // before the CAS
    | Installing(signum: Signum, created: Instance)  // first instance: before taking over the signal
    | Retiring(old_: Instance)                 // CAS done, before the global drain
    | DrainingGlobal(old_: Instance)
    | Retired(old_: Instance)                  // before the local drain
    | DrainingLocal(old_: Instance)
    | Deleting(old_: Instance)
    | Disabled(inst: Instance)                 // flag stored, before the local drain
    | DrainingDisabled(inst: Instance)
    | Finished

  /** `published` and `deleted` only record history: the instances that have ever been in the table,
      and those that some Initialize has replaced and deleted. */
  datatype State = State(
    table: map<Signum, Instance>,
    installed: set<Signum>,
    live: set<Instance>,
    enabled: set<Instance>,
    global: Grace,
    local: map<Instance, Grace>,
    activations: map<Activation, ActivationPc>,
    callers: map<Caller, CallerPc>,
    next: Instance,
    published: set<Instance>,
    deleted: set<Instance>)

  const INITIAL := State(map[], {}, {}, {}, Quiet, map[], map[], map[], 0, {}, {})

  function LocalOf(st: State, inst: Instance): Grace {
    if inst in st.local then st.local[inst] else Quiet
  }

  // ---------------------------------------------------------------- steps of an activation

  datatype Action =
    | Deliver(t: Activation, signum: Signum)   // the signal arrives; enter the global phaser
    | Lookup(t: Activation)                    // load the registered instance
    | ReadFlag(t: Activation)                  // load enabled_
    | Join(t: Activation)                      // enter the local phaser
    | Depart(t: Activation)                    // leave the global phaser
    | MoveScope(t: Activation, i: nat)         // move-construct a new scope from scope i
    | DropScope(t: Activation, i: nat)         // destructor
    | QuitScope(t: Activation, i: nat)         // CallPreviousHandler leaves the local phaser first
    | ReadInstance(t: Activation, i: nat)      // then, like GetData, it reads the instance through the scope
    | LongJump(t: Activation, i: nat)          // leave, then jump out of the handler
    | CallInitialize(c: Caller, signum: Signum)
    | Load(c: Caller)                          // load the table
    | Allocate(c: Caller)                      // make the new instance
    | Copy(c: Caller)                          // copy old_sigaction_ from the loaded instance, if any
    | Swap(c: Caller)                          // compare and exchange
    | Install(c: Caller)                       // sigaction: the signal is now delivered to UniversalHandler,
                                               // and the old action is stored in the new instance
    | BeginDrain(c: Caller)
    | FinishDrain(c: Caller)
    | Delete(c: Caller)
    | Enable(inst: Instance)
    | SetData(inst: Instance)
    | CallDisable(c: Caller, inst: Instance)

  predicate IsActivationStep(a: Action) {
    a.Deliver? || a.Lookup? || a.ReadFlag? || a.Join? || a.Depart? ||
    a.MoveScope? || a.DropScope? || a.QuitScope? || a.ReadInstance? || a.LongJump?
  }

  predicate ActivationEnabled(st: State, a: Action)
    requires IsActivationStep(a)
  {
    if a.Deliver? then a.t !in st.activations && a.signum in st.installed else
    a.t in st.activations &&
    var pc := st.activations[a.t];
    match a
    case Lookup(_) => pc.Looking? && pc.signum in st.table
    case ReadFlag(_) => pc.Reading?
    case Join(_) => pc.Joining?
    case Depart(_) => pc.Departing?
    case MoveScope(_, i) => pc.Running? && i < |pc.scopes|
    case DropScope(_, i) => pc.Running? && i < |pc.scopes|
    case QuitScope(_, i) => pc.Running? && i < |pc.scopes|
    case ReadInstance(_, i) => pc.Running? && i < |pc.scopes|
    case LongJump(_, i) => pc.Running? && i < |pc.scopes|
  }

  /** The local phaser state after scope sc of activation t gives up its section, if it has one. */
  function Leave(st: State, t: Activation, sc: Scope): map<Instance, Grace> {
    if sc.enabled then st.local[sc.inst := LocalOf(st, sc.inst).Exit(t)] else st.local
  }

  function ActivationApply(st: State, a: Action): State
    requires IsActivationStep(a) && ActivationEnabled(st, a)
  {
    if a.Deliver? then
      st.(global := st.global.Enter(a.t), activations := st.activations[a.t := Looking(a.signum)])
    else
      var t := a.t;
      var pc := st.activations[t];
      match a
      case Lookup(_) => st.(activations := st.activations[t := Reading(st.table[pc.signum])])
      case ReadFlag(_) =>
        st.(activations := st.activations[t := if pc.inst in st.enabled then Joining(pc.inst)
                                               else Departing(Scope(pc.inst, false))])
      case Join(_) =>
        st.(local := st.local[pc.inst := LocalOf(st, pc.inst).Enter(t)],
            activations := st.activations[t := Departing(Scope(pc.inst, true))])
      case Depart(_) =>
        st.(global := st.global.Exit(t), activations := st.activations[t := Running([pc.scope])])
      case MoveScope(_, i) =>
        var sc := pc.scopes[i];
        st.(activations := st.activations[t := Running(pc.scopes[i := sc.(enabled := false)] + [sc])])
      case DropScope(_, i) =>
        st.(local := Leave(st, t, pc.scopes[i]),
            activations := st.activations[t := Running(pc.scopes[..i] + pc.scopes[i + 1..])])
      case ReadInstance(_, i) => st
      case QuitScope(_, i) =>
        st.(local := Leave(st, t, pc.scopes[i]),
            activations := st.activations[t := Running(pc.scopes[i := pc.scopes[i].(enabled := false)])])
      case LongJump(_, i) =>
        st.(local := Leave(st, t, pc.scopes[i]), activations := st.activations[t := Gone])
  }

  // ---------------------------------------------------------------- steps of a caller

  /** phaser.h asks its callers to serialise drains. Enable, SetData and Disable may be called on any
      instance that Initialize has ever published, whatever has become of it since. */
  predicate CallerEnabled(st: State, a: Action)
    requires !IsActivationStep(a)
  {
    if a.CallInitialize? then a.c !in st.callers
    else if a.Enable? || a.SetData? then a.inst in st.published
    else if a.CallDisable? then a.c !in st.callers && a.inst in st.published
    else
      a.c in st.callers &&
      var pc := st.callers[a.c];
      match a
      case Load(_) => pc.Loading?
      case Allocate(_) => pc.Loaded?
      case Copy(_) => pc.Copying?
      case Swap(_) => pc.Swapping?
      case Install(_) => pc.Installing?
      case BeginDrain(_) =>
        || (pc.Retiring? && !st.global.draining)
        || (pc.Retired? && !LocalOf(st, pc.old_).draining)
        || (pc.Disabled? && !LocalOf(st, pc.inst).draining)
      case FinishDrain(_) =>
        || (pc.DrainingGlobal? && st.global.draining && st.global.pending == {})
        || (pc.DrainingLocal? && LocalOf(st, pc.old_).draining && LocalOf(st, pc.old_).pending == {})
        || (pc.DrainingDisabled? && LocalOf(st, pc.inst).draining && LocalOf(st, pc.inst).pending == {})
      case Delete(_) => pc.Deleting?
  }

  function CallerApply(st: State, a: Action): State
    requires !IsActivationStep(a) && CallerEnabled(st, a)
  {
    if a.CallInitialize? then st.(callers := st.callers[a.c := Loading(a.signum)])
    else if a.Enable? then st.(enabled := st.enabled + {a.inst})
    else if a.SetData? then st
    else if a.CallDisable? then
      st.(enabled := st.enabled - {a.inst}, callers := st.callers[a.c := Disabled(a.inst)])
    else
      var c := a.c;
      var pc := st.callers[c];
      match a
      case Load(_) =>
        var lookup := if pc.signum in st.table then Some(st.table[pc.signum]) else None;
        st.(callers := st.callers[c := Loaded(pc.signum, lookup)])
      case Allocate(_) =>
        st.(live := st.live + {st.next}, next := st.next + 1,
            callers := st.callers[c := Copying(pc.signum, pc.lookup, st.next)])
      case Copy(_) =>
        st.(callers := st.callers[c := Swapping(pc.signum, pc.lookup, pc.created)])
      case Swap(_) =>
        var current := if pc.signum in st.table then Some(st.table[pc.signum]) else None;
        if current != pc.lookup then
          st.(live := st.live - {pc.created}, callers := st.callers[c := Loading(pc.signum)])
        else
          st.(table := st.table[pc.signum := pc.created], published := st.published + {pc.created},
              callers := st.callers[c := if current.None? then Installing(pc.signum, pc.created) else Retiring(current.value)])
      case Install(_) =>
        st.(installed := st.installed + {pc.signum}, callers := st.callers[c := Finished])
      case BeginDrain(_) =>
        (match pc
         case Retiring(o) => st.(global := st.global.Begin(), callers := st.callers[c := DrainingGlobal(o)])
         case Retired(o) =>
           st.(local := st.local[o := LocalOf(st, o).Begin()], callers := st.callers[c := DrainingLocal(o)])
         case Disabled(o) =>
           st.(local := st.local[o := LocalOf(st, o).Begin()], callers := st.callers[c := DrainingDisabled(o)]))
      case FinishDrain(_) =>
        (match pc
         case DrainingGlobal(o) => st.(global := st.global.Finish(), callers := st.callers[c := Retired(o)])
         case DrainingLocal(o) =>
           st.(local := st.local[o := LocalOf(st, o).Finish()], callers := st.callers[c := Deleting(o)])
         case DrainingDisabled(o) =>
           st.(local := st.local[o := LocalOf(st, o).Finish()], callers := st.callers[c := Finished]))
      case Delete(_) =>
        st.(live := st.live - {pc.old_}, deleted := st.deleted + {pc.old_}, callers := st.callers[c := Finished])
  }

  predicate Enabled(st: State, a: Action) {
    if IsActivationStep(a) then ActivationEnabled(st, a) else CallerEnabled(st, a)
  }

  function Apply(st: State, a: Action): State
    requires Enabled(st, a)
  {
    if IsActivationStep(a) then ActivationApply(st, a) else CallerApply(st, a)
  }

  ghost predicate IsRun(states: seq<State>, actions: seq<Action>) {
    && |states| == |actions| + 1
    && states[0] == INITIAL
    && forall k {:trigger actions[k]} :: 0 <= k < |actions| ==>
         Enabled(states[k], actions[k]) && states[k + 1] == Apply(states[k], actions[k])
  }

  // ---------------------------------------------------------------- who refers to an instance

  /** The activation holds the raw pointer while still inside the global phaser. */
  predicate Unjoined(pc: ActivationPc, inst: Instance) {
    (pc.Reading? || pc.Joining?) && pc.inst == inst
  }

  /** The activation has a live scope with `enabled_` true on the instance. */
  predicate HasEnabledScope(pc: ActivationPc, inst: Instance) {
    || pc == Departing(Scope(inst, true))
    || (pc.Running? && Scope(inst, true) in pc.scopes)
  }

  predicate Uses(pc: ActivationPc, inst: Instance) {
    Unjoined(pc, inst) || HasEnabledScope(pc, inst)
  }

  /** The instance a thread in Initialize has unpublished and will delete. */
  predicate Retires(pc: CallerPc, inst: Instance) {
    (pc.Retiring? || pc.DrainingGlobal? || pc.Retired? || pc.DrainingLocal? || pc.Deleting?) && pc.old_ == inst
  }

  /** The caller has an instance that is not in the table yet. */
  predicate HasNew(pc: CallerPc) {
    pc.Copying? || pc.Swapping?
  }

  predicate DrainsLocal(pc: CallerPc, inst: Instance) {
    pc == DrainingLocal(inst) || pc == DrainingDisabled(inst)
  }

  /** At most one scope of an activation is enabled, and all refer to the same instance. */
  predicate OneEnabled(scopes: seq<Scope>) {
    && (forall i, j :: 0 <= i < j < |scopes| ==> !(scopes[i].enabled && scopes[j].enabled))
    && (forall i, j :: 0 <= i < j < |scopes| ==> scopes[i].inst == scopes[j].inst)
  }

  // ---------------------------------------------------------------- invariant

  ghost predicate Owned(st: State) {
    && (forall g :: g in st.table ==> st.table[g] in st.live && st.table[g] < st.next)
    && (forall g, h :: g in st.table && h in st.table && g != h ==> st.table[g] != st.table[h])
    && (forall c :: c in st.callers && HasNew(st.callers[c]) ==> Private(st, c, st.callers[c].created))
    && (forall c, i :: c in st.callers && Retires(st.callers[c], i) ==> Unpublished(st, c, i))
    && (forall i :: i in st.live ==> i < st.next)
    && (forall g :: g in st.installed ==> g in st.table)
    && (forall c :: c in st.callers && st.callers[c].Installing? ==> st.callers[c].signum in st.table)
  }

  /** The instance is known to caller c alone. */
  ghost predicate Private(st: State, c: Caller, i: Instance) {
    && i in st.live && i < st.next && i !in st.table.Values
    && (forall d :: d in st.callers ==> !Retires(st.callers[d], i))
    && (forall d :: d in st.callers && d != c && HasNew(st.callers[d]) ==> st.callers[d].created != i)
    && (forall t :: t in st.activations ==> !Uses(st.activations[t], i))
  }

  /** The instance has left the table and only caller c will delete it. */
  ghost predicate Unpublished(st: State, c: Caller, i: Instance) {
    && i in st.live && i < st.next && i !in st.table.Values
    && (forall d :: d in st.callers && d != c ==> !Retires(st.callers[d], i))
  }

  ghost predicate Phased(st: State) {
    && st.global.Valid()
    && (forall i :: LocalOf(st, i).Valid())
    && (forall t :: t in st.activations ==> PcPhased(st, t, st.activations[t]))
  }

  ghost predicate PcPhased(st: State, t: Activation, pc: ActivationPc) {
    match pc
    case Looking(g) => t in st.global.inside && g in st.installed
    case Reading(i) => t in st.global.inside && i in st.live
    case Joining(i) => t in st.global.inside && i in st.live
    case Departing(sc) => t in st.global.inside && (sc.enabled ==> sc.inst in st.live && t in LocalOf(st, sc.inst).inside)
    case Running(scopes) =>
      && OneEnabled(scopes)
      && (forall sc :: sc in scopes && sc.enabled ==> sc.inst in st.live && t in LocalOf(st, sc.inst).inside)
    case Gone => true
  }

  /** How far a replacement has come, and who can then still use the replaced instance. */
  ghost predicate Drained(st: State) {
    forall c, t :: c in st.callers && t in st.activations ==> Excludes(st, st.callers[c], t, st.activations[t])
  }

  ghost predicate Excludes(st: State, c: CallerPc, t: Activation, pc: ActivationPc) {
    match c
    case DrainingGlobal(i) => Unjoined(pc, i) ==> t in st.global.pending
    case Retired(i) => !Unjoined(pc, i)
    case DrainingLocal(i) => !Unjoined(pc, i) && (HasEnabledScope(pc, i) ==> t in LocalOf(st, i).pending)
    case Deleting(i) => !Unjoined(pc, i) && !HasEnabledScope(pc, i)
    case _ => true
  }

  ghost predicate Serialised(st: State) {
    && (forall c :: c in st.callers && st.callers[c].DrainingGlobal? ==> st.global.draining)
    && (forall c, i :: c in st.callers && DrainsLocal(st.callers[c], i) ==> LocalOf(st, i).draining)
    && (forall c, d :: c in st.callers && d in st.callers && c != d ==>
          !(st.callers[c].DrainingGlobal? && st.callers[d].DrainingGlobal?))
    && (forall c, d, i :: c in st.callers && d in st.callers && c != d ==>
          !(DrainsLocal(st.callers[c], i) && DrainsLocal(st.callers[d], i)))
  }

  ghost predicate Inv(st: State) {
    Owned(st) && Phased(st) && Drained(st) && Serialised(st)
  }

  lemma InitInv()
    ensures Inv(INITIAL)
  {
  }

  // ---------------------------------------------------------------- preservation: activations

  /** One phaser after activation t entered it, left it, or did nothing to it. */
  ghost predicate OnlyMoves(g: Grace, g': Grace, t: Activation) {
    && g'.Valid() && g'.draining == g.draining
    && (forall u :: u != t ==> (u in g.inside <==> u in g'.inside) && (u in g.pending <==> u in g'.pending))
  }

  /** Activation t moved to pc; nothing but its place in the phasers changed besides. */
  ghost predicate ActivationMove(st: State, st': State, t: Activation, pc: ActivationPc) {
    && st' == st.(global := st'.global, local := st'.local, activations := st.activations[t := pc])
    && OnlyMoves(st.global, st'.global, t)
    && (forall i :: OnlyMoves(LocalOf(st, i), LocalOf(st', i), t))
  }

  ghost predicate WasUnjoined(st: State, t: Activation, i: Instance) {
    t in st.activations && Unjoined(st.activations[t], i)
  }

  ghost predicate WasEnabled(st: State, t: Activation, i: Instance) {
    t in st.activations && HasEnabledScope(st.activations[t], i)
  }

  /** A new hold on an instance comes from the table, or from an earlier hold. */
  ghost predicate HoldsOn(st: State, st': State, t: Activation, pc: ActivationPc) {
    && (forall i :: Unjoined(pc, i) ==>
          i in st.table.Values || (WasUnjoined(st, t, i) && (t in st.global.pending ==> t in st'.global.pending)))
    && (pc.Joining? ==> pc.inst in st.enabled)
    && (forall i :: HasEnabledScope(pc, i) ==>
          (t in st.activations && st.activations[t] == Joining(i)) ||
          (WasEnabled(st, t, i) && (t in LocalOf(st, i).pending ==> t in LocalOf(st', i).pending)))
  }

  lemma OwnedAfterMove(st: State, st': State, t: Activation, pc: ActivationPc)
    requires Owned(st) && ActivationMove(st, st', t, pc) && HoldsOn(st, st', t, pc)
    ensures Owned(st')
  {
    forall c | c in st'.callers && HasNew(st'.callers[c])
      ensures Private(st', c, st'.callers[c].created)
    {
      assert Private(st, c, st.callers[c].created);
    }
    forall c, i | c in st'.callers && Retires(st'.callers[c], i)
      ensures Unpublished(st', c, i)
    {
      assert Unpublished(st, c, i);
    }
  }

  lemma PhasedAfterMove(st: State, st': State, t: Activation, pc: ActivationPc)
    requires Phased(st) && ActivationMove(st, st', t, pc) && PcPhased(st', t, pc)
    ensures Phased(st')
  {
    forall u | u in st'.activations && u != t
      ensures PcPhased(st', u, st'.activations[u])
    {
      assert PcPhased(st, u, st.activations[u]);
      assert forall i :: OnlyMoves(LocalOf(st, i), LocalOf(st', i), t);
    }
    assert forall i :: OnlyMoves(LocalOf(st, i), LocalOf(st', i), t);
  }

  lemma DrainedAfterMove(st: State, st': State, t: Activation, pc: ActivationPc)
    requires Owned(st) && Drained(st) && ActivationMove(st, st', t, pc) && HoldsOn(st, st', t, pc)
    ensures Drained(st')
  {
    forall c, u | c in st'.callers && u in st'.activations
      ensures Excludes(st', st'.callers[c], u, st'.activations[u])
    {
      var cpc := st.callers[c];
      if u != t {
        assert Excludes(st, cpc, u, st.activations[u]);
        if cpc.DrainingLocal? {
          assert OnlyMoves(LocalOf(st, cpc.old_), LocalOf(st', cpc.old_), t);
        }
      } else {
        assert t in st.activations ==> Excludes(st, cpc, t, st.activations[t]);
        if cpc.DrainingGlobal? || cpc.Retired? || cpc.DrainingLocal? || cpc.Deleting? {
          var i := cpc.old_;
          assert Retires(cpc, i) && Unpublished(st, c, i);
          assert Unjoined(pc, i) ==> WasUnjoined(st, t, i);
          assert HasEnabledScope(pc, i) ==> WasUnjoined(st, t, i) || WasEnabled(st, t, i);
        }
      }
    }
  }

  lemma ActivationMoveInv(st: State, st': State, t: Activation, pc: ActivationPc)
    requires Inv(st) && ActivationMove(st, st', t, pc) && HoldsOn(st, st', t, pc) && PcPhased(st', t, pc)
    ensures Inv(st')
  {
    OwnedAfterMove(st, st', t, pc);
    PhasedAfterMove(st, st', t, pc);
    DrainedAfterMove(st, st', t, pc);
    assert forall i :: OnlyMoves(LocalOf(st, i), LocalOf(st', i), t);
  }

  /** What every activation step does: it moves one activation and creates no hold from nothing. */
  ghost predicate Steps(st: State, st': State, t: Activation) {
    && t in st'.activations
    && ActivationMove(st, st', t, st'.activations[t]) && HoldsOn(st, st', t, st'.activations[t])
  }

  lemma DeliverInv(st: State, a: Action, st': State)
    requires Inv(st) && a.Deliver? && ActivationEnabled(st, a) && st' == ActivationApply(st, a)
    ensures Inv(st') && Steps(st, st', a.t)
  {
    ActivationMoveInv(st, st', a.t, Looking(a.signum));
  }

  lemma EnteringStepInv(st: State, a: Action, st': State)
    requires Inv(st) && (a.Lookup? || a.ReadFlag? || a.Depart?)
    requires ActivationEnabled(st, a) && st' == ActivationApply(st, a)
    ensures Inv(st') && Steps(st, st', a.t)
  {
    assert PcPhased(st, a.t, st.activations[a.t]);
    ActivationMoveInv(st, st', a.t, st'.activations[a.t]);
  }

  lemma JoinInv(st: State, a: Action, st': State)
    requires Inv(st) && a.Join? && ActivationEnabled(st, a) && st' == ActivationApply(st, a)
    ensures Inv(st') && Steps(st, st', a.t)
  {
    assert PcPhased(st, a.t, st.activations[a.t]);
    ActivationMoveInv(st, st', a.t, st'.activations[a.t]);
  }

  /** Dropping, moving or clearing scope i leaves at most one enabled scope, on the same instance. */
  lemma ScopesAfter(scopes: seq<Scope>, i: nat)
    requires OneEnabled(scopes) && i < |scopes|
    ensures var sc := scopes[i];
            var cleared := scopes[i := sc.(enabled := false)];
            && OneEnabled(cleared + [sc])
            && OneEnabled(cleared)
            && OneEnabled(scopes[..i] + scopes[i + 1..])
            && (forall x :: x in cleared && x.enabled ==> x in scopes && x != sc)
            && (forall x :: x in scopes[..i] + scopes[i + 1..] && x.enabled ==> x in scopes && !sc.enabled)
            && (forall x :: x in cleared && x.enabled ==> !sc.enabled)
  {
    var sc := scopes[i];
    var cleared := scopes[i := sc.(enabled := false)];
    var rest := scopes[..i] + scopes[i + 1..];
    assert forall k :: 0 <= k < |rest| ==> rest[k] == scopes[if k < i then k else k + 1];
    assert forall k :: 0 <= k < |cleared| && cleared[k].enabled ==> k != i && cleared[k] == scopes[k];
  }

  lemma LeaveMoves(st: State, t: Activation, sc: Scope, st': State)
    requires Phased(st) && st'.local == Leave(st, t, sc)
    ensures forall i :: OnlyMoves(LocalOf(st, i), LocalOf(st', i), t)
    ensures forall i :: i != sc.inst || !sc.enabled ==> LocalOf(st', i) == LocalOf(st, i)
  {
  }

  lemma MoveScopeInv(st: State, a: Action, st': State)
    requires Inv(st) && a.MoveScope? && ActivationEnabled(st, a) && st' == ActivationApply(st, a)
    ensures Inv(st') && Steps(st, st', a.t)
  {
    var pc := st.activations[a.t];
    assert PcPhased(st, a.t, pc);
    ScopesAfter(pc.scopes, a.i);
    var pc' := st'.activations[a.t];
    assert forall x :: x in pc'.scopes && x.enabled ==> x in pc.scopes;
    assert forall i :: LocalOf(st', i) == LocalOf(st, i);
    ActivationMoveInv(st, st', a.t, pc');
  }

  /** The scopes left behind when scope i is dropped or gives up its section. */
  lemma LeaveScopeMoves(st: State, a: Action, st': State, pc: ActivationPc, pc': ActivationPc)
    requires Inv(st) && (a.DropScope? || a.QuitScope?)
    requires ActivationEnabled(st, a) && st' == ActivationApply(st, a) && pc == st.activations[a.t]
    requires pc' == st'.activations[a.t]
    ensures ActivationMove(st, st', a.t, pc') && pc.Running? && pc'.Running? && OneEnabled(pc'.scopes)
    ensures forall x :: x in pc'.scopes && x.enabled ==> x in pc.scopes && !pc.scopes[a.i].enabled
  {
    assert PcPhased(st, a.t, pc);
    ScopesAfter(pc.scopes, a.i);
    LeaveMoves(st, a.t, pc.scopes[a.i], st');
  }

  lemma LeaveScopeInv(st: State, a: Action, st': State)
    requires Inv(st) && (a.DropScope? || a.QuitScope?)
    requires ActivationEnabled(st, a) && st' == ActivationApply(st, a)
    ensures Inv(st') && Steps(st, st', a.t)
  {
    var pc, pc' := st.activations[a.t], st'.activations[a.t];
    LeaveScopeMoves(st, a, st', pc, pc');
    LeaveMoves(st, a.t, pc.scopes[a.i], st');
    assert PcPhased(st, a.t, pc);
    assert PcPhased(st', a.t, pc');
    assert HoldsOn(st, st', a.t, pc');
    ActivationMoveInv(st, st', a.t, pc');
  }

  lemma LongJumpInv(st: State, a: Action, st': State)
    requires Inv(st) && a.LongJump? && ActivationEnabled(st, a) && st' == ActivationApply(st, a)
    ensures Inv(st') && Steps(st, st', a.t)
  {
    LeaveMoves(st, a.t, st.activations[a.t].scopes[a.i], st');
    ActivationMoveInv(st, st', a.t, Gone);
  }

  lemma ReadInv(st: State, t: Activation)
    requires Inv(st) && t in st.activations && st.activations[t].Running?
    ensures Steps(st, st, t)
  {
    assert st.activations[t := st.activations[t]] == st.activations;
    assert PcPhased(st, t, st.activations[t]);
  }

  lemma ActivationStepInv(st: State, a: Action, st': State)
    requires Inv(st) && IsActivationStep(a) && ActivationEnabled(st, a) && st' == ActivationApply(st, a)
    ensures Inv(st') && Steps(st, st', a.t)
  {
    match a
    case Deliver(_, _) => DeliverInv(st, a, st');
    case MoveScope(_, _) => MoveScopeInv(st, a, st');
    case DropScope(_, _) => LeaveScopeInv(st, a, st');
    case QuitScope(_, _) => LeaveScopeInv(st, a, st');
    case ReadInstance(_, _) => ReadInv(st, a.t);
    case LongJump(_, _) => LongJumpInv(st, a, st');
    case Join(_) => JoinInv(st, a, st');
    case _ => EnteringStepInv(st, a, st');
  }

  // ---------------------------------------------------------------- preservation: callers

  ghost predicate CallerMove(st: State, st': State, c: Caller, pc: CallerPc) {
    st'.activations == st.activations && st'.callers == st.callers[c := pc]
  }

  /** A phaser seen from the sections: a drain may begin or finish, nobody enters or leaves. */
  ghost predicate SameInside(g: Grace, g': Grace) {
    g'.Valid() && g'.inside == g.inside
  }

  lemma PhasedAfterCall(st: State, st': State, c: Caller, pc: CallerPc)
    requires Phased(st) && CallerMove(st, st', c, pc)
    requires SameInside(st.global, st'.global) && (forall i :: SameInside(LocalOf(st, i), LocalOf(st', i)))
    requires st.installed <= st'.installed
    requires forall t, i :: t in st.activations && Uses(st.activations[t], i) && i in st.live ==> i in st'.live
    ensures Phased(st')
  {
    forall t | t in st'.activations
      ensures PcPhased(st', t, st'.activations[t])
    {
      var apc := st.activations[t];
      assert PcPhased(st, t, apc);
      assert apc.Reading? || apc.Joining? ==> Uses(apc, apc.inst);
      assert apc.Departing? && apc.scope.enabled ==> Uses(apc, apc.scope.inst);
      assert apc.Running? ==> forall sc :: sc in apc.scopes && sc.enabled ==> Uses(apc, sc.inst) by {
        if apc.Running? {
          assert forall sc :: sc in apc.scopes && sc.enabled ==> sc == Scope(sc.inst, true);
        }
      }
      assert forall i :: SameInside(LocalOf(st, i), LocalOf(st', i));
    }
    assert forall i :: SameInside(LocalOf(st, i), LocalOf(st', i));
  }

  /** The other callers' drains are untouched by this step. */
  ghost predicate OthersKeep(st: State, st': State, c: Caller) {
    && (forall d :: d in st.callers && d != c && st.callers[d].DrainingGlobal? ==> st'.global == st.global)
    && (forall d, i :: d in st.callers && d != c && DrainsLocal(st.callers[d], i) ==> LocalOf(st', i) == LocalOf(st, i))
  }

  lemma DrainedAfterCall(st: State, st': State, c: Caller, pc: CallerPc)
    requires Drained(st) && CallerMove(st, st', c, pc) && OthersKeep(st, st', c)
    requires forall t :: t in st.activations ==> Excludes(st', pc, t, st.activations[t])
    ensures Drained(st')
  {
    forall d, t | d in st'.callers && t in st'.activations
      ensures Excludes(st', st'.callers[d], t, st'.activations[t])
    {
      if d != c {
        assert Excludes(st, st.callers[d], t, st.activations[t]);
        assert st.callers[d].DrainingLocal? ==> DrainsLocal(st.callers[d], st.callers[d].old_);
      }
    }
  }

  lemma SerialisedAfterCall(st: State, st': State, c: Caller, pc: CallerPc)
    requires Serialised(st) && CallerMove(st, st', c, pc) && OthersKeep(st, st', c)
    requires pc.DrainingGlobal? ==>
               st'.global.draining && forall d :: d in st.callers && d != c ==> !st.callers[d].DrainingGlobal?
    requires forall i :: DrainsLocal(pc, i) ==>
               LocalOf(st', i).draining && forall d :: d in st.callers && d != c ==> !DrainsLocal(st.callers[d], i)
    ensures Serialised(st')
  {
  }

  /** Ownership of instances is not affected by a step that only moves a caller along. */
  lemma OwnedAfterCall(st: State, st': State, c: Caller, pc: CallerPc)
    requires Owned(st) && CallerMove(st, st', c, pc)
    requires st'.table == st.table && st'.live == st.live && st'.next == st.next
    requires forall g :: g in st'.installed ==> g in st.table
    requires HasNew(pc) ==> c in st.callers && HasNew(st.callers[c]) && pc.created == st.callers[c].created
    requires !pc.Installing?
    requires forall i :: Retires(pc, i) ==> c in st.callers && Retires(st.callers[c], i)
    ensures Owned(st')
  {
    forall d | d in st'.callers && HasNew(st'.callers[d])
      ensures Private(st', d, st'.callers[d].created)
    {
      assert Private(st, d, st.callers[d].created);
    }
    forall d, i | d in st'.callers && Retires(st'.callers[d], i)
      ensures Unpublished(st', d, i)
    {
      assert Unpublished(st, d, i);
    }
  }

  /** What a caller's step must establish for its new position, given who owns what afterwards. */
  lemma CallInv(st: State, st': State, c: Caller, pc: CallerPc)
    requires Inv(st) && CallerMove(st, st', c, pc) && OthersKeep(st, st', c) && Owned(st')
    requires SameInside(st.global, st'.global) && (forall i :: SameInside(LocalOf(st, i), LocalOf(st', i)))
    requires st.installed <= st'.installed
    requires forall t, i :: t in st.activations && Uses(st.activations[t], i) && i in st.live ==> i in st'.live
    requires forall t :: t in st.activations ==> Excludes(st', pc, t, st.activations[t])
    requires pc.DrainingGlobal? ==>
               st'.global.draining && forall d :: d in st.callers && d != c ==> !st.callers[d].DrainingGlobal?
    requires forall i :: DrainsLocal(pc, i) ==>
               LocalOf(st', i).draining && forall d :: d in st.callers && d != c ==> !DrainsLocal(st.callers[d], i)
    ensures Inv(st')
  {
    PhasedAfterCall(st, st', c, pc);
    DrainedAfterCall(st, st', c, pc);
    SerialisedAfterCall(st, st', c, pc);
  }

  lemma SimpleCallInv(st: State, a: Action, st': State)
    requires Inv(st) && (a.CallInitialize? || a.CallDisable? || a.Install?)
    requires CallerEnabled(st, a) && st' == CallerApply(st, a)
    ensures Inv(st')
  {
    var pc := st'.callers[a.c];
    OwnedAfterCall(st, st', a.c, pc);
    CallInv(st, st', a.c, pc);
  }

  lemma MoveAlongInv(st: State, a: Action, st': State)
    requires Inv(st) && (a.Load? || a.Copy?) && CallerEnabled(st, a) && st' == CallerApply(st, a)
    ensures Inv(st')
  {
    var pc := st'.callers[a.c];
    OwnedAfterCall(st, st', a.c, pc);
    CallInv(st, st', a.c, pc);
  }

  lemma EnableInv(st: State, a: Action, st': State)
    requires Inv(st) && a.Enable? && CallerEnabled(st, a) && st' == CallerApply(st, a)
    ensures Inv(st')
  {
    assert forall i :: LocalOf(st', i) == LocalOf(st, i);
    forall t | t in st'.activations
      ensures PcPhased(st', t, st'.activations[t])
    {
      assert PcPhased(st, t, st.activations[t]);
    }
    forall d, t | d in st'.callers && t in st'.activations
      ensures Excludes(st', st'.callers[d], t, st'.activations[t])
    {
      assert Excludes(st, st.callers[d], t, st.activations[t]);
    }
    forall d | d in st'.callers && HasNew(st'.callers[d])
      ensures Private(st', d, st'.callers[d].created)
    {
      assert Private(st, d, st.callers[d].created);
    }
    forall d, i | d in st'.callers && Retires(st'.callers[d], i)
      ensures Unpublished(st', d, i)
    {
      assert Unpublished(st, d, i);
    }
  }

  lemma UsedIsLive(st: State)
    requires Phased(st)
    ensures forall t, i :: t in st.activations && Uses(st.activations[t], i) ==> i in st.live
  {
    forall t, i | t in st.activations && Uses(st.activations[t], i)
      ensures i in st.live
    {
      assert PcPhased(st, t, st.activations[t]);
    }
  }

  lemma OwnedAfterAllocate(st: State, st': State, c: Caller, pc: CallerPc)
    requires Owned(st) && Phased(st) && c in st.callers && st.callers[c].Loaded?
    requires pc.Copying? && pc.created == st.next
    requires st' == st.(live := st.live + {st.next}, next := st.next + 1, callers := st.callers[c := pc])
    ensures Owned(st')
  {
    UsedIsLive(st);
    forall d, i | d in st'.callers && Retires(st'.callers[d], i)
      ensures Unpublished(st', d, i)
    {
      assert Unpublished(st, d, i);
    }
    forall d | d in st'.callers && HasNew(st'.callers[d])
      ensures Private(st', d, st'.callers[d].created)
    {
      if d != c {
        assert Private(st, d, st.callers[d].created);
      } else {
        assert forall e, i :: e in st.callers && Retires(st.callers[e], i) ==> Unpublished(st, e, i);
        assert forall e :: e in st.callers && HasNew(st.callers[e]) ==> Private(st, e, st.callers[e].created);
      }
    }
  }

  lemma AllocateInv(st: State, a: Action, st': State)
    requires Inv(st) && a.Allocate? && CallerEnabled(st, a) && st' == CallerApply(st, a)
    ensures Inv(st')
  {
    var pc := st'.callers[a.c];
    OwnedAfterAllocate(st, st', a.c, pc);
    CallInv(st, st', a.c, pc);
  }

  /** Freeing an instance that is in nobody else's hands. */
  lemma OwnedAfterFree(st: State, st': State, c: Caller, pc: CallerPc, gone: Instance)
    requires Owned(st) && c in st.callers && gone !in st.table.Values
    requires st' == st.(live := st.live - {gone}, deleted := st'.deleted, callers := st.callers[c := pc])
    requires pc.Loading? || pc.Finished?
    requires forall d :: d in st.callers && d != c ==> !Retires(st.callers[d], gone)
    requires forall d :: d in st.callers && d != c && HasNew(st.callers[d]) ==> st.callers[d].created != gone
    ensures Owned(st')
  {
    assert forall g :: g in st.table ==> st.table[g] in st.table.Values;
    forall d, i | d in st'.callers && Retires(st'.callers[d], i)
      ensures Unpublished(st', d, i)
    {
      assert Unpublished(st, d, i);
    }
    forall d | d in st'.callers && HasNew(st'.callers[d])
      ensures Private(st', d, st'.callers[d].created)
    {
      assert Private(st, d, st.callers[d].created);
    }
  }

  lemma SwapFailsInv(st: State, a: Action, st': State)
    requires Inv(st) && a.Swap? && CallerEnabled(st, a) && st' == CallerApply(st, a)
    requires st'.callers[a.c].Loading?
    ensures Inv(st')
  {
    var created := st.callers[a.c].created;
    assert Private(st, a.c, created);
    OwnedAfterFree(st, st', a.c, st'.callers[a.c], created);
    CallInv(st, st', a.c, st'.callers[a.c]);
  }

  /** The CAS publishes the new instance and takes the previous one out of the table. */
  lemma OwnedAfterSwap(st: State, st': State, c: Caller, pc: CallerPc)
    requires Owned(st) && c in st.callers && st.callers[c].Swapping?
    requires var g := st.callers[c].signum;
             && st' == st.(table := st.table[g := st.callers[c].created], published := st'.published, callers := st.callers[c := pc])
             && pc == if g in st.table then Retiring(st.table[g]) else Installing(g, st.callers[c].created)
    ensures Owned(st')
  {
    var g, created := st.callers[c].signum, st.callers[c].created;
    assert Private(st, c, created);
    assert forall h :: h in st.table ==> st.table[h] in st.table.Values;
    forall d, i | d in st'.callers && Retires(st'.callers[d], i)
      ensures Unpublished(st', d, i)
    {
      if d != c {
        assert Unpublished(st, d, i);
      } else {
        assert forall e :: e in st.callers && Retires(st.callers[e], i) ==> Unpublished(st, e, i);
      }
      assert i != created;
      OutOfTable(st.table, g, created, i);
    }
    forall d | d in st'.callers && HasNew(st'.callers[d])
      ensures Private(st', d, st'.callers[d].created)
    {
      assert Private(st, d, st.callers[d].created);
      OutOfTable(st.table, g, created, st.callers[d].created);
      assert !Retires(pc, st.callers[d].created);
    }
  }

  lemma OutOfTable(table: map<Signum, Instance>, g: Signum, created: Instance, i: Instance)
    requires i != created && forall h :: h in table && h != g ==> table[h] != i
    ensures i !in table[g := created].Values
  {
  }

  lemma SwapSucceedsInv(st: State, st': State, c: Caller, pc: CallerPc)
    requires Inv(st) && c in st.callers && st.callers[c].Swapping?
    requires var g := st.callers[c].signum;
             && st' == st.(table := st.table[g := st.callers[c].created], published := st'.published, callers := st.callers[c := pc])
             && pc == if g in st.table then Retiring(st.table[g]) else Installing(g, st.callers[c].created)
    ensures Inv(st')
  {
    OwnedAfterSwap(st, st', c, pc);
    assert forall i :: LocalOf(st', i) == LocalOf(st, i);
    CallInv(st, st', c, pc);
  }

  lemma GlobalDrainInv(st: State, a: Action, st': State)
    requires Inv(st) && (a.BeginDrain? || a.FinishDrain?) && CallerEnabled(st, a) && st' == CallerApply(st, a)
    requires st.callers[a.c].Retiring? || st.callers[a.c].DrainingGlobal?
    ensures Inv(st')
  {
    var pc := st'.callers[a.c];
    OwnedAfterCall(st, st', a.c, pc);
    forall t | t in st.activations
      ensures Excludes(st', pc, t, st.activations[t])
    {
      assert Excludes(st, st.callers[a.c], t, st.activations[t]);
      assert PcPhased(st, t, st.activations[t]);
    }
    assert forall i :: LocalOf(st', i) == LocalOf(st, i);
    CallInv(st, st', a.c, pc);
  }

  lemma LocalBeginInv(st: State, st': State, c: Caller, i: Instance, pc: CallerPc)
    requires Inv(st) && c in st.callers && !LocalOf(st, i).draining
    requires (st.callers[c] == Retired(i) && pc == DrainingLocal(i)) || (st.callers[c] == Disabled(i) && pc == DrainingDisabled(i))
    requires st' == st.(local := st.local[i := LocalOf(st, i).Begin()], callers := st.callers[c := pc])
    ensures Inv(st')
  {
    OwnedAfterCall(st, st', c, pc);
    assert forall j :: j != i ==> LocalOf(st', j) == LocalOf(st, j);
    forall t | t in st.activations
      ensures Excludes(st', pc, t, st.activations[t])
    {
      assert Excludes(st, st.callers[c], t, st.activations[t]);
      assert PcPhased(st, t, st.activations[t]);
    }
    CallInv(st, st', c, pc);
  }

  lemma LocalFinishInv(st: State, a: Action, st': State)
    requires Inv(st) && a.FinishDrain? && CallerEnabled(st, a) && st' == CallerApply(st, a)
    requires st.callers[a.c].DrainingLocal? || st.callers[a.c].DrainingDisabled?
    ensures Inv(st')
  {
    var was, pc := st.callers[a.c], st'.callers[a.c];
    OwnedAfterCall(st, st', a.c, pc);
    var i := if was.DrainingLocal? then was.old_ else was.inst;
    assert DrainsLocal(was, i);
    assert forall j :: j != i ==> LocalOf(st', j) == LocalOf(st, j);
    forall t | t in st.activations
      ensures Excludes(st', pc, t, st.activations[t])
    {
      assert Excludes(st, was, t, st.activations[t]);
    }
    CallInv(st, st', a.c, pc);
  }

  lemma DeleteInv(st: State, a: Action, st': State)
    requires Inv(st) && a.Delete? && CallerEnabled(st, a) && st' == CallerApply(st, a)
    ensures Inv(st')
  {
    var gone := st.callers[a.c].old_;
    assert Retires(st.callers[a.c], gone) && Unpublished(st, a.c, gone);
    forall t | t in st.activations
      ensures !Uses(st.activations[t], gone)
    {
      assert Excludes(st, st.callers[a.c], t, st.activations[t]);
    }
    assert forall d :: d in st.callers && HasNew(st.callers[d]) ==> Private(st, d, st.callers[d].created);
    OwnedAfterFree(st, st', a.c, Finished, gone);
    CallInv(st, st', a.c, Finished);
  }

  lemma CallerStepInv(st: State, a: Action, st': State)
    requires Inv(st) && !IsActivationStep(a) && CallerEnabled(st, a) && st' == CallerApply(st, a)
    ensures Inv(st')
  {
    match a
    case Enable(_) => EnableInv(st, a, st');
    case SetData(_) => assert st' == st;
    case Load(_) => MoveAlongInv(st, a, st');
    case Copy(_) => MoveAlongInv(st, a, st');
    case Allocate(_) => AllocateInv(st, a, st');
    case Swap(c) =>
      if st'.callers[c].Loading? { SwapFailsInv(st, a, st'); } else { SwapSucceedsInv(st, st', c, st'.callers[c]); }
    case BeginDrain(c) =>
      if st.callers[c].Retiring? {
        GlobalDrainInv(st, a, st');
      } else {
        var i := if st.callers[c].Retired? then st.callers[c].old_ else st.callers[c].inst;
        LocalBeginInv(st, st', c, i, st'.callers[c]);
      }
    case FinishDrain(c) =>
      if st.callers[c].DrainingGlobal? { GlobalDrainInv(st, a, st'); } else { LocalFinishInv(st, a, st'); }
    case Delete(_) => DeleteInv(st, a, st');
    case _ => SimpleCallInv(st, a, st');
  }

  lemma StepInv(st: State, a: Action, st': State)
    requires Inv(st) && Enabled(st, a) && st' == Apply(st, a)
    ensures Inv(st')
  {
    if IsActivationStep(a) {
      ActivationStepInv(st, a, st');
    } else {
      CallerStepInv(st, a, st');
    }
  }

  lemma {:induction false} RunInv(states: seq<State>, actions: seq<Action>, k: nat)
    requires IsRun(states, actions) && k < |states|
    ensures Inv(states[k])
  {
    if k == 0 {
      InitInv();
    } else {
      RunInv(states, actions, k - 1);
      StepInv(states[k - 1], actions[k - 1], states[k]);
    }
  }

  // ---------------------------------------------------------------- what every run keeps

  /** EnterHandler never finds an empty table entry, so its abort is unreachable. */
  lemma LookupNeverAborts(states: seq<State>, actions: seq<Action>, k: nat, t: Activation)
    requires IsRun(states, actions) && k < |states|
    requires t in states[k].activations && states[k].activations[t].Looking?
    ensures states[k].activations[t].signum in states[k].table
  {
    RunInv(states, actions, k);
    assert PcPhased(states[k], t, states[k].activations[t]);
  }

  lemma FreshInstances(st: State, a: Action, st': State)
    requires Enabled(st, a) && st' == Apply(st, a)
    ensures st.next <= st'.next && forall i :: i in st'.live && i < st.next ==> i in st.live
  {
  }

  lemma {:induction false} NeverRevived(states: seq<State>, actions: seq<Action>, inst: Instance, k: nat, m: nat)
    requires IsRun(states, actions) && k <= m < |states|
    requires inst < states[k].next && inst !in states[k].live
    ensures inst < states[m].next && inst !in states[m].live
  {
    if k < m {
      NeverRevived(states, actions, inst, k, m - 1);
      FreshInstances(states[m - 1], actions[m - 1], states[m]);
    }
  }

  /** The two-phaser hand-off: when Initialize deletes the replaced instance, no activation
      refers to it from inside the global phaser or through an enabled scope, and from then on
      none ever does again. */
  lemma DeletedIsUnused(states: seq<State>, actions: seq<Action>, k: nat, inst: Instance, t: Activation, m: nat)
    requires IsRun(states, actions) && k < |actions| && k <= m < |states|
    requires actions[k].Delete? && states[k].callers[actions[k].c] == Deleting(inst)
    requires t in states[m].activations
    ensures !Uses(states[m].activations[t], inst)
  {
    RunInv(states, actions, k);
    RunInv(states, actions, m);
    var c := actions[k].c;
    if m == k {
      assert Excludes(states[k], states[k].callers[c], t, states[k].activations[t]);
    } else {
      assert Retires(states[k].callers[c], inst) && Unpublished(states[k], c, inst);
      NeverRevived(states, actions, inst, k + 1, m);
      UsedIsLive(states[m]);
    }
  }
}
