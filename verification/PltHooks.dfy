/** Hooking and unhooking GOT slots: deps/plthooks/plthooks.cpp, every operation under
    g_got_modification_lock and every store to a slot succeeding. */
module PltHooks {
  import opened Hooks

  datatype World = World(registry: Registry, got: map<Address, Fn>)

  datatype Outcome = Applied | Nothing | Failed | Aborted

  // ---------------------------------------------------------------- one slot

  /** patch_relocation_address_for_hook */
  function HookedSlot(w: World, a: Address, f: Fn, noChaining: bool): (World, Outcome)
    requires Indexed(w.registry) && a in w.got
  {
    if a in w.registry.byGot && noChaining then (w, Failed)
    else
      var (registry, result) := Added(w.registry, a, f, w.got[a], noChaining);
      if a in w.registry.byGot then (w.(registry := registry), if result.AlreadyHookedAppended? then Applied else Failed)
      else if !result.NewHook? then (w.(registry := registry), Failed)
      else (World(registry, w.got[a := if noChaining then f else Trampoline(result.id)]), Applied)
  }

  /** The body of the loop in unhook_single_lib. */
  function UnhookedSlot(w: World, a: Address, f: Fn): (World, Outcome)
    requires Indexed(w.registry) && a in w.got
  {
    var (registry, result) := Removed(w.registry, a, f);
    match result
    case RemovedStillHooked => (w.(registry := registry), Applied)
    case RemovedTrivial(original) =>
      RemovedIndexed(w.registry, a, f);
      var (registry2, result2) := Removed(registry, a, original);
      (World(registry2, w.got[a := original]), if result2.RemovedFully? then Applied else Aborted)
    case UnknownHook => (w, Nothing)
    case _ => (w.(registry := registry), Failed)
  }

  lemma RemovedIndexed(r: Registry, a: Address, f: Fn)
    requires Indexed(r)
    ensures Indexed(Removed(r, a, f).0)
  {
    var r' := Removed(r, a, f).0;
    forall b | b in r'.byGot ensures Points(r', b) {
      assert b in r.byGot && Points(r, b);
      assert a in r.byGot ==> Points(r, a);
    }
  }

  // ---------------------------------------------------------------- the invariant

  /** The GOT against its contents before any hook. */
  ghost predicate Inv(w: World, original: map<Address, Fn>) {
    && Indexed(w.registry) && 0 < w.registry.nextId
    && w.got.Keys == original.Keys && w.registry.byGot.Keys <= original.Keys
    && (forall a <- w.got :: SlotInv(w, original, a))
    && (forall id: HookId :: 0 < id < w.registry.nextId ==> ListInv(w, original, id))
  }

  /** An unhooked slot holds its original function; a hooked one its trampoline, or its only
      hook if that does not chain. */
  predicate SlotInv(w: World, original: map<Address, Fn>, a: Address)
    requires Indexed(w.registry) && a in w.got && w.got.Keys == original.Keys
  {
    if a !in w.registry.byGot then w.got[a] == original[a]
    else
      assert Points(w.registry, a);
      var id := w.registry.byGot[a];
      var info := w.registry.byId[id];
      && a != 0 && |info.hooks| >= 2
      && (info.noChaining ==> |info.hooks| == 2)
      && w.got[a] == if info.noChaining then info.hooks[1] else Trampoline(id)
  }

  /** Every id ever handed out keeps a run list that begins with the original function, so a
      trampoline entered late still finds where to go. */
  predicate ListInv(w: World, original: map<Address, Fn>, id: HookId) {
    && id in w.registry.byId
    && var info := w.registry.byId[id];
       && info.got in original && |info.hooks| >= 1 && info.hooks[0] == original[info.got]
       && (forall k :: 0 <= k < |info.hooks| ==> !info.hooks[k].Null?)
  }

  // ---------------------------------------------------------------- the three ways a world changes

  /** The run list of a hooked slot replaced. */
  function Relisted(w: World, a: Address, hooks: seq<Fn>): World
    requires a in w.registry.byGot && Points(w.registry, a)
  {
    var r := w.registry;
    var id := r.byGot[a];
    w.(registry := r.(byId := r.byId[id := r.byId[id].(hooks := hooks)]))
  }

  /** A slot hooked for the first time. */
  function Opened(w: World, a: Address, f: Fn, noChaining: bool): World
    requires a in w.got
  {
    var r := w.registry;
    World(Registry(r.nextId + 1, r.byId[r.nextId := Info(a, noChaining, [w.got[a], f])], r.byGot[a := r.nextId]),
          w.got[a := if noChaining then f else Trampoline(r.nextId)])
  }

  /** A slot given back to its original function. */
  function Restored(w: World, a: Address, original: Fn): World
    requires a in w.registry.byGot && Points(w.registry, a)
  {
    var w1 := Relisted(w, a, [original]);
    World(w1.registry.(byGot := w1.registry.byGot - {a}), w1.got[a := original])
  }

  lemma HookIs(w: World, original: map<Address, Fn>, a: Address, f: Fn, noChaining: bool)
    requires Inv(w, original) && a in w.got
    ensures var (w', outcome) := HookedSlot(w, a, f, noChaining);
            if outcome != Applied then w' == w && outcome == Failed
            else if a in w.registry.byGot then
              Points(w.registry, a) && w' == Relisted(w, a, ListOf(w.registry, a) + [f]) && !f.Null?
              && !w.registry.byId[w.registry.byGot[a]].noChaining
            else w' == Opened(w, a, f, noChaining) && a != 0 && !f.Null? && !w.got[a].Null?
    ensures HookedSlot(w, a, f, noChaining).1 == Applied <==>
              && a != 0 && !f.Null? && !w.got[a].Null?
              && (a in w.registry.byGot ==> !noChaining && !w.registry.byId[w.registry.byGot[a]].noChaining)
  {
    assert a in w.registry.byGot ==> Points(w.registry, a);
  }

  /** The second removal in unhook_single_lib always finds the original function alone. */
  lemma UnhookIs(w: World, original: map<Address, Fn>, a: Address, f: Fn)
    requires Inv(w, original) && a in w.got
    ensures var (w', outcome) := UnhookedSlot(w, a, f);
            && outcome != Aborted
            && (outcome == Applied <==> 0 < Find(ListOf(w.registry, a), f) < |ListOf(w.registry, a)|)
            && if outcome != Applied then w' == w
               else
                 && a in w.registry.byGot && Points(w.registry, a)
                 && var hooks := ListOf(w.registry, a);
                    w' == if |hooks| == 2 then Restored(w, a, original[a])
                             else Relisted(w, a, Without(hooks, Find(hooks, f)))
  {
    var r := w.registry;
    if a in r.byGot {
      assert SlotInv(w, original, a) && Points(r, a);
      var hooks := ListOf(r, a);
      assert ListInv(w, original, r.byGot[a]);
      var k := Find(hooks, f);
      if 0 < k < |hooks| && !f.Null? {
        WithoutKeepsHead(hooks, k);
        if |hooks| == 2 {
          assert Without(hooks, k) == [original[a]];
          LastRemoval(w, a, f, original[a]);
        }
      }
    }
  }

  /** An unhook finds nothing to do exactly when it is well formed and its hook is not in the list. */
  lemma UnhookMisses(w: World, original: map<Address, Fn>, a: Address, f: Fn)
    requires Inv(w, original) && a in w.got
    ensures UnhookedSlot(w, a, f).1 == Nothing <==> a != 0 && !f.Null? && f !in ListOf(w.registry, a)
  {
    assert SlotInv(w, original, a);
    RemoveIs(w.registry, a, f);
  }

  lemma LastRemoval(w: World, a: Address, f: Fn, original: Fn)
    requires Indexed(w.registry) && a in w.got && a in w.registry.byGot && Points(w.registry, a) && a != 0
    requires var hooks := ListOf(w.registry, a); |hooks| == 2 && hooks == [original, f] && original != f
    requires !f.Null? && !original.Null?
    ensures UnhookedSlot(w, a, f) == (Restored(w, a, original), Applied)
  {
    var hooks := ListOf(w.registry, a);
    assert Without(hooks, 1) == [original];
    assert hooks[1..] == [f];
    assert Find(hooks, f) == 1;
    RemovedIndexed(w.registry, a, f);
    var (r1, result1) := Removed(w.registry, a, f);
    assert result1 == RemovedTrivial(original) && r1 == Relisted(w, a, [original]).registry;
  }

  lemma WithoutKeepsHead(hooks: seq<Fn>, k: nat)
    requires 0 < k < |hooks|
    ensures |Without(hooks, k)| == |hooks| - 1 && Without(hooks, k)[0] == hooks[0]
    ensures (forall j :: 0 <= j < |hooks| ==> !hooks[j].Null?) ==>
              forall j :: 0 <= j < |hooks| - 1 ==> !Without(hooks, k)[j].Null?
  {
  }

  // ---------------------------------------------------------------- each keeps the invariant

  lemma RelistedKeepsInv(w: World, original: map<Address, Fn>, a: Address, hooks: seq<Fn>, w': World)
    requires Inv(w, original) && a in w.registry.byGot && Points(w.registry, a) && w' == Relisted(w, a, hooks)
    requires !w.registry.byId[w.registry.byGot[a]].noChaining
    requires |hooks| >= 2 && hooks[0] == original[a] && forall k :: 0 <= k < |hooks| ==> !hooks[k].Null?
    ensures Inv(w', original)
  {
    var r, r' := w.registry, w'.registry;
    forall b | b in r'.byGot ensures Points(r', b) {
      assert Points(r, b);
    }
    forall b | b in w'.got ensures SlotInv(w', original, b) {
      assert SlotInv(w, original, b);
      assert b in r.byGot ==> Points(r, b);
    }
    forall id: HookId | 0 < id < r'.nextId ensures ListInv(w', original, id) {
      assert ListInv(w, original, id);
    }
  }

  lemma OpenedKeepsInv(w: World, original: map<Address, Fn>, a: Address, f: Fn, noChaining: bool, w': World)
    requires Inv(w, original) && a in w.got && a !in w.registry.byGot && w' == Opened(w, a, f, noChaining)
    requires a != 0 && !f.Null? && !w.got[a].Null?
    ensures Inv(w', original)
  {
    var r, r' := w.registry, w'.registry;
    assert SlotInv(w, original, a);
    forall b | b in r'.byGot ensures Points(r', b) {
      assert b != a ==> Points(r, b);
    }
    forall b | b in w'.got ensures SlotInv(w', original, b) {
      assert SlotInv(w, original, b);
      assert b in r.byGot ==> Points(r, b);
    }
    forall id: HookId | 0 < id < r'.nextId ensures ListInv(w', original, id) {
      assert id < r.nextId ==> ListInv(w, original, id);
    }
  }

  lemma RestoredKeepsInv(w: World, original: map<Address, Fn>, a: Address, w': World)
    requires Inv(w, original) && a in w.registry.byGot && Points(w.registry, a) && w' == Restored(w, a, original[a])
    ensures Inv(w', original)
  {
    var r, r' := w.registry, w'.registry;
    forall b | b in r'.byGot ensures Points(r', b) {
      assert Points(r, b);
    }
    forall b | b in w'.got ensures SlotInv(w', original, b) {
      assert SlotInv(w, original, b);
      assert b in r.byGot ==> Points(r, b);
    }
    forall id: HookId | 0 < id < r'.nextId ensures ListInv(w', original, id) {
      assert ListInv(w, original, id);
    }
  }

  lemma HookKeepsInv(w: World, original: map<Address, Fn>, a: Address, f: Fn, noChaining: bool)
    requires Inv(w, original) && a in w.got
    ensures Inv(HookedSlot(w, a, f, noChaining).0, original)
  {
    var w' := HookedSlot(w, a, f, noChaining).0;
    HookIs(w, original, a, f, noChaining);
    if w' != w {
      if a in w.registry.byGot {
        var hooks := ListOf(w.registry, a);
        assert SlotInv(w, original, a) && ListInv(w, original, w.registry.byGot[a]);
        RelistedKeepsInv(w, original, a, hooks + [f], w');
      } else {
        OpenedKeepsInv(w, original, a, f, noChaining, w');
      }
    }
  }

  lemma UnhookKeepsInv(w: World, original: map<Address, Fn>, a: Address, f: Fn)
    requires Inv(w, original) && a in w.got
    ensures Inv(UnhookedSlot(w, a, f).0, original)
  {
    var w' := UnhookedSlot(w, a, f).0;
    UnhookIs(w, original, a, f);
    if w' != w {
      var hooks := ListOf(w.registry, a);
      assert SlotInv(w, original, a) && ListInv(w, original, w.registry.byGot[a]);
      WithoutKeepsHead(hooks, Find(hooks, f));
      if |hooks| == 2 {
        RestoredKeepsInv(w, original, a, w');
      } else {
        RelistedKeepsInv(w, original, a, Without(hooks, Find(hooks, f)), w');
      }
    }
  }

  // ---------------------------------------------------------------- runs

  datatype Op = Hook(a: Address, f: Fn, noChaining: bool) | Unhook(a: Address, f: Fn)

  function Step(w: World, op: Op): (World, Outcome)
    requires Indexed(w.registry) && op.a in w.got
  {
    match op
    case Hook(a, f, noChaining) => HookedSlot(w, a, f, noChaining)
    case Unhook(a, f) => UnhookedSlot(w, a, f)
  }

  ghost predicate IsRun(original: map<Address, Fn>, worlds: seq<World>, ops: seq<Op>) {
    && |worlds| == |ops| + 1
    && worlds[0] == World(Registry(1, map[], map[]), original)
    && forall k {:trigger ops[k]} :: 0 <= k < |ops| ==>
         Indexed(worlds[k].registry) && ops[k].a in worlds[k].got && worlds[k + 1] == Step(worlds[k], ops[k]).0
  }

  lemma StepInv(w: World, original: map<Address, Fn>, op: Op, w': World)
    requires Inv(w, original) && op.a in w.got && w' == Step(w, op).0
    ensures Inv(w', original)
  {
    match op
    case Hook(a, f, noChaining) => HookKeepsInv(w, original, a, f, noChaining);
    case Unhook(a, f) => UnhookKeepsInv(w, original, a, f);
  }

  /** The GOT invariant holds after any sequence of hooks and unhooks. */
  lemma {:induction false} RunInv(original: map<Address, Fn>, worlds: seq<World>, ops: seq<Op>, n: nat)
    requires IsRun(original, worlds, ops) && n < |worlds|
    ensures Inv(worlds[n], original)
  {
    if n > 0 {
      RunInv(original, worlds, ops, n - 1);
      StepInv(worlds[n - 1], original, ops[n - 1], worlds[n]);
    }
  }

  /** No run ever aborts. */
  lemma NeverAborts(original: map<Address, Fn>, worlds: seq<World>, ops: seq<Op>, n: nat)
    requires IsRun(original, worlds, ops) && n < |ops|
    ensures Step(worlds[n], ops[n]).1 != Aborted
  {
    RunInv(original, worlds, ops, n);
    match ops[n]
    case Hook(a, f, noChaining) => HookIs(worlds[n], original, a, f, noChaining);
    case Unhook(a, f) => UnhookIs(worlds[n], original, a, f);
  }

  // ---------------------------------------------------------------- conservation

  /** How many times f is in the run list of slot a, the original function apart. */
  function Hooked(w: World, a: Address, f: Fn): nat
    requires Indexed(w.registry)
  {
    Times(ListOf(w.registry, a), f)
  }

  function Times(hooks: seq<Fn>, f: Fn): nat {
    if |hooks| == 0 then 0 else multiset(hooks[1..])[f]
  }

  /** A successful hook of slot a with f counts one, a successful unhook minus one. */
  function Change(w: World, op: Op, a: Address, f: Fn): int
    requires Indexed(w.registry) && op.a in w.got
  {
    if op.a != a || op.f != f || Step(w, op).1 != Applied then 0 else if op.Hook? then 1 else -1
  }

  /** Successful hooks of slot a with f, less successful unhooks, among the first n operations. */
  ghost function Balance(original: map<Address, Fn>, worlds: seq<World>, ops: seq<Op>, n: nat, a: Address, f: Fn): int
    requires IsRun(original, worlds, ops) && n <= |ops|
  {
    if n == 0 then 0 else Balance(original, worlds, ops, n - 1, a, f) + Change(worlds[n - 1], ops[n - 1], a, f)
  }

  lemma TimesAppended(hooks: seq<Fn>, g: Fn, f: Fn)
    requires |hooks| > 0
    ensures Times(hooks + [g], f) == Times(hooks, f) + if f == g then 1 else 0
  {
    assert (hooks + [g])[1..] == hooks[1..] + [g];
  }

  lemma TimesWithout(hooks: seq<Fn>, k: nat, f: Fn)
    requires 0 < k < |hooks|
    ensures Times(Without(hooks, k), f) == Times(hooks, f) - if f == hooks[k] then 1 else 0
  {
    var front, back := hooks[1..k], hooks[k + 1..];
    assert Without(hooks, k)[1..] == front + back;
    assert hooks[1..] == front + ([hooks[k]] + back);
  }

  lemma TimesOfTwo(hooks: seq<Fn>, f: Fn)
    requires |hooks| == 2
    ensures Times(hooks, f) == if f == hooks[1] then 1 else 0
  {
    assert hooks[1..] == [hooks[1]];
  }

  /** Other slots' run lists are untouched. */
  lemma OtherLists(w: World, a: Address, w': World, b: Address)
    requires Indexed(w.registry) && Indexed(w'.registry) && a in w.got && b != a
    requires || w' == w
             || (a !in w.registry.byGot && exists f, nc :: w' == Opened(w, a, f, nc))
             || (a in w.registry.byGot && Points(w.registry, a) &&
                 exists hooks :: w' == Relisted(w, a, hooks) || (|hooks| == 1 && w' == Restored(w, a, hooks[0])))
    ensures ListOf(w'.registry, b) == ListOf(w.registry, b)
  {
    if b in w.registry.byGot {
      assert Points(w.registry, b);
    }
  }

  lemma HookAdds(w: World, original: map<Address, Fn>, a: Address, g: Fn, noChaining: bool, b: Address, f: Fn)
    requires Inv(w, original) && a in w.got
    ensures var (w', outcome) := HookedSlot(w, a, g, noChaining);
            Inv(w', original) && Hooked(w', b, f) == Hooked(w, b, f) + if b == a && f == g && outcome == Applied then 1 else 0
  {
    var w' := HookedSlot(w, a, g, noChaining).0;
    HookKeepsInv(w, original, a, g, noChaining);
    HookIs(w, original, a, g, noChaining);
    if b != a {
      OtherLists(w, a, w', b);
    } else if w' != w {
      if a in w.registry.byGot {
        assert SlotInv(w, original, a);
        TimesAppended(ListOf(w.registry, a), g, f);
      } else {
        TimesOfTwo(ListOf(w'.registry, a), f);
      }
    }
  }

  lemma UnhookRemoves(w: World, original: map<Address, Fn>, a: Address, g: Fn, b: Address, f: Fn)
    requires Inv(w, original) && a in w.got
    ensures var (w', outcome) := UnhookedSlot(w, a, g);
            Inv(w', original) && Hooked(w', b, f) == Hooked(w, b, f) - if b == a && f == g && outcome == Applied then 1 else 0
  {
    var w' := UnhookedSlot(w, a, g).0;
    UnhookKeepsInv(w, original, a, g);
    UnhookIs(w, original, a, g);
    if b != a {
      var hooks := [original[a]];
      assert UnhookedSlot(w, a, g).1 == Applied && |ListOf(w.registry, a)| == 2 ==> w' == Restored(w, a, hooks[0]);
      OtherLists(w, a, w', b);
    } else if UnhookedSlot(w, a, g).1 == Applied {
      var hooks := ListOf(w.registry, a);
      if |hooks| == 2 {
        TimesOfTwo(hooks, f);
      } else {
        TimesWithout(hooks, Find(hooks, g), f);
      }
    }
  }

  lemma StepChanges(w: World, original: map<Address, Fn>, op: Op, a: Address, f: Fn)
    requires Inv(w, original) && op.a in w.got
    ensures Inv(Step(w, op).0, original) && Hooked(Step(w, op).0, a, f) == Hooked(w, a, f) + Change(w, op, a, f)
  {
    match op
    case Hook(b, g, noChaining) => HookAdds(w, original, b, g, noChaining, a, f);
    case Unhook(b, g) => UnhookRemoves(w, original, b, g, a, f);
  }

  /** The run list of a slot is what successful hooks put there and successful unhooks have not
      taken away again. */
  lemma {:induction false} HooksAreConserved(original: map<Address, Fn>, worlds: seq<World>, ops: seq<Op>,
                                             n: nat, a: Address, f: Fn)
    requires IsRun(original, worlds, ops) && n <= |ops|
    ensures Inv(worlds[n], original) && Hooked(worlds[n], a, f) == Balance(original, worlds, ops, n, a, f)
  {
    if n == 0 {
      RunInv(original, worlds, ops, 0);
    } else {
      HooksAreConserved(original, worlds, ops, n - 1, a, f);
      StepChanges(worlds[n - 1], original, ops[n - 1], a, f);
    }
  }

  lemma UnhookedIffEmpty(w: World, original: map<Address, Fn>, a: Address)
    requires Inv(w, original) && a in original
    ensures a !in w.registry.byGot <==> forall f :: Hooked(w, a, f) == 0
    ensures a !in w.registry.byGot ==> w.got[a] == original[a]
  {
    assert SlotInv(w, original, a);
    if a in w.registry.byGot {
      var hooks := ListOf(w.registry, a);
      assert hooks[1] == hooks[1..][0] && hooks[1] in multiset(hooks[1..]);
      assert Hooked(w, a, hooks[1]) > 0;
    }
  }

  ghost predicate AllUndone(original: map<Address, Fn>, worlds: seq<World>, ops: seq<Op>, n: nat, a: Address)
    requires IsRun(original, worlds, ops) && n <= |ops|
  {
    forall f :: Balance(original, worlds, ops, n, a, f) == 0
  }

  lemma UndoneIffEmpty(original: map<Address, Fn>, worlds: seq<World>, ops: seq<Op>, n: nat, a: Address)
    requires IsRun(original, worlds, ops) && n <= |ops| && Indexed(worlds[n].registry)
    ensures AllUndone(original, worlds, ops, n, a) <==> forall f :: Hooked(worlds[n], a, f) == 0
  {
    forall f ensures Hooked(worlds[n], a, f) == Balance(original, worlds, ops, n, a, f) {
      HooksAreConserved(original, worlds, ops, n, a, f);
    }
  }

  /** Once every successful hook of a slot is undone, in whatever order, the slot holds its
      original function again; while any is not, the slot is still hooked. */
  lemma SlotsAreRestored(original: map<Address, Fn>, worlds: seq<World>, ops: seq<Op>, n: nat, a: Address)
    requires IsRun(original, worlds, ops) && n <= |ops| && a in original
    ensures a !in worlds[n].registry.byGot <==> AllUndone(original, worlds, ops, n, a)
    ensures a !in worlds[n].registry.byGot ==> a in worlds[n].got && worlds[n].got[a] == original[a]
  {
    RunInv(original, worlds, ops, n);
    UnhookedIffEmpty(worlds[n], original, a);
    UndoneIffEmpty(original, worlds, ops, n, a);
  }

  // ---------------------------------------------------------------- undoing one hook

  /** Nothing but g comes after the first g among the hooks. */
  predicate LastInLine(hooks: seq<Fn>, g: Fn) {
    forall k :: Find(hooks, g) <= k < |hooks| ==> hooks[k] == g
  }

  lemma RestoredListIff(hooks: seq<Fn>, g: Fn)
    requires |hooks| > 0 && hooks[0] != g
    ensures var longer := hooks + [g];
            0 < Find(longer, g) < |longer| && (Without(longer, Find(longer, g)) == hooks <==> LastInLine(hooks, g))
  {
    var longer, k := hooks + [g], Find(hooks, g);
    assert longer[|hooks|] == g;
    FindAppended(hooks, g);
    var shorter := Without(longer, k);
    assert |shorter| == |hooks|;
    assert forall j :: 0 <= j < k ==> shorter[j] == hooks[j];
    assert forall j :: k <= j < |hooks| ==> shorter[j] == longer[j + 1];
    if shorter == hooks {
      SameOnwards(hooks, k, g);
    }
  }

  lemma {:induction false} FindAppended(hooks: seq<Fn>, g: Fn)
    ensures Find(hooks + [g], g) == Find(hooks, g)
  {
    var longer, k := hooks + [g], Find(hooks, g);
    assert longer[k] == g;
    assert forall j :: 0 <= j < k ==> longer[j] == hooks[j] != g;
  }

  lemma {:induction false} SameOnwards(hooks: seq<Fn>, k: nat, g: Fn)
    requires k <= |hooks|
    requires forall j :: k <= j < |hooks| ==> hooks[j] == (hooks + [g])[j + 1]
    ensures forall j :: k <= j < |hooks| ==> hooks[j] == g
    decreases |hooks| - k
  {
    if k < |hooks| {
      SameOnwards(hooks, k + 1, g);
      assert hooks[k] == (hooks + [g])[k + 1];
    }
  }

  /** Taking g out again after it was appended to a slot's run list. */
  lemma UndoesAppend(w: World, original: map<Address, Fn>, a: Address, g: Fn, w1: World)
    requires Inv(w, original) && a in w.registry.byGot && Points(w.registry, a)
    requires w1 == Relisted(w, a, ListOf(w.registry, a) + [g]) && Inv(w1, original)
    ensures var (w2, outcome) := UnhookedSlot(w1, a, g);
            && (outcome == Applied <==> g != original[a])
            && (outcome == Applied ==>
                  && Indexed(w2.registry) && w2.got == w.got && w2.registry.byGot == w.registry.byGot
                  && (ListOf(w2.registry, a) == ListOf(w.registry, a) <==> LastInLine(ListOf(w.registry, a), g)))
  {
    var hooks := ListOf(w.registry, a);
    assert SlotInv(w, original, a) && ListInv(w, original, w.registry.byGot[a]);
    assert ListOf(w1.registry, a) == hooks + [g];
    UnhookIs(w1, original, a, g);
    UnhookKeepsInv(w1, original, a, g);
    if g != original[a] {
      RestoredListIff(hooks, g);
    } else {
      assert (hooks + [g])[0] == g;
    }
  }

  /** And after it was the first hook of the slot. */
  lemma UndoesOpening(w: World, original: map<Address, Fn>, a: Address, g: Fn, noChaining: bool, w1: World)
    requires Inv(w, original) && a in w.got && a !in w.registry.byGot
    requires w1 == Opened(w, a, g, noChaining) && Inv(w1, original)
    ensures var (w2, outcome) := UnhookedSlot(w1, a, g);
            && (outcome == Applied <==> g != original[a])
            && (outcome == Applied ==> w2.got == w.got && w2.registry.byGot == w.registry.byGot)
  {
    assert SlotInv(w, original, a);
    assert ListOf(w1.registry, a) == [original[a], g];
    PutBack(w.got, a, w1.got[a]);
    TakeBack(w.registry.byGot, a, w.registry.nextId);
    UnhookIs(w1, original, a, g);
  }

  lemma PutBack(got: map<Address, Fn>, a: Address, f: Fn)
    requires a in got
    ensures got[a := f][a := got[a]] == got
  {
  }

  lemma TakeBack(byGot: map<Address, HookId>, a: Address, id: HookId)
    requires a !in byGot
    ensures byGot[a := id] - {a} == byGot
  {
  }

  /** Hooking a slot and unhooking it again. The GOT and the index of hooked slots are as before;
      so is the run list of a slot that was hooked already, exactly when no other hook follows an
      earlier copy of this one. Only the original function, added as a hook, cannot be taken out. */
  lemma UnhookUndoesHook(w: World, original: map<Address, Fn>, a: Address, g: Fn, noChaining: bool)
    requires Inv(w, original) && a in w.got && HookedSlot(w, a, g, noChaining).1 == Applied
    ensures var w1 := HookedSlot(w, a, g, noChaining).0;
            && Inv(w1, original)
            && var (w2, outcome) := UnhookedSlot(w1, a, g);
               && (outcome == Applied <==> g != original[a])
               && (outcome == Applied ==> w2.got == w.got && w2.registry.byGot == w.registry.byGot)
               && (outcome == Applied && a in w.registry.byGot ==>
                     && Indexed(w2.registry)
                     && (ListOf(w2.registry, a) == ListOf(w.registry, a) <==> LastInLine(ListOf(w.registry, a), g)))
  {
    var w1 := HookedSlot(w, a, g, noChaining).0;
    HookKeepsInv(w, original, a, g, noChaining);
    HookIs(w, original, a, g, noChaining);
    if a in w.registry.byGot {
      UndoesAppend(w, original, a, g, w1);
    } else {
      UndoesOpening(w, original, a, g, noChaining, w1);
    }
  }

  // ---------------------------------------------------------------- the code over the registry object

  /** What the operations leave, each slot being part of the GOT. */
  ghost function After(w: World, original: map<Address, Fn>, ops: seq<Op>): World
    requires Inv(w, original) && AllIn(ops, original)
    decreases |ops|
  {
    if ops == [] then w
    else StepInv(w, original, ops[0], Step(w, ops[0]).0); After(Step(w, ops[0]).0, original, ops[1..])
  }

  /** How many of them have this outcome. */
  ghost function Count(w: World, original: map<Address, Fn>, ops: seq<Op>, outcome: Outcome): nat
    requires Inv(w, original) && AllIn(ops, original)
    decreases |ops|
  {
    if ops == [] then 0
    else
      StepInv(w, original, ops[0], Step(w, ops[0]).0);
      (if Step(w, ops[0]).1 == outcome then 1 else 0) + Count(Step(w, ops[0]).0, original, ops[1..], outcome)
  }

  function Unhooks(slots: seq<Address>, f: Fn): (ops: seq<Op>)
    ensures |ops| == |slots|
  {
    seq(|slots|, k requires 0 <= k < |slots| => Unhook(slots[k], f))
  }

  class GotTable {
    const registry: HookRegistry
    var got: map<Address, Fn>

    ghost function Now(): World
      reads this, registry
    {
      World(registry.view, got)
    }

    constructor (got: map<Address, Fn>)
      ensures registry.Valid() && Now() == World(Registry(1, map[], map[]), got)
      ensures fresh(registry) && fresh(registry.hooksById.Values)
    {
      registry := new HookRegistry();
      this.got := got;
    }

    /** patch_relocation_address_for_hook */
    method PatchForHook(a: Address, f: Fn, noChaining: bool) returns (ok: bool)
      requires registry.Valid() && a in got
      modifies this, registry, registry.hooksById.Values
      ensures registry.Valid() && fresh(registry.hooksById.Values - old(registry.hooksById.Values))
      ensures Indexed(old(Now()).registry)
      ensures (Now(), if ok then Applied else Failed) == HookedSlot(old(Now()), a, f, noChaining)
    {
      registry.ViewIndexed();
      var hooked := registry.IsHooked(a);
      if !hooked {
        ok := FirstHook(a, f, noChaining);
      } else if noChaining {
        ok := false;
      } else {
        ghost var w := Now();
        var result := registry.Add(a, f, got[a], noChaining);
        HookParts(w, a, f, noChaining, registry.view, result);
        ok := result.AlreadyHookedAppended?;
      }
    }

    /** A slot not hooked yet: it needs a trampoline, unless the hook does not chain. */
    method FirstHook(a: Address, f: Fn, noChaining: bool) returns (ok: bool)
      requires registry.Valid() && a in got && a !in registry.view.byGot
      modifies this, registry, registry.hooksById.Values
      ensures registry.Valid() && fresh(registry.hooksById.Values - old(registry.hooksById.Values))
      ensures Indexed(old(Now()).registry)
      ensures (Now(), if ok then Applied else Failed) == HookedSlot(old(Now()), a, f, noChaining)
    {
      registry.ViewIndexed();
      ghost var w := Now();
      var result := registry.Add(a, f, got[a], noChaining);
      HookParts(w, a, f, noChaining, registry.view, result);
      ok := result.NewHook?;
      if ok {
        got := got[a := if noChaining then f else Trampoline(result.id)];
      }
    }

    /** One slot of unhook_single_lib; Aborted stands for its two aborts. */
    method UnhookSlot(a: Address, f: Fn) returns (outcome: Outcome)
      requires registry.Valid() && a in got
      modifies this, registry, registry.hooksById.Values
      ensures registry.Valid() && registry.hooksById == old(registry.hooksById) && Indexed(old(Now()).registry)
      ensures (Now(), outcome) == UnhookedSlot(old(Now()), a, f)
    {
      registry.ViewIndexed();
      ghost var w := Now();
      var result := registry.Remove(a, f);
      ghost var r := registry.view;
      if result.RemovedTrivial? {
        outcome := GiveBack(a, result.original);
        UnhookTwice(w, a, f, r, result.original, registry.view);
      } else {
        UnhookOnce(w, a, f, r, result);
        outcome := match result
          case RemovedStillHooked => Applied
          case UnknownHook => Nothing
          case _ => Failed;
      }
    }

    /** Only the original function is left: the slot gets it back, and the registry forgets it. */
    method GiveBack(a: Address, original: Fn) returns (outcome: Outcome)
      requires registry.Valid() && a in got
      modifies this`got, registry, registry.hooksById.Values
      ensures registry.Valid() && registry.hooksById == old(registry.hooksById) && Indexed(old(registry.view))
      ensures got == old(got)[a := original] && registry.view == Removed(old(registry.view), a, original).0
      ensures outcome == if Removed(old(registry.view), a, original).1.RemovedFully? then Applied else Aborted
    {
      got := got[a := original];
      var result := registry.Remove(a, original);
      outcome := if result.RemovedFully? then Applied else Aborted;
    }

    /** One round of the inner loop, with its counters. */
    method UnhookNext(op: Op, ghost before: World, ghost original: map<Address, Fn>, ghost ops: seq<Op>, ghost k: nat,
                      applied: nat, failures: nat) returns (applied': nat, failures': nat)
      requires registry.Valid() && Inv(before, original) && Inv(Now(), original)
      requires AllIn(ops, original) && k < |ops| && ops[k] == op && op.Unhook?
      requires Remaining(before, Now(), original, ops, k, applied, failures)
      modifies this, registry, registry.hooksById.Values
      ensures registry.Valid() && registry.hooksById == old(registry.hooksById) && Inv(Now(), original)
      ensures Remaining(before, Now(), original, ops, k + 1, applied', failures')
    {
      RemainingStep(before, Now(), original, ops, k, applied, failures);
      var outcome := UnhookSlot(op.a, op.f);
      applied' := applied + if outcome == Applied then 1 else 0;
      failures' := failures + if outcome == Failed then 1 else 0;
    }

    /** The inner loop of unhook_single_lib: one spec, all its relocations. */
    method UnhookSpec(slots: seq<Address>, f: Fn, ghost original: map<Address, Fn>) returns (applied: nat, failures: nat)
      requires registry.Valid() && Inv(Now(), original) && AllIn(Unhooks(slots, f), original)
      modifies this, registry, registry.hooksById.Values
      ensures registry.Valid() && registry.hooksById == old(registry.hooksById)
      ensures Now() == After(old(Now()), original, Unhooks(slots, f)) && Inv(Now(), original)
      ensures applied == Count(old(Now()), original, Unhooks(slots, f), Applied)
      ensures failures == Count(old(Now()), original, Unhooks(slots, f), Failed)
    {
      applied, failures := 0, 0;
      ghost var ops, before := Unhooks(slots, f), Now();
      RemainingStart(before, original, ops);
      var k := 0;
      while k < |slots|
        invariant 0 <= k <= |slots| && registry.Valid() && registry.hooksById == old(registry.hooksById)
        invariant Inv(Now(), original) && Remaining(before, Now(), original, ops, k, applied, failures)
      {
        applied, failures := UnhookNext(Unhook(slots[k], f), before, original, ops, k, applied, failures);
        k := k + 1;
      }
      RemainingEnd(before, Now(), original, ops, applied, failures);
    }
  }

  ghost predicate AllIn(ops: seq<Op>, original: map<Address, Fn>) {
    forall k :: 0 <= k < |ops| ==> ops[k].a in original
  }

  /** Operations from k on are still to be done, and counted. */
  ghost predicate Remaining(before: World, now: World, original: map<Address, Fn>, ops: seq<Op>, k: nat,
                            applied: nat, failures: nat)
    requires Inv(before, original) && Inv(now, original) && k <= |ops|
    requires AllIn(ops, original)
  {
    && After(now, original, ops[k..]) == After(before, original, ops)
    && applied + Count(now, original, ops[k..], Applied) == Count(before, original, ops, Applied)
    && failures + Count(now, original, ops[k..], Failed) == Count(before, original, ops, Failed)
  }

  lemma RemainingStep(before: World, now: World, original: map<Address, Fn>, ops: seq<Op>, k: nat, applied: nat,
                      failures: nat)
    requires Inv(before, original) && Inv(now, original) && k < |ops|
    requires AllIn(ops, original)
    requires Remaining(before, now, original, ops, k, applied, failures)
    ensures var (next, outcome) := Step(now, ops[k]);
            && Inv(next, original)
            && Remaining(before, next, original, ops, k + 1, applied + (if outcome == Applied then 1 else 0),
                         failures + (if outcome == Failed then 1 else 0))
  {
    StepInv(now, original, ops[k], Step(now, ops[k]).0);
    assert ops[k..][0] == ops[k] && ops[k..][1..] == ops[k + 1..];
  }

  lemma RemainingStart(before: World, original: map<Address, Fn>, ops: seq<Op>)
    requires Inv(before, original) && AllIn(ops, original)
    ensures Remaining(before, before, original, ops, 0, 0, 0)
  {
    assert ops[0..] == ops;
  }

  lemma RemainingEnd(before: World, now: World, original: map<Address, Fn>, ops: seq<Op>, applied: nat, failures: nat)
    requires Inv(before, original) && Inv(now, original) && AllIn(ops, original)
    requires Remaining(before, now, original, ops, |ops|, applied, failures)
    ensures now == After(before, original, ops)
    ensures applied == Count(before, original, ops, Applied) && failures == Count(before, original, ops, Failed)
  {
    assert ops[|ops|..] == [];
  }

  lemma HookParts(w: World, a: Address, f: Fn, noChaining: bool, r: Registry, result: HookResult)
    requires Indexed(w.registry) && a in w.got && !(a in w.registry.byGot && noChaining)
    requires (r, result) == Added(w.registry, a, f, w.got[a], noChaining)
    ensures HookedSlot(w, a, f, noChaining) ==
            if a in w.registry.byGot then (World(r, w.got), if result.AlreadyHookedAppended? then Applied else Failed)
            else if result.NewHook? then (World(r, w.got[a := if noChaining then f else Trampoline(result.id)]), Applied)
            else (World(r, w.got), Failed)
  {
  }

  lemma UnhookOnce(w: World, a: Address, f: Fn, r: Registry, result: HookResult)
    requires Indexed(w.registry) && a in w.got && (r, result) == Removed(w.registry, a, f) && !result.RemovedTrivial?
    ensures UnhookedSlot(w, a, f).0 == World(r, w.got)
    ensures UnhookedSlot(w, a, f).1 ==
            if result.RemovedStillHooked? then Applied else if result.UnknownHook? then Nothing else Failed
  {
  }

  lemma UnhookTwice(w: World, a: Address, f: Fn, r: Registry, original: Fn, r2: Registry)
    requires Indexed(w.registry) && a in w.got && (r, RemovedTrivial(original)) == Removed(w.registry, a, f)
    requires Indexed(r) && r2 == Removed(r, a, original).0
    ensures UnhookedSlot(w, a, f) ==
            (World(r2, w.got[a := original]), if Removed(r, a, original).1.RemovedFully? then Applied else Aborted)
  {
  }
}
