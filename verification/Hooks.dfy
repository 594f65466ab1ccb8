/** The registry of PLT hooks: deps/plthooks/hooks.cpp. */
module Hooks {

  type Address = nat
  type HookId = nat

  /** A function pointer; create_trampoline makes a distinct piece of code for each hook id. */
  datatype Fn = Null | Code(address: nat) | Trampoline(id: HookId)

  datatype HookResult =
    | UnknownHook
    | WrongHookInfo
    | NewHook(id: HookId)
    | AlreadyHookedAppended
    | RemovedStillHooked
    | RemovedTrivial(original: Fn)
    | RemovedFully
    | HookCannotBeChained

  // ---------------------------------------------------------------- the registry as a value

  /** A slot's run list: the original function, then the hooks from first added to last. */
  datatype Info = Info(got: Address, noChaining: bool, hooks: seq<Fn>)

  datatype Registry = Registry(nextId: HookId, byId: map<HookId, Info>, byGot: map<Address, HookId>)

  ghost predicate Indexed(r: Registry) {
    && (forall id <- r.byId :: 0 < id < r.nextId)
    && (forall a <- r.byGot :: Points(r, a))
  }

  predicate Points(r: Registry, a: Address)
    requires a in r.byGot
  {
    r.byGot[a] in r.byId && r.byId[r.byGot[a]].got == a
  }

  /** std::find */
  function Find(hooks: seq<Fn>, f: Fn): (k: nat)
    ensures k <= |hooks| && (k < |hooks| ==> hooks[k] == f)
    ensures forall j :: 0 <= j < k ==> hooks[j] != f
  {
    if hooks == [] || hooks[0] == f then 0 else 1 + Find(hooks[1..], f)
  }

  function Without(hooks: seq<Fn>, k: nat): seq<Fn>
    requires k < |hooks|
  {
    hooks[..k] + hooks[k + 1..]
  }

  function Added(r: Registry, a: Address, f: Fn, previous: Fn, noChaining: bool): (Registry, HookResult)
    requires Indexed(r)
  {
    if previous.Null? || f.Null? || a == 0 then (r, WrongHookInfo)
    else if a in r.byGot then
      assert Points(r, a);
      var id := r.byGot[a];
      var info := r.byId[id];
      if info.noChaining then (r, HookCannotBeChained)
      else (r.(byId := r.byId[id := info.(hooks := info.hooks + [f])]), AlreadyHookedAppended)
    else
      var id := r.nextId;
      (Registry(id + 1, r.byId[id := Info(a, noChaining, [previous, f])], r.byGot[a := id]), NewHook(id))
  }

  function Removed(r: Registry, a: Address, f: Fn): (Registry, HookResult)
    requires Indexed(r)
  {
    if f.Null? || a == 0 then (r, WrongHookInfo)
    else if a !in r.byGot then (r, UnknownHook)
    else
      assert Points(r, a);
      var id := r.byGot[a];
      var info := r.byId[id];
      if |info.hooks| == 1 then
        if info.hooks[0] != f then (r, WrongHookInfo)
        else (r.(byGot := r.byGot - {a}), RemovedFully)
      else
        var k := Find(info.hooks, f);
        if k == |info.hooks| then (r, UnknownHook)
        else if k == 0 then (r, WrongHookInfo)
        else
          var hooks := Without(info.hooks, k);
          (r.(byId := r.byId[id := info.(hooks := hooks)]),
           if |hooks| == 1 then RemovedTrivial(hooks[0]) else RemovedStillHooked)
  }

  /** The run list of a slot; none if it is not hooked. */
  function ListOf(r: Registry, a: Address): (hooks: seq<Fn>)
    requires Indexed(r)
  {
    if a in r.byGot then assert Points(r, a); r.byId[r.byGot[a]].hooks else []
  }

  /** Nothing but slot a's run list changed. */
  ghost predicate OnlyList(r: Registry, r': Registry, a: Address)
    requires Indexed(r)
  {
    && Indexed(r')
    && (forall b :: b != a ==> (b in r'.byGot <==> b in r.byGot) && ListOf(r', b) == ListOf(r, b))
    && (forall id :: id in r.byId && (a in r.byGot ==> id != r.byGot[a]) ==> id in r'.byId && r'.byId[id] == r.byId[id])
  }

  /** A slot can be hooked unless something is missing or the hook in place does not chain. The
      hook goes to the end of the slot's run list, which starts with the original function. */
  lemma AddIs(r: Registry, a: Address, f: Fn, previous: Fn, noChaining: bool)
    requires Indexed(r) && 0 < r.nextId
    ensures var (r', result) := Added(r, a, f, previous, noChaining);
            var given := a != 0 && !f.Null? && !previous.Null?;
            var hooked := a in r.byGot;
            var closed := hooked && Points(r, a) && r.byId[r.byGot[a]].noChaining;
            && OnlyList(r, r', a)
            && (result == WrongHookInfo <==> !given)
            && (result == HookCannotBeChained <==> given && closed)
            && (result == AlreadyHookedAppended <==> given && hooked && !closed)
            && (result.NewHook? <==> given && !hooked)
            && (!given || closed ==> r' == r)
            && (given && !closed ==> ListOf(r', a) == if hooked then ListOf(r, a) + [f] else [previous, f])
            && (a in r'.byGot <==> given || hooked)
            && (result.NewHook? ==>
                  result.id !in r.byId && a in r'.byGot && r'.byGot[a] == result.id
                  && r'.byId[result.id].noChaining == noChaining)
  {
    var r' := Added(r, a, f, previous, noChaining).0;
    forall b | b in r'.byGot ensures Points(r', b) {
      assert b != a || b in r.byGot ==> Points(r, b);
    }
    forall b | b != a && b in r.byGot ensures ListOf(r', b) == ListOf(r, b) {
      assert Points(r, b) && Points(r', b);
      assert a in r.byGot ==> Points(r, a);
    }
  }

  /** A hook that is in the run list behind the original function is taken out, the first of
      several; the original goes only when it is alone. */
  lemma RemoveIs(r: Registry, a: Address, f: Fn)
    requires Indexed(r)
    ensures var (r', result) := Removed(r, a, f);
            var given := a != 0 && !f.Null?;
            var hooks := ListOf(r, a);
            && OnlyList(r, r', a)
            && (result == UnknownHook <==> given && f !in hooks && |hooks| != 1)
            && (result == WrongHookInfo <==>
                  !given || (|hooks| == 1 && hooks[0] != f) || (|hooks| > 1 && hooks[0] == f))
            && (result == RemovedFully <==> given && hooks == [f])
            && (result.RemovedTrivial? <==> given && |hooks| == 2 && hooks[0] != f && hooks[1] == f)
            && (result.RemovedTrivial? ==> result.original == hooks[0])
            && (result == RemovedStillHooked <==> given && |hooks| > 2 && hooks[0] != f && f in hooks)
            && (result.RemovedTrivial? || result.RemovedStillHooked? ==> LessFirst(hooks, ListOf(r', a), f))
            && (result.UnknownHook? || result.WrongHookInfo? ==> r' == r)
            && (a in r'.byGot <==> a in r.byGot && !result.RemovedFully?)
  {
    var r' := Removed(r, a, f).0;
    forall b | b in r'.byGot ensures Points(r', b) {
      assert b in r.byGot && Points(r, b);
      assert a in r.byGot ==> Points(r, a);
    }
    forall b | b != a && b in r.byGot ensures b in r'.byGot && ListOf(r', b) == ListOf(r, b) {
      assert Points(r, b) && Points(r', b);
      assert a in r.byGot ==> Points(r, a);
    }
    var hooks := ListOf(r, a);
    var k := Find(hooks, f);
    if k < |hooks| {
      assert TakenOut(hooks, Without(hooks, k), f, k);
    }
  }

  /** `less` is `hooks` without the first f. */
  ghost predicate LessFirst(hooks: seq<Fn>, less: seq<Fn>, f: Fn) {
    exists k: nat :: TakenOut(hooks, less, f, k)
  }

  ghost predicate TakenOut(hooks: seq<Fn>, less: seq<Fn>, f: Fn, k: nat) {
    k < |hooks| && hooks[k] == f && f !in hooks[..k] && less == hooks[..k] + hooks[k + 1..]
  }

  // ---------------------------------------------------------------- the registry as objects

  /** Shared by both maps. */
  class InternalHookInfo {
    const id: HookId
    const gotAddress: Address
    const noChaining: bool
    var hooks: seq<Fn>

    constructor (id: HookId, gotAddress: Address, noChaining: bool, hooks: seq<Fn>)
      ensures this.id == id && this.gotAddress == gotAddress && this.noChaining == noChaining && this.hooks == hooks
    {
      this.id, this.gotAddress, this.noChaining, this.hooks := id, gotAddress, noChaining, hooks;
    }

    function Value(): Info
      reads this
    {
      Info(gotAddress, noChaining, hooks)
    }
  }

  class HookRegistry {
    var hooksById: map<HookId, InternalHookInfo>
    var hooksByGot: map<Address, InternalHookInfo>
    var nextId: HookId
    ghost var view: Registry

    ghost predicate Valid()
      reads this, hooksById.Values
    {
      && 0 < nextId == view.nextId
      && view.byId.Keys == hooksById.Keys && view.byGot.Keys == hooksByGot.Keys
      && (forall id <- hooksById :: FiledById(id))
      && (forall a <- hooksByGot :: FiledByGot(a))
    }

    ghost predicate FiledById(id: HookId)
      requires id in hooksById && id in view.byId
      reads this, hooksById.Values
    {
      hooksById[id].id == id && 0 < id < nextId && view.byId[id] == hooksById[id].Value()
    }

    ghost predicate FiledByGot(a: Address)
      requires a in hooksByGot && a in view.byGot
      reads this
    {
      var info := hooksByGot[a];
      info.gotAddress == a && info.id in hooksById && hooksById[info.id] == info && view.byGot[a] == info.id
    }

    lemma ViewIndexed()
      requires Valid()
      ensures Indexed(view)
    {
      forall id | id in view.byId ensures 0 < id < view.nextId {
        assert FiledById(id);
      }
      forall a | a in view.byGot ensures Points(view, a) {
        assert FiledByGot(a) && FiledById(view.byGot[a]);
      }
    }

    constructor ()
      ensures Valid() && view == Registry(1, map[], map[]) && hooksById == map[]
    {
      hooksById, hooksByGot, nextId := map[], map[], 1;
      view := Registry(1, map[], map[]);
    }

    method IsHooked(a: Address) returns (hooked: bool)
      requires Valid()
      ensures hooked <==> a in view.byGot
    {
      hooked := a in hooksByGot;
    }

    method ListSize(id: HookId) returns (n: int)
      requires Valid()
      ensures n == if id in view.byId then |view.byId[id].hooks| else -1
    {
      if id !in hooksById {
        return -1;
      }
      assert FiledById(id);
      n := |hooksById[id].hooks|;
    }

    method GetRunList(id: HookId) returns (hooks: seq<Fn>)
      requires Valid()
      ensures hooks == if id in view.byId then view.byId[id].hooks else []
    {
      if id !in hooksById {
        return [];
      }
      assert FiledById(id);
      hooks := hooksById[id].hooks;
    }

    method SetHooks(info: InternalHookInfo, hooks: seq<Fn>)
      requires Valid() && info.id in hooksById && hooksById[info.id] == info
      modifies info, this`view
      ensures Valid() && view == old(view).(byId := old(view).byId[info.id := old(view).byId[info.id].(hooks := hooks)])
    {
      assert FiledById(info.id);
      info.hooks := hooks;
      view := view.(byId := view.byId[info.id := view.byId[info.id].(hooks := hooks)]);
      forall id | id in hooksById ensures FiledById(id) {
        assert old(FiledById(id));
      }
      forall a | a in hooksByGot ensures FiledByGot(a) {
        assert old(FiledByGot(a));
      }
    }

    /** A new entry, in both maps. */
    method Register(a: Address, noChaining: bool, hooks: seq<Fn>) returns (info: InternalHookInfo)
      requires Valid()
      modifies this
      ensures Valid() && fresh(hooksById.Values - old(hooksById.Values)) && info.id == old(view).nextId
      ensures view == Registry(info.id + 1, old(view).byId[info.id := Info(a, noChaining, hooks)], old(view).byGot[a := info.id])
    {
      info := new InternalHookInfo(nextId, a, noChaining, hooks);
      nextId := nextId + 1;
      hooksByGot := hooksByGot[a := info];
      hooksById := hooksById[info.id := info];
      view := Registry(nextId, view.byId[info.id := info.Value()], view.byGot[a := info.id]);
      forall id | id in hooksById ensures FiledById(id) {
        assert id in old(hooksById) ==> old(FiledById(id));
      }
      forall b | b in hooksByGot ensures FiledByGot(b) {
        if b != a {
          assert old(FiledByGot(b));
          assert old(FiledById(hooksByGot[b].id));
        }
      }
    }

    method Erase(a: Address)
      requires Valid()
      modifies this`hooksByGot, this`view
      ensures Valid() && view == old(view).(byGot := old(view).byGot - {a})
    {
      hooksByGot := hooksByGot - {a};
      view := view.(byGot := view.byGot - {a});
      forall id | id in hooksById ensures FiledById(id) {
        assert old(FiledById(id));
      }
      forall b | b in hooksByGot ensures FiledByGot(b) {
        assert old(FiledByGot(b));
      }
    }

    method Add(a: Address, f: Fn, previous: Fn, noChaining: bool) returns (result: HookResult)
      requires Valid()
      modifies this, hooksById.Values
      ensures Valid() && fresh(hooksById.Values - old(hooksById.Values))
      ensures Indexed(old(view)) && (view, result) == Added(old(view), a, f, previous, noChaining)
    {
      ViewIndexed();
      if previous.Null? || f.Null? || a == 0 {
        return WrongHookInfo;
      }
      if a in hooksByGot {
        assert FiledByGot(a) && FiledById(hooksByGot[a].id);
        var info := hooksByGot[a];
        if info.noChaining {
          return HookCannotBeChained;
        }
        SetHooks(info, info.hooks + [f]);
        return AlreadyHookedAppended;
      }
      var info := Register(a, noChaining, [previous, f]);
      result := NewHook(info.id);
    }

    method Remove(a: Address, f: Fn) returns (result: HookResult)
      requires Valid()
      modifies this`hooksByGot, this`view, hooksById.Values
      ensures Valid() && hooksById == old(hooksById)
      ensures Indexed(old(view)) && (view, result) == Removed(old(view), a, f)
    {
      ViewIndexed();
      if f.Null? || a == 0 {
        return WrongHookInfo;
      }
      if a !in hooksByGot {
        return UnknownHook;
      }
      assert FiledByGot(a) && FiledById(hooksByGot[a].id);
      var info := hooksByGot[a];
      if |info.hooks| == 1 {
        if info.hooks[0] != f {
          return WrongHookInfo;
        }
        Erase(a);
        return RemovedFully;
      }
      var k := Find(info.hooks, f);
      if k == |info.hooks| {
        return UnknownHook;
      }
      if k == 0 {
        return WrongHookInfo;
      }
      SetHooks(info, Without(info.hooks, k));
      result := if |info.hooks| == 1 then RemovedTrivial(info.hooks[0]) else RemovedStillHooked;
    }
  }
}
