/** What a dispatch of deps/sigmux/sigmux.c gets to see of a list that changes under it. */
module SigmuxVisits {
  import opened Wrappers
  import opened GracePeriod
  import opened Sigmux

  /** The members of `keep`, in order. */
  function Only(nodes: seq<Node>, keep: set<Node>): seq<Node> {
    if nodes == [] then [] else (if nodes[0] in keep then [nodes[0]] else []) + Only(nodes[1..], keep)
  }

  lemma {:induction false} OnlyConcat(a: seq<Node>, b: seq<Node>, keep: set<Node>)
    ensures Only(a + b, keep) == Only(a, keep) + Only(b, keep)
  {
    if a == [] {
      assert a + b == b;
    } else {
      OnlyConcat(a[1..], b, keep);
      assert (a + b)[0] == a[0] && (a + b)[1..] == a[1..] + b;
      Associates(if a[0] in keep then [a[0]] else [], Only(a[1..], keep), Only(b, keep));
    }
  }

  lemma {:induction false} OnlyMembers(nodes: seq<Node>, keep: set<Node>, n: Node)
    ensures n in Only(nodes, keep) <==> n in nodes && n in keep
  {
    if nodes != [] {
      OnlyMembers(nodes[1..], keep, n);
    }
  }

  /** Position of a linked registration. */
  function Index(list: seq<Node>, n: Node): (p: nat)
    requires n in list
    ensures p < |list| && list[p] == n
  {
    if list[0] == n then 0 else 1 + Index(list[1..], n)
  }

  lemma IndexUnique(list: seq<Node>, p: nat)
    requires Distinct(list) && p < |list|
    ensures Index(list, list[p]) == p
  {
  }

  /** The list from x on. */
  function From(list: seq<Node>, x: Node): seq<Node>
    requires x in list
  {
    list[Index(list, x)..]
  }

  /** What a walker at x has ahead of it, x included. A registration being unregistered still leads
      back into the list. */
  function Ahead(list: seq<Node>, next: map<Node, Node>, x: Node): seq<Node> {
    if x == SENTINEL then []
    else if x in list then From(list, x)
    else [x] + (if x in next && next[x] in list then From(list, next[x]) else [])
  }

  lemma TailSplits(list: seq<Node>, p: nat)
    requires p < |list|
    ensures list[p..] == [list[p]] + list[p + 1..]
  {
  }

  /** Stepping on from a linked registration. */
  lemma AheadOnList(list: seq<Node>, next: map<Node, Node>, x: Node)
    requires Distinct(list) && SENTINEL !in list && Forward(list, next) && x in list
    ensures x in next && Ahead(list, next, x) == [x] + Ahead(list, next, next[x])
  {
    var p := Index(list, x);
    assert LinkNext(list, next, p + 1);
    TailSplits(list, p);
    if p + 1 < |list| {
      var y := list[p + 1];
      assert next[x] == y && y in list && y != SENTINEL;
      IndexUnique(list, p + 1);
    } else {
      assert next[x] == SENTINEL && list[p + 1..] == [];
    }
  }

  /** Stepping on from x. */
  lemma AheadStep(st: State, t: Section, x: Node)
    requires Inv(st) && MayStand(st, t, x) && x != SENTINEL
    ensures x in st.next && Ahead(st.list, st.next, x) == [x] + Ahead(st.list, st.next, st.next[x])
  {
    if x in st.list {
      AheadOnList(st.list, st.next, x);
    } else {
      VictimLeadsBack(st, x);
    }
  }

  lemma VictimLeadsBack(st: State, x: Node)
    requires Inv(st) && IsVictim(st.writer, x)
    ensures x in st.next && OnRing(st, st.next[x])
  {
    if st.writer.Rejoin? {
      assert Between(st, st.next[x], st.prev[x]);
    }
  }

  // ---------------------------------------------------------------- what a writer's step changes

  /** Taking a registration out, or putting a new one in front, does not concern the others. */
  lemma {:induction false} OnlyWithout(list: seq<Node>, n: Node, keep: set<Node>)
    requires n in list && n !in keep && Distinct(list)
    ensures Only(Without(list, n), keep) == Only(list, keep)
  {
    if list[0] != n {
      assert Distinct(list[1..]);
      OnlyWithout(list[1..], n, keep);
      assert ([list[0]] + Without(list[1..], n))[1..] == Without(list[1..], n);
    }
  }

  lemma WithoutSplit(list: seq<Node>, n: Node)
    requires n in list && list[0] != n
    ensures n in list[1..] && Without(list, n) == [list[0]] + Without(list[1..], n) && list == [list[0]] + list[1..]
  {
  }

  /** And of a tail of the list, from x on. */
  lemma {:induction false} TailWithout(list: seq<Node>, n: Node, x: Node, keep: set<Node>)
    requires n in list && n !in keep && Distinct(list) && x in list && x != n
    ensures x in Without(list, n) && Only(From(Without(list, n), x), keep) == Only(From(list, x), keep)
  {
    var tail := list[1..];
    if list[0] == n {
      assert list == [n] + tail;
      IndexPushed(n, tail, x);
    } else if list[0] == x {
      WithoutSplit(list, n);
      OnlyWithout(list, n, keep);
      assert From(list, x) == list && From(Without(list, n), x) == Without(list, n);
    } else {
      WithoutSplit(list, n);
      assert Distinct(tail);
      TailWithout(tail, n, x, keep);
      IndexPushed(list[0], Without(tail, n), x);
      IndexPushed(list[0], tail, x);
    }
  }

  lemma IndexPushed(n: Node, list: seq<Node>, x: Node)
    requires x in list && n != x
    ensures x in [n] + list && From([n] + list, x) == From(list, x)
  {
    var longer := [n] + list;
    assert longer[1..] == list;
    assert longer[1 + Index(list, x)..] == list[Index(list, x)..];
  }

  /** What lies ahead of a walker, of the registrations that stay linked, survives a writer's step. */
  lemma AheadKept(st: State, a: Action, st': State, t: Section, x: Node, keep: set<Node>)
    requires Inv(st) && !IsWalkStep(a) && WriterEnabled(st, a) && st' == WriterApply(st, a) && Inv(st')
    requires MayStand(st, t, x) && AllIn(keep, st.list) && AllIn(keep, st'.list)
    ensures Only(Ahead(st'.list, st'.next, x), keep) == Only(Ahead(st.list, st.next, x), keep)
    ensures Only(st'.list, keep) == Only(st.list, keep)
  {
    if a.Write? && st.writer.Publish? {
      assert Held(st, st.writer.n);
      PublishKeeps(st.list, st.next, st'.next, st.writer.n, x, keep);
    } else if a.Write? && st.writer.Bypass? {
      BypassKeeps(st, st', x, keep);
    } else {
      OtherStepsKeep(st, a, st');
    }
  }

  /** Every other step leaves the list alone, and the links while a registration is being taken out. */
  lemma OtherStepsKeep(st: State, a: Action, st': State)
    requires !IsWalkStep(a) && WriterEnabled(st, a) && st' == WriterApply(st, a)
    requires !(a.Write? && (st.writer.Publish? || st.writer.Bypass?))
    ensures st'.list == st.list
    ensures st.writer.Rejoin? || st.writer.Unlinked? || st.writer.DrainingNode? ==> st'.next == st.next
  {
    if a.Write? {
      OtherWritesKeep(st);
    }
  }

  lemma OtherWritesKeep(st: State)
    requires WriterEnabled(st, Write) && !st.writer.Publish? && !st.writer.Bypass?
    ensures WriteApply(st).list == st.list
    ensures st.writer.Rejoin? || st.writer.Unlinked? || st.writer.DrainingNode? ==> WriteApply(st).next == st.next
  {
    var st' := WriteApply(st);
    match st.writer
    case SetNext(n) => assert st' == st.(next := st.next[n := st.next[SENTINEL]], writer := SetPrev(n));
    case SetPrev(n) => assert st' == st.(prev := st.prev[n := SENTINEL], writer := SetBack(n));
    case SetBack(n) => assert st' == st.(prev := st'.prev, writer := Publish(n));
    case Rejoin(n) => assert st' == st.(prev := st'.prev, writer := Unlinked(n));
    case Filling(_, _, _) => assert st' == st.(mem := st'.mem, writer := st'.writer);
    case Swapping(_, _) => assert st' == st.(front := st'.front, writer := st'.writer, installs := st'.installs);
  }

  lemma PublishKeeps(list: seq<Node>, next: map<Node, Node>, next': map<Node, Node>, n: Node, x: Node, keep: set<Node>)
    requires n !in list && (x == SENTINEL || x in list) && AllIn(keep, list)
    ensures Only(Ahead([n] + list, next', x), keep) == Only(Ahead(list, next, x), keep)
    ensures Only([n] + list, keep) == Only(list, keep)
  {
    OnlyConcat([n], list, keep);
    assert Only([n], keep) == [] by { assert [n][1..] == []; }
    if x != SENTINEL {
      IndexPushed(n, list, x);
    }
  }

  lemma BypassKeeps(st: State, st': State, x: Node, keep: set<Node>)
    requires Inv(st) && st.writer.Bypass? && WriterEnabled(st, Write) && st' == WriteApply(st) && OnRing(st, x)
    requires Inv(st') && AllIn(keep, st.list) && AllIn(keep, st'.list)
    ensures Only(Ahead(st'.list, st'.next, x), keep) == Only(Ahead(st.list, st.next, x), keep)
    ensures Only(st'.list, keep) == Only(st.list, keep)
  {
    var n := st.writer.n;
    assert Held(st', n);
    OnlyWithout(st.list, n, keep);
    if x == n {
      var p := Index(st.list, n);
      assert LinkNext(st.list, st.next, p + 1) && LinkPrev(st.list, st.prev, Nowhere, p + 1);
      assert st.prev[n] == Ring(st.list, p) && st.prev[n] != n;
      BypassedKeeps(st.list, st.next, st'.next, n, keep);
    } else if x != SENTINEL {
      TailWithout(st.list, n, x, keep);
    }
  }

  /** A walker on the registration that is taken out. */
  lemma BypassedKeeps(list: seq<Node>, next: map<Node, Node>, next': map<Node, Node>, n: Node, keep: set<Node>)
    requires Distinct(list) && SENTINEL !in list && Forward(list, next) && n in list && n !in keep
    requires n in next && n in next' && next'[n] == next[n] && n !in Without(list, n)
    ensures Only(Ahead(Without(list, n), next', n), keep) == Only(Ahead(list, next, n), keep)
  {
    var shorter, y := Without(list, n), next[n];
    AheadOnList(list, next, n);
    OnlyConcat([n], Ahead(list, next, y), keep);
    var rest := if y in shorter then From(shorter, y) else [];
    OnlyConcat([n], rest, keep);
    assert Only([n], keep) == [] by { assert [n][1..] == []; }
    var p := Index(list, n);
    assert LinkNext(list, next, p + 1);
    if p + 1 < |list| {
      TailWithout(list, n, y, keep);
    } else {
      NotInShorter(list, n);
    }
  }

  lemma {:induction false} NotInShorter(list: seq<Node>, n: Node)
    requires n in list && SENTINEL !in list
    ensures SENTINEL !in Without(list, n)
  {
    if list[0] != n {
      NotInShorter(list[1..], n);
    }
  }

  // ---------------------------------------------------------------- a whole dispatch

  predicate OnList(pc: WalkPc) {
    pc.Standing? || pc.Handling?
  }

  /** Of the registrations in `keep`, the walker has seen those that are not ahead of it, in list
      order; and from its saved list head all of them are ahead, for the second pass. */
  ghost predicate Covered(list: seq<Node>, next: map<Node, Node>, head: Node, it: Node, seen: seq<Node>,
                          keep: set<Node>) {
    && Only(seen, keep) + Only(Ahead(list, next, it), keep) == Only(list, keep)
    && Only(Ahead(list, next, head), keep) == Only(list, keep)
  }

  ghost predicate Covers(st: State, t: Section, seen: seq<Node>, keep: set<Node>) {
    && t in st.walks && OnList(st.walks[t])
    && Covered(st.list, st.next, st.walks[t].head, st.walks[t].it, seen, keep)
  }

  /** What the pass has seen after walker t's step: a pass starts with nothing. */
  function SeenAfter(pc: WalkPc, a: Action, t: Section, seen: seq<Node>): seq<Node>
    requires OnList(pc)
  {
    if a == NextPass(t) then []
    else if a == Skip(t) || a == Return(t, true) then seen + [pc.it]
    else seen
  }

  /** A walker's step, as far as the list is concerned. */
  lemma WalkMoves(st: State, a: Action, st': State, t: Section)
    requires IsWalkStep(a) && WalkEnabled(st, a) && st' == WalkApply(st, a)
    requires t in st.walks && OnList(st.walks[t]) && t in st'.walks && OnList(st'.walks[t])
    ensures st'.list == st.list && st'.next == st.next && st'.walks[t].head == st.walks[t].head
    ensures var it, it' := st.walks[t].it, st'.walks[t].it;
            if a == Skip(t) || a == Return(t, true) then it in st.next && it' == st.next[it]
            else it' == if a == NextPass(t) then st.walks[t].head else it
    ensures a == Skip(t) ==> st.walks[t].it != SENTINEL
    ensures a == Return(t, true) ==> st.walks[t].Handling?
  {
  }

  lemma CoveredNext(list: seq<Node>, next: map<Node, Node>, head: Node, it: Node, seen: seq<Node>, keep: set<Node>)
    requires Covered(list, next, head, it, seen, keep)
    requires it in next && Ahead(list, next, it) == [it] + Ahead(list, next, next[it])
    ensures Covered(list, next, head, next[it], seen + [it], keep)
  {
    var rest := Ahead(list, next, next[it]);
    OnlyConcat([it], rest, keep);
    OnlyConcat(seen, [it], keep);
    Associates(Only(seen, keep), Only([it], keep), Only(rest, keep));
  }

  lemma CoversWalk(st: State, a: Action, st': State, t: Section, seen: seq<Node>, keep: set<Node>)
    requires Inv(st) && IsWalkStep(a) && WalkEnabled(st, a) && st' == WalkApply(st, a)
    requires Covers(st, t, seen, keep) && t in st'.walks && OnList(st'.walks[t])
    ensures Covers(st', t, SeenAfter(st.walks[t], a, t, seen), keep)
  {
    var pc := st.walks[t];
    assert Walking(st, t, pc);
    WalkMoves(st, a, st', t);
    if a == Skip(t) || a == Return(t, true) {
      AheadStep(st, t, pc.it);
      CoveredNext(st.list, st.next, pc.head, pc.it, seen, keep);
    } else if a == NextPass(t) {
      assert [] + Only(st.list, keep) == Only(st.list, keep);
    }
  }

  lemma CoversWrite(st: State, a: Action, st': State, t: Section, seen: seq<Node>, keep: set<Node>)
    requires Inv(st) && !IsWalkStep(a) && WriterEnabled(st, a) && st' == WriterApply(st, a) && Inv(st')
    requires Covers(st, t, seen, keep) && AllIn(keep, st.list) && AllIn(keep, st'.list)
    ensures Covers(st', t, seen, keep)
  {
    WritersLeaveWalks(st, a, st');
    var pc := st.walks[t];
    assert Walking(st, t, pc);
    AheadKept(st, a, st', t, pc.it, keep);
    AheadKept(st, a, st', t, pc.head, keep);
  }

  lemma WritersLeaveWalks(st: State, a: Action, st': State)
    requires !IsWalkStep(a) && WriterEnabled(st, a) && st' == WriterApply(st, a)
    ensures st'.walks == st.walks
  {
    match a
    case Write =>
    case _ =>
  }

  lemma CoversAtHead(st: State, t: Section, st': State, keep: set<Node>)
    requires Inv(st) && WalkEnabled(st, LoadHead(t)) && st' == WalkApply(st, LoadHead(t))
    ensures Covers(st', t, [], keep)
  {
    assert LinkNext(st.list, st.next, 0);
    if st.list != [] {
      IndexUnique(st.list, 0);
      assert st.list[0..] == st.list;
    }
    assert [] + Only(st.list, keep) == Only(st.list, keep);
  }

  /** The pass of walker t that is under way at step k, from LoadHead at step i: what it has seen. */
  function Seen(states: seq<State>, actions: seq<Action>, t: Section, i: nat, k: nat): seq<Node>
    requires k <= |actions| < |states|
    decreases k
  {
    if k <= i + 1 || t !in states[k - 1].walks || !OnList(states[k - 1].walks[t]) then []
    else SeenAfter(states[k - 1].walks[t], actions[k - 1], t, Seen(states, actions, t, i, k - 1))
  }

  ghost predicate InDispatch(states: seq<State>, t: Section, i: nat, k: nat)
    requires i < k < |states|
  {
    forall m :: i < m <= k ==> t in states[m].walks && OnList(states[m].walks[t])
  }

  ghost predicate AllIn(keep: set<Node>, list: seq<Node>) {
    forall n :: n in keep ==> n in list
  }

  /** The registrations stay linked from step i to step k. */
  ghost predicate Linked(states: seq<State>, keep: set<Node>, i: nat, k: nat)
    requires k < |states|
    decreases k
  {
    AllIn(keep, states[k].list) && (i < k ==> Linked(states, keep, i, k - 1))
  }

  lemma CoversStep(st: State, a: Action, st': State, t: Section, seen: seq<Node>, keep: set<Node>)
    requires Inv(st) && Enabled(st, a) && st' == Apply(st, a) && Inv(st')
    requires Covers(st, t, seen, keep) && t in st'.walks && OnList(st'.walks[t])
    requires AllIn(keep, st.list) && AllIn(keep, st'.list)
    ensures Covers(st', t, SeenAfter(st.walks[t], a, t, seen), keep)
  {
    if IsWalkStep(a) {
      CoversWalk(st, a, st', t, seen, keep);
    } else {
      CoversWrite(st, a, st', t, seen, keep);
    }
  }

  lemma StartCovers(states: seq<State>, actions: seq<Action>, t: Section, i: nat, keep: set<Node>)
    requires IsRun(states, actions) && i < |actions| && actions[i] == LoadHead(t)
    ensures Covers(states[i + 1], t, Seen(states, actions, t, i, i + 1), keep)
  {
    RunInv(states, actions, i);
    CoversAtHead(states[i], t, states[i + 1], keep);
    assert Seen(states, actions, t, i, i + 1) == [];
  }

  lemma NextCovers(states: seq<State>, actions: seq<Action>, t: Section, i: nat, k: nat, seen: seq<Node>, keep: set<Node>)
    requires IsRun(states, actions) && i < k < |states| - 1 && Covers(states[k], t, seen, keep)
    requires InDispatch(states, t, i, k + 1) && Linked(states, keep, i, k + 1)
    ensures Covers(states[k + 1], t, SeenAfter(states[k].walks[t], actions[k], t, seen), keep)
  {
    var st, st' := states[k], states[k + 1];
    assert Linked(states, keep, i, k);
    RunInv(states, actions, k);
    RunInv(states, actions, k + 1);
    CoversStep(st, actions[k], st', t, seen, keep);
  }

  lemma SeenStep(states: seq<State>, actions: seq<Action>, t: Section, i: nat, j: nat)
    requires i < j < |actions| < |states| && t in states[j].walks && OnList(states[j].walks[t])
    ensures Seen(states, actions, t, i, j + 1) == SeenAfter(states[j].walks[t], actions[j], t, Seen(states, actions, t, i, j))
  {
  }

  lemma SeenCovers(states: seq<State>, actions: seq<Action>, t: Section, i: nat, j: nat, keep: set<Node>)
    requires IsRun(states, actions) && i < j < |states| - 1 && Covers(states[j], t, Seen(states, actions, t, i, j), keep)
    requires InDispatch(states, t, i, j + 1) && Linked(states, keep, i, j + 1)
    ensures Covers(states[j + 1], t, Seen(states, actions, t, i, j + 1), keep)
  {
    SeenStep(states, actions, t, i, j);
    NextCovers(states, actions, t, i, j, Seen(states, actions, t, i, j), keep);
  }

  ghost predicate CoversAt(states: seq<State>, actions: seq<Action>, t: Section, i: nat, j: nat, keep: set<Node>)
    requires j <= |actions| < |states|
  {
    Covers(states[j], t, Seen(states, actions, t, i, j), keep)
  }

  lemma AllAdvance(states: seq<State>, actions: seq<Action>, t: Section, i: nat, k: nat, keep: set<Node>)
    requires IsRun(states, actions) && i < k < |states| && InDispatch(states, t, i, k) && Linked(states, keep, i, k)
    ensures forall j :: i < j < k && CoversAt(states, actions, t, i, j, keep) ==> CoversAt(states, actions, t, i, j + 1, keep)
  {
    forall j | i < j < k && CoversAt(states, actions, t, i, j, keep)
      ensures CoversAt(states, actions, t, i, j + 1, keep)
    {
      LinkedBefore(states, keep, i, k, j + 1);
      SeenCovers(states, actions, t, i, j, keep);
    }
  }

  lemma {:induction false} LinkedBefore(states: seq<State>, keep: set<Node>, i: nat, k: nat, j: nat)
    requires i <= j <= k < |states| && Linked(states, keep, i, k)
    ensures Linked(states, keep, i, j)
    decreases k
  {
    if j < k {
      LinkedBefore(states, keep, i, k - 1, j);
    }
  }

  lemma {:induction false} Climb(states: seq<State>, actions: seq<Action>, t: Section, i: nat, k: nat, keep: set<Node>)
    requires i < k <= |actions| < |states| && CoversAt(states, actions, t, i, i + 1, keep)
    requires forall j :: i < j < k && CoversAt(states, actions, t, i, j, keep) ==> CoversAt(states, actions, t, i, j + 1, keep)
    ensures CoversAt(states, actions, t, i, k, keep)
  {
    if k > i + 1 {
      Climb(states, actions, t, i, k - 1, keep);
    }
  }

  lemma RunCovers(states: seq<State>, actions: seq<Action>, t: Section, i: nat, k: nat, keep: set<Node>)
    requires IsRun(states, actions) && i < k < |states| && actions[i] == LoadHead(t)
    requires InDispatch(states, t, i, k) && Linked(states, keep, i, k)
    ensures CoversAt(states, actions, t, i, k, keep)
  {
    StartCovers(states, actions, t, i, keep);
    AllAdvance(states, actions, t, i, k, keep);
    Climb(states, actions, t, i, k, keep);
  }

  /** A pass that has come to the sentinel has visited every registration that was linked from
      LoadHead on, once each and in list order, whatever was registered or unregistered meanwhile. */
  lemma PassSeesEverything(states: seq<State>, actions: seq<Action>, t: Section, i: nat, k: nat, keep: set<Node>)
    requires IsRun(states, actions) && i < k < |states| && actions[i] == LoadHead(t)
    requires InDispatch(states, t, i, k) && Linked(states, keep, i, k)
    requires states[k].walks[t].it == SENTINEL
    ensures Only(Seen(states, actions, t, i, k), keep) == Only(states[k].list, keep) && Distinct(states[k].list)
    ensures forall n :: n in keep ==> n in Seen(states, actions, t, i, k)
  {
    RunInv(states, actions, k);
    RunCovers(states, actions, t, i, k, keep);
    var seen := Seen(states, actions, t, i, k);
    assert Only(seen, keep) + [] == Only(seen, keep);
    forall n | n in keep
      ensures n in seen
    {
      assert n in states[k].list;
      OnlyMembers(states[k].list, keep, n);
      OnlyMembers(seen, keep, n);
    }
  }
}
