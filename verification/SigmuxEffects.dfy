/** What the calls of deps/sigmux/sigmux.c bring about, read off the actions of a run. */
module SigmuxEffects {
  import opened GracePeriod
  import opened Sigmux
  import opened SigmuxVisits

  // ---------------------------------------------------------------- sigaction

  /** Where a call sigmux_sigaction(g, act) has got to: filling the spare buffer, about to exchange
      the two, or done, with `act` in the buffer that dispatches copy from. */
  ghost predicate Installing(st: State, g: Signum, act: seq<Word>) {
    g in st.front &&
    if st.writer.Filling? && st.writer.signum == g then st.writer.act == act
    else if st.writer.Swapping? && st.writer.signum == g then st.writer.act == act
    else Buffer(g, st.front[g]) in st.mem && st.mem[Buffer(g, st.front[g])] == act
  }

  lemma InstallingStep(st: State, a: Action, st': State, g: Signum, act: seq<Word>)
    requires Inv(st) && !IsWalkStep(a) && WriterEnabled(st, a) && st' == WriterApply(st, a)
    requires Installing(st, g, act) && !(a.Sigaction? && a.signum == g)
    ensures Installing(st', g, act)
  {
    match a
    case Write => InstallingWrite(st, st', g, act);
    case _ =>
  }

  lemma InstallingWrite(st: State, st': State, g: Signum, act: seq<Word>)
    requires Inv(st) && WriterEnabled(st, Write) && st' == WriteApply(st) && Installing(st, g, act)
    ensures Installing(st', g, act)
  {
    if st.writer.Filling? {
      assert Spare(st, st.writer.signum) != Buffer(g, st.front[g]);
    }
  }

  lemma WalksLeaveBuffers(st: State, a: Action, st': State)
    requires IsWalkStep(a) && WalkEnabled(st, a) && st' == WalkApply(st, a)
    ensures st'.front == st.front && st'.mem == st.mem && st'.writer == st.writer
    ensures st'.list == st.list && st'.fresh_ == st.fresh_ && st'.condemned == st.condemned && st'.freed == st.freed
  {
  }

  /** No call sigmux_sigaction(g, ...) begins after step i and before step k. */
  ghost predicate NoSigaction(actions: seq<Action>, g: Signum, i: nat, k: nat)
    requires k <= |actions|
  {
    forall m :: i < m < k ==> !(actions[m].Sigaction? && actions[m].signum == g)
  }

  lemma {:induction false} RunInstalling(states: seq<State>, actions: seq<Action>, g: Signum, act: seq<Word>,
                                         i: nat, k: nat)
    requires IsRun(states, actions) && i < k < |states|
    requires actions[i] == Sigaction(g, act) && NoSigaction(actions, g, i, k)
    ensures Installing(states[k], g, act)
  {
    var st, a, st' := states[k - 1], actions[k - 1], states[k];
    assert Enabled(st, a) && st' == Apply(st, a);
    if k > i + 1 {
      RunInstalling(states, actions, g, act, i, k - 1);
      if IsWalkStep(a) {
        WalksLeaveBuffers(st, a, st');
      } else {
        RunInv(states, actions, k - 1);
        InstallingStep(st, a, st', g, act);
      }
    }
  }

  /** Once the call has returned, and until another one on g begins, dispatches find `act`. */
  lemma {:induction false} Installed(states: seq<State>, actions: seq<Action>, g: Signum, act: seq<Word>,
                                     i: nat, j: nat, k: nat)
    requires IsRun(states, actions) && i < j < k < |states|
    requires actions[i] == Sigaction(g, act) && NoSigaction(actions, g, i, k) && actions[j] == FinishDrain
    ensures g in states[k].front && Buffer(g, states[k].front[g]) in states[k].mem
    ensures states[k].mem[Buffer(g, states[k].front[g])] == act && !Replacing(states[k], g)
  {
    var st, a, st' := states[k - 1], actions[k - 1], states[k];
    assert Enabled(st, a) && st' == Apply(st, a);
    RunInstalling(states, actions, g, act, i, k);
    if k > j + 1 {
      Installed(states, actions, g, act, i, j, k - 1);
      NotReplacing(st, a, st', g);
    }
  }

  predicate Replacing(st: State, g: Signum) {
    (st.writer.Filling? || st.writer.Swapping?) && st.writer.signum == g
  }

  lemma NotReplacing(st: State, a: Action, st': State, g: Signum)
    requires Enabled(st, a) && st' == Apply(st, a) && !Replacing(st, g) && !(a.Sigaction? && a.signum == g)
    ensures !Replacing(st', g)
  {
    if IsWalkStep(a) {
      WalksLeaveBuffers(st, a, st');
    } else if a.Write? {
      WriteNotReplacing(st, g);
    }
  }

  lemma WriteNotReplacing(st: State, g: Signum)
    requires WriterEnabled(st, Write) && !Replacing(st, g)
    ensures !Replacing(WriteApply(st), g)
  {
  }

  // ---------------------------------------------------------------- the dispatch that copies it

  /** Walker t copies from a buffer that holds `act`, or has left with it. */
  ghost predicate CopyingFrom(st: State, t: Section, g: Signum, act: seq<Word>) {
    t in st.walks &&
    match st.walks[t]
    case Copying(h, side, copied) =>
      h == g && Buffer(g, side) in st.mem && st.mem[Buffer(g, side)] == act
    case Gone(_, copied) => copied == act
    case _ => false
  }

  lemma CopyingStep(st: State, a: Action, st': State, t: Section, g: Signum, act: seq<Word>)
    requires Inv(st) && Enabled(st, a) && st' == Apply(st, a) && CopyingFrom(st, t, g, act)
    ensures CopyingFrom(st', t, g, act)
  {
    assert Walking(st, t, st.walks[t]);
    if IsWalkStep(a) {
      WalksLeaveBuffers(st, a, st');
      CopyingWalk(st, a, st', t, g, act);
    } else {
      WritersLeaveWalks(st, a, st');
      if st.walks[t].Copying? {
        ReadBufferKept(st, a, st', t, g, st.walks[t].side);
      }
    }
  }

  /** While a walker copies, at most the whole action has been copied, word for word. */
  lemma CopyingWalk(st: State, a: Action, st': State, t: Section, g: Signum, act: seq<Word>)
    requires IsWalkStep(a) && WalkEnabled(st, a) && st' == WalkApply(st, a) && CopyingFrom(st, t, g, act)
    requires st'.mem == st.mem
    requires st.walks[t].Copying? ==>
               |st.walks[t].copied| <= |act| == WORDS && st.walks[t].copied == act[..|st.walks[t].copied|]
    ensures CopyingFrom(st', t, g, act)
  {
    assert st.walks[t].Copying? ==> act[..WORDS] == act;
  }

  lemma ReadBufferKept(st: State, a: Action, st': State, t: Section, g: Signum, side: bool)
    requires Buffers(st) && Writing(st) && MayRead(st, t, g, side)
    requires !IsWalkStep(a) && WriterEnabled(st, a) && st' == WriterApply(st, a)
    ensures Buffer(g, side) in st'.mem && st'.mem[Buffer(g, side)] == st.mem[Buffer(g, side)]
  {
    if a.Write? {
      WriteKeepsBuffer(st, t, g, side);
    }
  }

  lemma WriteKeepsBuffer(st: State, t: Section, g: Signum, side: bool)
    requires Buffers(st) && WriterEnabled(st, Write) && MayRead(st, t, g, side)
    ensures Buffer(g, side) in WriteApply(st).mem && WriteApply(st).mem[Buffer(g, side)] == st.mem[Buffer(g, side)]
  {
    WriteFrame(st);
    if st.writer.Filling? {
      assert side == st.front[g] && Buffer(g, side) != Spare(st, st.writer.signum);
    }
  }

  lemma {:induction false} RunCopying(states: seq<State>, actions: seq<Action>, t: Section, g: Signum, act: seq<Word>,
                                      m: nat, k: nat)
    requires IsRun(states, actions) && m <= k < |states| && CopyingFrom(states[m], t, g, act)
    ensures CopyingFrom(states[k], t, g, act)
  {
    if m < k {
      RunCopying(states, actions, t, g, act, m, k - 1);
      RunInv(states, actions, k - 1);
      CopyingStep(states[k - 1], actions[k - 1], states[k], t, g, act);
    }
  }

  lemma SnapshotTakesFront(st: State, t: Section, st': State, g: Signum, act: seq<Word>)
    requires WalkEnabled(st, Snapshot(t)) && st' == WalkApply(st, Snapshot(t)) && st.walks[t].signum == g
    requires g in st.front && Buffer(g, st.front[g]) in st.mem && st.mem[Buffer(g, st.front[g])] == act
    ensures CopyingFrom(st', t, g, act)
  {
  }

  /** A sigaction takes effect: if Sigaction(g, act) is the last one on g to begin before a dispatch
      of g takes its snapshot, and has returned by then, the dispatch leaves with exactly `act`. */
  lemma SigactionTakesEffect(states: seq<State>, actions: seq<Action>, g: Signum, act: seq<Word>, i: nat, j: nat,
                             t: Section, m: nat, k: nat)
    requires IsRun(states, actions) && i < j < m < k < |states|
    requires actions[i] == Sigaction(g, act) && actions[j] == FinishDrain && NoSigaction(actions, g, i, m)
    requires actions[m] == Snapshot(t) && states[m].walks[t].signum == g
    requires t in states[k].walks && states[k].walks[t].Gone?
    ensures states[k].walks[t].copied == act
  {
    Installed(states, actions, g, act, i, j, m);
    assert Enabled(states[m], actions[m]) && states[m + 1] == Apply(states[m], actions[m]);
    SnapshotTakesFront(states[m], t, states[m + 1], g, act);
    RunCopying(states, actions, t, g, act, m + 1, k);
  }

  // ---------------------------------------------------------------- registering

  /** Registration n is on its way into the list, or linked, and nobody takes it out. */
  ghost predicate Registering(st: State, n: Node) {
    (IsNew(st.writer, n) || n in st.list) && st.writer != Bypass(n)
  }

  lemma {:induction false} OthersStay(list: seq<Node>, n: Node, m: Node)
    requires m in list && n in list && n != m
    ensures n in Without(list, m)
  {
    if list[0] != m && list[0] != n {
      OthersStay(list[1..], n, m);
    }
  }

  lemma RegisteringStep(st: State, a: Action, st': State, n: Node)
    requires Enabled(st, a) && st' == Apply(st, a) && Registering(st, n) && a != Unregister(n)
    ensures Registering(st', n)
  {
    if IsWalkStep(a) {
      WalksLeaveBuffers(st, a, st');
    } else if a.Write? {
      RegisteringWrite(st, n);
    }
  }

  lemma RegisteringWrite(st: State, n: Node)
    requires WriterEnabled(st, Write) && Registering(st, n)
    ensures Registering(WriteApply(st), n)
  {
    if st.writer.Bypass? {
      OthersStay(st.list, n, st.writer.n);
    } else if !st.writer.Publish? {
      OtherWritesKeep(st);
    }
  }

  /** Registration n is not unregistered after step i and before step k. */
  ghost predicate NotUnregistered(actions: seq<Action>, n: Node, i: nat, k: nat)
    requires k <= |actions|
  {
    forall m :: i < m < k ==> actions[m] != Unregister(n)
  }

  lemma {:induction false} RunRegistering(states: seq<State>, actions: seq<Action>, n: Node, i: nat, k: nat)
    requires IsRun(states, actions) && i < k < |states|
    requires actions[i] == Register && n == states[i].fresh_ && NotUnregistered(actions, n, i, k)
    ensures Registering(states[k], n)
  {
    var st, a, st' := states[k - 1], actions[k - 1], states[k];
    assert Enabled(st, a) && st' == Apply(st, a);
    if k > i + 1 {
      RunRegistering(states, actions, n, i, k - 1);
      RegisteringStep(st, a, st', n);
    }
  }

  lemma NotNew(st: State, a: Action, st': State, n: Node)
    requires Enabled(st, a) && st' == Apply(st, a) && n < st.fresh_ && !IsNew(st.writer, n)
    ensures n < st'.fresh_ && !IsNew(st'.writer, n)
  {
    if IsWalkStep(a) {
      WalksLeaveBuffers(st, a, st');
    } else if a.Write? {
      WriteNotNew(st, n);
    }
  }

  lemma WriteNotNew(st: State, n: Node)
    requires WriterEnabled(st, Write) && !IsNew(st.writer, n)
    ensures !IsNew(WriteApply(st).writer, n) && WriteApply(st).fresh_ == st.fresh_
  {
    WriteFrame(st);
  }

  /** A write of the lock holder changes links or buffers and where the lock holder is. */
  lemma WriteFrame(st: State)
    requires WriterEnabled(st, Write)
    ensures var st' := WriteApply(st);
            && st' == st.(next := st'.next, prev := st'.prev, front := st'.front, mem := st'.mem, writer := st'.writer,
                          list := st'.list, installs := st'.installs)
            && (st.writer.SetNext? ==> st'.writer == SetPrev(st.writer.n))
            && (st.writer.SetPrev? ==> st'.writer == SetBack(st.writer.n))
            && (st.writer.SetBack? ==> st'.writer == Publish(st.writer.n))
            && (!st.writer.Filling? ==> st'.mem == st.mem)
            && (forall n :: IsNew(st'.writer, n) ==> IsNew(st.writer, n))
  {
    var st' := WriteApply(st);
    match st.writer
    case SetNext(n) => assert st' == st.(next := st'.next, writer := SetPrev(n));
    case SetPrev(n) => assert st' == st.(prev := st'.prev, writer := SetBack(n));
    case SetBack(n) => assert st' == st.(prev := st'.prev, writer := Publish(n));
    case Publish(n) => assert st' == st.(next := st'.next, writer := Unlocked, list := st'.list);
    case Bypass(n) => assert st' == st.(next := st'.next, writer := Rejoin(n), list := st'.list);
    case Rejoin(n) => assert st' == st.(prev := st'.prev, writer := Unlinked(n));
    case Filling(_, _, _) => assert st' == st.(mem := st'.mem, writer := st'.writer);
    case Swapping(_, _) => assert st' == st.(front := st'.front, writer := st'.writer, installs := st'.installs);
  }

  lemma RegisteringKnown(st: State, n: Node)
    requires Inv(st) && Registering(st, n)
    ensures n < st.fresh_
  {
  }

  /** Once the lock has been released the registration is linked, and stays so. */
  lemma {:induction false} Registered(states: seq<State>, actions: seq<Action>, n: Node, i: nat, j: nat, k: nat)
    requires IsRun(states, actions) && i < j <= k < |states| && states[j].writer.Unlocked?
    requires actions[i] == Register && n == states[i].fresh_ && NotUnregistered(actions, n, i, k)
    ensures n in states[k].list && n < states[k].fresh_ && !IsNew(states[k].writer, n)
  {
    RunRegistering(states, actions, n, i, k);
    if k == j {
      RunInv(states, actions, k);
      RegisteringKnown(states[k], n);
    } else {
      Registered(states, actions, n, i, j, k - 1);
      var st, a, st' := states[k - 1], actions[k - 1], states[k];
      assert Enabled(st, a) && st' == Apply(st, a);
      NotNew(st, a, st', n);
    }
  }

  lemma {:induction false} RegisteredLinked(states: seq<State>, actions: seq<Action>, n: Node, i: nat, j: nat, m: nat, k: nat)
    requires IsRun(states, actions) && i < j <= m <= k < |states| && states[j].writer.Unlocked?
    requires actions[i] == Register && n == states[i].fresh_ && NotUnregistered(actions, n, i, k)
    ensures Linked(states, {n}, m, k)
    decreases k
  {
    Registered(states, actions, n, i, j, k);
    if m < k {
      RegisteredLinked(states, actions, n, i, j, m, k - 1);
    }
  }

  /** A registration takes effect: once sigmux_register has released the lock, every pass that
      starts and comes to its end before somebody unregisters it visits it. */
  lemma RegisterTakesEffect(states: seq<State>, actions: seq<Action>, n: Node, i: nat, j: nat, t: Section, m: nat, k: nat)
    requires IsRun(states, actions) && i < j <= m < k < |states| && states[j].writer.Unlocked?
    requires actions[i] == Register && n == states[i].fresh_ && NotUnregistered(actions, n, i, k)
    requires actions[m] == LoadHead(t) && InDispatch(states, t, m, k) && states[k].walks[t].it == SENTINEL
    ensures n in Seen(states, actions, t, m, k)
  {
    RegisteredLinked(states, actions, n, i, j, m, k);
    PassSeesEverything(states, actions, t, m, k, {n});
  }

  /** The list runs from the latest registration to the earliest. */
  ghost predicate NewestFirst(st: State) {
    Descends(st.list) && forall n: Node :: IsNew(st.writer, n) ==> n + 1 == st.fresh_
  }

  ghost predicate Descends(list: seq<Node>) {
    forall i, j :: 0 <= i < j < |list| ==> list[i] > list[j]
  }

  lemma DescendsWithout(list: seq<Node>, n: Node)
    requires Descends(list) && n in list
    ensures Descends(Without(list, n))
  {
    var i :| 0 <= i < |list| && list[i] == n;
    WithoutAt(list, i);
  }

  lemma DescendsPushed(list: seq<Node>, n: Node)
    requires Descends(list) && forall m :: m in list ==> m < n
    ensures Descends([n] + list)
  {
    assert forall i :: 0 <= i < |list| ==> list[i] in list;
  }

  lemma NewestStep(st: State, a: Action, st': State)
    requires Inv(st) && Enabled(st, a) && st' == Apply(st, a) && NewestFirst(st)
    ensures NewestFirst(st')
  {
    if IsWalkStep(a) {
      WalksLeaveBuffers(st, a, st');
    } else if a.Write? {
      NewestWrite(st);
    }
  }

  lemma NewestWrite(st: State)
    requires Nodes(st) && Buffers(st) && Writing(st) && WriterEnabled(st, Write) && NewestFirst(st)
    ensures NewestFirst(WriteApply(st))
  {
    WriteFrame(st);
    if st.writer.Bypass? {
      DescendsWithout(st.list, st.writer.n);
    } else if st.writer.Publish? {
      var n := st.writer.n;
      assert Held(st, n) && IsNew(st.writer, n);
      DescendsPushed(st.list, n);
    } else {
      OtherWritesKeep(st);
    }
  }

  /** Registrations are visited newest first: list order, in which passes go, is from the latest
      registration to the earliest. */
  lemma {:induction false} RunNewestFirst(states: seq<State>, actions: seq<Action>, k: nat)
    requires IsRun(states, actions) && k < |states|
    ensures NewestFirst(states[k])
  {
    if k > 0 {
      RunNewestFirst(states, actions, k - 1);
      RunInv(states, actions, k - 1);
      NewestStep(states[k - 1], actions[k - 1], states[k]);
    }
  }

  // ---------------------------------------------------------------- unregistering

  /** Registration n is being taken out, or out for good. */
  ghost predicate Unregistering(st: State, n: Node) {
    Removed(st, n) || st.writer == Bypass(n) || IsVictim(st.writer, n)
  }

  ghost predicate Removed(st: State, n: Node) {
    n in st.condemned || n in st.freed
  }

  lemma UnregisteringStep(st: State, a: Action, st': State, n: Node)
    requires Enabled(st, a) && st' == Apply(st, a) && Unregistering(st, n)
    ensures Unregistering(st', n)
    ensures Removed(st, n) || a == FinishDrain ==> Removed(st', n)
  {
    if IsWalkStep(a) {
      WalksLeaveBuffers(st, a, st');
    } else if a.Write? {
      UnregisteringWrite(st, n);
    }
  }

  lemma UnregisteringWrite(st: State, n: Node)
    requires WriterEnabled(st, Write) && Unregistering(st, n)
    ensures Unregistering(WriteApply(st), n)
    ensures WriteApply(st).condemned == st.condemned && WriteApply(st).freed == st.freed
  {
  }

  lemma {:induction false} RunUnregistering(states: seq<State>, actions: seq<Action>, n: Node, i: nat, k: nat)
    requires IsRun(states, actions) && i < k < |states| && actions[i] == Unregister(n)
    ensures Unregistering(states[k], n)
    ensures (exists j :: i < j < k && actions[j] == FinishDrain) ==> Removed(states[k], n)
  {
    var st, a, st' := states[k - 1], actions[k - 1], states[k];
    assert Enabled(st, a) && st' == Apply(st, a);
    if k > i + 1 {
      RunUnregistering(states, actions, n, i, k - 1);
      UnregisteringStep(st, a, st', n);
    }
  }

  lemma RemovedNotOnRing(st: State, t: Section, n: Node, m: Node)
    requires Inv(st) && Removed(st, n) && MayStand(st, t, m)
    ensures m != n
  {
  }

  /** And so does its removal: after the drain of sigmux_unregister no dispatch, old or new, is at
      the registration or will go to it, so it may be freed. */
  lemma UnregisterTakesEffect(states: seq<State>, actions: seq<Action>, n: Node, i: nat, j: nat, k: nat, t: Section)
    requires IsRun(states, actions) && i < j < k < |states| && actions[i] == Unregister(n) && actions[j] == FinishDrain
    requires t in states[k].walks && OnList(states[k].walks[t])
    ensures states[k].walks[t].it != n && states[k].walks[t].head != n
  {
    RunUnregistering(states, actions, n, i, k);
    RunInv(states, actions, k);
    assert Walking(states[k], t, states[k].walks[t]);
    RemovedNotOnRing(states[k], t, n, states[k].walks[t].it);
    RemovedNotOnRing(states[k], t, n, states[k].walks[t].head);
  }

  // ---------------------------------------------------------------- one dispatch

  /** The dispatches inside the phaser are those that have neither left nor jumped out. */
  ghost predicate InsideExactly(st: State) {
    forall t :: t in st.grace.inside <==> t in st.walks && !st.walks[t].Gone?
  }

  lemma InsideStep(st: State, a: Action, st': State)
    requires Enabled(st, a) && st' == Apply(st, a) && InsideExactly(st)
    ensures InsideExactly(st')
  {
    if !IsWalkStep(a) {
      WritersLeaveWalks(st, a, st');
      WritersLeaveInside(st, a, st');
    }
  }

  lemma WritersLeaveInside(st: State, a: Action, st': State)
    requires !IsWalkStep(a) && WriterEnabled(st, a) && st' == WriterApply(st, a)
    ensures st'.grace.inside == st.grace.inside
  {
    if a.Write? {
      WriteFrame(st);
    }
  }

  lemma {:induction false} RunInside(states: seq<State>, actions: seq<Action>, k: nat)
    requires IsRun(states, actions) && k < |states|
    ensures InsideExactly(states[k])
  {
    if k > 0 {
      RunInside(states, actions, k - 1);
      InsideStep(states[k - 1], actions[k - 1], states[k]);
    }
  }

  /** How far a dispatch is decided once a handler has stopped it, or both passes are over and the
      default was not asked for. */
  ghost predicate Stopped(st: State, t: Section) {
    t in st.walks && (st.walks[t].Leaving? || st.walks[t].Gone?) && st.walks[t].copied == []
  }

  /** Second passes are not followed by a third. */
  ghost predicate InLastPass(st: State, t: Section) {
    t in st.walks && !st.walks[t].Entered? && (OnList(st.walks[t]) ==> st.walks[t].low)
  }

  lemma DispatchStep(st: State, a: Action, st': State, t: Section)
    requires Enabled(st, a) && st' == Apply(st, a)
    ensures Stopped(st, t) ==> Stopped(st', t)
    ensures InLastPass(st, t) ==> InLastPass(st', t) && a != NextPass(t)
  {
    if !IsWalkStep(a) {
      WritersLeaveWalks(st, a, st');
    }
  }

  /** A handler that returns false ends the dispatch: no further registration is called and no
      original action is taken. */
  lemma {:induction false} StopTakesEffect(states: seq<State>, actions: seq<Action>, t: Section, i: nat, k: nat)
    requires IsRun(states, actions) && i < k < |states| && (actions[i] == Return(t, false) || actions[i] == Finish(t))
    ensures Stopped(states[k], t)
  {
    var st, a, st' := states[k - 1], actions[k - 1], states[k];
    assert Enabled(st, a) && st' == Apply(st, a);
    if k > i + 1 {
      StopTakesEffect(states, actions, t, i, k - 1);
      DispatchStep(st, a, st', t);
    }
  }

  lemma {:induction false} LastPass(states: seq<State>, actions: seq<Action>, t: Section, i: nat, k: nat)
    requires IsRun(states, actions) && i < k < |states| && actions[i] == NextPass(t)
    ensures InLastPass(states[k], t)
  {
    var st, a, st' := states[k - 1], actions[k - 1], states[k];
    assert Enabled(st, a) && st' == Apply(st, a);
    if k > i + 1 {
      LastPass(states, actions, t, i, k - 1);
      DispatchStep(st, a, st', t);
    }
  }

  /** Each dispatch makes at most two passes. */
  lemma AtMostTwoPasses(states: seq<State>, actions: seq<Action>, t: Section, i: nat, k: nat)
    requires IsRun(states, actions) && i < k < |actions| && actions[i] == NextPass(t)
    ensures actions[k] != NextPass(t)
  {
    LastPass(states, actions, t, i, k);
    assert Enabled(states[k], actions[k]);
    DispatchStep(states[k], actions[k], states[k + 1], t);
  }
}
