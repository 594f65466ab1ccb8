/**
 deps/sigmux/sigmux.c as interleaved steps: any number of signal dispatches walk the handler
 list and copy the fallback sigaction inside phaser sections, while one thread at a time, under
 the lock, registers, unregisters or installs a new sigaction, one memory write per step.
 The phaser is the grace-period specification that `Phaser` refines.
 */
module Sigmux {
  import opened GracePeriod

  /** Registrations are identified by allocation; SENTINEL is sigmux_global.handlers. */
  type Node = nat
  const SENTINEL: Node := 0

  type Signum = nat
  type Word = int

  /** A struct sigaction is copied word by word. */
  const WORDS: nat := 4

  /** Each signal owns two sigaction buffers; `front` says which one orig_sigact points to, the
      other one is alt_sigact. */
  datatype Buffer = Buffer(signum: Signum, side: bool)

  /** One call of sigmux_handle_signal. `head` is the saved `reglist`, `it` the loop variable,
      `low` tells the second, low-priority pass from the first. `copied` is `next_handler`. */
  datatype WalkPc =
    | Entered(signum: Signum)
    | Standing(signum: Signum, head: Node, it: Node, low: bool)
    | Handling(signum: Signum, head: Node, it: Node, low: bool)
    | Fallback(signum: Signum)
    | Copying(signum: Signum, side: bool, copied: seq<Word>)
    | Leaving(signum: Signum, copied: seq<Word>)
    | Gone(signum: Signum, copied: seq<Word>)

  /** The thread holding the lock, before the named write. */
  datatype WriterPc =
    | Unlocked
    | SetNext(n: Node)        // register: reg->next = handlers.next
    | SetPrev(n: Node)        // register: reg->prev = &handlers
    | SetBack(n: Node)        // register: reg->next->prev = reg
    | Publish(n: Node)        // register: handlers.next = reg
    | Bypass(n: Node)         // unregister: reg->prev->next = reg->next
    | Rejoin(n: Node)         // unregister: reg->next->prev = reg->prev
    | Unlinked(n: Node)       // unregister: before phaser_drain
    | DrainingNode(n: Node)
    | Filling(signum: Signum, act: seq<Word>, k: nat)  // sigaction: *alt = *act, from word k on
    | Swapping(signum: Signum, act: seq<Word>)         // sigaction: exchange orig and alt
    | Swapped(signum: Signum)                          // sigaction: before phaser_drain
    | DrainingBuffer(signum: Signum)

  /** `condemned` are registrations whose unregister has drained and unlocked but not yet freed.
      `list` and `installs` only record history: the linked registrations in list order and the
      values ever installed per signal. */
  datatype State = State(
    next: map<Node, Node>,
    prev: map<Node, Node>,
    fresh_: Node,
    condemned: set<Node>,
    freed: set<Node>,
    front: map<Signum, bool>,
    mem: map<Buffer, seq<Word>>,
    grace: Grace,
    walks: map<Section, WalkPc>,
    writer: WriterPc,
    list: seq<Node>,
    installs: map<Signum, set<seq<Word>>>)

  datatype Action =
    | Signal(t: Section, signum: Signum)
    | LoadHead(t: Section)
    | CallHandler(t: Section)
    | Skip(t: Section)                  // the registration does not match; advance
    | Return(t: Section, go: bool)      // the handler returns; advance, then go on with the search or not
    | Jump(t: Section)                  // the handler calls sigmux_longjmp
    | NextPass(t: Section)
    | TakeDefault(t: Section)           // both passes done or left out: fall back to the original action
    | Finish(t: Section)                // likewise, default not requested
    | Snapshot(t: Section)              // load orig_sigact
    | CopyWord(t: Section)
    | Exit(t: Section)                  // phaser_exit
    | Register
    | Unregister(n: Node)
    | Sigaction(signum: Signum, act: seq<Word>)
    | Write                             // the lock holder's next write
    | BeginDrain
    | FinishDrain                       // the drain returns; unlock
    | Release(n: Node)                  // free(reg), after the unlock

  predicate IsWalkStep(a: Action) {
    a.Signal? || a.LoadHead? || a.CallHandler? || a.Skip? || a.Return? || a.Jump? || a.NextPass? ||
    a.TakeDefault? || a.Finish? || a.Snapshot? || a.CopyWord? || a.Exit?
  }

  // ---------------------------------------------------------------- dispatch

  /** The flags may leave out either pass, or both: a pass left out is one still at the list head. */
  predicate WalkEnabled(st: State, a: Action)
    requires IsWalkStep(a)
  {
    if a.Signal? then a.t !in st.walks && a.signum in st.front else
    a.t in st.walks &&
    var pc := st.walks[a.t];
    match a
    case LoadHead(_) => pc.Entered? && SENTINEL in st.next
    case CallHandler(_) => pc.Standing? && pc.it != SENTINEL
    case Skip(_) => pc.Standing? && pc.it != SENTINEL && pc.it in st.next
    case Return(_, _) => pc.Handling? && pc.it in st.next
    case Jump(_) => pc.Handling?
    case NextPass(_) => pc.Standing? && !pc.low && (pc.it == SENTINEL || pc.it == pc.head)
    case TakeDefault(_) => pc.Standing? && (pc.it == SENTINEL || pc.it == pc.head)
    case Finish(_) => pc.Standing? && (pc.it == SENTINEL || pc.it == pc.head)
    case Snapshot(_) => pc.Fallback? && pc.signum in st.front
    case CopyWord(_) =>
      && pc.Copying? && Buffer(pc.signum, pc.side) in st.mem
      && |pc.copied| < |st.mem[Buffer(pc.signum, pc.side)]| && |pc.copied| < WORDS
    case Exit(_) => pc.Leaving? || (pc.Copying? && |pc.copied| == WORDS)
  }

  function WalkApply(st: State, a: Action): State
    requires IsWalkStep(a) && WalkEnabled(st, a)
  {
    if a.Signal? then
      st.(grace := st.grace.Enter(a.t), walks := st.walks[a.t := Entered(a.signum)])
    else
      var t := a.t;
      var pc := st.walks[t];
      match a
      case LoadHead(_) =>
        var head := st.next[SENTINEL];
        st.(walks := st.walks[t := Standing(pc.signum, head, head, false)])
      case CallHandler(_) => st.(walks := st.walks[t := Handling(pc.signum, pc.head, pc.it, pc.low)])
      case Skip(_) => st.(walks := st.walks[t := Standing(pc.signum, pc.head, st.next[pc.it], pc.low)])
      case Return(_, go) =>
        st.(walks := st.walks[t := if go then Standing(pc.signum, pc.head, st.next[pc.it], pc.low)
                                   else Leaving(pc.signum, [])])
      case Jump(_) => st.(grace := st.grace.Exit(t), walks := st.walks[t := Gone(pc.signum, [])])
      case NextPass(_) => st.(walks := st.walks[t := Standing(pc.signum, pc.head, pc.head, true)])
      case TakeDefault(_) => st.(walks := st.walks[t := Fallback(pc.signum)])
      case Finish(_) => st.(walks := st.walks[t := Leaving(pc.signum, [])])
      case Snapshot(_) => st.(walks := st.walks[t := Copying(pc.signum, st.front[pc.signum], [])])
      case CopyWord(_) =>
        var word := st.mem[Buffer(pc.signum, pc.side)][|pc.copied|];
        st.(walks := st.walks[t := Copying(pc.signum, pc.side, pc.copied + [word])])
      case Exit(_) => st.(grace := st.grace.Exit(t), walks := st.walks[t := Gone(pc.signum, pc.copied)])
  }

  // ---------------------------------------------------------------- the lock holder

  /** A registration is unregistered once, by its owner, while it is linked. */
  predicate WriterEnabled(st: State, a: Action)
    requires !IsWalkStep(a)
  {
    match a
    case Register => st.writer.Unlocked?
    case Unregister(n) => st.writer.Unlocked? && n in st.list
    case Sigaction(g, act) => st.writer.Unlocked? && g in st.front && |act| == WORDS
    case Write =>
      (match st.writer
       case SetNext(n) => SENTINEL in st.next
       case SetPrev(n) => true
       case SetBack(n) => n in st.next
       case Publish(n) => true
       case Bypass(n) => n in st.prev && n in st.next && n in st.list
       case Rejoin(n) => n in st.prev && n in st.next
       case Filling(g, act, k) =>
         g in st.front && Spare(st, g) in st.mem && k < |st.mem[Spare(st, g)]| && k < |act| && k < WORDS
       case Swapping(g, act) => g in st.front && g in st.installs
       case _ => false)
    case BeginDrain => (st.writer.Unlinked? || st.writer.Swapped?) && !st.grace.draining
    case FinishDrain =>
      (st.writer.DrainingNode? || st.writer.DrainingBuffer?) && st.grace.draining && st.grace.pending == {}
    case Release(n) => n in st.condemned
  }

  function Spare(st: State, g: Signum): Buffer
    requires g in st.front
  {
    Buffer(g, !st.front[g])
  }

  function WriterApply(st: State, a: Action): State
    requires !IsWalkStep(a) && WriterEnabled(st, a)
  {
    match a
    case Register => st.(fresh_ := st.fresh_ + 1, writer := SetNext(st.fresh_))
    case Unregister(n) => st.(writer := Bypass(n))
    case Sigaction(g, act) => st.(writer := Filling(g, act, 0))
    case Write => WriteApply(st)
    case BeginDrain =>
      st.(grace := st.grace.Begin(),
          writer := if st.writer.Unlinked? then DrainingNode(st.writer.n) else DrainingBuffer(st.writer.signum))
    case FinishDrain =>
      st.(grace := st.grace.Finish(), writer := Unlocked,
          condemned := if st.writer.DrainingNode? then st.condemned + {st.writer.n} else st.condemned)
    case Release(n) => st.(condemned := st.condemned - {n}, freed := st.freed + {n})
  }

  function WriteApply(st: State): State
    requires WriterEnabled(st, Write)
  {
    match st.writer
    case SetNext(n) => st.(next := st.next[n := st.next[SENTINEL]], writer := SetPrev(n))
    case SetPrev(n) => st.(prev := st.prev[n := SENTINEL], writer := SetBack(n))
    case SetBack(n) => st.(prev := st.prev[st.next[n] := n], writer := Publish(n))
    case Publish(n) => st.(next := st.next[SENTINEL := n], writer := Unlocked, list := [n] + st.list)
    case Bypass(n) =>
      st.(next := st.next[st.prev[n] := st.next[n]], writer := Rejoin(n), list := Without(st.list, n))
    case Rejoin(n) => st.(prev := st.prev[st.next[n] := st.prev[n]], writer := Unlinked(n))
    case Filling(g, act, k) =>
      var b := Spare(st, g);
      st.(mem := st.mem[b := st.mem[b][k := act[k]]],
          writer := if k + 1 == WORDS then Swapping(g, act) else Filling(g, act, k + 1))
    case Swapping(g, act) =>
      st.(front := st.front[g := !st.front[g]], writer := Swapped(g),
          installs := st.installs[g := st.installs[g] + {act}])
  }

  function Without(list: seq<Node>, n: Node): (r: seq<Node>)
    requires n in list
    ensures |r| == |list| - 1
  {
    if list[0] == n then list[1..] else [list[0]] + Without(list[1..], n)
  }

  predicate Enabled(st: State, a: Action) {
    if IsWalkStep(a) then WalkEnabled(st, a) else WriterEnabled(st, a)
  }

  function Apply(st: State, a: Action): State
    requires Enabled(st, a)
  {
    if IsWalkStep(a) then WalkApply(st, a) else WriterApply(st, a)
  }

  /** An empty list and, for every signal taken over, one complete original action. */
  ghost predicate Init(st: State) {
    && st.next == map[SENTINEL := SENTINEL] && st.prev == map[SENTINEL := SENTINEL]
    && st.fresh_ == 1 && st.condemned == {} && st.freed == {}
    && st.grace == Quiet && st.walks == map[] && st.writer.Unlocked? && st.list == []
    && st.installs.Keys == st.front.Keys
    && (forall g, side :: g in st.front ==> Buffer(g, side) in st.mem && |st.mem[Buffer(g, side)]| == WORDS)
    && (forall g :: g in st.front ==> st.mem[Buffer(g, st.front[g])] in st.installs[g])
  }

  ghost predicate IsRun(states: seq<State>, actions: seq<Action>) {
    && |states| == |actions| + 1
    && Init(states[0])
    && forall k {:trigger actions[k]} :: 0 <= k < |actions| ==>
         Enabled(states[k], actions[k]) && states[k + 1] == Apply(states[k], actions[k])
  }

  // ---------------------------------------------------------------- invariant

  /** The circle through the sentinel: position 0 and position |list| + 1 are the sentinel. */
  function Ring(list: seq<Node>, k: int): Node {
    if 1 <= k <= |list| then list[k - 1] else SENTINEL
  }

  ghost predicate Distinct(list: seq<Node>) {
    forall i, j :: 0 <= i < j < |list| ==> list[i] != list[j]
  }

  /** The registration being unregistered, once readers can no longer reach it. */
  predicate IsVictim(w: WriterPc, n: Node) {
    (w.Rejoin? || w.Unlinked? || w.DrainingNode?) && w.n == n
  }

  predicate IsNew(w: WriterPc, n: Node) {
    (w.SetNext? || w.SetPrev? || w.SetBack? || w.Publish?) && w.n == n
  }

  ghost predicate Forward(list: seq<Node>, next: map<Node, Node>) {
    forall k :: 0 <= k <= |list| ==> LinkNext(list, next, k)
  }

  ghost predicate LinkNext(list: seq<Node>, next: map<Node, Node>, k: nat) {
    Ring(list, k) in next && next[Ring(list, k)] == Ring(list, k + 1)
  }

  /** Back links, but for the one that `broken` says is about to be repaired. */
  ghost predicate Backward(list: seq<Node>, prev: map<Node, Node>, broken: Broken) {
    forall k :: 1 <= k <= |list| + 1 ==> LinkPrev(list, prev, broken, k)
  }

  ghost predicate LinkPrev(list: seq<Node>, prev: map<Node, Node>, broken: Broken, k: nat) {
    Ring(list, k) in prev &&
    prev[Ring(list, k)] == if broken.At? && Ring(list, k) == broken.at then broken.has else Ring(list, k - 1)
  }

  datatype Broken = Nowhere | At(at: Node, has: Node)

  /** register has set the first node's back link before publishing; unregister has bypassed the
      node before mending its successor's back link. */
  function BrokenLink(st: State): Broken {
    match st.writer
    case Publish(n) => At(Ring(st.list, 1), n)
    case Rejoin(n) => if n in st.next then At(st.next[n], n) else Nowhere
    case _ => Nowhere
  }

  ghost predicate Nodes(st: State) {
    && Distinct(st.list) && st.fresh_ > SENTINEL
    && SENTINEL !in st.list && SENTINEL !in st.condemned && SENTINEL !in st.freed
    && (forall n :: n in st.list || n in st.condemned || n in st.freed ==> n < st.fresh_)
    && (forall n :: n in st.list ==> n !in st.condemned && n !in st.freed)
    && st.condemned !! st.freed
  }

  /** Not linked, not released: in the hands of the lock holder only. */
  ghost predicate Held(st: State, n: Node) {
    SENTINEL < n < st.fresh_ && n !in st.list && n !in st.condemned && n !in st.freed
  }

  ghost predicate Writing(st: State)
    requires Buffers(st)
  {
    match st.writer
    case Unlocked => true
    case SetNext(n) => Held(st, n)
    case SetPrev(n) => Held(st, n) && n in st.next && st.next[n] == Ring(st.list, 1)
    case SetBack(n) => Held(st, n) && n in st.next && st.next[n] == Ring(st.list, 1) && n in st.prev && st.prev[n] == SENTINEL
    case Publish(n) => Held(st, n) && n in st.next && st.next[n] == Ring(st.list, 1) && n in st.prev && st.prev[n] == SENTINEL
    case Bypass(n) => n in st.list
    case Rejoin(n) => Held(st, n) && n in st.next && n in st.prev && Between(st, st.next[n], st.prev[n])
    case Unlinked(n) => Held(st, n) && n in st.next && OnRing(st, st.next[n])
    case DrainingNode(n) => Held(st, n) && n in st.next && OnRing(st, st.next[n]) && st.grace.draining
    case Filling(g, act, k) => g in st.front && |act| == WORDS && k < WORDS && st.mem[Spare(st, g)][..k] == act[..k]
    case Swapping(g, act) => g in st.front && |act| == WORDS && st.mem[Spare(st, g)] == act
    case Swapped(g) => g in st.front
    case DrainingBuffer(g) => g in st.front && st.grace.draining
  }

  ghost predicate OnRing(st: State, n: Node) {
    n == SENTINEL || n in st.list
  }

  /** `after` directly follows `before` on the ring. */
  ghost predicate Between(st: State, after: Node, before: Node) {
    exists k :: 1 <= k <= |st.list| + 1 && Adjacent(st.list, k, after, before)
  }

  ghost predicate Adjacent(list: seq<Node>, k: nat, after: Node, before: Node) {
    after == Ring(list, k) && before == Ring(list, k - 1)
  }

  ghost predicate Buffers(st: State) {
    && st.installs.Keys == st.front.Keys
    && (forall g, side :: g in st.front ==> Buffer(g, side) in st.mem && |st.mem[Buffer(g, side)]| == WORDS)
    && (forall g :: g in st.front ==> st.mem[Buffer(g, st.front[g])] in st.installs[g])
  }

  /** A walker may stand on the sentinel, on a linked node, or on the node being unregistered,
      and in the last case the drain, once begun, is waiting for it. */
  ghost predicate MayStand(st: State, t: Section, n: Node) {
    || OnRing(st, n)
    || (IsVictim(st.writer, n) && (st.writer.DrainingNode? ==> t in st.grace.pending))
  }

  /** A reader may hold the front buffer, or the one just swapped out, and in the last case the
      drain, once begun, is waiting for it. */
  ghost predicate MayRead(st: State, t: Section, g: Signum, side: bool)
    requires Buffers(st)
  {
    && g in st.front && st.mem[Buffer(g, side)] in st.installs[g]
    && (side == st.front[g] || st.writer == Swapped(g) || (st.writer == DrainingBuffer(g) && t in st.grace.pending))
  }

  ghost predicate Walking(st: State, t: Section, pc: WalkPc)
    requires Buffers(st)
  {
    match pc
    case Entered(g) => t in st.grace.inside && g in st.front
    case Standing(g, head, it, _) => t in st.grace.inside && g in st.front && MayStand(st, t, head) && MayStand(st, t, it)
    case Handling(g, head, it, _) =>
      t in st.grace.inside && g in st.front && MayStand(st, t, head) && MayStand(st, t, it) && it != SENTINEL
    case Fallback(g) => t in st.grace.inside && g in st.front
    case Copying(g, side, copied) =>
      && t in st.grace.inside && g in st.front && MayRead(st, t, g, side)
      && |copied| <= WORDS && copied == st.mem[Buffer(g, side)][..|copied|]
    case Leaving(g, copied) => t in st.grace.inside && g in st.front && copied == []
    case Gone(g, copied) => g in st.front && (copied != [] ==> copied in st.installs[g])
  }

  ghost predicate Inv(st: State) {
    && st.grace.Valid() && Nodes(st) && Buffers(st) && Writing(st)
    && Forward(st.list, st.next) && Backward(st.list, st.prev, BrokenLink(st))
    && (forall t :: t in st.walks ==> Walking(st, t, st.walks[t]))
  }

  lemma InitInv(st: State)
    requires Init(st)
    ensures Inv(st)
  {
  }

  // ---------------------------------------------------------------- preservation: walkers

  lemma NextStaysOnRing(st: State, n: Node)
    requires Nodes(st) && Forward(st.list, st.next) && OnRing(st, n)
    ensures n in st.next && OnRing(st, st.next[n])
  {
    if n == SENTINEL {
      assert LinkNext(st.list, st.next, 0);
    } else {
      var i :| 0 <= i < |st.list| && st.list[i] == n;
      assert LinkNext(st.list, st.next, i + 1);
    }
  }

  lemma NextStands(st: State, t: Section, n: Node)
    requires Inv(st) && MayStand(st, t, n)
    ensures n in st.next && MayStand(st, t, st.next[n])
  {
    if OnRing(st, n) {
      NextStaysOnRing(st, n);
    } else if st.writer.Rejoin? {
      assert Between(st, st.next[n], st.prev[n]);
    }
  }

  /** A walk step: only walker t moves, and only t's place in the phaser may change. */
  ghost predicate WalkMove(st: State, st': State, t: Section, pc: WalkPc) {
    && st' == st.(grace := st'.grace, walks := st.walks[t := pc])
    && st'.grace.Valid() && st'.grace.draining == st.grace.draining
    && (forall u :: u != t ==> (u in st.grace.inside <==> u in st'.grace.inside))
    && (forall u :: u != t ==> (u in st.grace.pending <==> u in st'.grace.pending))
  }

  lemma WalkMoveInv(st: State, st': State, t: Section, pc: WalkPc)
    requires Inv(st) && WalkMove(st, st', t, pc)
    requires Walking(st', t, pc)
    ensures Inv(st')
  {
    forall u | u in st'.walks
      ensures Walking(st', u, st'.walks[u])
    {
      if u != t {
        assert Walking(st, u, st.walks[u]);
      }
    }
  }

  lemma ListStepInv(st: State, a: Action, st': State)
    requires Inv(st) && IsWalkStep(a) && WalkEnabled(st, a) && st' == WalkApply(st, a)
    requires a.LoadHead? || a.CallHandler? || a.Skip? || a.Return? || a.NextPass?
    ensures Inv(st')
  {
    var pc := st.walks[a.t];
    assert Walking(st, a.t, pc);
    if a.LoadHead? {
      NextStaysOnRing(st, SENTINEL);
    } else if a.Skip? || a.Return? {
      NextStands(st, a.t, pc.it);
    }
    WalkMoveInv(st, st', a.t, st'.walks[a.t]);
  }

  lemma EnterInv(st: State, a: Action, st': State)
    requires Inv(st) && IsWalkStep(a) && WalkEnabled(st, a) && st' == WalkApply(st, a)
    requires a.Signal?
    ensures Inv(st')
  {
    WalkMoveInv(st, st', a.t, st'.walks[a.t]);
  }

  lemma LeaveInv(st: State, a: Action, st': State)
    requires Inv(st) && IsWalkStep(a) && WalkEnabled(st, a) && st' == WalkApply(st, a)
    requires a.Jump? || a.Exit?
    ensures Inv(st')
  {
    var pc := st.walks[a.t];
    assert Walking(st, a.t, pc);
    if pc.Copying? {
      var whole := st.mem[Buffer(pc.signum, pc.side)];
      assert whole[..WORDS] == whole;
    }
    WalkMoveInv(st, st', a.t, st'.walks[a.t]);
  }

  lemma CopyStepInv(st: State, a: Action, st': State)
    requires Inv(st) && IsWalkStep(a) && WalkEnabled(st, a) && st' == WalkApply(st, a)
    requires a.TakeDefault? || a.Finish? || a.Snapshot? || a.CopyWord?
    ensures Inv(st')
  {
    assert Walking(st, a.t, st.walks[a.t]);
    WalkMoveInv(st, st', a.t, st'.walks[a.t]);
  }

  lemma WalkStepInv(st: State, a: Action, st': State)
    requires Inv(st) && IsWalkStep(a) && WalkEnabled(st, a) && st' == WalkApply(st, a)
    ensures Inv(st')
  {
    if a.Signal? {
      EnterInv(st, a, st');
    } else if a.Jump? || a.Exit? {
      LeaveInv(st, a, st');
    } else if a.TakeDefault? || a.Finish? || a.Snapshot? || a.CopyWord? {
      CopyStepInv(st, a, st');
    } else {
      ListStepInv(st, a, st');
    }
  }

  // ---------------------------------------------------------------- preservation: the lock holder

  /** Whatever a walker may stand on or read, it still may after this step. */
  ghost predicate StillMay(st: State, st': State)
    requires Buffers(st) && Buffers(st')
  {
    && (forall t, n :: t in st.grace.inside && MayStand(st, t, n) ==> MayStand(st', t, n))
    && (forall t, g, side :: t in st.grace.inside && MayRead(st, t, g, side) ==>
          MayRead(st', t, g, side) && st'.mem[Buffer(g, side)] == st.mem[Buffer(g, side)])
  }

  lemma WalksKept(st: State, st': State)
    requires Buffers(st) && Buffers(st') && StillMay(st, st')
    requires forall t :: t in st.walks ==> Walking(st, t, st.walks[t])
    requires st'.walks == st.walks && st'.grace.inside == st.grace.inside
    requires forall g :: g in st.front ==> g in st'.front && st.installs[g] <= st'.installs[g]
    ensures forall t :: t in st'.walks ==> Walking(st', t, st'.walks[t])
  {
    forall t | t in st'.walks
      ensures Walking(st', t, st'.walks[t])
    {
      assert Walking(st, t, st.walks[t]);
    }
  }

  lemma RegisterInv(st: State, st': State)
    requires Inv(st) && st.writer.Unlocked?
    requires st' == st.(fresh_ := st.fresh_ + 1, writer := SetNext(st.fresh_))
    ensures Inv(st')
  {
    WalksKept(st, st');
  }

  lemma SetNextInv(st: State, st': State, n: Node)
    requires Inv(st) && st.writer == SetNext(n) && SENTINEL in st.next
    requires st' == st.(next := st.next[n := st.next[SENTINEL]], writer := SetPrev(n))
    ensures Inv(st')
  {
    assert LinkNext(st.list, st.next, 0);
    forall k | 0 <= k <= |st.list|
      ensures LinkNext(st.list, st'.next, k)
    {
      assert LinkNext(st.list, st.next, k);
    }
    WalksKept(st, st');
  }

  lemma SetPrevInv(st: State, st': State, n: Node)
    requires Inv(st) && st.writer == SetPrev(n)
    requires st' == st.(prev := st.prev[n := SENTINEL], writer := SetBack(n))
    ensures Inv(st')
  {
    forall k | 1 <= k <= |st.list| + 1
      ensures LinkPrev(st.list, st'.prev, Nowhere, k)
    {
      assert LinkPrev(st.list, st.prev, Nowhere, k);
    }
    WalksKept(st, st');
  }

  lemma SetBackInv(st: State, st': State, n: Node)
    requires Inv(st) && st.writer == SetBack(n)
    requires n in st.next && st' == st.(prev := st.prev[st.next[n] := n], writer := Publish(n))
    ensures Inv(st')
  {
    assert Ring(st.list, 1) == st.next[n];
    forall k | 1 <= k <= |st.list| + 1
      ensures LinkPrev(st.list, st'.prev, At(Ring(st.list, 1), n), k)
    {
      assert LinkPrev(st.list, st.prev, Nowhere, k);
    }
    WalksKept(st, st');
  }

  lemma PublishLinks(list: seq<Node>, next: map<Node, Node>, prev: map<Node, Node>, n: Node)
    requires Distinct(list) && SENTINEL !in list && n != SENTINEL && n !in list
    requires Forward(list, next) && Backward(list, prev, At(Ring(list, 1), n))
    requires n in next && next[n] == Ring(list, 1) && n in prev && prev[n] == SENTINEL
    ensures Forward([n] + list, next[SENTINEL := n]) && Backward([n] + list, prev, Nowhere)
  {
    var list', next' := [n] + list, next[SENTINEL := n];
    forall k | 0 <= k <= |list| + 1
      ensures LinkNext(list', next', k)
    {
      assert k >= 2 ==> LinkNext(list, next, k - 1);
    }
    forall k | 1 <= k <= |list| + 2
      ensures LinkPrev(list', prev, Nowhere, k)
    {
      assert k >= 2 ==> LinkPrev(list, prev, At(Ring(list, 1), n), k - 1);
    }
  }

  lemma PublishInv(st: State, st': State, n: Node)
    requires Inv(st) && st.writer == Publish(n)
    requires st' == st.(next := st.next[SENTINEL := n], writer := Unlocked, list := [n] + st.list)
    ensures Inv(st')
  {
    PublishLinks(st.list, st.next, st.prev, n);
    assert forall m :: m in st'.list <==> m == n || m in st.list;
    WalksKept(st, st');
  }

  lemma {:induction false} WithoutAt(list: seq<Node>, i: nat)
    requires Distinct(list) && i < |list|
    ensures Without(list, list[i]) == list[..i] + list[i + 1..]
  {
    if i > 0 {
      assert list[0] != list[i];
      assert list[1..][i - 1] == list[i];
      WithoutAt(list[1..], i - 1);
      assert [list[0]] + (list[1..][..i - 1] + list[1..][i..]) == list[..i] + list[i + 1..];
    }
  }

  /** The ring without list[i]: positions up to i stay, later ones move down by one. */
  lemma RingWithout(list: seq<Node>, rest: seq<Node>, i: nat, k: nat)
    requires i < |list| && rest == list[..i] + list[i + 1..] && k <= |list|
    ensures Ring(rest, k) == if k <= i then Ring(list, k) else Ring(list, k + 1)
  {
  }

  lemma MembersWithout(list: seq<Node>, rest: seq<Node>, i: nat)
    requires i < |list| && rest == list[..i] + list[i + 1..] && Distinct(list)
    ensures Distinct(rest) && list[i] !in rest
    ensures forall m :: m in list <==> m in rest || m == list[i]
  {
    assert forall k :: 0 <= k < |rest| ==> rest[k] == list[if k < i then k else k + 1];
    forall m | m in list && m != list[i]
      ensures m in rest
    {
      var j :| 0 <= j < |list| && list[j] == m;
      assert rest[if j < i then j else j - 1] == m;
    }
  }

  /** The chains of pointers after the bypass are those of the list without the node. */
  lemma BypassLinks(list: seq<Node>, next: map<Node, Node>, prev: map<Node, Node>, i: nat, rest: seq<Node>)
    requires Distinct(list) && SENTINEL !in list && i < |list| && rest == list[..i] + list[i + 1..]
    requires Forward(list, next) && Backward(list, prev, Nowhere)
    ensures list[i] in next && list[i] in prev && Adjacent(rest, i + 1, next[list[i]], prev[list[i]])
    ensures prev[list[i]] != list[i]
    ensures Forward(rest, next[prev[list[i]] := next[list[i]]])
    ensures Backward(rest, prev, At(next[list[i]], list[i]))
  {
    var n := list[i];
    assert LinkNext(list, next, i + 1) && LinkPrev(list, prev, Nowhere, i + 1);
    RingWithout(list, rest, i, i);
    RingWithout(list, rest, i, i + 1);
    var next' := next[prev[n] := next[n]];
    forall k | 0 <= k <= |rest|
      ensures LinkNext(rest, next', k)
    {
      RingWithout(list, rest, i, k);
      RingWithout(list, rest, i, k + 1);
      assert LinkNext(list, next, if k <= i then k else k + 1);
    }
    forall k | 1 <= k <= |rest| + 1
      ensures LinkPrev(rest, prev, At(next[n], n), k)
    {
      RingWithout(list, rest, i, k);
      RingWithout(list, rest, i, k - 1);
      assert LinkPrev(list, prev, Nowhere, if k <= i then k else k + 1);
    }
  }

  lemma BypassInv(st: State, st': State, n: Node)
    requires Inv(st) && st.writer == Bypass(n) && n in st.prev && n in st.next
    requires st' == st.(next := st.next[st.prev[n] := st.next[n]], writer := Rejoin(n), list := Without(st.list, n))
    ensures Inv(st')
  {
    var i :| 0 <= i < |st.list| && st.list[i] == n;
    WithoutAt(st.list, i);
    BypassLinks(st.list, st.next, st.prev, i, st'.list);
    MembersWithout(st.list, st'.list, i);
    assert st'.next[n] == st.next[n];
    WalksKept(st, st');
  }

  lemma RejoinLinks(list: seq<Node>, prev: map<Node, Node>, n: Node, k: nat)
    requires Distinct(list) && SENTINEL !in list && 1 <= k <= |list| + 1
    requires Backward(list, prev, At(Ring(list, k), n))
    ensures Backward(list, prev[Ring(list, k) := Ring(list, k - 1)], Nowhere)
  {
    var prev' := prev[Ring(list, k) := Ring(list, k - 1)];
    forall j | 1 <= j <= |list| + 1
      ensures LinkPrev(list, prev', Nowhere, j)
    {
      assert LinkPrev(list, prev, At(Ring(list, k), n), j);
    }
  }

  lemma RejoinInv(st: State, st': State, n: Node)
    requires Inv(st) && st.writer == Rejoin(n) && n in st.prev && n in st.next
    requires st' == st.(prev := st.prev[st.next[n] := st.prev[n]], writer := Unlinked(n))
    ensures Inv(st')
  {
    var k :| 1 <= k <= |st.list| + 1 && Adjacent(st.list, k, st.next[n], st.prev[n]);
    RejoinLinks(st.list, st.prev, n, k);
    WalksKept(st, st');
  }

  /** Taking the lock for unregister or sigaction. */
  lemma LockInv(st: State, st': State)
    requires Inv(st) && st.writer.Unlocked? && st' == st.(writer := st'.writer)
    requires st'.writer.Bypass? || st'.writer.Filling?
    requires Writing(st')
    ensures Inv(st')
  {
    WalksKept(st, st');
  }

  lemma FillWord(buf: seq<Word>, act: seq<Word>, k: nat)
    requires |buf| == |act| == WORDS && k < WORDS && buf[..k] == act[..k]
    ensures buf[k := act[k]][..k + 1] == act[..k + 1]
    ensures k + 1 == WORDS ==> buf[k := act[k]] == act
  {
    assert act[..k + 1] == act[..k] + [act[k]];
    assert buf[k := act[k]][..k + 1] == buf[..k] + [act[k]];
    if k + 1 == WORDS {
      assert act[..WORDS] == act && buf[k := act[k]][..WORDS] == buf[k := act[k]];
    }
  }

  lemma FillKeepsBuffers(st: State, st': State, g: Signum, act: seq<Word>, k: nat)
    requires Buffers(st) && Writing(st) && st.writer == Filling(g, act, k)
    requires st' == st.(mem := st.mem[Spare(st, g) := st.mem[Spare(st, g)][k := act[k]]],
                        writer := if k + 1 == WORDS then Swapping(g, act) else Filling(g, act, k + 1))
    ensures Buffers(st') && Writing(st')
    ensures forall other :: other in st.mem && other != Spare(st, g) ==> st'.mem[other] == st.mem[other]
  {
    FillWord(st.mem[Spare(st, g)], act, k);
  }

  lemma FillInv(st: State, st': State, g: Signum, act: seq<Word>, k: nat)
    requires Inv(st) && st.writer == Filling(g, act, k)
    requires st' == st.(mem := st.mem[Spare(st, g) := st.mem[Spare(st, g)][k := act[k]]],
                        writer := if k + 1 == WORDS then Swapping(g, act) else Filling(g, act, k + 1))
    ensures Inv(st')
  {
    FillKeepsBuffers(st, st', g, act, k);
    WalksKept(st, st');
  }

  lemma SwapInv(st: State, st': State, g: Signum, act: seq<Word>)
    requires Inv(st) && st.writer == Swapping(g, act)
    requires st' == st.(front := st.front[g := !st.front[g]], writer := Swapped(g),
                        installs := st.installs[g := st.installs[g] + {act}])
    ensures Inv(st')
  {
    assert st.mem[Spare(st, g)] == act;
    WalksKept(st, st');
  }

  lemma BeginDrainInv(st: State, st': State)
    requires Inv(st) && WriterEnabled(st, BeginDrain) && st' == WriterApply(st, BeginDrain)
    ensures Inv(st')
  {
    WalksKept(st, st');
  }

  lemma FinishDrainInv(st: State, st': State)
    requires Inv(st) && WriterEnabled(st, FinishDrain) && st' == WriterApply(st, FinishDrain)
    ensures Inv(st')
  {
    WalksKept(st, st');
  }

  lemma ReleaseInv(st: State, st': State, n: Node)
    requires Inv(st) && n in st.condemned
    requires st' == st.(condemned := st.condemned - {n}, freed := st.freed + {n})
    ensures Inv(st')
  {
    WalksKept(st, st');
  }

  lemma RegisterWriteInv(st: State, st': State, n: Node)
    requires Inv(st) && IsNew(st.writer, n) && WriterEnabled(st, Write) && st' == WriteApply(st)
    ensures Inv(st')
  {
    match st.writer
    case SetNext(_) => SetNextInv(st, st', n);
    case SetPrev(_) => SetPrevInv(st, st', n);
    case SetBack(_) => SetBackInv(st, st', n);
    case Publish(_) => PublishInv(st, st', n);
  }

  lemma UnregisterWriteInv(st: State, st': State)
    requires Inv(st) && (st.writer.Bypass? || st.writer.Rejoin?) && WriterEnabled(st, Write) && st' == WriteApply(st)
    ensures Inv(st')
  {
    if st.writer.Bypass? {
      BypassInv(st, st', st.writer.n);
    } else {
      RejoinInv(st, st', st.writer.n);
    }
  }

  lemma SigactionWriteInv(st: State, st': State)
    requires Inv(st) && (st.writer.Filling? || st.writer.Swapping?) && WriterEnabled(st, Write) && st' == WriteApply(st)
    ensures Inv(st')
  {
    if st.writer.Filling? {
      FillInv(st, st', st.writer.signum, st.writer.act, st.writer.k);
    } else {
      SwapInv(st, st', st.writer.signum, st.writer.act);
    }
  }

  lemma WriterStepInv(st: State, a: Action, st': State)
    requires Inv(st) && !IsWalkStep(a) && WriterEnabled(st, a) && st' == WriterApply(st, a)
    ensures Inv(st')
  {
    match a
    case Register => RegisterInv(st, st');
    case Unregister(n) => LockInv(st, st');
    case Sigaction(g, act) => LockInv(st, st');
    case Write =>
      if st.writer.Filling? || st.writer.Swapping? {
        SigactionWriteInv(st, st');
      } else if st.writer.Bypass? || st.writer.Rejoin? {
        UnregisterWriteInv(st, st');
      } else {
        RegisterWriteInv(st, st', st.writer.n);
      }
    case BeginDrain => BeginDrainInv(st, st');
    case FinishDrain => FinishDrainInv(st, st');
    case Release(n) => ReleaseInv(st, st', n);
  }

  lemma {:induction false} RunInv(states: seq<State>, actions: seq<Action>, k: nat)
    requires IsRun(states, actions) && k < |states|
    ensures Inv(states[k])
  {
    if k == 0 {
      InitInv(states[0]);
    } else {
      RunInv(states, actions, k - 1);
      if IsWalkStep(actions[k - 1]) {
        WalkStepInv(states[k - 1], actions[k - 1], states[k]);
      } else {
        WriterStepInv(states[k - 1], actions[k - 1], states[k]);
      }
    }
  }

  // ---------------------------------------------------------------- what every run keeps

  /** Every walker stands on the sentinel, on a linked registration, or on the one registration
      that is being unregistered; in the last case the drain, if begun, waits for the walker.
      The saved list head obeys the same rule. */
  lemma WalkersStand(states: seq<State>, actions: seq<Action>, k: nat, t: Section)
    requires IsRun(states, actions) && k < |states| && t in states[k].walks
    requires states[k].walks[t].Standing? || states[k].walks[t].Handling?
    ensures MayStand(states[k], t, states[k].walks[t].it) && MayStand(states[k], t, states[k].walks[t].head)
    ensures states[k].walks[t].it !in states[k].freed && states[k].walks[t].head !in states[k].freed
  {
    RunInv(states, actions, k);
    assert Walking(states[k], t, states[k].walks[t]);
  }

  /** The registrations whose memory a step reads or writes. */
  ghost predicate Touches(st: State, a: Action, n: Node) {
    match a
    case CallHandler(t) => t in st.walks && st.walks[t].Standing? && st.walks[t].it == n
    case Skip(t) => t in st.walks && st.walks[t].Standing? && st.walks[t].it == n
    case Return(t, _) => t in st.walks && st.walks[t].Handling? && st.walks[t].it == n
    case Write =>
      (match st.writer
       case SetNext(m) => n == m
       case SetPrev(m) => n == m
       case SetBack(m) => n == m || (m in st.next && n == st.next[m])
       case Bypass(m) => n == m || (m in st.prev && n == st.prev[m])
       case Rejoin(m) => n == m || (m in st.next && n == st.next[m])
       case _ => false)
    case Release(m) => n == m
    case _ => false
  }

  /** List reclamation: no step of any run reads, writes or frees a freed registration. */
  lemma NeverTouchesFreed(states: seq<State>, actions: seq<Action>, k: nat, n: Node)
    requires IsRun(states, actions) && k < |actions| && Touches(states[k], actions[k], n)
    ensures n !in states[k].freed
  {
    RunInv(states, actions, k);
    var st, a := states[k], actions[k];
    if IsWalkStep(a) {
      assert Walking(st, a.t, st.walks[a.t]);
    } else if a.Write? && st.writer.Bypass? {
      var i :| 0 <= i < |st.list| && st.list[i] == st.writer.n;
      assert LinkPrev(st.list, st.prev, Nowhere, i + 1);
    } else if a.Write? && st.writer.Rejoin? {
      assert Between(st, st.next[st.writer.n], st.prev[st.writer.n]);
    }
  }

  /** The pointers always form the list: walking forward from the sentinel visits exactly the
      linked registrations, in order, and comes back to the sentinel. */
  lemma PointersFormList(states: seq<State>, actions: seq<Action>, k: nat, i: nat)
    requires IsRun(states, actions) && k < |states| && i <= |states[k].list|
    ensures Ring(states[k].list, i) in states[k].next
    ensures states[k].next[Ring(states[k].list, i)] == Ring(states[k].list, i + 1)
  {
    RunInv(states, actions, k);
    assert LinkNext(states[k].list, states[k].next, i);
  }

  /** Double buffering: the sigaction a dispatch leaves with is one complete installed value. */
  lemma CopiesAreWhole(states: seq<State>, actions: seq<Action>, k: nat, t: Section)
    requires IsRun(states, actions) && k < |states| && t in states[k].walks
    requires states[k].walks[t].Gone? && states[k].walks[t].copied != []
    ensures states[k].walks[t].signum in states[k].installs
    ensures states[k].walks[t].copied in states[k].installs[states[k].walks[t].signum]
  {
    RunInv(states, actions, k);
    assert Walking(states[k], t, states[k].walks[t]);
  }

  /** And the writer never touches a buffer that some dispatch is copying from. */
  lemma WriterAvoidsReaders(states: seq<State>, actions: seq<Action>, k: nat, t: Section)
    requires IsRun(states, actions) && k < |states| && t in states[k].walks
    requires states[k].writer.Filling? && states[k].walks[t].Copying?
    ensures states[k].writer.signum in states[k].front
    ensures Buffer(states[k].walks[t].signum, states[k].walks[t].side) != Spare(states[k], states[k].writer.signum)
  {
    RunInv(states, actions, k);
    assert Walking(states[k], t, states[k].walks[t]);
  }
}
