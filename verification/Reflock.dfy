/** The life of epoll ports seen by many threads: the handle tree behind its slim lock, the
    reflock inside every port, and the calls epoll_create, epoll_ctl, epoll_wait, epoll_close.
    Every atomic action of the source is one step; threads interleave freely. */
module Reflock {
  import opened Wrappers

  const REF: int := 0x0000_0001
  const REF_LIMIT: int := 0x1000_0000      // one more than REFLOCK__REF_MASK
  const DESTROY: int := 0x1000_0000
  const POISON: int := 0x300d_ead0
  const WORD: int := 0x1_0000_0000

  /** InterlockedAdd on a 32-bit word. */
  function InterlockedAdd(word: nat, delta: int): nat {
    (word + delta) % WORD
  }

  type Port = nat
  type Handle = int

  /** Where a thread is; `p` is always the port whose memory it is about to touch. */
  datatype Pc =
    | Idle
    // epoll_ctl and epoll_wait
    | UseLock(h: Handle)
    | UseFind(h: Handle)
    | UseRef(p: Port)
    | UseUnlock(p: Port)
    | UseMiss
    | Using(p: Port)
    | Waiting(p: Port)     // in GetQueuedCompletionStatusEx
    | Unref(p: Port)
    | Signal(p: Port)
    // epoll_close
    | CloseLock(h: Handle)
    | CloseFind(h: Handle)
    | CloseDel(h: Handle, p: Port)
    | CloseRef(p: Port)
    | CloseUnlock(p: Port)
    | CloseMiss
    | ClosePort(p: Port)
    | Destroy(p: Port)
    | Await(p: Port)
    | Exchange(p: Port)
    | Delete(p: Port)
    // epoll_create
    | Create
    | CreateLock(h: Handle, p: Port)
    | CreateAdd(h: Handle, p: Port)
    | CreateUnlock

  /** A port in memory: the reflock word, the handle, and two history counters. */
  datatype Cell = Cell(word: nat, handle: Handle, awaits: nat, signals: nat)

  datatype State = State(
    pcs: seq<Pc>,                // one entry per thread
    ports: map<Port, Cell>,      // allocated memory
    tree: map<Handle, Port>,     // epoll__handle_tree
    open: map<Handle, Port>,     // open I/O completion ports and the port that owns each
    crashed: bool)               // an assert failed, or freed memory was touched

  /** What is not decided by the code: which call starts, what the allocator and the kernel
      return, whether a thread waits for events, when a packet arrives or the time is up, which waiter a signal meets. */
  datatype Choice =
    | Go
    | Call(first: Pc)
    | Fresh(h: Handle, p: Port)
    | OutOfMemory
    | Wait
    | Packet
    | Meet(waiter: nat)

  /** Program points at which a thread holds the tree lock shared, and exclusively. */
  predicate ReaderPc(pc: Pc) {
    pc.UseFind? || pc.UseRef? || pc.UseUnlock? || pc.UseMiss?
  }

  predicate WriterPc(pc: Pc) {
    pc.CloseFind? || pc.CloseDel? || pc.CloseRef? || pc.CloseUnlock? || pc.CloseMiss? || pc.CreateAdd? || pc.CreateUnlock?
  }

  predicate NoReader(s: State) {
    forall u | 0 <= u < |s.pcs| :: !ReaderPc(s.pcs[u])
  }

  predicate NoWriter(s: State) {
    forall u | 0 <= u < |s.pcs| :: !WriterPc(s.pcs[u])
  }

  function Init(threads: nat): State {
    State(seq(threads, _ => Idle), map[], map[], map[], false)
  }

  function To(s: State, t: nat, pc: Pc): State
    requires t < |s.pcs|
  {
    s.(pcs := s.pcs[t := pc])
  }

  /** Writes the word of `p`; touching freed memory or failing the assert crashes. */
  function Write(s: State, p: Port, word: nat, assertion: bool): State {
    if p in s.ports && assertion then s.(ports := s.ports[p := s.ports[p].(word := word)])
    else s.(crashed := true)
  }

  function Touch(s: State, p: Port): State {
    if p in s.ports then s else s.(crashed := true)
  }

  predicate IsOpen(s: State, p: Port) {
    p in s.ports && s.ports[p].handle in s.open && s.open[s.ports[p].handle] == p
  }

  function Word(s: State, p: Port): nat {
    if p in s.ports then s.ports[p].word else 0
  }

  predicate UsePc(pc: Pc) {
    pc.Idle? || pc.UseLock? || pc.UseFind? || pc.UseRef? || pc.UseUnlock? || pc.UseMiss?
    || pc.Using? || pc.Waiting? || pc.Unref? || pc.Signal?
  }

  predicate CreatePc(pc: Pc) {
    pc.Create? || pc.CreateLock? || pc.CreateAdd? || pc.CreateUnlock?
  }

  /** One atomic step of thread `t`; None when the thread cannot move with this choice. */
  function Step(s: State, t: nat, c: Choice): Option<State>
    requires t < |s.pcs|
  {
    if UsePc(s.pcs[t]) then UseStep(s, t, c)
    else if CreatePc(s.pcs[t]) then CreateStep(s, t, c)
    else CloseStep(s, t, c)
  }

  /** The next call, and the steps of epoll_ctl and epoll_wait. */
  function UseStep(s: State, t: nat, c: Choice): Option<State>
    requires t < |s.pcs| && UsePc(s.pcs[t])
  {
    match s.pcs[t]
    case Idle =>
      if c.Call? && (c.first.UseLock? || c.first.CloseLock? || c.first.Create?) then Some(To(s, t, c.first)) else None
    case UseLock(h) =>
      if NoWriter(s) then Some(To(s, t, UseFind(h))) else None
    case UseFind(h) =>
      Some(To(s, t, if h in s.tree then UseRef(s.tree[h]) else UseMiss))
    case UseRef(p) =>
      var w := InterlockedAdd(Word(s, p), REF);
      Some(To(Write(s, p, w, w < DESTROY), t, UseUnlock(p)))
    case UseUnlock(p) =>
      Some(To(s, t, Using(p)))
    case UseMiss =>
      Some(To(s, t, Idle))
    case Using(p) =>
      Some(To(Touch(s, p), t, if c.Wait? then Waiting(p) else Unref(p)))
    case Waiting(p) =>
      // the wait fails when the completion port is closed
      if !IsOpen(s, p) then Some(To(Touch(s, p), t, Unref(p)))
      else if c.Packet? then Some(To(Touch(s, p), t, Using(p)))
      else None
    case Unref(p) =>
      var w := InterlockedAdd(Word(s, p), -REF);
      Some(To(Write(s, p, w, w < 2 * DESTROY), t, if w == DESTROY then Signal(p) else Idle))
    case Signal(p) =>
      if c.Meet? && c.waiter < |s.pcs| && s.pcs[c.waiter] == Await(p) && p in s.ports then
        var cell := s.ports[p];
        Some(To(To(s.(ports := s.ports[p := cell.(signals := cell.signals + 1)]), t, Idle), c.waiter, Exchange(p)))
      else None
  }

  /** The steps of epoll_close. */
  function CloseStep(s: State, t: nat, c: Choice): Option<State>
    requires t < |s.pcs| && !UsePc(s.pcs[t]) && !CreatePc(s.pcs[t])
  {
    match s.pcs[t]
    case CloseLock(h) =>
      if NoWriter(s) && NoReader(s) then Some(To(s, t, CloseFind(h))) else None
    case CloseFind(h) =>
      Some(To(s, t, if h in s.tree then CloseDel(h, s.tree[h]) else CloseMiss))
    case CloseDel(h, p) =>
      Some(To(Touch(s.(tree := s.tree - {h}), p), t, CloseRef(p)))
    case CloseRef(p) =>
      var w := InterlockedAdd(Word(s, p), REF);
      Some(To(Write(s, p, w, w < DESTROY), t, CloseUnlock(p)))
    case CloseUnlock(p) =>
      Some(To(s, t, ClosePort(p)))
    case CloseMiss =>
      Some(To(s, t, Idle))
    case ClosePort(p) =>
      var s' := Touch(s, p);
      Some(To(if p in s.ports then s'.(open := s.open - {s.ports[p].handle}) else s', t, Destroy(p)))
    case Destroy(p) =>
      var w := InterlockedAdd(Word(s, p), DESTROY - REF);
      var s' := Write(s, p, w, DESTROY <= w < 2 * DESTROY);
      if w % REF_LIMIT != 0 && p in s'.ports then
        var cell := s'.ports[p];
        Some(To(s'.(ports := s'.ports[p := cell.(awaits := cell.awaits + 1)]), t, Await(p)))
      else
        Some(To(s', t, Exchange(p)))
    case Await(p) => None
    case Exchange(p) =>
      Some(To(Write(s, p, POISON, Word(s, p) == DESTROY), t, Delete(p)))
    case Delete(p) =>
      var s' := Touch(s, p);
      Some(To(s'.(ports := s'.ports - {p}), t, Idle))
  }

  /** The steps of epoll_create. */
  function CreateStep(s: State, t: nat, c: Choice): Option<State>
    requires t < |s.pcs| && CreatePc(s.pcs[t])
  {
    match s.pcs[t]
    case Create =>
      if c.Fresh? && c.p !in s.ports && c.h !in s.open then
        Some(To(s.(ports := s.ports[c.p := Cell(0, c.h, 0, 0)], open := s.open[c.h := c.p]), t, CreateLock(c.h, c.p)))
      else if c.OutOfMemory? then Some(To(s, t, Idle))
      else None
    case CreateLock(h, p) =>
      if NoWriter(s) && NoReader(s) then Some(To(s, t, CreateAdd(h, p))) else None
    case CreateAdd(h, p) =>
      // ts_tree_add fails when the handle is already there: "this should never happen"
      var s' := Touch(s, p);
      Some(To(if h in s.tree then s'.(crashed := true) else s'.(tree := s.tree[h := p]), t, CreateUnlock))
    case CreateUnlock =>
      Some(To(s, t, Idle))
  }

  // ----- what the reflock word counts -----

  /** The share of the word of `p` that a thread at `pc` is responsible for. */
  function Share(pc: Pc, p: Port): nat {
    match pc
    case UseUnlock(q) => if p == q then REF else 0
    case Using(q) => if p == q then REF else 0
    case Waiting(q) => if p == q then REF else 0
    case Unref(q) => if p == q then REF else 0
    case CloseUnlock(q) => if p == q then REF else 0
    case ClosePort(q) => if p == q then REF else 0
    case Destroy(q) => if p == q then REF else 0
    case Await(q) => if p == q then DESTROY else 0
    case Exchange(q) => if p == q then DESTROY else 0
    case Delete(q) => if p == q then POISON else 0
    case _ => 0
  }

  function Sum(pcs: seq<Pc>, p: Port): nat {
    if pcs == [] then 0 else Share(pcs[0], p) + Sum(pcs[1..], p)
  }

  lemma {:induction false} SumUpdate(pcs: seq<Pc>, t: nat, pc: Pc, p: Port)
    requires t < |pcs|
    ensures Sum(pcs[t := pc], p) == Sum(pcs, p) - Share(pcs[t], p) + Share(pc, p)
  {
    if t == 0 {
      assert pcs[t := pc][1..] == pcs[1..];
    } else {
      assert pcs[t := pc][1..] == pcs[1..][t - 1 := pc];
      SumUpdate(pcs[1..], t - 1, pc, p);
    }
  }

  // ----- the invariant -----

  /** The one thread that decides the fate of `p`: it creates it or closes it. */
  predicate Owns(pc: Pc, p: Port) {
    match pc
    case CloseRef(q) => p == q
    case CloseUnlock(q) => p == q
    case ClosePort(q) => p == q
    case Destroy(q) => p == q
    case Await(q) => p == q
    case Exchange(q) => p == q
    case Delete(q) => p == q
    case CreateLock(_, q) => p == q
    case CreateAdd(_, q) => p == q
    case _ => false
  }

  /** The thread may still touch `p`. */
  predicate Mentions(pc: Pc, p: Port) {
    Owns(pc, p) ||
    match pc
    case UseRef(q) => p == q
    case UseUnlock(q) => p == q
    case Using(q) => p == q
    case Waiting(q) => p == q
    case Unref(q) => p == q
    case Signal(q) => p == q
    case CloseDel(_, q) => p == q
    case _ => false
  }

  predicate InTree(s: State, p: Port) {
    p in s.ports && s.ports[p].handle in s.tree && s.tree[s.ports[p].handle] == p
  }

  ghost predicate LocksHeld(s: State) {
    forall t, u | 0 <= t < |s.pcs| && 0 <= u < |s.pcs| && t != u && WriterPc(s.pcs[t]) ::
      !WriterPc(s.pcs[u]) && !ReaderPc(s.pcs[u])
  }

  ghost predicate TreeInv(s: State) {
    && (forall h | h in s.tree ::
          && s.tree[h] in s.ports && s.ports[s.tree[h]].handle == h && h in s.open && s.open[h] == s.tree[h]
          && s.ports[s.tree[h]].awaits == 0 && s.ports[s.tree[h]].signals == 0)
    && (forall h | h in s.open :: s.open[h] in s.ports && s.ports[s.open[h]].handle == h)
  }

  ghost predicate WordInv(s: State) {
    forall p | p in s.ports :: s.ports[p].word == Sum(s.pcs, p)
  }

  /** Owned by a thread, with the I/O completion port already closed. */
  ghost predicate OwnedClosed(s: State, p: Port) {
    p in s.ports && !InTree(s, p) && !IsOpen(s, p)
  }

  /** Owned by a thread, with the I/O completion port still open; nobody has waited yet. */
  ghost predicate OwnedOpen(s: State, p: Port) {
    && !InTree(s, p) && IsOpen(s, p)
    && s.ports[p].awaits == 0 && s.ports[p].signals == 0
  }

  ghost predicate Awaited(s: State, p: Port) {
    exists u :: 0 <= u < |s.pcs| && s.pcs[u] == Await(p)
  }

  ghost predicate Signalled(s: State, p: Port) {
    exists u :: 0 <= u < |s.pcs| && s.pcs[u] == Signal(p)
  }

  ghost predicate ThreadInv(s: State, t: nat)
    requires t < |s.pcs|
  {
    match s.pcs[t]
    case UseRef(p) => InTree(s, p)
    case UseUnlock(p) => p in s.ports
    case Using(p) => p in s.ports
    case Waiting(p) => p in s.ports
    case Unref(p) => p in s.ports
    case Signal(p) => p in s.ports && Awaited(s, p)
    case CloseDel(h, p) => h in s.tree && s.tree[h] == p
    case CloseRef(p) => OwnedOpen(s, p)
    case CloseUnlock(p) => OwnedOpen(s, p)
    case ClosePort(p) => OwnedOpen(s, p)
    case Destroy(p) => OwnedClosed(s, p) && s.ports[p].awaits == 0 && s.ports[p].signals == 0
    case Await(p) =>
      OwnedClosed(s, p) && s.ports[p].awaits == 1 && s.ports[p].signals == 0
      && (Sum(s.pcs, p) == DESTROY <==> Signalled(s, p))
    case Exchange(p) => OwnedClosed(s, p) && s.ports[p].awaits == s.ports[p].signals <= 1
    case Delete(p) => OwnedClosed(s, p) && s.ports[p].awaits == s.ports[p].signals <= 1
    case CreateLock(h, p) => OwnedOpen(s, p) && s.ports[p].handle == h
    case CreateAdd(h, p) => OwnedOpen(s, p) && s.ports[p].handle == h
    case _ => true
  }

  ghost predicate OneOwner(s: State) {
    forall t, u, p | 0 <= t < |s.pcs| && 0 <= u < |s.pcs| && Owns(s.pcs[t], p) && Owns(s.pcs[u], p) :: t == u
  }

  ghost predicate OneSignaller(s: State) {
    forall t, u | 0 <= t < |s.pcs| && 0 <= u < |s.pcs| && s.pcs[t].Signal? && s.pcs[t] == s.pcs[u] :: t == u
  }

  /** Past the wait, the destroyer is alone with the port. */
  predicate Last(pc: Pc, p: Port) {
    pc == Exchange(p) || pc == Delete(p)
  }

  ghost predicate Alone(s: State) {
    forall t, u, p | 0 <= t < |s.pcs| && 0 <= u < |s.pcs| && Last(s.pcs[t], p) && Mentions(s.pcs[u], p) :: t == u
  }

  ghost predicate Pairs(s: State) {
    OneOwner(s) && OneSignaller(s) && Alone(s)
  }

  ghost predicate PortInv(s: State) {
    && !s.crashed && TreeInv(s) && WordInv(s) && Pairs(s)
    && forall t | 0 <= t < |s.pcs| :: ThreadInv(s, t)
  }

  ghost predicate Inv(s: State) {
    |s.pcs| < REF_LIMIT && LocksHeld(s) && PortInv(s)
  }

  lemma {:induction false} InitInv(threads: nat)
    requires threads < REF_LIMIT
    ensures Inv(Init(threads))
  {
  }

  // ----- sums -----

  lemma {:induction false} SumAtLeast(pcs: seq<Pc>, t: nat, p: Port)
    requires t < |pcs|
    ensures Sum(pcs, p) >= Share(pcs[t], p)
  {
    if t > 0 {
      SumAtLeast(pcs[1..], t - 1, p);
    }
  }

  lemma {:induction false} SumAtMost(pcs: seq<Pc>, p: Port)
    requires forall t | 0 <= t < |pcs| :: Share(pcs[t], p) <= 1
    ensures Sum(pcs, p) <= |pcs|
  {
    if pcs != [] {
      SumAtMost(pcs[1..], p);
    }
  }

  /** Two threads' shares fit in the sum. */
  lemma {:induction false} SumTwo(pcs: seq<Pc>, t: nat, u: nat, p: Port)
    requires t < |pcs| && u < |pcs| && t != u
    ensures Sum(pcs, p) >= Share(pcs[t], p) + Share(pcs[u], p)
  {
    SumUpdate(pcs, t, Idle, p);
    SumAtLeast(pcs[t := Idle], u, p);
  }

  /** The reference count leaves room for one more in the low 28 bits. */
  lemma {:induction false} SumRoom(s: State, t: nat, p: Port)
    requires Inv(s) && t < |s.pcs|
    requires forall u | 0 <= u < |s.pcs| && u != t :: Share(s.pcs[u], p) <= 1
    ensures Sum(s.pcs, p) - Share(s.pcs[t], p) < REF_LIMIT - 1
  {
    SumUpdate(s.pcs, t, Idle, p);
    var rest := s.pcs[t := Idle];
    SumAtMostExcept(rest, t, p);
  }

  lemma {:induction false} SumAtMostExcept(pcs: seq<Pc>, t: nat, p: Port)
    requires t < |pcs| && Share(pcs[t], p) == 0
    requires forall u | 0 <= u < |pcs| :: Share(pcs[u], p) <= 1
    ensures Sum(pcs, p) <= |pcs| - 1
  {
    if t == 0 {
      SumAtMost(pcs[1..], p);
    } else {
      SumAtMostExcept(pcs[1..], t - 1, p);
    }
  }

  // ----- every step keeps the invariant -----

  /** Thread `t`, and no other, has moved. */
  ghost predicate Moves(s: State, s': State, t: nat) {
    t < |s.pcs| && |s'.pcs| == |s.pcs| && s'.pcs == s.pcs[t := s'.pcs[t]]
  }

  lemma {:induction false} WaitersKept(s: State, s': State, t: nat, p: Port)
    requires Moves(s, s', t)
    ensures s.pcs[t] != Await(p) && s'.pcs[t] != Await(p) ==> (Awaited(s, p) <==> Awaited(s', p))
    ensures s.pcs[t] != Signal(p) && s'.pcs[t] != Signal(p) ==> (Signalled(s, p) <==> Signalled(s', p))
  {
    assert forall u | 0 <= u < |s.pcs| && u != t :: s.pcs[u] == s'.pcs[u];
  }

  lemma {:induction false} PairsKept(s: State, s': State, t: nat)
    requires Pairs(s) && Moves(s, s', t)
    requires forall p | Owns(s'.pcs[t], p) && !Owns(s.pcs[t], p) :: forall u | 0 <= u < |s.pcs| :: !Owns(s.pcs[u], p)
    requires forall p | Mentions(s'.pcs[t], p) && !Mentions(s.pcs[t], p) :: forall u | 0 <= u < |s.pcs| :: !Last(s.pcs[u], p)
    requires forall p | Last(s'.pcs[t], p) :: forall u | 0 <= u < |s.pcs| && u != t :: !Mentions(s.pcs[u], p)
    requires s'.pcs[t].Signal? ==> !Signalled(s, s'.pcs[t].p)
    ensures Pairs(s')
  {
  }

  lemma {:induction false} SumsKept(s: State, s': State, t: nat)
    requires Moves(s, s', t)
    ensures forall p :: Sum(s'.pcs, p) == Sum(s.pcs, p) - Share(s.pcs[t], p) + Share(s'.pcs[t], p)
  {
    forall p ensures Sum(s'.pcs, p) == Sum(s.pcs, p) - Share(s.pcs[t], p) + Share(s'.pcs[t], p) {
      SumUpdate(s.pcs, t, s'.pcs[t], p);
    }
  }

  /** A step that changes no shared memory, or only the locks. */
  ghost predicate Quiet(s: State, s': State, t: nat) {
    && Moves(s, s', t) && s'.ports == s.ports && s'.tree == s.tree && s'.open == s.open && s'.crashed == s.crashed
    && (forall p :: Share(s'.pcs[t], p) == Share(s.pcs[t], p))
    && (forall p :: Owns(s'.pcs[t], p) ==> Owns(s.pcs[t], p))
    && (forall p :: Mentions(s'.pcs[t], p) ==> Mentions(s.pcs[t], p) || InTree(s, p))
    && (forall p :: !Last(s'.pcs[t], p))
    && Bystander(s.pcs[t]) && Bystander(s'.pcs[t])
  }

  predicate Bystander(pc: Pc) {
    !pc.Await? && !pc.Signal?
  }

  lemma {:induction false} QuietStep(s: State, s': State, t: nat)
    requires PortInv(s) && Quiet(s, s', t) && ThreadInv(s', t)
    ensures PortInv(s')
  {
    SumsKept(s, s', t);
    forall p, u | InTree(s, p) && 0 <= u < |s.pcs| ensures !Last(s.pcs[u], p) {
      assert ThreadInv(s, u);
    }
    PairsKept(s, s', t);
    forall u | 0 <= u < |s'.pcs| ensures ThreadInv(s', u) {
      QuietThread(s, s', t, u);
    }
  }

  lemma {:induction false} QuietThread(s: State, s': State, t: nat, u: nat)
    requires u < |s.pcs| && ThreadInv(s, u) && Quiet(s, s', t) && ThreadInv(s', t)
    requires forall p :: Sum(s'.pcs, p) == Sum(s.pcs, p)
    ensures ThreadInv(s', u)
  {
    if u != t && (s.pcs[u].Signal? || s.pcs[u].Await?) {
      WaitersKept(s, s', t, s.pcs[u].p);
    }
  }

  lemma {:induction false} QuietSteps(s: State, t: nat, c: Choice)
    requires Inv(s) && t < |s.pcs| && Step(s, t, c).Some?
    requires
      var pc := s.pcs[t];
      pc.Idle? || pc.UseLock? || pc.UseFind? || pc.UseUnlock? || pc.UseMiss? || pc.Using? || pc.Waiting?
    ensures PortInv(Step(s, t, c).value)
  {
    assert ThreadInv(s, t);
    QuietStep(s, Step(s, t, c).value, t);
  }

  lemma {:induction false} QuietCloseSteps(s: State, t: nat, c: Choice)
    requires Inv(s) && t < |s.pcs| && Step(s, t, c).Some?
    requires s.pcs[t].CloseLock? || s.pcs[t].CloseFind? || s.pcs[t].CloseUnlock? || s.pcs[t].CloseMiss?
    ensures PortInv(Step(s, t, c).value)
  {
    assert ThreadInv(s, t);
    QuietStep(s, Step(s, t, c).value, t);
  }

  lemma {:induction false} QuietCreateSteps(s: State, t: nat, c: Choice)
    requires Inv(s) && t < |s.pcs| && Step(s, t, c).Some?
    requires s.pcs[t].CreateLock? || s.pcs[t].CreateUnlock? || (s.pcs[t].Create? && c.OutOfMemory?)
    ensures PortInv(Step(s, t, c).value)
  {
    assert ThreadInv(s, t);
    QuietStep(s, Step(s, t, c).value, t);
  }

  /** A reference count that grows or shrinks without reaching the value that means "signal". */
  ghost predicate Recount(s: State, s': State, t: nat, p: Port, word: nat) {
    && Moves(s, s', t) && p in s.ports && s'.ports == s.ports[p := s.ports[p].(word := word)]
    && s'.tree == s.tree && s'.open == s.open && s'.crashed == s.crashed
    && (forall q | q != p :: Share(s'.pcs[t], q) == Share(s.pcs[t], q))
    && word == s.ports[p].word - Share(s.pcs[t], p) + Share(s'.pcs[t], p)
    && (forall q :: Owns(s'.pcs[t], q) ==> Owns(s.pcs[t], q))
    && (forall q :: Mentions(s'.pcs[t], q) ==> Mentions(s.pcs[t], q))
    && (forall q :: !Last(s'.pcs[t], q))
    && (Awaited(s, p) ==> s.ports[p].word != DESTROY && word != DESTROY)
    && Bystander(s.pcs[t]) && Bystander(s'.pcs[t])
  }

  lemma {:induction false} RecountStep(s: State, s': State, t: nat, p: Port, word: nat)
    requires PortInv(s) && Recount(s, s', t, p, word) && ThreadInv(s', t)
    ensures PortInv(s')
  {
    SumsKept(s, s', t);
    PairsKept(s, s', t);
    forall u | 0 <= u < |s'.pcs| && u != t ensures ThreadInv(s', u) {
      assert ThreadInv(s, u);
      RecountThread(s, s', t, u, p, word);
    }
  }

  lemma {:induction false} RecountThread(s: State, s': State, t: nat, u: nat, p: Port, word: nat)
    requires u < |s.pcs| && u != t && ThreadInv(s, u) && Recount(s, s', t, p, word)
    requires s.ports[p].word == Sum(s.pcs, p) && word == Sum(s'.pcs, p)
    requires forall q | q != p :: Sum(s'.pcs, q) == Sum(s.pcs, q)
    ensures ThreadInv(s', u)
  {
    if s.pcs[u].Signal? || s.pcs[u].Await? {
      assert s.pcs[u].Await? ==> Awaited(s, s.pcs[u].p);
      WaitersKept(s, s', t, s.pcs[u].p);
    }
  }

  /** Whoever else owns `p`, the word of `p` is below the destroy bit unless a destroyer waits. */
  lemma {:induction false} WordSmall(s: State, t: nat, p: Port)
    requires Inv(s) && t < |s.pcs| && p in s.ports && Share(s.pcs[t], p) <= 1
    requires forall u | 0 <= u < |s.pcs| && u != t :: s.pcs[u] != Await(p) && !Last(s.pcs[u], p)
    ensures s.ports[p].word - Share(s.pcs[t], p) < REF_LIMIT - 1
    ensures s.ports[p].word >= Share(s.pcs[t], p)
  {
    SumRoom(s, t, p);
    SumAtLeast(s.pcs, t, p);
  }

  lemma {:induction false} UseRefStep(s: State, t: nat, c: Choice)
    requires Inv(s) && t < |s.pcs| && s.pcs[t].UseRef?
    ensures PortInv(Step(s, t, c).value)
  {
    var p := s.pcs[t].p;
    assert ThreadInv(s, t);
    forall u | 0 <= u < |s.pcs| ensures s.pcs[u] != Await(p) && !Last(s.pcs[u], p) {
      assert ThreadInv(s, u);
    }
    WordSmall(s, t, p);
    RecountStep(s, Step(s, t, c).value, t, p, s.ports[p].word + 1);
  }

  lemma {:induction false} CloseRefStep(s: State, t: nat, c: Choice)
    requires Inv(s) && t < |s.pcs| && s.pcs[t].CloseRef?
    ensures PortInv(Step(s, t, c).value)
  {
    var p := s.pcs[t].p;
    assert ThreadInv(s, t) && Owns(s.pcs[t], p);
    forall u | 0 <= u < |s.pcs| ensures s.pcs[u] != Await(p) && !Last(s.pcs[u], p) {
      assert s.pcs[u] == Await(p) || Last(s.pcs[u], p) ==> Owns(s.pcs[u], p);
    }
    WordSmall(s, t, p);
    RecountStep(s, Step(s, t, c).value, t, p, s.ports[p].word + 1);
  }

  /** While a destroyer waits, the word is the destroy bit plus the references still held. */
  lemma {:induction false} WordAwaited(s: State, t: nat, u: nat, p: Port)
    requires Inv(s) && t < |s.pcs| && u < |s.pcs| && s.pcs[u] == Await(p) && p in s.ports && s.pcs[t] == Unref(p)
    ensures DESTROY < s.ports[p].word < 2 * DESTROY - 1
    ensures !Signalled(s, p)
  {
    assert ThreadInv(s, u) && Owns(s.pcs[u], p);
    forall v | 0 <= v < |s.pcs| && v != u ensures Share(s.pcs[v], p) <= 1 {
      assert Share(s.pcs[v], p) > 1 ==> Owns(s.pcs[v], p);
    }
    SumRoom(s, u, p);
    SumTwo(s.pcs, t, u, p);
  }

  lemma {:induction false} UnrefStep(s: State, t: nat, c: Choice)
    requires Inv(s) && t < |s.pcs| && s.pcs[t].Unref?
    ensures PortInv(Step(s, t, c).value)
  {
    var p := s.pcs[t].p;
    assert ThreadInv(s, t) && Mentions(s.pcs[t], p);
    var s' := Step(s, t, c).value;
    if u :| 0 <= u < |s.pcs| && s.pcs[u] == Await(p) {
      WordAwaited(s, t, u, p);
      if s.ports[p].word == DESTROY + 1 {
        LastUnrefStep(s, s', t, u, p);
      } else {
        RecountStep(s, s', t, p, s.ports[p].word - 1);
      }
    } else {
      WordSmall(s, t, p);
      RecountStep(s, s', t, p, s.ports[p].word - 1);
    }
  }

  /** The last reference goes away under a waiting destroyer: its holder will signal. */
  lemma {:induction false} LastUnrefStep(s: State, s': State, t: nat, u: nat, p: Port)
    requires Inv(s) && t < |s.pcs| && u < |s.pcs| && s.pcs[t] == Unref(p) && s.pcs[u] == Await(p)
    requires p in s.ports && s.ports[p].word == DESTROY + 1 && !Signalled(s, p)
    requires s' == s.(ports := s.ports[p := s.ports[p].(word := DESTROY)], pcs := s.pcs[t := Signal(p)])
    ensures PortInv(s')
  {
    SumsKept(s, s', t);
    PairsKept(s, s', t);
    forall v | 0 <= v < |s'.pcs| ensures ThreadInv(s', v) {
      assert ThreadInv(s, v);
      LastUnrefThread(s, s', t, u, v, p);
    }
  }

  lemma {:induction false} LastUnrefThread(s: State, s': State, t: nat, u: nat, v: nat, p: Port)
    requires t < |s.pcs| && u < |s.pcs| && v < |s.pcs| && s.pcs[t] == Unref(p) && s.pcs[u] == Await(p)
    requires p in s.ports && Sum(s'.pcs, p) == DESTROY && forall q | q != p :: Sum(s'.pcs, q) == Sum(s.pcs, q)
    requires s' == s.(ports := s.ports[p := s.ports[p].(word := DESTROY)], pcs := s.pcs[t := Signal(p)])
    requires ThreadInv(s, v) && OneOwner(s)
    ensures ThreadInv(s', v)
  {
    assert s'.pcs[t] == Signal(p) && s'.pcs[u] == Await(p);
    if v != t && (s.pcs[v].Await? || s.pcs[v].Signal?) {
      WaitersKept(s, s', t, s.pcs[v].p);
    }
  }

  /** The destroyer knows: nobody waits or signals yet, and the word counts references only. */
  lemma {:induction false} DestroyFacts(s: State, t: nat, p: Port)
    requires Inv(s) && t < |s.pcs| && s.pcs[t] == Destroy(p)
    ensures p in s.ports && 1 <= s.ports[p].word < REF_LIMIT && !Awaited(s, p) && !Signalled(s, p)
    ensures s.ports[p].word == 1 ==> forall u | 0 <= u < |s.pcs| && u != t :: !Mentions(s.pcs[u], p)
  {
    assert ThreadInv(s, t) && Owns(s.pcs[t], p);
    forall u | 0 <= u < |s.pcs| ensures s.pcs[u] != Await(p) && !Last(s.pcs[u], p) {
      assert s.pcs[u] == Await(p) || Last(s.pcs[u], p) ==> Owns(s.pcs[u], p);
    }
    forall u | 0 <= u < |s.pcs| ensures s.pcs[u] != Signal(p) {
      assert ThreadInv(s, u);
    }
    WordSmall(s, t, p);
    if s.ports[p].word == 1 {
      forall u | 0 <= u < |s.pcs| && u != t ensures !Mentions(s.pcs[u], p) {
        assert ThreadInv(s, u);
        SumTwo(s.pcs, t, u, p);
      }
    }
  }

  lemma {:induction false} DestroyStep(s: State, t: nat, c: Choice)
    requires Inv(s) && t < |s.pcs| && s.pcs[t].Destroy?
    ensures PortInv(Step(s, t, c).value)
  {
    var p := s.pcs[t].p;
    DestroyFacts(s, t, p);
    DestroyEffect(s, t, c);
    if s.ports[p].word == 1 {
      DestroyAlone(s, Step(s, t, c).value, t, p);
    } else {
      DestroyWaits(s, Step(s, t, c).value, t, p);
    }
  }

  lemma {:induction false} DestroyAlone(s: State, s': State, t: nat, p: Port)
    requires Inv(s) && t < |s.pcs| && s.pcs[t] == Destroy(p) && p in s.ports && s.ports[p].word == 1
    requires s' == s.(pcs := s.pcs[t := Exchange(p)], ports := s.ports[p := s.ports[p].(word := DESTROY)])
    requires !Signalled(s, p) && forall u | 0 <= u < |s.pcs| && u != t :: !Mentions(s.pcs[u], p)
    ensures PortInv(s')
  {
    assert ThreadInv(s, t);
    OwnerWrites(s, s', t, p, s.ports[p].(word := DESTROY));
  }

  lemma {:induction false} DestroyWaits(s: State, s': State, t: nat, p: Port)
    requires Inv(s) && t < |s.pcs| && s.pcs[t] == Destroy(p) && p in s.ports && 1 < s.ports[p].word < REF_LIMIT
    requires
      var cell := s.ports[p];
      s' == s.(pcs := s.pcs[t := Await(p)],
               ports := s.ports[p := cell.(word := cell.word + DESTROY - 1, awaits := cell.awaits + 1)])
    requires !Signalled(s, p)
    ensures PortInv(s')
  {
    assert ThreadInv(s, t);
    OwnerWrites(s, s', t, p, s'.ports[p]);
  }

  lemma {:induction false} DestroyEffect(s: State, t: nat, c: Choice)
    requires t < |s.pcs| && s.pcs[t].Destroy? && s.pcs[t].p in s.ports && 1 <= s.ports[s.pcs[t].p].word < REF_LIMIT
    ensures
      var p := s.pcs[t].p;
      var cell := s.ports[p].(word := s.ports[p].word + DESTROY - 1);
      Step(s, t, c) == Some(
        if s.ports[p].word == 1 then s.(pcs := s.pcs[t := Exchange(p)], ports := s.ports[p := cell])
        else s.(pcs := s.pcs[t := Await(p)], ports := s.ports[p := cell.(awaits := cell.awaits + 1)]))
  {
    var p := s.pcs[t].p;
    var cell := s.ports[p].(word := s.ports[p].word + DESTROY - 1);
    assert s.ports[p := cell][p := cell.(awaits := cell.awaits + 1)] == s.ports[p := cell.(awaits := cell.awaits + 1)];
  }

  /** The owner of `p` writes its cell and moves on; the others are not disturbed. */
  lemma {:induction false} OwnerWrites(s: State, s': State, t: nat, p: Port, cell: Cell)
    requires Inv(s) && Moves(s, s', t) && Owns(s.pcs[t], p) && Owns(s'.pcs[t], p) && p in s.ports
    requires s' == s.(pcs := s'.pcs, ports := s.ports[p := cell]) && cell.handle == s.ports[p].handle
    requires cell.word == s.ports[p].word - Share(s.pcs[t], p) + Share(s'.pcs[t], p)
    requires Bystander(s.pcs[t]) && !s'.pcs[t].Signal?
    requires OwnedClosed(s, p) && !Signalled(s, p)
    requires Last(s'.pcs[t], p) ==> forall u | 0 <= u < |s.pcs| && u != t :: !Mentions(s.pcs[u], p)
    requires match s'.pcs[t]
             case Await(_) => cell.awaits == 1 && cell.signals == 0 && cell.word != DESTROY
             case _ => Last(s'.pcs[t], p) && cell.awaits == cell.signals <= 1
    ensures PortInv(s')
  {
    hide Sum;
    SumsKept(s, s', t);
    PairsKept(s, s', t);
    forall v | 0 <= v < |s'.pcs| && v != t ensures ThreadInv(s', v) {
      assert ThreadInv(s, v) && (Owns(s.pcs[v], p) ==> v == t);
      OtherThread(s, s', t, v, p);
    }
    WaitersKept(s, s', t, p);
    assert ThreadInv(s', t);
  }

  /** What another thread knows does not depend on the cell of a port it does not own. */
  lemma {:induction false} OtherThread(s: State, s': State, t: nat, v: nat, p: Port)
    requires Moves(s, s', t) && v < |s.pcs| && v != t && ThreadInv(s, v) && !Owns(s.pcs[v], p)
    requires p in s.ports && p in s'.ports && s'.ports == s.ports[p := s'.ports[p]] && s'.ports[p].handle == s.ports[p].handle
    requires s'.tree == s.tree && s'.open == s.open
    requires Bystander(s.pcs[t]) && !s'.pcs[t].Signal? && (s'.pcs[t].Await? ==> s'.pcs[t].p == p)
    requires forall q | q != p :: Sum(s'.pcs, q) == Sum(s.pcs, q)
    ensures ThreadInv(s', v)
  {
    if s.pcs[v].Await? || s.pcs[v].Signal? {
      WaitersKept(s, s', t, s.pcs[v].p);
      if s'.pcs[t].Await? {
        assert Awaited(s', p);
      }
    }
  }

  lemma {:induction false} ExchangeStep(s: State, t: nat, c: Choice)
    requires Inv(s) && t < |s.pcs| && s.pcs[t].Exchange?
    ensures PortInv(Step(s, t, c).value)
  {
    var p := s.pcs[t].p;
    assert ThreadInv(s, t) && Last(s.pcs[t], p);
    ExchangeWord(s, t, p);
    forall u | 0 <= u < |s.pcs| && u != t ensures !Mentions(s.pcs[u], p) {
    }
    assert !Signalled(s, p);
    OwnerWrites(s, Step(s, t, c).value, t, p, s.ports[p].(word := POISON));
  }

  /** The final exchange sees exactly REFLOCK__DESTROY. */
  lemma {:induction false} ExchangeWord(s: State, t: nat, p: Port)
    requires Inv(s) && t < |s.pcs| && s.pcs[t] == Exchange(p)
    ensures p in s.ports && s.ports[p].word == DESTROY
  {
    assert ThreadInv(s, t) && Last(s.pcs[t], p);
    SumUpdate(s.pcs, t, Idle, p);
    var rest := s.pcs[t := Idle];
    forall u | 0 <= u < |rest| ensures Share(rest[u], p) == 0 {
      assert u != t ==> !Mentions(s.pcs[u], p);
    }
    SumZero(rest, p);
  }

  lemma {:induction false} SumZero(pcs: seq<Pc>, p: Port)
    requires forall t | 0 <= t < |pcs| :: Share(pcs[t], p) == 0
    ensures Sum(pcs, p) == 0
  {
    if pcs != [] {
      SumZero(pcs[1..], p);
    }
  }

  lemma {:induction false} SignalStep(s: State, t: nat, c: Choice)
    requires Inv(s) && t < |s.pcs| && s.pcs[t].Signal? && Step(s, t, c).Some?
    ensures PortInv(Step(s, t, c).value)
  {
    var p := s.pcs[t].p;
    var cell := s.ports[p].(signals := s.ports[p].signals + 1);
    Rendezvous(s, s.(pcs := s.pcs[t := Idle][c.waiter := Exchange(p)], ports := s.ports[p := cell]), t, c.waiter, p);
  }

  lemma {:induction false} Rendezvous(s: State, s': State, t: nat, u: nat, p: Port)
    requires Inv(s) && t < |s.pcs| && u < |s.pcs| && s.pcs[t] == Signal(p) && s.pcs[u] == Await(p) && p in s.ports
    requires s' == s.(pcs := s.pcs[t := Idle][u := Exchange(p)],
                      ports := s.ports[p := s.ports[p].(signals := s.ports[p].signals + 1)])
    ensures PortInv(s')
  {
    WaiterAlone(s, t, u, p);
    SignalPairs(s, s', t, u, p);
    RendezvousSums(s, s', t, u, p);
    RendezvousPorts(s, s', t, u, p);
    RendezvousThreads(s, s', t, u, p);
  }

  lemma {:induction false} RendezvousSums(s: State, s': State, t: nat, u: nat, p: Port)
    requires t < |s.pcs| && u < |s.pcs| && s.pcs[t] == Signal(p) && s.pcs[u] == Await(p)
    requires s'.pcs == s.pcs[t := Idle][u := Exchange(p)]
    ensures forall q :: Sum(s'.pcs, q) == Sum(s.pcs, q)
  {
    forall q ensures Sum(s'.pcs, q) == Sum(s.pcs, q) {
      SumUpdate(s.pcs, t, Idle, q);
      SumUpdate(s.pcs[t := Idle], u, Exchange(p), q);
    }
  }

  /** The port of a waiting destroyer is not in the tree, so nothing is said about its counters. */
  lemma {:induction false} RendezvousPorts(s: State, s': State, t: nat, u: nat, p: Port)
    requires Inv(s) && t < |s.pcs| && u < |s.pcs| && s.pcs[t] == Signal(p) && s.pcs[u] == Await(p) && p in s.ports
    requires s' == s.(pcs := s.pcs[t := Idle][u := Exchange(p)],
                      ports := s.ports[p := s.ports[p].(signals := s.ports[p].signals + 1)])
    requires forall q :: Sum(s'.pcs, q) == Sum(s.pcs, q)
    ensures TreeInv(s') && WordInv(s')
  {
    assert ThreadInv(s, u);
  }

  lemma {:induction false} RendezvousThreads(s: State, s': State, t: nat, u: nat, p: Port)
    requires Inv(s) && t < |s.pcs| && u < |s.pcs| && s.pcs[t] == Signal(p) && s.pcs[u] == Await(p) && p in s.ports
    requires s' == s.(pcs := s.pcs[t := Idle][u := Exchange(p)],
                      ports := s.ports[p := s.ports[p].(signals := s.ports[p].signals + 1)])
    requires forall q :: Sum(s'.pcs, q) == Sum(s.pcs, q)
    requires forall v | 0 <= v < |s.pcs| && v != t && v != u :: !Mentions(s.pcs[v], p)
    ensures forall v | 0 <= v < |s'.pcs| :: ThreadInv(s', v)
  {
    assert ThreadInv(s, u);
    forall v | 0 <= v < |s'.pcs| ensures ThreadInv(s', v) {
      assert ThreadInv(s, v);
      RendezvousThread(s, s', t, u, v, p);
    }
  }

  lemma {:induction false} RendezvousThread(s: State, s': State, t: nat, u: nat, v: nat, p: Port)
    requires t < |s.pcs| && u < |s.pcs| && v < |s.pcs| && s.pcs[t] == Signal(p) && s.pcs[u] == Await(p) && p in s.ports
    requires s' == s.(pcs := s.pcs[t := Idle][u := Exchange(p)],
                      ports := s.ports[p := s.ports[p].(signals := s.ports[p].signals + 1)])
    requires ThreadInv(s, v) && ThreadInv(s, u) && (v != t && v != u ==> !Mentions(s.pcs[v], p))
    requires forall q :: Sum(s'.pcs, q) == Sum(s.pcs, q)
    ensures ThreadInv(s', v)
  {
    assert forall w | 0 <= w < |s.pcs| && w != t && w != u :: s'.pcs[w] == s.pcs[w];
  }

  /** When a signal is due nobody but the waiter and the signaller can touch the port. */
  lemma {:induction false} WaiterAlone(s: State, t: nat, u: nat, p: Port)
    requires Inv(s) && t < |s.pcs| && u < |s.pcs| && s.pcs[t] == Signal(p) && s.pcs[u] == Await(p)
    ensures forall v | 0 <= v < |s.pcs| && v != t && v != u :: !Mentions(s.pcs[v], p)
  {
    assert ThreadInv(s, u) && Signalled(s, p) && Owns(s.pcs[u], p);
    forall v | 0 <= v < |s.pcs| && v != t && v != u ensures !Mentions(s.pcs[v], p) {
      assert ThreadInv(s, v);
      SumTwo(s.pcs, u, v, p);
    }
  }

  lemma {:induction false} SignalPairs(s: State, s': State, t: nat, u: nat, p: Port)
    requires Inv(s) && t < |s.pcs| && u < |s.pcs| && s.pcs[t] == Signal(p) && s.pcs[u] == Await(p)
    requires s'.pcs == s.pcs[t := Idle][u := Exchange(p)]
    requires forall v | 0 <= v < |s.pcs| && v != t && v != u :: !Mentions(s.pcs[v], p)
    ensures Pairs(s')
  {
  }

  // ----- steps that change the tree, the set of open handles, or the memory -----

  lemma {:induction false} CloseDelStep(s: State, t: nat, c: Choice)
    requires Inv(s) && t < |s.pcs| && s.pcs[t].CloseDel?
    ensures PortInv(Step(s, t, c).value)
  {
    var h, p := s.pcs[t].h, s.pcs[t].p;
    assert ThreadInv(s, t);
    var s' := s.(tree := s.tree - {h}, pcs := s.pcs[t := CloseRef(p)]);
    assert InTree(s, p) && Step(s, t, c).value == s';
    forall u | 0 <= u < |s.pcs| ensures !Owns(s.pcs[u], p) && s.pcs[u] != UseRef(p) {
      assert ThreadInv(s, u);
    }
    SumsKept(s, s', t);
    PairsKept(s, s', t);
    forall v | 0 <= v < |s'.pcs| && v != t ensures ThreadInv(s', v) {
      assert ThreadInv(s, v);
      if !Bystander(s.pcs[v]) {
        WaitersKept(s, s', t, s.pcs[v].p);
      }
    }
  }

  lemma {:induction false} ClosePortStep(s: State, s': State, t: nat, p: Port)
    requires Inv(s) && t < |s.pcs| && s.pcs[t] == ClosePort(p) && p in s.ports
    requires s' == s.(open := s.open - {s.ports[p].handle}, pcs := s.pcs[t := Destroy(p)])
    ensures PortInv(s')
  {
    hide Sum;
    assert ThreadInv(s, t) && Owns(s.pcs[t], p);
    SumsKept(s, s', t);
    PairsKept(s, s', t);
    forall v | 0 <= v < |s'.pcs| && v != t ensures ThreadInv(s', v) {
      assert ThreadInv(s, v) && !Owns(s.pcs[v], p);
      WaitersOf(s, s', t, v);
    }
  }

  lemma {:induction false} WaitersOf(s: State, s': State, t: nat, v: nat)
    requires Moves(s, s', t) && Bystander(s.pcs[t]) && Bystander(s'.pcs[t]) && v < |s.pcs|
    ensures s.pcs[v].Await? || s.pcs[v].Signal? ==>
      var p := s.pcs[v].p;
      (Awaited(s, p) <==> Awaited(s', p)) && (Signalled(s, p) <==> Signalled(s', p))
  {
    if !Bystander(s.pcs[v]) {
      WaitersKept(s, s', t, s.pcs[v].p);
    }
  }

  lemma {:induction false} CreateAddStep(s: State, s': State, t: nat, h: Handle, p: Port)
    requires Inv(s) && t < |s.pcs| && s.pcs[t] == CreateAdd(h, p)
    requires s' == s.(tree := s.tree[h := p], pcs := s.pcs[t := CreateUnlock])
    ensures PortInv(s')
  {
    assert ThreadInv(s, t) && Owns(s.pcs[t], p) && h !in s.tree;
    SumsKept(s, s', t);
    PairsKept(s, s', t);
    forall v | 0 <= v < |s'.pcs| && v != t ensures ThreadInv(s', v) {
      assert ThreadInv(s, v) && !Owns(s.pcs[v], p);
      WaitersOf(s, s', t, v);
    }
  }

  /** ts_tree_add never finds the handle of a fresh port in the tree. */
  lemma {:induction false} FreshHandle(s: State, t: nat)
    requires Inv(s) && t < |s.pcs| && (s.pcs[t].CreateLock? || s.pcs[t].CreateAdd?)
    ensures s.pcs[t].h !in s.tree && s.pcs[t].p in s.ports
  {
    assert ThreadInv(s, t);
  }

  lemma {:induction false} DeleteStep(s: State, s': State, t: nat, p: Port)
    requires Inv(s) && t < |s.pcs| && s.pcs[t] == Delete(p)
    requires s' == s.(ports := s.ports - {p}, pcs := s.pcs[t := Idle])
    ensures PortInv(s')
  {
    hide Sum;
    assert ThreadInv(s, t) && Last(s.pcs[t], p);
    SumsKept(s, s', t);
    PairsKept(s, s', t);
    forall v | 0 <= v < |s'.pcs| && v != t ensures ThreadInv(s', v) {
      assert ThreadInv(s, v) && !Mentions(s.pcs[v], p);
      WaitersOf(s, s', t, v);
    }
  }

  lemma {:induction false} CreateFresh(s: State, s': State, t: nat, h: Handle, p: Port)
    requires Inv(s) && t < |s.pcs| && s.pcs[t] == Create && p !in s.ports && h !in s.open
    requires s' == s.(ports := s.ports[p := Cell(0, h, 0, 0)], open := s.open[h := p], pcs := s.pcs[t := CreateLock(h, p)])
    ensures PortInv(s')
  {
    FreshPort(s, p);
    SumsKept(s, s', t);
    PairsKept(s, s', t);
    CreateThreads(s, s', t, h, p);
  }

  lemma {:induction false} CreateThreads(s: State, s': State, t: nat, h: Handle, p: Port)
    requires Inv(s) && t < |s.pcs| && s.pcs[t] == Create && p !in s.ports && h !in s.open
    requires s' == s.(ports := s.ports[p := Cell(0, h, 0, 0)], open := s.open[h := p], pcs := s.pcs[t := CreateLock(h, p)])
    requires forall q | q != p :: Sum(s'.pcs, q) == Sum(s.pcs, q)
    requires forall u | 0 <= u < |s.pcs| :: !Mentions(s.pcs[u], p)
    ensures forall v | 0 <= v < |s'.pcs| :: ThreadInv(s', v)
  {
    forall v | 0 <= v < |s'.pcs| && v != t ensures ThreadInv(s', v) {
      assert ThreadInv(s, v);
      CreateThread(s, s', t, v, h, p);
    }
    assert !InTree(s', p);
  }

  lemma {:induction false} CreateThread(s: State, s': State, t: nat, v: nat, h: Handle, p: Port)
    requires t < |s.pcs| && v < |s.pcs| && v != t && p !in s.ports && h !in s.open
    requires s' == s.(ports := s.ports[p := Cell(0, h, 0, 0)], open := s.open[h := p], pcs := s.pcs[t := CreateLock(h, p)])
    requires s.pcs[t] == Create && ThreadInv(s, v) && !Mentions(s.pcs[v], p)
    requires forall q | q != p :: Sum(s'.pcs, q) == Sum(s.pcs, q)
    ensures ThreadInv(s', v)
  {
    WaitersOf(s, s', t, v);
  }


  /** Nobody holds on to memory that is not allocated. */
  lemma {:induction false} FreshPort(s: State, p: Port)
    requires Inv(s) && p !in s.ports
    ensures forall u | 0 <= u < |s.pcs| :: !Mentions(s.pcs[u], p)
    ensures Sum(s.pcs, p) == 0
  {
    forall u | 0 <= u < |s.pcs| ensures !Mentions(s.pcs[u], p) && Share(s.pcs[u], p) == 0 {
      assert ThreadInv(s, u);
    }
    SumZero(s.pcs, p);
  }

  lemma {:induction false} OwnerSteps(s: State, t: nat, c: Choice)
    requires Inv(s) && t < |s.pcs| && Step(s, t, c).Some?
    requires s.pcs[t].ClosePort? || s.pcs[t].CreateAdd? || s.pcs[t].Delete? || (s.pcs[t].Create? && c.Fresh?)
    ensures PortInv(Step(s, t, c).value)
  {
    var s' := Step(s, t, c).value;
    assert ThreadInv(s, t);
    match s.pcs[t]
    case ClosePort(p) => ClosePortStep(s, s', t, p);
    case CreateAdd(h, p) => FreshHandle(s, t); CreateAddStep(s, s', t, h, p);
    case Delete(p) => DeleteStep(s, s', t, p);
    case Create => CreateFresh(s, s', t, c.h, c.p);
  }

  lemma {:induction false} StepInv(s: State, t: nat, c: Choice)
    requires Inv(s) && t < |s.pcs| && Step(s, t, c).Some?
    ensures Inv(Step(s, t, c).value)
  {
    LocksStep(s, t, c);
    var pc := s.pcs[t];
    if pc.UseRef? { UseRefStep(s, t, c); }
    else if pc.Unref? { UnrefStep(s, t, c); }
    else if pc.Signal? { SignalStep(s, t, c); }
    else if pc.CloseDel? { CloseDelStep(s, t, c); }
    else if pc.CloseRef? { CloseRefStep(s, t, c); }
    else if pc.Destroy? { DestroyStep(s, t, c); }
    else if pc.Exchange? { ExchangeStep(s, t, c); }
    else if pc.ClosePort? || pc.CreateAdd? || pc.Delete? || (pc.Create? && c.Fresh?) { OwnerSteps(s, t, c); }
    else if UsePc(pc) { QuietSteps(s, t, c); }
    else if CreatePc(pc) { QuietCreateSteps(s, t, c); }
    else { QuietCloseSteps(s, t, c); }
  }

  lemma {:induction false} LocksMoved(s: State, s': State, t: nat)
    requires LocksHeld(s) && Moves(s, s', t)
    requires ReaderPc(s'.pcs[t]) ==> ReaderPc(s.pcs[t]) || NoWriter(s)
    requires WriterPc(s'.pcs[t]) ==> WriterPc(s.pcs[t]) || (NoWriter(s) && NoReader(s))
    ensures LocksHeld(s')
  {
    assert forall u | 0 <= u < |s.pcs| && u != t :: s'.pcs[u] == s.pcs[u];
  }

  lemma {:induction false} UseLocks(s: State, t: nat, c: Choice)
    requires LocksHeld(s) && t < |s.pcs| && UsePc(s.pcs[t]) && !s.pcs[t].Signal? && UseStep(s, t, c).Some?
    ensures LocksHeld(UseStep(s, t, c).value) && |UseStep(s, t, c).value.pcs| == |s.pcs|
  {
    LocksMoved(s, UseStep(s, t, c).value, t);
  }

  lemma {:induction false} SignalLocks(s: State, t: nat, c: Choice)
    requires LocksHeld(s) && t < |s.pcs| && s.pcs[t].Signal? && UseStep(s, t, c).Some?
    ensures LocksHeld(UseStep(s, t, c).value) && |UseStep(s, t, c).value.pcs| == |s.pcs|
  {
    var s1, s' := To(s, t, Idle), UseStep(s, t, c).value;
    LocksMoved(s, s1, t);
    assert s'.pcs == s1.pcs[c.waiter := Exchange(s.pcs[t].p)];
    LocksMoved(s1, s', c.waiter);
  }

  lemma {:induction false} CloseLocks(s: State, t: nat, c: Choice)
    requires LocksHeld(s) && t < |s.pcs| && !UsePc(s.pcs[t]) && !CreatePc(s.pcs[t]) && CloseStep(s, t, c).Some?
    ensures LocksHeld(CloseStep(s, t, c).value) && |CloseStep(s, t, c).value.pcs| == |s.pcs|
  {
    hide InterlockedAdd;
    LocksMoved(s, CloseStep(s, t, c).value, t);
  }

  lemma {:induction false} CreateLocks(s: State, t: nat, c: Choice)
    requires LocksHeld(s) && t < |s.pcs| && CreatePc(s.pcs[t]) && CreateStep(s, t, c).Some?
    ensures LocksHeld(CreateStep(s, t, c).value) && |CreateStep(s, t, c).value.pcs| == |s.pcs|
  {
    LocksMoved(s, CreateStep(s, t, c).value, t);
  }

  lemma {:induction false} LocksStep(s: State, t: nat, c: Choice)
    requires LocksHeld(s) && t < |s.pcs| && Step(s, t, c).Some?
    ensures LocksHeld(Step(s, t, c).value) && |Step(s, t, c).value.pcs| == |s.pcs|
  {
    if s.pcs[t].Signal? { SignalLocks(s, t, c); }
    else if UsePc(s.pcs[t]) { UseLocks(s, t, c); }
    else if CreatePc(s.pcs[t]) { CreateLocks(s, t, c); }
    else { CloseLocks(s, t, c); }
  }

  // ----- whole runs -----

  type Run = seq<(nat, Choice)>

  function Exec(s: State, run: Run): Option<State>
    decreases |run|
  {
    if run == [] then Some(s)
    else if run[0].0 >= |s.pcs| then None
    else match Step(s, run[0].0, run[0].1)
      case None => None
      case Some(s') => Exec(s', run[1..])
  }

  lemma {:induction false} ExecInv(s: State, run: Run)
    requires Inv(s) && Exec(s, run).Some?
    ensures Inv(Exec(s, run).value)
    decreases |run|
  {
    if run != [] {
      StepInv(s, run[0].0, run[0].1);
      ExecInv(Step(s, run[0].0, run[0].1).value, run[1..]);
    }
  }

  /** In every interleaving: no assert fails and no freed port is touched; references are only
      taken while the port is in the tree; a destroyer that has passed the wait is alone with the
      port, its final exchange sees REFLOCK__DESTROY, and it was signalled once if and only if it
      waited. */
  lemma {:induction false} EveryRun(threads: nat, run: Run, s: State)
    requires threads < REF_LIMIT && Exec(Init(threads), run) == Some(s)
    ensures !s.crashed
    ensures forall t | 0 <= t < |s.pcs| && s.pcs[t].UseRef? :: InTree(s, s.pcs[t].p)
    ensures forall t, p | 0 <= t < |s.pcs| && Last(s.pcs[t], p) ::
      && p in s.ports && s.ports[p].signals == s.ports[p].awaits <= 1
      && forall u | 0 <= u < |s.pcs| && u != t :: !Mentions(s.pcs[u], p)
    ensures forall t | 0 <= t < |s.pcs| && s.pcs[t].Exchange? :: Word(s, s.pcs[t].p) == DESTROY
  {
    InitInv(threads);
    ExecInv(Init(threads), run);
    forall t | 0 <= t < |s.pcs| && s.pcs[t].UseRef? ensures InTree(s, s.pcs[t].p) {
      assert ThreadInv(s, t);
    }
    forall t, p | 0 <= t < |s.pcs| && Last(s.pcs[t], p)
      ensures p in s.ports && s.ports[p].signals == s.ports[p].awaits <= 1
    {
      assert ThreadInv(s, t);
    }
    forall t | 0 <= t < |s.pcs| && s.pcs[t].Exchange? ensures Word(s, s.pcs[t].p) == DESTROY {
      ExchangeWord(s, t, s.pcs[t].p);
    }
  }

  // ----- nobody gets stuck -----

  /** How many steps a call may still take, unless a packet makes it go round once more. */
  function Rank(pc: Pc): nat {
    match pc
    case Idle => 0
    case UseLock(_) => 8
    case UseFind(_) => 7
    case UseRef(_) => 6
    case UseUnlock(_) => 5
    case UseMiss => 1
    case Using(_) => 4
    case Waiting(_) => 3
    case Unref(_) => 2
    case Signal(_) => 1
    case CloseLock(_) => 10
    case CloseFind(_) => 9
    case CloseDel(_, _) => 8
    case CloseRef(_) => 7
    case CloseUnlock(_) => 6
    case CloseMiss => 1
    case ClosePort(_) => 5
    case Destroy(_) => 4
    case Await(_) => 3
    case Exchange(_) => 2
    case Delete(_) => 1
    case Create => 4
    case CreateLock(_, _) => 3
    case CreateAdd(_, _) => 2
    case CreateUnlock => 1
  }

  function Work(pcs: seq<Pc>): nat {
    if pcs == [] then 0 else Rank(pcs[0]) + Work(pcs[1..])
  }

  lemma {:induction false} WorkUpdate(pcs: seq<Pc>, t: nat, pc: Pc)
    requires t < |pcs|
    ensures Work(pcs[t := pc]) == Work(pcs) - Rank(pcs[t]) + Rank(pc)
  {
    if t == 0 {
      assert pcs[t := pc][1..] == pcs[1..];
    } else {
      assert pcs[t := pc][1..] == pcs[1..][t - 1 := pc];
      WorkUpdate(pcs[1..], t - 1, pc);
    }
  }

  lemma {:induction false} WorkShrinks(s: State, t: nat, c: Choice)
    requires t < |s.pcs| && s.pcs[t] != Idle && Step(s, t, c).Some?
    ensures Work(Step(s, t, c).value.pcs) < Work(s.pcs) + if c.Packet? then 2 else 0
  {
    if s.pcs[t].Signal? {
      SignalShrinks(s, t, c);
    } else {
      OneMoves(s, t, c);
      WorkUpdate(s.pcs, t, Step(s, t, c).value.pcs[t]);
    }
  }

  lemma {:induction false} SignalShrinks(s: State, t: nat, c: Choice)
    requires t < |s.pcs| && s.pcs[t].Signal? && UseStep(s, t, c).Some?
    ensures Work(UseStep(s, t, c).value.pcs) < Work(s.pcs)
  {
    var p := s.pcs[t].p;
    WorkUpdate(s.pcs, t, Idle);
    WorkUpdate(s.pcs[t := Idle], c.waiter, Exchange(p));
    assert UseStep(s, t, c).value.pcs == s.pcs[t := Idle][c.waiter := Exchange(p)];
  }

  lemma {:induction false} OneMoves(s: State, t: nat, c: Choice)
    requires t < |s.pcs| && s.pcs[t] != Idle && !s.pcs[t].Signal? && Step(s, t, c).Some?
    ensures Moves(s, Step(s, t, c).value, t)
    ensures Rank(Step(s, t, c).value.pcs[t]) < Rank(s.pcs[t]) + if c.Packet? then 2 else 0
  {
    if UsePc(s.pcs[t]) { UseMoves(s, t, c); }
    else if CreatePc(s.pcs[t]) { CreateMoves(s, t, c); }
    else { CloseMoves(s, t, c); }
  }

  lemma {:induction false} UseMoves(s: State, t: nat, c: Choice)
    requires t < |s.pcs| && UsePc(s.pcs[t]) && !s.pcs[t].Idle? && !s.pcs[t].Signal? && UseStep(s, t, c).Some?
    ensures Moves(s, UseStep(s, t, c).value, t)
    ensures Rank(UseStep(s, t, c).value.pcs[t]) < Rank(s.pcs[t]) + if c.Packet? then 2 else 0
  {
  }

  lemma {:induction false} CloseMoves(s: State, t: nat, c: Choice)
    requires t < |s.pcs| && !UsePc(s.pcs[t]) && !CreatePc(s.pcs[t]) && CloseStep(s, t, c).Some?
    ensures Moves(s, CloseStep(s, t, c).value, t) && Rank(CloseStep(s, t, c).value.pcs[t]) < Rank(s.pcs[t])
  {
    if WriterPc(s.pcs[t]) || s.pcs[t].CloseLock? { LockedMoves(s, t, c); } else { LastMoves(s, t, c); }
  }

  lemma {:induction false} LockedMoves(s: State, t: nat, c: Choice)
    requires t < |s.pcs| && !CreatePc(s.pcs[t]) && (WriterPc(s.pcs[t]) || s.pcs[t].CloseLock?) && CloseStep(s, t, c).Some?
    ensures Moves(s, CloseStep(s, t, c).value, t) && Rank(CloseStep(s, t, c).value.pcs[t]) < Rank(s.pcs[t])
  {
  }

  lemma {:induction false} LastMoves(s: State, t: nat, c: Choice)
    requires t < |s.pcs| && (s.pcs[t].ClosePort? || s.pcs[t].Destroy? || s.pcs[t].Exchange? || s.pcs[t].Delete?)
    requires CloseStep(s, t, c).Some?
    ensures Moves(s, CloseStep(s, t, c).value, t) && Rank(CloseStep(s, t, c).value.pcs[t]) < Rank(s.pcs[t])
  {
  }

  lemma {:induction false} CreateMoves(s: State, t: nat, c: Choice)
    requires t < |s.pcs| && CreatePc(s.pcs[t]) && CreateStep(s, t, c).Some?
    ensures Moves(s, CreateStep(s, t, c).value, t) && Rank(CreateStep(s, t, c).value.pcs[t]) < Rank(s.pcs[t])
  {
  }

  /** How many packets, time-outs included, the threads take from the completion ports. */
  function Packets(run: Run): nat {
    if run == [] then 0 else Packets(run[1..]) + if run[0].1.Packet? then 1 else 0
  }

  /** Without new calls every run is over after `Work` steps and two for each packet, whatever the scheduler does. */
  lemma {:induction false} BoundedRun(s: State, run: Run)
    requires Exec(s, run).Some? && NoNewCalls(s, run)
    ensures |run| <= Work(s.pcs) + 2 * Packets(run)
    decreases |run|
  {
    if run != [] {
      WorkShrinks(s, run[0].0, run[0].1);
      BoundedRun(Step(s, run[0].0, run[0].1).value, run[1..]);
    }
  }

  predicate NoNewCalls(s: State, run: Run)
    requires Exec(s, run).Some?
    decreases |run|
  {
    run != [] ==> s.pcs[run[0].0] != Idle && NoNewCalls(Step(s, run[0].0, run[0].1).value, run[1..])
  }

  /** Program points at which a thread may have to wait for others. */
  predicate MayBlock(pc: Pc) {
    pc.Idle? || pc.UseLock? || pc.Waiting? || pc.CloseLock? || pc.CreateLock? || pc.Await? || pc.Signal?
  }

  /** Not in a call, or waiting for events of a port that is open, and then only a packet or a time-out helps. */
  predicate Resting(s: State, t: nat)
    requires t < |s.pcs|
  {
    match s.pcs[t]
    case Idle => true
    case Waiting(p) => IsOpen(s, p)
    case _ => false
  }

  /** As long as a call is under way that does not wait for events, some call can move without any packet. */
  lemma {:induction false} NeverStuck(s: State, busy: nat) returns (t: nat, c: Choice)
    requires Inv(s) && busy < |s.pcs| && !Resting(s, busy)
    ensures t < |s.pcs| && s.pcs[t] != Idle && !c.Packet? && Step(s, t, c).Some?
  {
    t, c := busy, OutOfMemory;
    if s.pcs[t].Await? {
      t := WaiterHasMover(s, t);
    }
    if s.pcs[t].Signal? {
      c := WaiterToMeet(s, t);
    } else if MayBlock(s.pcs[t]) && !s.pcs[t].Waiting? {
      if u :| 0 <= u < |s.pcs| && (ReaderPc(s.pcs[u]) || WriterPc(s.pcs[u])) {
        t := u;
      }
    }
    MovesOn(s, t, c);
  }

  lemma {:induction false} WaiterToMeet(s: State, t: nat) returns (c: Choice)
    requires Inv(s) && t < |s.pcs| && s.pcs[t].Signal?
    ensures c.Meet? && Step(s, t, c).Some?
  {
    assert ThreadInv(s, t);
    var w :| 0 <= w < |s.pcs| && s.pcs[w] == Await(s.pcs[t].p);
    c := Meet(w);
  }

  /** A thread that nobody keeps out of a lock, and that waits neither for a signal nor for a packet, moves on. */
  lemma {:induction false} MovesOn(s: State, t: nat, c: Choice)
    requires t < |s.pcs| && !Resting(s, t) && !s.pcs[t].Await?
    requires s.pcs[t].Signal? ==> Step(s, t, c).Some?
    requires !s.pcs[t].Signal? ==> c.OutOfMemory?
    requires s.pcs[t].UseLock? || s.pcs[t].CloseLock? || s.pcs[t].CreateLock? ==> NoReader(s) && NoWriter(s)
    ensures Step(s, t, c).Some?
  {
  }

  /** A destroyer that waits is owed a signal, or a reference that somebody still holds. */
  lemma {:induction false} WaiterHasMover(s: State, u: nat) returns (v: nat)
    requires Inv(s) && u < |s.pcs| && s.pcs[u].Await?
    ensures v < |s.pcs| && !Resting(s, v)
    ensures s.pcs[v] == Signal(s.pcs[u].p) || s.pcs[v] == Waiting(s.pcs[u].p) || !MayBlock(s.pcs[v])
  {
    var p := s.pcs[u].p;
    assert ThreadInv(s, u) && Owns(s.pcs[u], p);
    if Signalled(s, p) {
      v :| 0 <= v < |s.pcs| && s.pcs[v] == Signal(p);
    } else {
      SumUpdate(s.pcs, u, Idle, p);
      SumAtLeast(s.pcs, u, p);
      v := ShareHolder(s.pcs[u := Idle], p);
      OtherDoesNotOwn(s, u, v, p);
    }
  }

  lemma {:induction false} OtherDoesNotOwn(s: State, u: nat, v: nat, p: Port)
    requires OneOwner(s) && u < |s.pcs| && v < |s.pcs| && u != v && Owns(s.pcs[u], p)
    ensures !Owns(s.pcs[v], p)
  {
  }

  lemma {:induction false} ShareHolder(pcs: seq<Pc>, p: Port) returns (v: nat)
    requires Sum(pcs, p) > 0
    ensures v < |pcs| && Share(pcs[v], p) > 0
  {
    if Share(pcs[0], p) > 0 {
      v := 0;
    } else {
      v := ShareHolder(pcs[1..], p);
      v := v + 1;
    }
  }

  ghost predicate AllRest(s: State) {
    forall t | 0 <= t < |s.pcs| :: Resting(s, t)
  }

  lemma {:induction false} ExecStep(s: State, t: nat, c: Choice, run: Run)
    requires t < |s.pcs| && s.pcs[t] != Idle && Step(s, t, c).Some?
    requires Exec(Step(s, t, c).value, run).Some? && NoNewCalls(Step(s, t, c).value, run)
    ensures Exec(s, [(t, c)] + run) == Exec(Step(s, t, c).value, run) && NoNewCalls(s, [(t, c)] + run)
    ensures Packets([(t, c)] + run) == Packets(run) + if c.Packet? then 1 else 0
  {
    assert ([(t, c)] + run)[1..] == run;
  }

  /**
   * From every reachable state the calls that are under way can be brought to their end, epoll_close among them,
   * without any packet: only threads that wait for events of an open port stay where they are.
   */
  lemma {:induction false} Quiesce(s: State) returns (run: Run)
    requires Inv(s)
    ensures Exec(s, run).Some? && NoNewCalls(s, run) && Packets(run) == 0 && AllRest(Exec(s, run).value)
    decreases Work(s.pcs)
  {
    if AllRest(s) {
      run := [];
    } else {
      var busy :| 0 <= busy < |s.pcs| && !Resting(s, busy);
      var t, c := NeverStuck(s, busy);
      StepInv(s, t, c);
      WorkShrinks(s, t, c);
      run := Quiesce(Step(s, t, c).value);
      ExecStep(s, t, c, run);
      run := [(t, c)] + run;
    }
  }

  // ----- what the protocol does not promise -----

  lemma {:induction false} ExecThen(s: State, run: Run, t: nat, c: Choice)
    requires Exec(s, run).Some? && t < |Exec(s, run).value.pcs|
    ensures Exec(s, run + [(t, c)]) == Step(Exec(s, run).value, t, c)
    decreases |run|
  {
    if run == [] {
      assert run + [(t, c)] == [(t, c)];
      assert [(t, c)][1..] == [];
    } else {
      ExecThen(Step(s, run[0].0, run[0].1).value, run[1..], t, c);
      assert (run + [(t, c)])[1..] == run[1..] + [(t, c)];
    }
  }

  /** Two threads, and what they have made so far. */
  function Two(a: Pc, b: Pc, ports: map<Port, Cell>, tree: map<Handle, Port>, open: map<Handle, Port>): State {
    State([a, b], ports, tree, open, false)
  }

  ghost predicate Reached(s: State) {
    exists run: Run :: Exec(Init(2), run) == Some(s)
  }

  lemma {:induction false} ThenStep(s: State, t: nat, c: Choice, s': State)
    requires Reached(s) && t < |s.pcs| && Step(s, t, c).Some?
    requires
      var r := Step(s, t, c).value;
      r.pcs == s'.pcs && r.ports == s'.ports && r.tree == s'.tree && r.open == s'.open && r.crashed == s'.crashed
    ensures Reached(s')
  {
    var run: Run :| Exec(Init(2), run) == Some(s);
    ExecThen(Init(2), run, t, c);
  }

  lemma {:induction false} MakePort(h: Handle, p: Port)
    ensures Reached(Two(CreateLock(h, p), Idle, map[p := Cell(0, h, 0, 0)], map[], map[h := p]))
  {
    assert Exec(Init(2), []) == Some(Init(2));
    assert Init(2) == Two(Idle, Idle, map[], map[], map[]);
    var ports, open := map[p := Cell(0, h, 0, 0)], map[h := p];
    ThenStep(Two(Idle, Idle, map[], map[], map[]), 0, Call(Create), Two(Create, Idle, map[], map[], map[]));
    ThenStep(Two(Create, Idle, map[], map[], map[]), 0, Fresh(h, p), Two(CreateLock(h, p), Idle, ports, map[], open));
  }

  /** One thread opens port `p` under handle `h`. */
  lemma {:induction false} OpenPort(h: Handle, p: Port)
    ensures Reached(Two(Idle, Idle, map[p := Cell(0, h, 0, 0)], map[h := p], map[h := p]))
  {
    hide Exec;
    MakePort(h, p);
    var ports, open := map[p := Cell(0, h, 0, 0)], map[h := p];
    ThenStep(Two(CreateLock(h, p), Idle, ports, map[], open), 0, Go, Two(CreateAdd(h, p), Idle, ports, map[], open));
    ThenStep(Two(CreateAdd(h, p), Idle, ports, map[], open), 0, Go, Two(CreateUnlock, Idle, ports, open, open));
    ThenStep(Two(CreateUnlock, Idle, ports, open, open), 0, Go, Two(Idle, Idle, ports, open, open));
  }

  /** Another thread finds it. */
  lemma {:induction false} UsePort(h: Handle, p: Port)
    ensures Reached(Two(Idle, Using(p), map[p := Cell(REF, h, 0, 0)], map[h := p], map[h := p]))
  {
    hide Exec;
    OpenPort(h, p);
    var ports, open := map[p := Cell(0, h, 0, 0)], map[h := p];
    var used := map[p := Cell(REF, h, 0, 0)];
    ThenStep(Two(Idle, Idle, ports, open, open), 1, Call(UseLock(h)), Two(Idle, UseLock(h), ports, open, open));
    ThenStep(Two(Idle, UseLock(h), ports, open, open), 1, Go, Two(Idle, UseFind(h), ports, open, open));
    ThenStep(Two(Idle, UseFind(h), ports, open, open), 1, Go, Two(Idle, UseRef(p), ports, open, open));
    ThenStep(Two(Idle, UseRef(p), ports, open, open), 1, Go, Two(Idle, UseUnlock(p), used, open, open));
    ThenStep(Two(Idle, UseUnlock(p), used, open, open), 1, Go, Two(Idle, Using(p), used, open, open));
  }

  lemma {:induction false} ClosePortLock(h: Handle, p: Port)
    ensures Reached(Two(CloseFind(h), Using(p), map[p := Cell(REF, h, 0, 0)], map[h := p], map[h := p]))
  {
    UsePort(h, p);
    var one, open := map[p := Cell(REF, h, 0, 0)], map[h := p];
    ThenStep(Two(Idle, Using(p), one, open, open), 0, Call(CloseLock(h)), Two(CloseLock(h), Using(p), one, open, open));
    ThenStep(Two(CloseLock(h), Using(p), one, open, open), 0, Go, Two(CloseFind(h), Using(p), one, open, open));
  }

  lemma {:induction false} ClosePortFind(h: Handle, p: Port)
    ensures Reached(Two(CloseDel(h, p), Using(p), map[p := Cell(REF, h, 0, 0)], map[h := p], map[h := p]))
  {
    ClosePortLock(h, p);
    var one, open := map[p := Cell(REF, h, 0, 0)], map[h := p];
    ThenStep(Two(CloseFind(h), Using(p), one, open, open), 0, Go, Two(CloseDel(h, p), Using(p), one, open, open));
  }

  /** The first thread takes it out of the tree while the other is using it. */
  lemma {:induction false} ClosePortRef(h: Handle, p: Port)
    ensures Reached(Two(CloseUnlock(p), Using(p), map[p := Cell(2 * REF, h, 0, 0)], map[], map[h := p]))
  {
    ClosePortFind(h, p);
    var one, two, open := map[p := Cell(REF, h, 0, 0)], map[p := Cell(2 * REF, h, 0, 0)], map[h := p];
    ThenStep(Two(CloseDel(h, p), Using(p), one, open, open), 0, Go, Two(CloseRef(p), Using(p), one, map[], open));
    ThenStep(Two(CloseRef(p), Using(p), one, map[], open), 0, Go, Two(CloseUnlock(p), Using(p), two, map[], open));
  }

  /**
   * A thread can still be inside epoll_ctl or epoll_wait when epoll_close has closed the completion port:
   * only the memory is protected until it leaves.
   */
  lemma {:induction false} UseAfterPortClose(h: Handle, p: Port)
    ensures Reached(Two(Destroy(p), Using(p), map[p := Cell(2 * REF, h, 0, 0)], map[], map[]))
  {
    ClosePortRef(h, p);
    var two, open := map[p := Cell(2 * REF, h, 0, 0)], map[h := p];
    ThenStep(Two(CloseUnlock(p), Using(p), two, map[], open), 0, Go, Two(ClosePort(p), Using(p), two, map[], open));
    ThenStep(Two(ClosePort(p), Using(p), two, map[], open), 0, Go, Two(Destroy(p), Using(p), two, map[], map[]));
  }
}
