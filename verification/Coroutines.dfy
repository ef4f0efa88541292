/** Stackful coroutines of one thread: who runs, who waits for whom, and the byte storage of each. */
module Coroutines {
  import opened Wrappers

  datatype CoState = Dead | Normal | Running | Suspended

  datatype Result =
    Success | InvalidPointer | InvalidCoroutine | NotSuspended | NotRunning | InvalidOperation | NotEnoughSpace | StackOverflow

  type Byte = b: int | 0 <= b < 256

  class Coro {
    var state: CoState
    var prevCo: Coro?
    var bytesStored: nat
    const storage: array<Byte>

    /** mco_init */
    constructor (storageSize: nat)
      ensures state == Suspended && prevCo == null && bytesStored == 0
      ensures storage.Length == storageSize && fresh(storage)
    {
      state, prevCo, bytesStored := Suspended, null, 0;
      storage := new Byte[storageSize](_ => 0);
    }

    ghost predicate Stored()
      reads this
    {
      bytesStored <= storage.Length
    }

    ghost function Contents(): seq<Byte>
      requires Stored()
      reads this, storage
    {
      storage[..bytesStored]
    }

    /** mco_push; `src` is None for a null pointer with length `len`. */
    method Push(src: Option<seq<Byte>>, len: nat) returns (r: Result)
      requires Stored() && (src.Some? ==> |src.value| == len)
      modifies this`bytesStored, storage
      ensures Stored()
      ensures r == if len == 0 then Success
                   else if old(bytesStored) + len > storage.Length then NotEnoughSpace
                   else if src.None? then InvalidPointer
                   else Success
      ensures Contents() == old(Contents()) + if r == Success && len > 0 then src.value else []
    {
      if len > 0 {
        var stored := bytesStored + len;
        if stored > storage.Length {
          return NotEnoughSpace;
        }
        if src.None? {
          return InvalidPointer;
        }
        forall i | 0 <= i < len {
          storage[bytesStored + i] := src.value[i];
        }
        bytesStored := stored;
      }
      r := Success;
    }

    /** mco_pop: the bytes that were pushed last come back. */
    method Pop(len: nat) returns (r: Result, dest: seq<Byte>)
      requires Stored()
      modifies this`bytesStored
      ensures Stored() && r == if len > old(bytesStored) then NotEnoughSpace else Success
      ensures old(Contents()) == Contents() + dest && |dest| == if r == Success then len else 0
    {
      if len > bytesStored {
        return NotEnoughSpace, [];
      }
      dest := storage[bytesStored - len..bytesStored];
      bytesStored := bytesStored - len;
      r := Success;
    }

    /** mco_peek */
    method Peek(len: nat) returns (r: Result, dest: seq<Byte>)
      requires Stored()
      ensures r == if len > bytesStored then NotEnoughSpace else Success
      ensures r == Success ==> |dest| == len && exists front :: Contents() == front + dest
    {
      if len > bytesStored {
        return NotEnoughSpace, [];
      }
      dest := storage[bytesStored - len..bytesStored];
      assert Contents() == storage[..bytesStored - len] + dest;
      r := Success;
    }
  }

  // ----- whole runs -----

  /** What a program does with its coroutines, which it knows by number. */
  datatype Op =
    | DoCreate(storageSize: nat, canAllocate: bool)
    | DoResume(k: nat)
    | DoYield(k: nat, onStack: bool)
    | DoFinish
    | DoDestroy(k: nat)

  /** A coroutine that was never made, or has been destroyed, or its state. */
  datatype Slot = Gone | Here(state: CoState)

  /** What a program can know: the states of its coroutines, and the chain of those that wait for each other. */
  datatype Snapshot = Snapshot(slots: seq<Slot>, chain: seq<nat>)

  predicate InState(slots: seq<Slot>, k: nat, state: CoState) {
    k < |slots| && slots[k] == Here(state)
  }

  function SetState(slots: seq<Slot>, k: nat, state: CoState): (r: seq<Slot>)
    ensures |r| == |slots|
  {
    if k < |slots| then slots[k := Here(state)] else slots
  }

  /** The one in front gives control back, and is in `state` from now on. */
  function GiveBack(s: Snapshot, state: CoState): Snapshot
    requires s.chain != []
  {
    var slots := SetState(s.slots, s.chain[0], state);
    Snapshot(if |s.chain| > 1 then SetState(slots, s.chain[1], Running) else slots, s.chain[1..])
  }

  function StepOf(s: Snapshot, op: Op): Snapshot {
    match op
    case DoCreate(_, canAllocate) => s.(slots := s.slots + [if canAllocate then Here(Suspended) else Gone])
    case DoResume(k) =>
      if !InState(s.slots, k, Suspended) then s
      else
        var slots := if s.chain != [] then SetState(s.slots, s.chain[0], Normal) else s.slots;
        Snapshot(SetState(slots, k, Running), [k] + s.chain)
    case DoYield(k, onStack) =>
      if onStack && InState(s.slots, k, Running) && s.chain != [] then GiveBack(s, Suspended) else s
    case DoFinish => if s.chain != [] then GiveBack(s, Dead) else s
    case DoDestroy(k) =>
      if InState(s.slots, k, Suspended) || InState(s.slots, k, Dead) then s.(slots := s.slots[k := Gone]) else s
  }

  function After(ops: seq<Op>): Snapshot {
    if ops == [] then Snapshot([], []) else StepOf(After(ops[..|ops| - 1]), ops[|ops| - 1])
  }

  /** The chain when the first `k` operations have been performed. */
  function ChainAt(ops: seq<Op>, k: nat): seq<nat>
    requires k <= |ops|
  {
    After(ops[..k]).chain
  }

  lemma {:induction false} NextChain(ops: seq<Op>, k: nat)
    requires k < |ops|
    ensures
      var now, next := ChainAt(ops, k), ChainAt(ops, k + 1);
      next == now || (ops[k].DoResume? && next == [ops[k].k] + now)
      || ((ops[k].DoYield? || ops[k].DoFinish?) && now != [] && next == now[1..])
  {
    assert ops[..k + 1][..k] == ops[..k];
  }

  /**
   * Control returns in last-in-first-out order: when the coroutine that operation `i` has resumed gives control back
   * for good, by a yield or by finishing, the chain is what it was, so that the one that resumed it goes on.
   */
  lemma {:induction false} ReturnsToResumer(ops: seq<Op>, i: nat, j: nat)
    requires i < j < |ops| && |ChainAt(ops, j + 1)| <= |ChainAt(ops, i)|
    requires forall k | i < k <= j :: |ChainAt(ops, k)| > |ChainAt(ops, i)|
    ensures ops[i].DoResume? && (ops[j].DoYield? || ops[j].DoFinish?)
    ensures ChainAt(ops, j) == [ops[i].k] + ChainAt(ops, i) && ChainAt(ops, j + 1) == ChainAt(ops, i)
  {
    NextChain(ops, i);
    WaitsBelow(ops, i, j);
    NextChain(ops, j);
  }

  /** As long as it has not, the one that resumed it waits below it, and it is at the same place. */
  lemma {:induction false} WaitsBelow(ops: seq<Op>, i: nat, j: nat)
    requires i < j <= |ops| && forall k | i < k <= j :: |ChainAt(ops, k)| > |ChainAt(ops, i)|
    ensures ops[i].DoResume? && Ends(ChainAt(ops, j), [ops[i].k] + ChainAt(ops, i))
    decreases j
  {
    NextChain(ops, j - 1);
    if j == i + 1 {
      assert ChainAt(ops, j) == [] + ([ops[i].k] + ChainAt(ops, i));
    } else {
      WaitsBelow(ops, i, j - 1);
      EndsStill(ChainAt(ops, j - 1), ChainAt(ops, j), [ops[i].k] + ChainAt(ops, i));
    }
  }

  ghost predicate Ends(chain: seq<nat>, end: seq<nat>) {
    |end| <= |chain| && chain[|chain| - |end|..] == end
  }

  lemma {:induction false} EndsStill(chain: seq<nat>, next: seq<nat>, end: seq<nat>)
    requires Ends(chain, end) && |next| >= |end|
    requires next == chain || (next != [] && next[1..] == chain) || (chain != [] && next == chain[1..])
    ensures Ends(next, end)
  {
  }

  /** All but the first are Normal, and each is linked to the next. */
  ghost predicate Waiting(chain: seq<Coro>)
    reads chain
  {
    && (forall i | 0 < i < |chain| :: chain[i].state == Normal)
    && (forall i, j | 0 <= i < j < |chain| && j == i + 1 :: chain[i].prevCo == chain[j])
    && (chain != [] ==> chain[|chain| - 1].prevCo == null)
  }

  lemma {:induction false} PrevIsNext(chain: seq<Coro>)
    requires Waiting(chain) && chain != []
    ensures chain[0].prevCo == if |chain| > 1 then chain[1] else null
  {
    assert |chain| > 1 ==> chain[0].prevCo == chain[1];
  }

  /** The coroutines of a thread. */
  class Thread {
    var currentCo: Coro?
    ghost var all: set<Coro>     // created and not destroyed
    ghost var chain: seq<Coro>   // the running coroutine, the one that resumed it, and so on

    /** The links from the running coroutine back: one Running, the others Normal, ending at the main context. */
    ghost predicate Chained()
      reads this, chain
    {
      && (forall i, j | 0 <= i < j < |chain| :: chain[i] != chain[j])
      && currentCo == (if chain == [] then null else chain[0])
      && (chain != [] ==> chain[0].state == Running)
      && Waiting(chain)
    }

    ghost predicate Valid()
      reads this, all, chain
    {
      && Chained() && (forall co | co in chain :: co in all)
      && (forall co | co in all && co !in chain :: (co.state == Suspended || co.state == Dead) && co.prevCo == null)
    }

    constructor ()
      ensures Valid() && currentCo == null && all == {} && chain == []
    {
      currentCo, all, chain := null, {}, [];
    }

    /** mco_create */
    method Create(storageSize: nat, canAllocate: bool) returns (co: Coro?)
      requires Valid()
      modifies this`all
      ensures Valid() && chain == old(chain) && (co != null <==> canAllocate)
      ensures co == null ==> all == old(all)
      ensures co != null ==> fresh(co) && all == old(all) + {co} && co.state == Suspended
    {
      co := null;
      if canAllocate {
        co := new Coro(storageSize);
        all := all + {co};
      }
    }

    /** _mco_prepare_jumpin: its two assertions hold. */
    method PrepareJumpIn(co: Coro)
      requires Chained() && co !in chain && co.prevCo == null && co.state == Running
      modifies this`currentCo, this`chain, co`prevCo, currentCo
      ensures chain == [co] + old(chain) && Chained() && currentCo == co
    {
      var prev := currentCo;
      assert co.prevCo == null;
      co.prevCo := prev;
      if prev != null {
        assert prev.state == Running;
        prev.state := Normal;
      }
      currentCo := co;
      chain := [co] + chain;
    }

    /** mco_resume, up to the switch of contexts: `co` runs next. */
    method Resume(co: Coro?) returns (r: Result)
      requires Valid() && (co != null ==> co in all)
      modifies this`currentCo, this`chain, all
      ensures Valid() && all == old(all)
      ensures r == if co == null then InvalidCoroutine else if old(co.state) != Suspended then NotSuspended else Success
      ensures r == Success ==> chain == [co] + old(chain) && currentCo == co
      ensures r != Success ==> chain == old(chain) && unchanged(all)
      ensures forall c | c in all && c != co && c != old(currentCo) :: unchanged(c)
    {
      if co == null {
        return InvalidCoroutine;
      }
      if co.state != Suspended {
        return NotSuspended;
      }
      co.state := Running;
      PrepareJumpIn(co);
      r := Success;
    }

    /** _mco_prepare_jumpout: the coroutine that resumed `co` goes on. */
    method PrepareJumpOut(co: Coro)
      requires chain != [] && chain[0] == co && currentCo == co && co.state != Normal && co.state != Running
      requires forall i, j | 0 <= i < j < |chain| :: chain[i] != chain[j]
      requires Waiting(chain)
      modifies this`currentCo, this`chain, co`prevCo, co.prevCo
      ensures Chained() && chain == old(chain)[1..] && co.prevCo == null && co.state == old(co.state)
    {
      PrevIsNext(chain);
      var prev := co.prevCo;
      co.prevCo := null;
      if prev != null {
        assert prev.state == Normal;
        prev.state := Running;
      }
      currentCo := prev;
      chain := chain[1..];
    }

    /** mco_yield; `onStack` says whether the caller's frame lies on the stack of `co`. */
    method Yield(co: Coro?, onStack: bool) returns (r: Result)
      requires Valid() && (co != null ==> co in all)
      modifies this`currentCo, this`chain, all
      ensures Valid() && all == old(all)
      ensures r == if co == null then InvalidCoroutine
                   else if !onStack then StackOverflow
                   else if old(co.state) != Running then NotRunning
                   else Success
      ensures r == Success ==> co == old(currentCo) && chain == old(chain)[1..] && co.state == Suspended
      ensures r != Success ==> chain == old(chain) && unchanged(all)
      ensures forall c | c in all && c !in old(chain) :: unchanged(c)
      ensures forall i | 1 < i < |old(chain)| :: unchanged(old(chain)[i])
    {
      if co == null {
        return InvalidCoroutine;
      }
      if !onStack {
        return StackOverflow;
      }
      if co.state != Running {
        return NotRunning;
      }
      RunningIsCurrent(co);
      PrevIsNext(chain);
      co.state := Suspended;
      PrepareJumpOut(co);
      r := Success;
    }

    /** At most one coroutine is Running, and it is the current one. */
    lemma {:induction false} RunningIsCurrent(co: Coro)
      requires Valid() && co in all && co.state == Running
      ensures chain != [] && chain[0] == co && currentCo == co
    {
    }

    /** The end of _mco_main: the function of the running coroutine has returned. */
    method Finish()
      requires Valid() && currentCo != null
      modifies this`currentCo, this`chain, all
      ensures Valid() && all == old(all) && chain == old(chain)[1..] && old(currentCo).state == Dead
      ensures forall c | c in all && c !in old(chain) :: unchanged(c)
      ensures forall i | 1 < i < |old(chain)| :: unchanged(old(chain)[i])
    {
      var co := currentCo;
      PrevIsNext(chain);
      co.state := Dead;
      PrepareJumpOut(co);
    }

    /** mco_destroy */
    method Destroy(co: Coro?) returns (r: Result)
      requires Valid() && (co != null ==> co in all)
      modifies this`all, all
      ensures Valid() && chain == old(chain)
      ensures r == if co == null then InvalidCoroutine
                   else if old(co.state) == Running || old(co.state) == Normal then InvalidOperation
                   else Success
      ensures all == if r == Success then old(all) - {co} else old(all)
      ensures forall c | c in old(all) && c != co :: unchanged(c)
      ensures r != Success ==> unchanged(old(all))
    {
      if co == null {
        return InvalidCoroutine;
      }
      if !(co.state == Suspended || co.state == Dead) {
        return InvalidOperation;
      }
      co.state := Dead;
      all := all - {co};
      r := Success;
    }

    /** A handle is null, or of a coroutine that has not been destroyed; no two are of the same one. */
    ghost predicate Known(handles: seq<Coro?>)
      reads this
    {
      && (forall k | 0 <= k < |handles| && handles[k] != null :: handles[k] in all)
      && (forall k, m | 0 <= k < m < |handles| && handles[k] != null :: handles[k] != handles[m])
    }

    static function Handle(handles: seq<Coro?>, k: nat): Coro? {
      if k < |handles| then handles[k] else null
    }

    /** What the program knows is true: the states and the chain are those of the coroutines behind its handles. */
    ghost predicate Pictured(handles: seq<Coro?>, s: Snapshot)
      requires Known(handles)
      reads this, all
    {
      && |s.slots| == |handles| && |s.chain| == |chain|
      && (forall k | 0 <= k < |handles| :: s.slots[k] == if handles[k] == null then Gone else Here(handles[k].state))
      && (forall i | 0 <= i < |chain| :: s.chain[i] < |handles| && handles[s.chain[i]] == chain[i])
    }

    /** One operation of a program, which forgets the handle of a coroutine that it destroys. */
    method Perform(handles: seq<Coro?>, op: Op, ghost s: Snapshot) returns (now: seq<Coro?>)
      requires Valid() && Known(handles) && Pictured(handles, s)
      modifies this, all
      ensures Valid() && Known(now) && Pictured(now, StepOf(s, op)) && fresh(all - old(all))
    {
      now := handles;
      match op {
        case DoCreate(storageSize, canAllocate) =>
          var co := Create(storageSize, canAllocate);
          now := handles + [co];
        case DoResume(k) =>
          ResumeAt(handles, k, s);
        case DoYield(k, onStack) =>
          YieldAt(handles, k, onStack, s);
        case DoFinish =>
          if currentCo != null {
            FinishFront(handles, s);
          }
        case DoDestroy(k) =>
          now := DestroyAt(handles, k, s);
      }
    }

    method ResumeAt(handles: seq<Coro?>, k: nat, ghost s: Snapshot)
      requires Valid() && Known(handles) && Pictured(handles, s)
      modifies this`currentCo, this`chain, all
      ensures Valid() && all == old(all) && Known(handles) && Pictured(handles, StepOf(s, DoResume(k)))
    {
      var r := Resume(Handle(handles, k));
    }

    method YieldAt(handles: seq<Coro?>, k: nat, onStack: bool, ghost s: Snapshot)
      requires Valid() && Known(handles) && Pictured(handles, s)
      modifies this`currentCo, this`chain, all
      ensures Valid() && all == old(all) && Known(handles) && Pictured(handles, StepOf(s, DoYield(k, onStack)))
    {
      var r := Yield(Handle(handles, k), onStack);
    }

    method FinishFront(handles: seq<Coro?>, ghost s: Snapshot)
      requires Valid() && Known(handles) && Pictured(handles, s) && currentCo != null
      modifies this`currentCo, this`chain, all
      ensures Valid() && all == old(all) && Known(handles) && Pictured(handles, StepOf(s, DoFinish))
    {
      Finish();
    }

    method DestroyAt(handles: seq<Coro?>, k: nat, ghost s: Snapshot) returns (now: seq<Coro?>)
      requires Valid() && Known(handles) && Pictured(handles, s)
      modifies this`all, all
      ensures Valid() && all <= old(all) && Known(now) && Pictured(now, StepOf(s, DoDestroy(k)))
    {
      now := handles;
      var r := Destroy(Handle(handles, k));
      if r == Success {
        now := handles[k := null];
      }
    }

    /** Any program, from the main context on. */
    method Run(ops: seq<Op>) returns (handles: seq<Coro?>)
      requires Valid() && chain == []
      modifies this, all
      ensures Valid() && Known(handles) && Pictured(handles, After(ops))
      ensures
        var c := After(ops).chain;
        if c == [] then currentCo == null else c[0] < |handles| && currentCo == handles[c[0]]
    {
      handles := [];
      for n := 0 to |ops|
        invariant Valid() && Known(handles) && Pictured(handles, After(ops[..n])) && fresh(all - old(all))
      {
        handles := Perform(handles, ops[n], After(ops[..n]));
        assert ops[..n + 1][..n] == ops[..n];
      }
      assert ops[..|ops|] == ops;
    }
  }
}
