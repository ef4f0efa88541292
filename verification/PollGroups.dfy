/** The poll-group allocator: up to 32 sockets share one AFD device handle. */
module PollGroups {
  import opened Queues

  const MAX_GROUP_SIZE: nat := 32

  class PollGroup {
    var size: nat

    constructor ()
      ensures size == 0
    {
      size := 0;
    }
  }

  /** All slots in use in the groups of `q`. */
  ghost function Slots(q: seq<PollGroup>): nat
    reads q
  {
    if q == [] then 0 else q[0].size + Slots(q[1..])
  }

  /** Full groups come first. */
  ghost predicate FullFirst(q: seq<PollGroup>)
    reads q
  {
    forall i, j | 0 <= i < j < |q| :: q[j].size == MAX_GROUP_SIZE ==> q[i].size == MAX_GROUP_SIZE
  }

  lemma {:induction false} SlotsWithout(q: seq<PollGroup>, g: PollGroup)
    requires g in q && NoDup(q)
    ensures Slots(q) == Slots(Without(q, g)) + g.size
  {
    if q[0] != g {
      assert forall i | 0 <= i < |q| - 1 :: q[1..][i] == q[i + 1];
      SlotsWithout(q[1..], g);
      var w := Without(q, g);
      assert w[0] == q[0] && w[1..] == Without(q[1..], g);
    }
  }

  lemma {:induction false} SlotsConcat(a: seq<PollGroup>, b: seq<PollGroup>)
    ensures Slots(a + b) == Slots(a) + Slots(b)
  {
    if a == [] {
      assert a + b == b;
    } else {
      assert (a + b)[1..] == a[1..] + b;
      SlotsConcat(a[1..], b);
    }
  }

  lemma {:induction false} SlotsFull(q: seq<PollGroup>)
    requires forall i | 0 <= i < |q| :: q[i].size == MAX_GROUP_SIZE
    ensures Slots(q) == MAX_GROUP_SIZE * |q|
  {
    if q != [] {
      SlotsFull(q[1..]);
    }
  }

  /** Taking a group out keeps the full ones in front. */
  lemma {:induction false} FullFirstWithout(q: seq<PollGroup>, g: PollGroup)
    requires FullFirst(q) && NoDup(q) && g in q
    ensures FullFirst(Without(q, g))
  {
    var k :| 0 <= k < |q| && q[k] == g;
    WithoutAt(q, k);
    var w := Without(q, g);
    forall i, j | 0 <= i < j < |w| && w[j].size == MAX_GROUP_SIZE ensures w[i].size == MAX_GROUP_SIZE {
      assert w[i] == q[if i < k then i else i + 1] && w[j] == q[if j < k then j else j + 1];
    }
  }

  lemma {:induction false} WithoutLast(rest: seq<PollGroup>, g: PollGroup)
    requires g !in rest
    ensures Without(rest + [g], g) == rest
  {
    if rest != [] {
      assert (rest + [g])[1..] == rest[1..] + [g];
      WithoutLast(rest[1..], g);
    }
  }

  /** Each group at most full, full ones first, none twice. */
  ghost predicate Orderly(q: seq<PollGroup>)
    reads q
  {
    NoDup(q) && FullFirst(q) && forall g | g in q :: g.size <= MAX_GROUP_SIZE
  }

  lemma {:induction false} OrderlyInit(rest: seq<PollGroup>, g: PollGroup)
    requires Orderly(rest + [g])
    ensures Orderly(rest) && g !in rest && Slots(rest + [g]) == Slots(rest) + g.size
  {
    var q := rest + [g];
    assert q[|rest|] == g && forall i | 0 <= i < |rest| :: q[i] == rest[i];
    SlotsConcat(rest, [g]);
  }

  lemma {:induction false} OrderlyBack(rest: seq<PollGroup>, g: PollGroup)
    requires Orderly(rest) && g !in rest && g.size < MAX_GROUP_SIZE
    ensures Orderly(rest + [g]) && Slots(rest + [g]) == Slots(rest) + g.size
  {
    SlotsConcat(rest, [g]);
  }

  lemma {:induction false} OrderlyFront(rest: seq<PollGroup>, g: PollGroup)
    requires Orderly(rest) && g !in rest && g.size == MAX_GROUP_SIZE
    ensures Orderly([g] + rest) && Slots([g] + rest) == Slots(rest) + g.size
  {
    SlotsConcat([g], rest);
  }

  function Max(a: nat, b: nat): nat {
    if a < b then b else a
  }

  /** `poll_group_queue` of a port. */
  class GroupQueue {
    var queue: seq<PollGroup>
    ghost var peak: nat   // the most slots that were ever in use

    ghost predicate Valid()
      reads this, queue
    {
      && Orderly(queue)
      && Slots(queue) <= peak
      && (|queue| > 0 ==> MAX_GROUP_SIZE * (|queue| - 1) < peak)
    }

    constructor ()
      ensures Valid() && queue == [] && peak == 0
    {
      queue, peak := [], 0;
    }

    /** The group with a free slot, made if necessary: a new group only when every group is full. */
    method Candidate(canAllocate: bool) returns (g: PollGroup?)
      requires Valid()
      modifies this`queue
      ensures g == null <==> !canAllocate && forall h | h in old(queue) :: h.size == MAX_GROUP_SIZE
      ensures g == null ==> queue == old(queue)
      ensures g != null ==> Orderly(queue) && g.size < MAX_GROUP_SIZE && |queue| > 0 && queue[|queue| - 1] == g
      ensures g != null && g in old(queue) ==> queue == old(queue)
      ensures g != null && g !in old(queue) ==>
        fresh(g) && queue == old(queue) + [g] && g.size == 0 && forall h | h in old(queue) :: h.size == MAX_GROUP_SIZE
      ensures Slots(queue) == old(Slots(queue))
      ensures MAX_GROUP_SIZE * (|queue| - 1) < peak || MAX_GROUP_SIZE * (|queue| - 1) == Slots(queue)
    {
      g := if queue != [] then queue[|queue| - 1] else null;
      if g == null || g.size >= MAX_GROUP_SIZE {
        if !canAllocate {
          return null;
        }
        g := new PollGroup();
        SlotsFull(queue);
        OrderlyBack(queue, g);
        queue := queue + [g];
      }
    }

    /** poll_group_acquire; `canAllocate` says whether a new group could be made. */
    method Acquire(canAllocate: bool) returns (g: PollGroup?)
      requires Valid()
      modifies this, queue
      ensures Valid()
      ensures g == null <==> !canAllocate && forall h | h in old(queue) :: old(h.size) == MAX_GROUP_SIZE
      ensures g == null ==> unchanged(this) && unchanged(old(queue))
      ensures g != null ==> g in queue && forall h | h != g :: h in queue <==> h in old(queue)
      ensures g != null && g in old(queue) ==> g.size == old(g.size) + 1
      ensures g != null && g !in old(queue) ==>
        fresh(g) && g.size == 1 && forall h | h in old(queue) :: old(h.size) == MAX_GROUP_SIZE
      ensures forall h | h in old(queue) && h != g :: h.size == old(h.size)
      ensures Slots(queue) == old(Slots(queue)) + if g == null then 0 else 1
      ensures peak == Max(old(peak), Slots(queue))
    {
      g := Candidate(canAllocate);
      if g != null {
        var q := TakeSlot(queue, g);
        Install(q);
      }
    }

    /** `q` becomes the queue; the peak is brought up to date. */
    method Install(q: seq<PollGroup>)
      requires Orderly(q)
      requires |q| > 0 ==> MAX_GROUP_SIZE * (|q| - 1) < peak || MAX_GROUP_SIZE * (|q| - 1) < Slots(q)
      modifies this
      ensures Valid() && queue == q && Slots(queue) == old(Slots(q)) && peak == Max(old(peak), old(Slots(q)))
    {
      ghost var slots := Slots(q);
      queue, peak := q, Max(peak, slots);
    }

    /** The last group of `queue` gives a slot away, and moves to the front when that fills it. */
    static method TakeSlot(queue: seq<PollGroup>, g: PollGroup) returns (q: seq<PollGroup>)
      requires Orderly(queue) && |queue| > 0 && queue[|queue| - 1] == g && g.size < MAX_GROUP_SIZE
      modifies g
      ensures Orderly(q) && |q| == |queue| && Slots(q) == old(Slots(queue)) + 1
      ensures g.size == old(g.size) + 1 && forall h :: h in q <==> h in queue
    {
      ghost var rest := queue[..|queue| - 1];
      assert queue == rest + [g];
      OrderlyInit(rest, g);
      WithoutLast(rest, g);
      g.size := g.size + 1;
      q := queue;
      if g.size == MAX_GROUP_SIZE {
        OrderlyFront(rest, g);
        q := [g] + Without(queue, g);
      } else {
        OrderlyBack(rest, g);
      }
    }

    /** poll_group_release */
    method Release(g: PollGroup)
      requires Valid() && g in queue && g.size > 0
      modifies this`queue, g
      ensures Valid() && g.size == old(g.size) - 1 && peak == old(peak)
      ensures forall h :: h in queue <==> h in old(queue)
      ensures Slots(queue) == old(Slots(queue)) - 1
    {
      ghost var rest := Without(queue, g);
      SlotsWithout(queue, g);
      WithoutMembers(queue, g);
      FullFirstWithout(queue, g);
      assert Orderly(rest);
      g.size := g.size - 1;
      assert g.size < MAX_GROUP_SIZE;
      OrderlyBack(rest, g);
      queue := Without(queue, g) + [g];
    }

    /** poll_group_delete, of the first group. */
    method DeleteFirst()
      requires Valid() && queue != [] && queue[0].size == 0
      modifies this`queue
      ensures Valid() && queue == old(queue)[1..] && peak == old(peak)
    {
      ghost var q := queue;
      assert forall i | 0 <= i < |q| - 1 :: q[1..][i] == q[i + 1];
      assert Orderly(q[1..]);
      queue := queue[1..];
    }
  }
}
