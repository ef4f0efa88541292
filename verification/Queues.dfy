/** Sequences as queues, and wepoll's intrusive ring that implements them. */
module Queues {

  predicate NoDup<T(==)>(q: seq<T>) {
    forall i, j | 0 <= i < j < |q| :: q[i] != q[j]
  }

  /** The queue with `x` taken out. */
  function Without<T(==)>(q: seq<T>, x: T): seq<T> {
    if q == [] then [] else if q[0] == x then q[1..] else [q[0]] + Without(q[1..], x)
  }

  lemma {:induction false} WithoutMembers<T>(q: seq<T>, x: T)
    requires NoDup(q)
    ensures NoDup(Without(q, x))
    ensures forall y :: y in Without(q, x) <==> y in q && y != x
    ensures |Without(q, x)| == |q| - if x in q then 1 else 0
  {
    if q != [] {
      assert forall i | 0 <= i < |q| - 1 :: q[1..][i] == q[i + 1];
      WithoutMembers(q[1..], x);
      assert q == [q[0]] + q[1..];
      assert q[0] !in q[1..];
    }
  }

  lemma {:induction false} WithoutAbsent<T>(q: seq<T>, x: T)
    requires x !in q
    ensures Without(q, x) == q
  {
    if q != [] {
      WithoutAbsent(q[1..], x);
    }
  }

  lemma {:induction false} WithoutAt<T>(q: seq<T>, i: nat)
    requires NoDup(q) && i < |q|
    ensures Without(q, q[i]) == q[..i] + q[i + 1..]
  {
    if i > 0 {
      assert q[1..][i - 1] == q[i];
      WithoutAt(q[1..], i - 1);
      assert [q[0]] + q[1..][..i - 1] == q[..i];
    }
  }

  /** queue_node_t: a node of a ring; a node alone points to itself. */
  class QueueNode {
    var prev: QueueNode?
    var next: QueueNode?

    constructor ()
      ensures prev == null && next == null
    {
      prev, next := null, null;
    }

    /** queue_node_init */
    method Init()
      modifies this
      ensures prev == next == this
    {
      prev, next := this, this;
    }

    /** queue_is_enqueued */
    predicate IsEnqueued()
      reads this
    {
      prev != this
    }
  }

  /** Consecutive nodes point at each other, and the last one closes the ring. */
  ghost predicate Ring(r: seq<QueueNode>)
    reads r
  {
    && |r| > 0 && NoDup(r)
    && (forall i | 0 < i < |r| :: r[i].prev == r[i - 1])
    && (forall i | 0 <= i < |r| - 1 :: r[i].next == r[i + 1])
    && r[0].prev == r[|r| - 1] && r[|r| - 1].next == r[0]
  }

  /** queue_t: `ring` is the head followed by the queued nodes in order. */
  class Queue {
    const head: QueueNode
    ghost var ring: seq<QueueNode>

    ghost predicate Valid()
      reads this, ring
    {
      Ring(ring) && ring[0] == head
    }

    ghost function Items(): seq<QueueNode>
      requires Valid()
      reads this, ring
    {
      ring[1..]
    }

    ghost function Nodes(): set<QueueNode>
      reads this
    {
      set n | n in ring
    }

    constructor ()
      ensures Valid() && Items() == [] && fresh(head)
    {
      var h := new QueueNode();
      head := h;
      ring := [h];
      new;
      head.Init();
    }

    predicate IsEmpty()
      requires Valid()
      reads this, ring
      ensures IsEmpty() <==> Items() == []
    {
      assert |ring| > 1 ==> ring[|ring| - 1] != ring[0];
      !head.IsEnqueued()
    }

    method First() returns (n: QueueNode?)
      requires Valid()
      ensures n == if Items() == [] then null else Items()[0]
    {
      n := if IsEmpty() then null else head.next;
    }

    method Last() returns (n: QueueNode?)
      requires Valid()
      ensures n == if Items() == [] then null else Items()[|Items()| - 1]
    {
      n := if IsEmpty() then null else head.prev;
    }

    method Append(node: QueueNode)
      requires Valid() && node !in ring
      modifies this, Nodes(), node
      ensures Valid() && Items() == old(Items()) + [node]
    {
      ghost var last := ring[|ring| - 1];
      assert head.prev == last;
      node.next := head;
      node.prev := head.prev;
      node.prev.next := node;
      head.prev := node;
      ring := ring + [node];
    }

    method Prepend(node: QueueNode)
      requires Valid() && node !in ring
      modifies this, Nodes(), node
      ensures Valid() && Items() == [node] + old(Items())
    {
      assert head.next == if |ring| == 1 then head else ring[1];
      node.next := head.next;
      node.prev := head;
      node.next.prev := node;
      head.next := node;
      ring := [head, node] + ring[1..];
    }

    /** queue__detach_node: the node's own links are left as they were. */
    method Detach(node: QueueNode)
      requires Valid() && node in Items()
      modifies this, Nodes()
      ensures Valid() && Items() == Without(old(Items()), node) && node !in ring
      ensures Nodes() <= old(Nodes())
    {
      ghost var k := TakeOut(ring, node);
      Unlink(node, ring, k);
      ring := ring[..k] + ring[k + 1..];
    }

    static lemma {:induction false} TakeOut(r: seq<QueueNode>, node: QueueNode) returns (k: nat)
      requires NoDup(r) && |r| > 0 && node in r[1..]
      ensures 0 < k < |r| && r[k] == node
      ensures
        var q := r[..k] + r[k + 1..];
        q[0] == r[0] && q[1..] == Without(r[1..], node) && node !in q && forall n | n in q :: n in r
    {
      var i :| 0 <= i < |r| - 1 && r[1..][i] == node;
      k := i + 1;
      CutItems(r, k);
      CutMembers(r, k);
    }

    static lemma {:induction false} CutItems(r: seq<QueueNode>, k: nat)
      requires NoDup(r) && 0 < k < |r|
      ensures (r[..k] + r[k + 1..])[1..] == Without(r[1..], r[k])
    {
      var t := r[1..];
      assert forall j | 0 <= j < |t| :: t[j] == r[j + 1];
      WithoutAt(t, k - 1);
      assert (r[..k] + r[k + 1..])[1..] == t[..k - 1] + t[k..];
    }

    static lemma {:induction false} CutMembers(r: seq<QueueNode>, k: nat)
      requires NoDup(r) && k < |r|
      ensures r[k] !in r[..k] + r[k + 1..] && forall n | n in r[..k] + r[k + 1..] :: n in r
    {
      forall n | n in r[..k] + r[k + 1..] ensures n in r && n != r[k] {
      }
    }

    static method Unlink(node: QueueNode, ghost r: seq<QueueNode>, ghost k: nat)
      requires Ring(r) && 0 < k < |r| && r[k] == node
      modifies r
      ensures Ring(r[..k] + r[k + 1..])
    {
      assert node.prev == r[k - 1];
      assert node.next == if k == |r| - 1 then r[0] else r[k + 1];
      node.prev.next := node.next;
      node.next.prev := node.prev;
      ghost var q := r[..k] + r[k + 1..];
      forall i | 0 < i < |q| ensures q[i].prev == q[i - 1] {
        assert q[i] == r[if i < k then i else i + 1] && q[i - 1] == r[if i - 1 < k then i - 1 else i];
      }
      forall i | 0 <= i < |q| - 1 ensures q[i].next == q[i + 1] {
        assert q[i] == r[if i < k then i else i + 1] && q[i + 1] == r[if i + 1 < k then i + 1 else i + 2];
      }
    }

    method MoveToStart(node: QueueNode)
      requires Valid() && node in Items()
      modifies this, Nodes()
      ensures Valid() && Items() == [node] + Without(old(Items()), node)
    {
      Detach(node);
      Prepend(node);
    }

    method MoveToEnd(node: QueueNode)
      requires Valid() && node in Items()
      modifies this, Nodes()
      ensures Valid() && Items() == Without(old(Items()), node) + [node]
    {
      Detach(node);
      Append(node);
    }

    method Remove(node: QueueNode)
      requires Valid() && node in Items()
      modifies this, Nodes()
      ensures Valid() && Items() == Without(old(Items()), node) && node !in ring && !node.IsEnqueued()
    {
      Detach(node);
      node.Init();
    }
  }
}
