module TreeRotation {
  import opened TreeShape

  /** `TREE__ROTATE(cis, trans)` on values. */
  function Rotated(cis: Side, t: Shape): Shape
    requires t.Node? && t.Child(cis.Other()).Node?
  {
    var q := t.Child(cis.Other());
    Mk(cis, Mk(cis, t.Child(cis), t.id, t.key, t.red, q.Child(cis)), q.id, q.key, q.red, q.Child(cis.Other()))
  }

  function WithChild(cell: Cell, s: Side, p: TreeNode?): Cell {
    if s == Left then cell.(left := p) else cell.(right := p)
  }

  function ChildOf(cell: Cell, s: Side): TreeNode? {
    if s == Left then cell.left else cell.right
  }

  /** `g`'s pointer to `p` (tested on the left first) now leads to `q`. */
  function Redirected(g: Cell, p: TreeNode, q: TreeNode?): Cell {
    if g.left == p then g.(left := q) else g.(right := q)
  }

  ghost predicate SameOn(h: Heap, h': Heap, s: set<TreeNode>) {
    forall n | n in s :: n in h && n in h' && h'[n] == h[n]
  }

  lemma {:induction false} RedirectPath(h: Heap, h': Heap, c: Path, p: TreeNode, q: TreeNode?)
    requires PathLinked(h, c, p) && PathDistinct(c) && p !in PathNodes(c)
    requires c.Under? ==> c.id in h' && h'[c.id] == Redirected(h[c.id], p, q)
    requires SameOn(h, h', PathNodes(c) - {c.Ptr()})
    ensures PathLinked(h', c, q)
  {
    if c.Under? {
      assert c.sibling.Node? ==> c.sibling.id in Nodes(c.sibling);
      LinkedFrame(h, h', c.sibling, c.id);
      PathFrame(h, h', c.up, c.id);
    }
  }

  lemma {:induction false} Reparented(h: Heap, h': Heap, t: Shape, parent: TreeNode?, parent': TreeNode?)
    requires Linked(h, t, parent) && Distinct(t)
    requires t.Node? ==> t.id in h' && h'[t.id] == h[t.id].(parent := parent')
    requires SameOn(h, h', Nodes(t) - {t.Ptr()})
    ensures Linked(h', t, parent')
  {
    if t.Node? {
      LinkedFrame(h, h', t.left, t.id);
      LinkedFrame(h, h', t.right, t.id);
    }
  }

  /** What the assignments of a rotation at `p` do to the heap. */
  ghost predicate RotationEffect(h: Heap, h': Heap, cis: Side, p: TreeNode, q: TreeNode) {
    && p in h && q in h && p in h' && q in h'
    && var g := h[p].parent;
    && var b := ChildOf(h[q], cis);
    && h'[p] == WithChild(h[p].(parent := q), cis.Other(), b)
    && h'[q] == WithChild(h[q].(parent := g), cis, p)
    && (b != null ==> b in h && b in h' && h'[b] == h[b].(parent := p))
    && (g != null ==> g in h && g in h' && h'[g] == Redirected(h[g], p, q))
    && SameOn(h, h', h.Keys - {p, q, b, g})
  }

  lemma {:induction false} RotatedApart(cis: Side, c: Path, t: Shape)
    requires t.Node? && t.Child(cis.Other()).Node? && Apart(c, t)
    ensures Apart(c, Rotated(cis, t)) && Nodes(Rotated(cis, t)) == Nodes(t)
  {
    var a, qt := t.Child(cis), t.Child(cis.Other());
    var b := qt.Child(cis);
    assert Distinct(qt) && Nodes(qt) == Nodes(qt.left) + {qt.id} + Nodes(qt.right);
    var p' := Mk(cis, a, t.id, t.key, t.red, b);
    assert Distinct(p') && Nodes(p') == Nodes(a) + {t.id} + Nodes(b);
  }

  lemma {:induction false} RotationLinked(h: Heap, h': Heap, cis: Side, t: Shape, parent: TreeNode?)
    requires t.Node? && t.Child(cis.Other()).Node?
    requires Linked(h, t, parent) && Distinct(t) && parent !in Nodes(t)
    requires RotationEffect(h, h', cis, t.id, t.Child(cis.Other()).id)
    ensures Linked(h', Rotated(cis, t), parent)
  {
    var a, qt := t.Child(cis), t.Child(cis.Other());
    var p, q := t.id, qt.id;
    var b, d := qt.Child(cis), qt.Child(cis.Other());
    NodesStored(h, t, parent);
    assert Linked(h, qt, p);
    assert Distinct(qt) && Nodes(qt) == Nodes(b) + {q} + Nodes(d);
    assert b.Node? ==> b.id in Nodes(b);
    LinkedFrame(h, h', a, p);
    LinkedFrame(h, h', d, q);
    Reparented(h, h', b, q, p);
    assert Linked(h', Mk(cis, a, p, t.key, t.red, b), q);
  }

  lemma {:induction false} RotationStored(h: Heap, h': Heap, root: TreeNode?, cis: Side, c: Path, t: Shape)
    requires t.Node? && t.Child(cis.Other()).Node?
    requires Stored(h, root, c, t)
    requires RotationEffect(h, h', cis, t.id, t.Child(cis.Other()).id)
    ensures Stored(h', if c.Top? then t.Child(cis.Other()).id else root, c, Rotated(cis, t))
  {
    var b := t.Child(cis.Other()).Child(cis);
    assert Linked(h, t.Child(cis.Other()), t.id);
    assert b.Node? ==> b.id in Nodes(b);
    PathNodesStored(h, c, t.id);
    RotationLinked(h, h', cis, t, c.Ptr());
    RotatedApart(cis, c, t);
    RedirectPath(h, h', c, t.id, t.Child(cis.Other()).id);
  }

  /** A fresh red node put where nothing hung. */
  lemma {:induction false} Attached(h: Heap, h': Heap, root: TreeNode?, root': TreeNode?, c: Path, n: TreeNode, key: int)
    requires Stored(h, root, c, Leaf) && n !in PathNodes(c)
    requires n in h' && h'[n] == Cell(null, null, c.Ptr(), key, true)
    requires c.Top? ==> root' == n
    requires c.Under? ==> root' == root && c.id in h && c.id in h' && h'[c.id] == WithChild(h[c.id], c.side, n)
    requires SameOn(h, h', PathNodes(c) - {c.Ptr()})
    ensures Stored(h', root', c, Node(Leaf, n, key, true, Leaf))
  {
    if c.Under? {
      LinkedFrame(h, h', c.sibling, c.id);
      PathFrame(h, h', c.up, c.id);
    }
  }
}
