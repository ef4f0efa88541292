/** Taking a node out of a tree: the node gives way to its only child, or its successor is
    lifted into its place. */
module TreeSplice {
  import opened TreeShape
  import opened TreeRotation
  import opened RedBlackLaws
  import opened RemoveLaws

  // ----- at most one child -----

  lemma {:induction false} OneChildStored(h: Heap, h': Heap, root: TreeNode?, root': TreeNode?, c: Path, t: Shape, x: Shape)
    requires Stored(h, root, c, t) && t.Node?
    requires (t.left.Leaf? && x == t.right) || (t.right.Leaf? && x == t.left)
    requires if c.Top? then root' == x.Ptr() else root' == root
    requires c.Under? ==> c.id in h && c.id in h' && h'[c.id] == Redirected(h[c.id], t.id, x.Ptr())
    requires x.Node? ==> x.id in h && x.id in h' && h'[x.id] == h[x.id].(parent := c.Ptr())
    requires SameOn(h, h', PathNodes(c) + Nodes(x) - {c.Ptr(), x.Ptr()})
    ensures Stored(h', root', c, x)
  {
    assert t.id in Nodes(t) && Linked(h, x, t.id);
    assert x.Node? ==> x.id in Nodes(x);
    RedirectPath(h, h', c, t.id, x.Ptr());
    Reparented(h, h', x, t.id, c.Ptr());
  }

  lemma {:induction false} OneChildOut(w: Shape, c: Path, t: Shape, x: Shape)
    requires Plug(c, t) == w && IsRedBlack(w) && Sorted(Items(w)) && t.Node?
    requires (t.left.Leaf? && x == t.right) || (t.right.Leaf? && x == t.left)
    ensures Remains(c, x, t.red, ToMap(Items(w)) - {t.key})
  {
    var a, b := Before(c) + Items(t.left), Items(t.right) + After(c);
    ReadingAround(c, t);
    ReadingParts(c, x);
    assert Reading(c, x) == a + b;
    PlugItems(c, t);
    ToMapMiddle(Items(w), a, t.key, t.id, b);
    UnplugGood(c, t);
  }

  // ----- two children -----

  /** Pointers to `n` become pointers to `m`. */
  function Moved(p: TreeNode?, n: TreeNode, m: TreeNode): TreeNode? {
    if p == n then m else p
  }

  function MovedCell(cell: Cell, n: TreeNode, m: TreeNode): Cell {
    Cell(Moved(cell.left, n, m), Moved(cell.right, n, m), Moved(cell.parent, n, m), cell.key, cell.red)
  }

  /** The path in which `m`, with key `k`, stands where `n` stood. */
  function Rename(c: Path, n: TreeNode, m: TreeNode, k: int): Path {
    match c
    case Top => Top
    case Under(s, id, key, red, sib, up) =>
      Under(s, if id == n then m else id, if id == n then k else key, red, sib, Rename(up, n, m, k))
  }

  /** The frame of `n` is on the path, its right subtree is where the path comes from, and below
      it the path only turned left: the path ends at the successor of `n`. */
  predicate Spine(c: Path, n: TreeNode) {
    c.Under? && if c.id == n then c.side == Right else c.side == Left && Spine(c.up, n)
  }

  lemma {:induction false} LinkedMoved(h: Heap, h': Heap, t: Shape, parent: TreeNode?, n: TreeNode, m: TreeNode)
    requires Linked(h, t, parent) && n !in Nodes(t)
    requires forall o | o in Nodes(t) :: o in h && o in h' && h'[o] == MovedCell(h[o], n, m)
    ensures Linked(h', t, Moved(parent, n, m))
  {
    if t.Node? {
      assert t.left.Node? ==> t.left.id in Nodes(t.left);
      assert t.right.Node? ==> t.right.id in Nodes(t.right);
      LinkedMoved(h, h', t.left, t.id, n, m);
      LinkedMoved(h, h', t.right, t.id, n, m);
    }
  }

  ghost predicate OnPath(c: Path, n: TreeNode) {
    c.Under? && (c.id == n || OnPath(c.up, n))
  }

  lemma {:induction false} OnPathNodes(c: Path, n: TreeNode)
    requires OnPath(c, n)
    ensures n in PathNodes(c)
  {
    if c.id != n {
      OnPathNodes(c.up, n);
    }
  }

  /** `n` may only be a frame of the path, so no sibling subtree contains it. */
  ghost predicate OnlyOnPath(c: Path, n: TreeNode) {
    n in PathNodes(c) ==> OnPath(c, n)
  }

  lemma {:induction false} OnlyOnPathUp(c: Path, n: TreeNode)
    requires c.Under? && PathDistinct(c) && OnlyOnPath(c, n)
    ensures n !in Nodes(c.sibling) && OnlyOnPath(c.up, n)
  {
    if OnPath(c, n) && c.id != n {
      OnPathNodes(c.up, n);
    }
  }

  /** All cells of the path have been moved from `n` to `m`. */
  ghost predicate CellsMoved(h: Heap, h': Heap, s: set<TreeNode>, n: TreeNode, m: TreeNode, k: int) {
    && (forall o | o in s - {n} :: o in h && o in h' && h'[o] == MovedCell(h[o], n, m))
    && (n in s ==> n in h && m in h' && h'[m] == MovedCell(h[n], n, m).(key := k))
  }

  lemma {:induction false} PathMoved(h: Heap, h': Heap, c: Path, hole: TreeNode?, n: TreeNode, m: TreeNode, k: int)
    requires PathLinked(h, c, hole) && PathDistinct(c) && OnlyOnPath(c, n)
    requires CellsMoved(h, h', PathNodes(c), n, m, k)
    ensures PathLinked(h', Rename(c, n, m, k), Moved(hole, n, m))
  {
    if c.Under? {
      OnlyOnPathUp(c, n);
      PathMoved(h, h', c.up, c.id, n, m, k);
      SiblingMoved(h, h', c, n, m, k);
    }
  }

  lemma {:induction false} SiblingMoved(h: Heap, h': Heap, c: Path, n: TreeNode, m: TreeNode, k: int)
    requires c.Under? && Linked(h, c.sibling, c.id) && n !in Nodes(c.sibling)
    requires CellsMoved(h, h', Nodes(c.sibling), n, m, k)
    ensures Linked(h', c.sibling, Moved(c.id, n, m)) && c.sibling.Ptr() != n
  {
    LinkedMoved(h, h', c.sibling, c.id, n, m);
    assert c.sibling.Node? ==> c.sibling.id in Nodes(c.sibling);
  }

  lemma {:induction false} RenamePtr(c: Path, n: TreeNode, m: TreeNode, k: int, hole: TreeNode?)
    ensures Rename(c, n, m, k).Ptr() == Moved(c.Ptr(), n, m)
    ensures RootOf(Rename(c, n, m, k), Moved(hole, n, m)) == Moved(RootOf(c, hole), n, m)
  {
    if c.Under? {
      RenamePtr(c.up, n, m, k, c.id);
    }
  }

  lemma {:induction false} RenameNodes(c: Path, n: TreeNode, m: TreeNode, k: int)
    requires PathDistinct(c) && OnlyOnPath(c, n) && m !in PathNodes(c)
    ensures PathDistinct(Rename(c, n, m, k))
    ensures PathNodes(Rename(c, n, m, k)) == if n in PathNodes(c) then PathNodes(c) - {n} + {m} else PathNodes(c)
  {
    if c.Under? {
      OnlyOnPathUp(c, n);
      RenameNodes(c.up, n, m, k);
    }
  }

  lemma {:induction false} RenameGood(c: Path, n: TreeNode, m: TreeNode, k: int, h: nat)
    ensures GoodPath(Rename(c, n, m, k), h) == GoodPath(c, h)
  {
    if c.Under? {
      RenameGood(c.up, n, m, k, h + if c.red then 0 else 1);
    }
  }

  lemma {:induction false} SpineOnPath(c: Path, n: TreeNode)
    requires Spine(c, n)
    ensures OnPath(c, n) && n in PathNodes(c)
  {
    if c.id != n {
      SpineOnPath(c.up, n);
    }
  }

  /** The bottom cell of the path, whose child pointer now leads to the orphan `x`. */
  ghost predicate BottomMoved(h: Heap, h': Heap, c: Path, n: TreeNode, m: TreeNode, k: int, x: Shape) {
    c.Under? && c.id in h && var b := Moved(c.id, n, m);
    b in h' && h'[b] == WithChild(MovedCell(h[c.id], n, m), c.side, x.Ptr()).(key := if c.id == n then k else h[c.id].key)
  }

  /** The successor `t.id` has been lifted into the place of `n`, and its only child hangs where
      it was. */
  lemma {:induction false} SpliceStored(h: Heap, h': Heap, root: TreeNode?, root': TreeNode?, c: Path, t: Shape, n: TreeNode)
    requires Stored(h, root, c, t) && t.Node? && t.left.Leaf? && Spine(c, n)
    requires BottomMoved(h, h', c, n, t.id, t.key, t.right)
    requires CellsMoved(h, h', PathNodes(c) - {c.id}, n, t.id, t.key)
    requires t.right.Node? ==>
      t.right.id in h && t.right.id in h' && h'[t.right.id] == h[t.right.id].(parent := Moved(c.id, n, t.id))
    requires SameOn(h, h', Nodes(t.right) - {t.right.Ptr()})
    requires root' == Moved(root, n, t.id)
    ensures Stored(h', root', Rename(c, n, t.id, t.key), t.right)
    ensures PathNodes(Rename(c, n, t.id, t.key)) == PathNodes(c) - {n} + {t.id}
  {
    var m, k, x := t.id, t.key, t.right;
    SpineOnPath(c, n);
    OnlyOnPathUp(c, n);
    Reparented(h, h', x, m, Moved(c.id, n, m));
    RenamePtr(c, n, m, k, m);
    RootOfUnder(c, m, x.Ptr());
    RootOfUnder(Rename(c, n, m, k), m, x.Ptr());
    RenameNodes(c, n, m, k);
    PathMoved(h, h', c.up, c.id, n, m, k);
    RenamePtr(c.up, n, m, k, c.id);
    SiblingMoved(h, h', c, n, m, k);
  }

  lemma {:induction false} RootOfUnder(c: Path, hole: TreeNode?, hole': TreeNode?)
    requires c.Under?
    ensures RootOf(c, hole) == RootOf(c, hole')
  {
  }

  function KeyOn(c: Path, n: TreeNode): int {
    if c.Top? then 0 else if c.id == n then c.key else KeyOn(c.up, n)
  }

  lemma {:induction false} RenameAbsent(c: Path, n: TreeNode, m: TreeNode, k: int)
    requires n !in PathNodes(c)
    ensures Rename(c, n, m, k) == c
  {
    if c.Under? {
      RenameAbsent(c.up, n, m, k);
    }
  }

  lemma {:induction false} SpineReading(c: Path, n: TreeNode, m: TreeNode, k: int) returns (a: seq<Item>)
    requires Spine(c, n) && PathDistinct(c)
    ensures Before(c) == a + [(KeyOn(c, n), n)] && Before(Rename(c, n, m, k)) == a + [(k, m)]
    ensures After(c) == After(Rename(c, n, m, k))
  {
    if c.id == n {
      RenameAbsent(c.up, n, m, k);
      a := Before(c.up) + Items(c.sibling);
    } else {
      a := SpineReading(c.up, n, m, k);
    }
  }

  /** The order of the nodes with and without `n`. */
  lemma {:induction false} SpliceReading(c: Path, t: Shape, n: TreeNode) returns (a: seq<Item>, b: seq<Item>)
    requires t.Node? && t.left.Leaf? && Spine(c, n) && PathDistinct(c)
    ensures Reading(c, t) == a + [(KeyOn(c, n), n)] + b
    ensures Reading(Rename(c, n, t.id, t.key), t.right) == a + b
  {
    a := SpineReading(c, n, t.id, t.key);
    b := [(t.key, t.id)] + Items(t.right) + After(c);
    assert Items(t) == [(t.key, t.id)] + Items(t.right);
    ReadingParts(c, t);
    ReadingParts(Rename(c, n, t.id, t.key), t.right);
  }

  lemma {:induction false} SpliceColours(c: Path, t: Shape, n: TreeNode)
    requires IsRedBlack(Plug(c, t)) && t.Node? && t.left.Leaf?
    ensures var x := t.right;
      Good(x) && GoodPath(Rename(c, n, t.id, t.key), BlackHeight(x) + if t.red then 0 else 1) && (t.red ==> !x.IsRed())
  {
    UnplugGood(c, t);
    RenameGood(c, n, t.id, t.key, BlackHeight(t));
  }

  lemma {:induction false} SpliceContents(w: Shape, c: Path, t: Shape, n: TreeNode)
    requires Items(w) == Reading(c, t) && Sorted(Items(w))
    requires t.Node? && t.left.Leaf? && Spine(c, n) && PathDistinct(c)
    ensures
      var s := Reading(Rename(c, n, t.id, t.key), t.right);
      Sorted(s) && ToMap(s) == ToMap(Items(w)) - {KeyOn(c, n)}
  {
    var a, b := SpliceReading(c, t, n);
    ToMapMiddle(Items(w), a, KeyOn(c, n), n, b);
  }

  // ----- pointers seen cell by cell -----

  /** Around the cell `o`, children and parents agree and nothing points outside the picture. */
  ghost predicate CoherentAt(h: Heap, root: TreeNode?, o: TreeNode) {
    && o in h && o !in {h[o].left, h[o].right, h[o].parent}
    && (h[o].left != null ==> h[o].left in h && h[h[o].left].parent == o)
    && (h[o].right != null ==> h[o].right in h && h[h[o].right].parent == o)
    && (h[o].left == h[o].right ==> h[o].left == null)
    && (h[o].parent == null <==> root == o)
    && (h[o].parent != null ==> h[o].parent in h && o in {h[h[o].parent].left, h[h[o].parent].right})
  }

  ghost predicate Coherent(h: Heap, root: TreeNode?) {
    forall o {:trigger CoherentAt(h, root, o)} | o in h :: CoherentAt(h, root, o)
  }

  lemma {:induction false} LinkedCoherent(h: Heap, t: Shape, parent: TreeNode?, o: TreeNode)
    requires Linked(h, t, parent) && Distinct(t) && o in Nodes(t) && parent !in Nodes(t)
    ensures o in h && o !in {h[o].left, h[o].right, h[o].parent}
    ensures h[o].left != null ==> h[o].left in Nodes(t) && h[o].left in h && h[h[o].left].parent == o
    ensures h[o].right != null ==> h[o].right in Nodes(t) && h[o].right in h && h[h[o].right].parent == o
    ensures h[o].left == h[o].right ==> h[o].left == null
    ensures o == t.id ==> h[o].parent == parent
    ensures o != t.id ==> h[o].parent != null && h[o].parent in Nodes(t) && h[o].parent in h
                          && o in {h[h[o].parent].left, h[h[o].parent].right}
  {
    assert t.left.Node? ==> t.left.id in Nodes(t.left);
    assert t.right.Node? ==> t.right.id in Nodes(t.right);
    if o in Nodes(t.left) {
      LinkedCoherent(h, t.left, t.id, o);
    } else if o in Nodes(t.right) {
      LinkedCoherent(h, t.right, t.id, o);
    }
  }

  lemma {:induction false} WholeCoherent(h: Heap, w: Shape)
    requires Linked(h, w, null) && Distinct(w) && h.Keys == Nodes(w)
    ensures Coherent(h, w.Ptr())
  {
    forall o | o in h ensures CoherentAt(h, w.Ptr(), o) {
      LinkedCoherent(h, w, null, o);
    }
  }

  /** Each cell after the successor `m` has been lifted into the place of `n`. */
  ghost function LiftedCell(h: Heap, n: TreeNode, m: TreeNode, o: TreeNode): Cell
    requires n in h && m in h && o in h
  {
    var bottom := h[m].parent;
    if o == m then
      Cell(h[n].left, if bottom == n then h[m].right else h[n].right, h[n].parent, h[m].key, h[n].red)
    else
      var cell := MovedCell(h[o], n, m);
      if o == bottom then cell.(left := h[m].right)
      else if o == h[m].right then cell.(parent := Moved(bottom, n, m)) else cell
  }

  ghost predicate Lifted(h: Heap, h': Heap, n: TreeNode, m: TreeNode) {
    n in h && m in h && n != m && h'.Keys == h.Keys - {n} && forall o | o in h' :: h'[o] == LiftedCell(h, n, m, o)
  }

  lemma {:induction false} LiftedPath(h: Heap, h': Heap, root: TreeNode?, c: Path, t: Shape, n: TreeNode)
    requires c.Under? && h.Keys == PathNodes(c) + Nodes(t) && PathNodes(c) !! Nodes(t) && PathDistinct(c)
    requires n in PathNodes(c) && t.Node? && Coherent(h, root) && Lifted(h, h', n, t.id)
    requires h[t.id] == Cell(null, t.right.Ptr(), c.id, t.key, t.red) && (t.right.Node? ==> t.right.id in Nodes(t))
    requires t.id == (if c.side == Left then h[c.id].left else h[c.id].right) && h[c.id].key == c.key
    requires Spine(c, n)
    ensures BottomMoved(h, h', c, n, t.id, t.key, t.right)
    ensures CellsMoved(h, h', PathNodes(c) - {c.id}, n, t.id, t.key)
  {
    var m, x := t.id, t.right;
    assert m in Nodes(t) && c.id in PathNodes(c);
    assert CoherentAt(h, root, n) && CoherentAt(h, root, c.id);
    forall o | o in PathNodes(c) - {c.id} - {n} ensures o in h' && h'[o] == MovedCell(h[o], n, m) {
      assert o != m && o != x.Ptr();
    }
  }

  lemma {:induction false} LiftedOrphan(h: Heap, h': Heap, root: TreeNode?, c: Path, t: Shape, n: TreeNode)
    requires c.Under? && h.Keys == PathNodes(c) + Nodes(t) && PathNodes(c) !! Nodes(t)
    requires n in PathNodes(c) && t.Node? && Distinct(t) && Coherent(h, root) && Lifted(h, h', n, t.id)
    requires Linked(h, t, c.id) && t.left.Leaf?
    ensures t.right.Node? ==>
      t.right.id in h && t.right.id in h' && h'[t.right.id] == h[t.right.id].(parent := Moved(c.id, n, t.id))
    ensures SameOn(h, h', Nodes(t.right) - {t.right.Ptr()})
  {
    var m, x := t.id, t.right;
    assert c.id in PathNodes(c);
    assert x.Node? ==> x.id in Nodes(x);
    forall o | o in Nodes(x) ensures o in h' && (o != x.Ptr() ==> h'[o] == h[o]) {
      LinkedCoherent(h, x, m, o);
    }
    if x.Node? {
      LinkedCoherent(h, x, m, x.id);
    }
  }

  lemma {:induction false} LiftedStored(h: Heap, h': Heap, root: TreeNode?, root': TreeNode?, c: Path, t: Shape, n: TreeNode)
    requires Stored(h, root, c, t) && t.Node? && t.left.Leaf? && Spine(c, n)
    requires h.Keys == PathNodes(c) + Nodes(t) && Coherent(h, root) && Lifted(h, h', n, t.id)
    requires root' == Moved(root, n, t.id)
    ensures Stored(h', root', Rename(c, n, t.id, t.key), t.right)
    ensures PathNodes(Rename(c, n, t.id, t.key)) == PathNodes(c) - {n} + {t.id}
  {
    SpineOnPath(c, n);
    assert t.right.Node? ==> t.right.id in Nodes(t.right);
    LiftedPath(h, h', root, c, t, n);
    LiftedOrphan(h, h', root, c, t, n);
    SpliceStored(h, h', root, root', c, t, n);
  }

  /** The frame of `n` and what hangs around it. */
  lemma {:induction false} SpineFrame(h: Heap, c: Path, hole: TreeNode, n: TreeNode) returns (f: Path)
    requires PathLinked(h, c, hole) && Spine(c, n) && PathDistinct(c) && hole !in PathNodes(c)
    ensures f.Under? && f.id == n && f.side == Right && f.key == KeyOn(c, n) && PathNodes(f) <= PathNodes(c)
    ensures PathDistinct(f) && n in h && PathLinked(h, f, h[n].right)
    ensures h[n].right != null && h[n].right !in PathNodes(f)
    ensures if c.id == n then h[n].right == hole
            else h[n].right in PathNodes(c) && c.id !in PathNodes(f) && h[c.id].left == hole
  {
    if c.id == n {
      f := c;
    } else {
      f := SpineFrame(h, c.up, c.id, n);
    }
  }
}
