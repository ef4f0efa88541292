/** wepoll's `tree_t`: nodes linked to their parents, rewritten in place. */
module WepollTree {
  import opened TreeShape
  import opened TreeRotation
  import opened RedBlackLaws
  import opened RemoveLaws
  import opened TreeSplice

  class Tree {
    var root: TreeNode?
    ghost var shape: Shape
    ghost var nodes: set<TreeNode>

    /** The nodes `s` are exactly those of `c` and `t`, and the heap holds `t` at the end of `c`. */
    ghost predicate At(s: set<TreeNode>, c: Path, t: Shape)
      reads this, s
    {
      s == PathNodes(c) + Nodes(t) && Stored(Picture(s), root, c, t)
    }

    lemma {:induction false} Up(s: set<TreeNode>, c: Path, t: Shape)
      requires c.Under? && At(s, c, t)
      ensures At(s, c.up, Mk(c.side, t, c.id, c.key, c.red, c.sibling))
    {
    }

    lemma {:induction false} Down(s: set<TreeNode>, c: Path, t: Shape, side: Side)
      requires t.Node? && At(s, c, t)
      ensures At(s, Under(side, t.id, t.key, t.red, t.Child(side.Other()), c), t.Child(side))
    {
    }

    lemma {:induction false} ToTop(s: set<TreeNode>, c: Path, t: Shape)
      requires At(s, c, t)
      ensures At(s, Top, Plug(c, t))
      decreases c
    {
      if c.Under? {
        Up(s, c, t);
        ToTop(s, c.up, Mk(c.side, t, c.id, c.key, c.red, c.sibling));
      }
    }

    method Paint(n: TreeNode, red: bool, ghost s: set<TreeNode>, ghost c: Path, ghost t: Shape)
      requires At(s, c, t) && t.Node? && t.id == n
      modifies n`red
      ensures At(s, c, t.(red := red))
    {
      ghost var h := Picture(s);
      n.red := red;
      Repainted(h, Picture(s), root, c, t, red);
    }

    static lemma {:induction false} Repainted(h: Heap, h': Heap, root: TreeNode?, c: Path, t: Shape, red: bool)
      requires Stored(h, root, c, t) && t.Node? && t.id in h && h' == h[t.id := h[t.id].(red := red)]
      requires forall n | n in PathNodes(c) + Nodes(t) :: n in h
      ensures Stored(h', root, c, t.(red := red)) && Nodes(t.(red := red)) == Nodes(t)
    {
      PathFrame(h, h', c, t.id);
      LinkedFrame(h, h', t.left, t.id);
      LinkedFrame(h, h', t.right, t.id);
    }

    /** The macro TREE__ROTATE: assignments only. */
    method RotatePointers(cis: Side, p: TreeNode, q: TreeNode)
      requires p != q && q == (if cis == Left then p.right else p.left) && p.parent !in {p, q}
      requires var b := if cis == Left then q.left else q.right; b !in {p, q} && (b != null ==> b != p.parent)
      modifies this`root, {p, q}`left, {p, q}`right, {p, q}`parent
      modifies (if p.parent == null then {} else {p.parent})`left, (if p.parent == null then {} else {p.parent})`right
      modifies (if cis == Left && q.left != null then {q.left} else {})`parent
      modifies (if cis == Right && q.right != null then {q.right} else {})`parent
      ensures p.parent == q && q.parent == old(p.parent)
      ensures
        var b := old(if cis == Left then q.left else q.right);
        && (if cis == Left
            then p.left == old(p.left) && p.right == b && q.left == p && q.right == old(q.right)
            else p.right == old(p.right) && p.left == b && q.right == p && q.left == old(q.left))
        && (b != null ==> b.parent == p)
      ensures
        var g := old(p.parent);
        if g == null then root == q
        else root == old(root)
             && g.left == (if old(g.left) == p then q else old(g.left))
             && g.right == (if old(g.left) == p then old(g.right) else q)
    {
      var parent := p.parent;
      if parent != null {
        if parent.left == p {
          parent.left := q;
        } else {
          parent.right := q;
        }
      } else {
        root := q;
      }
      q.parent := parent;
      p.parent := q;
      if cis == Left {
        p.right := q.left;
        if p.right != null { p.right.parent := p; }
        q.left := p;
      } else {
        p.left := q.right;
        if p.left != null { p.left.parent := p; }
        q.right := p;
      }
    }

    /** The same seen as a change of the picture of the nodes `s`. */
    method RotateIn(cis: Side, p: TreeNode, q: TreeNode, ghost s: set<TreeNode>)
      requires p in s && q in s && p != q && q == (if cis == Left then p.right else p.left)
      requires p.parent != null ==> p.parent in s - {p, q}
      requires var b := if cis == Left then q.left else q.right; b != null ==> b in s - {p, q} && b != p.parent
      modifies this`root, s
      ensures RotationEffect(old(Picture(s)), Picture(s), cis, p, q)
      ensures root == if old(p.parent) == null then q else old(root)
    {
      RotatePointers(cis, p, q);
    }

    /** Where the pointers of a rotation lead. */
    lemma {:induction false} RotateNeighbours(cis: Side, s: set<TreeNode>, c: Path, t: Shape)
      requires At(s, c, t) && t.Node? && t.Child(cis.Other()).Node?
      ensures
        var p, qt := t.id, t.Child(cis.Other());
        var q := qt.id;
        && p in s && q in s && p != q && q == (if cis == Left then p.right else p.left)
        && p.parent == c.Ptr() && (c.Under? ==> c.id in s - {p, q})
        && var b := if cis == Left then q.left else q.right;
        b == qt.Child(cis).Ptr() && (b != null ==> b in s - {p, q} && b != c.Ptr())
    {
      var qt := t.Child(cis.Other());
      assert Linked(Picture(s), qt, t.id);
      assert Distinct(qt) && Nodes(qt) == Nodes(qt.left) + {qt.id} + Nodes(qt.right);
      assert qt.Child(cis).Node? ==> qt.Child(cis).id in Nodes(qt.Child(cis));
    }

    method Rotate(cis: Side, p: TreeNode, ghost s: set<TreeNode>, ghost c: Path, ghost t: Shape)
      requires At(s, c, t) && t.Node? && t.id == p && t.Child(cis.Other()).Node?
      modifies this`root, s
      ensures At(s, c, Rotated(cis, t))
    {
      ghost var h := Picture(s);
      RotateNeighbours(cis, s, c, t);
      var q := if cis == Left then p.right else p.left;
      RotateIn(cis, p, q, s);
      RotationStored(h, Picture(s), old(root), cis, c, t);
      RotatedApart(cis, c, t);
    }

    ghost predicate Valid()
      reads this, nodes
    {
      At(nodes, Top, shape) && IsRedBlack(shape) && Sorted(Items(shape))
    }

    /** The finite map from keys to nodes that the tree stands for. */
    ghost function Contents(): map<int, TreeNode>
      reads this
    {
      ToMap(Items(shape))
    }

    // ----- tree_add -----

    /** TREE__REBALANCE_AFTER_INSERT(cis, trans): `parent` is red and is the `cis` child of its
        own parent. */
    method RebalanceAfterInsert(cis: Side, node: TreeNode, parent: TreeNode,
                                ghost s: set<TreeNode>, ghost c: Path, ghost t: Shape)
      returns (node': TreeNode, ghost c': Path, ghost t': Shape)
      requires At(s, c, t) && InsertInvariant(c, t) && t.id == node && c.IsRed() && c.id == parent
      requires c.up.side == cis
      modifies this`root, s
      ensures At(s, c', t') && InsertInvariant(c', t') && t'.id == node' && Depth(c') < Depth(c)
      ensures Reading(c', t') == Reading(c, t)
    {
      var trans := cis.Other();
      ghost var p := Mk(c.side, t, c.id, c.key, c.red, c.sibling);
      Up(s, c, t);
      Up(s, c.up, p);
      var grandparent := parent.parent;
      var uncle := if trans == Left then grandparent.left else grandparent.right;
      if uncle != null && uncle.red {
        ghost var g, up := c.up, c.up.up;
        ghost var u', p' := g.sibling.(red := false), p.(red := false);
        InsertRecolour(c, t);
        Down(s, up, Mk(cis, p, g.id, g.key, g.red, g.sibling), trans);
        Paint(uncle, false, s, Under(trans, g.id, g.key, g.red, p, up), g.sibling);
        Up(s, Under(trans, g.id, g.key, g.red, p, up), u');
        Down(s, up, Mk(cis, p, g.id, g.key, g.red, u'), cis);
        Paint(parent, false, s, Under(cis, g.id, g.key, g.red, u', up), p);
        Up(s, Under(cis, g.id, g.key, g.red, u', up), p');
        t' := Mk(cis, p', g.id, g.key, g.red, u');
        Paint(grandparent, true, s, up, t');
        node', c', t' := grandparent, up, t'.(red := true);
      } else {
        node', c', t' := node, c, t;
        if node == (if trans == Left then parent.left else parent.right) {
          RotateNeighbours(cis, s, c.up, p);
          InsertStraighten(c, t);
          Rotate(cis, parent, s, c.up, p);
          t' := Mk(cis, c.sibling, c.id, c.key, true, t.Child(cis));
          Down(s, c.up, Mk(cis, t', t.id, t.key, true, t.Child(c.side)), cis);
          node', c' := parent, Under(cis, t.id, t.key, true, t.Child(c.side), c.up);
        }
        c' := FinishInsert(cis, node'.parent, grandparent, s, c', t');
      }
    }

    /** The last lines of the macro: two colour changes and the outer rotation. */
    method FinishInsert(cis: Side, parent: TreeNode, grandparent: TreeNode,
                        ghost s: set<TreeNode>, ghost c: Path, ghost t: Shape)
      returns (ghost c': Path)
      requires At(s, c, t) && InsertInvariant(c, t) && c.IsRed() && c.id == parent && c.up.id == grandparent
      requires c.side == c.up.side == cis && !c.up.sibling.IsRed()
      modifies this`root, s
      ensures At(s, c', t) && InsertInvariant(c', t) && Depth(c') < Depth(c) && Reading(c', t) == Reading(c, t)
    {
      ghost var g := c.up;
      ghost var p := Mk(cis, t, c.id, c.key, true, c.sibling);
      Up(s, c, t);
      Paint(parent, false, s, g, p);
      Up(s, g, p.(red := false));
      ghost var gt := Mk(cis, p.(red := false), g.id, g.key, g.red, g.sibling);
      Paint(grandparent, true, s, g.up, gt);
      InsertRotate(c, t);
      Rotate(cis.Other(), grandparent, s, g.up, gt.(red := true));
      ghost var far := Mk(cis, c.sibling, g.id, g.key, true, g.sibling);
      Down(s, g.up, Mk(cis, t, c.id, c.key, false, far), cis);
      c' := Under(cis, c.id, c.key, false, far, g.up);
    }

    /** Where a search for `key` has come to. */
    ghost predicate Searching(c: Path, t: Shape, key: int)
      reads this, nodes
    {
      At(nodes, c, t) && Good(t) && GoodPath(c, BlackHeight(t)) && Fits(c, t)
      && Plug(c, t) == shape && Reading(c, t) == Items(shape) && Sorted(Items(shape)) && Brackets(c, key)
    }

    lemma {:induction false} SearchStep(c: Path, t: Shape, key: int, side: Side)
      requires Searching(c, t, key) && t.Node?
      requires if side == Left then key < t.id.key else t.id.key < key
      ensures Searching(Under(side, t.id, t.key, t.red, t.Child(side.Other()), c), t.Child(side), key)
      ensures t.Child(side).Ptr() == if side == Left then t.id.left else t.id.right
    {
      Down(nodes, c, t, side);
      Around(shape, c, t);
      BracketsDown(c, t, side, key);
    }

    lemma {:induction false} SearchKey(c: Path, t: Shape, key: int)
      requires Searching(c, t, key)
      ensures t.Node? ==> t.id.key == t.key && (t.key == key ==> key in Contents() && Contents()[key] == t.id)
      ensures t.Leaf? ==> key !in Contents()
    {
      if t.Node? {
        Around(shape, c, t);
      } else {
        Absent(c, key);
      }
    }

    /** The loop of TREE__INSERT_OR_DESCEND: the node with the key, or the empty place for it. */
    method Descend(key: int) returns (parent: TreeNode?, side: Side, found: bool, ghost c: Path)
      requires Valid()
      ensures found <==> key in Contents()
      ensures !found ==> Searching(c, Leaf, key) && parent == c.Ptr() && (c.Under? ==> c.side == side)
    {
      ghost var t := shape;
      c := Top;
      parent, side, found := root, Left, false;
      if parent != null {
        while true
          invariant Searching(c, t, key) && t.Ptr() == parent && t.Node?
          decreases t
        {
          SearchKey(c, t, key);
          if key == parent.key {
            return parent, side, true, c;
          }
          side := if key < parent.key then Left else Right;
          SearchStep(c, t, key, side);
          c, t := Under(side, t.id, t.key, t.red, t.Child(side.Other()), c), t.Child(side);
          var child := if side == Left then parent.left else parent.right;
          if child == null {
            break;
          }
          parent := child;
        }
      }
      SearchKey(c, t, key);
    }

    /** The assignments that hang `node` in the empty place at the end of `c`. */
    method Link(node: TreeNode, key: int, parent: TreeNode?, side: Side, ghost s: set<TreeNode>, ghost c: Path)
      requires At(s, c, Leaf) && node !in s && parent == c.Ptr() && (c.Under? ==> c.side == side)
      modifies this`root, s, node
      ensures At(s + {node}, c, Node(Leaf, node, key, true, Leaf))
    {
      ghost var h := Picture(s);
      assert parent != null ==> parent in s;
      if parent == null {
        root := node;
      } else if side == Left {
        parent.left := node;
      } else {
        parent.right := node;
      }
      node.key := key;
      node.left, node.right := null, null;
      node.parent := parent;
      node.red := true;
      Attached(h, Picture(s + {node}), old(root), root, c, node, key);
    }

    /** `tree->root->red = false`. */
    method BlackenRoot(ghost s: set<TreeNode>, ghost c: Path, ghost t: Shape) returns (ghost w: Shape)
      requires At(s, c, t) && InsertInvariant(c, t) && !c.IsRed()
      modifies s
      ensures At(s, Top, w) && IsRedBlack(w) && Items(w) == Reading(c, t)
    {
      ghost var p := Plug(c, t);
      ToTop(s, c, t);
      PlugItems(c, t);
      PlugRed(c, t);
      Paint(root, false, s, Top, p);
      w := p.(red := false);
      assert Items(w) == Items(p);
    }

    /** What the heap says about the parent of the focus. */
    lemma {:induction false} ParentFacts(s: set<TreeNode>, c: Path, t: Shape)
      requires At(s, c, t)
      ensures t.Node? ==> t.id in s && t.id.parent == c.Ptr()
      ensures c.Under? ==> c.id in s && c.id.red == c.red && c.id.parent == c.up.Ptr()
      ensures c.Under? && t.Node? ==> (if c.side == Left then c.id.left else c.id.right) == t.id
      ensures c.Under? && t.Node? ==> (if c.side == Left then c.id.right else c.id.left) == c.sibling.Ptr() != t.id
    {
      assert c.Under? && c.sibling.Node? ==> c.sibling.id in Nodes(c.sibling);
    }

    /** The loop that restores the colours after an insertion. */
    method FixInsert(node: TreeNode, ghost s: set<TreeNode>, ghost c: Path, ghost t: Shape)
      returns (ghost c': Path, ghost t': Shape)
      requires At(s, c, t) && InsertInvariant(c, t) && t.id == node
      modifies this`root, s
      ensures At(s, c', t') && InsertInvariant(c', t') && !c'.IsRed() && Reading(c', t') == Reading(c, t)
    {
      var n, parent := node, node.parent;
      c', t' := c, t;
      ParentFacts(s, c', t');
      while parent != null && parent.red
        invariant At(s, c', t') && InsertInvariant(c', t') && t'.id == n
        invariant parent == c'.Ptr() && (parent != null ==> parent.red == c'.red)
        invariant Reading(c', t') == Reading(c, t)
        decreases Depth(c')
      {
        Up(s, c', t');
        ParentFacts(s, c'.up, Mk(c'.side, t', c'.id, c'.key, c'.red, c'.sibling));
        ParentFacts(s, c', t');
        var cis := if parent == parent.parent.left then Left else Right;
        n, c', t' := RebalanceAfterInsert(cis, n, parent, s, c', t');
        ParentFacts(s, c', t');
        parent := n.parent;
      }
    }

    /** tree_add once the empty place is known. */
    method AddAt(node: TreeNode, key: int, parent: TreeNode?, side: Side, ghost c: Path)
      requires Searching(c, Leaf, key) && node !in nodes && parent == c.Ptr() && (c.Under? ==> c.side == side)
      modifies this, nodes, node
      ensures Valid() && Contents() == old(Contents())[key := node] && nodes == old(nodes) + {node}
    {
      hide Items, Linked, Nodes, PathDistinct, PathLinked, PathNodes, Plug, Reading, Sorted, ToMap;
      ghost var t, s := Node(Leaf, node, key, true, Leaf), nodes + {node};
      SortedInsert(shape, c, key, node);
      Link(node, key, parent, side, nodes, c);
      ghost var c', t' := FixInsert(node, s, c, t);
      shape := BlackenRoot(s, c', t');
      nodes := s;
    }

    /** Adds `node` under `key`, or returns -1 and changes nothing when the key is present. */
    method Add(node: TreeNode, key: int) returns (r: int)
      requires Valid() && node !in nodes
      modifies this, nodes, node
      ensures Valid() && r in {0, -1}
      ensures r == -1 <==> key in old(Contents())
      ensures r == -1 ==> unchanged(this) && unchanged(nodes) && unchanged(node)
      ensures r == 0 ==> Contents() == old(Contents())[key := node] && nodes == old(nodes) + {node}
    {
      ghost var c;
      var parent, side, found;
      parent, side, found, c := Descend(key);
      if found {
        return -1;
      }
      AddAt(node, key, parent, side, c);
      r := 0;
    }

    // ----- tree_find -----

    lemma {:induction false} SearchDone(c: Path, t: Shape, key: int)
      requires Searching(c, t, key)
      requires t.Leaf? || t.id.key == key
      ensures t.Ptr() == if key in Contents() then Contents()[key] else null
    {
      SearchKey(c, t, key);
    }

    /** The tree is balanced: no path is longer than 2 log2(n + 1). */
    lemma {:induction false} Balanced()
      requires Valid()
      ensures Pow2(Height(shape)) <= (|Contents()| + 1) * (|Contents()| + 1)
    {
      PathBound(shape);
    }

    /** The node stored under `key`; `visited` counts the nodes looked at, at most 2 log2(n + 1). */
    method Find(key: int) returns (node: TreeNode?, ghost visited: nat)
      requires Valid()
      ensures node == if key in Contents() then Contents()[key] else null
      ensures visited == Looked(shape, key) && Pow2(visited) <= (|Contents()| + 1) * (|Contents()| + 1)
    {
      node := root;
      ghost var c, t := Top, shape;
      visited := 0;
      while node != null && node.key != key
        invariant Searching(c, t, key) && t.Ptr() == node && visited + Looked(t, key) == Looked(shape, key)
        decreases t
      {
        SearchKey(c, t, key);
        var side := if key < node.key then Left else Right;
        SearchStep(c, t, key, side);
        c, t := Under(side, t.id, t.key, t.red, t.Child(side.Other()), c), t.Child(side);
        node := if side == Left then node.left else node.right;
        visited := visited + 1;
      }
      visited := visited + if node == null then 0 else 1;
      SearchKey(c, t, key);
      SearchDone(c, t, key);
      Balanced();
      Pow2Monotone(visited, Height(shape));
    }

    // ----- tree_del: the fix-up -----

    /** First rule: a red sibling. */
    method RotateRedSibling(cis: Side, parent: TreeNode, sibling: TreeNode,
                            ghost s: set<TreeNode>, ghost c: Path, ghost t: Shape)
      returns (ghost c': Path)
      requires At(s, c, t) && ShortInvariant(c, t) && c.Under? && c.side == cis && c.id == parent
      requires c.sibling.IsRed() && c.sibling.id == sibling
      modifies this`root, s
      ensures At(s, c', t) && ShortInvariant(c', t) && Reading(c', t) == Reading(c, t)
      ensures c'.Under? && c'.side == cis && c'.id == parent && !c'.sibling.IsRed() && c'.red
    {
      ghost var o, b, up := cis.Other(), c.sibling, c.up;
      ghost var b' := b.(red := false);
      ghost var p := Mk(cis, t, c.id, c.key, c.red, b);
      RedSibling(c, t);
      Up(s, c, t);
      Down(s, up, p, o);
      Paint(sibling, false, s, Under(o, c.id, c.key, c.red, t, up), b);
      Up(s, Under(o, c.id, c.key, c.red, t, up), b');
      Paint(parent, true, s, up, Mk(cis, t, c.id, c.key, c.red, b'));
      Rotate(cis, parent, s, up, Mk(cis, t, c.id, c.key, true, b'));
      ghost var g := Under(cis, b.id, b.key, false, b.Child(o), up);
      ghost var p' := Mk(cis, t, c.id, c.key, true, b.Child(cis));
      Down(s, up, Mk(cis, p', b.id, b.key, false, b.Child(o)), cis);
      Down(s, g, p', cis);
      c' := Under(cis, c.id, c.key, true, b.Child(cis), g);
    }

    /** The near nephew is red, the far one is not. */
    method RotateNearNephew(cis: Side, sibling: TreeNode, ghost s: set<TreeNode>, ghost c: Path, ghost t: Shape)
      returns (ghost c': Path)
      requires At(s, c, t) && ShortInvariant(c, t) && c.Under? && c.side == cis
      requires c.sibling.Node? && !c.sibling.red && c.sibling.id == sibling
      requires c.sibling.Child(cis).IsRed() && !c.sibling.Child(cis.Other()).IsRed()
      modifies this`root, s
      ensures At(s, c', t) && ShortInvariant(c', t) && Reading(c', t) == Reading(c, t)
      ensures c'.Under? && c' == c.(sibling := c'.sibling)
      ensures c'.sibling.Node? && !c'.sibling.red && c'.sibling.Child(cis.Other()).IsRed()
    {
      ghost var o, b, up := cis.Other(), c.sibling, c.up;
      ghost var n := b.Child(cis);
      ghost var d := Under(o, c.id, c.key, c.red, t, up);
      NearNephew(c, t);
      Up(s, c, t);
      Down(s, up, Mk(cis, t, c.id, c.key, c.red, b), o);
      Down(s, d, b, cis);
      var near := if cis == Left then sibling.left else sibling.right;
      Paint(near, false, s, Under(cis, b.id, b.key, b.red, b.Child(o), d), n);
      ghost var b1 := Mk(cis, n.(red := false), b.id, b.key, false, b.Child(o));
      Up(s, Under(cis, b.id, b.key, b.red, b.Child(o), d), n.(red := false));
      Paint(sibling, true, s, d, b1);
      Rotate(cis.Other(), sibling, s, d, b1.(red := true));
      ghost var b2 := Rotated(o, b1.(red := true));
      Up(s, d, b2);
      Down(s, up, Mk(cis, t, c.id, c.key, c.red, b2), cis);
      c' := c.(sibling := b2);
    }

    /** The far nephew is red: recolour and rotate, and the whole tree is in order. */
    method RotateFarNephew(cis: Side, parent: TreeNode, sibling: TreeNode,
                           ghost s: set<TreeNode>, ghost c: Path, ghost t: Shape)
      returns (ghost r: Shape)
      requires At(s, c, t) && ShortInvariant(c, t) && c.Under? && c.side == cis && c.id == parent
      requires c.sibling.Node? && !c.sibling.red && c.sibling.id == sibling && c.sibling.Child(cis.Other()).IsRed()
      modifies this`root, s
      ensures At(s, c.up, r) && Good(r) && GoodPath(c.up, BlackHeight(r)) && Fits(c.up, r)
      ensures Reading(c.up, r) == Reading(c, t)
    {
      ghost var o, b, up := cis.Other(), c.sibling, c.up;
      ghost var d := Under(o, c.id, c.key, c.red, t, up);
      FarNephew(c, t);
      ParentFacts(s, c, t);
      Up(s, c, t);
      Down(s, up, Mk(cis, t, c.id, c.key, c.red, b), o);
      Paint(sibling, parent.red, s, d, b);
      ghost var b' := b.(red := c.red);
      Down(s, d, b', o);
      var far := if cis == Left then sibling.right else sibling.left;
      Paint(far, false, s, Under(o, b.id, b.key, c.red, b.Child(cis), d), b.Child(o));
      Up(s, Under(o, b.id, b.key, c.red, b.Child(cis), d), b.Child(o).(red := false));
      ghost var b2 := Mk(cis, b.Child(cis), b.id, b.key, c.red, b.Child(o).(red := false));
      Up(s, d, b2);
      Paint(parent, false, s, up, Mk(cis, t, c.id, c.key, c.red, b2));
      Rotate(cis, parent, s, up, Mk(cis, t, c.id, c.key, false, b2));
      r := Rotated(cis, Mk(cis, t, c.id, c.key, false, b2));
    }

    /** TREE__REBALANCE_AFTER_REMOVE(cis, trans); `done` tells that the macro left the loop. */
    method RebalanceAfterRemove(cis: Side, parent: TreeNode, ghost s: set<TreeNode>, ghost c: Path, ghost t: Shape)
      returns (done: bool, ghost c': Path, ghost t': Shape)
      requires At(s, c, t) && ShortInvariant(c, t) && c.Under? && c.side == cis && c.id == parent
      modifies this`root, s
      ensures At(s, c', t') && Reading(c', t') == Reading(c, t) && t'.Node?
      ensures done ==> Good(t') && GoodPath(c', BlackHeight(t')) && Fits(c', t')
      ensures !done ==> t'.id == parent && (t'.red ==> Repaired(c', t'))
      ensures !done && !t'.red ==> ShortInvariant(c', t') && Depth(c') < Depth(c)
    {
      c' := c;
      SiblingExists(c, t);
      SiblingFacts(s, c, t);
      var sibling := if cis == Left then parent.right else parent.left;
      if sibling.red {
        c' := RotateRedSibling(cis, parent, sibling, s, c, t);
        SiblingExists(c', t);
        SiblingFacts(s, c', t);
        sibling := if cis == Left then parent.right else parent.left;
      }
      var near := if cis == Left then sibling.left else sibling.right;
      var far := if cis == Left then sibling.right else sibling.left;
      if (near != null && near.red) || (far != null && far.red) {
        if far == null || !far.red {
          c' := RotateNearNephew(cis, sibling, s, c', t);
          SiblingFacts(s, c', t);
          sibling := if cis == Left then parent.right else parent.left;
        }
        t' := RotateFarNephew(cis, parent, sibling, s, c', t);
        done, c' := true, c'.up;
      } else {
        t' := DarkenSibling(cis, sibling, s, c', t);
        done, c' := false, c'.up;
      }
    }

    /** Last rule, `sibling->red = true`: no nephew is red. */
    method DarkenSibling(cis: Side, sibling: TreeNode, ghost s: set<TreeNode>, ghost c: Path, ghost t: Shape)
      returns (ghost p: Shape)
      requires At(s, c, t) && ShortInvariant(c, t) && c.Under? && c.side == cis
      requires c.sibling.Node? && !c.sibling.red && c.sibling.id == sibling
      requires !c.sibling.Child(cis).IsRed() && !c.sibling.Child(cis.Other()).IsRed()
      modifies s
      ensures At(s, c.up, p) && Reading(c.up, p) == Reading(c, t) && p.Node? && p.id == c.id && p.red == c.red
      ensures if p.red then Repaired(c.up, p) else ShortInvariant(c.up, p)
    {
      BlackNephews(c, t);
      ghost var b, d := c.sibling, Under(cis.Other(), c.id, c.key, c.red, t, c.up);
      Up(s, c, t);
      Down(s, c.up, Mk(cis, t, c.id, c.key, c.red, b), cis.Other());
      Paint(sibling, true, s, d, b);
      Up(s, d, b.(red := true));
      p := Mk(cis, t, c.id, c.key, c.red, b.(red := true));
    }

    /** What the heap says about the sibling of the focus and its children. */
    lemma {:induction false} SiblingFacts(s: set<TreeNode>, c: Path, t: Shape)
      requires At(s, c, t) && c.Under? && c.sibling.Node?
      ensures
        var b := c.sibling.id;
        var near, far := c.sibling.Child(c.side), c.sibling.Child(c.side.Other());
        && c.id in s && b in s && b == (if c.side == Left then c.id.right else c.id.left) && b.red == c.sibling.red
        && near.Ptr() == (if c.side == Left then b.left else b.right)
        && far.Ptr() == (if c.side == Left then b.right else b.left)
        && (near.Node? ==> near.id in s && near.id.red == near.red)
        && (far.Node? ==> far.id in s && far.id.red == far.red)
    {
      var h := Picture(s);
      assert Linked(h, c.sibling, c.id);
      assert Linked(h, c.sibling.left, c.sibling.id) && Linked(h, c.sibling.right, c.sibling.id);
    }

    /** The two pointer tests of the loop tell where the focus is. */
    lemma {:induction false} ClimbFacts(s: set<TreeNode>, c: Path, t: Shape)
      requires At(s, c, t) && ShortInvariant(c, t)
      ensures t.Ptr() == root <==> c.Top?
      ensures c.Under? ==> (t.Ptr() == c.id.left <==> c.side == Left)
    {
      RootOnPath(c, t.Ptr());
      if c.Under? {
        SiblingExists(c, t);
        assert c.sibling.id in Nodes(c.sibling);
      }
    }

    lemma {:induction false} DoneAtTop(s: set<TreeNode>, c: Path, t: Shape)
      requires At(s, c, t) && Good(t) && GoodPath(c, BlackHeight(t)) && Fits(c, t) && t.Node?
      ensures At(s, Top, Plug(c, t)) && Repaired(Top, Plug(c, t)) && Plug(c, t).Ptr() == root
      ensures Reading(Top, Plug(c, t)) == Reading(c, t)
    {
      ToTop(s, c, t);
      PlugGood(c, t);
      PlugItems(c, t);
    }

    /** The loop of tree_del up to its exit. */
    method ClimbAfterRemove(node0: TreeNode?, parent0: TreeNode?, ghost s: set<TreeNode>, ghost c0: Path, ghost t0: Shape)
      returns (node: TreeNode?, ghost c: Path, ghost t: Shape)
      requires At(s, c0, t0) && ShortInvariant(c0, t0) && node0 == t0.Ptr() && parent0 == c0.Ptr()
      modifies this`root, s
      ensures At(s, c, t) && Reading(c, t) == Reading(c0, t0) && Repaired(c, t) && node == t.Ptr()
    {
      var parent := parent0;
      node, c, t := node0, c0, t0;
      ClimbFacts(s, c, t);
      while node != root
        invariant At(s, c, t) && node == t.Ptr() && parent == c.Ptr()
        invariant Reading(c, t) == Reading(c0, t0)
        invariant ShortInvariant(c, t) && (node == root <==> c.Top?)
        decreases Depth(c)
      {
        ClimbFacts(s, c, t);
        var cis := if node == parent.left then Left else Right;
        var done;
        done, c, t := RebalanceAfterRemove(cis, parent, s, c, t);
        if done {
          DoneAtTop(s, c, t);
          return root, Top, Plug(c, t);
        }
        ParentFacts(s, c, t);
        node := parent;
        parent := parent.parent;
        if node.red {
          return;
        }
        ClimbFacts(s, c, t);
      }
    }

    /** The colour tests of tree_del after the node is out; `red` is the colour that went away. */
    method FixRemove(red: bool, node: TreeNode?, parent: TreeNode?, ghost s: set<TreeNode>, ghost c: Path, ghost t: Shape)
      returns (ghost w: Shape)
      requires At(s, c, t) && Good(t) && GoodPath(c, BlackHeight(t) + if red then 0 else 1) && (red ==> !t.IsRed())
      requires node == t.Ptr() && parent == c.Ptr()
      modifies this`root, s
      ensures At(s, Top, w) && IsRedBlack(w) && Items(w) == Reading(c, t)
    {
      ghost var c', t' := c, t;
      var n := node;
      if !red {
        ParentFacts(s, c, t);
        if node != null && node.red {
        } else {
          n, c', t' := ClimbAfterRemove(node, parent, s, c, t);
        }
        if n != null {
          Paint(n, false, s, c', t');
          SameReading(c', t', t'.(red := false));
          t' := t'.(red := false);
        }
      }
      ToTop(s, c', t');
      PlugGood(c', t');
      PlugItems(c', t');
      w := Plug(c', t');
    }

    // ----- tree_del: taking the node out -----

    /** A node of a subtree, seen as a position. */
    lemma {:induction false} Locate(s: set<TreeNode>, c0: Path, t0: Shape, n: TreeNode) returns (c: Path, t: Shape)
      requires At(s, c0, t0) && n in Nodes(t0)
      ensures At(s, c, t) && Plug(c, t) == Plug(c0, t0) && t.Node? && t.id == n
      decreases t0
    {
      if t0.id == n {
        return c0, t0;
      }
      var side := if n in Nodes(t0.left) then Left else Right;
      Down(s, c0, t0, side);
      c, t := Locate(s, Under(side, t0.id, t0.key, t0.red, t0.Child(side.Other()), c0), t0.Child(side), n);
    }

    /** `next = right; while (next->left) next = next->left;` */
    method Successor(node: TreeNode, ghost s: set<TreeNode>, ghost c0: Path, ghost t0: Shape)
      returns (next: TreeNode, ghost c: Path, ghost t: Shape)
      requires At(s, c0, t0) && t0.Node? && t0.id == node && t0.right.Node?
      ensures At(s, c, t) && Plug(c, t) == Plug(c0, t0) && t.Node? && t.id == next && t.left.Leaf? && Spine(c, node)
    {
      Down(s, c0, t0, Right);
      c, t := Under(Right, node, t0.key, t0.red, t0.left, c0), t0.right;
      next := node.right;
      while next.left != null
        invariant At(s, c, t) && Plug(c, t) == Plug(c0, t0) && t.Node? && t.id == next && Spine(c, node)
        decreases t
      {
        SpineOnPath(c, node);
        assert t.id in Nodes(t);
        Down(s, c, t, Left);
        c, t := Under(Left, t.id, t.key, t.red, t.right, c), t.left;
        next := next.left;
      }
    }

    /** The assignments of tree_del for a node with two children. */
    method LiftPointers(node: TreeNode, next: TreeNode) returns (node': TreeNode?, parent': TreeNode, red: bool)
      requires node != next && node.left != null && node.right != null && next.parent != null
      requires next.parent == node <==> next == node.right
      requires node.parent !in {next, next.right, next.parent, node, node.left, node.right} || node.parent == null
      requires node.left !in {next, next.right, next.parent, node, node.right}
      requires next.right !in {next, next.parent, node, node.right} || next.right == null
      requires node.right != node && next.parent != next
      modifies this`root, next
      modifies {node.left, node.right, next.parent}`parent, next.parent`left
      modifies (if node.parent == null then {} else {node.parent})`left
      modifies (if node.parent == null then {} else {node.parent})`right
      modifies (if next.right == null then {} else {next.right})`parent
      ensures root == if old(node.parent) == null then next else old(root)
      ensures next.Fields() == old(Cell(node.left, if next == node.right then next.right else node.right,
                                        node.parent, next.key, node.red))
      ensures
        var g := old(node.parent);
        g != null ==> && g.left == (if old(g.left) == node then next else old(g.left))
                      && g.right == (if old(g.left) == node then old(g.right) else next)
      ensures old(node.left).parent == next
      ensures old(next != node.right) ==> old(node.right).parent == next && parent'.left == old(next.right)
      ensures old(next != node.right && next.parent != node.right) ==> parent'.parent == old(next.parent.parent)
      ensures parent' == (if old(next == node.right) then next else old(next.parent))
      ensures node' == old(next.right) && red == old(next.red) && (node' != null ==> node'.parent == parent')
      ensures unchanged(node)
    {
      var parent := node.parent;
      var left := node.left;
      var right := node.right;
      if parent != null {
        if parent.left == node {
          parent.left := next;
        } else {
          parent.right := next;
        }
      } else {
        root := next;
      }
      red := next.red;
      next.red := node.red;
      next.left := left;
      left.parent := next;
      if next != right {
        parent' := next.parent;
        next.parent := node.parent;
        node' := next.right;
        parent'.left := node';
        next.right := right;
        right.parent := next;
      } else {
        next.parent := parent;
        parent' := next;
        node' := next.right;
      }
      if node' != null {
        node'.parent := parent';
      }
    }

    /** The same seen as a change of the picture. */
    method LiftIn(node: TreeNode, next: TreeNode, ghost s: set<TreeNode>)
      returns (node': TreeNode?, parent': TreeNode, red: bool)
      requires Coherent(Picture(s), root) && node in s && next in s && node != next
      requires node.left != null && node.right != null && next.left == null && next.parent != null
      requires if next.parent == node then next == node.right else next == next.parent.left && next != node.right
      requires node.parent !in {next, next.right, next.parent, node.left, node.right} || node.parent == null
      requires node.left !in {next, next.right, next.parent}
      requires next.right !in {next.parent, node.right} || next.right == null
      modifies this`root, s
      ensures Lifted(old(Picture(s)), Picture(s - {node}), node, next) && root == Moved(old(root), node, next)
      ensures unchanged(node)
      ensures node' == old(next.right) && parent' == Moved(old(next.parent), node, next) && red == old(next.red)
    {
      ghost var h, root0 := Picture(s), root;
      assert CoherentAt(h, root0, node) && CoherentAt(h, root0, next);
      node', parent', red := LiftPointers(node, next);
      forall o | o in s - {node} ensures o.Fields() == LiftedCell(h, node, next, o) {
        assert CoherentAt(h, root0, o);
      }
    }

    lemma {:induction false} PictureCoherent(s: set<TreeNode>, c: Path, t: Shape)
      requires At(s, c, t)
      ensures Coherent(Picture(s), root)
    {
      ToTop(s, c, t);
      WholeCoherent(Picture(s), Plug(c, t));
    }

    /** Where the pointers around a node and its successor lead. */
    lemma {:induction false} LiftNeighbours(s: set<TreeNode>, c: Path, t: Shape, node: TreeNode)
      requires At(s, c, t) && t.Node? && t.left.Leaf? && Spine(c, node)
      requires node in s ==> node.left != null
      ensures node in s && t.id in s && node != t.id && t.id.left == null && t.id.parent == c.id && node.right != null
      ensures t.id.right == t.right.Ptr() && t.id.red == t.red
      ensures if c.id == node then t.id == node.right else t.id == c.id.left && t.id != node.right
      ensures node.parent !in {t.id, t.id.right, c.id, node.left, node.right} || node.parent == null
      ensures node.left !in {t.id, t.id.right, c.id}
      ensures t.id.right !in {c.id, node.right} || t.id.right == null
    {
      var h := Picture(s);
      SpineOnPath(c, node);
      var f := SpineFrame(h, c, t.id, node);
      assert t.right.Node? ==> t.right.id in Nodes(t.right);
      assert f.sibling.Node? ==> f.sibling.id in Nodes(f.sibling);
      assert f.up.Under? ==> f.up.id in PathNodes(f.up);
      assert c.id in PathNodes(c) && t.id in Nodes(t);
    }

    /** tree_del for a node with two children, up to the colour tests. */
    method Lift(node: TreeNode, next: TreeNode, ghost s: set<TreeNode>, ghost c: Path, ghost t: Shape)
      returns (node': TreeNode?, parent': TreeNode, red: bool)
      requires At(s, c, t) && t.Node? && t.id == next && t.left.Leaf? && Spine(c, node)
      requires node in s ==> node.left != null
      modifies this`root, s
      ensures At(s - {node}, Rename(c, node, next, t.key), t.right) && node in s && unchanged(node)
      ensures node' == t.right.Ptr() && parent' == Rename(c, node, next, t.key).Ptr() && red == t.red
    {
      ghost var h := Picture(s);
      SpineOnPath(c, node);
      LiftNeighbours(s, c, t, node);
      PictureCoherent(s, c, t);
      node', parent', red := LiftIn(node, next, s);
      LiftedStored(h, Picture(s - {node}), old(root), root, c, t, node);
      RenamePtr(c, node, next, t.key, next);
      assert node !in Nodes(t.right) && next !in Nodes(t.right);
    }

    method BypassPointers(node: TreeNode, next: TreeNode?) returns (red: bool)
      requires next != node && node.parent != node && (next != null ==> next != node.parent)
      modifies this`root, (if next == null then {} else {next})`parent
      modifies (if node.parent == null then {} else {node.parent})`left
      modifies (if node.parent == null then {} else {node.parent})`right
      ensures red == node.red && root == (if node.parent == null then next else old(root))
      ensures next != null ==> next.parent == node.parent
      ensures
        var g := node.parent;
        g != null ==> && g.left == (if old(g.left) == node then next else old(g.left))
                      && g.right == (if old(g.left) == node then old(g.right) else next)
    {
      var parent := node.parent;
      if parent != null {
        if parent.left == node {
          parent.left := next;
        } else {
          parent.right := next;
        }
      } else {
        root := next;
      }
      red := node.red;
      if next != null {
        next.parent := parent;
      }
    }

    /** tree_del for a node with at most one child, up to the colour tests. */
    method Bypass(node: TreeNode, next: TreeNode?, ghost s: set<TreeNode>, ghost c: Path, ghost t: Shape)
      returns (red: bool)
      requires At(s, c, t) && t.Node? && t.id == node
      requires (t.left.Leaf? && next == t.right.Ptr()) || (t.right.Leaf? && next == t.left.Ptr())
      modifies this`root, s
      ensures At(s - {node}, c, if t.left.Leaf? then t.right else t.left) && red == t.red && unchanged(node)
    {
      hide Distinct, Linked, PathDistinct, PathLinked, PathNodes, Plug;
      ghost var h := Picture(s);
      ghost var x := if t.left.Leaf? then t.right else t.left;
      ParentFacts(s, c, t);
      BypassFacts(s, c, t, x);
      red := BypassPointers(node, next);
      OneChildStored(h, Picture(s - {node}), old(root), root, c, t, x);
    }

    lemma {:induction false} BypassFacts(s: set<TreeNode>, c: Path, t: Shape, x: Shape)
      requires At(s, c, t) && t.Node?
      requires (t.left.Leaf? && x == t.right) || (t.right.Leaf? && x == t.left)
      ensures t.id.parent != t.id && x.Ptr() != t.id && (x.Node? ==> x.id in s && x.id != t.id.parent)
      ensures s - {t.id} == PathNodes(c) + Nodes(x) && t.id.red == t.red
    {
      assert Linked(Picture(s), x, t.id);
      assert x.Node? ==> x.id in Nodes(x);
    }

    method UnhookTwo(node: TreeNode, ghost c0: Path, ghost t0: Shape)
      returns (node': TreeNode?, parent': TreeNode, red: bool, ghost c: Path, ghost x: Shape)
      requires Valid() && At(nodes, c0, t0) && Plug(c0, t0) == shape && t0.Node? && t0.id == node
      requires t0.left.Node? && t0.right.Node?
      modifies this`root, nodes
      ensures At(nodes - {node}, c, x) && Remains(c, x, red, old(Contents()) - {node.key}) && unchanged(node)
      ensures node' == x.Ptr() && parent' == c.Ptr()
    {
      var next;
      ghost var t;
      next, c, t := Successor(node, nodes, c0, t0);
      TwoChildrenOut(c, t, node);
      node', parent', red := Lift(node, next, nodes, c, t);
      c, x := Rename(c, node, next, t.key), t.right;
    }

    /** tree_del up to the colour tests. */
    method Unhook(node: TreeNode)
      returns (node': TreeNode?, parent': TreeNode?, red: bool, ghost c: Path, ghost x: Shape)
      requires Valid() && node in nodes
      modifies this`root, nodes
      ensures At(nodes - {node}, c, x) && Remains(c, x, red, old(Contents()) - {node.key}) && unchanged(node)
      ensures node' == x.Ptr() && parent' == c.Ptr() && node.key in old(Contents())
    {
      ghost var t;
      c, t := Locate(nodes, Top, shape, node);
      LocateFacts(c, t);
      if node.left == null {
        node', parent', x := node.right, node.parent, t.right;
        OneChildOut(shape, c, t, x);
        red := Bypass(node, node', nodes, c, t);
      } else if node.right == null {
        node', parent', x := node.left, node.parent, t.left;
        OneChildOut(shape, c, t, x);
        red := Bypass(node, node', nodes, c, t);
      } else {
        node', parent', red, c, x := UnhookTwo(node, c, t);
      }
    }

    lemma {:induction false} LocateFacts(c: Path, t: Shape)
      requires Valid() && At(nodes, c, t) && Plug(c, t) == shape && t.Node?
      ensures t.id.key in Contents() && t.id in nodes && t.id.parent == c.Ptr()
      ensures t.id.left == t.left.Ptr() && t.id.right == t.right.Ptr()
    {
      PlugItems(c, t);
      ParentFacts(nodes, c, t);
      Around(shape, c, t);
    }

    lemma {:induction false} KeyOnSpine(s: set<TreeNode>, c: Path, t: Shape, node: TreeNode)
      requires At(s, c, t) && t.Node? && Spine(c, node)
      ensures node in s && KeyOn(c, node) == node.key && PathDistinct(c)
    {
      SpineOnPath(c, node);
      assert t.id in Nodes(t);
      var f := SpineFrame(Picture(s), c, t.id, node);
    }

    lemma {:induction false} TwoChildrenOut(c: Path, t: Shape, node: TreeNode)
      requires Valid() && At(nodes, c, t) && Plug(c, t) == shape && t.Node? && t.left.Leaf? && Spine(c, node)
      ensures node in nodes
      ensures Remains(Rename(c, node, t.id, t.key), t.right, t.red, Contents() - {node.key})
    {
      KeyOnSpine(nodes, c, t, node);
      PlugItems(c, t);
      SpliceColours(c, t, node);
      SpliceContents(shape, c, t, node);
    }

    /** Removes exactly `node`, which keeps its fields. */
    method Del(node: TreeNode)
      requires Valid() && node in nodes
      modifies this, nodes
      ensures Valid() && nodes == old(nodes) - {node} && unchanged(node)
      ensures node.key in old(Contents()) && Contents() == old(Contents()) - {node.key}
    {
      hide Items, Linked, Nodes, PathDistinct, PathLinked, PathNodes, Plug, Reading, Sorted, ToMap;
      var node', parent', red;
      ghost var c, x;
      node', parent', red, c, x := Unhook(node);
      shape := FixRemove(red, node', parent', nodes - {node}, c, x);
      nodes := nodes - {node};
    }
  }
}
