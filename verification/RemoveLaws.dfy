/** Values after a removal: taking a node out, and each rule of TREE__REBALANCE_AFTER_REMOVE. */
module RemoveLaws {
  import opened TreeShape
  import opened TreeRotation
  import opened RedBlackLaws

  /** The value left when a node went out: `contents` in order, but possibly one black node
      short at the end of `c`; `red` is the colour that went away. */
  ghost predicate Remains(c: Path, x: Shape, red: bool, contents: map<int, TreeNode>) {
    && Sorted(Reading(c, x)) && ToMap(Reading(c, x)) == contents
    && Good(x) && GoodPath(c, BlackHeight(x) + if red then 0 else 1) && (red ==> !x.IsRed())
  }

  // ----- fix-up after a removal -----

  /** Below `c` a black tree stands whose black height is one too small; all else is in order. */
  ghost predicate ShortInvariant(c: Path, t: Shape) {
    !t.IsRed() && Good(t) && GoodPath(c, BlackHeight(t) + 1)
  }

  lemma {:induction false} SiblingExists(c: Path, t: Shape)
    requires ShortInvariant(c, t) && c.Under?
    ensures c.sibling.Node?
    ensures !c.sibling.red ==>
      var n, f := c.sibling.Child(c.side), c.sibling.Child(c.side.Other());
      BlackHeight(n) == BlackHeight(f) == BlackHeight(t) && Good(n) && Good(f)
  {
  }

  /** A red sibling is rotated up; the parent turns red and gets a black sibling. */
  lemma {:induction false} RedSibling(c: Path, t: Shape)
    requires ShortInvariant(c, t) && c.Under? && c.sibling.IsRed()
    ensures
      var s, o, b := c.side, c.side.Other(), c.sibling;
      var p := Mk(s, t, c.id, c.key, true, b.(red := false));
      var c' := Under(s, c.id, c.key, true, b.Child(s), Under(s, b.id, b.key, false, b.Child(o), c.up));
      && Rotated(s, p) == Mk(s, Mk(s, t, c.id, c.key, true, b.Child(s)), b.id, b.key, false, b.Child(o))
      && ShortInvariant(c', t) && !c'.sibling.IsRed() && Reading(c', t) == Reading(c, t)
  {
    var s, o, b := c.side, c.side.Other(), c.sibling;
    var p := Mk(s, t, c.id, c.key, true, b.(red := false));
    var g := Under(s, b.id, b.key, false, b.Child(o), c.up);
    var c' := Under(s, c.id, c.key, true, b.Child(s), g);
    assert Good(b) && GoodPath(g, BlackHeight(t) + 1);
    RotatedItems(s, p);
    assert Items(Mk(s, t, c.id, c.key, c.red, b)) == Items(p) by { assert Items(b.(red := false)) == Items(b); }
    SameReading(c.up, Mk(s, t, c.id, c.key, c.red, b), Rotated(s, p));
    assert Reading(g, Mk(s, t, c.id, c.key, true, b.Child(s))) == Reading(c.up, Rotated(s, p));
  }

  /** A sibling without red children turns red: the whole place is now one short. */
  lemma {:induction false} BlackNephews(c: Path, t: Shape)
    requires ShortInvariant(c, t) && c.Under? && !c.sibling.IsRed()
    requires !c.sibling.left.IsRed() && !c.sibling.right.IsRed()
    ensures c.sibling.Node?
    ensures
      var p' := Mk(c.side, t, c.id, c.key, c.red, c.sibling.(red := true));
      && Reading(c.up, p') == Reading(c, t) && Depth(c.up) < Depth(c)
      && (if c.red then Good(p'.(red := false)) && GoodPath(c.up, BlackHeight(p'.(red := false)))
          else ShortInvariant(c.up, p'))
  {
    SiblingExists(c, t);
    var b' := c.sibling.(red := true);
    assert Good(b') && BlackHeight(b') == BlackHeight(t);
    assert Items(b') == Items(c.sibling);
    SameReading(c.up, Mk(c.side, t, c.id, c.key, c.red, c.sibling), Mk(c.side, t, c.id, c.key, c.red, b'));
  }

  /** A red near nephew is rotated over the sibling, so that the far nephew is red. */
  lemma {:induction false} NearNephew(c: Path, t: Shape)
    requires ShortInvariant(c, t) && c.Under? && !c.sibling.IsRed() && c.sibling.Node?
    requires c.sibling.Child(c.side).IsRed() && !c.sibling.Child(c.side.Other()).IsRed()
    ensures
      var s, o, b := c.side, c.side.Other(), c.sibling;
      var n := b.Child(s);
      var b1 := Mk(s, n.(red := false), b.id, b.key, true, b.Child(o));
      var c' := c.(sibling := Rotated(o, b1));
      && ShortInvariant(c', t) && Reading(c', t) == Reading(c, t)
      && !c'.sibling.IsRed() && c'.sibling.id == n.id && c'.sibling.Child(o).IsRed()
  {
    var s, o, b := c.side, c.side.Other(), c.sibling;
    var n := b.Child(s);
    var b1 := Mk(s, n.(red := false), b.id, b.key, true, b.Child(o));
    var b2 := Mk(o, b.Child(o), b.id, b.key, true, n.Child(o));
    SiblingExists(c, t);
    assert Good(b2) && BlackHeight(b2) == BlackHeight(t);
    assert Rotated(o, b1) == Mk(o, b2, n.id, n.key, false, n.Child(s));
    RotatedItems(o, b1);
    assert Items(b1) == Items(b) by { assert Items(n.(red := false)) == Items(n); }
    SameReading(c.up, Mk(s, t, c.id, c.key, c.red, b), Mk(s, t, c.id, c.key, c.red, Rotated(o, b1)));
  }

  /** A red far nephew pays for the missing black node. */
  lemma {:induction false} FarNephew(c: Path, t: Shape)
    requires ShortInvariant(c, t) && c.Under? && !c.sibling.IsRed() && c.sibling.Node?
    requires c.sibling.Child(c.side.Other()).IsRed()
    ensures
      var s, o, b := c.side, c.side.Other(), c.sibling;
      var f := b.Child(o).(red := false);
      var p := Mk(s, t, c.id, c.key, false, Mk(s, b.Child(s), b.id, b.key, c.red, f));
      && Good(Rotated(s, p)) && GoodPath(c.up, BlackHeight(Rotated(s, p))) && Fits(c.up, Rotated(s, p))
      && Reading(c.up, Rotated(s, p)) == Reading(c, t)
  {
    var s, o, b := c.side, c.side.Other(), c.sibling;
    var f := b.Child(o).(red := false);
    var b' := Mk(s, b.Child(s), b.id, b.key, c.red, f);
    var p := Mk(s, t, c.id, c.key, false, b');
    var p' := Mk(s, t, c.id, c.key, false, b.Child(s));
    SiblingExists(c, t);
    assert Good(p') && Good(f) && BlackHeight(p') == BlackHeight(t) + 1 == BlackHeight(f);
    assert Rotated(s, p) == Mk(s, p', b.id, b.key, c.red, f);
    RotatedItems(s, p);
    assert Items(b') == Items(b) by { assert Items(f) == Items(b.Child(o)); }
    SameReading(c.up, Mk(s, t, c.id, c.key, c.red, b), Rotated(s, p));
  }

  /** Painting the focus black puts the whole tree in order. */
  ghost predicate Repaired(c: Path, t: Shape) {
    if t.Leaf? then c.Top? else Good(t.(red := false)) && GoodPath(c, BlackHeight(t.(red := false)))
  }

  lemma {:induction false} RootOnPath(c: Path, hole: TreeNode?)
    ensures c.Under? ==> RootOf(c, hole) != null && RootOf(c, hole) in PathNodes(c)
  {
    if c.Under? {
      RootOnPath(c.up, c.id);
    }
  }
}
