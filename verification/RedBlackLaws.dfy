/** Colour, balance and order of tree values, and what each fix-up rule keeps. */
module RedBlackLaws {
  import opened TreeShape
  import opened TreeRotation

  // ----- red-black conditions -----

  function BlackHeight(t: Shape): nat {
    if t.Leaf? then 0 else BlackHeight(t.left) + (if t.red then 0 else 1)
  }

  /** Equal black height on both sides everywhere, and no red node has a red child. */
  predicate Good(t: Shape) {
    t.Node? ==>
      && Good(t.left) && Good(t.right) && BlackHeight(t.left) == BlackHeight(t.right)
      && (t.red ==> !t.left.IsRed() && !t.right.IsRed())
  }

  predicate IsRedBlack(t: Shape) {
    Good(t) && !t.IsRed()
  }

  /** A good tree of black height `h` (black where the path ends in red) may hang below `c`. */
  predicate GoodPath(c: Path, h: nat) {
    c.Under? ==>
      && Good(c.sibling) && BlackHeight(c.sibling) == h
      && (c.red ==> !c.sibling.IsRed() && c.up.Under? && !c.up.IsRed())
      && GoodPath(c.up, h + if c.red then 0 else 1)
  }

  predicate Fits(c: Path, t: Shape) {
    t.IsRed() ==> c.Under? && !c.IsRed()
  }

  lemma {:induction false} PlugGood(c: Path, t: Shape)
    requires Good(t) && GoodPath(c, BlackHeight(t)) && Fits(c, t)
    ensures IsRedBlack(Plug(c, t))
  {
    if c.Under? {
      PlugGood(c.up, Mk(c.side, t, c.id, c.key, c.red, c.sibling));
    }
  }

  lemma {:induction false} UnplugGood(c: Path, t: Shape)
    requires IsRedBlack(Plug(c, t))
    ensures Good(t) && GoodPath(c, BlackHeight(t)) && Fits(c, t)
  {
    if c.Under? {
      UnplugGood(c.up, Mk(c.side, t, c.id, c.key, c.red, c.sibling));
    }
  }

  function Depth(c: Path): nat {
    if c.Top? then 0 else 1 + Depth(c.up)
  }

  // ----- order -----

  type Item = (int, TreeNode)

  ghost function Items(t: Shape): seq<Item> {
    if t.Leaf? then [] else Items(t.left) + [(t.key, t.id)] + Items(t.right)
  }

  ghost function Before(c: Path): seq<Item> {
    if c.Top? then []
    else if c.side == Left then Before(c.up)
    else Before(c.up) + Items(c.sibling) + [(c.key, c.id)]
  }

  ghost function After(c: Path): seq<Item> {
    if c.Top? then []
    else if c.side == Right then After(c.up)
    else [(c.key, c.id)] + Items(c.sibling) + After(c.up)
  }

  /** The items of the whole tree, in order. */
  ghost function Reading(c: Path, t: Shape): seq<Item> {
    if c.Top? then Items(t) else Reading(c.up, Mk(c.side, t, c.id, c.key, c.red, c.sibling))
  }

  lemma {:induction false} PlugItems(c: Path, t: Shape)
    ensures Items(Plug(c, t)) == Reading(c, t)
  {
    if c.Under? {
      PlugItems(c.up, Mk(c.side, t, c.id, c.key, c.red, c.sibling));
    }
  }

  lemma {:induction false} ReadingParts(c: Path, t: Shape)
    ensures Reading(c, t) == Before(c) + Items(t) + After(c)
  {
    if c.Under? {
      ReadingParts(c.up, Mk(c.side, t, c.id, c.key, c.red, c.sibling));
      if c.side == Left {
        Flat(Before(c.up), Items(t), [(c.key, c.id)], Items(c.sibling), After(c.up));
      } else {
        Flat(Before(c.up), Items(c.sibling), [(c.key, c.id)], Items(t), After(c.up));
      }
    }
  }

  lemma {:induction false} Flat(a: seq<Item>, b: seq<Item>, x: seq<Item>, d: seq<Item>, e: seq<Item>)
    ensures a + (b + x + d) + e == a + b + (x + d + e)
    ensures a + (b + x + d) + e == a + b + x + d + e
  {
  }

  /** Only the items of a subtree matter to the reading around it. */
  lemma {:induction false} SameReading(c: Path, t: Shape, t': Shape)
    requires Items(t) == Items(t')
    ensures Reading(c, t) == Reading(c, t')
  {
    ReadingParts(c, t);
    ReadingParts(c, t');
  }

  ghost predicate Sorted(s: seq<Item>) {
    forall i, j | 0 <= i < j < |s| :: s[i].0 < s[j].0
  }

  lemma {:induction false} RotatedItems(cis: Side, t: Shape)
    requires t.Node? && t.Child(cis.Other()).Node?
    ensures Items(Rotated(cis, t)) == Items(t)
  {
  }

  ghost predicate Below(s: seq<Item>, key: int) {
    forall i | 0 <= i < |s| :: s[i].0 < key
  }

  ghost predicate Above(s: seq<Item>, key: int) {
    forall i | 0 <= i < |s| :: key < s[i].0
  }

  /** Everything read so far is smaller than `key` on the left and larger on the right. */
  ghost predicate Brackets(c: Path, key: int) {
    Below(Before(c), key) && Above(After(c), key)
  }

  lemma {:induction false} BelowSnoc(s: seq<Item>, x: Item, key: int)
    requires Below(s, x.0) && x.0 < key
    ensures Below(s + [x], key)
  {
  }

  lemma {:induction false} AboveCons(x: Item, s: seq<Item>, key: int)
    requires Above(s, x.0) && key < x.0
    ensures Above([x] + s, key)
  {
  }

  lemma {:induction false} BracketsDown(c: Path, t: Shape, side: Side, key: int)
    requires t.Node? && Brackets(c, key)
    requires Below(Before(c) + Items(t.left), t.key) && Above(Items(t.right) + After(c), t.key)
    requires if side == Left then key < t.key else t.key < key
    ensures Brackets(Under(side, t.id, t.key, t.red, t.Child(side.Other()), c), key)
  {
    if side == Left {
      AboveCons((t.key, t.id), Items(t.right) + After(c), key);
      assert [(t.key, t.id)] + Items(t.right) + After(c) == [(t.key, t.id)] + (Items(t.right) + After(c));
    } else {
      BelowSnoc(Before(c) + Items(t.left), (t.key, t.id), key);
    }
  }

  lemma {:induction false} ReadingAround(c: Path, t: Shape)
    requires t.Node?
    ensures Reading(c, t) == Before(c) + Items(t.left) + [(t.key, t.id)] + (Items(t.right) + After(c))
  {
    ReadingParts(c, t);
  }

  /** What is read before and after a node of a sorted tree. */
  lemma {:induction false} Around(w: Shape, c: Path, t: Shape)
    requires t.Node? && Items(w) == Reading(c, t) && Sorted(Items(w))
    ensures Below(Before(c) + Items(t.left), t.key) && Above(Items(t.right) + After(c), t.key)
    ensures t.key in ToMap(Items(w)) && ToMap(Items(w))[t.key] == t.id
  {
    ReadingAround(c, t);
    SortedSplit(Items(w), Before(c) + Items(t.left), t.key, t.id, Items(t.right) + After(c));
    ToMapMiddle(Items(w), Before(c) + Items(t.left), t.key, t.id, Items(t.right) + After(c));
  }

  lemma {:induction false} Absent(c: Path, key: int)
    requires Brackets(c, key)
    ensures key !in ToMap(Reading(c, Leaf))
  {
    ReadingParts(c, Leaf);
    ToMapKeys(Reading(c, Leaf), key);
  }

  lemma {:induction false} SortedAround(a: seq<Item>, k: int, n: TreeNode, b: seq<Item>)
    requires Sorted(a + b) && Below(a, k) && Above(b, k)
    ensures Sorted(a + [(k, n)] + b)
  {
    var s := a + [(k, n)] + b;
    forall i, j | 0 <= i < j < |s| ensures s[i].0 < s[j].0 {
      if i != |a| && j != |a| {
        assert s[i] == (a + b)[if i < |a| then i else i - 1] && s[j] == (a + b)[if j < |a| then j else j - 1];
      }
    }
  }

  lemma {:induction false} SortedInsert(w: Shape, c: Path, key: int, n: TreeNode)
    requires Items(w) == Reading(c, Leaf) && Sorted(Items(w)) && Brackets(c, key)
    ensures
      var s := Reading(c, Node(Leaf, n, key, true, Leaf));
      Sorted(s) && ToMap(s) == ToMap(Items(w))[key := n]
  {
    ReadingParts(c, Leaf);
    assert Items(w) == Before(c) + After(c);
    SortedAround(Before(c), key, n, After(c));
    assert Items(Node(Leaf, n, key, true, Leaf)) == [(key, n)];
    ReadingParts(c, Node(Leaf, n, key, true, Leaf));
    ToMapMiddle(Before(c) + [(key, n)] + After(c), Before(c), key, n, After(c));
  }

  // ----- fix-up after an insertion -----

  /** The subtree `t` has a red root and may clash with a red parent; all else is in order. */
  ghost predicate InsertInvariant(c: Path, t: Shape) {
    t.IsRed() && Good(t) && GoodPath(c, BlackHeight(t))
  }

  lemma {:induction false} InsertRecolour(c: Path, t: Shape)
    requires InsertInvariant(c, t) && c.IsRed() && c.up.sibling.IsRed()
    ensures
      var g := c.up;
      var p' := Mk(c.side, t, c.id, c.key, false, c.sibling);
      var t' := Mk(g.side, p', g.id, g.key, true, g.sibling.(red := false));
      InsertInvariant(g.up, t') && Depth(g.up) < Depth(c) && Reading(g.up, t') == Reading(c, t)
  {
    var p, p' := Mk(c.side, t, c.id, c.key, true, c.sibling), Mk(c.side, t, c.id, c.key, false, c.sibling);
    var u' := c.up.sibling.(red := false);
    assert GoodPath(c.up, BlackHeight(t));
    assert Good(p') && BlackHeight(p') == BlackHeight(t) + 1;
    assert Good(u') && BlackHeight(u') == BlackHeight(t) + 1;
    assert Items(p') == Items(p) && Items(u') == Items(c.up.sibling);
    SameReading(c.up.up, Mk(c.up.side, p, c.up.id, c.up.key, c.up.red, c.up.sibling),
                Mk(c.up.side, p', c.up.id, c.up.key, true, u'));
  }

  /** The inner rotation turns a zig-zag of two red nodes into a straight line. */
  lemma {:induction false} InsertStraighten(c: Path, t: Shape)
    requires InsertInvariant(c, t) && c.IsRed() && c.up.side == c.side.Other()
    ensures
      var cis := c.up.side;
      var t' := Mk(cis, c.sibling, c.id, c.key, true, t.Child(cis));
      var c' := Under(cis, t.id, t.key, true, t.Child(c.side), c.up);
      && InsertInvariant(c', t') && Reading(c', t') == Reading(c, t)
      && Rotated(cis, Mk(c.side, t, c.id, c.key, true, c.sibling)) == Mk(cis, t', t.id, t.key, true, t.Child(c.side))
  {
    var cis := c.up.side;
    var t' := Mk(cis, c.sibling, c.id, c.key, true, t.Child(cis));
    var c' := Under(cis, t.id, t.key, true, t.Child(c.side), c.up);
    var p := Mk(c.side, t, c.id, c.key, true, c.sibling);
    RotatedItems(cis, p);
    SameReading(c.up, p, Rotated(cis, p));
  }

  /** The outer rotation, after the parent became black and the grandparent red. */
  lemma {:induction false} InsertRotate(c: Path, t: Shape)
    requires InsertInvariant(c, t) && c.IsRed() && c.up.side == c.side && !c.up.sibling.IsRed()
    ensures
      var cis, trans, g := c.side, c.side.Other(), c.up;
      var p' := Mk(cis, t, c.id, c.key, false, c.sibling);
      var far := Mk(cis, c.sibling, g.id, g.key, true, g.sibling);
      var c' := Under(cis, c.id, c.key, false, far, g.up);
      && InsertInvariant(c', t) && Depth(c') < Depth(c) && Reading(c', t) == Reading(c, t)
      && Rotated(trans, Mk(cis, p', g.id, g.key, true, g.sibling)) == Mk(cis, t, c.id, c.key, false, far)
  {
    var cis, trans, g := c.side, c.side.Other(), c.up;
    var p, p' := Mk(cis, t, c.id, c.key, true, c.sibling), Mk(cis, t, c.id, c.key, false, c.sibling);
    var far := Mk(cis, c.sibling, g.id, g.key, true, g.sibling);
    var c' := Under(cis, c.id, c.key, false, far, g.up);
    var gt := Mk(cis, p', g.id, g.key, true, g.sibling);
    assert GoodPath(g, BlackHeight(t));
    RotatedItems(trans, gt);
    assert Items(p) == Items(p');
    SameReading(g.up, Mk(cis, p, g.id, g.key, g.red, g.sibling), Rotated(trans, gt));
  }

  /** Blackening the root of the whole tree finishes an insertion. */
  lemma {:induction false} PlugRed(c: Path, t: Shape)
    requires InsertInvariant(c, t) && !c.IsRed()
    ensures Plug(c, t).Node? && IsRedBlack(Plug(c, t).(red := false))
  {
    if c.Under? {
      PlugGood(c, t);
      PlugIsNode(c, t);
    }
  }

  lemma {:induction false} PlugIsNode(c: Path, t: Shape)
    requires t.Node?
    ensures Plug(c, t).Node?
  {
    if c.Under? {
      PlugIsNode(c.up, Mk(c.side, t, c.id, c.key, c.red, c.sibling));
    }
  }

  // ----- the finite map a tree stands for -----

  ghost function ToMap(s: seq<Item>): map<int, TreeNode> {
    if s == [] then map[] else ToMap(s[1..])[s[0].0 := s[0].1]
  }

  lemma {:induction false} ToMapKeys(s: seq<Item>, k: int)
    ensures k in ToMap(s) <==> exists i :: 0 <= i < |s| && s[i].0 == k
  {
    if s != [] {
      ToMapKeys(s[1..], k);
      assert forall i | 0 < i < |s| :: s[i] == s[1..][i - 1];
    }
  }

  lemma {:induction false} ToMapConcat(a: seq<Item>, b: seq<Item>)
    ensures ToMap(a + b) == ToMap(b) + ToMap(a)
  {
    if a == [] {
      assert a + b == b;
    } else {
      ToMapConcat(a[1..], b);
      assert (a + b)[1..] == a[1..] + b;
    }
  }

  lemma {:induction false} SortedSplit(s: seq<Item>, a: seq<Item>, k: int, n: TreeNode, b: seq<Item>)
    requires Sorted(s) && s == a + [(k, n)] + b
    ensures Below(a, k) && Above(b, k) && Sorted(a + b)
  {
    assert s[|a|] == (k, n);
    forall i | 0 <= i < |a| ensures a[i].0 < k { assert s[i] == a[i]; }
    forall i | 0 <= i < |b| ensures k < b[i].0 { assert s[|a| + 1 + i] == b[i]; }
    forall i, j | 0 <= i < j < |a + b| ensures (a + b)[i].0 < (a + b)[j].0 {
      assert (a + b)[i] == s[if i < |a| then i else i + 1];
      assert (a + b)[j] == s[if j < |a| then j else j + 1];
    }
  }

  lemma {:induction false} MapAround(x: map<int, TreeNode>, y: map<int, TreeNode>, k: int, n: TreeNode)
    requires k !in x && k !in y
    ensures y[k := n] + x == (y + x)[k := n]
    ensures y + x == (y[k := n] + x) - {k}
  {
  }

  lemma {:induction false} ToMapAround(a: seq<Item>, k: int, n: TreeNode, b: seq<Item>)
    requires k !in ToMap(a) && k !in ToMap(b)
    ensures ToMap(a + [(k, n)] + b) == ToMap(a + b)[k := n]
    ensures ToMap(a + b) == ToMap(a + [(k, n)] + b) - {k}
  {
    var b' := [(k, n)] + b;
    assert b'[1..] == b;
    assert a + [(k, n)] + b == a + b';
    ToMapConcat(a, b);
    ToMapConcat(a, b');
    MapAround(ToMap(a), ToMap(b), k, n);
  }

  /** Putting a new key between smaller and larger ones, and taking a key out of a sorted list. */
  lemma {:induction false} ToMapMiddle(s: seq<Item>, a: seq<Item>, k: int, n: TreeNode, b: seq<Item>)
    requires Sorted(s) && s == a + [(k, n)] + b
    ensures ToMap(s) == ToMap(a + b)[k := n]
    ensures ToMap(a + b) == ToMap(s) - {k}
    ensures Sorted(a + b)
  {
    SortedSplit(s, a, k, n, b);
    ToMapKeys(a, k);
    ToMapKeys(b, k);
    ToMapAround(a, k, n, b);
  }

  // ----- how deep a search goes -----

  function Pow2(n: nat): nat {
    if n == 0 then 1 else 2 * Pow2(n - 1)
  }

  lemma {:induction false} Pow2Monotone(m: nat, n: nat)
    requires m <= n
    ensures Pow2(m) <= Pow2(n)
  {
    if m < n { Pow2Monotone(m, n - 1); }
  }

  lemma {:induction false} Pow2Double(n: nat)
    ensures Pow2(2 * n) == Pow2(n) * Pow2(n)
  {
    if n > 0 { Pow2Double(n - 1); }
  }

  function Height(t: Shape): nat {
    if t.Leaf? then 0
    else 1 + if Height(t.left) < Height(t.right) then Height(t.right) else Height(t.left)
  }

  lemma {:induction false} HeightBound(t: Shape)
    requires Good(t)
    ensures Height(t) <= 2 * BlackHeight(t) + if t.IsRed() then 1 else 0
  {
    if t.Node? {
      HeightBound(t.left);
      HeightBound(t.right);
    }
  }

  lemma {:induction false} SizeBound(t: Shape)
    requires Good(t)
    ensures Pow2(BlackHeight(t)) <= |Items(t)| + 1
  {
    if t.Node? {
      SizeBound(t.left);
      SizeBound(t.right);
    }
  }

  /** How many nodes a search for `key` has to look at. */
  function Looked(t: Shape, key: int): (n: nat)
    ensures n <= Height(t)
  {
    if t.Leaf? then 0
    else if key == t.key then 1
    else 1 + Looked(if key < t.key then t.left else t.right, key)
  }

  lemma {:induction false} ToMapSize(s: seq<Item>)
    requires Sorted(s)
    ensures |ToMap(s)| == |s|
  {
    if s != [] {
      ToMapSize(s[1..]);
      ToMapKeys(s[1..], s[0].0);
    }
  }

  lemma {:induction false} Square(a: nat, b: nat)
    requires a <= b
    ensures a * a <= b * b
  {
    assert a * a <= a * b <= b * b;
  }

  /** No path is longer than 2 log2(n + 1), where `n` is the number of keys. */
  lemma {:induction false} PathBound(w: Shape)
    requires IsRedBlack(w) && Sorted(Items(w))
    ensures Pow2(Height(w)) <= (|ToMap(Items(w))| + 1) * (|ToMap(Items(w))| + 1)
  {
    HeightBound(w);
    Pow2Monotone(Height(w), 2 * BlackHeight(w));
    SquareBound(w);
    ToMapSize(Items(w));
  }

  lemma {:induction false} SquareBound(w: Shape)
    requires Good(w)
    ensures Pow2(2 * BlackHeight(w)) <= (|Items(w)| + 1) * (|Items(w)| + 1)
  {
    Pow2Double(BlackHeight(w));
    SizeBound(w);
    Square(Pow2(BlackHeight(w)), |Items(w)| + 1);
  }
}
