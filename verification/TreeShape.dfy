/** The abstract value of a wepoll tree: which node sits where, with its key and colour.
    A tree with one position singled out is a `Path` (everything above and beside the
    position) together with the `Shape` that hangs there. */
module TreeShape {

  class TreeNode {
    var left: TreeNode?
    var right: TreeNode?
    var parent: TreeNode?
    var key: int
    var red: bool

    constructor () {
      left, right, parent, key, red := null, null, null, 0, false;
    }

    ghost function Fields(): Cell
      reads this
    {
      Cell(left, right, parent, key, red)
    }
  }

  /** The fields of one node at one moment, and a picture of many nodes at one moment. */
  datatype Cell = Cell(left: TreeNode?, right: TreeNode?, parent: TreeNode?, key: int, red: bool)
  type Heap = map<TreeNode, Cell>

  ghost function Picture(nodes: set<TreeNode>): Heap
    reads nodes
  {
    map n | n in nodes :: n.Fields()
  }

  datatype Side = Left | Right {
    function Other(): Side { if Left? then Right else Left }
  }

  datatype Shape = Leaf | Node(left: Shape, id: TreeNode, key: int, red: bool, right: Shape) {
    function Ptr(): TreeNode? { if Leaf? then null else id }

    function Child(s: Side): Shape
      requires Node?
    {
      if s == Left then left else right
    }

    predicate IsRed() { Node? && red }
  }

  /** The way from a position up to the root: the position hangs on side `side` of `id`, and
      `sibling` is the subtree on the other side. */
  datatype Path = Top | Under(side: Side, id: TreeNode, key: int, red: bool, sibling: Shape, up: Path) {
    function Ptr(): TreeNode? { if Top? then null else id }

    predicate IsRed() { Under? && red }
  }

  /** A node with child `near` on side `s` and child `far` on the other side. */
  function Mk(s: Side, near: Shape, id: TreeNode, key: int, red: bool, far: Shape): Shape {
    if s == Left then Node(near, id, key, red, far) else Node(far, id, key, red, near)
  }

  function Plug(c: Path, t: Shape): Shape {
    match c
    case Top => t
    case Under(s, id, key, red, sib, up) => Plug(up, Mk(s, t, id, key, red, sib))
  }

  // ----- which nodes occur -----

  ghost function Nodes(t: Shape): set<TreeNode> {
    match t
    case Leaf => {}
    case Node(l, id, _, _, r) => Nodes(l) + {id} + Nodes(r)
  }

  ghost function PathNodes(c: Path): set<TreeNode> {
    match c
    case Top => {}
    case Under(_, id, _, _, sib, up) => {id} + Nodes(sib) + PathNodes(up)
  }

  ghost predicate Distinct(t: Shape) {
    match t
    case Leaf => true
    case Node(l, id, _, _, r) =>
      id !in Nodes(l) && id !in Nodes(r) && Nodes(l) !! Nodes(r) && Distinct(l) && Distinct(r)
  }

  ghost predicate PathDistinct(c: Path) {
    match c
    case Top => true
    case Under(_, id, _, _, sib, up) =>
      id !in Nodes(sib) && id !in PathNodes(up) && Nodes(sib) !! PathNodes(up)
      && Distinct(sib) && PathDistinct(up)
  }

  ghost predicate Apart(c: Path, t: Shape) {
    PathDistinct(c) && Distinct(t) && PathNodes(c) !! Nodes(t)
  }

  // ----- a heap that stores a value -----

  ghost predicate Linked(h: Heap, t: Shape, parent: TreeNode?) {
    match t
    case Leaf => true
    case Node(l, n, k, col, r) =>
      n in h && h[n] == Cell(l.Ptr(), r.Ptr(), parent, k, col) && Linked(h, l, n) && Linked(h, r, n)
  }

  ghost predicate PathLinked(h: Heap, c: Path, hole: TreeNode?) {
    match c
    case Top => true
    case Under(s, n, k, col, sib, up) =>
      n in h && Linked(h, sib, n) && PathLinked(h, up, n)
      && h[n] == (if s == Left then Cell(hole, sib.Ptr(), up.Ptr(), k, col)
                  else Cell(sib.Ptr(), hole, up.Ptr(), k, col))
  }

  function RootOf(c: Path, hole: TreeNode?): TreeNode? {
    if c.Top? then hole else RootOf(c.up, c.id)
  }

  /** The heap and the root pointer store the tree `Plug(c, t)`. */
  ghost predicate Stored(h: Heap, root: TreeNode?, c: Path, t: Shape) {
    Linked(h, t, c.Ptr()) && PathLinked(h, c, t.Ptr()) && root == RootOf(c, t.Ptr()) && Apart(c, t)
  }

  lemma {:induction false} LinkedFrame(h: Heap, h': Heap, t: Shape, parent: TreeNode?)
    requires Linked(h, t, parent)
    requires forall n | n in Nodes(t) :: n in h && n in h' && h'[n] == h[n]
    ensures Linked(h', t, parent)
  {
    if t.Node? {
      LinkedFrame(h, h', t.left, t.id);
      LinkedFrame(h, h', t.right, t.id);
    }
  }

  lemma {:induction false} PathFrame(h: Heap, h': Heap, c: Path, hole: TreeNode?)
    requires PathLinked(h, c, hole)
    requires forall n | n in PathNodes(c) :: n in h && n in h' && h'[n] == h[n]
    ensures PathLinked(h', c, hole)
  {
    if c.Under? {
      LinkedFrame(h, h', c.sibling, c.id);
      PathFrame(h, h', c.up, c.id);
    }
  }

  lemma {:induction false} NodesStored(h: Heap, t: Shape, parent: TreeNode?)
    requires Linked(h, t, parent)
    ensures Nodes(t) <= h.Keys
  {
    if t.Node? {
      NodesStored(h, t.left, t.id);
      NodesStored(h, t.right, t.id);
    }
  }

  lemma {:induction false} PathNodesStored(h: Heap, c: Path, hole: TreeNode?)
    requires PathLinked(h, c, hole)
    ensures PathNodes(c) <= h.Keys
  {
    if c.Under? {
      NodesStored(h, c.sibling, c.id);
      PathNodesStored(h, c.up, c.id);
    }
  }
}
