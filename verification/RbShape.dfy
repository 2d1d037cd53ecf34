/** The pure side of wepoll's red-black tree: ghost shapes, paths from a focused
    subtree up to the root, and what recolouring and rotating do to them.  Nothing
    here reads the heap; `RbTree` ties a shape to the pointer structure.

    The C macros take a direction pair (cis, trans), so the shapes are built with
    `Join(side, near, item, far)`, where `near` hangs on `side`. */
module RbShape {
  import opened Collections

  datatype Side = Left | Right {
    function Other(): Side {
      if Left? then Right else Left
    }
  }

  /** One tree node: its address, its key and its colour. */
  datatype Item<P> = Item(ptr: P, key: nat, red: bool)

  datatype Shape<P> = Leaf | Node(left: Shape<P>, item: Item<P>, right: Shape<P>)

  /** A subtree's surroundings: it hangs on `side` of `item`, whose other child is `sibling`. */
  datatype Path<P> = Top | Step(side: Side, item: Item<P>, sibling: Shape<P>, up: Path<P>)

  ghost function Join<P>(side: Side, near: Shape<P>, item: Item<P>, far: Shape<P>): Shape<P> {
    if side.Left? then Node(near, item, far) else Node(far, item, near)
  }

  ghost function Kid<P>(t: Shape<P>, side: Side): Shape<P>
    requires t.Node?
  {
    if side.Left? then t.left else t.right
  }

  ghost function Plug<P>(p: Path<P>, t: Shape<P>): Shape<P>
    decreases p
  {
    match p
    case Top => t
    case Step(side, item, sibling, up) => Plug(up, Join(side, t, item, sibling))
  }

  ghost function Recolour<P>(t: Shape<P>, red: bool): Shape<P>
    requires t.Node?
  {
    t.(item := t.item.(red := red))
  }

  /** TREE__ROTATE(cis, trans): the trans child becomes the root. */
  ghost function Rotated<P>(cis: Side, t: Shape<P>): Shape<P>
    requires t.Node? && Kid(t, cis.Other()).Node?
  {
    var q := Kid(t, cis.Other());
    Join(cis, Join(cis, Kid(t, cis), t.item, Kid(q, cis)), q.item, Kid(q, cis.Other()))
  }

  // ---- Nodes of a shape -------------------------------------------------------------

  ghost function Nodes<P>(t: Shape<P>): set<P> {
    match t
    case Leaf => {}
    case Node(l, i, r) => Nodes(l) + {i.ptr} + Nodes(r)
  }

  ghost function PathNodes<P>(p: Path<P>): set<P> {
    match p
    case Top => {}
    case Step(_, i, s, up) => {i.ptr} + Nodes(s) + PathNodes(up)
  }

  lemma {:induction false} PlugNodes<P>(p: Path<P>, t: Shape<P>)
    ensures Nodes(Plug(p, t)) == PathNodes(p) + Nodes(t)
    decreases p
  {
    match p
    case Top =>
    case Step(side, item, sibling, up) => PlugNodes(up, Join(side, t, item, sibling));
  }

  // ---- Search order -----------------------------------------------------------------

  type Entry<P> = (nat, P)

  ghost function Inorder<P>(t: Shape<P>): seq<Entry<P>> {
    match t
    case Leaf => []
    case Node(l, i, r) => Inorder(l) + [(i.key, i.ptr)] + Inorder(r)
  }

  ghost function Before<P>(p: Path<P>): seq<Entry<P>> {
    match p
    case Top => []
    case Step(side, i, s, up) =>
      if side.Left? then Before(up) else Before(up) + Inorder(s) + [(i.key, i.ptr)]
  }

  ghost function After<P>(p: Path<P>): seq<Entry<P>> {
    match p
    case Top => []
    case Step(side, i, s, up) =>
      if side.Left? then [(i.key, i.ptr)] + Inorder(s) + After(up) else After(up)
  }

  ghost predicate Sorted<P>(s: seq<Entry<P>>) {
    forall i, j :: 0 <= i < j < |s| ==> s[i].0 < s[j].0
  }

  lemma Regroup<T>(a: seq<T>, b: seq<T>, c: seq<T>, d: seq<T>, e: seq<T>)
    ensures a + (b + c + d) + e == a + b + (c + d + e)
    ensures a + (b + c + d) + e == (a + b + c) + d + e
  {
    var left := a + (b + c + d) + e;
    assert left == a + b + (c + d + e);
    assert left == (a + b + c) + d + e;
  }

  lemma {:induction false} PlugInorder<P>(p: Path<P>, t: Shape<P>)
    ensures Inorder(Plug(p, t)) == Before(p) + Inorder(t) + After(p)
    decreases p
  {
    match p
    case Top =>
      assert [] + Inorder(t) + [] == Inorder(t);
    case Step(side, i, s, up) =>
      PlugInorder(up, Join(side, t, i, s));
      if side.Left? {
        Regroup(Before(up), Inorder(t), [(i.key, i.ptr)], Inorder(s), After(up));
      } else {
        Regroup(Before(up), Inorder(s), [(i.key, i.ptr)], Inorder(t), After(up));
      }
  }

  lemma RotatedInorder<P>(cis: Side, t: Shape<P>)
    requires t.Node? && Kid(t, cis.Other()).Node?
    ensures Inorder(Rotated(cis, t)) == Inorder(t)
    ensures Nodes(Rotated(cis, t)) == Nodes(t)
  {
    var q := Kid(t, cis.Other());
    var a, b, c := Inorder(Kid(t, cis)), Inorder(Kid(q, cis)), Inorder(Kid(q, cis.Other()));
    var x, y := (t.item.key, t.item.ptr), (q.item.key, q.item.ptr);
    if cis.Left? {
      assert (a + [x] + b) + [y] + c == a + [x] + (b + [y] + c);
    } else {
      assert c + [y] + (b + [x] + a) == (c + [y] + b) + [x] + a;
    }
  }

  // ---- Colours and black height ------------------------------------------------------

  ghost predicate IsRed<P>(t: Shape<P>) {
    t.Node? && t.item.red
  }

  ghost predicate NoRedRed<P>(t: Shape<P>) {
    t.Node? ==>
      && NoRedRed(t.left) && NoRedRed(t.right)
      && (t.item.red ==> !IsRed(t.left) && !IsRed(t.right))
  }

  ghost function Height<P>(t: Shape<P>): nat {
    if t.Leaf? then 0 else Height(t.left) + (if t.item.red then 0 else 1)
  }

  ghost predicate Balanced<P>(t: Shape<P>) {
    t.Node? ==> Balanced(t.left) && Balanced(t.right) && Height(t.left) == Height(t.right)
  }

  ghost predicate RedBlack<P>(t: Shape<P>) {
    !IsRed(t) && NoRedRed(t) && Balanced(t)
  }

  ghost predicate TopRed<P>(p: Path<P>) {
    p.Step? && p.item.red
  }

  /** No two adjacent reds on or beside the path, and its outermost node is black. */
  ghost predicate PathNoRedRed<P>(p: Path<P>) {
    p.Step? ==>
      && NoRedRed(p.sibling) && PathNoRedRed(p.up)
      && (p.item.red ==> !IsRed(p.sibling) && p.up.Step? && !p.up.item.red)
  }

  /** Plugging a balanced subtree of black height `h` gives a balanced tree. */
  ghost predicate PathBalanced<P>(p: Path<P>, h: int) {
    p.Step? ==>
      && Balanced(p.sibling) && Height(p.sibling) == h
      && PathBalanced(p.up, h + (if p.item.red then 0 else 1))
  }

  /** Everything the tree promises, except that the focus and its parent may both be red. */
  ghost predicate RedBlackBut<P>(p: Path<P>, t: Shape<P>) {
    PathNoRedRed(p) && NoRedRed(t) && Balanced(t) && PathBalanced(p, Height(t))
  }

  /** Everything the tree promises, except that the focus is one black node short. */
  ghost predicate OneShort<P>(p: Path<P>, t: Shape<P>) {
    PathNoRedRed(p) && NoRedRed(t) && Balanced(t) && PathBalanced(p, Height(t) + 1)
  }

  lemma {:induction false} PlugRedBlack<P>(p: Path<P>, t: Shape<P>)
    requires RedBlackBut(p, t)
    requires IsRed(t) ==> p.Step? && !p.item.red
    ensures RedBlack(Plug(p, t))
    decreases p
  {
    match p
    case Top =>
    case Step(side, i, s, up) => PlugRedBlack(up, Join(side, t, i, s));
  }

  lemma {:induction false} UnplugRedBlack<P>(p: Path<P>, t: Shape<P>)
    requires RedBlack(Plug(p, t))
    ensures RedBlackBut(p, t)
    ensures IsRed(t) ==> p.Step? && !p.item.red
    decreases p
  {
    match p
    case Top =>
    case Step(side, i, s, up) => UnplugRedBlack(up, Join(side, t, i, s));
  }

  // ---- Logarithmic depth -------------------------------------------------------------

  ghost function Size<P>(t: Shape<P>): nat {
    if t.Leaf? then 0 else Size(t.left) + 1 + Size(t.right)
  }

  ghost function Depth<P>(t: Shape<P>): nat {
    if t.Leaf? then 0
    else 1 + if Depth(t.left) > Depth(t.right) then Depth(t.left) else Depth(t.right)
  }

  lemma {:induction false} DepthBound<P>(t: Shape<P>)
    requires NoRedRed(t) && Balanced(t)
    ensures Depth(t) <= 2 * Height(t) + (if IsRed(t) then 1 else 0)
    ensures Pow2(Height(t)) <= Size(t) + 1
  {
    if t.Node? {
      DepthBound(t.left);
      DepthBound(t.right);
    }
  }
}
