/** The intrusive red-black tree of wepoll.c: nodes with left, right and parent
    links, rebalanced in place.  A ghost shape records what the links spell out. */
module RbTree {
  import opened RbShape

  class TreeNode {
    var left: TreeNode?
    var right: TreeNode?
    var parent: TreeNode?
    var key: nat
    var red: bool

    constructor ()
      ensures left == null && right == null && parent == null && key == 0 && !red
    {
      left, right, parent, key, red := null, null, null, 0, false;
    }

    function Child(side: Side): TreeNode?
      reads this
    {
      if side.Left? then left else right
    }

    method SetChild(side: Side, child: TreeNode?)
      modifies this`left, this`right
      ensures Child(side) == child && Child(side.Other()) == old(Child(side.Other()))
    {
      if side.Left? {
        left := child;
      } else {
        right := child;
      }
    }
  }

  type NodeShape = Shape<TreeNode>
  type NodePath = Path<TreeNode>

  // ---- What a shape says about each node's fields --------------------------------------

  datatype Fields = Fields(left: TreeNode?, right: TreeNode?, parent: TreeNode?, key: nat, red: bool) {
    ghost function WithChild(side: Side, child: TreeNode?): Fields {
      if side.Left? then this.(left := child) else this.(right := child)
    }
  }

  ghost function FieldsOf(side: Side, near: TreeNode?, far: TreeNode?, parent: TreeNode?, i: Item<TreeNode>): Fields {
    if side.Left? then Fields(near, far, parent, i.key, i.red) else Fields(far, near, parent, i.key, i.red)
  }

  ghost function Now(n: TreeNode): Fields
    reads n
  {
    Fields(n.left, n.right, n.parent, n.key, n.red)
  }

  ghost function Ptr(t: NodeShape): TreeNode? {
    if t.Leaf? then null else t.item.ptr
  }

  ghost function Above(p: NodePath): TreeNode? {
    if p.Top? then null else p.item.ptr
  }

  /** The fields that node `n` of a subtree hanging below `parent` must hold. */
  ghost function At(t: NodeShape, parent: TreeNode?, n: TreeNode): Fields
    requires n in Nodes(t)
  {
    if n == t.item.ptr then FieldsOf(Left, Ptr(t.left), Ptr(t.right), parent, t.item)
    else if n in Nodes(t.left) then At(t.left, t.item.ptr, n)
    else At(t.right, t.item.ptr, n)
  }

  /** The fields that node `n` beside a hole, whose place `hole` takes, must hold. */
  ghost function PathAt(p: NodePath, hole: TreeNode?, n: TreeNode): Fields
    requires n in PathNodes(p)
  {
    if n == p.item.ptr then FieldsOf(p.side, hole, Ptr(p.sibling), Above(p.up), p.item)
    else if n in Nodes(p.sibling) then At(p.sibling, p.item.ptr, n)
    else PathAt(p.up, p.item.ptr, n)
  }

  /** No node occurs twice. */
  ghost predicate Distinct(t: NodeShape) {
    t.Node? ==>
      && Distinct(t.left) && Distinct(t.right)
      && t.item.ptr !in Nodes(t.left) && t.item.ptr !in Nodes(t.right)
      && Nodes(t.left) !! Nodes(t.right)
  }

  ghost predicate PathDistinct(p: NodePath) {
    p.Step? ==>
      && Distinct(p.sibling) && PathDistinct(p.up)
      && p.item.ptr !in Nodes(p.sibling) && p.item.ptr !in PathNodes(p.up)
      && Nodes(p.sibling) !! PathNodes(p.up)
  }

  lemma {:induction false} PlugDistinct(p: NodePath, t: NodeShape)
    ensures Distinct(Plug(p, t)) <==> Distinct(t) && PathDistinct(p) && Nodes(t) !! PathNodes(p)
    decreases p
  {
    match p
    case Top =>
    case Step(side, i, s, up) => PlugDistinct(up, Join(side, t, i, s));
  }

  /** The whole tree says of each node what the focus or the path says of it. */
  lemma {:induction false} PlugAt(p: NodePath, t: NodeShape, n: TreeNode)
    requires Distinct(Plug(p, t)) && n in Nodes(t) + PathNodes(p)
    ensures n in Nodes(Plug(p, t))
    ensures At(Plug(p, t), null, n) ==
      if n in Nodes(t) then At(t, Above(p), n) else PathAt(p, Ptr(t), n)
    decreases p
  {
    match p
    case Top =>
    case Step(side, i, s, up) =>
      PlugDistinct(up, Join(side, t, i, s));
      PlugAt(up, Join(side, t, i, s), n);
  }

  /** The links from `root` spell out exactly the shape `t`, without sharing. */
  ghost predicate Linked(t: NodeShape, root: TreeNode?)
    reads Nodes(t)
  {
    root == Ptr(t) && Distinct(t) && forall n :: n in Nodes(t) ==> Now(n) == At(t, null, n)
  }

  ghost predicate SameNodes(t: NodeShape, was: NodeShape) {
    Nodes(t) == Nodes(was) && Inorder(t) == Inorder(was)
  }

  ghost function Length(p: NodePath): nat {
    if p.Top? then 0 else 1 + Length(p.up)
  }

  /** What the fields of the focus and of its parent hold. */
  lemma Look(p: NodePath, t: NodeShape, root: TreeNode?)
    requires Linked(Plug(p, t), root)
    ensures t.Node? ==> Now(t.item.ptr) == Fields(Ptr(t.left), Ptr(t.right), Above(p), t.item.key, t.item.red)
    ensures p.Step? ==> Now(p.item.ptr) == FieldsOf(p.side, Ptr(t), Ptr(p.sibling), Above(p.up), p.item)
    ensures p.Top? ==> root == Ptr(t)
    ensures p.Step? && t.Node? ==> p.item.ptr != t.item.ptr
    ensures p.Step? && p.sibling.Node? && t.Node? ==> p.sibling.item.ptr != t.item.ptr
  {
    PlugDistinct(p, t);
    if t.Node? {
      PlugAt(p, t, t.item.ptr);
    }
    if p.Step? {
      PlugAt(p, t, p.item.ptr);
    }
  }

  lemma JoinAt(side: Side, near: NodeShape, i: Item<TreeNode>, far: NodeShape, parent: TreeNode?, n: TreeNode)
    requires Distinct(Join(side, near, i, far)) && n in Nodes(Join(side, near, i, far))
    ensures At(Join(side, near, i, far), parent, n) ==
      if n == i.ptr then FieldsOf(side, Ptr(near), Ptr(far), parent, i)
      else if n in Nodes(near) then At(near, i.ptr, n)
      else At(far, i.ptr, n)
  {
  }

  lemma RotatedAt(cis: Side, t: NodeShape, was: TreeNode?, now: TreeNode?, n: TreeNode)
    requires t.Node? && Kid(t, cis.Other()).Node? && Distinct(t) && n in Nodes(t)
    ensures Distinct(Rotated(cis, t)) && n in Nodes(Rotated(cis, t))
    ensures
      var q := Kid(t, cis.Other());
      var (a, b, c) := (Kid(t, cis), Kid(q, cis), Kid(q, cis.Other()));
      At(Rotated(cis, t), now, n) ==
        if n == t.item.ptr then FieldsOf(cis, Ptr(a), Ptr(b), q.item.ptr, t.item)
        else if n == q.item.ptr then FieldsOf(cis, t.item.ptr, Ptr(c), now, q.item)
        else if n == Ptr(b) then At(t, was, n).(parent := t.item.ptr)
        else At(t, was, n)
  {
    var q := Kid(t, cis.Other());
    var (a, b, c) := (Kid(t, cis), Kid(q, cis), Kid(q, cis.Other()));
    var p := Join(cis, a, t.item, b);
    JoinAt(cis, a, t.item, q, was, n);
    JoinAt(cis, p, q.item, c, now, n);
    if n in Nodes(q) {
      JoinAt(cis, b, q.item, c, t.item.ptr, n);
    }
    if n in Nodes(p) {
      JoinAt(cis, a, t.item, b, q.item.ptr, n);
    }
  }

  /** What TREE__ROTATE leaves in a node that held `was`. */
  ghost function RotatedFields(cis: Side, side: Side, node: TreeNode, q: TreeNode, parent: TreeNode?,
                               inner: TreeNode?, n: TreeNode, was: Fields): Fields
  {
    if n == node then was.(parent := q).WithChild(cis.Other(), inner)
    else if n == q then was.(parent := parent).WithChild(cis, node)
    else if n == parent then was.WithChild(side, q)
    else if n == inner then was.(parent := node)
    else was
  }

  /** The links around `node`, which hangs on `side`, are fit for a rotation. */
  ghost predicate Rotatable(cis: Side, side: Side, node: TreeNode, s: set<TreeNode>, root: TreeNode?)
    reads s
  {
    && node in s && node.Child(cis.Other()) in s
    && var q := node.Child(cis.Other());
    var (parent, inner) := (node.parent, q.Child(cis));
    && q != node
    && (parent != null ==>
          && parent in s && parent != node && parent != q
          && parent.Child(side) == node && parent.Child(side.Other()) != node)
    && (inner != null ==> inner in s && inner != node && inner != q && inner != parent)
    && (parent == null ==> root == node)
  }

  ghost function SideOf(p: NodePath): Side {
    if p.Step? then p.side else Left
  }

  lemma RotateReady(cis: Side, p: NodePath, t: NodeShape, root: TreeNode?)
    requires t.Node? && Kid(t, cis.Other()).Node? && Linked(Plug(p, t), root)
    ensures Rotatable(cis, SideOf(p), t.item.ptr, Nodes(Plug(p, t)), root)
    ensures t.item.ptr.parent == Above(p)
    ensures t.item.ptr.Child(cis.Other()) == Ptr(Kid(t, cis.Other()))
    ensures Kid(t, cis.Other()).item.ptr.Child(cis) == Ptr(Kid(Kid(t, cis.Other()), cis))
  {
    var qt := Kid(t, cis.Other());
    var qp := Step(cis.Other(), t.item, Kid(t, cis), p);
    PlugDistinct(p, t);
    PlugNodes(p, t);
    Look(p, t, root);
    Look(qp, qt, root);
    var b := Kid(qt, cis);
    assert Nodes(b) <= Nodes(qt) <= Nodes(t);
  }

  lemma RotatedPlug(cis: Side, p: NodePath, t: NodeShape)
    requires t.Node? && Kid(t, cis.Other()).Node? && Distinct(Plug(p, t))
    ensures Distinct(Plug(p, Rotated(cis, t)))
    ensures Nodes(Plug(p, Rotated(cis, t))) == Nodes(Plug(p, t))
    ensures Inorder(Plug(p, Rotated(cis, t))) == Inorder(Plug(p, t))
    ensures Ptr(Plug(p, Rotated(cis, t))) == if p.Top? then Kid(t, cis.Other()).item.ptr else Ptr(Plug(p, t))
  {
    var t' := Rotated(cis, t);
    PlugDistinct(p, t);
    PlugDistinct(p, t');
    PlugNodes(p, t);
    PlugNodes(p, t');
    PlugInorder(p, t);
    PlugInorder(p, t');
    RotatedInorder(cis, t);
    RotatedAt(cis, t, null, null, t.item.ptr);
    PlugRoot(p, t, t');
  }

  lemma {:induction false} PlugRoot(p: NodePath, t: NodeShape, t': NodeShape)
    ensures p.Step? ==> Ptr(Plug(p, t)) == Ptr(Plug(p, t')) != null
    decreases p
  {
    match p
    case Top =>
    case Step(side, i, s, up) => PlugRoot(up, Join(side, t, i, s), Join(side, t', i, s));
  }

  lemma RotatedPlugAt(cis: Side, p: NodePath, t: NodeShape, n: TreeNode)
    requires t.Node? && Kid(t, cis.Other()).Node? && Distinct(Plug(p, t)) && n in Nodes(Plug(p, t))
    ensures n in Nodes(Plug(p, Rotated(cis, t)))
    ensures At(Plug(p, Rotated(cis, t)), null, n) ==
      RotatedFields(cis, SideOf(p), t.item.ptr, Kid(t, cis.Other()).item.ptr, Above(p),
                    Ptr(Kid(Kid(t, cis.Other()), cis)), n, At(Plug(p, t), null, n))
  {
    PlugDistinct(p, t);
    PlugNodes(p, t);
    RotatedPlug(cis, p, t);
    PlugDistinct(p, Rotated(cis, t));
    PlugAt(p, t, n);
    PlugAt(p, Rotated(cis, t), n);
    if n in Nodes(t) {
      RotatedAt(cis, t, Above(p), Above(p), n);
    }
  }

  lemma RecolouredPlugAt(p: NodePath, t: NodeShape, red: bool, n: TreeNode)
    requires t.Node? && Distinct(Plug(p, t)) && n in Nodes(Plug(p, t))
    ensures n in Nodes(Plug(p, Recolour(t, red)))
    ensures At(Plug(p, Recolour(t, red)), null, n) ==
      var was := At(Plug(p, t), null, n);
      if n == t.item.ptr then was.(red := red) else was
  {
    RecolouredPlug(p, t, red);
    PlugDistinct(p, t);
    PlugNodes(p, t);
    PlugAt(p, t, n);
    PlugAt(p, Recolour(t, red), n);
  }

  lemma RecolouredPlug(p: NodePath, t: NodeShape, red: bool)
    requires t.Node?
    ensures Distinct(Plug(p, t)) ==> Distinct(Plug(p, Recolour(t, red)))
    ensures Nodes(Plug(p, Recolour(t, red))) == Nodes(Plug(p, t))
    ensures Inorder(Plug(p, Recolour(t, red))) == Inorder(Plug(p, t))
    ensures Ptr(Plug(p, Recolour(t, red))) == Ptr(Plug(p, t))
  {
    var t' := Recolour(t, red);
    PlugDistinct(p, t);
    PlugDistinct(p, t');
    PlugNodes(p, t);
    PlugNodes(p, t');
    PlugInorder(p, t);
    PlugInorder(p, t');
    PlugRoot(p, t, t');
  }

  ghost function PushedRed(cis: Side, pt: NodeShape, g: Item<TreeNode>, u: NodeShape): NodeShape
    requires pt.Node? && u.Node?
  {
    Join(cis, Recolour(pt, false), g.(red := true), Recolour(u, false))
  }

  /** The inner grandchild, if it is the red one, is first rotated to the outside. */
  ghost function Outward(cis: Side, side: Side, pt: NodeShape): NodeShape
    requires pt.Node? && Kid(pt, side).Node?
  {
    if side == cis then pt else Rotated(cis, pt)
  }

  /** Parent and grandparent have swapped colours and places. */
  ghost function Turned(cis: Side, o: NodeShape, g: Item<TreeNode>, u: NodeShape): NodeShape
    requires o.Node?
  {
    Rotated(cis.Other(), Join(cis, Recolour(o, false), g.(red := true), u))
  }

  lemma JoinColours(side: Side, near: NodeShape, i: Item<TreeNode>, far: NodeShape)
    ensures NoRedRed(Join(side, near, i, far)) <==>
      NoRedRed(near) && NoRedRed(far) && (i.red ==> !IsRed(near) && !IsRed(far))
    ensures Balanced(Join(side, near, i, far)) <==> Balanced(near) && Balanced(far) && Height(near) == Height(far)
    ensures Height(near) == Height(far) ==>
      Height(Join(side, near, i, far)) == Height(near) + (if i.red then 0 else 1)
  {
  }

  lemma PushedRedKeeps(side: Side, t: NodeShape, i: Item<TreeNode>, sib: NodeShape, cis: Side, g: Item<TreeNode>,
                       u: NodeShape, up: NodePath)
    requires RedBlackBut(Step(side, i, sib, Step(cis, g, u, up)), t) && IsRed(t) && i.red && IsRed(u)
    ensures RedBlackBut(up, PushedRed(cis, Join(side, t, i, sib), g, u))
  {
    assert PathNoRedRed(Step(cis, g, u, up)) && PathBalanced(Step(cis, g, u, up), Height(t));
    var pb := Recolour(Join(side, t, i, sib), false);
    JoinColours(side, t, i.(red := false), sib);
    JoinColours(cis, pb, g.(red := true), Recolour(u, false));
  }

  lemma OutwardKeeps(cis: Side, side: Side, t: NodeShape, i: Item<TreeNode>, sib: NodeShape)
    requires NoRedRed(t) && NoRedRed(sib) && Balanced(t) && Balanced(sib) && Height(t) == Height(sib)
    requires IsRed(t) && i.red && !IsRed(sib)
    ensures
      var o := Outward(cis, side, Join(side, t, i, sib));
      && IsRed(o) && IsRed(Kid(o, cis)) && NoRedRed(Kid(o, cis)) && Balanced(o)
      && NoRedRed(Kid(o, cis.Other())) && !IsRed(Kid(o, cis.Other()))
      && Height(Kid(o, cis)) == Height(Kid(o, cis.Other())) == Height(t)
  {
    if side != cis {
      JoinColours(cis, sib, i, Kid(t, cis));
      JoinColours(cis, Join(cis, sib, i, Kid(t, cis)), t.item, Kid(t, cis.Other()));
    } else {
      JoinColours(side, t, i, sib);
    }
  }

  lemma TurnedKeeps(cis: Side, o: NodeShape, g: Item<TreeNode>, u: NodeShape, up: NodePath)
    requires o.Node? && IsRed(Kid(o, cis)) && NoRedRed(Kid(o, cis)) && Balanced(o)
    requires NoRedRed(Kid(o, cis.Other())) && !IsRed(Kid(o, cis.Other()))
    requires Height(Kid(o, cis)) == Height(Kid(o, cis.Other())) == Height(u)
    requires !g.red && !IsRed(u) && NoRedRed(u) && Balanced(u)
    requires PathNoRedRed(up) && PathBalanced(up, Height(u) + 1)
    ensures
      var r := Turned(cis, o, g, u);
      && RedBlackBut(Step(cis, r.item, Kid(r, cis.Other()), up), Kid(r, cis))
      && IsRed(Kid(r, cis)) && !r.item.red
      && Join(cis, Kid(r, cis), r.item, Kid(r, cis.Other())) == r
  {
    JoinColours(cis.Other(), u, g.(red := true), Kid(o, cis.Other()));
  }

  lemma TurnOverKeeps(side: Side, t: NodeShape, i: Item<TreeNode>, sib: NodeShape, cis: Side, g: Item<TreeNode>,
                      u: NodeShape, up: NodePath)
    requires RedBlackBut(Step(side, i, sib, Step(cis, g, u, up)), t) && IsRed(t) && i.red && !IsRed(u)
    ensures
      var r := Turned(cis, Outward(cis, side, Join(side, t, i, sib)), g, u);
      && RedBlackBut(Step(cis, r.item, Kid(r, cis.Other()), up), Kid(r, cis)) && IsRed(Kid(r, cis))
      && Join(cis, Kid(r, cis), r.item, Kid(r, cis.Other())) == r
      && Kid(r, cis) == Kid(Outward(cis, side, Join(side, t, i, sib)), cis)
  {
    assert PathNoRedRed(Step(cis, g, u, up)) && PathBalanced(Step(cis, g, u, up), Height(t));
    OutwardKeeps(cis, side, t, i, sib);
    TurnedKeeps(cis, Outward(cis, side, Join(side, t, i, sib)), g, u, up);
  }

  // ---- Search order around a path --------------------------------------------------------

  ghost predicate HasKey(s: seq<Entry<TreeNode>>, key: nat) {
    exists i :: 0 <= i < |s| && s[i].0 == key
  }

  ghost predicate Below(s: seq<Entry<TreeNode>>, key: nat) {
    forall e :: e in s ==> e.0 < key
  }

  ghost predicate Over(s: seq<Entry<TreeNode>>, key: nat) {
    forall e :: e in s ==> key < e.0
  }

  /** Everything before the hole has a smaller key than `key`, everything after a larger one. */
  ghost predicate Straddles(p: NodePath, key: nat) {
    Below(Before(p), key) && Over(After(p), key)
  }

  lemma SortedMiddle(b: seq<Entry<TreeNode>>, l: seq<Entry<TreeNode>>, e: Entry<TreeNode>, r: seq<Entry<TreeNode>>,
                     a: seq<Entry<TreeNode>>)
    requires Sorted(b + (l + [e] + r) + a)
    ensures Below(l, e.0) && Over(r, e.0)
  {
    var s := b + (l + [e] + r) + a;
    assert s[|b| + |l|] == e;
    forall x | x in l
      ensures x.0 < e.0
    {
      var i :| 0 <= i < |l| && l[i] == x;
      assert s[|b| + i] == x;
    }
    forall x | x in r
      ensures e.0 < x.0
    {
      var i :| 0 <= i < |r| && r[i] == x;
      assert s[|b| + |l| + 1 + i] == x;
    }
  }

  /** Searching on the proper side of a node keeps the key between the neighbours. */
  lemma DescendKeeps(side: Side, p: NodePath, t: NodeShape, key: nat)
    requires t.Node? && Sorted(Inorder(Plug(p, t))) && Straddles(p, key)
    requires if side.Left? then key < t.item.key else t.item.key < key
    ensures Straddles(Step(side, t.item, Kid(t, side.Other()), p), key)
  {
    PlugInorder(p, t);
    SortedMiddle(Before(p), Inorder(t.left), (t.item.key, t.item.ptr), Inorder(t.right), After(p));
  }

  lemma SortedInsert(b: seq<Entry<TreeNode>>, e: Entry<TreeNode>, a: seq<Entry<TreeNode>>)
    requires Sorted(b + a) && Below(b, e.0) && Over(a, e.0)
    ensures Sorted(b + [e] + a)
  {
    var s, s' := b + a, b + [e] + a;
    forall i, j | 0 <= i < j < |s'|
      ensures s'[i].0 < s'[j].0
    {
      var i', j' := if i < |b| then i else i - 1, if j < |b| then j else j - 1;
      if i == |b| {
        assert s'[j] in a;
      } else if j == |b| {
        assert s'[i] in b;
      } else {
        assert s'[i] == s[i'] && s'[j] == s[j'];
      }
    }
  }

  lemma SortedRemove(b: seq<Entry<TreeNode>>, e: Entry<TreeNode>, a: seq<Entry<TreeNode>>)
    requires Sorted(b + [e] + a)
    ensures Sorted(b + a) && Below(b, e.0) && Over(a, e.0)
  {
    var s, s' := b + a, b + [e] + a;
    assert s' == [] + (b + [e] + a) + [];
    SortedMiddle([], b, e, a, []);
    forall i, j | 0 <= i < j < |s|
      ensures s[i].0 < s[j].0
    {
      var i', j' := if i < |b| then i else i + 1, if j < |b| then j else j + 1;
      assert s[i] == s'[i'] && s[j] == s'[j'];
    }
  }

  ghost function Elements(s: seq<Entry<TreeNode>>): set<Entry<TreeNode>> {
    set e | e in s
  }

  lemma ElementsInsert(b: seq<Entry<TreeNode>>, e: Entry<TreeNode>, a: seq<Entry<TreeNode>>)
    ensures Elements(b + [e] + a) == Elements(b + a) + {e}
  {
  }

  ghost function EntrySet(t: NodeShape): set<Entry<TreeNode>> {
    Elements(Inorder(t))
  }

  lemma SlotAbsent(p: NodePath, key: nat)
    requires Straddles(p, key)
    ensures !HasKey(Inorder(Plug(p, Leaf)), key)
  {
    PlugInorder(p, Leaf);
    var s := Before(p) + [] + After(p);
    forall i | 0 <= i < |s|
      ensures s[i].0 != key
    {
      assert s[i] in Before(p) || s[i] in After(p);
    }
  }

  lemma FocusEntry(p: NodePath, t: NodeShape)
    requires t.Node?
    ensures (t.item.key, t.item.ptr) in Inorder(Plug(p, t))
  {
    PlugInorder(p, t);
    assert (t.item.key, t.item.ptr) in Inorder(t);
  }

  /** A key that straddles an empty slot can be put there without breaking the order. */
  lemma SlotKeeps(p: NodePath, node: TreeNode, key: nat, red: bool)
    requires Sorted(Inorder(Plug(p, Leaf))) && Straddles(p, key)
    ensures
      var t' := Plug(p, Node(Leaf, Item(node, key, red), Leaf));
      Sorted(Inorder(t')) && EntrySet(t') == EntrySet(Plug(p, Leaf)) + {(key, node)}
  {
    PlugInorder(p, Leaf);
    PlugInorder(p, Node(Leaf, Item(node, key, red), Leaf));
    var one := Node(Leaf, Item(node, key, red), Leaf);
    assert Inorder(one) == [(key, node)];
    assert Inorder(Plug(p, Leaf)) == Before(p) + After(p);
    assert Inorder(Plug(p, one)) == Before(p) + [(key, node)] + After(p);
    SortedInsert(Before(p), (key, node), After(p));
    ElementsInsert(Before(p), (key, node), After(p));
  }

  // ---- Filling an empty slot ---------------------------------------------------------------

  ghost function Single(node: TreeNode, key: nat): NodeShape {
    Node(Leaf, Item(node, key, true), Leaf)
  }

  lemma AttachedPlug(p: NodePath, node: TreeNode, key: nat)
    requires Distinct(Plug(p, Leaf)) && node !in Nodes(Plug(p, Leaf))
    ensures Distinct(Plug(p, Single(node, key)))
    ensures Nodes(Plug(p, Single(node, key))) == Nodes(Plug(p, Leaf)) + {node}
    ensures Ptr(Plug(p, Single(node, key))) == if p.Top? then node else Ptr(Plug(p, Leaf))
  {
    PlugDistinct(p, Leaf);
    PlugDistinct(p, Single(node, key));
    PlugNodes(p, Leaf);
    PlugNodes(p, Single(node, key));
    PlugRoot(p, Leaf, Single(node, key));
  }

  lemma AttachedAt(p: NodePath, node: TreeNode, key: nat, n: TreeNode)
    requires Distinct(Plug(p, Leaf)) && node !in Nodes(Plug(p, Leaf)) && n in Nodes(Plug(p, Single(node, key)))
    ensures n != node ==> n in Nodes(Plug(p, Leaf))
    ensures At(Plug(p, Single(node, key)), null, n) ==
      if n == node then Fields(null, null, Above(p), key, true)
      else if n == Above(p) then At(Plug(p, Leaf), null, n).WithChild(SideOf(p), node)
      else At(Plug(p, Leaf), null, n)
  {
    AttachedPlug(p, node, key);
    PlugNodes(p, Leaf);
    PlugAt(p, Single(node, key), n);
    if n != node {
      PlugAt(p, Leaf, n);
    }
  }

  lemma RootBlackened(p: NodePath, t: NodeShape)
    requires RedBlackBut(p, t) && IsRed(t) && !TopRed(p)
    ensures Plug(p, t).Node? && RedBlack(Recolour(Plug(p, t), false))
  {
    if p.Step? {
      PlugRedBlack(p, t);
      PlugRoot(p, t, t);
    }
  }

  // ---- Taking a node out ------------------------------------------------------------------

  lemma {:induction false} Locate(p0: NodePath, t0: NodeShape, node: TreeNode) returns (p: NodePath, t: NodeShape)
    requires node in Nodes(t0)
    ensures Plug(p, t) == Plug(p0, t0) && t.Node? && t.item.ptr == node
    decreases t0
  {
    if node == t0.item.ptr {
      p, t := p0, t0;
    } else if node in Nodes(t0.left) {
      p, t := Locate(Step(Left, t0.item, t0.right, p0), t0.left, node);
    } else {
      p, t := Locate(Step(Right, t0.item, t0.left, p0), t0.right, node);
    }
  }

  /** The path `q`, continued above its top by `base`. */
  ghost function Append(q: NodePath, base: NodePath): NodePath {
    if q.Top? then base else q.(up := Append(q.up, base))
  }

  ghost predicate LeftOnly(q: NodePath) {
    q.Step? ==> q.side.Left? && LeftOnly(q.up)
  }

  /** The outermost node of a path. */
  ghost function Outermost(q: NodePath): TreeNode?  {
    if q.Top? then null else if q.up.Top? then q.item.ptr else Outermost(q.up)
  }

  lemma {:induction false} AppendFacts(q: NodePath, base: NodePath)
    ensures PathNodes(Append(q, base)) == PathNodes(q) + PathNodes(base)
    ensures LeftOnly(q) ==> Before(Append(q, base)) == Before(base)
    ensures q.Step? ==> Outermost(q) != null && Outermost(q) in PathNodes(q)
    ensures PathDistinct(Append(q, base)) <==> PathDistinct(q) && PathDistinct(base) && PathNodes(q) !! PathNodes(base)
  {
    if q.Step? {
      AppendFacts(q.up, base);
    }
  }

  lemma {:induction false} AppendAfter(q: NodePath, b1: NodePath, b2: NodePath)
    requires LeftOnly(q) && After(b1) == After(b2)
    ensures After(Append(q, b1)) == After(Append(q, b2))
  {
    if q.Step? {
      AppendAfter(q.up, b1, b2);
    }
  }

  /** Moving a path onto another base changes only its outermost node's parent link. */
  lemma {:induction false} RebaseAt(q: NodePath, b1: NodePath, b2: NodePath, hole: TreeNode?, n: TreeNode)
    requires PathDistinct(Append(q, b1)) && PathDistinct(Append(q, b2)) && n in PathNodes(q)
    ensures n in PathNodes(Append(q, b1)) && n in PathNodes(Append(q, b2))
    ensures PathAt(Append(q, b2), hole, n) ==
      var was := PathAt(Append(q, b1), hole, n);
      if n == Outermost(q) then was.(parent := Above(b2)) else was
  {
    AppendFacts(q, b1);
    AppendFacts(q, b2);
    AppendFacts(q.up, b1);
    AppendFacts(q.up, b2);
    if n != q.item.ptr && n !in Nodes(q.sibling) {
      RebaseAt(q.up, b1, b2, q.item.ptr, n);
    }
  }

  lemma {:induction false} BaseAt(q: NodePath, base: NodePath, hole: TreeNode?, n: TreeNode)
    requires PathDistinct(Append(q, base)) && n in PathNodes(base)
    ensures n in PathNodes(Append(q, base))
    ensures PathAt(Append(q, base), hole, n) == PathAt(base, if q.Top? then hole else Outermost(q), n)
  {
    AppendFacts(q, base);
    if q.Step? {
      BaseAt(q.up, base, q.item.ptr, n);
    }
  }

  /** Colours on a path do not depend on which node carries them. */
  lemma {:induction false} RebaseColours(q: NodePath, side: Side, i: Item<TreeNode>, j: Item<TreeNode>, s: NodeShape,
                                         up: NodePath, h: int)
    requires i.red == j.red
    ensures PathNoRedRed(Append(q, Step(side, i, s, up))) ==> PathNoRedRed(Append(q, Step(side, j, s, up)))
    ensures PathBalanced(Append(q, Step(side, i, s, up)), h) ==> PathBalanced(Append(q, Step(side, j, s, up)), h)
  {
    if q.Step? {
      RebaseColours(q.up, side, i, j, s, up, h + (if q.item.red then 0 else 1));
    }
  }

  ghost predicate OnlyKid(t: NodeShape, c: NodeShape) {
    t.Node? && ((t.left.Leaf? && c == t.right) || (t.right.Leaf? && c == t.left))
  }

  lemma RehungAt(t: NodeShape, was: TreeNode?, now: TreeNode?, n: TreeNode)
    requires n in Nodes(t)
    ensures At(t, now, n) == if n == Ptr(t) then At(t, was, n).(parent := now) else At(t, was, n)
  {
  }

  lemma RefillAt(p: NodePath, was: TreeNode?, now: TreeNode?, n: TreeNode)
    requires n in PathNodes(p)
    ensures PathAt(p, now, n) ==
      if n == Above(p) then PathAt(p, was, n).WithChild(SideOf(p), now) else PathAt(p, was, n)
  {
  }

  lemma SplicedPlug(p: NodePath, t: NodeShape, c: NodeShape)
    requires OnlyKid(t, c) && Distinct(Plug(p, t))
    ensures Distinct(Plug(p, c)) && Nodes(Plug(p, c)) == Nodes(Plug(p, t)) - {t.item.ptr}
    ensures Ptr(Plug(p, c)) == if p.Top? then Ptr(c) else Ptr(Plug(p, t))
  {
    PlugDistinct(p, t);
    PlugDistinct(p, c);
    PlugNodes(p, t);
    PlugNodes(p, c);
    PlugRoot(p, t, c);
  }

  lemma SplicedAt(p: NodePath, t: NodeShape, c: NodeShape, n: TreeNode)
    requires OnlyKid(t, c) && Distinct(Plug(p, t)) && n in Nodes(Plug(p, c))
    ensures n in Nodes(Plug(p, t))
    ensures At(Plug(p, c), null, n) ==
      var was := At(Plug(p, t), null, n);
      if n == Above(p) then was.WithChild(SideOf(p), Ptr(c))
      else if n == Ptr(c) then was.(parent := Above(p))
      else was
  {
    SplicedPlug(p, t, c);
    PlugDistinct(p, t);
    PlugNodes(p, c);
    PlugAt(p, c, n);
    if n in Nodes(c) {
      RehungAt(c, t.item.ptr, Above(p), n);
      assert At(t, Above(p), n) == At(c, t.item.ptr, n);
    }
    PlugAt(p, t, n);
  }

  /** A node with two kids, its successor `x` at the end of `q`, and the tree around them. */
  ghost function Base(i: Item<TreeNode>, l: NodeShape, p: NodePath): NodePath {
    Step(Right, i, l, p)
  }

  /** What removing `i` leaves in a node that held `was`: the successor `x` takes its place. */
  ghost function SucceededFields(p: NodePath, i: Item<TreeNode>, l: NodeShape, q: NodePath, x: Item<TreeNode>,
                                 r: NodeShape, n: TreeNode, was: Fields): Fields
  {
    if n == x.ptr then Fields(Ptr(l), if q.Top? then Ptr(r) else Outermost(q), Above(p), x.key, i.red)
    else if n == Above(p) then was.WithChild(SideOf(p), x.ptr)
    else if n == Ptr(l) then was.(parent := x.ptr)
    else if n == Ptr(r) then was.(parent := if q.Top? then x.ptr else q.item.ptr)
    else
      var w := if n == Outermost(q) then was.(parent := x.ptr) else was;
      if q.Step? && n == q.item.ptr then w.(left := Ptr(r)) else w
  }

  lemma {:induction false} AppendPlug(q: NodePath, base: NodePath, t: NodeShape)
    ensures Plug(Append(q, base), t) == Plug(base, Plug(q, t))
    decreases q
  {
    if q.Step? {
      AppendPlug(q.up, base, Join(q.side, t, q.item, q.sibling));
    }
  }

  lemma BaseNodes(i: Item<TreeNode>, l: NodeShape, p: NodePath)
    ensures PathNodes(Base(i, l, p)) == {i.ptr} + Nodes(l) + PathNodes(p)
    ensures PathDistinct(Base(i, l, p)) <==>
      && Distinct(l) && PathDistinct(p) && Nodes(l) !! PathNodes(p)
      && i.ptr !in Nodes(l) && i.ptr !in PathNodes(p)
  {
  }

  lemma RightSpineNodes(x: Item<TreeNode>, r: NodeShape)
    ensures Nodes(Node(Leaf, x, r)) == {x.ptr} + Nodes(r)
    ensures Distinct(Node(Leaf, x, r)) <==> Distinct(r) && x.ptr !in Nodes(r)
  {
  }

  lemma Apart<T>(q: set<T>, b: set<T>, qb: set<T>, xs: set<T>, i: T, l: set<T>, p: set<T>, x: T, r: set<T>)
    requires b == {i} + l + p && qb == q + b && xs == {x} + r && xs !! qb && q !! b
    ensures q !! l && q !! p && q !! r && l !! r && p !! r
    ensures x !in q && x !in l && x !in p && x != i
    ensures i !in q && i !in r
  {
  }

  /** The parts of the tree around a removed node and its successor do not overlap. */
  lemma Spread(p: NodePath, i: Item<TreeNode>, l: NodeShape, q: NodePath, x: Item<TreeNode>, r: NodeShape)
    requires Distinct(Plug(Append(q, Base(i, l, p)), Node(Leaf, x, r)))
    ensures PathNodes(q) !! Nodes(l) && PathNodes(q) !! PathNodes(p) && PathNodes(q) !! Nodes(r)
    ensures Nodes(l) !! PathNodes(p) && Nodes(l) !! Nodes(r) && PathNodes(p) !! Nodes(r)
    ensures x.ptr !in PathNodes(q) && x.ptr !in Nodes(l) && x.ptr !in PathNodes(p) && x.ptr !in Nodes(r)
    ensures i.ptr !in PathNodes(q) && i.ptr !in Nodes(l) && i.ptr !in PathNodes(p) && i.ptr !in Nodes(r)
    ensures x.ptr != i.ptr
  {
    hide Distinct, PathDistinct, Nodes, PathNodes;
    var b := Base(i, l, p);
    var xs := Node(Leaf, x, r);
    PlugDistinct(Append(q, b), xs);
    AppendFacts(q, b);
    RightSpineNodes(x, r);
    BaseNodes(i, l, p);
    Apart(PathNodes(q), PathNodes(b), PathNodes(Append(q, b)), Nodes(xs), i.ptr, Nodes(l), PathNodes(p), x.ptr, Nodes(r));
  }

  lemma SucceededNodes<T>(q: set<T>, i: T, l: set<T>, p: set<T>, x: T, r: set<T>)
    requires i !in q && i !in l && i !in p && i !in r && i != x
    ensures q + ({x} + l + p) + r == (q + ({i} + l + p) + ({x} + r)) - {i}
  {
  }

  lemma SucceededPath(p: NodePath, i: Item<TreeNode>, l: NodeShape, q: NodePath, x: Item<TreeNode>, r: NodeShape)
    requires Distinct(Plug(Append(q, Base(i, l, p)), Node(Leaf, x, r)))
    ensures PathDistinct(Append(q, Base(i, l, p))) && PathDistinct(Append(q, Base(x.(red := i.red), l, p)))
  {
    var b, b' := Base(i, l, p), Base(x.(red := i.red), l, p);
    Spread(p, i, l, q, x, r);
    PlugDistinct(Append(q, b), Node(Leaf, x, r));
    AppendFacts(q, b);
    AppendFacts(q, b');
    BaseNodes(i, l, p);
    BaseNodes(x.(red := i.red), l, p);
  }

  lemma SucceededPlug(p: NodePath, i: Item<TreeNode>, l: NodeShape, q: NodePath, x: Item<TreeNode>, r: NodeShape)
    requires Distinct(Plug(Append(q, Base(i, l, p)), Node(Leaf, x, r)))
    ensures
      var w, w' := Plug(Append(q, Base(i, l, p)), Node(Leaf, x, r)), Plug(Append(q, Base(x.(red := i.red), l, p)), r);
      Distinct(w') && Nodes(w') == Nodes(w) - {i.ptr}
  {
    var b, b' := Base(i, l, p), Base(x.(red := i.red), l, p);
    Spread(p, i, l, q, x, r);
    SucceededPath(p, i, l, q, x, r);
    PlugDistinct(Append(q, b), Node(Leaf, x, r));
    PlugDistinct(Append(q, b'), r);
    PlugNodes(Append(q, b), Node(Leaf, x, r));
    PlugNodes(Append(q, b'), r);
    AppendFacts(q, b);
    AppendFacts(q, b');
    SucceededNodes(PathNodes(q), i.ptr, Nodes(l), PathNodes(p), x.ptr, Nodes(r));
    BaseNodes(i, l, p);
    BaseNodes(x.(red := i.red), l, p);
    RightSpineNodes(x, r);
  }

  lemma Ends(p: NodePath, i: Item<TreeNode>, l: NodeShape, q: NodePath, x: Item<TreeNode>, r: NodeShape)
    ensures Above(p) != null ==> Above(p) in PathNodes(p)
    ensures Ptr(l) != null ==> Ptr(l) in Nodes(l)
    ensures Ptr(r) != null ==> Ptr(r) in Nodes(r)
    ensures q.Step? ==> q.item.ptr in PathNodes(q) && Outermost(q) in PathNodes(q)
  {
    AppendFacts(q, p);
  }

  lemma SucceededRoot(p: NodePath, i: Item<TreeNode>, l: NodeShape, q: NodePath, x: Item<TreeNode>, r: NodeShape)
    ensures
      var w, w' := Plug(Append(q, Base(i, l, p)), Node(Leaf, x, r)), Plug(Append(q, Base(x.(red := i.red), l, p)), r);
      Ptr(w') == if p.Top? then x.ptr else Ptr(w)
  {
    AppendPlug(q, Base(i, l, p), Node(Leaf, x, r));
    AppendPlug(q, Base(x.(red := i.red), l, p), r);
    PlugRoot(p, Join(Right, Plug(q, Node(Leaf, x, r)), i, l), Join(Right, Plug(q, r), x.(red := i.red), l));
  }

  lemma SucceededBelow(p: NodePath, i: Item<TreeNode>, l: NodeShape, q: NodePath, x: Item<TreeNode>, r: NodeShape, n: TreeNode)
    requires Distinct(Plug(Append(q, Base(i, l, p)), Node(Leaf, x, r))) && n in Nodes(r)
    ensures n in Nodes(Plug(Append(q, Base(i, l, p)), Node(Leaf, x, r)))
    ensures n in Nodes(Plug(Append(q, Base(x.(red := i.red), l, p)), r))
    ensures At(Plug(Append(q, Base(x.(red := i.red), l, p)), r), null, n) ==
      SucceededFields(p, i, l, q, x, r, n, At(Plug(Append(q, Base(i, l, p)), Node(Leaf, x, r)), null, n))
  {
    var b' := Base(x.(red := i.red), l, p);
    Spread(p, i, l, q, x, r);
    Ends(p, i, l, q, x, r);
    SucceededPlug(p, i, l, q, x, r);
    SucceededPath(p, i, l, q, x, r);
    PlugAt(Append(q, Base(i, l, p)), Node(Leaf, x, r), n);
    PlugAt(Append(q, b'), r, n);
    RehungAt(r, x.ptr, Above(Append(q, b')), n);
  }

  lemma SucceededOnPath(p: NodePath, i: Item<TreeNode>, l: NodeShape, q: NodePath, x: Item<TreeNode>, r: NodeShape, n: TreeNode)
    requires Distinct(Plug(Append(q, Base(i, l, p)), Node(Leaf, x, r))) && n in PathNodes(q) && LeftOnly(q)
    ensures n in Nodes(Plug(Append(q, Base(i, l, p)), Node(Leaf, x, r)))
    ensures n in Nodes(Plug(Append(q, Base(x.(red := i.red), l, p)), r))
    ensures At(Plug(Append(q, Base(x.(red := i.red), l, p)), r), null, n) ==
      SucceededFields(p, i, l, q, x, r, n, At(Plug(Append(q, Base(i, l, p)), Node(Leaf, x, r)), null, n))
  {
    var b, b' := Base(i, l, p), Base(x.(red := i.red), l, p);
    Spread(p, i, l, q, x, r);
    Ends(p, i, l, q, x, r);
    SucceededPlug(p, i, l, q, x, r);
    SucceededPath(p, i, l, q, x, r);
    AppendFacts(q, b);
    AppendFacts(q, b');
    PlugAt(Append(q, b), Node(Leaf, x, r), n);
    PlugAt(Append(q, b'), r, n);
    RebaseAt(q, b, b', Ptr(r), n);
    RefillAt(Append(q, b), x.ptr, Ptr(r), n);
  }

  lemma BaseChanged(p: NodePath, i: Item<TreeNode>, l: NodeShape, j: Item<TreeNode>, was: TreeNode?, now: TreeNode?, n: TreeNode)
    requires PathDistinct(Base(i, l, p)) && PathDistinct(Base(j, l, p))
    requires n in PathNodes(Base(j, l, p)) && n != i.ptr
    ensures n != j.ptr ==> n in PathNodes(Base(i, l, p))
    ensures PathAt(Base(j, l, p), now, n) ==
      if n == j.ptr then Fields(Ptr(l), now, Above(p), j.key, j.red)
      else if n == Above(p) then PathAt(Base(i, l, p), was, n).WithChild(SideOf(p), j.ptr)
      else if n == Ptr(l) then PathAt(Base(i, l, p), was, n).(parent := j.ptr)
      else PathAt(Base(i, l, p), was, n)
  {
    if n in Nodes(l) {
      RehungAt(l, i.ptr, j.ptr, n);
    } else if n != j.ptr {
      RefillAt(p, i.ptr, j.ptr, n);
    }
  }

  lemma SucceededInBase(p: NodePath, i: Item<TreeNode>, l: NodeShape, q: NodePath, x: Item<TreeNode>, r: NodeShape, n: TreeNode)
    requires Distinct(Plug(Append(q, Base(i, l, p)), Node(Leaf, x, r)))
    requires n in PathNodes(Base(x.(red := i.red), l, p))
    ensures n in Nodes(Plug(Append(q, Base(i, l, p)), Node(Leaf, x, r)))
    ensures n in Nodes(Plug(Append(q, Base(x.(red := i.red), l, p)), r))
    ensures At(Plug(Append(q, Base(x.(red := i.red), l, p)), r), null, n) ==
      SucceededFields(p, i, l, q, x, r, n, At(Plug(Append(q, Base(i, l, p)), Node(Leaf, x, r)), null, n))
  {
    var b, b' := Base(i, l, p), Base(x.(red := i.red), l, p);
    var was, now := if q.Top? then x.ptr else Outermost(q), if q.Top? then Ptr(r) else Outermost(q);
    Spread(p, i, l, q, x, r);
    Ends(p, i, l, q, x, r);
    SucceededPlug(p, i, l, q, x, r);
    SucceededPath(p, i, l, q, x, r);
    AppendFacts(q, b);
    AppendFacts(q, b');
    BaseNodes(x.(red := i.red), l, p);
    BaseNodes(i, l, p);
    PlugAt(Append(q, b'), r, n);
    BaseAt(q, b', Ptr(r), n);
    PlugAt(Append(q, b), Node(Leaf, x, r), n);
    BaseChanged(p, i, l, x.(red := i.red), was, now, n);
    if n != x.ptr {
      BaseAt(q, b, x.ptr, n);
    }
  }

  lemma SucceededAt(p: NodePath, i: Item<TreeNode>, l: NodeShape, q: NodePath, x: Item<TreeNode>, r: NodeShape, n: TreeNode)
    requires Distinct(Plug(Append(q, Base(i, l, p)), Node(Leaf, x, r))) && LeftOnly(q)
    requires n in Nodes(Plug(Append(q, Base(x.(red := i.red), l, p)), r))
    ensures n in Nodes(Plug(Append(q, Base(i, l, p)), Node(Leaf, x, r)))
    ensures At(Plug(Append(q, Base(x.(red := i.red), l, p)), r), null, n) ==
      SucceededFields(p, i, l, q, x, r, n, At(Plug(Append(q, Base(i, l, p)), Node(Leaf, x, r)), null, n))
  {
    PlugNodes(Append(q, Base(x.(red := i.red), l, p)), r);
    AppendFacts(q, Base(x.(red := i.red), l, p));
    if n in Nodes(r) {
      SucceededBelow(p, i, l, q, x, r, n);
    } else if n in PathNodes(q) {
      SucceededOnPath(p, i, l, q, x, r, n);
    } else {
      SucceededInBase(p, i, l, q, x, r, n);
    }
  }

  /** `node` is what hangs on `side` of `parent`, or the root. */
  ghost predicate HangsOn(node: TreeNode, parent: TreeNode?, side: Side, root: TreeNode?, s: set<TreeNode>)
    reads s
  {
    && node in s
    && (parent == null ==> root == node)
    && (parent != null ==>
          && parent in s && parent != node
          && parent.Child(side) == node && parent.Child(side.Other()) != node)
  }

  lemma FocusHangs(p: NodePath, t: NodeShape, root: TreeNode?)
    requires t.Node? && Linked(Plug(p, t), root)
    ensures HangsOn(t.item.ptr, Above(p), SideOf(p), root, Nodes(Plug(p, t)))
  {
    Look(p, t, root);
    PlugNodes(p, t);
  }

  lemma RemovedHangs(p: NodePath, i: Item<TreeNode>, l: NodeShape, q: NodePath, x: Item<TreeNode>, r: NodeShape, root: TreeNode?)
    requires Linked(Plug(Append(q, Base(i, l, p)), Node(Leaf, x, r)), root)
    ensures HangsOn(i.ptr, Above(p), SideOf(p), root, Nodes(Plug(Append(q, Base(i, l, p)), Node(Leaf, x, r))))
    ensures i.ptr.red == i.red
  {
    var t := Join(Right, Plug(q, Node(Leaf, x, r)), i, l);
    AppendPlug(q, Base(i, l, p), Node(Leaf, x, r));
    assert Plug(p, t) == Plug(Base(i, l, p), Plug(q, Node(Leaf, x, r)));
    FocusHangs(p, t, root);
    Look(p, t, root);
  }

  lemma AroundRemoved(p: NodePath, i: Item<TreeNode>, l: NodeShape, q: NodePath, x: Item<TreeNode>, r: NodeShape)
    ensures var s := Nodes(Plug(Append(q, Base(i, l, p)), Node(Leaf, x, r)));
      && x.ptr in s && Nodes(l) <= s && Nodes(r) <= s && PathNodes(q) <= s && PathNodes(p) <= s
  {
    PlugNodes(Append(q, Base(i, l, p)), Node(Leaf, x, r));
    AppendFacts(q, Base(i, l, p));
    BaseNodes(i, l, p);
    RightSpineNodes(x, r);
  }

  // ---- Order and colours after taking a node out --------------------------------------------

  lemma RemovedEntry(b: seq<Entry<TreeNode>>, e: Entry<TreeNode>, a: seq<Entry<TreeNode>>)
    requires Sorted(b + [e] + a)
    ensures Sorted(b + a) && Elements(b + a) == Elements(b + [e] + a) - {e}
  {
    SortedRemove(b, e, a);
    ElementsInsert(b, e, a);
    assert e !in b + a;
  }

  /** Shape `t'` holds the entries of `t` except `node`'s, still in order. */
  ghost predicate Without(t': NodeShape, t: NodeShape, i: Item<TreeNode>) {
    && Sorted(Inorder(t')) && EntrySet(t') == EntrySet(t) - {(i.key, i.ptr)}
    && Nodes(t') == Nodes(t) - {i.ptr}
  }

  lemma RegroupSplice<T>(b: seq<T>, c: seq<T>, e: T, a: seq<T>)
    ensures b + ([] + [e] + c) + a == b + [e] + (c + a)
    ensures b + (c + [e] + []) + a == b + c + [e] + a
    ensures b + c + a == b + (c + a)
  {
    assert b + ([] + [e] + c) + a == b + [e] + (c + a);
    assert b + (c + [e] + []) + a == b + c + [e] + a;
  }

  lemma RegroupSucceed<T>(b: seq<T>, l: seq<T>, i: T, x: T, r: seq<T>, a: seq<T>)
    ensures (b + l + [i]) + ([] + [x] + r) + a == b + l + [i] + ([x] + r + a)
    ensures (b + l + [x]) + r + a == b + l + ([x] + r + a)
  {
    assert (b + l + [i]) + ([] + [x] + r) + a == b + l + [i] + ([x] + r + a);
  }

  lemma SplicedOrder(p: NodePath, t: NodeShape, c: NodeShape)
    requires OnlyKid(t, c) && Distinct(Plug(p, t)) && Sorted(Inorder(Plug(p, t)))
    ensures Without(Plug(p, c), Plug(p, t), t.item)
  {
    var e := (t.item.key, t.item.ptr);
    SplicedPlug(p, t, c);
    PlugInorder(p, t);
    PlugInorder(p, c);
    RegroupSplice(Before(p), Inorder(c), e, After(p));
    if t.left.Leaf? {
      RemovedEntry(Before(p), e, Inorder(c) + After(p));
    } else {
      RemovedEntry(Before(p) + Inorder(c), e, After(p));
    }
  }

  lemma SucceededInorder(p: NodePath, i: Item<TreeNode>, l: NodeShape, q: NodePath, x: Item<TreeNode>, r: NodeShape)
    requires LeftOnly(q)
    ensures
      var (ei, ex, b) := ((i.key, i.ptr), (x.key, x.ptr), Before(p) + Inorder(l));
      var a := [ex] + Inorder(r) + After(Append(q, Base(i, l, p)));
      && Inorder(Plug(Append(q, Base(i, l, p)), Node(Leaf, x, r))) == b + [ei] + a
      && Inorder(Plug(Append(q, Base(x.(red := i.red), l, p)), r)) == b + a
  {
    var b, b' := Base(i, l, p), Base(x.(red := i.red), l, p);
    PlugInorder(Append(q, b), Node(Leaf, x, r));
    PlugInorder(Append(q, b'), r);
    AppendFacts(q, b);
    AppendFacts(q, b');
    AppendAfter(q, b, b');
    RegroupSucceed(Before(p), Inorder(l), (i.key, i.ptr), (x.key, x.ptr), Inorder(r), After(Append(q, b)));
  }

  lemma SucceededOrder(p: NodePath, i: Item<TreeNode>, l: NodeShape, q: NodePath, x: Item<TreeNode>, r: NodeShape)
    requires LeftOnly(q) && Distinct(Plug(Append(q, Base(i, l, p)), Node(Leaf, x, r)))
    requires Sorted(Inorder(Plug(Append(q, Base(i, l, p)), Node(Leaf, x, r))))
    ensures Without(Plug(Append(q, Base(x.(red := i.red), l, p)), r), Plug(Append(q, Base(i, l, p)), Node(Leaf, x, r)), i)
  {
    SucceededPlug(p, i, l, q, x, r);
    SucceededInorder(p, i, l, q, x, r);
    RemovedEntry(Before(p) + Inorder(l), (i.key, i.ptr),
                 [(x.key, x.ptr)] + Inorder(r) + After(Append(q, Base(i, l, p))));
  }

  /** Everything the tree promises, except for the black node that was taken out, if it was black. */
  ghost predicate AfterUnlink(p: NodePath, f: NodeShape, red: bool) {
    if red then RedBlackBut(p, f) && f.Leaf? else OneShort(p, f)
  }

  lemma SplicedColours(p: NodePath, t: NodeShape, c: NodeShape)
    requires OnlyKid(t, c) && RedBlack(Plug(p, t))
    ensures AfterUnlink(p, c, t.item.red)
  {
    UnplugRedBlack(p, t);
  }

  lemma SucceededColours(p: NodePath, i: Item<TreeNode>, l: NodeShape, q: NodePath, x: Item<TreeNode>, r: NodeShape)
    requires RedBlack(Plug(Append(q, Base(i, l, p)), Node(Leaf, x, r)))
    ensures AfterUnlink(Append(q, Base(x.(red := i.red), l, p)), r, x.red)
  {
    SplicedColours(Append(q, Base(i, l, p)), Node(Leaf, x, r), r);
    RebaseColours(q, Right, i, x.(red := i.red), l, p, Height(r) + (if x.red then 0 else 1));
  }

  // ---- Rebalancing after removal -------------------------------------------------------------

  /** A red sibling changes places and colours with the parent. */
  ghost function Swung(cis: Side, f: NodeShape, i: Item<TreeNode>, sib: NodeShape): NodeShape
    requires sib.Node?
  {
    Rotated(cis, Join(cis, f, i.(red := true), Recolour(sib, false)))
  }

  ghost function SwungPath(cis: Side, i: Item<TreeNode>, sib: NodeShape, up: NodePath): NodePath
    requires sib.Node?
  {
    Step(cis, i.(red := true), Kid(sib, cis), Step(cis, sib.item.(red := false), Kid(sib, cis.Other()), up))
  }

  lemma SwungKeeps(cis: Side, f: NodeShape, i: Item<TreeNode>, sib: NodeShape, up: NodePath)
    requires OneShort(Step(cis, i, sib, up), f) && IsRed(sib)
    ensures OneShort(SwungPath(cis, i, sib, up), f)
    ensures Kid(sib, cis).Node? && !IsRed(Kid(sib, cis))
    ensures Plug(SwungPath(cis, i, sib, up), f) == Plug(up, Swung(cis, f, i, sib))
  {
    assert Plug(SwungPath(cis, i, sib, up), f) ==
      Plug(Step(cis, sib.item.(red := false), Kid(sib, cis.Other()), up), Join(cis, f, i.(red := true), Kid(sib, cis)));
    assert PathNoRedRed(Step(cis, sib.item.(red := false), Kid(sib, cis.Other()), up));
    assert PathBalanced(Step(cis, sib.item.(red := false), Kid(sib, cis.Other()), up), Height(f) + 1);
  }

  lemma PaintedKeeps(cis: Side, f: NodeShape, i: Item<TreeNode>, sib: NodeShape, up: NodePath)
    requires OneShort(Step(cis, i, sib, up), f) && sib.Node? && !IsRed(sib) && !IsRed(f)
    requires !IsRed(sib.left) && !IsRed(sib.right)
    ensures i.red ==> RedBlackBut(up, Join(cis, f, i.(red := false), Recolour(sib, true)))
    ensures !i.red ==> OneShort(up, Join(cis, f, i, Recolour(sib, true)))
  {
    JoinColours(cis, f, i, Recolour(sib, true));
    JoinColours(cis, f, i.(red := false), Recolour(sib, true));
  }

  /** The red nephew, if it is the near one, is first rotated to the far side. */
  ghost function NephewOut(cis: Side, sib: NodeShape): NodeShape
    requires sib.Node? && (IsRed(Kid(sib, cis.Other())) || IsRed(Kid(sib, cis)))
  {
    if IsRed(Kid(sib, cis.Other())) then sib
    else Rotated(cis.Other(),
      Join(cis, Recolour(Kid(sib, cis), false), sib.item.(red := true), Kid(sib, cis.Other())))
  }

  /** The sibling's subtree gives one black node to the short side. */
  ghost function Borrowed(cis: Side, f: NodeShape, i: Item<TreeNode>, s: NodeShape): NodeShape
    requires s.Node? && Kid(s, cis.Other()).Node?
  {
    Rotated(cis, Join(cis, f, i.(red := false),
      Join(cis, Kid(s, cis), s.item.(red := i.red), Recolour(Kid(s, cis.Other()), false))))
  }

  lemma NephewOutKeeps(cis: Side, sib: NodeShape)
    requires sib.Node? && !sib.item.red && NoRedRed(sib) && Balanced(sib)
    requires IsRed(Kid(sib, cis.Other())) || IsRed(Kid(sib, cis))
    ensures
      var s := NephewOut(cis, sib);
      var (n, o) := (Kid(s, cis), Kid(s, cis.Other()));
      && IsRed(o) && NoRedRed(n) && NoRedRed(Recolour(o, false)) && Balanced(n) && Balanced(o)
      && Height(n) == Height(o) == Height(sib) - 1
  {
    if !IsRed(Kid(sib, cis.Other())) {
      var k := Kid(sib, cis);
      JoinColours(cis.Other(), Kid(sib, cis.Other()), sib.item.(red := true), Kid(k, cis.Other()));
    }
  }

  lemma BorrowedKeeps(cis: Side, f: NodeShape, i: Item<TreeNode>, s: NodeShape, up: NodePath)
    requires PathNoRedRed(up) && NoRedRed(f) && Balanced(f)
    requires PathBalanced(up, Height(f) + 1 + (if i.red then 0 else 1)) && (i.red ==> up.Step? && !up.item.red)
    requires s.Node? && IsRed(Kid(s, cis.Other())) && NoRedRed(Kid(s, cis)) && NoRedRed(Recolour(Kid(s, cis.Other()), false))
    requires Balanced(Kid(s, cis)) && Balanced(Kid(s, cis.Other()))
    requires Height(Kid(s, cis)) == Height(Kid(s, cis.Other())) == Height(f)
    ensures RedBlack(Plug(up, Borrowed(cis, f, i, s)))
  {
    var n, o := Kid(s, cis), Recolour(Kid(s, cis.Other()), false);
    var b := Join(cis, f, i.(red := false), n);
    assert Balanced(o) && Height(o) == Height(f) + 1;
    JoinColours(cis, f, i.(red := false), n);
    JoinColours(cis, b, s.item.(red := i.red), o);
    assert Borrowed(cis, f, i, s) == Join(cis, b, s.item.(red := i.red), o);
    PlugRedBlack(up, Borrowed(cis, f, i, s));
  }

  lemma BorrowReady(cis: Side, f: NodeShape, i: Item<TreeNode>, sib: NodeShape, up: NodePath)
    requires OneShort(Step(cis, i, sib, up), f) && sib.Node? && !sib.item.red
    requires IsRed(Kid(sib, cis.Other())) || IsRed(Kid(sib, cis))
    ensures Kid(NephewOut(cis, sib), cis.Other()).Node?
    ensures RedBlack(Plug(up, Borrowed(cis, f, i, NephewOut(cis, sib))))
  {
    NephewOutKeeps(cis, sib);
    BorrowedKeeps(cis, f, i, NephewOut(cis, sib), up);
  }

  /** After a rebalancing step without a break, blackening the new focus or going on settles it. */
  ghost predicate StepDone(p: NodePath, f: NodeShape) {
    f.Node? && if f.item.red then RedBlackBut(p, Recolour(f, false)) else OneShort(p, f)
  }

  lemma SiblingThere(p: NodePath, f: NodeShape)
    requires OneShort(p, f) && p.Step?
    ensures p.sibling.Node?
  {
  }

  lemma RootFocus(p: NodePath, f: NodeShape, root: TreeNode?)
    requires Linked(Plug(p, f), root) && root == Ptr(f)
    ensures p.Top?
  {
    if p.Step? {
      PlugRoot(p, f, f);
      PlugDistinct(p, f);
      PlugNodes(p, f);
      OutermostRoot(p, f);
    }
  }

  lemma {:induction false} OutermostRoot(p: NodePath, t: NodeShape)
    requires p.Step?
    ensures Ptr(Plug(p, t)) == Outermost(p) && Outermost(p) != null && Outermost(p) in PathNodes(p)
    decreases p
  {
    if p.up.Step? {
      OutermostRoot(p.up, Join(p.side, t, p.item, p.sibling));
    }
  }

  lemma Settled(p: NodePath, f: NodeShape, red: bool)
    requires AfterUnlink(p, f, red)
    ensures red ==> RedBlack(Plug(p, f))
    ensures !red && IsRed(f) ==> RedBlack(Plug(p, Recolour(f, false)))
  {
    if red {
      PlugRedBlack(p, f);
    } else if IsRed(f) {
      PlugRedBlack(p, Recolour(f, false));
    }
  }

  class Tree {
    var root: TreeNode?
    ghost var shape: NodeShape

    ghost predicate Valid()
      reads this, Nodes(shape)
    {
      Linked(shape, root) && Sorted(Inorder(shape)) && RedBlack(shape)
    }

    /** The (key, node) pairs in the tree. */
    ghost function Entries(): set<Entry<TreeNode>>
      reads this
    {
      EntrySet(shape)
    }

    constructor ()
      ensures Valid() && Entries() == {} && Nodes(shape) == {}
    {
      root, shape := null, Leaf;
    }

    /** Let `next` take the place of `node`, which hangs on `side` of its parent or is the root. */
    method Replace(node: TreeNode, parent: TreeNode?, next: TreeNode?, ghost side: Side)
      requires parent != null ==> parent.Child(side) == node && parent.Child(side.Other()) != node
      modifies this`root, (if parent == null then {} else {parent})`left, (if parent == null then {} else {parent})`right
      ensures root == if parent == null then next else old(root)
      ensures parent != null ==> Now(parent) == old(Now(parent)).WithChild(side, next)
    {
      if parent != null {
        if parent.left == node {
          parent.left := next;
        } else {
          parent.right := next;
        }
      } else {
        root := next;
      }
    }

    /** TREE__ROTATE, seen as field updates on the nodes `s`. */
    method RotateLinks(cis: Side, node: TreeNode, ghost s: set<TreeNode>, ghost side: Side)
      returns (q: TreeNode)
      requires Rotatable(cis, side, node, s, root)
      modifies this`root, s
      ensures q == old(node.Child(cis.Other()))
      ensures root == if old(node.parent) == null then q else old(root)
      ensures Now(node) == old(Now(node)).(parent := q).WithChild(cis.Other(), old(node.Child(cis.Other()).Child(cis)))
      ensures Now(q) == old(Now(node.Child(cis.Other()))).(parent := old(node.parent)).WithChild(cis, node)
      ensures var parent := old(node.parent);
        parent != null ==> Now(parent) == old(Now(parent)).WithChild(side, q)
      ensures var inner := old(node.Child(cis.Other()).Child(cis));
        inner != null ==> Now(inner) == old(Now(inner)).(parent := node)
      ensures forall n | n in s && n != node && n != q && n != old(node.parent)
          && n != old(node.Child(cis.Other()).Child(cis)) :: Now(n) == old(Now(n))
    {
      q := node.Child(cis.Other());
      var parent := node.parent;
      Replace(node, parent, q, side);
      q.parent := parent;
      node.parent := q;
      node.SetChild(cis.Other(), q.Child(cis));
      var inner := node.Child(cis.Other());
      if inner != null {
        inner.parent := node;
      }
      q.SetChild(cis, node);
    }

    method Rotate(cis: Side, node: TreeNode, ghost p: NodePath, ghost t: NodeShape)
      requires t.Node? && t.item.ptr == node && Kid(t, cis.Other()).Node?
      requires Linked(Plug(p, t), root)
      modifies this`root, Nodes(Plug(p, t))
      ensures Linked(Plug(p, Rotated(cis, t)), root)
      ensures SameNodes(Plug(p, Rotated(cis, t)), Plug(p, t))
    {
      ghost var qt, t' := Kid(t, cis.Other()), Rotated(cis, t);
      RotateReady(cis, p, t, root);
      var q := RotateLinks(cis, node, Nodes(Plug(p, t)), SideOf(p));
      assert q == qt.item.ptr;
      RotatedPlug(cis, p, t);
      forall n | n in Nodes(Plug(p, t'))
        ensures Now(n) == At(Plug(p, t'), null, n)
      {
        RotatedPlugAt(cis, p, t, n);
      }
    }

    method SetRed(node: TreeNode, red: bool, ghost p: NodePath, ghost t: NodeShape)
      requires t.Node? && t.item.ptr == node && Linked(Plug(p, t), root)
      modifies Nodes(Plug(p, t))`red
      ensures Linked(Plug(p, Recolour(t, red)), root)
      ensures SameNodes(Plug(p, Recolour(t, red)), Plug(p, t))
    {
      PlugNodes(p, t);
      node.red := red;
      RecolouredPlug(p, t, red);
      forall n | n in Nodes(Plug(p, Recolour(t, red)))
        ensures Now(n) == At(Plug(p, Recolour(t, red)), null, n)
      {
        RecolouredPlugAt(p, t, red, n);
      }
    }

    /** TREE__REBALANCE_AFTER_INSERT with a red uncle: blacken both of the grandparent's kids. */
    method PushRedUp(cis: Side, grandparent: TreeNode, parent: TreeNode, uncle: TreeNode,
                     ghost up: NodePath, ghost g: Item<TreeNode>, ghost pt: NodeShape, ghost u: NodeShape)
      requires pt.Node? && u.Node? && Linked(Plug(up, Join(cis, pt, g, u)), root)
      requires parent == pt.item.ptr && uncle == u.item.ptr && grandparent == g.ptr
      modifies Nodes(Plug(up, Join(cis, pt, g, u)))`red
      ensures Linked(Plug(up, PushedRed(cis, pt, g, u)), root)
      ensures SameNodes(Plug(up, PushedRed(cis, pt, g, u)), Plug(up, Join(cis, pt, g, u)))
    {
      SetRed(parent, false, Step(cis, g, u, up), pt);
      SetRed(uncle, false, Step(cis.Other(), g, Recolour(pt, false), up), u);
      SetRed(grandparent, true, up, Join(cis, Recolour(pt, false), g, Recolour(u, false)));
    }

    /** TREE__REBALANCE_AFTER_INSERT with a black uncle, first half: bring the red grandchild outside. */
    method TurnOutward(cis: Side, node0: TreeNode, parent0: TreeNode, ghost side: Side, ghost pp: NodePath, ghost pt: NodeShape)
      returns (node: TreeNode, parent: TreeNode)
      requires pt.Node? && Kid(pt, side).Node? && Linked(Plug(pp, pt), root)
      requires parent0 == pt.item.ptr && node0 == Kid(pt, side).item.ptr
      modifies this`root, Nodes(Plug(pp, pt))
      ensures var o := Outward(cis, side, pt);
        && Linked(Plug(pp, o), root) && SameNodes(Plug(pp, o), Plug(pp, pt))
        && parent == o.item.ptr && node == Ptr(Kid(o, cis))
    {
      node, parent := node0, parent0;
      Look(pp, pt, root);
      Look(Step(side, pt.item, Kid(pt, side.Other()), pp), Kid(pt, side), root);
      if node == parent.Child(cis.Other()) {
        Rotate(cis, parent, pp, pt);
        ghost var o := Rotated(cis, pt);
        node := parent;
        Look(Step(cis, o.item, Kid(o, cis.Other()), pp), Kid(o, cis), root);
        parent := node.parent;
      }
    }

    /** TREE__REBALANCE_AFTER_INSERT with a black uncle, second half. */
    method TurnOver(cis: Side, grandparent: TreeNode, parent: TreeNode,
                    ghost up: NodePath, ghost g: Item<TreeNode>, ghost o: NodeShape, ghost u: NodeShape)
      requires o.Node? && Linked(Plug(up, Join(cis, o, g, u)), root)
      requires parent == o.item.ptr && grandparent == g.ptr
      modifies this`root, Nodes(Plug(up, Join(cis, o, g, u)))
      ensures Linked(Plug(up, Turned(cis, o, g, u)), root)
      ensures SameNodes(Plug(up, Turned(cis, o, g, u)), Plug(up, Join(cis, o, g, u)))
    {
      SetRed(parent, false, Step(cis, g, u, up), o);
      SetRed(grandparent, true, up, Join(cis, Recolour(o, false), g, u));
      Rotate(cis.Other(), grandparent, up, Join(cis, Recolour(o, false), g.(red := true), u));
    }

    /** TREE__REBALANCE_AFTER_INSERT */
    method RebalanceAfterInsert(cis: Side, node: TreeNode, parent: TreeNode, ghost p: NodePath, ghost t: NodeShape)
      returns (next: TreeNode, ghost p': NodePath, ghost t': NodeShape)
      requires Linked(Plug(p, t), root) && RedBlackBut(p, t) && IsRed(t) && TopRed(p)
      requires node == t.item.ptr && parent == p.item.ptr && p.up.side == cis
      modifies this`root, Nodes(Plug(p, t))
      ensures Linked(Plug(p', t'), root) && RedBlackBut(p', t') && IsRed(t') && next == t'.item.ptr
      ensures SameNodes(Plug(p', t'), Plug(p, t)) && Length(p') < Length(p)
    {
      ghost var up, g, u := p.up.up, p.up.item, p.up.sibling;
      ghost var pt := Join(p.side, t, p.item, p.sibling);
      Look(p, t, root);
      Look(p.up, pt, root);
      var grandparent := parent.parent;
      var uncle := grandparent.Child(cis.Other());
      Look(Step(cis.Other(), g, pt, up), u, root);
      if uncle != null && uncle.red {
        PushRedUp(cis, grandparent, parent, uncle, up, g, pt, u);
        next := grandparent;
        p', t' := up, PushedRed(cis, pt, g, u);
        PushedRedKeeps(p.side, t, p.item, p.sibling, cis, g, u, up);
      } else {
        ghost var o := Outward(cis, p.side, pt);
        var parent';
        next, parent' := TurnOutward(cis, node, parent, p.side, p.up, pt);
        TurnOver(cis, grandparent, parent', up, g, o, u);
        ghost var r := Turned(cis, o, g, u);
        p', t' := Step(cis, r.item, Kid(r, cis.Other()), up), Kid(r, cis);
        TurnOverKeeps(p.side, t, p.item, p.sibling, cis, g, u, up);
      }
    }

    /** The search loops of tree_add and tree_find: stop at `key` or at the empty slot where it belongs. */
    method Search(key: nat) returns (node: TreeNode?, parent: TreeNode?, side: Side, ghost p: NodePath, ghost t: NodeShape)
      requires Valid()
      ensures Linked(shape, root)
      ensures Plug(p, t) == shape && Ptr(t) == node && Above(p) == parent && Straddles(p, key)
      ensures p.Step? ==> p.side == side
      ensures node != null ==> t.item.key == key
    {
      node, parent, side, p, t := root, null, Left, Top, shape;
      while node != null
        invariant Linked(shape, root)
        invariant Plug(p, t) == shape && Ptr(t) == node && Above(p) == parent && Straddles(p, key)
        invariant p.Step? ==> p.side == side
        decreases t
      {
        Look(p, t, root);
        if key < node.key {
          side := Left;
        } else if key > node.key {
          side := Right;
        } else {
          return;
        }
        DescendKeeps(side, p, t, key);
        p, t := Step(side, t.item, Kid(t, side.Other()), p), Kid(t, side);
        parent, node := node, node.Child(side);
      }
    }

    method Find(key: nat) returns (node: TreeNode?)
      requires Valid()
      ensures node != null ==> (key, node) in Entries() && node.key == key
      ensures node == null ==> !HasKey(Inorder(shape), key)
    {
      var parent, side;
      ghost var p, t;
      node, parent, side, p, t := Search(key);
      Look(p, t, root);
      if node == null {
        SlotAbsent(p, key);
      } else {
        FocusEntry(p, t);
      }
    }

    method Attach(node: TreeNode, key: nat, parent: TreeNode?, side: Side, ghost p: NodePath)
      requires Linked(Plug(p, Leaf), root) && node !in Nodes(Plug(p, Leaf))
      requires Above(p) == parent && (p.Step? ==> p.side == side)
      modifies this`root, node, Nodes(Plug(p, Leaf))
      ensures Linked(Plug(p, Single(node, key)), root)
    {
      PlugNodes(p, Leaf);
      if parent != null {
        if side.Left? {
          parent.left := node;
        } else {
          parent.right := node;
        }
      } else {
        root := node;
      }
      node.key := key;
      node.left, node.right := null, null;
      node.parent := parent;
      node.red := true;
      AttachedPlug(p, node, key);
      forall n | n in Nodes(Plug(p, Single(node, key)))
        ensures Now(n) == At(Plug(p, Single(node, key)), null, n)
      {
        AttachedAt(p, node, key, n);
      }
    }

    /** The rebalancing loop of tree_add, and the blackening of the root after it. */
    method FixAfterInsert(node: TreeNode, parent0: TreeNode?, ghost p0: NodePath, ghost t0: NodeShape)
      returns (ghost fixed: NodeShape)
      requires Linked(Plug(p0, t0), root) && RedBlackBut(p0, t0) && IsRed(t0)
      requires node == t0.item.ptr && parent0 == Above(p0)
      modifies this`root, Nodes(Plug(p0, t0))
      ensures Linked(fixed, root) && RedBlack(fixed) && SameNodes(fixed, Plug(p0, t0))
    {
      ghost var p, t := p0, t0;
      var focus, parent := node, parent0;
      while parent != null && parent.red
        invariant Linked(Plug(p, t), root) && RedBlackBut(p, t) && IsRed(t) && SameNodes(Plug(p, t), Plug(p0, t0))
        invariant focus == t.item.ptr && parent == Above(p)
        decreases Length(p)
      {
        Look(p, t, root);
        Look(p.up, Join(p.side, t, p.item, p.sibling), root);
        var cis := if parent == parent.parent.left then Left else Right;
        focus, p, t := RebalanceAfterInsert(cis, focus, parent, p, t);
        Look(p, t, root);
        parent := focus.parent;
      }
      Look(p, t, root);
      RootBlackened(p, t);
      SetRed(root, false, Top, Plug(p, t));
      fixed := Recolour(Plug(p, t), false);
    }

    /** tree_add */
    method Add(node: TreeNode, key: nat) returns (r: int)
      requires Valid() && node !in Nodes(shape)
      modifies this, node, Nodes(shape)
      ensures Valid()
      ensures r == if old(HasKey(Inorder(shape), key)) then -1 else 0
      // the shape fixes every field of every node in the tree
      ensures r == -1 ==> shape == old(shape) && root == old(root) && Now(node) == old(Now(node))
      ensures r == 0 ==> Entries() == old(Entries()) + {(key, node)} && Nodes(shape) == old(Nodes(shape)) + {node}
    {
      hide Inorder, Plug, Nodes, Before, After, Distinct, At;
      var found, parent, side;
      ghost var p, t;
      found, parent, side, p, t := Search(key);
      if found != null {
        FocusEntry(p, t);
        return -1;
      }
      SlotAbsent(p, key);
      SlotKeeps(p, node, key, true);
      UnplugRedBlack(p, Leaf);
      AttachedPlug(p, node, key);
      Attach(node, key, parent, side, p);
      shape := FixAfterInsert(node, parent, p, Single(node, key));
      r := 0;
    }

    /** Field writes of tree_del for a node with at most one kid. */
    method UnlinkOneLinks(node: TreeNode, parent: TreeNode?, next: TreeNode?, ghost side: Side, ghost s: set<TreeNode>)
      requires HangsOn(node, parent, side, root, s)
      requires next != null ==> next in s && next != node && next != parent
      modifies this`root, s
      ensures root == if parent == null then next else old(root)
      ensures parent != null ==> Now(parent) == old(Now(parent)).WithChild(side, next)
      ensures next != null ==> Now(next) == old(Now(next)).(parent := parent)
      ensures forall n | n in s && n != parent && n != next :: Now(n) == old(Now(n))
    {
      if parent != null {
        if parent.left == node {
          parent.left := next;
        } else {
          parent.right := next;
        }
      } else {
        root := next;
      }
      if next != null {
        next.parent := parent;
      }
    }

    /** tree_del for a node with at most one kid: the kid moves up. */
    method UnlinkOne(node: TreeNode, parent: TreeNode?, next: TreeNode?,
                     ghost p: NodePath, ghost t: NodeShape, ghost c: NodeShape)
      requires OnlyKid(t, c) && t.item.ptr == node && Linked(Plug(p, t), root)
      requires parent == Above(p) && next == Ptr(c)
      modifies this`root, Nodes(Plug(p, t))
      ensures Linked(Plug(p, c), root)
    {
      FocusHangs(p, t, root);
      PlugNodes(p, t);
      PlugDistinct(p, t);
      UnlinkOneLinks(node, parent, next, SideOf(p), Nodes(Plug(p, t)));
      SplicedPlug(p, t, c);
      forall n | n in Nodes(Plug(p, c))
        ensures Now(n) == At(Plug(p, c), null, n)
      {
        SplicedAt(p, t, c, n);
      }
    }

    /** Field writes of tree_del when the right kid has no left kid. */
    method UnlinkNearLinks(node: TreeNode, parent0: TreeNode?, left: TreeNode, next: TreeNode,
                           ghost side: Side, ghost s: set<TreeNode>)
      returns (focus: TreeNode?, parent: TreeNode, red: bool)
      requires HangsOn(node, parent0, side, root, s) && left in s && next in s
      requires node != left && node != next && left != next && parent0 != left && parent0 != next
      requires next.right != null ==>
        next.right in s && next.right != node && next.right != left && next.right != next && next.right != parent0
      modifies this`root, s
      ensures root == if parent0 == null then next else old(root)
      ensures focus == old(next.right) && parent == next && red == old(next.red)
      ensures parent0 != null ==> Now(parent0) == old(Now(parent0)).WithChild(side, next)
      ensures Now(next) == Fields(left, old(next.right), parent0, old(next.key), old(node.red))
      ensures Now(left) == old(Now(left)).(parent := next)
      ensures focus != null ==> Now(focus) == old(Now(next.right)).(parent := next)
      ensures forall n | n in s && n != parent0 && n != next && n != left && n != focus :: Now(n) == old(Now(n))
    {
      if parent0 != null {
        if parent0.left == node {
          parent0.left := next;
        } else {
          parent0.right := next;
        }
      } else {
        root := next;
      }
      red := next.red;
      next.red := node.red;
      next.left := left;
      left.parent := next;
      next.parent := parent0;
      parent := next;
      focus := next.right;
      if focus != null {
        focus.parent := parent;
      }
    }

    /** Field writes of tree_del when the successor lies deeper. */
    method UnlinkFarLinks(node: TreeNode, parent0: TreeNode?, left: TreeNode, right: TreeNode, next: TreeNode,
                          ghost side: Side, ghost s: set<TreeNode>)
      returns (focus: TreeNode?, parent: TreeNode, red: bool)
      requires HangsOn(node, parent0, side, root, s) && left in s && next in s && right in s
      requires node != left && node != next && left != next && parent0 != left && parent0 != next
      requires right != next && right != node && right != left && right != parent0
      requires next.parent != null && next.parent in s && next.parent != node && next.parent != left
        && next.parent != next && next.parent != parent0
      requires next.right != null ==>
        && next.right in s && next.right != node && next.right != left && next.right != right
        && next.right != next && next.right != parent0 && next.right != next.parent
      modifies this`root, s
      ensures root == if parent0 == null then next else old(root)
      ensures focus == old(next.right) && parent == old(next.parent) && red == old(next.red)
      ensures parent0 != null ==> Now(parent0) == old(Now(parent0)).WithChild(side, next)
      ensures Now(next) == Fields(left, right, parent0, old(next.key), old(node.red))
      ensures Now(left) == old(Now(left)).(parent := next)
      ensures focus != null ==> Now(focus) == old(Now(next.right)).(parent := parent)
      ensures Now(right) == old(Now(right)).(parent := next, left := if right == parent then focus else old(right.left))
      ensures parent != right ==> Now(parent) == old(Now(next.parent)).(left := focus)
      ensures forall n | n in s && n != parent0 && n != next && n != left && n != focus && n != right && n != parent ::
        Now(n) == old(Now(n))
    {
      if parent0 != null {
        if parent0.left == node {
          parent0.left := next;
        } else {
          parent0.right := next;
        }
      } else {
        root := next;
      }
      red := next.red;
      next.red := node.red;
      next.left := left;
      left.parent := next;
      parent := next.parent;
      next.parent := parent0;
      focus := next.right;
      parent.left := focus;
      next.right := right;
      right.parent := next;
      if focus != null {
        focus.parent := parent;
      }
    }

    /** tree_del when the right kid has no left kid: it takes the node's place. */
    method UnlinkNear(node: TreeNode, parent0: TreeNode?, left: TreeNode, next: TreeNode,
                     ghost p: NodePath, ghost i: Item<TreeNode>, ghost l: NodeShape, ghost x: Item<TreeNode>,
                     ghost r: NodeShape)
      returns (focus: TreeNode?, parent: TreeNode, red: bool)
      requires Linked(Plug(Append(Top, Base(i, l, p)), Node(Leaf, x, r)), root)
      requires node == i.ptr && parent0 == Above(p) && left == Ptr(l) && next == x.ptr
      modifies this`root, Nodes(Plug(Append(Top, Base(i, l, p)), Node(Leaf, x, r)))
      ensures Linked(Plug(Append(Top, Base(x.(red := i.red), l, p)), r), root)
      ensures focus == Ptr(r) && parent == Above(Append(Top, Base(x, l, p))) && red == x.red
    {
      ghost var s := Nodes(Plug(Append(Top, Base(i, l, p)), Node(Leaf, x, r)));
      ghost var w' := Plug(Append(Top, Base(x.(red := i.red), l, p)), r);
      Look(Append(Top, Base(i, l, p)), Node(Leaf, x, r), root);
      RemovedHangs(p, i, l, Top, x, r, root);
      AroundRemoved(p, i, l, Top, x, r);
      Spread(p, i, l, Top, x, r);
      Ends(p, i, l, Top, x, r);
      focus, parent, red := UnlinkNearLinks(node, parent0, left, next, SideOf(p), s);
      SucceededPlug(p, i, l, Top, x, r);
      SucceededRoot(p, i, l, Top, x, r);
      forall n | n in Nodes(w')
        ensures Now(n) == At(w', null, n)
      {
        SucceededAt(p, i, l, Top, x, r, n);
      }
    }

    /** tree_del when the successor lies deeper: it moves up into the node's place. */
    method UnlinkFar(node: TreeNode, parent0: TreeNode?, left: TreeNode, right: TreeNode, next: TreeNode,
                     ghost p: NodePath, ghost i: Item<TreeNode>, ghost l: NodeShape, ghost q: NodePath, ghost x: Item<TreeNode>,
                     ghost r: NodeShape)
      returns (focus: TreeNode?, parent: TreeNode, red: bool)
      requires LeftOnly(q) && q.Step? && Linked(Plug(Append(q, Base(i, l, p)), Node(Leaf, x, r)), root)
      requires node == i.ptr && parent0 == Above(p) && left == Ptr(l) && next == x.ptr && right == Outermost(q)
      modifies this`root, Nodes(Plug(Append(q, Base(i, l, p)), Node(Leaf, x, r)))
      ensures Linked(Plug(Append(q, Base(x.(red := i.red), l, p)), r), root)
      ensures focus == Ptr(r) && parent == Above(Append(q, Base(x, l, p))) && red == x.red
    {
      ghost var s := Nodes(Plug(Append(q, Base(i, l, p)), Node(Leaf, x, r)));
      ghost var w' := Plug(Append(q, Base(x.(red := i.red), l, p)), r);
      Look(Append(q, Base(i, l, p)), Node(Leaf, x, r), root);
      RemovedHangs(p, i, l, q, x, r, root);
      AroundRemoved(p, i, l, q, x, r);
      Spread(p, i, l, q, x, r);
      Ends(p, i, l, q, x, r);
      focus, parent, red := UnlinkFarLinks(node, parent0, left, right, next, SideOf(p), s);
      SucceededPlug(p, i, l, q, x, r);
      SucceededRoot(p, i, l, q, x, r);
      forall n | n in Nodes(w')
        ensures Now(n) == At(w', null, n)
      {
        SucceededAt(p, i, l, q, x, r, n);
      }
    }

    /** The leftmost node at or below `right`. */
    method Leftmost(right: TreeNode, ghost base: NodePath, ghost rt: NodeShape)
      returns (next: TreeNode, ghost q: NodePath, ghost xs: NodeShape)
      requires Linked(Plug(base, rt), root) && right == Ptr(rt)
      ensures Linked(Plug(base, rt), root)
      ensures LeftOnly(q) && Plug(Append(q, base), xs) == Plug(base, rt)
      ensures xs.Node? && next == xs.item.ptr && xs.left.Leaf?
      ensures right == if q.Top? then next else Outermost(q)
      ensures next == right <==> q.Top?
    {
      next, q, xs := right, Top, rt;
      while true
        invariant Linked(Plug(base, rt), root)
        invariant LeftOnly(q) && Plug(Append(q, base), xs) == Plug(base, rt)
        invariant xs.Node? && next == xs.item.ptr
        invariant right == if q.Top? then next else Outermost(q)
        decreases xs
      {
        Look(Append(q, base), xs, root);
        if next.left == null {
          PlugDistinct(Append(q, base), xs);
          AppendFacts(q, base);
          return;
        }
        next := next.left;
        q, xs := Step(Left, xs.item, xs.right, q), xs.left;
      }
    }

    /** tree_del for a node with two kids: its successor takes its place. */
    method UnlinkTwo(node: TreeNode, parent0: TreeNode?, left: TreeNode, right: TreeNode, ghost p0: NodePath, ghost t: NodeShape)
      returns (focus: TreeNode?, parent: TreeNode?, red: bool, ghost p: NodePath, ghost f: NodeShape)
      requires t.Node? && Linked(Plug(p0, t), root) && Sorted(Inorder(Plug(p0, t))) && RedBlack(Plug(p0, t))
      requires node == t.item.ptr && parent0 == Above(p0) && left == Ptr(t.left) && right == Ptr(t.right)
      modifies this`root, Nodes(Plug(p0, t))
      ensures Linked(Plug(p, f), root) && AfterUnlink(p, f, red) && focus == Ptr(f) && parent == Above(p)
      ensures Without(Plug(p, f), Plug(p0, t), t.item)
    {
      ghost var i, l := t.item, t.left;
      var next;
      ghost var q, xs;
      next, q, xs := Leftmost(right, Base(i, l, p0), t.right);
      ghost var x, r := xs.item, xs.right;
      SucceededOrder(p0, i, l, q, x, r);
      SucceededColours(p0, i, l, q, x, r);
      if next != right {
        focus, parent, red := UnlinkFar(node, parent0, left, right, next, p0, i, l, q, x, r);
      } else {
        focus, parent, red := UnlinkNear(node, parent0, left, next, p0, i, l, x, r);
      }
      p, f := Append(q, Base(x.(red := i.red), l, p0)), r;
    }

    /** The first half of tree_del: take `node` out, leaving at most one black node missing at the focus. */
    method Unlink(node: TreeNode) returns (focus: TreeNode?, parent: TreeNode?, red: bool, ghost p: NodePath,
                                           ghost f: NodeShape, ghost gone: Item<TreeNode>)
      requires Valid() && node in Nodes(shape)
      modifies this`root, Nodes(shape)
      ensures Linked(Plug(p, f), root) && AfterUnlink(p, f, red) && focus == Ptr(f) && parent == Above(p)
      ensures gone.ptr == node && gone.key == old(node.key) && Without(Plug(p, f), old(shape), gone)
    {
      ghost var p0, t := Locate(Top, shape, node);
      Look(p0, t, root);
      gone := t.item;
      parent := node.parent;
      var left, right := node.left, node.right;
      if left != null && right != null {
        focus, parent, red, p, f := UnlinkTwo(node, parent, left, right, p0, t);
      } else {
        var next := if left == null then right else left;
        ghost var c := if left == null then t.right else t.left;
        red := node.red;
        SplicedOrder(p0, t, c);
        SplicedColours(p0, t, c);
        UnlinkOne(node, parent, next, p0, t, c);
        focus := next;
        p, f := p0, c;
      }
    }

    /** TREE__REBALANCE_AFTER_REMOVE with a red sibling: get a black one first. */
    method SwingSibling(cis: Side, parent: TreeNode, sibling: TreeNode, ghost f: NodeShape, ghost i: Item<TreeNode>,
                        ghost sib: NodeShape, ghost up: NodePath)
      requires sib.Node? && Linked(Plug(up, Join(cis, f, i, sib)), root)
      requires parent == i.ptr && sibling == sib.item.ptr
      modifies this`root, Nodes(Plug(up, Join(cis, f, i, sib)))
      ensures Linked(Plug(up, Swung(cis, f, i, sib)), root)
      ensures SameNodes(Plug(up, Swung(cis, f, i, sib)), Plug(up, Join(cis, f, i, sib)))
    {
      SetRed(sibling, false, Step(cis.Other(), i, f, up), sib);
      SetRed(parent, true, up, Join(cis, f, i, Recolour(sib, false)));
      Rotate(cis, parent, up, Join(cis, f, i.(red := true), Recolour(sib, false)));
    }

    /** TREE__REBALANCE_AFTER_REMOVE with only the near nephew red: turn it to the far side. */
    method TurnNephewOut(cis: Side, sibling0: TreeNode, ghost sib: NodeShape, ghost pp: NodePath)
      returns (sibling: TreeNode)
      requires sib.Node? && sibling0 == sib.item.ptr && Linked(Plug(pp, sib), root)
      requires IsRed(Kid(sib, cis.Other())) || IsRed(Kid(sib, cis))
      requires pp.Step? && pp.side == cis.Other()
      modifies this`root, Nodes(Plug(pp, sib))
      ensures Linked(Plug(pp, NephewOut(cis, sib)), root) && SameNodes(Plug(pp, NephewOut(cis, sib)), Plug(pp, sib))
      ensures sibling == NephewOut(cis, sib).item.ptr
    {
      ghost var near, far := Kid(sib, cis), Kid(sib, cis.Other());
      sibling := sibling0;
      Look(pp, sib, root);
      Look(Step(cis.Other(), sib.item, near, pp), far, root);
      Look(Step(cis, sib.item, far, pp), near, root);
      var parent := sibling.parent;
      var outer := sibling.Child(cis.Other());
      if outer == null || !outer.red {
        SetRed(sibling.Child(cis), false, Step(cis, sib.item, far, pp), near);
        SetRed(sibling, true, pp, Join(cis, Recolour(near, false), sib.item, far));
        Rotate(cis.Other(), sibling, pp, Join(cis, Recolour(near, false), sib.item.(red := true), far));
        Look(pp, NephewOut(cis, sib), root);
        sibling := parent.Child(cis.Other());
      }
    }

    method BlackenKid(side: Side, node: TreeNode, ghost t: NodeShape, ghost p: NodePath)
      requires t.Node? && Kid(t, side).Node? && node == t.item.ptr && Linked(Plug(p, t), root)
      modifies Nodes(Plug(p, t))`red
      ensures var t' := Join(side, Recolour(Kid(t, side), false), t.item, Kid(t, side.Other()));
        Linked(Plug(p, t'), root) && SameNodes(Plug(p, t'), Plug(p, t))
    {
      Look(p, t, root);
      SetRed(node.Child(side), false, Step(side, t.item, Kid(t, side.Other()), p), Kid(t, side));
    }

    /** TREE__REBALANCE_AFTER_REMOVE with the far nephew red: one rotation settles it. */
    method Borrow(cis: Side, parent: TreeNode, sibling: TreeNode, ghost f: NodeShape, ghost i: Item<TreeNode>,
                  ghost s: NodeShape, ghost up: NodePath)
      requires s.Node? && Kid(s, cis.Other()).Node? && Linked(Plug(up, Join(cis, f, i, s)), root)
      requires parent == i.ptr && sibling == s.item.ptr
      modifies this`root, Nodes(Plug(up, Join(cis, f, i, s)))
      ensures Linked(Plug(up, Borrowed(cis, f, i, s)), root)
      ensures SameNodes(Plug(up, Borrowed(cis, f, i, s)), Plug(up, Join(cis, f, i, s)))
    {
      var trans := cis.Other();
      ghost var pp := Step(trans, i, f, up);
      Look(up, Join(cis, f, i, s), root);
      SetRed(sibling, parent.red, pp, s);
      ghost var s1 := Recolour(s, i.red);
      ghost var s2 := Join(cis, Kid(s, cis), s1.item, Recolour(Kid(s, trans), false));
      BlackenKid(trans, sibling, s1, pp);
      assert Plug(pp, s2) == Plug(up, Join(cis, f, i, s2));
      SetRed(parent, false, up, Join(cis, f, i, s2));
      Rotate(cis, parent, up, Join(cis, f, i.(red := false), s2));
    }

    /** TREE__REBALANCE_AFTER_REMOVE once the sibling is black. */
    method SettleBlackSibling(cis: Side, parent: TreeNode, sibling0: TreeNode, ghost f: NodeShape, ghost i: Item<TreeNode>,
                              ghost sib: NodeShape, ghost up: NodePath)
      returns (stop: bool, ghost p: NodePath, ghost t: NodeShape)
      requires Linked(Plug(up, Join(cis, f, i, sib)), root) && OneShort(Step(cis, i, sib, up), f) && !IsRed(f)
      requires sib.Node? && !sib.item.red && parent == i.ptr && sibling0 == sib.item.ptr
      modifies this`root, Nodes(Plug(up, Join(cis, f, i, sib)))
      ensures Linked(Plug(p, t), root) && SameNodes(Plug(p, t), Plug(up, Join(cis, f, i, sib)))
      ensures stop ==> p.Top? && RedBlack(t)
      ensures !stop ==> p == up && StepDone(p, t) && t.item.ptr == parent && t.item.red == i.red
    {
      ghost var pp := Step(cis.Other(), i, f, up);
      Look(pp, sib, root);
      Look(Step(Left, sib.item, sib.right, pp), sib.left, root);
      Look(Step(Right, sib.item, sib.left, pp), sib.right, root);
      var sibling := sibling0;
      if (sibling.left != null && sibling.left.red) || (sibling.right != null && sibling.right.red) {
        BorrowReady(cis, f, i, sib, up);
        sibling := TurnNephewOut(cis, sibling, sib, pp);
        Borrow(cis, parent, sibling, f, i, NephewOut(cis, sib), up);
        stop, p, t := true, Top, Plug(up, Borrowed(cis, f, i, NephewOut(cis, sib)));
      } else {
        PaintedKeeps(cis, f, i, sib, up);
        SetRed(sibling, true, pp, sib);
        stop, p, t := false, up, Join(cis, f, i, Recolour(sib, true));
      }
    }

    /** TREE__REBALANCE_AFTER_REMOVE */
    method RebalanceAfterRemove(cis: Side, parent: TreeNode, ghost p0: NodePath, ghost f: NodeShape)
      returns (stop: bool, ghost p: NodePath, ghost t: NodeShape)
      requires Linked(Plug(p0, f), root) && OneShort(p0, f) && !IsRed(f)
      requires p0.Step? && p0.side == cis && parent == p0.item.ptr
      modifies this`root, Nodes(Plug(p0, f))
      ensures Linked(Plug(p, t), root) && SameNodes(Plug(p, t), Plug(p0, f))
      ensures stop ==> p.Top? && RedBlack(t)
      ensures !stop ==> StepDone(p, t) && t.item.ptr == parent && (t.item.red || Length(p) < Length(p0))
    {
      ghost var i, sib, up := p0.item, p0.sibling, p0.up;
      Look(p0, f, root);
      Look(Step(cis.Other(), i, f, up), sib, root);
      var sibling := parent.Child(cis.Other());
      if sibling.red {
        SwungKeeps(cis, f, i, sib, up);
        SwingSibling(cis, parent, sibling, f, i, sib, up);
        ghost var p1 := SwungPath(cis, i, sib, up);
        Look(p1, f, root);
        sibling := parent.Child(cis.Other());
        stop, p, t := SettleBlackSibling(cis, parent, sibling, f, p1.item, p1.sibling, p1.up);
      } else {
        stop, p, t := SettleBlackSibling(cis, parent, sibling, f, i, sib, up);
      }
    }

    /** The second half of tree_del: make up for a missing black node at the focus. */
    method FixAfterRemove(focus0: TreeNode?, parent0: TreeNode?, ghost p0: NodePath, ghost f0: NodeShape)
      returns (ghost fixed: NodeShape)
      requires Linked(Plug(p0, f0), root) && OneShort(p0, f0) && !IsRed(f0) && focus0 == Ptr(f0) && parent0 == Above(p0)
      modifies this`root, Nodes(Plug(p0, f0))
      ensures Linked(fixed, root) && RedBlack(fixed) && SameNodes(fixed, Plug(p0, f0))
    {
      ghost var p, f := p0, f0;
      var focus, parent := focus0, parent0;
      while true
        invariant Linked(Plug(p, f), root) && OneShort(p, f) && !IsRed(f) && SameNodes(Plug(p, f), Plug(p0, f0))
        invariant focus == Ptr(f) && parent == Above(p)
        decreases Length(p)
      {
        Look(p, f, root);
        if focus == root {
          RootFocus(p, f, root);
          break;
        }
        var stop;
        var cis := if focus == parent.left then Left else Right;
        SiblingThere(p, f);
        stop, p, f := RebalanceAfterRemove(cis, parent, p, f);
        Look(p, f, root);
        if stop {
          focus := root;
          break;
        }
        focus := parent;
        parent := parent.parent;
        if focus.red {
          PlugRedBlack(p, Recolour(f, false));
          break;
        }
      }
      if focus != null {
        SetRed(focus, false, p, f);
        fixed := Plug(p, Recolour(f, false));
      } else {
        fixed := Plug(p, f);
      }
    }

    /** tree_del */
    method Del(node: TreeNode)
      requires Valid() && node in Nodes(shape)
      modifies this, Nodes(shape)
      ensures Valid()
      ensures Entries() == old(Entries()) - {(old(node.key), node)} && Nodes(shape) == old(Nodes(shape)) - {node}
    {
      var focus, parent, red;
      ghost var p, f, gone;
      focus, parent, red, p, f, gone := Unlink(node);
      Settled(p, f, red);
      Look(p, f, root);
      if red {
        shape := Plug(p, f);
      } else if focus != null && focus.red {
        SetRed(focus, false, p, f);
        shape := Plug(p, Recolour(f, false));
      } else {
        shape := FixAfterRemove(focus, parent, p, f);
      }
    }
  }
}
