/** Node shapes and contexts (zippers) of red-black trees, with the colour and
    ordering invariants of tree.h stated on them. */
module RbShape {
  import opened Powers

  datatype Color = Black | Red

  /** struct with an RB_ENTRY field; the comparison function is `<` on keys. */
  class Node {
    const key: int
    var left: Node?
    var right: Node?
    var parent: Node?
    var color: Color

    constructor (key: int)
      ensures this.key == key
    {
      this.key := key;
      left, right, parent, color := null, null, null, Black;
    }
  }

  /** The shape a pointer structure is claimed to have. */
  datatype Tree = Leaf | Br(left: Tree, node: Node, color: Color, right: Tree)

  /** A tree with one subtree missing, seen from the hole upwards. */
  datatype Ctx =
    | Top
    | InL(up: Ctx, node: Node, color: Color, right: Tree)
    | InR(up: Ctx, left: Tree, node: Node, color: Color)

  ghost function Root(t: Tree): Node? {
    if t.Leaf? then null else t.node
  }

  ghost function Parent(c: Ctx): Node? {
    if c.Top? then null else c.node
  }

  ghost function Plug(c: Ctx, t: Tree): Tree {
    match c
    case Top => t
    case InL(up, x, col, r) => Plug(up, Br(t, x, col, r))
    case InR(up, l, x, col) => Plug(up, Br(l, x, col, t))
  }

  /** The subtree one level up. */
  ghost function Above(c: Ctx, t: Tree): (r: Tree)
    requires !c.Top?
    ensures r.Br?
  {
    if c.InL? then Br(t, c.node, c.color, c.right) else Br(c.left, c.node, c.color, t)
  }

  ghost function Blacken(t: Tree): Tree {
    if t.Br? then t.(color := Black) else t
  }

  /** The hole of `inner` sits below `outer`. */
  ghost function Compose(inner: Ctx, outer: Ctx): Ctx {
    match inner
    case Top => outer
    case InL(up, x, col, r) => InL(Compose(up, outer), x, col, r)
    case InR(up, l, x, col) => InR(Compose(up, outer), l, x, col)
  }

  ghost function Depth(c: Ctx): nat {
    if c.Top? then 0 else 1 + Depth(c.up)
  }

  ghost function Nodes(t: Tree): set<Node> {
    if t.Leaf? then {} else Nodes(t.left) + {t.node} + Nodes(t.right)
  }

  ghost function CtxNodes(c: Ctx): set<Node> {
    match c
    case Top => {}
    case InL(up, x, _, r) => CtxNodes(up) + {x} + Nodes(r)
    case InR(up, l, x, _) => CtxNodes(up) + {x} + Nodes(l)
  }

  /** No node occurs twice. */
  ghost predicate Sep(t: Tree) {
    t.Br? ==>
      && t.node !in Nodes(t.left) && t.node !in Nodes(t.right)
      && Nodes(t.left) !! Nodes(t.right)
      && Sep(t.left) && Sep(t.right)
  }

  ghost predicate CtxSep(c: Ctx) {
    match c
    case Top => true
    case InL(up, x, _, r) =>
      && x !in CtxNodes(up) && x !in Nodes(r) && Nodes(r) !! CtxNodes(up) && Sep(r) && CtxSep(up)
    case InR(up, l, x, _) =>
      && x !in CtxNodes(up) && x !in Nodes(l) && Nodes(l) !! CtxNodes(up) && Sep(l) && CtxSep(up)
  }

  ghost function Inorder(t: Tree): seq<Node> {
    if t.Leaf? then [] else Inorder(t.left) + [t.node] + Inorder(t.right)
  }

  ghost function Before(c: Ctx): seq<Node> {
    match c
    case Top => []
    case InL(up, _, _, _) => Before(up)
    case InR(up, l, x, _) => Before(up) + Inorder(l) + [x]
  }

  ghost function After(c: Ctx): seq<Node> {
    match c
    case Top => []
    case InL(up, x, _, r) => [x] + Inorder(r) + After(up)
    case InR(up, _, _, _) => After(up)
  }

  ghost predicate Sorted(s: seq<Node>) {
    forall i, j :: 0 <= i < j < |s| ==> s[i].key < s[j].key
  }

  /** Black nodes on the leftmost path; on every path once `Balanced` holds. */
  ghost function BlackHeight(t: Tree): nat {
    if t.Leaf? then 0 else BlackHeight(t.left) + if t.color.Black? then 1 else 0
  }

  ghost predicate Balanced(t: Tree) {
    t.Br? ==> BlackHeight(t.left) == BlackHeight(t.right) && Balanced(t.left) && Balanced(t.right)
  }

  ghost predicate IsRed(t: Tree) {
    t.Br? && t.color.Red?
  }

  /** No red node has a red child. */
  ghost predicate NoRedRed(t: Tree) {
    t.Br? ==>
      && (t.color.Red? ==> !IsRed(t.left) && !IsRed(t.right))
      && NoRedRed(t.left) && NoRedRed(t.right)
  }

  ghost predicate RedBlack(t: Tree) {
    Balanced(t) && NoRedRed(t) && !IsRed(t)
  }

  ghost predicate Fits(t: Tree, h: nat) {
    Balanced(t) && NoRedRed(t) && BlackHeight(t) == h
  }

  /** The hole of `c` must not be filled by a red node. */
  ghost predicate NeedsBlack(c: Ctx) {
    c.Top? || c.color.Red?
  }

  /** A black-rooted valid tree of black height `h` completes `c` to a valid tree. */
  ghost predicate CtxOk(c: Ctx, h: nat) {
    match c
    case Top => true
    case InL(up, _, col, s) => SiblingOk(up, col, s, h) && CtxOk(up, h + if col.Black? then 1 else 0)
    case InR(up, s, _, col) => SiblingOk(up, col, s, h) && CtxOk(up, h + if col.Black? then 1 else 0)
  }

  ghost predicate SiblingOk(up: Ctx, col: Color, s: Tree, h: nat) {
    && Fits(s, h)
    && (col.Red? ==> !IsRed(s) && !NeedsBlack(up))
  }

  /** State of the insert loop: one red node whose parent may be red too. */
  ghost predicate InsertOk(c: Ctx, t: Tree) {
    IsRed(t) && Fits(t, BlackHeight(t)) && CtxOk(c, BlackHeight(t))
  }

  /** State of the remove loop: the subtree is one black node short, and its
      root may be red with red children because it is about to be blackened. */
  ghost predicate RemoveOk(c: Ctx, t: Tree) {
    && CtxOk(c, BlackHeight(t) + 1) && Balanced(t)
    && (t.Br? ==> NoRedRed(t.left) && NoRedRed(t.right))
  }

  ghost function RotL(t: Tree): Tree
    requires t.Br? && t.right.Br?
  {
    Br(Br(t.left, t.node, t.color, t.right.left), t.right.node, t.right.color, t.right.right)
  }

  ghost function RotR(t: Tree): Tree
    requires t.Br? && t.left.Br?
  {
    Br(t.left.left, t.left.node, t.left.color, Br(t.left.right, t.node, t.color, t.right))
  }

  // ------------------------------------------------------------- lemmas

  lemma RotSep(a: Tree, x: Node, xc: Color, b: Tree, y: Node, yc: Color, d: Tree)
    ensures (var l := Br(a, x, xc, Br(b, y, yc, d)); var r := Br(Br(a, x, xc, b), y, yc, d);
             Nodes(l) == Nodes(r) && (Sep(l) <==> Sep(r)) && Inorder(l) == Inorder(r))
  {
    assert Inorder(a) + [x] + (Inorder(b) + [y] + Inorder(d)) == Inorder(a) + [x] + Inorder(b) + [y] + Inorder(d);
  }

  lemma {:induction false} PlugRedBlack(c: Ctx, t: Tree)
    requires CtxOk(c, BlackHeight(t)) && Balanced(t) && NoRedRed(t)
    requires IsRed(t) ==> !NeedsBlack(c)
    ensures RedBlack(Plug(c, t))
  {
    match c
    case Top =>
    case InL(up, x, col, r) => PlugRedBlack(up, Br(t, x, col, r));
    case InR(up, l, x, col) => PlugRedBlack(up, Br(l, x, col, t));
  }

  ghost function Sibling(c: Ctx): Tree
    requires !c.Top?
  {
    if c.InL? then c.right else c.left
  }

  /** What a red node under a red parent implies about the parts around it. */
  lemma InsertParts(c: Ctx, t: Tree)
    requires InsertOk(c, t) && !c.Top? && c.color.Red?
    ensures !c.up.Top? && c.up.color.Black?
    ensures (var h := BlackHeight(t);
             && Fits(t.left, h) && Fits(t.right, h) && Fits(Sibling(c), h) && Fits(Sibling(c.up), h)
             && !IsRed(t.left) && !IsRed(t.right) && !IsRed(Sibling(c)) && CtxOk(c.up.up, h + 1))
  {
    assert !NeedsBlack(c.up);
    assert CtxOk(c.up, BlackHeight(t));
  }

  lemma {:induction false} InorderPlug(c: Ctx, t: Tree)
    ensures Inorder(Plug(c, t)) == Before(c) + Inorder(t) + After(c)
  {
    match c
    case Top =>
    case InL(up, x, col, r) =>
      InorderPlug(up, Br(t, x, col, r));
    case InR(up, l, x, col) =>
      InorderPlug(up, Br(l, x, col, t));
  }

  /** Two red nodes in a row below a black one, turned into a black node with red children. */
  lemma InsertRotated(up: Ctx, h: nat, a: Tree, x: Node, b: Tree, y: Node, d: Tree, z: Node, e: Tree)
    requires CtxOk(up, h + 1) && Fits(a, h) && Fits(b, h) && Fits(d, h) && Fits(e, h)
    requires !IsRed(a) && !IsRed(b) && !IsRed(d) && !IsRed(e)
    ensures InsertOk(InL(up, y, Black, Br(d, z, Red, e)), Br(a, x, Red, b))
    ensures InsertOk(InR(up, Br(a, x, Red, b), y, Black), Br(d, z, Red, e))
  {
    assert Fits(Br(a, x, Red, b), h) && Fits(Br(d, z, Red, e), h);
  }

  /** The parent's subtree in the rotating case, turned so that the red pair lies on the outside. */
  ghost function OuterLeft(c: Ctx, t: Tree): Tree
    requires !c.Top? && t.Br?
  {
    if c.InL? then Br(t, c.node, c.color, c.right) else RotL(Br(c.left, c.node, c.color, t))
  }

  ghost function OuterRight(c: Ctx, t: Tree): Tree
    requires !c.Top? && t.Br?
  {
    if c.InL? then RotR(Br(t, c.node, c.color, c.right)) else Br(c.left, c.node, c.color, t)
  }

  lemma InsertRotatedLeft(c: Ctx, t: Tree)
    requires InsertOk(c, t) && !c.Top? && c.color.Red? && c.up.InL? && !IsRed(c.up.right)
    ensures (var q, up, g, u := OuterLeft(c, t), c.up.up, c.up.node, c.up.right;
             var c', t' := InL(up, q.node, Black, Br(q.right, g, Red, u)), q.left;
             && q.left.Br? && InsertOk(c', t') && Inorder(Plug(c', t')) == Inorder(Plug(c, t)))
  {
    InsertParts(c, t);
    var h, q, up, g, u := BlackHeight(t), OuterLeft(c, t), c.up.up, c.up.node, c.up.right;
    var Br(Br(a, x, _, b), y, _, d) := q;
    InsertRotated(up, h, a, x, b, y, d, g, u);
    if c.InR? {
      RotSep(c.left, c.node, c.color, t.left, t.node, t.color, t.right);
    }
    RotSep(q.left, y, Black, d, g, Red, u);
    InorderPlug(up, Br(q.left, y, Black, Br(d, g, Red, u)));
    InorderPlug(up, Br(Above(c, t), g, Black, u));
  }

  lemma InsertRotatedRight(c: Ctx, t: Tree)
    requires InsertOk(c, t) && !c.Top? && c.color.Red? && c.up.InR? && !IsRed(c.up.left)
    ensures (var q, up, g, u := OuterRight(c, t), c.up.up, c.up.node, c.up.left;
             var c', t' := InR(up, Br(u, g, Red, q.left), q.node, Black), q.right;
             && q.right.Br? && InsertOk(c', t') && Inorder(Plug(c', t')) == Inorder(Plug(c, t)))
  {
    InsertParts(c, t);
    var h, q, up, g, u := BlackHeight(t), OuterRight(c, t), c.up.up, c.up.node, c.up.left;
    var Br(d, y, _, Br(a, x, _, b)) := q;
    InsertRotated(up, h, u, g, d, y, a, x, b);
    if c.InL? {
      RotSep(t.left, t.node, t.color, t.right, c.node, c.color, c.right);
    }
    RotSep(u, g, Red, d, y, Black, q.right);
    InorderPlug(up, Br(Br(u, g, Red, d), y, Black, q.right));
    InorderPlug(up, Br(u, g, Black, Above(c, t)));
  }

  /** A red uncle: the blackness of the grandparent moves down one level. */
  lemma InsertRecoloured(c: Ctx, t: Tree)
    requires InsertOk(c, t) && !c.Top? && c.color.Red? && !c.up.Top? && IsRed(Sibling(c.up))
    ensures (var p, u := Blacken(Above(c, t)), Blacken(Sibling(c.up));
             var t' := if c.up.InL? then Br(p, c.up.node, Red, u) else Br(u, c.up.node, Red, p);
             InsertOk(c.up.up, t') && Inorder(Plug(c.up.up, t')) == Inorder(Plug(c, t)))
  {
    InsertParts(c, t);
    var h, p, u := BlackHeight(t), Blacken(Above(c, t)), Blacken(Sibling(c.up));
    assert Fits(t, h) && Fits(p, h + 1) && Fits(u, h + 1);
    var t' := if c.up.InL? then Br(p, c.up.node, Red, u) else Br(u, c.up.node, Red, p);
    assert Fits(t', h + 1);
    InorderPlug(c.up.up, t');
    InorderPlug(c.up.up, Above(c.up, Above(c, t)));
  }

  // ------------------------------------------------------------- removal

  /** What a black shortage below `c` implies about the sibling; in particular it exists. */
  lemma RemoveParts(c: Ctx, t: Tree)
    requires RemoveOk(c, t) && !IsRed(t) && !c.Top?
    ensures (var h, s := BlackHeight(t), Sibling(c);
             && Fits(t, h) && Fits(s, h + 1) && s.Br?
             && CtxOk(c.up, h + 1 + if c.color.Black? then 1 else 0)
             && (c.color.Red? ==> !IsRed(s) && !NeedsBlack(c.up))
             && (IsRed(s) ==> && Fits(s.left, h + 1) && Fits(s.right, h + 1) && !IsRed(s.left) && !IsRed(s.right))
             && (!IsRed(s) ==> Fits(s.left, h) && Fits(s.right, h)))
  {
  }

  ghost function RedSiblingCtx(c: Ctx): Ctx
    requires !c.Top? && Sibling(c).Br?
  {
    var s := Sibling(c);
    if c.InL? then InL(InL(c.up, s.node, Black, s.right), c.node, Red, s.left)
    else InR(InR(c.up, s.left, s.node, Black), s.right, c.node, Red)
  }

  /** A red sibling is rotated above the parent. */
  lemma RedSiblingRotated(c: Ctx, t: Tree)
    requires RemoveOk(c, t) && !IsRed(t) && !c.Top? && IsRed(Sibling(c))
    ensures RemoveOk(RedSiblingCtx(c), t) && Inorder(Plug(RedSiblingCtx(c), t)) == Inorder(Plug(c, t))
  {
    RemoveParts(c, t);
    var s := Sibling(c);
    if c.InL? {
      RotSep(t, c.node, Red, s.left, s.node, Black, s.right);
      InorderPlug(c.up, Br(Br(t, c.node, Red, s.left), s.node, Black, s.right));
    } else {
      RotSep(s.left, s.node, Black, s.right, c.node, Red, t);
      InorderPlug(c.up, Br(s.left, s.node, Black, Br(s.right, c.node, Red, t)));
    }
    InorderPlug(c.up, Above(c, t));
  }

  ghost function PaintSibling(c: Ctx, col: Color): Ctx
    requires !c.Top? && Sibling(c).Br?
  {
    if c.InL? then c.(right := c.right.(color := col)) else c.(left := c.left.(color := col))
  }

  /** A black sibling without red children becomes red and the shortage moves up. */
  lemma BlackNephews(c: Ctx, t: Tree)
    requires RemoveOk(c, t) && !IsRed(t) && !c.Top? && Sibling(c).Br?
    requires !IsRed(Sibling(c)) && !IsRed(Sibling(c).left) && !IsRed(Sibling(c).right)
    ensures (var t' := Above(PaintSibling(c, Red), t);
             RemoveOk(c.up, t') && Inorder(Plug(c.up, t')) == Inorder(Plug(c, t)))
  {
    RemoveParts(c, t);
    var t' := Above(PaintSibling(c, Red), t);
    assert Fits(Sibling(c).(color := Red), BlackHeight(t));
    InorderPlug(c.up, t');
    InorderPlug(c.up, Above(c, t));
  }

  /** The sibling of a left child, turned so that its outer child is red. */
  ghost function FarRedRight(s: Tree): Tree
    requires s.Br? && (!IsRed(s.right) ==> IsRed(s.left))
  {
    if IsRed(s.right) then s else RotR(Br(s.left.(color := Black), s.node, Red, s.right))
  }

  ghost function FarRedLeft(s: Tree): Tree
    requires s.Br? && (!IsRed(s.left) ==> IsRed(s.right))
  {
    if IsRed(s.left) then s else RotL(Br(s.left, s.node, Red, s.right.(color := Black)))
  }

  /** The final rotation pays the missing black node. */
  lemma RemoveFinishedLeft(c: Ctx, t: Tree)
    requires RemoveOk(c, t) && !IsRed(t) && c.InL? && c.right.Br? && !IsRed(c.right)
    requires IsRed(c.right.left) || IsRed(c.right.right)
    ensures (var q := FarRedRight(c.right);
             && q.right.Br?
             && (var r := Br(Br(t, c.node, Black, q.left), q.node, c.color, q.right.(color := Black));
                 RedBlack(Plug(c.up, r)) && Inorder(Plug(c.up, r)) == Inorder(Plug(c, t))))
  {
    RemoveParts(c, t);
    var h, s, q := BlackHeight(t), c.right, FarRedRight(c.right);
    assert IsRed(s.left) ==> Fits(s.left.left, h) && Fits(s.left.right, h);
    assert Fits(q.left, h) && Fits(q.right.(color := Black), h + 1);
    var r := Br(Br(t, c.node, Black, q.left), q.node, c.color, q.right.(color := Black));
    assert Fits(Br(t, c.node, Black, q.left), h + 1);
    PlugRedBlack(c.up, r);
    if !IsRed(s.right) {
      RotSep(s.left.left, s.left.node, Black, s.left.right, s.node, Red, s.right);
    }
    assert Inorder(Blacken(s.left)) == Inorder(s.left) && Inorder(Blacken(q.right)) == Inorder(q.right);
    assert Inorder(q) == Inorder(s);
    RotSep(t, c.node, Black, q.left, q.node, Black, q.right);
    InorderPlug(c.up, r);
    InorderPlug(c.up, Above(c, t));
  }

  lemma RemoveFinishedRight(c: Ctx, t: Tree)
    requires RemoveOk(c, t) && !IsRed(t) && c.InR? && c.left.Br? && !IsRed(c.left)
    requires IsRed(c.left.left) || IsRed(c.left.right)
    ensures (var q := FarRedLeft(c.left);
             && q.left.Br?
             && (var r := Br(q.left.(color := Black), q.node, c.color, Br(q.right, c.node, Black, t));
                 RedBlack(Plug(c.up, r)) && Inorder(Plug(c.up, r)) == Inorder(Plug(c, t))))
  {
    RemoveParts(c, t);
    var h, s, q := BlackHeight(t), c.left, FarRedLeft(c.left);
    assert IsRed(s.right) ==> Fits(s.right.left, h) && Fits(s.right.right, h);
    assert Fits(q.right, h) && Fits(q.left.(color := Black), h + 1);
    var r := Br(q.left.(color := Black), q.node, c.color, Br(q.right, c.node, Black, t));
    assert Fits(Br(q.right, c.node, Black, t), h + 1);
    PlugRedBlack(c.up, r);
    if !IsRed(s.left) {
      RotSep(s.left, s.node, Red, s.right.left, s.right.node, Black, s.right.right);
    }
    assert Inorder(Blacken(s.right)) == Inorder(s.right) && Inorder(Blacken(q.left)) == Inorder(q.left);
    assert Inorder(q) == Inorder(s);
    RotSep(q.left, q.node, Black, q.right, c.node, Black, t);
    InorderPlug(c.up, r);
    InorderPlug(c.up, Above(c, t));
  }

  // ------------------------------------------------------------- searching

  /** `t` is a valid filling of `c`. */
  ghost predicate Placed(c: Ctx, t: Tree) {
    Fits(t, BlackHeight(t)) && CtxOk(c, BlackHeight(t)) && (IsRed(t) ==> !NeedsBlack(c))
  }

  ghost function GoLeft(c: Ctx, t: Tree): Ctx
    requires t.Br?
  {
    InL(c, t.node, t.color, t.right)
  }

  ghost function GoRight(c: Ctx, t: Tree): Ctx
    requires t.Br?
  {
    InR(c, t.left, t.node, t.color)
  }

  lemma PlacedKids(c: Ctx, t: Tree)
    requires Placed(c, t) && t.Br?
    ensures Placed(GoLeft(c, t), t.left) && Placed(GoRight(c, t), t.right)
  {
  }

  lemma {:induction false} InorderNodes(t: Tree)
    ensures forall n :: n in Nodes(t) <==> n in Inorder(t)
  {
    if t.Br? {
      InorderNodes(t.left);
      InorderNodes(t.right);
    }
  }

  /** A key that is not in the nodes left out of the search belongs into the hole. */
  ghost predicate Between(c: Ctx, k: int) {
    && (forall n :: n in Before(c) ==> n.key < k)
    && (forall n :: n in After(c) ==> n.key > k)
  }

  lemma InorderSplit(c: Ctx, t: Tree)
    requires t.Br?
    ensures (var a, b := Before(c) + Inorder(t.left), Inorder(t.right) + After(c);
             && Before(c) + Inorder(t) + After(c) == a + [t.node] + b
             && Before(GoRight(c, t)) == a + [t.node] && After(GoLeft(c, t)) == [t.node] + b)
  {
  }

  /** Descending towards a key leaves only nodes on the wrong side of it behind. */
  lemma SearchStep(c: Ctx, t: Tree, k: int)
    requires t.Br? && Sorted(Inorder(Plug(c, t))) && Between(c, k)
    ensures k < t.node.key ==> Between(GoLeft(c, t), k)
    ensures k > t.node.key ==> Between(GoRight(c, t), k)
    ensures t.node in Inorder(Plug(c, t))
  {
    InorderPlug(c, t);
    InorderSplit(c, t);
    SortedParts(Before(c) + Inorder(t.left), t.node, Inorder(t.right) + After(c));
  }

  /** Filling an empty place with a node of a key that belongs there. */
  lemma InsertedOrder(c: Ctx, n: Node)
    requires Sorted(Inorder(Plug(c, Leaf))) && Between(c, n.key)
    ensures Inorder(Plug(c, Leaf)) == Before(c) + After(c)
    ensures Inorder(Plug(c, Br(Leaf, n, Red, Leaf))) == Before(c) + [n] + After(c)
    ensures Sorted(Inorder(Plug(c, Br(Leaf, n, Red, Leaf))))
    ensures forall x :: x in Inorder(Plug(c, Leaf)) ==> x.key != n.key
  {
    InorderPlug(c, Leaf);
    InorderPlug(c, Br(Leaf, n, Red, Leaf));
    assert Inorder(Br(Leaf, n, Red, Leaf)) == [n];
    assert Before(c) + Inorder(Leaf) + After(c) == Before(c) + After(c);
    SortedInsert(Before(c), n, After(c));
  }

  lemma SortedInsert(a: seq<Node>, x: Node, b: seq<Node>)
    requires Sorted(a + b) && (forall n :: n in a ==> n.key < x.key) && (forall n :: n in b ==> n.key > x.key)
    ensures Sorted(a + [x] + b)
  {
    forall i, j | 0 <= i < j < |a + [x] + b|
      ensures (a + [x] + b)[i].key < (a + [x] + b)[j].key
    {
      assert i < |a| ==> (a + b)[i] == (a + [x] + b)[i];
      assert j > |a| ==> (a + b)[j - 1] == (a + [x] + b)[j];
      assert i > |a| ==> (a + b)[i - 1] == (a + [x] + b)[i];
      assert j < |a| ==> (a + b)[j] == (a + [x] + b)[j];
    }
  }

  lemma SortedParts(a: seq<Node>, x: Node, b: seq<Node>)
    requires Sorted(a + [x] + b)
    ensures forall n :: n in a ==> n.key < x.key
    ensures forall n :: n in b ==> n.key > x.key
  {
    var s := a + [x] + b;
    assert s[|a|] == x;
    forall n | n in a
      ensures n.key < x.key
    {
      var j :| 0 <= j < |a| && a[j] == n;
      assert s[j] == n;
    }
    forall n | n in b
      ensures n.key > x.key
    {
      var j :| 0 <= j < |b| && b[j] == n;
      assert s[|a| + 1 + j] == n;
    }
  }

  // ------------------------------------------------------------- unlinking

  /** Colours after a node with at most one child is spliced out. */
  lemma SplicedColours(c: Ctx, t: Tree, d: Tree)
    requires Placed(c, t) && t.Br? && ((t.left.Leaf? && d == t.right) || (t.right.Leaf? && d == t.left))
    ensures t.color.Black? ==> RemoveOk(c, d)
    ensures t.color.Red? ==> RedBlack(Plug(c, d))
  {
    assert Fits(d, BlackHeight(d));
    if t.color.Red? {
      PlugRedBlack(c, d);
    }
  }

  ghost predicate LeftSpine(c: Ctx) {
    !c.Top? ==> c.InL? && LeftSpine(c.up)
  }

  lemma {:induction false} LeftSpineBefore(c: Ctx)
    requires LeftSpine(c)
    ensures Before(c) == []
  {
    if !c.Top? {
      LeftSpineBefore(c.up);
    }
  }

  lemma {:induction false} PlugCompose(inner: Ctx, outer: Ctx, t: Tree)
    ensures Plug(Compose(inner, outer), t) == Plug(outer, Plug(inner, t))
  {
    if !inner.Top? {
      PlugCompose(inner.up, outer, Above(inner, t));
    }
  }

  /** The colour rules do not depend on which node sits above. */
  lemma {:induction false} CtxOkSwap(inner: Ctx, c: Ctx, l: Tree, x: Node, n: Node, col: Color, h: nat)
    ensures CtxOk(Compose(inner, InR(c, l, x, col)), h) <==> CtxOk(Compose(inner, InR(c, l, n, col)), h)
    ensures NeedsBlack(Compose(inner, InR(c, l, x, col))) <==> NeedsBlack(Compose(inner, InR(c, l, n, col)))
  {
    if !inner.Top? {
      CtxOkSwap(inner.up, c, l, x, n, col, h + if inner.color.Black? then 1 else 0);
    }
  }

  lemma {:induction false} SuccessorFirst(inner: Ctx, n: Node, nc: Color, d: Tree)
    requires LeftSpine(inner)
    ensures Inorder(Plug(inner, Br(Leaf, n, nc, d))) == [n] + Inorder(Plug(inner, d))
  {
    LeftSpineBefore(inner);
    InorderPlug(inner, Br(Leaf, n, nc, d));
    InorderPlug(inner, d);
    assert Inorder(Br(Leaf, n, nc, d)) == [n] + Inorder(d);
    assert [] + ([n] + Inorder(d)) + After(inner) == [n] + (Inorder(d) + After(inner));
  }

  lemma Regroup(p: seq<Node>, q: seq<Node>, x: Node, n: Node, u: seq<Node>, v: seq<Node>)
    ensures p + (q + [x] + ([n] + u)) + v == (p + q) + [x] + (([n] + u) + v)
    ensures p + (q + [n] + u) + v == (p + q) + (([n] + u) + v)
  {
  }

  /** Key order before and after the successor `n` of `x` takes its place. */
  lemma SuccessorOrder(c: Ctx, l: Tree, x: Node, col: Color, inner: Ctx, n: Node, nc: Color, d: Tree)
    requires LeftSpine(inner)
    ensures (var a, b := Before(c) + Inorder(l), Inorder(Plug(inner, Br(Leaf, n, nc, d))) + After(c);
             && Inorder(Plug(c, Br(l, x, col, Plug(inner, Br(Leaf, n, nc, d))))) == a + [x] + b
             && Inorder(Plug(Compose(inner, InR(c, l, n, col)), d)) == a + b)
  {
    SuccessorFirst(inner, n, nc, d);
    PlugCompose(inner, InR(c, l, n, col), d);
    InorderPlug(c, Br(l, x, col, Plug(inner, Br(Leaf, n, nc, d))));
    InorderPlug(c, Br(l, n, col, Plug(inner, d)));
    Regroup(Before(c), Inorder(l), x, n, Inorder(Plug(inner, d)), After(c));
  }

  /** Key order before and after a node with at most one child is spliced out. */
  lemma SplicedOrder(c: Ctx, t: Tree, d: Tree)
    requires t.Br? && ((t.left.Leaf? && d == t.right) || (t.right.Leaf? && d == t.left))
    ensures (var a, b := Before(c) + Inorder(t.left), Inorder(t.right) + After(c);
             && Inorder(Plug(c, t)) == a + [t.node] + b && Inorder(Plug(c, d)) == a + b)
  {
    InorderPlug(c, t);
    InorderSplit(c, t);
    InorderPlug(c, d);
    Ungroup(Before(c), Inorder(t.left), Inorder(t.right), After(c));
  }

  lemma Ungroup(p: seq<Node>, q: seq<Node>, u: seq<Node>, v: seq<Node>)
    ensures q == [] ==> (p + q) + (u + v) == p + u + v
    ensures u == [] ==> (p + q) + (u + v) == p + q + v
  {
  }

  lemma SortedRemove(a: seq<Node>, x: Node, b: seq<Node>)
    requires Sorted(a + [x] + b)
    ensures Sorted(a + b)
  {
    forall i, j | 0 <= i < j < |a + b|
      ensures (a + b)[i].key < (a + b)[j].key
    {
      var s := a + [x] + b;
      assert (a + b)[i] == s[if i < |a| then i else i + 1];
      assert (a + b)[j] == s[if j < |a| then j else j + 1];
    }
  }

  /** A node of the tree, seen from itself. */
  lemma {:induction false} Locate(c: Ctx, t: Tree, n: Node) returns (c': Ctx, t': Tree)
    requires n in Nodes(t) && Placed(c, t)
    ensures Plug(c', t') == Plug(c, t) && t'.Br? && t'.node == n && Placed(c', t')
    decreases t
  {
    PlacedKids(c, t);
    if n == t.node {
      c', t' := c, t;
    } else if n in Nodes(t.left) {
      c', t' := Locate(GoLeft(c, t), t.left, n);
    } else {
      c', t' := Locate(GoRight(c, t), t.right, n);
    }
  }

  /** Key order around the node at the root of `t`. */
  lemma RemoveOrder(c: Ctx, t: Tree)
    requires t.Br? && Sorted(Inorder(Plug(c, t)))
    ensures (var a, b := Before(c) + Inorder(t.left), Inorder(t.right) + After(c);
             Inorder(Plug(c, t)) == a + [t.node] + b && Sorted(a + b))
  {
    InorderPlug(c, t);
    InorderSplit(c, t);
    SortedRemove(Before(c) + Inorder(t.left), t.node, Inorder(t.right) + After(c));
  }

  // ------------------------------------------------------------- traversal

  /** The successor in key order, read off the context and the right subtree. */
  lemma NextInOrder(c: Ctx, t: Tree, i: nat)
    requires t.Br? && Sorted(Inorder(Plug(c, t)))
    requires i < |Inorder(Plug(c, t))| && Inorder(Plug(c, t))[i] == t.node
    ensures Inorder(Plug(c, t))[i + 1..] == Inorder(t.right) + After(c)
  {
    InorderPlug(c, t);
    InorderSplit(c, t);
    var s, a := Inorder(Plug(c, t)), Before(c) + Inorder(t.left);
    assert s[|a|] == t.node;
    assert i == |a|;
  }

  lemma LeftSpineFirst(inner: Ctx, s: Tree)
    requires LeftSpine(inner) && s.Br? && s.left.Leaf?
    ensures Inorder(Plug(inner, s)) != [] && Inorder(Plug(inner, s))[0] == s.node
  {
    SuccessorFirst(inner, s.node, s.color, s.right);
  }

  // ------------------------------------------------------------- height

  ghost function Height(t: Tree): nat {
    if t.Leaf? then 0
    else 1 + if Height(t.left) > Height(t.right) then Height(t.left) else Height(t.right)
  }

  lemma {:induction false} HeightBlackHeight(t: Tree)
    requires Balanced(t) && NoRedRed(t)
    ensures Height(t) <= 2 * BlackHeight(t) + if IsRed(t) then 1 else 0
  {
    if t.Br? {
      HeightBlackHeight(t.left);
      HeightBlackHeight(t.right);
    }
  }

  lemma {:induction false} SizeBlackHeight(t: Tree)
    requires Balanced(t)
    ensures Pow2(BlackHeight(t)) <= |Inorder(t)| + 1
  {
    if t.Br? {
      SizeBlackHeight(t.left);
      SizeBlackHeight(t.right);
    }
  }

  lemma {:induction false} Pow2Add(a: nat, b: nat)
    ensures Pow2(a + b) == Pow2(a) * Pow2(b)
  {
    if a != 0 {
      Pow2Add(a - 1, b);
      assert Pow2(a + b) == 2 * Pow2(a - 1 + b);
    }
  }

  /** The height of a red-black tree of n nodes is at most 2 lg (n + 1). */
  lemma HeightBound(t: Tree)
    requires RedBlack(t)
    ensures Pow2(Height(t)) <= (|Inorder(t)| + 1) * (|Inorder(t)| + 1)
  {
    var b, n := BlackHeight(t), |Inorder(t)| + 1;
    HeightBlackHeight(t);
    SizeBlackHeight(t);
    Pow2Mono(Height(t), b + b);
    Pow2Add(b, b);
    assert Pow2(b) * Pow2(b) <= n * n by {
      Square(Pow2(b), n);
    }
  }

  lemma Square(x: nat, y: nat)
    requires x <= y
    ensures x * x <= y * y
  {
  }
}
