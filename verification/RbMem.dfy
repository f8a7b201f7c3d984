/** The pointer fields of a red-black tree as a value, the transformations the
    rotations make on them, and how those act on shapes. */
module RbMem {
  import opened RbShape

  datatype Cell = Cell(left: Node?, right: Node?, parent: Node?, color: Color)

  /** RB_HEAD's root together with the RB_ENTRY fields of the linked nodes. */
  datatype Mem = Mem(root: Node?, cells: map<Node, Cell>)

  /** Node set of an optional node. */
  ghost function Opt(n: Node?): set<Node> {
    if n == null then {} else {n}
  }

  ghost predicate Has(m: Mem, n: Node?) {
    n != null ==> n in m.cells
  }

  // -------------------------------------------------- memory transformers

  ghost function SetLeft(m: Mem, n: Node, v: Node?): Mem
    requires n in m.cells
  {
    m.(cells := m.cells[n := m.cells[n].(left := v)])
  }

  ghost function SetRight(m: Mem, n: Node, v: Node?): Mem
    requires n in m.cells
  {
    m.(cells := m.cells[n := m.cells[n].(right := v)])
  }

  ghost function SetParent(m: Mem, n: Node?, v: Node?): Mem
    requires n == null || n in m.cells
  {
    if n == null then m else m.(cells := m.cells[n := m.cells[n].(parent := v)])
  }

  ghost function SetColor(m: Mem, n: Node, col: Color): Mem
    requires n in m.cells
  {
    m.(cells := m.cells[n := m.cells[n].(color := col)])
  }

  /** Redirect the link from `p` (or from the head) that leads to `n`. */
  ghost function Relink(m: Mem, p: Node?, n: Node, v: Node?): Mem
    requires p == null || p in m.cells
  {
    if p == null then m.(root := v)
    else if m.cells[p].left == n then SetLeft(m, p, v)
    else SetRight(m, p, v)
  }

  /** `x` has a right child, and the (up to) four nodes involved are distinct. */
  ghost predicate CanRotateLeft(m: Mem, x: Node) {
    && x in m.cells && m.cells[x].right != null && m.cells[x].right in m.cells
    && (var y, p, b := m.cells[x].right, m.cells[x].parent, m.cells[m.cells[x].right].left;
        Has(m, p) && Has(m, b) && x != y && Opt(p) !! {x, y} !! Opt(b))
  }

  ghost predicate CanRotateRight(m: Mem, y: Node) {
    && y in m.cells && m.cells[y].left != null && m.cells[y].left in m.cells
    && (var x, p, b := m.cells[y].left, m.cells[y].parent, m.cells[m.cells[y].left].right;
        Has(m, p) && Has(m, b) && x != y && Opt(p) !! {x, y} !! Opt(b))
  }

  ghost function RotateLeftMem(m: Mem, x: Node): Mem
    requires CanRotateLeft(m, x)
  {
    var y: Node := m.cells[x].right;
    var p := m.cells[x].parent;
    var b := m.cells[y].left;
    var m1 := SetParent(SetRight(m, x, b), b, x);
    var m2 := Relink(SetParent(m1, y, p), p, x, y);
    SetParent(SetLeft(m2, y, x), x, y)
  }

  ghost function RotateRightMem(m: Mem, y: Node): Mem
    requires CanRotateRight(m, y)
  {
    var x: Node := m.cells[y].left;
    var p := m.cells[y].parent;
    var b := m.cells[x].right;
    var m1 := SetParent(SetLeft(m, y, b), b, y);
    var m2 := Relink(SetParent(m1, x, p), p, y, x);
    SetParent(SetRight(m2, x, y), y, x)
  }

  // -------------------------------------------------- memories and shapes

  /** The fields of every node of `t` agree with the shape; `p` is the parent of its root. */
  ghost predicate Sub(m: Mem, t: Tree, p: Node?) {
    t.Br? ==>
      && t.node in m.cells
      && m.cells[t.node] == Cell(Root(t.left), Root(t.right), p, t.color)
      && Sub(m, t.left, t.node) && Sub(m, t.right, t.node)
  }

  /** The fields above the hole agree with `c`, and `hole` is what fills it. */
  ghost predicate Sup(m: Mem, c: Ctx, hole: Node?) {
    match c
    case Top => m.root == hole
    case InL(up, x, col, r) =>
      && x in m.cells && m.cells[x] == Cell(hole, Root(r), Parent(up), col)
      && Sub(m, r, x) && Sup(m, up, x)
    case InR(up, l, x, col) =>
      && x in m.cells && m.cells[x] == Cell(Root(l), hole, Parent(up), col)
      && Sub(m, l, x) && Sup(m, up, x)
  }

  /** The memory holds exactly Plug(c, t), viewed at the root of `t`. */
  ghost predicate At(m: Mem, c: Ctx, t: Tree) {
    && Sub(m, t, Parent(c)) && Sup(m, c, Root(t))
    && Sep(t) && CtxSep(c) && Nodes(t) !! CtxNodes(c)
    && m.cells.Keys == Nodes(t) + CtxNodes(c)
  }

  ghost predicate SameOff(m: Mem, m': Mem, changed: set<Node>) {
    forall n :: n in m.cells && n !in changed ==> n in m'.cells && m'.cells[n] == m.cells[n]
  }

  lemma {:induction false} SubFrame(m: Mem, m': Mem, changed: set<Node>, t: Tree, p: Node?)
    requires Sub(m, t, p) && SameOff(m, m', changed) && Nodes(t) !! changed
    ensures Sub(m', t, p)
  {
    if t.Br? {
      SubFrame(m, m', changed, t.left, t.node);
      SubFrame(m, m', changed, t.right, t.node);
    }
  }

  lemma {:induction false} SupFrame(m: Mem, m': Mem, changed: set<Node>, c: Ctx, hole: Node?)
    requires Sup(m, c, hole) && SameOff(m, m', changed) && CtxNodes(c) !! changed && m'.root == m.root
    ensures Sup(m', c, hole)
  {
    match c
    case Top =>
    case InL(up, x, col, r) =>
      SubFrame(m, m', changed, r, x);
      SupFrame(m, m', changed, up, x);
    case InR(up, l, x, col) =>
      SubFrame(m, m', changed, l, x);
      SupFrame(m, m', changed, up, x);
  }

  /** Store `v` in the link that leads to the hole of `c`. */
  ghost function FillMem(m: Mem, c: Ctx, v: Node?): Mem
    requires Has(m, Parent(c))
  {
    match c
    case Top => m.(root := v)
    case InL(_, x, _, _) => SetLeft(m, x, v)
    case InR(_, _, x, _) => SetRight(m, x, v)
  }

  lemma FillHole(m: Mem, c: Ctx, hole: Node?, v: Node?)
    requires Sup(m, c, hole) && CtxSep(c)
    ensures Has(m, Parent(c)) && Sup(FillMem(m, c, v), c, v)
  {
    if !c.Top? {
      SubFrame(m, FillMem(m, c, v), {c.node}, Sibling(c), c.node);
      SupFrame(m, FillMem(m, c, v), {c.node}, c.up, c.node);
    }
  }

  /** Redirecting the link that leads to the root of the filling refills the hole. */
  lemma Refill(m: Mem, c: Ctx, hole: Node, v: Node?)
    requires Sup(m, c, hole) && CtxSep(c) && hole !in CtxNodes(c)
    ensures Has(m, Parent(c)) && Relink(m, Parent(c), hole, v) == FillMem(m, c, v)
    ensures Sup(Relink(m, Parent(c), hole, v), c, v)
  {
    FillHole(m, c, hole, v);
  }

  /** A subtree elsewhere in the memory, reparented. */
  lemma Moved(m: Mem, m': Mem, changed: set<Node>, t: Tree, p: Node?, p': Node?)
    requires Sub(m, t, p) && Sep(t) && SameOff(m, m', changed + Opt(Root(t))) && Nodes(t) !! changed
    requires t.Br? ==> t.node in m'.cells && m'.cells[t.node] == m.cells[t.node].(parent := p')
    ensures Sub(m', t, p')
  {
    if t.Br? {
      SubFrame(m, m', changed + {t.node}, t.left, t.node);
      SubFrame(m, m', changed + {t.node}, t.right, t.node);
    }
  }

  /** The effect of rotating `y` above `x` (either way), cell by cell. */
  ghost predicate Rotated(m: Mem, m': Mem, x: Node, x': Cell, y: Node, y': Cell, p: Node?, b: Node?)
    requires x in m.cells && y in m.cells && Has(m, p) && Has(m, b)
  {
    && m'.cells.Keys == m.cells.Keys
    && x in m'.cells && m'.cells[x] == x' && y in m'.cells && m'.cells[y] == y'
    && (b != null ==> b in m'.cells && m'.cells[b] == m.cells[b].(parent := x))
    && SameOff(m, m', {x, y} + Opt(p) + Opt(b))
    && SameOff(Relink(m, p, x, y), m', {x, y} + Opt(b))
    && m'.root == Relink(m, p, x, y).root
  }

  lemma RotateLeftCells(m: Mem, x: Node, y: Node, p: Node?, b: Node?)
    requires CanRotateLeft(m, x) && m.cells[x].right == y && m.cells[x].parent == p && m.cells[y].left == b
    ensures Rotated(m, RotateLeftMem(m, x), x, m.cells[x].(right := b, parent := y),
                    y, m.cells[y].(left := x, parent := p), p, b)
  {
  }

  lemma RotateRightCells(m: Mem, x: Node, y: Node, p: Node?, b: Node?)
    requires CanRotateRight(m, x) && m.cells[x].left == y && m.cells[x].parent == p && m.cells[y].right == b
    ensures Rotated(m, RotateRightMem(m, x), x, m.cells[x].(left := b, parent := y),
                    y, m.cells[y].(right := x, parent := p), p, b)
  {
  }

  /** Subtrees and context around two rotated nodes keep their shapes. */
  lemma RotatedParts(m: Mem, m': Mem, c: Ctx, a: Tree, b: Tree, d: Tree, x: Node, x': Cell, y: Node, y': Cell)
    requires x in m.cells && y in m.cells && Has(m, Parent(c)) && Has(m, Root(b))
    requires Rotated(m, m', x, x', y, y', Parent(c), Root(b))
    requires Sub(m, a, x) && Sub(m, b, y) && Sub(m, d, y) && Sup(m, c, x) && CtxSep(c) && Sep(b)
    requires Nodes(a) !! Nodes(b) !! Nodes(d) !! CtxNodes(c) !! {x, y}
    ensures Sub(m', a, x) && Sub(m', b, x) && Sub(m', d, y) && Sup(m', c, y)
  {
    SubFrame(m, m', {x, y} + Opt(Parent(c)) + Opt(Root(b)), a, x);
    SubFrame(m, m', {x, y} + Opt(Parent(c)) + Opt(Root(b)), d, y);
    Moved(m, m', {x, y} + Opt(Parent(c)), b, y, x);
    Refill(m, c, x, y);
    SupFrame(Relink(m, Parent(c), x, y), m', {x, y} + Opt(Root(b)), c, y);
  }

  lemma RotatedLeftShape(m: Mem, m': Mem, c: Ctx, a: Tree, x: Node, xc: Color, b: Tree, y: Node, yc: Color, d: Tree)
    requires At(m, c, Br(a, x, xc, Br(b, y, yc, d))) && Sub(m, Br(b, y, yc, d), x)
    requires x in m.cells && y in m.cells && Has(m, Parent(c)) && Has(m, Root(b))
    requires Rotated(m, m', x, Cell(Root(a), Root(b), y, xc), y, Cell(x, Root(d), Parent(c), yc), Parent(c), Root(b))
    ensures At(m', c, Br(Br(a, x, xc, b), y, yc, d))
  {
    RotSep(a, x, xc, b, y, yc, d);
    RotatedParts(m, m', c, a, b, d, x, Cell(Root(a), Root(b), y, xc), y, Cell(x, Root(d), Parent(c), yc));
  }

  lemma RotateLeftShape(m: Mem, c: Ctx, a: Tree, x: Node, xc: Color, b: Tree, y: Node, yc: Color, d: Tree)
    requires At(m, c, Br(a, x, xc, Br(b, y, yc, d)))
    ensures CanRotateLeft(m, x)
    ensures At(RotateLeftMem(m, x), c, Br(Br(a, x, xc, b), y, yc, d))
  {
    RotSep(a, x, xc, b, y, yc, d);
    assert Sub(m, Br(b, y, yc, d), x);
    RotateLeftCells(m, x, y, Parent(c), Root(b));
    RotatedLeftShape(m, RotateLeftMem(m, x), c, a, x, xc, b, y, yc, d);
  }

  lemma RotatedRightShape(m: Mem, m': Mem, c: Ctx, a: Tree, x: Node, xc: Color, b: Tree, y: Node, yc: Color, d: Tree)
    requires At(m, c, Br(Br(a, x, xc, b), y, yc, d)) && Sub(m, Br(a, x, xc, b), y)
    requires x in m.cells && y in m.cells && Has(m, Parent(c)) && Has(m, Root(b))
    requires Rotated(m, m', y, Cell(Root(b), Root(d), x, yc), x, Cell(Root(a), y, Parent(c), xc), Parent(c), Root(b))
    ensures At(m', c, Br(a, x, xc, Br(b, y, yc, d)))
  {
    RotSep(a, x, xc, b, y, yc, d);
    RotatedParts(m, m', c, d, b, a, y, Cell(Root(b), Root(d), x, yc), x, Cell(Root(a), y, Parent(c), xc));
  }

  lemma RotateRightShape(m: Mem, c: Ctx, a: Tree, x: Node, xc: Color, b: Tree, y: Node, yc: Color, d: Tree)
    requires At(m, c, Br(Br(a, x, xc, b), y, yc, d))
    ensures CanRotateRight(m, y)
    ensures At(RotateRightMem(m, y), c, Br(a, x, xc, Br(b, y, yc, d)))
  {
    RotSep(a, x, xc, b, y, yc, d);
    assert Sub(m, Br(a, x, xc, b), y);
    RotateRightCells(m, y, x, Parent(c), Root(b));
    RotatedRightShape(m, RotateRightMem(m, y), c, a, x, xc, b, y, yc, d);
  }

  lemma Recolor(m: Mem, c: Ctx, t: Tree, col: Color)
    requires At(m, c, t) && t.Br?
    ensures At(SetColor(m, t.node, col), c, t.(color := col))
  {
    var m' := SetColor(m, t.node, col);
    SubFrame(m, m', {t.node}, t.left, t.node);
    SubFrame(m, m', {t.node}, t.right, t.node);
    SupFrame(m, m', {t.node}, c, t.node);
  }

  /** The same memory viewed at a node, at its left child and at its right child. */
  lemma Focus(m: Mem, c: Ctx, l: Tree, x: Node, col: Color, r: Tree)
    ensures At(m, c, Br(l, x, col, r)) <==> At(m, InL(c, x, col, r), l)
    ensures At(m, c, Br(l, x, col, r)) <==> At(m, InR(c, l, x, col), r)
  {
  }

  /** Moving the view one level up. */
  lemma FocusCtx(m: Mem, c: Ctx, t: Tree)
    requires !c.Top?
    ensures At(m, c, t) <==>
            At(m, c.up, Above(c, t))
  {
    if c.InL? {
      Focus(m, c.up, t, c.node, c.color, c.right);
    } else {
      Focus(m, c.up, c.left, c.node, c.color, t);
    }
  }

  /** The context of the sibling subtree. */
  ghost function OtherSide(c: Ctx, t: Tree): Ctx
    requires !c.Top?
  {
    if c.InL? then InR(c.up, t, c.node, c.color) else InL(c.up, c.node, c.color, t)
  }

  lemma FocusSibling(m: Mem, c: Ctx, t: Tree)
    requires !c.Top?
    ensures At(m, c, t) <==> At(m, OtherSide(c, t), Sibling(c))
  {
    FocusCtx(m, c, t);
    FocusCtx(m, OtherSide(c, t), Sibling(c));
  }

  /** Moving the view from the hole of `inner` to its top, or back. */
  lemma {:induction false} Zip(m: Mem, inner: Ctx, outer: Ctx, t: Tree)
    ensures At(m, Compose(inner, outer), t) <==> At(m, outer, Plug(inner, t))
  {
    if !inner.Top? {
      FocusCtx(m, Compose(inner, outer), t);
      Zip(m, inner.up, outer, Above(inner, t));
    }
  }

  lemma {:induction false} ComposeTop(c: Ctx)
    ensures Compose(c, Top) == c
  {
    if !c.Top? {
      ComposeTop(c.up);
    }
  }

  lemma ZipTop(m: Mem, c: Ctx, t: Tree)
    ensures At(m, c, t) <==> At(m, Top, Plug(c, t))
  {
    ComposeTop(c);
    Zip(m, c, Top, t);
  }

  /** Below the top of the tree, the head's root is one of the nodes above the hole. */
  lemma {:induction false} RootAbove(m: Mem, c: Ctx, hole: Node?)
    requires Sup(m, c, hole) && !c.Top?
    ensures m.root != null && m.root in CtxNodes(c)
  {
    if !c.up.Top? {
      RootAbove(m, c.up, c.node);
    }
  }

  /** What the fields of a node and of its children say about the shape. */
  lemma Kids(m: Mem, c: Ctx, t: Tree)
    requires At(m, c, t) && t.Br?
    ensures t.node in m.cells && m.cells[t.node] == Cell(Root(t.left), Root(t.right), Parent(c), t.color)
    ensures t.left.Br? ==> t.left.node in m.cells && m.cells[t.left.node].color == t.left.color
    ensures t.right.Br? ==> t.right.node in m.cells && m.cells[t.right.node].color == t.right.color
  {
    assert Sub(m, t.left, t.node) && Sub(m, t.right, t.node);
  }

  /** The parent's left link tells on which side the hole is, when there is a sibling. */
  lemma Side(m: Mem, c: Ctx, t: Tree)
    requires At(m, c, t) && !c.Top? && Sibling(c).Br?
    ensures c.node in m.cells && (m.cells[c.node].left == Root(t) <==> c.InL?)
  {
  }

  // -------------------------------------------------- linking and unlinking

  ghost function Add(m: Mem, n: Node, cell: Cell): Mem {
    m.(cells := m.cells[n := cell])
  }

  ghost function Drop(m: Mem, n: Node): Mem {
    m.(cells := m.cells - {n})
  }

  /** A fresh red node in an empty place. */
  lemma LinkShape(m: Mem, c: Ctx, n: Node)
    requires At(m, c, Leaf) && n !in m.cells
    ensures Has(m, Parent(c))
    ensures At(FillMem(Add(m, n, Cell(null, null, Parent(c), Red)), c, n), c, Br(Leaf, n, Red, Leaf))
  {
    var m1 := Add(m, n, Cell(null, null, Parent(c), Red));
    SupFrame(m, m1, {}, c, null);
    FillHole(m1, c, null, n);
  }

  ghost function SpliceMem(m: Mem, x: Node, p: Node?, d: Node?): Mem
    requires Has(m, p) && Has(m, d)
  {
    Drop(Relink(SetParent(m, d, p), p, x, d), x)
  }

  /** The effect of SpliceMem, cell by cell. */
  ghost predicate Spliced(m: Mem, m': Mem, x: Node, p: Node?, d: Node?)
    requires Has(m, p) && Has(m, d)
  {
    && m'.cells.Keys == m.cells.Keys - {x}
    && (d != null ==> d in m'.cells && m'.cells[d] == m.cells[d].(parent := p))
    && SameOff(m, m', {x} + Opt(p) + Opt(d))
    && SameOff(Relink(m, p, x, d), m', {x} + Opt(d))
    && m'.root == Relink(m, p, x, d).root
  }

  lemma SpliceCells(m: Mem, x: Node, p: Node?, d: Node?)
    requires Has(m, p) && Has(m, d) && {x} !! Opt(p) !! Opt(d)
    ensures Spliced(m, SpliceMem(m, x, p, d), x, p, d)
  {
  }

  lemma SplicedShape(m: Mem, m': Mem, c: Ctx, t: Tree, d: Tree)
    requires At(m, c, t) && t.Br? && ((t.left.Leaf? && d == t.right) || (t.right.Leaf? && d == t.left))
    requires Has(m, Root(d)) && Has(m, Parent(c)) && Spliced(m, m', t.node, Parent(c), Root(d))
    ensures At(m', c, d)
  {
    Moved(m, m', {t.node} + Opt(Parent(c)), d, t.node, Parent(c));
    Refill(m, c, t.node, Root(d));
    SupFrame(Relink(m, Parent(c), t.node, Root(d)), m', {t.node} + Opt(Root(d)), c, Root(d));
  }

  /** A node with at most one child is replaced by that child. */
  lemma SpliceShape(m: Mem, c: Ctx, t: Tree, d: Tree)
    requires At(m, c, t) && t.Br? && ((t.left.Leaf? && d == t.right) || (t.right.Leaf? && d == t.left))
    ensures Has(m, Root(d)) && Has(m, Parent(c)) && At(SpliceMem(m, t.node, Parent(c), Root(d)), c, d)
  {
    SpliceCells(m, t.node, Parent(c), Root(d));
    SplicedShape(m, SpliceMem(m, t.node, Parent(c), Root(d)), c, t, d);
  }

  /** The node and its (up to) three neighbours are linked and distinct. */
  ghost predicate CanSubstitute(m: Mem, x: Node) {
    && x in m.cells
    && (var p, l, r := m.cells[x].parent, m.cells[x].left, m.cells[x].right;
        Has(m, p) && Has(m, l) && Has(m, r) && {x} !! Opt(p) !! Opt(l) !! Opt(r))
  }

  ghost function SubstituteMem(m: Mem, x: Node, n: Node): Mem
    requires CanSubstitute(m, x)
  {
    var cell := m.cells[x];
    var m1 := Relink(Add(m, n, cell), cell.parent, x, n);
    Drop(SetParent(SetParent(m1, cell.left, n), cell.right, n), x)
  }

  /** The effect of SubstituteMem, cell by cell. */
  ghost predicate Substituted(m: Mem, m': Mem, x: Node, n: Node, p: Node?, l: Node?, r: Node?)
    requires x in m.cells && Has(m, p) && Has(m, l) && Has(m, r)
  {
    && m'.cells.Keys == m.cells.Keys - {x} + {n}
    && n in m'.cells && m'.cells[n] == m.cells[x]
    && (l != null ==> l in m'.cells && m'.cells[l] == m.cells[l].(parent := n))
    && (r != null ==> r in m'.cells && m'.cells[r] == m.cells[r].(parent := n))
    && SameOff(m, m', {x} + Opt(p) + Opt(l) + Opt(r))
    && SameOff(Relink(m, p, x, n), m', {x} + Opt(l) + Opt(r))
    && m'.root == Relink(m, p, x, n).root
  }

  lemma SubstituteCells(m: Mem, x: Node, n: Node, p: Node?, l: Node?, r: Node?)
    requires CanSubstitute(m, x) && n !in m.cells
    requires m.cells[x].parent == p && m.cells[x].left == l && m.cells[x].right == r
    ensures Substituted(m, SubstituteMem(m, x, n), x, n, p, l, r)
  {
  }

  lemma SubstitutedParts(m: Mem, m': Mem, c: Ctx, l: Tree, x: Node, r: Tree, n: Node)
    requires x in m.cells && Has(m, Parent(c)) && Has(m, Root(l)) && Has(m, Root(r))
    requires Substituted(m, m', x, n, Parent(c), Root(l), Root(r))
    requires Sub(m, l, x) && Sub(m, r, x) && Sup(m, c, x) && CtxSep(c) && Sep(l) && Sep(r)
    requires Nodes(l) !! Nodes(r) !! CtxNodes(c) !! {x}
    ensures Sub(m', l, n) && Sub(m', r, n) && Sup(m', c, n)
  {
    Moved(m, m', {x} + Opt(Parent(c)) + Opt(Root(r)), l, x, n);
    Moved(m, m', {x} + Opt(Parent(c)) + Opt(Root(l)), r, x, n);
    Refill(m, c, x, n);
    SupFrame(Relink(m, Parent(c), x, n), m', {x} + Opt(Root(l)) + Opt(Root(r)), c, n);
  }

  lemma SubstitutedShape(m: Mem, m': Mem, c: Ctx, l: Tree, x: Node, col: Color, r: Tree, n: Node)
    requires At(m, c, Br(l, x, col, r)) && n !in m.cells
    requires Has(m, Parent(c)) && Has(m, Root(l)) && Has(m, Root(r))
    requires Substituted(m, m', x, n, Parent(c), Root(l), Root(r))
    ensures At(m', c, Br(l, n, col, r))
  {
    SubstitutedParts(m, m', c, l, x, r, n);
  }

  /** Node `n` takes over the place of another node. */
  lemma SubstituteShape(m: Mem, c: Ctx, l: Tree, x: Node, col: Color, r: Tree, n: Node)
    requires At(m, c, Br(l, x, col, r)) && n !in m.cells
    ensures CanSubstitute(m, x) && At(SubstituteMem(m, x, n), c, Br(l, n, col, r))
  {
    SubstituteCells(m, x, n, Parent(c), Root(l), Root(r));
    SubstitutedShape(m, SubstituteMem(m, x, n), c, l, x, col, r, n);
  }

  /** Zip, followed by one more step up. */
  lemma ZipAbove(m: Mem, inner: Ctx, outer: Ctx, t: Tree)
    requires !outer.Top?
    ensures At(m, Compose(inner, outer), t) <==> At(m, outer.up, Above(outer, Plug(inner, t)))
  {
    Zip(m, inner, outer, t);
    FocusCtx(m, outer, Plug(inner, t));
  }
}
