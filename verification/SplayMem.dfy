/** The links of a splay tree as a value, while and after it is splayed. */
module SplayMem {
  import opened SplayShape

  datatype Cell = Cell(left: Node?, right: Node?)

  /** SPLAY_HEAD's root together with the SPLAY_ENTRY fields of the nodes. */
  datatype Mem = Mem(root: Node?, cells: map<Node, Cell>)

  ghost function SetLeft(m: Mem, n: Node, v: Node?): Mem
    requires n in m.cells
  {
    m.(cells := m.cells[n := m.cells[n].(left := v)])
  }

  ghost function SetRight(m: Mem, n: Node, v: Node?): Mem
    requires n in m.cells
  {
    m.(cells := m.cells[n := m.cells[n].(right := v)])
  }

  ghost predicate Sub(m: Mem, t: Tree) {
    t.Br? ==>
      && t.node in m.cells && m.cells[t.node] == Cell(Root(t.left), Root(t.right))
      && Sub(m, t.left) && Sub(m, t.right)
  }

  /** The memory holds exactly the tree `t`. */
  ghost predicate Holds(m: Mem, t: Tree) {
    m.root == Root(t) && Sub(m, t) && Sep(t) && m.cells.Keys == Nodes(t)
  }

  ghost function LLast(ls: LSpine, d: Node): Node {
    if ls.LNil? then d else ls.node
  }

  ghost function RLast(rs: RSpine, d: Node): Node {
    if rs.RNil? then d else rs.node
  }

  /** The left spine hangs from the right link of `d` and its open link holds `v`. */
  ghost predicate LLinked(m: Mem, d: Node, ls: LSpine, v: Node?) {
    match ls
    case LNil => d in m.cells && m.cells[d].right == v
    case LSnoc(init, a, x) =>
      x in m.cells && m.cells[x] == Cell(Root(a), v) && Sub(m, a) && LLinked(m, d, init, x)
  }

  /** The right spine hangs from the left link of `d` and its open link holds `v`. */
  ghost predicate RLinked(m: Mem, d: Node, rs: RSpine, v: Node?) {
    match rs
    case RNil => d in m.cells && m.cells[d].left == v
    case RSnoc(init, x, b) =>
      x in m.cells && m.cells[x] == Cell(v, Root(b)) && Sub(m, b) && RLinked(m, d, init, x)
  }

  /** A splay in progress: tree `t` at the head, spines `ls` and `rs` below the dummy `d`;
      their open links hold leftovers. */
  ghost predicate During(m: Mem, d: Node, ls: LSpine, t: Tree, rs: RSpine) {
    && m.root == Root(t) && Sub(m, t) && Apart(d, ls, t, rs)
    && LLast(ls, d) in m.cells && LLinked(m, d, ls, m.cells[LLast(ls, d)].right)
    && RLast(rs, d) in m.cells && RLinked(m, d, rs, m.cells[RLast(rs, d)].left)
  }

  ghost predicate Apart(d: Node, ls: LSpine, t: Tree, rs: RSpine) {
    Sep(t) && LSep(ls) && RSep(rs) && {d} !! Nodes(t) !! LNodes(ls) !! RNodes(rs)
  }

  ghost predicate SameOff(m: Mem, m': Mem, changed: set<Node>) {
    forall n :: n in m.cells && n !in changed ==> n in m'.cells && m'.cells[n] == m.cells[n]
  }

  lemma {:induction false} SubFrame(m: Mem, m': Mem, changed: set<Node>, t: Tree)
    requires Sub(m, t) && SameOff(m, m', changed) && Nodes(t) !! changed
    ensures Sub(m', t)
  {
    if t.Br? {
      SubFrame(m, m', changed, t.left);
      SubFrame(m, m', changed, t.right);
    }
  }

  lemma {:induction false} LFrame(m: Mem, m': Mem, changed: set<Node>, d: Node, ls: LSpine, v: Node?)
    requires LLinked(m, d, ls, v) && SameOff(m, m', changed) && LNodes(ls) !! changed
    requires d in m.cells && d in m'.cells && m'.cells[d].right == m.cells[d].right
    ensures LLinked(m', d, ls, v)
  {
    if ls.LSnoc? {
      SubFrame(m, m', changed, ls.left);
      LFrame(m, m', changed, d, ls.init, ls.node);
    }
  }

  lemma {:induction false} RFrame(m: Mem, m': Mem, changed: set<Node>, d: Node, rs: RSpine, v: Node?)
    requires RLinked(m, d, rs, v) && SameOff(m, m', changed) && RNodes(rs) !! changed
    requires d in m.cells && d in m'.cells && m'.cells[d].left == m.cells[d].left
    ensures RLinked(m', d, rs, v)
  {
    if rs.RSnoc? {
      SubFrame(m, m', changed, rs.right);
      RFrame(m, m', changed, d, rs.init, rs.node);
    }
  }

  lemma {:induction false} LHasDummy(m: Mem, d: Node, ls: LSpine, v: Node?)
    requires LLinked(m, d, ls, v)
    ensures d in m.cells && LLast(ls, d) in m.cells && m.cells[LLast(ls, d)].right == v
  {
    if ls.LSnoc? {
      LHasDummy(m, d, ls.init, ls.node);
    }
  }

  lemma {:induction false} RHasDummy(m: Mem, d: Node, rs: RSpine, v: Node?)
    requires RLinked(m, d, rs, v)
    ensures d in m.cells && RLast(rs, d) in m.cells && m.cells[RLast(rs, d)].left == v
  {
    if rs.RSnoc? {
      RHasDummy(m, d, rs.init, rs.node);
    }
  }

  /** Storing into the open link of the left spine. */
  lemma LStore(m: Mem, d: Node, ls: LSpine, v: Node?, v': Node?)
    requires LLinked(m, d, ls, v) && LSep(ls) && d !in LNodes(ls)
    ensures LLast(ls, d) in m.cells && LLinked(SetRight(m, LLast(ls, d), v'), d, ls, v')
  {
    LHasDummy(m, d, ls, v);
    if ls.LSnoc? {
      var m' := SetRight(m, ls.node, v');
      SubFrame(m, m', {ls.node}, ls.left);
      LHasDummy(m, d, ls.init, ls.node);
      LFrame(m, m', {ls.node}, d, ls.init, ls.node);
    }
  }

  lemma RStore(m: Mem, d: Node, rs: RSpine, v: Node?, v': Node?)
    requires RLinked(m, d, rs, v) && RSep(rs) && d !in RNodes(rs)
    ensures RLast(rs, d) in m.cells && RLinked(SetLeft(m, RLast(rs, d), v'), d, rs, v')
  {
    RHasDummy(m, d, rs, v);
    if rs.RSnoc? {
      var m' := SetLeft(m, rs.node, v');
      SubFrame(m, m', {rs.node}, rs.right);
      RHasDummy(m, d, rs.init, rs.node);
      RFrame(m, m', {rs.node}, d, rs.init, rs.node);
    }
  }

  // ------------------------------------------------------------- steps

  /** SPLAY_LINKLEFT. */
  ghost function LinkLeftMem(m: Mem, last: Node, x: Node): Mem
    requires last in m.cells && x in m.cells && last != x
  {
    SetLeft(m, last, x).(root := m.cells[x].left)
  }

  lemma LinkLeftShape(m: Mem, d: Node, ls: LSpine, t: Tree, rs: RSpine)
    requires During(m, d, ls, t, rs) && t.Br?
    ensures RLast(rs, d) != t.node && t.node in m.cells
    ensures During(LinkLeftMem(m, RLast(rs, d), t.node), d, ls, t.left, RSnoc(rs, t.node, t.right))
  {
    var last := RLast(rs, d);
    var m' := LinkLeftMem(m, last, t.node);
    var v := m.cells[LLast(ls, d)].right;
    LHasDummy(m, d, ls, v);
    RStore(m, d, rs, m.cells[last].left, t.node);
    RHasDummy(SetLeft(m, last, t.node), d, rs, t.node);
    RFrame(SetLeft(m, last, t.node), m', {}, d, rs, t.node);
    SubFrame(m, m', {last}, t.left);
    SubFrame(m, m', {last}, t.right);
    LFrame(m, m', {last}, d, ls, v);
    LHasDummy(m', d, ls, v);
  }

  /** SPLAY_LINKRIGHT. */
  ghost function LinkRightMem(m: Mem, last: Node, x: Node): Mem
    requires last in m.cells && x in m.cells && last != x
  {
    SetRight(m, last, x).(root := m.cells[x].right)
  }

  lemma LinkRightShape(m: Mem, d: Node, ls: LSpine, t: Tree, rs: RSpine)
    requires During(m, d, ls, t, rs) && t.Br?
    ensures LLast(ls, d) != t.node && t.node in m.cells
    ensures During(LinkRightMem(m, LLast(ls, d), t.node), d, LSnoc(ls, t.left, t.node), t.right, rs)
  {
    var last := LLast(ls, d);
    var m' := LinkRightMem(m, last, t.node);
    var v := m.cells[RLast(rs, d)].left;
    RHasDummy(m, d, rs, v);
    LStore(m, d, ls, m.cells[last].right, t.node);
    LHasDummy(SetRight(m, last, t.node), d, ls, t.node);
    LFrame(SetRight(m, last, t.node), m', {}, d, ls, t.node);
    SubFrame(m, m', {last}, t.left);
    SubFrame(m, m', {last}, t.right);
    RFrame(m, m', {last}, d, rs, v);
    RHasDummy(m', d, rs, v);
  }

  /** SPLAY_ROTATE_RIGHT, with tmp the left child of the root. */
  ghost function RotateRightMem(m: Mem, y: Node, x: Node): Mem
    requires y in m.cells && x in m.cells
  {
    SetRight(SetLeft(m, y, m.cells[x].right), x, y).(root := x)
  }

  /** SPLAY_ROTATE_LEFT, with tmp the right child of the root. */
  ghost function RotateLeftMem(m: Mem, x: Node, y: Node): Mem
    requires y in m.cells && x in m.cells
  {
    SetLeft(SetRight(m, x, m.cells[y].left), y, x).(root := y)
  }

  /** Both spines keep their places when only nodes of the tree change. */
  lemma SpinesFrame(m: Mem, m': Mem, changed: set<Node>, d: Node, ls: LSpine, t: Tree, t': Tree, rs: RSpine)
    requires During(m, d, ls, t, rs) && SameOff(m, m', changed) && changed <= Nodes(t)
    requires m'.root == Root(t') && Sub(m', t') && Sep(t') && Nodes(t') == Nodes(t)
    ensures During(m', d, ls, t', rs)
  {
    var v, w := m.cells[LLast(ls, d)].right, m.cells[RLast(rs, d)].left;
    LHasDummy(m, d, ls, v);
    LFrame(m, m', changed, d, ls, v);
    RFrame(m, m', changed, d, rs, w);
    LHasDummy(m', d, ls, v);
    RHasDummy(m', d, rs, w);
  }

  lemma RotateRightShape(m: Mem, d: Node, ls: LSpine, a: Tree, x: Node, b: Tree, y: Node, c: Tree, rs: RSpine)
    requires During(m, d, ls, Br(Br(a, x, b), y, c), rs)
    ensures x in m.cells && y in m.cells
    ensures During(RotateRightMem(m, y, x), d, ls, Br(a, x, Br(b, y, c)), rs)
  {
    var t, t' := Br(Br(a, x, b), y, c), Br(a, x, Br(b, y, c));
    assert Sub(m, Br(a, x, b)) && Sep(Br(a, x, b));
    var m' := RotateRightMem(m, y, x);
    RotSame(a, x, b, y, c);
    SubFrame(m, m', {x, y}, a);
    SubFrame(m, m', {x, y}, b);
    SubFrame(m, m', {x, y}, c);
    assert Sub(m', Br(b, y, c));
    SpinesFrame(m, m', {x, y}, d, ls, t, t', rs);
  }

  lemma RotateLeftShape(m: Mem, d: Node, ls: LSpine, a: Tree, x: Node, b: Tree, y: Node, c: Tree, rs: RSpine)
    requires During(m, d, ls, Br(a, x, Br(b, y, c)), rs)
    ensures x in m.cells && y in m.cells
    ensures During(RotateLeftMem(m, x, y), d, ls, Br(Br(a, x, b), y, c), rs)
  {
    var t, t' := Br(a, x, Br(b, y, c)), Br(Br(a, x, b), y, c);
    assert Sub(m, Br(b, y, c)) && Sep(Br(b, y, c));
    var m' := RotateLeftMem(m, x, y);
    RotSame(a, x, b, y, c);
    SubFrame(m, m', {x, y}, a);
    SubFrame(m, m', {x, y}, b);
    SubFrame(m, m', {x, y}, c);
    assert Sub(m', Br(a, x, b));
    SpinesFrame(m, m', {x, y}, d, ls, t, t', rs);
  }

  lemma {:induction false} LFilled(m: Mem, d: Node, ls: LSpine, t: Tree)
    requires LLinked(m, d, ls, Root(t)) && Sub(m, t)
    ensures Sub(m, FillL(ls, t)) && d in m.cells && m.cells[d].right == Root(FillL(ls, t))
  {
    if ls.LSnoc? {
      LFilled(m, d, ls.init, Br(ls.left, ls.node, t));
    }
  }

  lemma {:induction false} RFilled(m: Mem, d: Node, rs: RSpine, t: Tree)
    requires RLinked(m, d, rs, Root(t)) && Sub(m, t)
    ensures Sub(m, FillR(rs, t)) && d in m.cells && m.cells[d].left == Root(FillR(rs, t))
  {
    if rs.RSnoc? {
      RFilled(m, d, rs.init, Br(t, rs.node, rs.right));
    }
  }

  /** The first two assignments of SPLAY_ASSEMBLE. */
  ghost function CloseMem(m: Mem, left: Node, right: Node, x: Node): Mem
    requires left in m.cells && right in m.cells && x in m.cells
  {
    var m1 := SetRight(m, left, m.cells[x].left);
    SetLeft(m1, right, m1.cells[x].right)
  }

  /** Its last two assignments. */
  ghost function CrownMem(m: Mem, d: Node, x: Node): Mem
    requires x in m.cells && d in m.cells
  {
    var m1 := SetLeft(m, x, m.cells[d].right);
    SetRight(m1, x, m1.cells[d].left)
  }

  lemma CloseShape(m: Mem, d: Node, ls: LSpine, t: Tree, rs: RSpine)
    requires During(m, d, ls, t, rs) && t.Br?
    ensures t.node in m.cells
    ensures (var m' := CloseMem(m, LLast(ls, d), RLast(rs, d), t.node);
             && LLinked(m', d, ls, Root(t.left)) && RLinked(m', d, rs, Root(t.right))
             && Sub(m', t.left) && Sub(m', t.right) && m'.root == t.node && m'.cells.Keys == m.cells.Keys)
  {
    var l, r, x := LLast(ls, d), RLast(rs, d), t.node;
    var w := m.cells[r].left;
    LHasDummy(m, d, ls, m.cells[l].right);
    LStore(m, d, ls, m.cells[l].right, Root(t.left));
    var m1 := SetRight(m, l, Root(t.left));
    RFrame(m, m1, {l}, d, rs, w);
    RStore(m1, d, rs, w, Root(t.right));
    var m2 := SetLeft(m1, r, Root(t.right));
    LFrame(m1, m2, {r}, d, ls, Root(t.left));
    SubFrame(m, m2, {l, r}, t.left);
    SubFrame(m, m2, {l, r}, t.right);
  }

  ghost function Assembled(ls: LSpine, t: Tree, rs: RSpine): Tree
    requires t.Br?
  {
    Br(FillL(ls, t.left), t.node, FillR(rs, t.right))
  }

  lemma AssembledSep(d: Node, ls: LSpine, t: Tree, rs: RSpine)
    requires Apart(d, ls, t, rs) && t.Br?
    ensures Sep(Assembled(ls, t, rs))
    ensures {d, t.node} !! Nodes(FillL(ls, t.left)) && {d, t.node} !! Nodes(FillR(rs, t.right))
  {
    FillLSep(ls, t.left);
    FillRSep(rs, t.right);
  }

  lemma CrownShape(m: Mem, d: Node, a: Tree, x: Node, b: Tree)
    requires Sub(m, a) && Sub(m, b) && x in m.cells && d in m.cells && x != d
    requires m.cells[d] == Cell(Root(b), Root(a)) && x !in Nodes(a) && x !in Nodes(b)
    ensures Sub(CrownMem(m, d, x), Br(a, x, b))
  {
    SubFrame(m, CrownMem(m, d, x), {x}, a);
    SubFrame(m, CrownMem(m, d, x), {x}, b);
  }

  /** SPLAY_ASSEMBLE makes one tree of the two spines and the tree at the head. */
  lemma AssembleShape(m: Mem, d: Node, ls: LSpine, t: Tree, rs: RSpine)
    requires During(m, d, ls, t, rs) && t.Br?
    ensures t.node in m.cells && d in m.cells && Sep(Assembled(ls, t, rs)) && d !in Nodes(Assembled(ls, t, rs))
    ensures Sub(CrownMem(CloseMem(m, LLast(ls, d), RLast(rs, d), t.node), d, t.node), Assembled(ls, t, rs))
  {
    CloseShape(m, d, ls, t, rs);
    LHasDummy(m, d, ls, m.cells[LLast(ls, d)].right);
    var m2 := CloseMem(m, LLast(ls, d), RLast(rs, d), t.node);
    LFilled(m2, d, ls, t.left);
    RFilled(m2, d, rs, t.right);
    AssembledSep(d, ls, t, rs);
    CrownShape(m2, d, FillL(ls, t.left), t.node, FillR(rs, t.right));
  }

  lemma AssembledOrder(ls: LSpine, t: Tree, rs: RSpine)
    requires t.Br?
    ensures Inorder(Assembled(ls, t, rs)) == LOrder(ls) + Inorder(t) + ROrder(rs)
  {
    FillLOrder(ls, t.left);
    FillROrder(rs, t.right);
  }

  // ------------------------------------------------------------- insert and remove

  ghost function Add(m: Mem, n: Node, cell: Cell): Mem {
    m.(cells := m.cells[n := cell])
  }

  /** A new root between a smaller left subtree and the old root. */
  lemma InsertBelowShape(m: Mem, a: Tree, r: Node, b: Tree, n: Node)
    requires Holds(m, Br(a, r, b)) && n !in m.cells
    ensures Holds(SetLeft(Add(m, n, Cell(Root(a), r)), r, null).(root := n), Br(a, n, Br(Leaf, r, b)))
  {
    var m' := SetLeft(Add(m, n, Cell(Root(a), r)), r, null).(root := n);
    SubFrame(m, m', {r}, a);
    SubFrame(m, m', {r}, b);
    assert Sub(m', Br(Leaf, r, b)) && Sep(Br(Leaf, r, b));
  }

  lemma InsertAboveShape(m: Mem, a: Tree, r: Node, b: Tree, n: Node)
    requires Holds(m, Br(a, r, b)) && n !in m.cells
    ensures Holds(SetRight(Add(m, n, Cell(r, Root(b))), r, null).(root := n), Br(Br(a, r, Leaf), n, b))
  {
    var m' := SetRight(Add(m, n, Cell(r, Root(b))), r, null).(root := n);
    SubFrame(m, m', {r}, a);
    SubFrame(m, m', {r}, b);
    assert Sub(m', Br(a, r, Leaf)) && Sep(Br(a, r, Leaf));
  }

  /** The part of the memory that one subtree occupies. */
  ghost function Part(m: Mem, t: Tree): Mem {
    Mem(Root(t), map n | n in m.cells && n in Nodes(t) :: m.cells[n])
  }

  lemma {:induction false} PartSub(m: Mem, s: set<Node>, root: Node?, t: Tree)
    requires Sub(m, t) && Nodes(t) <= s
    ensures Sub(Mem(root, map n | n in m.cells && n in s :: m.cells[n]), t) && Nodes(t) <= m.cells.Keys
  {
    if t.Br? {
      PartSub(m, s, root, t.left);
      PartSub(m, s, root, t.right);
    }
  }

  lemma PartHolds(m: Mem, t: Tree)
    requires Sub(m, t) && Sep(t)
    ensures Holds(Part(m, t), t)
  {
    PartSub(m, Nodes(t), Root(t), t);
  }

  /** Two disjoint memories side by side, headed by the first. */
  ghost function Union(m: Mem, other: Mem): Mem {
    Mem(m.root, m.cells + other.cells)
  }

  /** The join in SPLAY_REMOVE: the right subtree goes below a root without right child. */
  lemma JoinShape(m: Mem, a: Tree, r: Node, other: Mem, b: Tree)
    requires Holds(m, Br(a, r, Leaf)) && Holds(other, b) && m.cells.Keys !! other.cells.Keys
    ensures r in m.cells && Holds(SetRight(Union(m, other), r, Root(b)), Br(a, r, b))
  {
    var m' := SetRight(Union(m, other), r, Root(b));
    SubFrame(m, m', {r}, a);
    SubFrame(other, m', {}, b);
  }
}
