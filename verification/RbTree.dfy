/** The red-black tree of tree.h on real nodes: rotations, the two recolouring
    loops, insert, remove, find and in-order stepping. */
module RbTree {
  import opened RbShape
  import opened RbMem

  /** RB_HEAD; `mem` is the value the heap fields hold. */
  class Head {
    var root: Node?
    ghost var mem: Mem
    ghost var shape: Tree

    /** RB_INIT. */
    constructor ()
      ensures Valid() && Inorder(shape) == []
    {
      root, mem, shape := null, Mem(null, map[]), Leaf;
    }

    /** The structure is a red-black search tree; Inorder(shape) lists its nodes. */
    ghost predicate Valid()
      reads this, mem.cells.Keys
    {
      Is() && At(mem, Top, shape) && Sorted(Inorder(shape)) && RedBlack(shape)
    }

    ghost predicate Is()
      reads `root, `mem, mem.cells.Keys
    {
      && root == mem.root
      && forall n :: n in mem.cells ==>
           && n.left == mem.cells[n].left && n.right == mem.cells[n].right
           && n.parent == mem.cells[n].parent && n.color == mem.cells[n].color
    }

    /** RB_ROOT(head) = v. */
    method PutRoot(v: Node?)
      requires Is()
      modifies `root, `mem
      ensures Is() && mem == old(mem).(root := v)
    {
      root, mem := v, mem.(root := v);
    }

    /** RB_LEFT(n) = v. */
    method PutLeft(n: Node, v: Node?)
      requires Is() && n in mem.cells
      modifies this`mem, n
      ensures Is() && mem == SetLeft(old(mem), n, v) && mem.cells.Keys == old(mem.cells.Keys)
    {
      n.left := v;
      mem := SetLeft(mem, n, v);
    }

    /** RB_RIGHT(n) = v. */
    method PutRight(n: Node, v: Node?)
      requires Is() && n in mem.cells
      modifies this`mem, n
      ensures Is() && mem == SetRight(old(mem), n, v) && mem.cells.Keys == old(mem.cells.Keys)
    {
      n.right := v;
      mem := SetRight(mem, n, v);
    }

    /** RB_COLOR(n) = col. */
    method Paint(n: Node, col: Color)
      requires Is() && n in mem.cells
      modifies this`mem, n
      ensures Is() && mem == SetColor(old(mem), n, col) && mem.cells.Keys == old(mem.cells.Keys)
    {
      n.color := col;
      mem := SetColor(mem, n, col);
    }

    /** RB_PARENT(n) = p, skipped for a null `n`. */
    method Adopt(n: Node?, p: Node?)
      requires Is() && Has(mem, n)
      modifies this`mem, {n}
      ensures Is() && mem == SetParent(old(mem), n, p) && mem.cells.Keys == old(mem.cells.Keys)
    {
      if n != null {
        n.parent := p;
      }
      mem := SetParent(mem, n, p);
    }

    /** Redirect the link from `p`, or from the head, that leads to `n`. */
    method Replace(p: Node?, n: Node, v: Node?)
      requires Is() && Has(mem, p)
      modifies `root, `mem, {p}
      ensures Is() && mem == Relink(old(mem), p, n, v) && mem.cells.Keys == old(mem.cells.Keys)
    {
      mem := Relink(mem, p, n, v);
      if p != null {
        if p.left == n {
          p.left := v;
        } else {
          p.right := v;
        }
      } else {
        root := v;
      }
    }

    /** RB_SET, or the copy of a whole RB_ENTRY, on a node outside the tree. */
    method PutEntry(n: Node, left: Node?, right: Node?, parent: Node?, color: Color)
      requires Is() && n !in mem.cells
      modifies this`mem, n
      ensures Is() && mem == Add(old(mem), n, Cell(left, right, parent, color))
    {
      n.left, n.right, n.parent, n.color := left, right, parent, color;
      mem := Add(mem, n, Cell(left, right, parent, color));
    }

    /** `n` no longer belongs to the tree. */
    ghost method Forget(n: Node)
      requires Is()
      modifies this`mem
      ensures Is() && mem == Drop(old(mem), n)
    {
      mem := Drop(mem, n);
    }

    /** RB_ROTATE_LEFT. */
    method RotateLeft(elm: Node) returns (tmp: Node)
      requires Is() && CanRotateLeft(mem, elm)
      modifies `root, `mem, mem.cells.Keys
      ensures Is() && mem == RotateLeftMem(old(mem), elm) && tmp == old(elm.right)
      ensures mem.cells.Keys == old(mem.cells.Keys)
    {
      tmp := elm.right;
      PutRight(elm, tmp.left);
      Adopt(tmp.left, elm);
      Adopt(tmp, elm.parent);
      Replace(elm.parent, elm, tmp);
      PutLeft(tmp, elm);
      Adopt(elm, tmp);
    }

    /** RB_ROTATE_RIGHT. */
    method RotateRight(elm: Node) returns (tmp: Node)
      requires Is() && CanRotateRight(mem, elm)
      modifies `root, `mem, mem.cells.Keys
      ensures Is() && mem == RotateRightMem(old(mem), elm) && tmp == old(elm.left)
      ensures mem.cells.Keys == old(mem.cells.Keys)
    {
      tmp := elm.left;
      PutLeft(elm, tmp.right);
      Adopt(tmp.right, elm);
      Adopt(tmp, elm.parent);
      Replace(elm.parent, elm, tmp);
      PutRight(tmp, elm);
      Adopt(elm, tmp);
    }

    method PaintAt(n: Node, col: Color, ghost c: Ctx, ghost t: Tree)
      requires Is() && At(mem, c, t) && t.Br? && t.node == n
      modifies this`mem, n
      ensures Is() && At(mem, c, t.(color := col)) && mem.cells.Keys == old(mem.cells.Keys)
    {
      Recolor(mem, c, t, col);
      Paint(n, col);
    }

    method RotateLeftAt(n: Node, ghost c: Ctx, ghost t: Tree) returns (tmp: Node)
      requires Is() && At(mem, c, t) && t.Br? && t.node == n && t.right.Br?
      modifies `root, `mem, mem.cells.Keys
      ensures Is() && At(mem, c, RotL(t)) && mem.cells.Keys == old(mem.cells.Keys) && tmp == t.right.node
    {
      RotateLeftShape(mem, c, t.left, n, t.color, t.right.left, t.right.node, t.right.color, t.right.right);
      tmp := RotateLeft(n);
    }

    method RotateRightAt(n: Node, ghost c: Ctx, ghost t: Tree) returns (tmp: Node)
      requires Is() && At(mem, c, t) && t.Br? && t.node == n && t.left.Br?
      modifies `root, `mem, mem.cells.Keys
      ensures Is() && At(mem, c, RotR(t)) && mem.cells.Keys == old(mem.cells.Keys) && tmp == t.left.node
    {
      RotateRightShape(mem, c, t.left.left, t.left.node, t.left.color, t.left.right, n, t.color, t.right);
      tmp := RotateRight(n);
    }

    /** RB_INSERT_COLOR, red uncle. */
    method InsertRecolour(parent: Node, gparent: Node, uncle: Node, ghost c: Ctx, ghost t: Tree)
      returns (ghost t': Tree)
      requires Is() && At(mem, c, t) && InsertOk(c, t)
      requires !c.Top? && c.node == parent && c.color.Red? && !c.up.Top? && c.up.node == gparent
      requires IsRed(Sibling(c.up)) && Sibling(c.up).node == uncle
      modifies `root, `mem, mem.cells.Keys
      ensures Is() && At(mem, c.up.up, t') && InsertOk(c.up.up, t') && t'.node == gparent
      ensures Inorder(Plug(c.up.up, t')) == Inorder(Plug(c, t)) && mem.cells.Keys == old(mem.cells.Keys)
    {
      InsertRecoloured(c, t);
      ghost var c1, p, u := c.up, Above(c, t), Sibling(c.up);
      FocusCtx(mem, c, t);
      FocusSibling(mem, c1, p);
      PaintAt(uncle, Black, OtherSide(c1, p), u);
      ghost var u' := u.(color := Black);
      ghost var c2 := if c1.InL? then c1.(right := u') else c1.(left := u');
      FocusSibling(mem, c2, p);
      PaintAt(parent, Black, c2, p);
      FocusCtx(mem, c2, p.(color := Black));
      t' := Above(c2, p.(color := Black));
      PaintAt(gparent, Red, c2.up, t');
      t' := t'.(color := Red);
    }

    /** RB_INSERT_COLOR, parent a left child and uncle black. */
    method InsertRotateLeft(elm: Node, parent: Node, gparent: Node, ghost c: Ctx, ghost t: Tree)
      returns (next: Node, ghost c': Ctx, ghost t': Tree)
      requires Is() && At(mem, c, t) && InsertOk(c, t) && t.node == elm
      requires !c.Top? && c.node == parent && c.color.Red? && c.up.InL? && c.up.node == gparent
      requires !IsRed(c.up.right)
      modifies `root, `mem, mem.cells.Keys
      ensures Is() && At(mem, c', t') && InsertOk(c', t') && t'.node == next && Depth(c') < Depth(c)
      ensures Inorder(Plug(c', t')) == Inorder(Plug(c, t)) && mem.cells.Keys == old(mem.cells.Keys)
    {
      InsertRotatedLeft(c, t);
      ghost var InL(up, g, gc, u) := c.up;
      ghost var q := Above(c, t);
      FocusCtx(mem, c, t);
      next := elm;
      var top, tmp := parent, parent;
      if parent.right == elm {
        tmp := RotateLeftAt(parent, c.up, q);
        q := RotL(q);
        next, top := parent, elm;
      }
      PaintAt(top, Black, c.up, q);
      q := q.(color := Black);
      FocusCtx(mem, c.up, q);
      PaintAt(gparent, Red, up, Br(q, g, gc, u));
      tmp := RotateRightAt(gparent, up, Br(q, g, Red, u));
      c', t' := InL(up, q.node, Black, Br(q.right, g, Red, u)), q.left;
      FocusCtx(mem, c', t');
    }

    /** RB_INSERT_COLOR, parent a right child and uncle black. */
    method InsertRotateRight(elm: Node, parent: Node, gparent: Node, ghost c: Ctx, ghost t: Tree)
      returns (next: Node, ghost c': Ctx, ghost t': Tree)
      requires Is() && At(mem, c, t) && InsertOk(c, t) && t.node == elm
      requires !c.Top? && c.node == parent && c.color.Red? && c.up.InR? && c.up.node == gparent
      requires !IsRed(c.up.left)
      modifies `root, `mem, mem.cells.Keys
      ensures Is() && At(mem, c', t') && InsertOk(c', t') && t'.node == next && Depth(c') < Depth(c)
      ensures Inorder(Plug(c', t')) == Inorder(Plug(c, t)) && mem.cells.Keys == old(mem.cells.Keys)
    {
      InsertRotatedRight(c, t);
      ghost var InR(up, u, g, gc) := c.up;
      ghost var q := Above(c, t);
      FocusCtx(mem, c, t);
      next := elm;
      var top, tmp := parent, parent;
      if parent.left == elm {
        tmp := RotateRightAt(parent, c.up, q);
        q := RotR(q);
        next, top := parent, elm;
      }
      PaintAt(top, Black, c.up, q);
      q := q.(color := Black);
      FocusCtx(mem, c.up, q);
      PaintAt(gparent, Red, up, Br(u, g, gc, q));
      tmp := RotateLeftAt(gparent, up, Br(u, g, Red, q));
      c', t' := InR(up, Br(u, g, Red, q.left), q.node, Black), q.right;
      FocusCtx(mem, c', t');
    }

    /** One round of the RB_INSERT_COLOR loop. */
    method InsertRound(elm: Node, parent: Node, ghost c: Ctx, ghost t: Tree)
      returns (next: Node, ghost c': Ctx, ghost t': Tree)
      requires Is() && At(mem, c, t) && InsertOk(c, t) && t.node == elm
      requires !c.Top? && c.node == parent && c.color.Red?
      modifies `root, `mem, mem.cells.Keys
      ensures Is() && At(mem, c', t') && InsertOk(c', t') && t'.node == next && Depth(c') < Depth(c)
      ensures Inorder(Plug(c', t')) == Inorder(Plug(c, t)) && mem.cells.Keys == old(mem.cells.Keys)
    {
      InsertParts(c, t);
      FocusCtx(mem, c, t);
      FocusCtx(mem, c.up, Above(c, t));
      Kids(mem, c.up.up, Above(c.up, Above(c, t)));
      var gparent: Node := parent.parent;
      if parent == gparent.left {
        var tmp := gparent.right;
        if tmp != null && tmp.color == Red {
          t' := InsertRecolour(parent, gparent, tmp, c, t);
          next, c' := gparent, c.up.up;
        } else {
          next, c', t' := InsertRotateLeft(elm, parent, gparent, c, t);
        }
      } else {
        var tmp := gparent.left;
        if tmp != null && tmp.color == Red {
          t' := InsertRecolour(parent, gparent, tmp, c, t);
          next, c' := gparent, c.up.up;
        } else {
          next, c', t' := InsertRotateRight(elm, parent, gparent, c, t);
        }
      }
    }

    /** RB_INSERT_COLOR: restores the colour rules above a freshly linked red node. */
    method InsertColor(node: Node, ghost c0: Ctx, ghost t0: Tree) returns (ghost s: Tree)
      requires Is() && At(mem, c0, t0) && InsertOk(c0, t0) && t0.node == node
      modifies `root, `mem, mem.cells.Keys
      ensures Is() && At(mem, Top, s) && RedBlack(s)
      ensures Inorder(s) == Inorder(Plug(c0, t0)) && mem.cells.Keys == old(mem.cells.Keys)
    {
      var elm := node;
      ghost var c, t := c0, t0;
      while elm.parent != null && elm.parent.color == Red
        invariant Is() && At(mem, c, t) && InsertOk(c, t) && t.node == elm
        invariant Inorder(Plug(c, t)) == Inorder(Plug(c0, t0)) && mem.cells.Keys == old(mem.cells.Keys)
        decreases Depth(c)
      {
        elm, c, t := InsertRound(elm, elm.parent, c, t);
      }
      s := InsertDone(c, t);
      ZipTop(mem, c, t);
      PaintAt(root, Black, Top, Plug(c, t));
    }

    /** RB_REMOVE_COLOR, red sibling of a left child. */
    method RemoveRedSiblingLeft(parent: Node, sibling: Node, ghost c: Ctx, ghost t: Tree)
      requires Is() && At(mem, c, t) && c.InL? && c.node == parent && c.right.Br? && c.right.node == sibling
      modifies `root, `mem, mem.cells.Keys
      ensures Is() && At(mem, RedSiblingCtx(c), t) && mem.cells.Keys == old(mem.cells.Keys)
    {
      FocusSibling(mem, c, t);
      PaintAt(sibling, Black, OtherSide(c, t), c.right);
      ghost var c1 := PaintSibling(c, Black);
      FocusSibling(mem, c1, t);
      FocusCtx(mem, c1, t);
      PaintAt(parent, Red, c.up, Above(c1, t));
      var tmp := RotateLeftAt(parent, c.up, Above(c1, t).(color := Red));
      FocusCtx(mem, RedSiblingCtx(c), t);
      FocusCtx(mem, RedSiblingCtx(c).up, Above(RedSiblingCtx(c), t));
    }

    method RemoveRedSiblingRight(parent: Node, sibling: Node, ghost c: Ctx, ghost t: Tree)
      requires Is() && At(mem, c, t) && c.InR? && c.node == parent && c.left.Br? && c.left.node == sibling
      modifies `root, `mem, mem.cells.Keys
      ensures Is() && At(mem, RedSiblingCtx(c), t) && mem.cells.Keys == old(mem.cells.Keys)
    {
      FocusSibling(mem, c, t);
      PaintAt(sibling, Black, OtherSide(c, t), c.left);
      ghost var c1 := PaintSibling(c, Black);
      FocusSibling(mem, c1, t);
      FocusCtx(mem, c1, t);
      PaintAt(parent, Red, c.up, Above(c1, t));
      var tmp := RotateRightAt(parent, c.up, Above(c1, t).(color := Red));
      FocusCtx(mem, RedSiblingCtx(c), t);
      FocusCtx(mem, RedSiblingCtx(c).up, Above(RedSiblingCtx(c), t));
    }

    /** RB_REMOVE_COLOR, black sibling of a left child with a red child: the last round. */
    method RemoveFinishLeft(parent: Node, sibling: Node, ghost c: Ctx, ghost t: Tree)
      returns (ghost r: Tree)
      requires Is() && At(mem, c, t) && c.InL? && c.node == parent && c.right.Br? && c.right.node == sibling
      requires IsRed(c.right.left) || IsRed(c.right.right)
      modifies `root, `mem, mem.cells.Keys
      ensures Is() && FarRedRight(c.right).right.Br? && At(mem, c.up, r)
      ensures (var q := FarRedRight(c.right);
               r == Br(Br(t, parent, Black, q.left), q.node, c.color, q.right.(color := Black)))
      ensures mem.cells.Keys == old(mem.cells.Keys)
    {
      var tmp := sibling;
      ghost var q, cs := FarRedRight(c.right), OtherSide(c, t);
      FocusSibling(mem, c, t);
      Kids(mem, cs, c.right);
      if tmp.right == null || tmp.right.color == Black {
        TurnSiblingRight(tmp, cs, c.right);
        Kids(mem, c.up, Above(cs, q));
        tmp := parent.right;
      }
      FinishTurnLeft(parent, tmp, cs, q);
      r := RotL(Br(t, parent, Black, q.(color := c.color, right := q.right.(color := Black))));
    }

    method TurnSiblingRight(tmp: Node, ghost c: Ctx, ghost s: Tree)
      requires Is() && At(mem, c, s) && s.Br? && s.node == tmp && IsRed(s.left) && !IsRed(s.right) && !c.Top?
      modifies `root, `mem, mem.cells.Keys
      ensures Is() && At(mem, c, FarRedRight(s)) && mem.cells.Keys == old(mem.cells.Keys)
      ensures At(mem, c.up, Above(c, FarRedRight(s)))
    {
      Focus(mem, c, s.left, tmp, s.color, s.right);
      Kids(mem, c, s);
      var oleft := tmp.left;
      if oleft != null {
        PaintAt(oleft, Black, InL(c, tmp, s.color, s.right), s.left);
      }
      ghost var s' := s.(left := s.left.(color := Black));
      Focus(mem, c, s'.left, tmp, s.color, s.right);
      PaintAt(tmp, Red, c, s');
      oleft := RotateRightAt(tmp, c, s'.(color := Red));
      FocusCtx(mem, c, FarRedRight(s));
    }

    /** Recolour the sibling's side and rotate the parent to the left. */
    method FinishTurnLeft(parent: Node, tmp: Node, ghost c: Ctx, ghost q: Tree)
      requires Is() && At(mem, c, q) && c.InR? && c.node == parent && q.Br? && q.node == tmp && q.right.Br?
      modifies `root, `mem, mem.cells.Keys
      ensures Is() && mem.cells.Keys == old(mem.cells.Keys)
      ensures At(mem, c.up, RotL(Br(c.left, parent, Black, q.(color := c.color, right := q.right.(color := Black)))))
    {
      FocusCtx(mem, c, q);
      PaintAt(tmp, parent.color, c, q);
      ghost var q1 := q.(color := c.color);
      FocusCtx(mem, c, q1);
      PaintAt(parent, Black, c.up, Above(c, q1));
      ghost var c1 := InR(c.up, c.left, parent, Black);
      FocusCtx(mem, c1, q1);
      Focus(mem, c1, q1.left, q1.node, q1.color, q1.right);
      if tmp.right != null {
        PaintAt(tmp.right, Black, InR(c1, q1.left, q1.node, q1.color), q1.right);
      }
      ghost var q2 := q1.(right := q1.right.(color := Black));
      Focus(mem, c1, q2.left, q2.node, q2.color, q2.right);
      FocusCtx(mem, c1, q2);
      var top := RotateLeftAt(parent, c.up, Above(c1, q2));
    }

    /** RB_REMOVE_COLOR, black sibling of a right child with a red child: the last round. */
    method RemoveFinishRight(parent: Node, sibling: Node, ghost c: Ctx, ghost t: Tree)
      returns (ghost r: Tree)
      requires Is() && At(mem, c, t) && c.InR? && c.node == parent && c.left.Br? && c.left.node == sibling
      requires IsRed(c.left.left) || IsRed(c.left.right)
      modifies `root, `mem, mem.cells.Keys
      ensures Is() && FarRedLeft(c.left).left.Br? && At(mem, c.up, r)
      ensures (var q := FarRedLeft(c.left);
               r == Br(q.left.(color := Black), q.node, c.color, Br(q.right, parent, Black, t)))
      ensures mem.cells.Keys == old(mem.cells.Keys)
    {
      var tmp := sibling;
      ghost var q, cs := FarRedLeft(c.left), OtherSide(c, t);
      FocusSibling(mem, c, t);
      Kids(mem, cs, c.left);
      if tmp.left == null || tmp.left.color == Black {
        TurnSiblingLeft(tmp, cs, c.left);
        Kids(mem, c.up, Above(cs, q));
        tmp := parent.left;
      }
      FinishTurnRight(parent, tmp, cs, q);
      r := RotR(Br(q.(color := c.color, left := q.left.(color := Black)), parent, Black, t));
    }

    method TurnSiblingLeft(tmp: Node, ghost c: Ctx, ghost s: Tree)
      requires Is() && At(mem, c, s) && s.Br? && s.node == tmp && IsRed(s.right) && !IsRed(s.left) && !c.Top?
      modifies `root, `mem, mem.cells.Keys
      ensures Is() && At(mem, c, FarRedLeft(s)) && mem.cells.Keys == old(mem.cells.Keys)
      ensures At(mem, c.up, Above(c, FarRedLeft(s)))
    {
      Focus(mem, c, s.left, tmp, s.color, s.right);
      Kids(mem, c, s);
      var oright := tmp.right;
      if oright != null {
        PaintAt(oright, Black, InR(c, s.left, tmp, s.color), s.right);
      }
      ghost var s' := s.(right := s.right.(color := Black));
      Focus(mem, c, s.left, tmp, s.color, s'.right);
      PaintAt(tmp, Red, c, s');
      oright := RotateLeftAt(tmp, c, s'.(color := Red));
      FocusCtx(mem, c, FarRedLeft(s));
    }

    /** Recolour the sibling's side and rotate the parent to the right. */
    method FinishTurnRight(parent: Node, tmp: Node, ghost c: Ctx, ghost q: Tree)
      requires Is() && At(mem, c, q) && c.InL? && c.node == parent && q.Br? && q.node == tmp && q.left.Br?
      modifies `root, `mem, mem.cells.Keys
      ensures Is() && mem.cells.Keys == old(mem.cells.Keys)
      ensures At(mem, c.up, RotR(Br(q.(color := c.color, left := q.left.(color := Black)), parent, Black, c.right)))
    {
      FocusCtx(mem, c, q);
      PaintAt(tmp, parent.color, c, q);
      ghost var q1 := q.(color := c.color);
      FocusCtx(mem, c, q1);
      PaintAt(parent, Black, c.up, Above(c, q1));
      ghost var c1 := InL(c.up, parent, Black, c.right);
      FocusCtx(mem, c1, q1);
      Focus(mem, c1, q1.left, q1.node, q1.color, q1.right);
      if tmp.left != null {
        PaintAt(tmp.left, Black, InL(c1, q1.node, q1.color, q1.right), q1.left);
      }
      ghost var q2 := q1.(left := q1.left.(color := Black));
      Focus(mem, c1, q2.left, q2.node, q2.color, q2.right);
      FocusCtx(mem, c1, q2);
      var top := RotateRightAt(parent, c.up, Above(c1, q2));
    }

    /** One round of RB_REMOVE_COLOR for a left child; `done` is its break. */
    method RemoveRoundLeft(parent: Node, ghost c0: Ctx, ghost t: Tree)
      returns (done: bool, ghost c': Ctx, ghost t': Tree)
      requires Is() && At(mem, c0, t) && RemoveOk(c0, t) && !IsRed(t) && c0.InL? && c0.node == parent
      modifies `root, `mem, mem.cells.Keys
      ensures Is() && mem.cells.Keys == old(mem.cells.Keys)
      ensures At(mem, c', t') && RemoveOk(c', t') && Inorder(Plug(c', t')) == Inorder(Plug(c0, t))
      ensures done ==> c'.Top? && RedBlack(t')
      ensures !done ==> t'.Br? && t'.node == parent && (Depth(c') < Depth(c0) || (Depth(c') == Depth(c0) && IsRed(t')))
    {
      ghost var c := c0;
      RemoveParts(c, t);
      FocusSibling(mem, c, t);
      Kids(mem, OtherSide(c, t), c.right);
      var tmp: Node := parent.right;
      if tmp.color == Red {
        RedSiblingRotated(c, t);
        RemoveRedSiblingLeft(parent, tmp, c, t);
        c := RedSiblingCtx(c);
        RemoveParts(c, t);
        FocusSibling(mem, c, t);
        Kids(mem, OtherSide(c, t), c.right);
        tmp := parent.right;
      }
      done, c', t' := RemoveBlackLeft(parent, tmp, c, t);
    }

    method RemoveBlackLeft(parent: Node, tmp: Node, ghost c: Ctx, ghost t: Tree)
      returns (done: bool, ghost c': Ctx, ghost t': Tree)
      requires Is() && At(mem, c, t) && RemoveOk(c, t) && !IsRed(t) && c.InL? && c.node == parent
      requires c.right.Br? && c.right.node == tmp && !IsRed(c.right)
      modifies `root, `mem, mem.cells.Keys
      ensures Is() && mem.cells.Keys == old(mem.cells.Keys)
      ensures At(mem, c', t') && RemoveOk(c', t') && Inorder(Plug(c', t')) == Inorder(Plug(c, t))
      ensures done ==> c'.Top? && RedBlack(t')
      ensures !done ==> c' == c.up && t'.Br? && t'.node == parent && t'.color == c.color
    {
      FocusSibling(mem, c, t);
      Kids(mem, OtherSide(c, t), c.right);
      if (tmp.left == null || tmp.left.color == Black) && (tmp.right == null || tmp.right.color == Black) {
        BlackNephews(c, t);
        PaintAt(tmp, Red, OtherSide(c, t), c.right);
        FocusSibling(mem, PaintSibling(c, Red), t);
        FocusCtx(mem, PaintSibling(c, Red), t);
        done, c', t' := false, c.up, Above(PaintSibling(c, Red), t);
      } else {
        RemoveFinishedLeft(c, t);
        ghost var r := RemoveFinishLeft(parent, tmp, c, t);
        ZipTop(mem, c.up, r);
        done, c', t' := true, Top, Plug(c.up, r);
      }
    }

    /** One round of RB_REMOVE_COLOR for a right child; `done` is its break. */
    method RemoveRoundRight(parent: Node, ghost c0: Ctx, ghost t: Tree)
      returns (done: bool, ghost c': Ctx, ghost t': Tree)
      requires Is() && At(mem, c0, t) && RemoveOk(c0, t) && !IsRed(t) && c0.InR? && c0.node == parent
      modifies `root, `mem, mem.cells.Keys
      ensures Is() && mem.cells.Keys == old(mem.cells.Keys)
      ensures At(mem, c', t') && RemoveOk(c', t') && Inorder(Plug(c', t')) == Inorder(Plug(c0, t))
      ensures done ==> c'.Top? && RedBlack(t')
      ensures !done ==> t'.Br? && t'.node == parent && (Depth(c') < Depth(c0) || (Depth(c') == Depth(c0) && IsRed(t')))
    {
      ghost var c := c0;
      RemoveParts(c, t);
      FocusSibling(mem, c, t);
      Kids(mem, OtherSide(c, t), c.left);
      var tmp: Node := parent.left;
      if tmp.color == Red {
        RedSiblingRotated(c, t);
        RemoveRedSiblingRight(parent, tmp, c, t);
        c := RedSiblingCtx(c);
        RemoveParts(c, t);
        FocusSibling(mem, c, t);
        Kids(mem, OtherSide(c, t), c.left);
        tmp := parent.left;
      }
      done, c', t' := RemoveBlackRight(parent, tmp, c, t);
    }

    method RemoveBlackRight(parent: Node, tmp: Node, ghost c: Ctx, ghost t: Tree)
      returns (done: bool, ghost c': Ctx, ghost t': Tree)
      requires Is() && At(mem, c, t) && RemoveOk(c, t) && !IsRed(t) && c.InR? && c.node == parent
      requires c.left.Br? && c.left.node == tmp && !IsRed(c.left)
      modifies `root, `mem, mem.cells.Keys
      ensures Is() && mem.cells.Keys == old(mem.cells.Keys)
      ensures At(mem, c', t') && RemoveOk(c', t') && Inorder(Plug(c', t')) == Inorder(Plug(c, t))
      ensures done ==> c'.Top? && RedBlack(t')
      ensures !done ==> c' == c.up && t'.Br? && t'.node == parent && t'.color == c.color
    {
      FocusSibling(mem, c, t);
      Kids(mem, OtherSide(c, t), c.left);
      if (tmp.left == null || tmp.left.color == Black) && (tmp.right == null || tmp.right.color == Black) {
        BlackNephews(c, t);
        PaintAt(tmp, Red, OtherSide(c, t), c.left);
        FocusSibling(mem, PaintSibling(c, Red), t);
        FocusCtx(mem, PaintSibling(c, Red), t);
        done, c', t' := false, c.up, Above(PaintSibling(c, Red), t);
      } else {
        RemoveFinishedRight(c, t);
        ghost var r := RemoveFinishRight(parent, tmp, c, t);
        ZipTop(mem, c.up, r);
        done, c', t' := true, Top, Plug(c.up, r);
      }
    }

    /** RB_REMOVE_COLOR: restores the black count above a spliced-out black node. */
    method RemoveColor(above: Node?, child: Node?, ghost c0: Ctx, ghost t0: Tree) returns (ghost s: Tree)
      requires Is() && At(mem, c0, t0) && RemoveOk(c0, t0) && Root(t0) == child && Parent(c0) == above
      modifies `root, `mem, mem.cells.Keys
      ensures Is() && At(mem, Top, s) && RedBlack(s)
      ensures Inorder(s) == Inorder(Plug(c0, t0)) && mem.cells.Keys == old(mem.cells.Keys)
    {
      var parent, elm := above, child;
      ghost var c, t := c0, t0;
      while (elm == null || elm.color == Black) && elm != root
        invariant Is() && At(mem, c, t) && RemoveOk(c, t) && Root(t) == elm && Parent(c) == parent
        invariant Inorder(Plug(c, t)) == Inorder(Plug(c0, t0)) && mem.cells.Keys == old(mem.cells.Keys)
        decreases 2 * Depth(c) + if IsRed(t) then 0 else 1
      {
        RemoveParts(c, t);
        Side(mem, c, t);
        var done;
        if parent.left == elm {
          done, c, t := RemoveRoundLeft(parent, c, t);
        } else {
          done, c, t := RemoveRoundRight(parent, c, t);
        }
        if done {
          elm := root;
          break;
        }
        Kids(mem, c, t);
        elm := parent;
        parent := elm.parent;
      }
      s := RemoveLast(elm, c, t);
    }

    /** The end of RB_REMOVE_COLOR. */
    method RemoveLast(elm: Node?, ghost c: Ctx, ghost t: Tree) returns (ghost s: Tree)
      requires Is() && At(mem, c, t) && RemoveOk(c, t) && Root(t) == elm && (IsRed(t) || root == elm)
      modifies `root, `mem, mem.cells.Keys
      ensures Is() && At(mem, Top, s) && RedBlack(s)
      ensures Inorder(s) == Inorder(Plug(c, t)) && mem.cells.Keys == old(mem.cells.Keys)
    {
      s := RemoveDone(mem, c, t);
      if elm != null {
        PaintAt(elm, Black, c, t);
      }
      ZipTop(mem, c, Blacken(t));
    }

    /** RB_FIND. */
    method Find(elm: Node) returns (res: Node?)
      requires Valid()
      ensures res != null ==> res in Inorder(shape) && res.key == elm.key
      ensures res == null ==> forall n :: n in Inorder(shape) ==> n.key != elm.key
    {
      var tmp := root;
      ghost var c, t := Top, shape;
      while tmp != null
        invariant At(mem, c, t) && tmp == Root(t) && Between(c, elm.key)
        invariant Plug(c, t) == shape
        decreases t
      {
        Kids(mem, c, t);
        Focus(mem, c, t.left, t.node, t.color, t.right);
        SearchStep(c, t, elm.key);
        if elm.key < tmp.key {
          tmp := tmp.left;
          c, t := GoLeft(c, t), t.left;
        } else if elm.key > tmp.key {
          tmp := tmp.right;
          c, t := GoRight(c, t), t.right;
        } else {
          return tmp;
        }
      }
      InorderPlug(c, Leaf);
      return null;
    }

    /** RB_INSERT; `a` and `b` are the nodes below and above the new one. */
    method Insert(elm: Node) returns (res: Node?, ghost a: seq<Node>, ghost b: seq<Node>)
      requires Valid()
      modifies this, mem.cells.Keys, elm
      ensures Valid()
      ensures res != null ==> res in old(Inorder(shape)) && res.key == elm.key
      ensures res != null ==> root == old(root) && mem == old(mem) && shape == old(shape)
      ensures res == null ==> forall n :: n in old(Inorder(shape)) ==> n.key != elm.key
      ensures res == null ==> old(Inorder(shape)) == a + b && Inorder(shape) == a + [elm] + b
    {
      var parent, comp;
      ghost var c;
      res, parent, comp, c := InsertSearch(elm);
      a, b := Before(c), After(c);
      if res == null {
        InsertedOrder(c, elm);
        NotLinked(mem, shape, elm);
        InsertLink(elm, parent, comp, c);
      }
    }

    /** The search loop of RB_INSERT. */
    method InsertSearch(elm: Node) returns (res: Node?, parent: Node?, comp: int, ghost c: Ctx)
      requires Valid()
      ensures res != null ==> res in Inorder(shape) && res.key == elm.key
      ensures res == null ==> At(mem, c, Leaf) && Between(c, elm.key) && Placed(c, Leaf) && parent == Parent(c)
      ensures res == null ==> (c.InL? <==> comp < 0) && (c.InR? <==> comp > 0)
      ensures res == null ==> Plug(c, Leaf) == shape
    {
      var tmp := root;
      parent, comp := null, 0;
      c := Top;
      ghost var t := shape;
      while tmp != null
        invariant At(mem, c, t) && tmp == Root(t) && parent == Parent(c) && Between(c, elm.key) && Placed(c, t)
        invariant (c.InL? <==> comp < 0) && (c.InR? <==> comp > 0)
        invariant Plug(c, t) == shape
        decreases t
      {
        parent := tmp;
        Kids(mem, c, t);
        Focus(mem, c, t.left, t.node, t.color, t.right);
        SearchStep(c, t, elm.key);
        PlacedKids(c, t);
        comp := elm.key - parent.key;
        if comp < 0 {
          tmp := tmp.left;
          c, t := GoLeft(c, t), t.left;
        } else if comp > 0 {
          tmp := tmp.right;
          c, t := GoRight(c, t), t.right;
        } else {
          return tmp, parent, comp, c;
        }
      }
      res := null;
    }

    /** RB_INSERT after an unsuccessful search. */
    method InsertLink(elm: Node, parent: Node?, comp: int, ghost c: Ctx)
      requires Is() && At(mem, c, Leaf) && Placed(c, Leaf) && parent == Parent(c) && elm !in mem.cells
      requires (c.InL? <==> comp < 0) && (c.InR? <==> comp > 0)
      requires Sorted(Inorder(Plug(c, Br(Leaf, elm, Red, Leaf))))
      modifies this, mem.cells.Keys, elm
      ensures Valid() && Inorder(shape) == Inorder(Plug(c, Br(Leaf, elm, Red, Leaf)))
    {
      Link(elm, parent, comp, c);
      shape := InsertColor(elm, c, Br(Leaf, elm, Red, Leaf));
    }

    method Link(elm: Node, parent: Node?, comp: int, ghost c: Ctx)
      requires Is() && At(mem, c, Leaf) && parent == Parent(c) && elm !in mem.cells
      requires (c.InL? <==> comp < 0) && (c.InR? <==> comp > 0)
      modifies `root, `mem, mem.cells.Keys, elm
      ensures Is() && At(mem, c, Br(Leaf, elm, Red, Leaf)) && mem.cells.Keys == old(mem.cells.Keys) + {elm}
    {
      LinkShape(mem, c, elm);
      PutEntry(elm, null, null, parent, Red);
      if parent != null {
        if comp < 0 {
          PutLeft(parent, elm);
        } else {
          PutRight(parent, elm);
        }
      } else {
        PutRoot(elm);
      }
    }

    /** RB_REMOVE's unlinking of a node that has no other child than `child`. */
    method Splice(elm: Node, child: Node?, ghost c: Ctx, ghost t: Tree, ghost d: Tree) returns (parent: Node?)
      requires Is() && At(mem, c, t) && t.Br? && t.node == elm && child == Root(d)
      requires (t.left.Leaf? && d == t.right) || (t.right.Leaf? && d == t.left)
      modifies `root, `mem, mem.cells.Keys - {elm}
      ensures Is() && At(mem, c, d) && parent == Parent(c) && mem.cells.Keys == old(mem.cells.Keys) - {elm}
    {
      SpliceShape(mem, c, t, d);
      parent := elm.parent;
      Adopt(child, parent);
      Replace(parent, elm, child);
      Forget(elm);
    }

    /** RB_REMOVE for a node with at most one child. */
    method RemoveOne(elm: Node, child: Node?, ghost c: Ctx, ghost t: Tree, ghost d: Tree) returns (ghost s: Tree)
      requires Is() && At(mem, c, t) && Placed(c, t) && t.Br? && t.node == elm && child == Root(d)
      requires (t.left.Leaf? && d == t.right) || (t.right.Leaf? && d == t.left)
      modifies `root, `mem, mem.cells.Keys
      ensures Is() && At(mem, Top, s) && RedBlack(s) && Inorder(s) == Inorder(Plug(c, d))
    {
      SplicedColours(c, t, d);
      Kids(mem, c, t);
      var color := elm.color;
      var parent := Splice(elm, child, c, t, d);
      if color == Black {
        s := RemoveColor(parent, child, c, d);
      } else {
        ZipTop(mem, c, d);
        s := Plug(c, d);
      }
    }

    /** `elm` takes over the fields and the neighbours of `victim`. */
    method Substitute(elm: Node, victim: Node)
      requires Is() && CanSubstitute(mem, victim) && elm !in mem.cells
      modifies `root, `mem, mem.cells.Keys, elm
      ensures Is() && mem == SubstituteMem(old(mem), victim, elm)
    {
      PutEntry(elm, victim.left, victim.right, victim.parent, victim.color);
      Replace(victim.parent, victim, elm);
      Adopt(victim.left, elm);
      Adopt(victim.right, elm);
      Forget(victim);
    }

    method SubstituteAt(elm: Node, victim: Node, ghost c: Ctx, ghost t: Tree)
      requires Is() && At(mem, c, t) && t.Br? && t.node == victim && elm !in mem.cells
      modifies `root, `mem, mem.cells.Keys, elm
      ensures Is() && At(mem, c, t.(node := elm)) && mem.cells.Keys <= old(mem.cells.Keys) + {elm}
    {
      SubstituteShape(mem, c, t.left, victim, t.color, t.right, elm);
      Substitute(elm, victim);
    }

    /** The leftmost node below a right child. */
    method Leftmost(start: Node, ghost c: Ctx, ghost r: Tree) returns (elm: Node, ghost inner: Ctx, ghost s: Tree)
      requires Is() && At(mem, c, r) && Placed(c, r) && r.Br? && r.node == start
      ensures s.Br? && s.node == elm && s.left.Leaf? && LeftSpine(inner) && Plug(inner, s) == r
      ensures At(mem, Compose(inner, c), s) && Placed(Compose(inner, c), s)
    {
      elm := start;
      inner, s := Top, r;
      while elm.left != null
        invariant s.Br? && s.node == elm && LeftSpine(inner) && Plug(inner, s) == r
        invariant At(mem, Compose(inner, c), s) && Placed(Compose(inner, c), s)
        decreases s
      {
        ghost var cc := Compose(inner, c);
        PlacedKids(cc, s);
        Focus(mem, cc, s.left, s.node, s.color, s.right);
        Kids(mem, cc, s);
        elm := elm.left;
        inner, s := GoLeft(inner, s), s.left;
      }
    }

    /** RB_REMOVE for a node with two children: its successor is spliced out and takes its place. */
    method RemoveTwo(victim: Node, ghost c: Ctx, ghost t: Tree) returns (ghost s: Tree)
      requires Is() && At(mem, c, t) && Placed(c, t) && t.Br? && t.node == victim && t.left.Br? && t.right.Br?
      modifies `root, `mem, mem.cells.Keys
      ensures Is() && At(mem, Top, s) && RedBlack(s)
      ensures (var a, b := Before(c) + Inorder(t.left), Inorder(t.right) + After(c);
               Inorder(s) == a + b)
    {
      PlacedKids(c, t);
      Focus(mem, c, t.left, victim, t.color, t.right);
      Kids(mem, c, t);
      var elm;
      ghost var inner, m;
      elm, inner, m := Leftmost(victim.right, GoRight(c, t), t.right);
      SuccessorOrder(c, t.left, victim, t.color, inner, elm, m.color, m.right);
      s := RemoveSuccessor(elm, victim, c, t, inner, m);
    }

    method RemoveSuccessor(elm: Node, victim: Node, ghost c: Ctx, ghost t: Tree, ghost inner: Ctx, ghost m: Tree)
      returns (ghost s: Tree)
      requires t.Br? && t.node == victim && m.Br? && m.node == elm && m.left.Leaf?
      requires Is() && At(mem, Compose(inner, GoRight(c, t)), m) && Placed(Compose(inner, GoRight(c, t)), m)
      requires Plug(inner, m) == t.right && LeftSpine(inner)
      modifies `root, `mem, mem.cells.Keys
      ensures Is() && At(mem, Top, s) && RedBlack(s)
      ensures Inorder(s) == Inorder(Plug(Compose(inner, InR(c, t.left, elm, t.color)), m.right))
    {
      SuccessorColours(inner, c, t, elm, m);
      Kids(mem, Compose(inner, GoRight(c, t)), m);
      var color, child := elm.color, elm.right;
      ghost var c2 := Compose(inner, InR(c, t.left, elm, t.color));
      var parent := MoveSuccessor(elm, victim, child, c, t, inner, m);
      if color == Black {
        s := RemoveColor(parent, child, c2, m.right);
      } else {
        ZipTop(mem, c2, m.right);
        s := Plug(c2, m.right);
      }
    }

    method MoveSuccessor(elm: Node, victim: Node, child: Node?, ghost c: Ctx, ghost t: Tree, ghost inner: Ctx, ghost m: Tree)
      returns (parent: Node?)
      requires t.Br? && t.node == victim && m.Br? && m.node == elm && m.left.Leaf? && child == Root(m.right)
      requires Is() && At(mem, Compose(inner, GoRight(c, t)), m)
      modifies `root, `mem, mem.cells.Keys
      ensures Is() && mem.cells.Keys <= old(mem.cells.Keys)
      ensures (var c2 := Compose(inner, InR(c, t.left, elm, t.color));
               At(mem, c2, m.right) && parent == Parent(c2))
    {
      SuccessorApart(mem, c, t, inner, m);
      parent := Splice(elm, child, Compose(inner, GoRight(c, t)), m, m.right);
      if parent == victim {
        parent := elm;
      }
      SubstituteUnder(elm, victim, c, t, inner, m.right);
    }

    method SubstituteUnder(elm: Node, victim: Node, ghost c: Ctx, ghost t: Tree, ghost inner: Ctx, ghost d: Tree)
      requires t.Br? && t.node == victim && Is() && At(mem, Compose(inner, GoRight(c, t)), d) && elm !in mem.cells
      modifies `root, `mem, mem.cells.Keys, elm
      ensures Is() && mem.cells.Keys <= old(mem.cells.Keys) + {elm}
      ensures At(mem, Compose(inner, InR(c, t.left, elm, t.color)), d)
    {
      ZipAbove(mem, inner, GoRight(c, t), d);
      SubstituteAt(elm, victim, c, Br(t.left, victim, t.color, Plug(inner, d)));
      ZipAbove(mem, inner, InR(c, t.left, elm, t.color), d);
    }

    /** RB_REMOVE; `a` and `b` are the nodes below and above the removed one. */
    method Remove(elm: Node) returns (res: Node, ghost a: seq<Node>, ghost b: seq<Node>)
      requires Valid() && elm in mem.cells
      modifies this, mem.cells.Keys
      ensures Valid() && res == elm
      ensures old(Inorder(shape)) == a + [elm] + b && Inorder(shape) == a + b
    {
      res := elm;
      ghost var c, t;
      c, t, a, b := RemoveView(mem, shape, elm);
      shape := RemoveAt(elm, c, t, a, b);
    }

    method RemoveAt(elm: Node, ghost c: Ctx, ghost t: Tree, ghost a: seq<Node>, ghost b: seq<Node>) returns (ghost s: Tree)
      requires Is() && At(mem, c, t) && Placed(c, t) && t.Br? && t.node == elm
      requires a == Before(c) + Inorder(t.left) && b == Inorder(t.right) + After(c)
      modifies `root, `mem, mem.cells.Keys
      ensures Is() && At(mem, Top, s) && RedBlack(s) && Inorder(s) == a + b
    {
      Kids(mem, c, t);
      if elm.left == null {
        SplicedOrder(c, t, t.right);
        s := RemoveOne(elm, elm.right, c, t, t.right);
      } else if elm.right == null {
        SplicedOrder(c, t, t.left);
        s := RemoveOne(elm, elm.left, c, t, t.left);
      } else {
        s := RemoveTwo(elm, c, t);
      }
    }

    /** RB_NEXT; `i` is the place of `node` in key order. */
    method Next(node: Node, ghost i: nat) returns (res: Node?)
      requires Valid() && i < |Inorder(shape)| && Inorder(shape)[i] == node
      ensures res == if i + 1 < |Inorder(shape)| then Inorder(shape)[i + 1] else null
    {
      InorderNodes(shape);
      ghost var c, t := Locate(Top, shape, node);
      ZipTop(mem, c, t);
      NextInOrder(c, t, i);
      Kids(mem, c, t);
      if node.right != null {
        res := FirstBelow(node.right, c, t);
      } else {
        res := NextAbove(node, c, t);
      }
      assert i + 1 < |Inorder(shape)| ==> Inorder(shape)[i + 1] == Inorder(shape)[i + 1..][0];
    }

    method FirstBelow(right: Node, ghost c: Ctx, ghost t: Tree) returns (elm: Node)
      requires Is() && At(mem, c, t) && Placed(c, t) && t.Br? && t.right.Br? && t.right.node == right
      ensures Inorder(t.right) != [] && elm == Inorder(t.right)[0]
    {
      PlacedKids(c, t);
      Focus(mem, c, t.left, t.node, t.color, t.right);
      ghost var inner, s;
      elm, inner, s := Leftmost(right, GoRight(c, t), t.right);
      LeftSpineFirst(inner, s);
    }

    /** The nearest ancestor that `node` lies to the left of. */
    method NextAbove(node: Node, ghost c0: Ctx, ghost t0: Tree) returns (elm: Node?)
      requires Is() && At(mem, c0, t0) && t0.Br? && t0.node == node
      ensures elm == if After(c0) == [] then null else After(c0)[0]
    {
      elm := node;
      WhichChild(mem, c0, t0);
      if elm.parent != null && elm == elm.parent.left {
        elm := elm.parent;
      } else {
        ghost var c, t := c0, t0;
        while elm.parent != null && elm == elm.parent.right
          invariant At(mem, c, t) && t.Br? && t.node == elm && After(c) == After(c0)
          decreases c
        {
          WhichChild(mem, c, t);
          FocusCtx(mem, c, t);
          elm := elm.parent;
          c, t := c.up, Above(c, t);
        }
        WhichChild(mem, c, t);
        elm := elm.parent;
      }
    }

    /** RB_MINMAX. */
    method MinMax(val: int) returns (parent: Node?)
      requires Valid()
      ensures Inorder(shape) == [] ==> parent == null
      ensures Inorder(shape) != [] ==> parent == Inorder(shape)[if val < 0 then 0 else |Inorder(shape)| - 1]
    {
      var tmp := root;
      parent := null;
      ghost var c, t := Top, shape;
      while tmp != null
        invariant At(mem, c, t) && tmp == Root(t) && parent == Parent(c) && Plug(c, t) == shape
        invariant val < 0 ==> LeftSpine(c)
        invariant val >= 0 ==> RightSpine(c)
        decreases t
      {
        Kids(mem, c, t);
        Focus(mem, c, t.left, t.node, t.color, t.right);
        parent := tmp;
        if val < 0 {
          tmp := tmp.left;
          c, t := GoLeft(c, t), t.left;
        } else {
          tmp := tmp.right;
          c, t := GoRight(c, t), t.right;
        }
      }
      if val < 0 {
        LeftSpineEnd(c);
      } else {
        RightSpineEnd(c);
      }
    }

    /** RB_FOREACH: the nodes visited from RB_MIN by repeated RB_NEXT. */
    method Traverse() returns (visited: seq<Node>)
      requires Valid()
      ensures visited == Inorder(shape)
    {
      visited := [];
      var x := MinMax(-1);
      while x != null
        invariant |visited| <= |Inorder(shape)| && visited == Inorder(shape)[..|visited|]
        invariant x == if |visited| < |Inorder(shape)| then Inorder(shape)[|visited|] else null
        decreases |Inorder(shape)| - |visited|
      {
        ghost var i := |visited|;
        visited := visited + [x];
        x := Next(x, i);
      }
    }
  }

  /** Where the successor hangs below the node it will replace. */
  lemma SuccessorApart(m: Mem, c: Ctx, t: Tree, inner: Ctx, s: Tree)
    requires t.Br? && s.Br? && At(m, Compose(inner, GoRight(c, t)), s)
    ensures s.node != t.node && (Parent(Compose(inner, GoRight(c, t))) == t.node <==> inner.Top?)
    ensures t.node in m.cells
  {
    ComposeNodes(inner, GoRight(c, t));
    ComposeSep(inner, GoRight(c, t));
  }

  lemma {:induction false} ComposeNodes(inner: Ctx, outer: Ctx)
    ensures CtxNodes(Compose(inner, outer)) == CtxNodes(inner) + CtxNodes(outer)
  {
    if !inner.Top? {
      ComposeNodes(inner.up, outer);
    }
  }

  lemma {:induction false} ComposeSep(inner: Ctx, outer: Ctx)
    requires CtxSep(Compose(inner, outer))
    ensures CtxNodes(inner) !! CtxNodes(outer)
  {
    if !inner.Top? {
      ComposeNodes(inner.up, outer);
      ComposeSep(inner.up, outer);
    }
  }

  lemma SuccessorColours(inner: Ctx, c: Ctx, t: Tree, n: Node, s: Tree)
    requires t.Br? && s.Br? && s.left.Leaf? && Placed(Compose(inner, GoRight(c, t)), s)
    ensures (var c2 := Compose(inner, InR(c, t.left, n, t.color));
             && (s.color.Black? ==> RemoveOk(c2, s.right))
             && (s.color.Red? ==> RedBlack(Plug(c2, s.right))))
  {
    CtxOkSwap(inner, c, t.left, t.node, n, t.color, BlackHeight(s));
    SplicedColours(Compose(inner, InR(c, t.left, n, t.color)), s, s.right);
  }

  lemma NotLinked(m: Mem, s: Tree, n: Node)
    requires At(m, Top, s) && forall x :: x in Inorder(s) ==> x.key != n.key
    ensures n !in m.cells
  {
    InorderNodes(s);
  }

  lemma RemoveDone(m: Mem, c: Ctx, t: Tree) returns (s: Tree)
    requires At(m, c, t) && RemoveOk(c, t) && (IsRed(t) || m.root == Root(t))
    ensures s == Plug(c, Blacken(t)) && RedBlack(s) && Inorder(s) == Inorder(Plug(c, t))
  {
    if !c.Top? {
      RootAbove(m, c, Root(t));
    }
    s := Plug(c, Blacken(t));
    PlugRedBlack(c, Blacken(t));
    InorderPlug(c, t);
    InorderPlug(c, Blacken(t));
  }

  lemma InsertDone(c: Ctx, t: Tree) returns (s: Tree)
    requires InsertOk(c, t) && (c.Top? || c.color.Black?)
    ensures Plug(c, t).Br? && s == Plug(c, t).(color := Black) && RedBlack(s) && Inorder(s) == Inorder(Plug(c, t))
  {
    if !c.Top? {
      PlugRedBlack(c, t);
    }
    PlugBr(c, t);
    s := Plug(c, t).(color := Black);
  }

  lemma {:induction false} PlugBr(c: Ctx, t: Tree)
    requires t.Br?
    ensures Plug(c, t).Br?
  {
    if !c.Top? {
      PlugBr(c.up, Above(c, t));
    }
  }

  /** The child links of the parent tell on which side a node hangs. */
  lemma WhichChild(m: Mem, c: Ctx, t: Tree)
    requires At(m, c, t) && t.Br?
    ensures t.node in m.cells && m.cells[t.node].parent == Parent(c)
    ensures !c.Top? ==> c.node in m.cells
    ensures !c.Top? ==> (m.cells[c.node].left == t.node <==> c.InL?) && (m.cells[c.node].right == t.node <==> c.InR?)
    ensures c.InL? ==> After(c) != [] && After(c)[0] == c.node
    ensures c.InR? ==> After(c) == After(c.up)
    ensures c.Top? ==> After(c) == []
  {
  }

  ghost predicate RightSpine(c: Ctx) {
    !c.Top? ==> c.InR? && RightSpine(c.up)
  }

  lemma LeftSpineEnd(c: Ctx)
    requires LeftSpine(c)
    ensures Inorder(Plug(c, Leaf)) == [] <==> c.Top?
    ensures !c.Top? ==> Inorder(Plug(c, Leaf))[0] == c.node
  {
    InorderPlug(c, Leaf);
    LeftSpineBefore(c);
  }

  lemma {:induction false} RightSpineAfter(c: Ctx)
    requires RightSpine(c)
    ensures After(c) == []
  {
    if !c.Top? {
      RightSpineAfter(c.up);
    }
  }

  lemma RightSpineEnd(c: Ctx)
    requires RightSpine(c)
    ensures Inorder(Plug(c, Leaf)) == [] <==> c.Top?
    ensures !c.Top? ==> Inorder(Plug(c, Leaf))[|Inorder(Plug(c, Leaf))| - 1] == c.node
  {
    InorderPlug(c, Leaf);
    RightSpineAfter(c);
  }

  /** The tree seen from a node about to be removed, and the key order around it. */
  lemma RemoveView(m: Mem, s: Tree, n: Node) returns (c: Ctx, t: Tree, a: seq<Node>, b: seq<Node>)
    requires At(m, Top, s) && Sorted(Inorder(s)) && RedBlack(s) && n in m.cells
    ensures At(m, c, t) && Placed(c, t) && t.Br? && t.node == n
    ensures a == Before(c) + Inorder(t.left) && b == Inorder(t.right) + After(c) && Sorted(a + b)
    ensures Inorder(s) == a + [n] + b
  {
    c, t := Locate(Top, s, n);
    ZipTop(m, c, t);
    RemoveOrder(c, t);
    a, b := Before(c) + Inorder(t.left), Inorder(t.right) + After(c);
  }
}
