/** The top-down splay tree of tree.h on real nodes. */
module SplayTree {
  import opened SplayShape
  import opened SplayMem
  import opened SplayCost

  // ----- Rounds -----

  /** A round of the loop leads to the same tree in the end, and is one of the rounds to come. */
  ghost predicate Rounded(stop: bool, ls: LSpine, t: Tree, rs: RSpine, ls': LSpine, t': Tree, rs': RSpine, k: int)
    requires t.Br? && t'.Br?
  {
    if stop then Assembled(ls', t', rs') == Assembled(ls, Splayed(t, k), rs) && Rounds(t, k) == 1
    else Assembled(ls', Splayed(t', k), rs') == Assembled(ls, Splayed(t, k), rs) && Rounds(t, k) == 1 + Rounds(t', k)
  }

  /** Splaying on leads to `goal` in `n` rounds. */
  ghost predicate Ahead(ls: LSpine, t: Tree, rs: RSpine, k: int, goal: Tree, n: nat)
    requires t.Br?
  {
    Assembled(ls, Splayed(t, k), rs) == goal && Rounds(t, k) == n
  }

  lemma AheadAtStart(t: Tree, k: int)
    requires t.Br?
    ensures Ahead(LNil, t, RNil, k, Splayed(t, k), Rounds(t, k))
  {
  }

  lemma AheadNext(stop: bool, ls: LSpine, t: Tree, rs: RSpine, ls': LSpine, t': Tree, rs': RSpine, k: int, goal: Tree, n: nat)
    requires t.Br? && t'.Br? && Rounded(stop, ls, t, rs, ls', t', rs', k) && Ahead(ls, t, rs, k, goal, n)
    ensures n >= 1 && if stop then n == 1 && Assembled(ls', t', rs') == goal else Ahead(ls', t', rs', k, goal, n - 1)
  {
  }

  lemma AheadAtKey(ls: LSpine, t: Tree, rs: RSpine, goal: Tree, n: nat)
    requires t.Br? && Ahead(ls, t, rs, t.node.key, goal, n)
    ensures n == 0 && Assembled(ls, t, rs) == goal && Stops(t, t.node.key)
  {
  }

  lemma WholeAtStart(t: Tree)
    ensures Whole(LNil, t, RNil) == Inorder(t)
  {
  }

  lemma SameAssembled(ls: LSpine, t: Tree, rs: RSpine, s: Tree) returns (s': Tree)
    requires t.Br? && Whole(ls, t, rs) == Inorder(s)
    ensures s' == Assembled(ls, t, rs) && s'.Br? && s'.node == t.node && Inorder(s') == Inorder(s) && Nodes(s') == Nodes(s)
  {
    s' := Assembled(ls, t, rs);
    AssembledOrder(ls, t, rs);
    SameOrderSameNodes(s, s');
  }

  lemma LinkedLeftIs(ls: LSpine, s: Tree, x: Node, b: Tree, rs: RSpine)
    requires s.Br?
    ensures Assembled(ls, s, RSnoc(rs, x, b)) == Assembled(ls, LinkedLeft(s, x, b), rs)
  {
  }

  lemma LinkedRightIs(ls: LSpine, a: Tree, x: Node, s: Tree, rs: RSpine)
    requires s.Br?
    ensures Assembled(LSnoc(ls, a, x), s, rs) == Assembled(ls, LinkedRight(a, x, s), rs)
  {
  }

  lemma RoundedLeft(ls: LSpine, t: Tree, rs: RSpine, k: int)
    requires t.Br? && k < t.node.key
    ensures t.left.Leaf? ==> Rounded(true, ls, t, rs, ls, t, rs, k)
    ensures t.left.Br? && k >= t.left.node.key ==> Rounded(false, ls, t, rs, ls, t.left, RSnoc(rs, t.node, t.right), k)
  {
    if t.left.Br? && k >= t.left.node.key {
      LinkedLeftIs(ls, Splayed(t.left, k), t.node, t.right, rs);
    }
  }

  lemma RoundedLeftTwice(ls: LSpine, t: Tree, rs: RSpine, k: int)
    requires t.Br? && k < t.node.key && t.left.Br? && k < t.left.node.key
    ensures t.left.left.Leaf? ==> Rounded(true, ls, t, rs, ls, RotR(t), rs, k)
    ensures var u := RotR(t);
            t.left.left.Br? ==> Rounded(false, ls, t, rs, ls, u.left, RSnoc(rs, u.node, u.right), k)
  {
    if t.left.left.Br? {
      var u := RotR(t);
      LinkedLeftIs(ls, Splayed(u.left, k), u.node, u.right, rs);
    }
  }

  lemma RoundedRight(ls: LSpine, t: Tree, rs: RSpine, k: int)
    requires t.Br? && k > t.node.key
    ensures t.right.Leaf? ==> Rounded(true, ls, t, rs, ls, t, rs, k)
    ensures t.right.Br? && k <= t.right.node.key ==> Rounded(false, ls, t, rs, LSnoc(ls, t.left, t.node), t.right, rs, k)
  {
    if t.right.Br? && k <= t.right.node.key {
      LinkedRightIs(ls, t.left, t.node, Splayed(t.right, k), rs);
    }
  }

  lemma RoundedRightTwice(ls: LSpine, t: Tree, rs: RSpine, k: int)
    requires t.Br? && k > t.node.key && t.right.Br? && k > t.right.node.key
    ensures t.right.right.Leaf? ==> Rounded(true, ls, t, rs, ls, RotL(t), rs, k)
    ensures var u := RotL(t);
            t.right.right.Br? ==> Rounded(false, ls, t, rs, LSnoc(ls, u.left, u.node), u.right, rs, k)
  {
    if t.right.right.Br? {
      var u := RotL(t);
      LinkedRightIs(ls, u.left, u.node, Splayed(u.right, k), rs);
    }
  }

  /** SPLAY_HEAD; `mem` is the value the heap links hold, `work` counts the rounds of the splay loops. */
  class Head {
    var root: Node?
    ghost var mem: Mem
    ghost var shape: Tree
    ghost var work: nat

    /** SPLAY_INIT. */
    constructor ()
      ensures Valid() && shape == Leaf && work == 0
    {
      root, mem, shape, work := null, Mem(null, map[]), Leaf, 0;
    }

    ghost predicate Is()
      reads `root, `mem, mem.cells.Keys
    {
      && root == mem.root
      && forall n :: n in mem.cells ==> n.left == mem.cells[n].left && n.right == mem.cells[n].right
    }

    /** The structure is a search tree; Inorder(shape) lists its nodes. */
    ghost predicate Valid()
      reads this, mem.cells.Keys
    {
      Is() && Holds(mem, shape) && KeysAscend(Inorder(shape))
    }

    /** SPLAY_LEFT(n) = v. */
    method PutLeft(n: Node, v: Node?)
      requires Is() && n in mem.cells
      modifies `mem, n
      ensures Is() && mem == SetLeft(old(mem), n, v) && mem.cells.Keys == old(mem.cells.Keys)
    {
      n.left := v;
      mem := SetLeft(mem, n, v);
    }

    /** SPLAY_RIGHT(n) = v. */
    method PutRight(n: Node, v: Node?)
      requires Is() && n in mem.cells
      modifies `mem, n
      ensures Is() && mem == SetRight(old(mem), n, v) && mem.cells.Keys == old(mem.cells.Keys)
    {
      n.right := v;
      mem := SetRight(mem, n, v);
    }

    /** head->sph_root = v. */
    method PutRoot(v: Node?)
      requires Is()
      modifies `root, `mem
      ensures Is() && mem == old(mem).(root := v)
    {
      root, mem := v, mem.(root := v);
    }

    /** SPLAY_ROTATE_RIGHT. */
    method RotateRight(tmp: Node, ghost d: Node, ghost ls: LSpine, ghost t: Tree, ghost rs: RSpine)
      requires Is() && During(mem, d, ls, t, rs) && t.Br? && t.left.Br? && t.left.node == tmp
      modifies `root, `mem, mem.cells.Keys
      ensures Is() && During(mem, d, ls, RotR(t), rs) && mem.cells.Keys == old(mem.cells.Keys)
    {
      RotateRightShape(mem, d, ls, t.left.left, tmp, t.left.right, t.node, t.right, rs);
      assert tmp != t.node;
      PutLeft(root, tmp.right);
      PutRight(tmp, root);
      PutRoot(tmp);
    }

    /** SPLAY_ROTATE_LEFT. */
    method RotateLeft(tmp: Node, ghost d: Node, ghost ls: LSpine, ghost t: Tree, ghost rs: RSpine)
      requires Is() && During(mem, d, ls, t, rs) && t.Br? && t.right.Br? && t.right.node == tmp
      modifies `root, `mem, mem.cells.Keys
      ensures Is() && During(mem, d, ls, RotL(t), rs) && mem.cells.Keys == old(mem.cells.Keys)
    {
      RotateLeftShape(mem, d, ls, t.left, t.node, t.right.left, tmp, t.right.right, rs);
      assert tmp != t.node;
      PutRight(root, tmp.left);
      PutLeft(tmp, root);
      PutRoot(tmp);
    }

    /** SPLAY_LINKLEFT; returns the new end of the right spine. */
    method LinkLeft(tmp: Node, ghost d: Node, ghost ls: LSpine, ghost t: Tree, ghost rs: RSpine) returns (last: Node)
      requires Is() && During(mem, d, ls, t, rs) && t.Br? && tmp == RLast(rs, d)
      modifies `root, `mem, mem.cells.Keys
      ensures Is() && During(mem, d, ls, t.left, RSnoc(rs, t.node, t.right)) && last == t.node
      ensures mem.cells.Keys == old(mem.cells.Keys)
    {
      LinkLeftShape(mem, d, ls, t, rs);
      PutLeft(tmp, root);
      last := root;
      PutRoot(root.left);
    }

    /** SPLAY_LINKRIGHT; returns the new end of the left spine. */
    method LinkRight(tmp: Node, ghost d: Node, ghost ls: LSpine, ghost t: Tree, ghost rs: RSpine) returns (last: Node)
      requires Is() && During(mem, d, ls, t, rs) && t.Br? && tmp == LLast(ls, d)
      modifies `root, `mem, mem.cells.Keys
      ensures Is() && During(mem, d, LSnoc(ls, t.left, t.node), t.right, rs) && last == t.node
      ensures mem.cells.Keys == old(mem.cells.Keys)
    {
      LinkRightShape(mem, d, ls, t, rs);
      PutRight(tmp, root);
      last := root;
      PutRoot(root.right);
    }

    /** SPLAY_ASSEMBLE. */
    method Assemble(d: Node, left: Node, right: Node, ghost ls: LSpine, ghost t: Tree, ghost rs: RSpine)
      requires Is() && During(mem, d, ls, t, rs) && t.Br? && left == LLast(ls, d) && right == RLast(rs, d)
      modifies `root, `mem, mem.cells.Keys
      ensures Is() && root == t.node && mem.cells.Keys == old(mem.cells.Keys)
      ensures Sub(mem, Assembled(ls, t, rs)) && Sep(Assembled(ls, t, rs)) && d !in Nodes(Assembled(ls, t, rs))
    {
      AssembleShape(mem, d, ls, t, rs);
      PutRight(left, root.left);
      PutLeft(right, root.right);
      PutLeft(root, d.right);
      PutRight(root, d.left);
    }

    /** The dummy goes out of scope. */
    ghost method Forget(d: Node, s: Tree)
      requires Is() && Sub(mem, s) && d !in Nodes(s)
      modifies `mem
      ensures Is() && Sub(mem, s) && mem.root == old(mem.root) && mem.cells.Keys == old(mem.cells.Keys) - {d}
    {
      SubFrame(mem, mem.(cells := mem.cells - {d}), {d}, s);
      mem := mem.(cells := mem.cells - {d});
    }

    /** One round of the SPLAY loop when the searched key is smaller. */
    method RoundLeft(elm: Node, right: Node, ghost d: Node, ghost ls: LSpine, ghost t: Tree, ghost rs: RSpine)
      returns (stop: bool, right': Node, ghost t': Tree, ghost rs': RSpine)
      requires Is() && During(mem, d, ls, t, rs) && t.Br? && right == RLast(rs, d) && elm.key < t.node.key
      requires KeysAscend(Whole(ls, t, rs)) && Parted(ls, rs, elm.key)
      modifies `root, `mem, mem.cells.Keys
      ensures Is() && During(mem, d, ls, t', rs') && t'.Br? && right' == RLast(rs', d)
      ensures Whole(ls, t', rs') == Whole(ls, t, rs) && Parted(ls, rs', elm.key)
      ensures if stop then Stops(t', elm.key) else |Inorder(t')| < |Inorder(t)|
      ensures Rounded(stop, ls, t, rs, ls, t', rs', elm.key)
      ensures mem.cells.Keys == old(mem.cells.Keys)
    {
      right', t', rs' := right, t, rs;
      RoundedLeft(ls, t, rs, elm.key);
      var tmp := root.left;
      if tmp == null {
        return true, right', t', rs';
      }
      if elm.key < tmp.key {
        RoundedLeftTwice(ls, t, rs, elm.key);
        RotSame(t.left.left, tmp, t.left.right, t.node, t.right);
        RotateRight(tmp, d, ls, t, rs);
        t' := RotR(t);
        if root.left == null {
          return true, right', t', rs';
        }
      }
      PartedLink(ls, t', rs, elm.key);
      WholeLinkLeft(ls, t', rs);
      right' := LinkLeft(right, d, ls, t', rs);
      stop, t', rs' := false, t'.left, RSnoc(rs, t'.node, t'.right);
    }

    /** One round of the SPLAY loop when the searched key is greater. */
    method RoundRight(elm: Node, left: Node, ghost d: Node, ghost ls: LSpine, ghost t: Tree, ghost rs: RSpine)
      returns (stop: bool, left': Node, ghost t': Tree, ghost ls': LSpine)
      requires Is() && During(mem, d, ls, t, rs) && t.Br? && left == LLast(ls, d) && elm.key > t.node.key
      requires KeysAscend(Whole(ls, t, rs)) && Parted(ls, rs, elm.key)
      modifies `root, `mem, mem.cells.Keys
      ensures Is() && During(mem, d, ls', t', rs) && t'.Br? && left' == LLast(ls', d)
      ensures Whole(ls', t', rs) == Whole(ls, t, rs) && Parted(ls', rs, elm.key)
      ensures if stop then Stops(t', elm.key) else |Inorder(t')| < |Inorder(t)|
      ensures Rounded(stop, ls, t, rs, ls', t', rs, elm.key)
      ensures mem.cells.Keys == old(mem.cells.Keys)
    {
      left', t', ls' := left, t, ls;
      RoundedRight(ls, t, rs, elm.key);
      var tmp := root.right;
      if tmp == null {
        return true, left', t', ls';
      }
      if elm.key > tmp.key {
        RoundedRightTwice(ls, t, rs, elm.key);
        RotSame(t.left, t.node, t.right.left, tmp, t.right.right);
        RotateLeft(tmp, d, ls, t, rs);
        t' := RotL(t);
        if root.right == null {
          return true, left', t', ls';
        }
      }
      PartedLink(ls, t', rs, elm.key);
      WholeLinkRight(ls, t', rs);
      left' := LinkRight(left, d, ls, t', rs);
      stop, t', ls' := false, t'.right, LSnoc(ls, t'.left, t'.node);
    }

    /** A dummy node with two empty spines. */
    method Begin() returns (node: Node)
      requires Is() && Holds(mem, shape)
      modifies `mem
      ensures fresh(node) && Is() && During(mem, node, LNil, shape, RNil)
      ensures mem.cells.Keys == old(mem.cells.Keys) + {node}
    {
      node := new Node(0);
      mem := mem.(cells := mem.cells[node := Cell(null, null)]);
      SubFrame(old(mem), mem, {}, shape);
    }

    /** A splay in progress: the search for `k` in the tree of order `order` has come to `t`. */
    ghost predicate Busy(d: Node, left: Node, right: Node, ls: LSpine, t: Tree, rs: RSpine, order: seq<Node>, k: int)
      reads `root, `mem, mem.cells.Keys
    {
      && Is() && During(mem, d, ls, t, rs) && t.Br? && left == LLast(ls, d) && right == RLast(rs, d)
      && Whole(ls, t, rs) == order && Parted(ls, rs, k)
    }

    /** One round of the SPLAY loop. */
    method Round(elm: Node, left: Node, right: Node, ghost d: Node, ghost ls: LSpine, ghost t: Tree, ghost rs: RSpine,
                 ghost order: seq<Node>, ghost goal: Tree, ghost n: nat)
      returns (stop: bool, left': Node, right': Node, ghost ls': LSpine, ghost t': Tree, ghost rs': RSpine)
      requires Busy(d, left, right, ls, t, rs, order, elm.key) && elm.key != root.key && KeysAscend(order)
      requires Ahead(ls, t, rs, elm.key, goal, n)
      modifies `root, `mem, mem.cells.Keys
      ensures Busy(d, left', right', ls', t', rs', order, elm.key) && n >= 1
      ensures if stop then Stops(t', elm.key) && n == 1 && Assembled(ls', t', rs') == goal
              else |Inorder(t')| < |Inorder(t)| && Ahead(ls', t', rs', elm.key, goal, n - 1)
      ensures mem.cells.Keys == old(mem.cells.Keys)
    {
      left', right', ls', rs' := left, right, ls, rs;
      if elm.key < root.key {
        stop, right', t', rs' := RoundLeft(elm, right, d, ls, t, rs);
      } else {
        stop, left', t', ls' := RoundRight(elm, left, d, ls, t, rs);
      }
      AheadNext(stop, ls, t, rs, ls', t', rs', elm.key, goal, n);
    }

    /** The loop of SPLAY, from a dummy with two empty spines to the place where the search in `s` stops. */
    method Search(elm: Node, node: Node, ghost s: Tree, ghost order: seq<Node>, ghost goal: Tree, ghost n: nat)
      returns (left: Node, right: Node, ghost ls: LSpine, ghost t: Tree, ghost rs: RSpine, ghost rounds: nat)
      requires Busy(node, node, node, LNil, s, RNil, order, elm.key) && KeysAscend(order)
      requires Ahead(LNil, s, RNil, elm.key, goal, n)
      modifies `root, `mem, mem.cells.Keys
      ensures Busy(node, left, right, ls, t, rs, order, elm.key) && Stops(t, elm.key)
      ensures Assembled(ls, t, rs) == goal && rounds == n
      ensures mem.cells.Keys == old(mem.cells.Keys)
    {
      left, right, ls, t, rs, rounds := node, node, LNil, s, RNil, 0;
      while elm.key != root.key
        invariant Busy(node, left, right, ls, t, rs, order, elm.key)
        invariant rounds <= n && Ahead(ls, t, rs, elm.key, goal, n - rounds)
        invariant mem.cells.Keys == old(mem.cells.Keys)
        decreases |Inorder(t)|
      {
        var stop;
        stop, left, right, ls, t, rs := Round(elm, left, right, node, ls, t, rs, order, goal, n - rounds);
        rounds := rounds + 1;
        if stop {
          return;
        }
      }
      AheadAtKey(ls, t, rs, goal, n - rounds);
    }

    /** A splay towards `goal` in `n` rounds. */
    method Bring(elm: Node, ghost goal: Tree, ghost n: nat)
      requires Valid() && shape.Br? && Ahead(LNil, shape, RNil, elm.key, goal, n)
      modifies this, mem.cells.Keys
      ensures Is() && Holds(mem, shape) && Inorder(shape) == old(Inorder(shape)) && mem.cells.Keys == old(mem.cells.Keys)
      ensures shape == goal && shape.Br? && root == shape.node && Nearest(Inorder(shape), root, elm.key)
      ensures work == old(work) + n
    {
      var node := Begin();
      WholeAtStart(shape);
      ghost var ls, t, rs, rounds;
      var left, right;
      left, right, ls, t, rs, rounds := Search(elm, node, shape, Inorder(shape), goal, n);
      StopsNearest(LOrder(ls), t, ROrder(rs), elm.key);
      work := work + rounds;
      Finish(node, left, right, ls, t, rs, elm.key);
    }

    /** SPLAY: the node nearest to the key of `elm` becomes the root. */
    method Splay(elm: Node)
      requires Valid() && root != null
      modifies this, mem.cells.Keys
      ensures Valid() && Inorder(shape) == old(Inorder(shape)) && mem.cells.Keys == old(mem.cells.Keys)
      ensures root != null && shape.Br? && root == shape.node && Nearest(Inorder(shape), root, elm.key)
      ensures shape == Splayed(old(shape), elm.key) && work == old(work) + Rounds(old(shape), elm.key)
    {
      AheadAtStart(shape, elm.key);
      Bring(elm, Splayed(shape, elm.key), Rounds(shape, elm.key));
    }

    /** SPLAY_ASSEMBLE on a stopped splay. */
    method Finish(d: Node, left: Node, right: Node, ghost ls: LSpine, ghost t: Tree, ghost rs: RSpine, ghost k: int)
      requires Busy(d, left, right, ls, t, rs, Inorder(shape), k) && mem.cells.Keys == Nodes(shape) + {d} && d !in Nodes(shape)
      modifies `root, `mem, `shape, mem.cells.Keys
      ensures Is() && Holds(mem, shape) && shape == Assembled(ls, t, rs) && shape.Br? && root == shape.node == t.node
      ensures Inorder(shape) == old(Inorder(shape)) && mem.cells.Keys == old(mem.cells.Keys) - {d}
    {
      ghost var s := SameAssembled(ls, t, rs, shape);
      Assemble(d, left, right, ls, t, rs);
      Forget(d, s);
      shape := s;
    }

    /** SPLAY_FIND. */
    method Find(elm: Node) returns (res: Node?)
      requires Valid()
      modifies this, mem.cells.Keys
      ensures Valid() && Inorder(shape) == old(Inorder(shape))
      ensures res != null ==> res in Inorder(shape) && res.key == elm.key && res == root
      ensures res == null ==> forall n :: n in Inorder(shape) ==> n.key != elm.key
      ensures Affords(old(shape), old(work), shape, work)
    {
      if root == null {
        return null;
      }
      SplayAffords(shape, elm.key, work);
      Splay(elm);
      if elm.key == root.key {
        return root;
      }
      return null;
    }

    /** Initialise the links of a node outside the tree. */
    method PutEntry(n: Node, left: Node?, right: Node?)
      requires Is() && n !in mem.cells
      modifies `mem, n
      ensures Is() && mem == Add(old(mem), n, Cell(left, right))
    {
      n.left, n.right := left, right;
      mem := Add(mem, n, Cell(left, right));
    }

    /** SPLAY_INSERT; `a` and `b` are the nodes below and above the new one. */
    method Insert(elm: Node) returns (res: Node?, ghost a: seq<Node>, ghost b: seq<Node>)
      requires Valid()
      modifies this, mem.cells.Keys, elm
      ensures Valid()
      ensures res != null ==> res in Inorder(shape) && res.key == elm.key && Inorder(shape) == old(Inorder(shape))
      ensures res == null ==> forall n :: n in old(Inorder(shape)) ==> n.key != elm.key
      ensures res == null ==> old(Inorder(shape)) == a + b && Inorder(shape) == a + [elm] + b
      ensures res == null ==> root == elm
      ensures Affords(old(shape), old(work), shape, work)
    {
      if root == null {
        res, a, b := null, [], [];
        FirstAffords(elm, work);
        InsertFirst(elm);
      } else {
        InsertAffords(shape, elm, work);
        res, a, b := InsertNext(elm);
      }
    }

    /** SPLAY_INSERT into a tree with nodes. */
    method InsertNext(elm: Node) returns (res: Node?, ghost a: seq<Node>, ghost b: seq<Node>)
      requires Valid() && root != null
      modifies this, mem.cells.Keys, elm
      ensures Valid()
      ensures res != null ==> res in Inorder(shape) && res.key == elm.key && Inorder(shape) == old(Inorder(shape))
      ensures res == null ==> forall n :: n in old(Inorder(shape)) ==> n.key != elm.key
      ensures res == null ==> old(Inorder(shape)) == a + b && Inorder(shape) == a + [elm] + b
      ensures res == null ==> root == elm
      ensures shape == Placed(Splayed(old(shape), elm.key), elm) && work == old(work) + Rounds(old(shape), elm.key)
    {
      Splay(elm);
      res, a, b := Place(elm);
    }

    /** The new node goes above the root of the splayed tree, unless that holds its key. */
    method Place(elm: Node) returns (res: Node?, ghost a: seq<Node>, ghost b: seq<Node>)
      requires Valid() && shape.Br? && Nearest(Inorder(shape), shape.node, elm.key)
      modifies `root, `mem, `shape, mem.cells.Keys, elm
      ensures Valid() && shape == Placed(old(shape), elm)
      ensures res != null ==> res in Inorder(shape) && res.key == elm.key && Inorder(shape) == old(Inorder(shape))
      ensures res == null ==> forall n :: n in old(Inorder(shape)) ==> n.key != elm.key
      ensures res == null ==> old(Inorder(shape)) == a + b && Inorder(shape) == a + [elm] + b
      ensures res == null ==> root == elm
    {
      res, a, b := null, [], [];
      var comp := elm.key - root.key;
      if comp == 0 {
        return root, a, b;
      }
      Absent(mem, shape, elm);
      if comp < 0 {
        a, b := Inorder(shape.left), [root] + Inorder(shape.right);
        InsertBelow(elm);
      } else {
        a, b := Inorder(shape.left) + [root], Inorder(shape.right);
        InsertAbove(elm);
      }
    }

    method InsertFirst(elm: Node)
      requires Valid() && root == null
      modifies `root, `mem, `shape, elm
      ensures Valid() && root == elm && old(Inorder(shape)) == [] && Inorder(shape) == [elm]
      ensures old(shape) == Leaf && shape == Br(Leaf, elm, Leaf)
    {
      PutEntry(elm, null, null);
      PutRoot(elm);
      assert mem == Mem(elm, map[elm := Cell(null, null)]);
      assert Sub(mem, Br(Leaf, elm, Leaf)) && Sep(Br(Leaf, elm, Leaf));
      assert mem.cells.Keys == Nodes(Br(Leaf, elm, Leaf));
      shape := Br(Leaf, elm, Leaf);
    }

    method InsertBelow(elm: Node)
      requires Valid() && shape.Br? && elm !in mem.cells && elm.key < shape.node.key
      requires Nearest(Inorder(shape), shape.node, elm.key)
      modifies `root, `mem, `shape, mem.cells.Keys, elm
      ensures Valid() && root == elm && shape == Br(old(shape.left), elm, Br(Leaf, old(shape.node), old(shape.right)))
      ensures (var l, h := old(Inorder(shape.left)), [old(shape.node)] + old(Inorder(shape.right));
               old(Inorder(shape)) == l + h && Inorder(shape) == l + [elm] + h)
    {
      InsertBelowShape(mem, shape.left, shape.node, shape.right, elm);
      InsertBelowOrder(shape.left, shape.node, shape.right, elm);
      PutEntry(elm, root.left, root);
      PutLeft(root, null);
      PutRoot(elm);
      shape := Br(shape.left, elm, Br(Leaf, shape.node, shape.right));
    }

    method InsertAbove(elm: Node)
      requires Valid() && shape.Br? && elm !in mem.cells && elm.key > shape.node.key
      requires Nearest(Inorder(shape), shape.node, elm.key)
      modifies `root, `mem, `shape, mem.cells.Keys, elm
      ensures Valid() && root == elm && shape == Br(Br(old(shape.left), old(shape.node), Leaf), elm, old(shape.right))
      ensures (var l, h := old(Inorder(shape.left)) + [old(shape.node)], old(Inorder(shape.right));
               old(Inorder(shape)) == l + h && Inorder(shape) == l + [elm] + h)
    {
      InsertAboveShape(mem, shape.left, shape.node, shape.right, elm);
      InsertAboveOrder(shape.left, shape.node, shape.right, elm);
      PutEntry(elm, root, root.right);
      PutRight(root, null);
      PutRoot(elm);
      shape := Br(Br(shape.left, shape.node, Leaf), elm, shape.right);
    }

    /** SPLAY_REMOVE; `x` is the node taken out, between `a` and `b`. */
    method Remove(elm: Node) returns (res: Node?, ghost a: seq<Node>, ghost x: Node, ghost b: seq<Node>)
      requires Valid()
      modifies this, mem.cells.Keys
      ensures Valid()
      ensures res == null ==> (forall n :: n in old(Inorder(shape)) ==> n.key != elm.key) && Inorder(shape) == old(Inorder(shape))
      ensures res != null ==> res == elm && x.key == elm.key
      ensures res != null ==> old(Inorder(shape)) == a + [x] + b && Inorder(shape) == a + b
      ensures Affords(old(shape), old(work), shape, work)
    {
      res, a, x, b := null, [], elm, [];
      if root == null {
        return;
      }
      ghost var t, w := shape, work;
      SplayAffords(t, elm.key, w);
      Splay(elm);
      if elm.key == root.key {
        a, x, b := Inorder(shape.left), shape.node, Inorder(shape.right);
        RemoveRoot(elm);
        RemoveAffords(t, elm.key, w);
        res := elm;
      }
    }

    /** SPLAY_REMOVE once the node has been splayed to the root. */
    method RemoveRoot(elm: Node)
      requires Valid() && shape.Br? && elm.key == shape.node.key
      modifies this, mem.cells.Keys
      ensures Valid() && Inorder(shape) == old(Inorder(shape.left)) + old(Inorder(shape.right))
      ensures old(shape.left.Br?) ==> Splayed(old(shape.left), elm.key).right.Leaf?
      ensures shape == Joined(old(shape), elm.key) && work == old(work) + JoinRounds(old(shape), elm.key)
    {
      SortedRemove(Inorder(shape.left), shape.node, Inorder(shape.right));
      if root.left == null {
        assert Inorder(shape.left) + Inorder(shape.right) == Inorder(shape.right);
        PromoteRight();
      } else {
        JoinSubtrees(elm);
      }
    }

    /** The left subtree is splayed and takes the right one. */
    method JoinSubtrees(elm: Node)
      requires Valid() && shape.Br? && shape.left.Br? && elm.key == shape.node.key
      modifies this, mem.cells.Keys
      ensures Is() && Holds(mem, shape) && Inorder(shape) == old(Inorder(shape.left)) + old(Inorder(shape.right))
      ensures Splayed(old(shape.left), elm.key).right.Leaf?
      ensures shape == Joined(old(shape), elm.key) && work == old(work) + JoinRounds(old(shape), elm.key)
    {
      var tmp := root.right;
      ghost var h := shape.right;
      ghost var other := PromoteLeft(elm.key);
      Splay(elm);
      NoRightChild(shape, elm.key);
      Join(tmp, h, other);
    }

    /** The root, which has no left child, is replaced by its right child. */
    method PromoteRight()
      requires Valid() && shape.Br? && shape.left.Leaf?
      modifies `root, `mem, `shape
      ensures Is() && Holds(mem, shape) && shape == old(shape.right)
    {
      PartHolds(mem, shape.right);
      PutRoot(root.right);
      mem, shape := Part(mem, shape.right), shape.right;
    }

    /** Cells that lie outside the tree, but still in the heap. */
    ghost predicate Aside(other: Mem)
      reads other.cells.Keys
    {
      forall n :: n in other.cells ==> n.left == other.cells[n].left && n.right == other.cells[n].right
    }

    /** The root is replaced by its left child; its right subtree is put aside. */
    method PromoteLeft(k: int) returns (ghost other: Mem)
      requires Valid() && shape.Br? && shape.left.Br? && k == shape.node.key
      modifies `root, `mem, `shape
      ensures Valid() && shape == old(shape.left) && mem.cells.Keys <= old(mem.cells.Keys)
      ensures AllBelow(Inorder(shape), k)
      ensures Holds(other, old(shape.right)) && Aside(other) && mem.cells.Keys !! other.cells.Keys
      ensures other.cells.Keys <= old(mem.cells.Keys)
    {
      PartHolds(mem, shape.left);
      PartHolds(mem, shape.right);
      SortedParts(Inorder(shape.left), shape.node, Inorder(shape.right));
      PutRoot(root.left);
      other := Part(mem, shape.right);
      mem, shape := Part(mem, shape.left), shape.left;
    }

    /** The subtree put aside goes below the root. */
    method Join(tmp: Node?, ghost h: Tree, ghost other: Mem)
      requires Valid() && shape.Br? && shape.right.Leaf? && tmp == Root(h)
      requires Holds(other, h) && Aside(other) && mem.cells.Keys !! other.cells.Keys
      modifies `root, `mem, `shape, mem.cells.Keys
      ensures shape == old(shape).(right := h)
      ensures Is() && Holds(mem, shape) && Inorder(shape) == old(Inorder(shape)) + Inorder(h)
    {
      JoinShape(mem, shape.left, shape.node, other, h);
      mem := Union(mem, other);
      PutRight(root, tmp);
      assert Inorder(shape) == Inorder(shape.left) + [shape.node];
      shape := shape.(right := h);
    }

    /** One round of SPLAY_MINMAX towards the minimum; `k` is below every key. */
    method RoundMin(right: Node, ghost k: int, ghost d: Node, ghost ls: LSpine, ghost t: Tree, ghost rs: RSpine)
      returns (stop: bool, right': Node, ghost t': Tree, ghost rs': RSpine)
      requires Is() && During(mem, d, ls, t, rs) && t.Br? && right == RLast(rs, d)
      requires KeysAscend(Whole(ls, t, rs)) && Parted(ls, rs, k) && AllAbove(Whole(ls, t, rs), k)
      modifies `root, `mem, mem.cells.Keys
      ensures Is() && During(mem, d, ls, t', rs') && t'.Br? && right' == RLast(rs', d)
      ensures Whole(ls, t', rs') == Whole(ls, t, rs) && Parted(ls, rs', k)
      ensures if stop then t'.left.Leaf? else |Inorder(t')| < |Inorder(t)|
      ensures Rounded(stop, ls, t, rs, ls, t', rs', k)
      ensures mem.cells.Keys == old(mem.cells.Keys)
    {
      right', t', rs' := right, t, rs;
      RootInWhole(ls, t, rs);
      RoundedLeft(ls, t, rs, k);
      var tmp := root.left;
      if tmp == null {
        return true, right', t', rs';
      }
      ChildInWhole(ls, t, rs);
      RoundedLeftTwice(ls, t, rs, k);
      RotSame(t.left.left, tmp, t.left.right, t.node, t.right);
      RotateRight(tmp, d, ls, t, rs);
      t' := RotR(t);
      if root.left == null {
        return true, right', t', rs';
      }
      RootInWhole(ls, t', rs);
      PartedLink(ls, t', rs, k);
      WholeLinkLeft(ls, t', rs);
      right' := LinkLeft(right, d, ls, t', rs);
      stop, t', rs' := false, t'.left, RSnoc(rs, t'.node, t'.right);
    }

    /** One round of SPLAY_MINMAX towards the maximum; `k` is above every key. */
    method RoundMax(left: Node, ghost k: int, ghost d: Node, ghost ls: LSpine, ghost t: Tree, ghost rs: RSpine)
      returns (stop: bool, left': Node, ghost t': Tree, ghost ls': LSpine)
      requires Is() && During(mem, d, ls, t, rs) && t.Br? && left == LLast(ls, d)
      requires KeysAscend(Whole(ls, t, rs)) && Parted(ls, rs, k) && AllBelow(Whole(ls, t, rs), k)
      modifies `root, `mem, mem.cells.Keys
      ensures Is() && During(mem, d, ls', t', rs) && t'.Br? && left' == LLast(ls', d)
      ensures Whole(ls', t', rs) == Whole(ls, t, rs) && Parted(ls', rs, k)
      ensures if stop then t'.right.Leaf? else |Inorder(t')| < |Inorder(t)|
      ensures Rounded(stop, ls, t, rs, ls', t', rs, k)
      ensures mem.cells.Keys == old(mem.cells.Keys)
    {
      left', t', ls' := left, t, ls;
      RootInWhole(ls, t, rs);
      RoundedRight(ls, t, rs, k);
      var tmp := root.right;
      if tmp == null {
        return true, left', t', ls';
      }
      ChildInWhole(ls, t, rs);
      RoundedRightTwice(ls, t, rs, k);
      RotSame(t.left, t.node, t.right.left, tmp, t.right.right);
      RotateLeft(tmp, d, ls, t, rs);
      t' := RotL(t);
      if root.right == null {
        return true, left', t', ls';
      }
      RootInWhole(ls, t', rs);
      PartedLink(ls, t', rs, k);
      WholeLinkRight(ls, t', rs);
      left' := LinkRight(left, d, ls, t', rs);
      stop, t', ls' := false, t'.right, LSnoc(ls, t'.left, t'.node);
    }

    /** One round of SPLAY_MINMAX. */
    method RoundMinMax(comp: int, left: Node, right: Node, ghost k: int, ghost d: Node, ghost ls: LSpine, ghost t: Tree,
                       ghost rs: RSpine, ghost order: seq<Node>, ghost goal: Tree, ghost n: nat)
      returns (stop: bool, left': Node, right': Node, ghost ls': LSpine, ghost t': Tree, ghost rs': RSpine)
      requires Busy(d, left, right, ls, t, rs, order, k) && KeysAscend(order) && Extreme(order, k, comp)
      requires Ahead(ls, t, rs, k, goal, n)
      modifies `root, `mem, mem.cells.Keys
      ensures Busy(d, left', right', ls', t', rs', order, k) && n >= 1
      ensures if stop then AtEnd(t', comp) && n == 1 && Assembled(ls', t', rs') == goal
              else |Inorder(t')| < |Inorder(t)| && Ahead(ls', t', rs', k, goal, n - 1)
      ensures mem.cells.Keys == old(mem.cells.Keys)
    {
      left', right', ls', rs' := left, right, ls, rs;
      if comp < 0 {
        stop, right', t', rs' := RoundMin(right, k, d, ls, t, rs);
      } else {
        stop, left', t', ls' := RoundMax(left, k, d, ls, t, rs);
      }
      AheadNext(stop, ls, t, rs, ls', t', rs', k, goal, n);
    }

    /** The loop of SPLAY_MINMAX. */
    method SearchMinMax(comp: int, node: Node, ghost k: int, ghost s: Tree, ghost order: seq<Node>, ghost goal: Tree,
                        ghost n: nat)
      returns (left: Node, right: Node, ghost ls: LSpine, ghost t: Tree, ghost rs: RSpine, ghost rounds: nat)
      requires Busy(node, node, node, LNil, s, RNil, order, k) && KeysAscend(order) && Extreme(order, k, comp)
      requires Ahead(LNil, s, RNil, k, goal, n)
      modifies `root, `mem, mem.cells.Keys
      ensures Busy(node, left, right, ls, t, rs, order, k) && order != [] && t.node == End(order, comp)
      ensures Assembled(ls, t, rs) == goal && rounds == n
      ensures mem.cells.Keys == old(mem.cells.Keys)
    {
      left, right, ls, t, rs, rounds := node, node, LNil, s, RNil, 0;
      while true
        invariant Busy(node, left, right, ls, t, rs, order, k)
        invariant rounds <= n && Ahead(ls, t, rs, k, goal, n - rounds)
        invariant mem.cells.Keys == old(mem.cells.Keys)
        decreases |Inorder(t)|
      {
        var stop;
        stop, left, right, ls, t, rs := RoundMinMax(comp, left, right, k, node, ls, t, rs, order, goal, n - rounds);
        rounds := rounds + 1;
        if stop {
          EndOfWhole(ls, t, rs, k, comp);
          return;
        }
      }
    }

    /** A splay towards `goal` in `n` rounds. */
    method BringMinMax(comp: int, ghost k: int, ghost goal: Tree, ghost n: nat)
      requires Valid() && shape.Br? && comp != 0 && Extreme(Inorder(shape), k, comp)
      requires Ahead(LNil, shape, RNil, k, goal, n)
      modifies this, mem.cells.Keys
      ensures Is() && Holds(mem, shape) && Inorder(shape) == old(Inorder(shape)) && mem.cells.Keys == old(mem.cells.Keys)
      ensures shape == goal && Inorder(shape) != [] && work == old(work) + n
      ensures root == End(Inorder(shape), comp)
    {
      var node := Begin();
      WholeAtStart(shape);
      ghost var ls, t, rs, rounds;
      var left, right;
      left, right, ls, t, rs, rounds := SearchMinMax(comp, node, k, shape, Inorder(shape), goal, n);
      work := work + rounds;
      Finish(node, left, right, ls, t, rs, k);
    }

    /** SPLAY_MINMAX: the smallest (or greatest) node becomes the root, as in a splay for a key `k` beyond it. */
    method MinMax(comp: int) returns (ghost k: int)
      requires Valid() && root != null && comp != 0
      modifies this, mem.cells.Keys
      ensures Valid() && Inorder(shape) == old(Inorder(shape)) && Inorder(shape) != []
      ensures mem.cells.Keys == old(mem.cells.Keys)
      ensures root == End(Inorder(shape), comp)
      ensures old(shape.Br?) && shape == Splayed(old(shape), k) && work == old(work) + Rounds(old(shape), k)
    {
      k := Beyond(Inorder(shape), comp);
      AheadAtStart(shape, k);
      BringMinMax(comp, k, Splayed(shape, k), Rounds(shape, k));
    }

    /** SPLAY_NEXT; `i` is the place of `elm` in key order. */
    method Next(elm: Node, ghost i: nat) returns (res: Node?)
      requires Valid() && i < |Inorder(shape)| && Inorder(shape)[i] == elm
      modifies this, mem.cells.Keys
      ensures Valid() && Inorder(shape) == old(Inorder(shape)) && mem.cells.Keys == old(mem.cells.Keys)
      ensures res == if i + 1 < |Inorder(shape)| then Inorder(shape)[i + 1] else null
    {
      assert root != null;
      Splay(elm);
      NextInOrder(shape, elm, i);
      if elm.right != null {
        res := First(elm.right, shape.right);
      } else {
        res := null;
      }
    }

    /** The leftmost node of a subtree. */
    method First(start: Node, ghost s: Tree) returns (elm: Node)
      requires Is() && Sub(mem, s) && s.Br? && s.node == start
      ensures Inorder(s) != [] && elm == Inorder(s)[0]
    {
      elm := start;
      ghost var t := s;
      while elm.left != null
        invariant Sub(mem, t) && t.Br? && t.node == elm && Inorder(t)[0] == Inorder(s)[0]
        decreases t
      {
        elm := elm.left;
        t := t.left;
      }
    }

    /** SPLAY_MIN. */
    method Min() returns (x: Node?)
      requires Valid()
      modifies this, mem.cells.Keys
      ensures Valid() && Inorder(shape) == old(Inorder(shape)) && mem.cells.Keys == old(mem.cells.Keys)
      ensures x == if Inorder(shape) == [] then null else Inorder(shape)[0]
    {
      if root == null {
        return null;
      }
      ghost var k := MinMax(-1);
      return root;
    }

    /** One round of SPLAY_FOREACH. */
    method Visit(n: Node, visited: seq<Node>, ghost order: seq<Node>) returns (visited': seq<Node>, x: Node?)
      requires Valid() && Inorder(shape) == order && |visited| < |order| && visited == order[..|visited|]
      requires n == order[|visited|]
      modifies this, mem.cells.Keys
      ensures Valid() && Inorder(shape) == order && mem.cells.Keys == old(mem.cells.Keys)
      ensures |visited'| == |visited| + 1 && visited' == order[..|visited'|]
      ensures x == if |visited'| < |order| then order[|visited'|] else null
    {
      visited' := visited + [n];
      x := Next(n, |visited|);
    }

    /** SPLAY_FOREACH: the nodes visited from SPLAY_MIN by repeated SPLAY_NEXT. */
    method Traverse() returns (visited: seq<Node>)
      requires Valid()
      modifies this, mem.cells.Keys
      ensures Valid() && Inorder(shape) == old(Inorder(shape)) && visited == Inorder(shape)
    {
      visited := [];
      ghost var order := Inorder(shape);
      var x := Min();
      while x != null
        invariant Valid() && Inorder(shape) == order && mem.cells.Keys == old(mem.cells.Keys)
        invariant |visited| <= |order| && visited == order[..|visited|]
        invariant x == if |visited| < |order| then order[|visited|] else null
        decreases |order| - |visited|
      {
        visited, x := Visit(x, visited, order);
      }
    }
  }

  /** `k` lies beyond all keys, on the side of the minimum or of the maximum. */
  ghost predicate Extreme(s: seq<Node>, k: int, comp: int) {
    if comp < 0 then AllAbove(s, k) else AllBelow(s, k)
  }

  /** The first or the last node. */
  ghost function End(s: seq<Node>, comp: int): Node
    requires s != []
  {
    s[if comp < 0 then 0 else |s| - 1]
  }

  ghost predicate AtEnd(t: Tree, comp: int)
    requires t.Br?
  {
    if comp < 0 then t.left.Leaf? else t.right.Leaf?
  }

  lemma ChildInWhole(ls: LSpine, t: Tree, rs: RSpine)
    requires t.Br?
    ensures t.left.Br? ==> t.left.node in Whole(ls, t, rs)
    ensures t.right.Br? ==> t.right.node in Whole(ls, t, rs)
  {
    if t.left.Br? {
      assert t.left.node in Inorder(t.left) && t.left.node in Inorder(t);
    }
    if t.right.Br? {
      assert t.right.node in Inorder(t.right) && t.right.node in Inorder(t);
    }
  }

  lemma RootInWhole(ls: LSpine, t: Tree, rs: RSpine)
    requires t.Br?
    ensures t.node in Whole(ls, t, rs)
  {
    assert t.node in Inorder(t);
  }

  /** A key below all others (or above all others). */
  lemma Beyond(s: seq<Node>, comp: int) returns (k: int)
    ensures Extreme(s, k, comp)
  {
    if s == [] {
      k := 0;
    } else {
      var k' := Beyond(s[1..], comp);
      assert s == [s[0]] + s[1..];
      if comp < 0 {
        k := if s[0].key <= k' then s[0].key - 1 else k';
      } else {
        k := if s[0].key >= k' then s[0].key + 1 else k';
      }
    }
  }

  /** When the root of the middle tree has no smaller (or greater) child left, it is the extreme node. */
  lemma EndOfWhole(ls: LSpine, t: Tree, rs: RSpine, k: int, comp: int)
    requires t.Br? && Parted(ls, rs, k) && AtEnd(t, comp) && Extreme(Whole(ls, t, rs), k, comp)
    ensures Whole(ls, t, rs) != [] && t.node == End(Whole(ls, t, rs), comp)
  {
    WholeSplit(ls, t, rs);
    SpineEmpty(ls, t, rs, k);
  }

  lemma SpineEmpty(ls: LSpine, t: Tree, rs: RSpine, k: int)
    requires Parted(ls, rs, k)
    ensures AllAbove(Whole(ls, t, rs), k) ==> LOrder(ls) == []
    ensures AllBelow(Whole(ls, t, rs), k) ==> ROrder(rs) == []
  {
    assert ls.LSnoc? ==> ls.node in LOrder(ls) && ls.node in Whole(ls, t, rs);
    assert rs.RSnoc? ==> rs.node in ROrder(rs) && rs.node in Whole(ls, t, rs);
  }

  lemma NextInOrder(t: Tree, n: Node, i: nat)
    requires t.Br? && KeysAscend(Inorder(t)) && i < |Inorder(t)| && Inorder(t)[i] == n
    requires Nearest(Inorder(t), t.node, n.key)
    ensures t.node == n && Inorder(t)[i + 1..] == Inorder(t.right)
    ensures i + 1 < |Inorder(t)| ==> t.right.Br? && Inorder(t)[i + 1] == Inorder(t.right)[0]
    ensures i + 1 >= |Inorder(t)| ==> t.right.Leaf?
  {
    var s, j := Inorder(t), |Inorder(t.left)|;
    assert s[j] == t.node;
    assert n in s && t.node.key == n.key;
    assert i == j;
    assert s[j + 1..] == Inorder(t.right);
  }

  lemma Absent(m: Mem, t: Tree, n: Node)
    requires Holds(m, t) && t.Br? && Nearest(Inorder(t), t.node, n.key) && t.node.key != n.key
    ensures n !in m.cells && forall x :: x in Inorder(t) ==> x.key != n.key
  {
    InorderNodes(t);
  }
}
