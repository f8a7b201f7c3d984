/** Shapes of splay trees, and the two hanging spines that top-down splaying
    builds to the left and to the right of the tree it is searching. */
module SplayShape {

  /** struct with a SPLAY_ENTRY field; the comparison function is `<` on keys. */
  class Node {
    const key: int
    var left: Node?
    var right: Node?

    constructor (key: int)
      ensures this.key == key && left == null && right == null
    {
      this.key := key;
      left, right := null, null;
    }
  }

  datatype Tree = Leaf | Br(left: Tree, node: Node, right: Tree)

  /** Nodes smaller than the searched key, linked through their right children;
      the last one's right child is still to be filled. */
  datatype LSpine = LNil | LSnoc(init: LSpine, left: Tree, node: Node)

  /** Nodes greater than the searched key, linked through their left children. */
  datatype RSpine = RNil | RSnoc(init: RSpine, node: Node, right: Tree)

  ghost function Root(t: Tree): Node? {
    if t.Leaf? then null else t.node
  }

  ghost function Nodes(t: Tree): set<Node> {
    if t.Leaf? then {} else Nodes(t.left) + {t.node} + Nodes(t.right)
  }

  ghost function LNodes(ls: LSpine): set<Node> {
    if ls.LNil? then {} else LNodes(ls.init) + {ls.node} + Nodes(ls.left)
  }

  ghost function RNodes(rs: RSpine): set<Node> {
    if rs.RNil? then {} else RNodes(rs.init) + {rs.node} + Nodes(rs.right)
  }

  ghost predicate Sep(t: Tree) {
    t.Br? ==>
      && t.node !in Nodes(t.left) && t.node !in Nodes(t.right)
      && Nodes(t.left) !! Nodes(t.right)
      && Sep(t.left) && Sep(t.right)
  }

  ghost predicate LSep(ls: LSpine) {
    ls.LSnoc? ==>
      && {ls.node} !! Nodes(ls.left) !! LNodes(ls.init)
      && Sep(ls.left) && LSep(ls.init)
  }

  ghost predicate RSep(rs: RSpine) {
    rs.RSnoc? ==>
      && {rs.node} !! Nodes(rs.right) !! RNodes(rs.init)
      && Sep(rs.right) && RSep(rs.init)
  }

  ghost function Inorder(t: Tree): seq<Node> {
    if t.Leaf? then [] else Inorder(t.left) + [t.node] + Inorder(t.right)
  }

  ghost function LOrder(ls: LSpine): seq<Node> {
    if ls.LNil? then [] else LOrder(ls.init) + Inorder(ls.left) + [ls.node]
  }

  ghost function ROrder(rs: RSpine): seq<Node> {
    if rs.RNil? then [] else [rs.node] + Inorder(rs.right) + ROrder(rs.init)
  }

  /** The left spine with its open link filled by `t`. */
  ghost function FillL(ls: LSpine, t: Tree): Tree {
    if ls.LNil? then t else FillL(ls.init, Br(ls.left, ls.node, t))
  }

  ghost function FillR(rs: RSpine, t: Tree): Tree {
    if rs.RNil? then t else FillR(rs.init, Br(t, rs.node, rs.right))
  }

  ghost function RotL(t: Tree): Tree
    requires t.Br? && t.right.Br?
  {
    Br(Br(t.left, t.node, t.right.left), t.right.node, t.right.right)
  }

  ghost function RotR(t: Tree): Tree
    requires t.Br? && t.left.Br?
  {
    Br(t.left.left, t.left.node, Br(t.left.right, t.node, t.right))
  }

  ghost predicate KeysAscend(s: seq<Node>) {
    forall i, j :: 0 <= i < j < |s| ==> s[i].key < s[j].key
  }

  ghost predicate AllBelow(s: seq<Node>, k: int) {
    forall n :: n in s ==> n.key < k
  }

  ghost predicate AllAbove(s: seq<Node>, k: int) {
    forall n :: n in s ==> n.key > k
  }

  /** Where the search for `k` stops: at the key, or where the next link is missing. */
  ghost predicate Stops(t: Tree, k: int) {
    && t.Br?
    && (k < t.node.key ==> t.left.Leaf?)
    && (k > t.node.key ==> t.right.Leaf?)
  }

  /** `r` holds `k` if any node does; otherwise no key lies strictly between. */
  ghost predicate Nearest(s: seq<Node>, r: Node, k: int) {
    && r in s
    && ((exists n :: n in s && n.key == k) ==> r.key == k)
    && forall n :: n in s ==> !(k < n.key < r.key) && !(r.key < n.key < k)
  }

  // ------------------------------------------------------------- lemmas

  lemma RotSame(a: Tree, x: Node, b: Tree, y: Node, d: Tree)
    ensures (var l, r := Br(a, x, Br(b, y, d)), Br(Br(a, x, b), y, d);
             Nodes(l) == Nodes(r) && (Sep(l) <==> Sep(r)) && Inorder(l) == Inorder(r))
  {
    assert Inorder(a) + [x] + (Inorder(b) + [y] + Inorder(d)) == Inorder(a) + [x] + Inorder(b) + [y] + Inorder(d);
  }

  lemma Regroup(p: seq<Node>, q: seq<Node>, u: seq<Node>, v: seq<Node>)
    ensures (p + q + u) + v == p + (q + u + v)
  {
  }

  lemma {:induction false} FillLOrder(ls: LSpine, t: Tree)
    ensures Inorder(FillL(ls, t)) == LOrder(ls) + Inorder(t)
  {
    if ls.LSnoc? {
      FillLOrder(ls.init, Br(ls.left, ls.node, t));
      Regroup(LOrder(ls.init), Inorder(ls.left), [ls.node], Inorder(t));
    }
  }

  lemma {:induction false} FillROrder(rs: RSpine, t: Tree)
    ensures Inorder(FillR(rs, t)) == Inorder(t) + ROrder(rs)
  {
    if rs.RSnoc? {
      FillROrder(rs.init, Br(t, rs.node, rs.right));
      Regroup(Inorder(t), [rs.node], Inorder(rs.right), ROrder(rs.init));
    }
  }

  lemma {:induction false} FillLSep(ls: LSpine, t: Tree)
    requires LSep(ls) && Sep(t) && Nodes(t) !! LNodes(ls)
    ensures Sep(FillL(ls, t)) && Nodes(FillL(ls, t)) == LNodes(ls) + Nodes(t)
  {
    if ls.LSnoc? {
      FillLSep(ls.init, Br(ls.left, ls.node, t));
    }
  }

  lemma {:induction false} FillRSep(rs: RSpine, t: Tree)
    requires RSep(rs) && Sep(t) && Nodes(t) !! RNodes(rs)
    ensures Sep(FillR(rs, t)) && Nodes(FillR(rs, t)) == RNodes(rs) + Nodes(t)
  {
    if rs.RSnoc? {
      FillRSep(rs.init, Br(t, rs.node, rs.right));
    }
  }

  lemma SortedParts(a: seq<Node>, x: Node, b: seq<Node>)
    requires KeysAscend(a + [x] + b)
    ensures AllBelow(a, x.key) && AllAbove(b, x.key) && KeysAscend(a) && KeysAscend(b)
  {
    var s := a + [x] + b;
    assert s[|a|] == x && s[..|a|] == a && s[|a| + 1..] == b;
    forall n | n in a
      ensures n.key < x.key
    {
      var j :| 0 <= j < |a| && a[j] == n;
      assert s[j] == n;
    }
    forall n | n in b
      ensures n.key > x.key
    {
      var j :| 0 <= j < |b| && b[j] == n;
      assert s[|a| + 1 + j] == n;
    }
    forall i, j | 0 <= i < j < |b|
      ensures b[i].key < b[j].key
    {
      assert s[|a| + 1 + i] == b[i] && s[|a| + 1 + j] == b[j];
    }
  }

  /** The stopping place between the two spines is nearest to `k`. */
  lemma StopsNearest(l: seq<Node>, t: Tree, r: seq<Node>, k: int)
    requires Stops(t, k) && KeysAscend(l + Inorder(t) + r) && AllBelow(l, k) && AllAbove(r, k)
    ensures Nearest(l + Inorder(t) + r, t.node, k)
  {
    var a, b := l + Inorder(t.left), Inorder(t.right) + r;
    assert l + Inorder(t) + r == a + [t.node] + b;
    SortedParts(a, t.node, b);
  }

  /** All nodes, in key order, while a splay is in progress. */
  ghost function Whole(ls: LSpine, t: Tree, rs: RSpine): seq<Node> {
    LOrder(ls) + Inorder(t) + ROrder(rs)
  }

  /** Everything on the left spine is below `k`, everything on the right spine above. */
  ghost predicate Parted(ls: LSpine, rs: RSpine, k: int) {
    AllBelow(LOrder(ls), k) && AllAbove(ROrder(rs), k)
  }

  lemma WholeSplit(ls: LSpine, t: Tree, rs: RSpine)
    requires t.Br?
    ensures (var a, b := LOrder(ls) + Inorder(t.left), Inorder(t.right) + ROrder(rs);
             && Whole(ls, t, rs) == a + [t.node] + b
             && ROrder(RSnoc(rs, t.node, t.right)) == [t.node] + b
             && LOrder(LSnoc(ls, t.left, t.node)) == a + [t.node])
  {
  }

  lemma WholeLinkLeft(ls: LSpine, t: Tree, rs: RSpine)
    requires t.Br?
    ensures Whole(ls, t.left, RSnoc(rs, t.node, t.right)) == Whole(ls, t, rs)
  {
    WholeSplit(ls, t, rs);
  }

  lemma WholeLinkRight(ls: LSpine, t: Tree, rs: RSpine)
    requires t.Br?
    ensures Whole(LSnoc(ls, t.left, t.node), t.right, rs) == Whole(ls, t, rs)
  {
    WholeSplit(ls, t, rs);
  }

  lemma PartedLink(ls: LSpine, t: Tree, rs: RSpine, k: int)
    requires t.Br? && KeysAscend(Whole(ls, t, rs)) && Parted(ls, rs, k)
    ensures k < t.node.key ==> Parted(ls, RSnoc(rs, t.node, t.right), k)
    ensures k > t.node.key ==> Parted(LSnoc(ls, t.left, t.node), rs, k)
  {
    WholeSplit(ls, t, rs);
    SortedParts(LOrder(ls) + Inorder(t.left), t.node, Inorder(t.right) + ROrder(rs));
  }

  ghost function Elements(s: seq<Node>): set<Node> {
    set n | n in s
  }

  lemma {:induction false} InorderNodes(t: Tree)
    ensures Nodes(t) == Elements(Inorder(t))
  {
    if t.Br? {
      InorderNodes(t.left);
      InorderNodes(t.right);
    }
  }

  lemma SameOrderSameNodes(t: Tree, t': Tree)
    requires Inorder(t) == Inorder(t')
    ensures Nodes(t) == Nodes(t')
  {
    InorderNodes(t);
    InorderNodes(t');
  }

  /** In the order below and above a node nearest to `k`, all keys lie on the right side of `k`. */
  lemma NearestParts(a: seq<Node>, r: Node, b: seq<Node>, k: int)
    requires KeysAscend(a + [r] + b) && Nearest(a + [r] + b, r, k)
    ensures k <= r.key ==> AllBelow(a, k)
    ensures k >= r.key ==> AllAbove(b, k)
    ensures k < r.key ==> AllAbove([r] + b, k)
    ensures k > r.key ==> AllBelow(a + [r], k)
  {
    SortedParts(a, r, b);
    forall n | n in a
      ensures k <= r.key ==> n.key < k
    {
      assert n in a + [r] + b;
    }
    forall n | n in b
      ensures k >= r.key ==> n.key > k
    {
      assert n in a + [r] + b;
    }
  }

  lemma SortedInsert(a: seq<Node>, x: Node, b: seq<Node>)
    requires KeysAscend(a + b) && AllBelow(a, x.key) && AllAbove(b, x.key)
    ensures KeysAscend(a + [x] + b)
  {
    forall i, j | 0 <= i < j < |a + [x] + b|
      ensures (a + [x] + b)[i].key < (a + [x] + b)[j].key
    {
      assert i < |a| ==> (a + b)[i] == (a + [x] + b)[i];
      assert j > |a| ==> (a + b)[j - 1] == (a + [x] + b)[j];
      assert i > |a| ==> (a + b)[i - 1] == (a + [x] + b)[i];
      assert j < |a| ==> (a + b)[j] == (a + [x] + b)[j];
    }
  }

  lemma SortedRemove(a: seq<Node>, x: Node, b: seq<Node>)
    requires KeysAscend(a + [x] + b)
    ensures KeysAscend(a + b)
  {
    forall i, j | 0 <= i < j < |a + b|
      ensures (a + b)[i].key < (a + b)[j].key
    {
      var s := a + [x] + b;
      assert (a + b)[i] == s[if i < |a| then i else i + 1];
      assert (a + b)[j] == s[if j < |a| then j else j + 1];
    }
  }

  lemma AroundRoot(a: seq<Node>, r: Node, b: seq<Node>)
    ensures a + [r] + b == a + ([r] + b)
  {
  }

  lemma OneSided(r: Node, t: Tree)
    ensures Inorder(Br(Leaf, r, t)) == [r] + Inorder(t) && Inorder(Br(t, r, Leaf)) == Inorder(t) + [r]
  {
  }

  lemma InsertBelowOrder(l: Tree, r: Node, h: Tree, n: Node)
    requires KeysAscend(Inorder(Br(l, r, h))) && Nearest(Inorder(Br(l, r, h)), r, n.key) && n.key < r.key
    ensures Inorder(Br(l, r, h)) == Inorder(l) + ([r] + Inorder(h))
    ensures Inorder(Br(l, n, Br(Leaf, r, h))) == Inorder(l) + [n] + ([r] + Inorder(h))
    ensures KeysAscend(Inorder(Br(l, n, Br(Leaf, r, h))))
  {
    NearestParts(Inorder(l), r, Inorder(h), n.key);
    AroundRoot(Inorder(l), r, Inorder(h));
    SortedInsert(Inorder(l), n, [r] + Inorder(h));
    OneSided(r, h);
  }

  lemma InsertAboveOrder(l: Tree, r: Node, h: Tree, n: Node)
    requires KeysAscend(Inorder(Br(l, r, h))) && Nearest(Inorder(Br(l, r, h)), r, n.key) && n.key > r.key
    ensures Inorder(Br(l, r, h)) == (Inorder(l) + [r]) + Inorder(h)
    ensures Inorder(Br(Br(l, r, Leaf), n, h)) == (Inorder(l) + [r]) + [n] + Inorder(h)
    ensures KeysAscend(Inorder(Br(Br(l, r, Leaf), n, h)))
  {
    NearestParts(Inorder(l), r, Inorder(h), n.key);
    SortedInsert(Inorder(l) + [r], n, Inorder(h));
    OneSided(r, l);
  }

  lemma RootInOrder(t: Tree)
    ensures t.Br? ==> t.node in Inorder(t) && forall n :: n in Inorder(t.right) ==> n in Inorder(t)
  {
  }

  /** Splaying with a key above all others leaves a root without right child. */
  lemma NoRightChild(t: Tree, k: int)
    requires t.Br? && KeysAscend(Inorder(t)) && AllBelow(Inorder(t), k) && Nearest(Inorder(t), t.node, k)
    ensures t.right.Leaf?
  {
    NearestParts(Inorder(t.left), t.node, Inorder(t.right), k);
    RootInOrder(t);
    RootInOrder(t.right);
  }
}
