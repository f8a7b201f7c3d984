/** What top-down splaying makes of a tree, how many rounds it takes, and the potential that pays for them. */
module SplayCost {
  import opened Powers
  import opened SplayShape

  // ----- Splaying as a function -----

  /** The tree after a splay: `t` is taken apart from the top, and put together below the node where the search stops. */
  ghost function Splayed(t: Tree, k: int): (s: Tree)
    requires t.Br?
    ensures s.Br?
  {
    if k < t.node.key then
      if t.left.Leaf? then t
      else if k < t.left.node.key then
        if t.left.left.Leaf? then RotR(t)
        else LinkedLeft(Splayed(t.left.left, k), t.left.node, Br(t.left.right, t.node, t.right))
      else LinkedLeft(Splayed(t.left, k), t.node, t.right)
    else if k > t.node.key then
      if t.right.Leaf? then t
      else if k > t.right.node.key then
        if t.right.right.Leaf? then RotL(t)
        else LinkedRight(Br(t.left, t.node, t.right.left), t.right.node, Splayed(t.right.right, k))
      else LinkedRight(t.left, t.node, Splayed(t.right, k))
    else t
  }

  /** `x`, with `b` above it, is put on the right of what remains. */
  ghost function LinkedLeft(s: Tree, x: Node, b: Tree): (r: Tree)
    requires s.Br?
    ensures r.Br?
  {
    Br(s.left, s.node, Br(s.right, x, b))
  }

  ghost function LinkedRight(a: Tree, x: Node, s: Tree): (r: Tree)
    requires s.Br?
    ensures r.Br?
  {
    Br(Br(a, x, s.left), s.node, s.right)
  }

  /** The rounds of the splay loop. */
  ghost function Rounds(t: Tree, k: int): nat
    requires t.Br?
  {
    if k < t.node.key then
      if t.left.Leaf? then 1
      else if k < t.left.node.key then (if t.left.left.Leaf? then 1 else 1 + Rounds(t.left.left, k))
      else 1 + Rounds(t.left, k)
    else if k > t.node.key then
      if t.right.Leaf? then 1
      else if k > t.right.node.key then (if t.right.right.Leaf? then 1 else 1 + Rounds(t.right.right, k))
      else 1 + Rounds(t.right, k)
    else 0
  }

  // ----- The potential -----

  /** The number of leaves: one more than there are nodes. */
  ghost function Leaves(t: Tree): (n: nat)
    ensures n >= 1
  {
    if t.Leaf? then 1 else Leaves(t.left) + Leaves(t.right)
  }

  ghost function Rank(t: Tree): nat {
    Lg(Leaves(t))
  }

  /** The ranks of all subtrees. */
  ghost function Potential(t: Tree): nat {
    if t.Leaf? then 0 else Potential(t.left) + Rank(t) + Potential(t.right)
  }

  lemma {:induction false} LeavesAre(t: Tree)
    ensures Leaves(t) == |Inorder(t)| + 1
  {
    if t.Br? {
      LeavesAre(t.left);
      LeavesAre(t.right);
    }
  }

  lemma {:induction false} SplayedLeaves(t: Tree, k: int)
    requires t.Br?
    ensures Leaves(Splayed(t, k)) == Leaves(t)
  {
    if k < t.node.key && t.left.Br? {
      if k >= t.left.node.key {
        SplayedLeaves(t.left, k);
      } else if t.left.left.Br? {
        SplayedLeaves(t.left.left, k);
        LinkedLeaves(Splayed(t.left.left, k), t.left.node, Br(t.left.right, t.node, t.right));
      } else {
        assert Leaves(t.left) == 1 + Leaves(t.left.right);
      }
    } else if k > t.node.key && t.right.Br? {
      if k <= t.right.node.key {
        SplayedLeaves(t.right, k);
      } else if t.right.right.Br? {
        SplayedLeaves(t.right.right, k);
        LinkedLeaves(Splayed(t.right.right, k), t.right.node, Br(t.left, t.node, t.right.left));
      } else {
        assert Leaves(t.right) == Leaves(t.right.left) + 1;
      }
    }
  }

  lemma LinkedLeaves(s: Tree, x: Node, b: Tree)
    requires s.Br?
    ensures Leaves(LinkedLeft(s, x, b)) == Leaves(s) + Leaves(b) && Leaves(LinkedRight(b, x, s)) == Leaves(s) + Leaves(b)
  {
  }

  /** The potential outside the root of the splayed tree. */
  ghost function Below(s: Tree): nat
    requires s.Br?
  {
    Potential(s.left) + Potential(s.right)
  }

  /** What a splay costs: rounds and new potential are paid by the old potential and the rank of the tree. */
  ghost predicate Paid(t: Tree, k: int)
    requires t.Br?
  {
    Rounds(t, k) + 2 * Below(Splayed(t, k)) <= 2 * Potential(t) + 4 * Rank(t) + 1
  }

  // ----- Ranks -----

  /** Two levels down on one side: `p` goes on, `q` and `t` turn into `q'` above `t'`. */
  lemma ZigZig(p: nat, q: nat, t: nat, q': nat, t': nat)
    requires 1 <= p <= q && 1 <= t' && p + t' <= t && q' <= t
    ensures 1 + 2 * Lg(q') + 2 * Lg(t') + 4 * Lg(p) <= 6 * Lg(t) + 2 * Lg(q)
  {
    LgSum(p, t', t);
    LgMono(q', t);
    LgMono(p, q);
  }

  /** One level down on each side: `p` goes on, `q` and `t` turn into `q'` and `t'` side by side. */
  lemma ZigZag(p: nat, q: nat, t: nat, q': nat, t': nat)
    requires 1 <= p <= q <= t && 1 <= q' && 1 <= t' && q' + t' <= t
    ensures 2 + 2 * Lg(q') + 2 * Lg(t') + 4 * Lg(p) <= 6 * Lg(t) + 2 * Lg(q)
  {
    LgSum(q', t', t);
    LgMono(p, q);
    LgMono(p, t);
  }

  /** One level down on one side and two on the other: `w` goes on, and `q'` is below `p'`. */
  lemma ZigZagZig(w: nat, p: nat, q: nat, t: nat, q': nat, p': nat, t': nat)
    requires 1 <= w <= p && q <= t && 1 <= q' && q' + w <= q && 1 <= p' && 1 <= t' && p' + t' <= t
    ensures 2 + 2 * Lg(p') + 2 * Lg(q') + 2 * Lg(t') + 4 * Lg(w) <= 6 * Lg(t) + 2 * Lg(q) + 2 * Lg(p)
  {
    LgSum(p', t', t);
    LgSum(q', w, q);
    LgMono(q, t);
    LgMono(w, p);
  }

  /** A search that ends costs two rounds at most. */
  lemma Ends(t: nat, t': nat)
    requires t' < t
    ensures Lg(t') <= Lg(t) && (2 <= t ==> 2 * Lg(t') + 2 <= 6 * Lg(t))
  {
    LgMono(t', t);
    if 2 <= t {
      LgMono(2, t);
    }
  }

  // ----- The access lemma -----

  lemma LeftZigZig(t: Tree, k: int)
    requires t.Br? && t.left.Br? && t.left.left.Br? && k < t.node.key && k < t.left.node.key && Paid(t.left.left, k)
    ensures Paid(t, k)
  {
    var q, p := t.left, t.left.left;
    var s, t' := Splayed(p, k), Br(q.right, t.node, t.right);
    var q' := Br(s.right, q.node, t');
    SplayedLeaves(p, k);
    assert Leaves(t') == Leaves(q.right) + Leaves(t.right) && Leaves(t) == Leaves(p) + Leaves(t');
    ZigZig(Leaves(p), Leaves(q), Leaves(t), Leaves(q'), Leaves(t'));
    assert Splayed(t, k) == Br(s.left, s.node, q');
    assert Potential(q') == Potential(s.right) + Rank(q') + (Potential(q.right) + Rank(t') + Potential(t.right));
    assert Potential(t) == Potential(p) + Rank(q) + Potential(q.right) + Rank(t) + Potential(t.right);
  }

  lemma RightZigZig(t: Tree, k: int)
    requires t.Br? && t.right.Br? && t.right.right.Br? && k > t.node.key && k > t.right.node.key && Paid(t.right.right, k)
    ensures Paid(t, k)
  {
    var q, p := t.right, t.right.right;
    var s, t' := Splayed(p, k), Br(t.left, t.node, q.left);
    var q' := Br(t', q.node, s.left);
    SplayedLeaves(p, k);
    assert Leaves(t') == Leaves(t.left) + Leaves(q.left) && Leaves(t) == Leaves(t') + Leaves(p);
    ZigZig(Leaves(p), Leaves(q), Leaves(t), Leaves(q'), Leaves(t'));
    assert Splayed(t, k) == Br(q', s.node, s.right);
    assert Potential(q') == (Potential(t.left) + Rank(t') + Potential(q.left)) + Rank(q') + Potential(s.left);
    assert Potential(t) == Potential(t.left) + Rank(t) + Potential(q.left) + Rank(q) + Potential(p);
  }

  lemma LeftRight(t: Tree, k: int)
    requires t.Br? && t.left.Br? && t.left.right.Br? && t.left.node.key < k < t.node.key && k <= t.left.right.node.key
    requires Paid(t.left.right, k)
    ensures Paid(t, k)
  {
    var q, p := t.left, t.left.right;
    var s := Splayed(p, k);
    var q', t' := Br(q.left, q.node, s.left), Br(s.right, t.node, t.right);
    SplayedLeaves(p, k);
    assert Leaves(q) == Leaves(q.left) + Leaves(p) && Leaves(t) == Leaves(q) + Leaves(t.right);
    ZigZag(Leaves(p), Leaves(q), Leaves(t), Leaves(q'), Leaves(t'));
    assert Splayed(q, k) == Br(q', s.node, s.right) && Splayed(t, k) == Br(q', s.node, t');
    assert Potential(t) == Potential(q.left) + Rank(q) + Potential(p) + Rank(t) + Potential(t.right);
  }

  lemma RightLeft(t: Tree, k: int)
    requires t.Br? && t.right.Br? && t.right.left.Br? && t.right.node.key > k > t.node.key && k >= t.right.left.node.key
    requires Paid(t.right.left, k)
    ensures Paid(t, k)
  {
    var q, p := t.right, t.right.left;
    var s := Splayed(p, k);
    var q', t' := Br(s.right, q.node, q.right), Br(t.left, t.node, s.left);
    SplayedLeaves(p, k);
    assert Leaves(q) == Leaves(p) + Leaves(q.right) && Leaves(t) == Leaves(t.left) + Leaves(q);
    ZigZag(Leaves(p), Leaves(q), Leaves(t), Leaves(q'), Leaves(t'));
    assert Splayed(q, k) == Br(s.left, s.node, q') && Splayed(t, k) == Br(t', s.node, q');
    assert Potential(t) == Potential(t.left) + Rank(t) + Potential(p) + Rank(q) + Potential(q.right);
  }

  lemma LeftRightRight(t: Tree, k: int)
    requires t.Br? && t.left.Br? && t.left.right.Br? && t.left.right.right.Br?
    requires t.left.node.key < k < t.node.key && k > t.left.right.node.key && Paid(t.left.right.right, k)
    ensures Paid(t, k)
  {
    var q, p := t.left, t.left.right;
    var w := p.right;
    var s, q' := Splayed(w, k), Br(q.left, q.node, p.left);
    var p', t' := Br(q', p.node, s.left), Br(s.right, t.node, t.right);
    SplayedLeaves(w, k);
    assert Leaves(p) == Leaves(p.left) + Leaves(w) && Leaves(q) == Leaves(q.left) + Leaves(p);
    assert Leaves(q') == Leaves(q.left) + Leaves(p.left) && Leaves(t) == Leaves(q) + Leaves(t.right);
    ZigZagZig(Leaves(w), Leaves(p), Leaves(q), Leaves(t), Leaves(q'), Leaves(p'), Leaves(t'));
    assert Splayed(q, k) == Br(p', s.node, s.right) && Splayed(t, k) == Br(p', s.node, t');
    assert Potential(p') == Potential(q.left) + Rank(q') + Potential(p.left) + Rank(p') + Potential(s.left);
    assert Potential(q) == Potential(q.left) + Rank(q) + (Potential(p.left) + Rank(p) + Potential(w));
  }

  lemma RightLeftLeft(t: Tree, k: int)
    requires t.Br? && t.right.Br? && t.right.left.Br? && t.right.left.left.Br?
    requires t.right.node.key > k > t.node.key && k < t.right.left.node.key && Paid(t.right.left.left, k)
    ensures Paid(t, k)
  {
    var q, p := t.right, t.right.left;
    var w := p.left;
    var s, q' := Splayed(w, k), Br(p.right, q.node, q.right);
    var p', t' := Br(s.right, p.node, q'), Br(t.left, t.node, s.left);
    SplayedLeaves(w, k);
    assert Leaves(p) == Leaves(w) + Leaves(p.right) && Leaves(q) == Leaves(p) + Leaves(q.right);
    assert Leaves(q') == Leaves(p.right) + Leaves(q.right) && Leaves(t) == Leaves(t.left) + Leaves(q);
    ZigZagZig(Leaves(w), Leaves(p), Leaves(q), Leaves(t), Leaves(q'), Leaves(p'), Leaves(t'));
    assert Splayed(q, k) == Br(s.left, s.node, p') && Splayed(t, k) == Br(t', s.node, p');
    assert Potential(p') == Potential(s.right) + Rank(p') + (Potential(p.right) + Rank(q') + Potential(q.right));
    assert Potential(q) == (Potential(w) + Rank(p) + Potential(p.right)) + Rank(q) + Potential(q.right);
  }

  /** A search that ends at or just below the left child. */
  lemma LeftEnds(t: Tree, k: int)
    requires t.Br? && t.left.Br? && k < t.node.key
    requires k < t.left.node.key ==> t.left.left.Leaf?
    requires k > t.left.node.key ==> t.left.right.Leaf?
    ensures Paid(t, k)
  {
    var q := t.left;
    var t' := Br(q.right, t.node, t.right);
    assert Leaves(q) == Leaves(q.left) + Leaves(q.right) && Leaves(t') == Leaves(q.right) + Leaves(t.right);
    Ends(Leaves(t), Leaves(t'));
    assert Splayed(t, k) == Br(q.left, q.node, t');
    assert Potential(t) == Potential(q.left) + Rank(q) + Potential(q.right) + Rank(t) + Potential(t.right);
  }

  lemma RightEnds(t: Tree, k: int)
    requires t.Br? && t.right.Br? && k > t.node.key
    requires k > t.right.node.key ==> t.right.right.Leaf?
    requires k < t.right.node.key ==> t.right.left.Leaf?
    ensures Paid(t, k)
  {
    var q := t.right;
    var t' := Br(t.left, t.node, q.left);
    assert Leaves(q) == Leaves(q.left) + Leaves(q.right) && Leaves(t') == Leaves(t.left) + Leaves(q.left);
    Ends(Leaves(t), Leaves(t'));
    assert Splayed(t, k) == Br(t', q.node, q.right);
    assert Potential(t) == Potential(t.left) + Rank(t) + Potential(q.left) + Rank(q) + Potential(q.right);
  }

  lemma RankOneSided(p: Tree)
    requires p.Br?
    ensures p.right.Leaf? ==> Leaves(p) == Leaves(p.left) + 1 && Potential(p) == Potential(p.left) + Rank(p)
    ensures p.left.Leaf? ==> Leaves(p) == 1 + Leaves(p.right) && Potential(p) == Rank(p) + Potential(p.right)
  {
  }

  /** A search that turns at the left child and ends after a rotation there. */
  lemma LeftRightEnds(t: Tree, k: int)
    requires t.Br? && t.left.Br? && t.left.right.Br? && t.left.right.right.Leaf?
    requires t.left.node.key < k < t.node.key && k > t.left.right.node.key
    ensures Paid(t, k)
  {
    var q, p := t.left, t.left.right;
    var q', t' := Br(q.left, q.node, p.left), Br(Leaf, t.node, t.right);
    RankOneSided(p);
    assert Leaves(q) == Leaves(q.left) + Leaves(p) && Leaves(t) == Leaves(q) + Leaves(t.right);
    Ends(Leaves(t), Leaves(t'));
    LgMono(Leaves(q'), Leaves(q));
    assert Splayed(q, k) == Br(q', p.node, Leaf) && Splayed(t, k) == Br(q', p.node, t');
    assert Potential(q) == Potential(q.left) + Rank(q) + Potential(p);
  }

  lemma RightLeftEnds(t: Tree, k: int)
    requires t.Br? && t.right.Br? && t.right.left.Br? && t.right.left.left.Leaf?
    requires t.right.node.key > k > t.node.key && k < t.right.left.node.key
    ensures Paid(t, k)
  {
    var q, p := t.right, t.right.left;
    var q', t' := Br(p.right, q.node, q.right), Br(t.left, t.node, Leaf);
    RankOneSided(p);
    assert Leaves(q) == Leaves(p) + Leaves(q.right) && Leaves(t) == Leaves(t.left) + Leaves(q);
    Ends(Leaves(t), Leaves(t'));
    LgMono(Leaves(q'), Leaves(q));
    assert Splayed(q, k) == Br(Leaf, p.node, q') && Splayed(t, k) == Br(t', p.node, q');
    assert Potential(q) == Potential(p) + Rank(q) + Potential(q.right);
  }

  /** The access lemma. */
  lemma {:induction false} Access(t: Tree, k: int)
    requires t.Br?
    ensures Paid(t, k)
    decreases t, 1
  {
    if k < t.node.key && t.left.Br? {
      AccessLeft(t, k);
    } else if k > t.node.key && t.right.Br? {
      AccessRight(t, k);
    }
  }

  lemma {:induction false} AccessLeft(t: Tree, k: int)
    requires t.Br? && t.left.Br? && k < t.node.key
    ensures Paid(t, k)
    decreases t, 0
  {
    var q := t.left;
    if k < q.node.key && q.left.Br? {
      Access(q.left, k);
      LeftZigZig(t, k);
    } else if k > q.node.key && q.right.Br? {
      if k <= q.right.node.key {
        Access(q.right, k);
        LeftRight(t, k);
      } else if q.right.right.Br? {
        Access(q.right.right, k);
        LeftRightRight(t, k);
      } else {
        LeftRightEnds(t, k);
      }
    } else {
      LeftEnds(t, k);
    }
  }

  lemma {:induction false} AccessRight(t: Tree, k: int)
    requires t.Br? && t.right.Br? && k > t.node.key
    ensures Paid(t, k)
    decreases t, 0
  {
    var q := t.right;
    if k > q.node.key && q.right.Br? {
      Access(q.right, k);
      RightZigZig(t, k);
    } else if k < q.node.key && q.left.Br? {
      if k >= q.left.node.key {
        Access(q.left, k);
        RightLeft(t, k);
      } else if q.left.left.Br? {
        Access(q.left.left, k);
        RightLeftLeft(t, k);
      } else {
        RightLeftEnds(t, k);
      }
    } else {
      RightEnds(t, k);
    }
  }

  // ----- Operations -----

  /** A whole splay. */
  lemma SplayPaid(t: Tree, k: int)
    requires t.Br?
    ensures Rounds(t, k) + 2 * Potential(Splayed(t, k)) <= 2 * Potential(t) + 6 * Rank(t) + 1
  {
    Access(t, k);
    SplayedLeaves(t, k);
  }

  lemma RankNext(t: Tree, t': Tree)
    requires Leaves(t') == Leaves(t) + 1
    ensures Rank(t') <= Rank(t) + 1
  {
    LgNext(Leaves(t));
  }

  lemma RankMono(t: Tree, t': Tree)
    requires Leaves(t) <= Leaves(t')
    ensures Rank(t) <= Rank(t')
  {
    LgMono(Leaves(t), Leaves(t'));
  }

  /** Hanging the root below a new one. */
  lemma InsertBelowPaid(t: Tree, x: Node)
    requires t.Br?
    ensures Potential(Br(t.left, x, Br(Leaf, t.node, t.right))) <= Potential(t) + Rank(t) + 1
  {
    var h := Br(Leaf, t.node, t.right);
    RankOneSided(h);
    RankMono(h, t);
    RankNext(t, Br(t.left, x, h));
  }

  lemma InsertAbovePaid(t: Tree, x: Node)
    requires t.Br?
    ensures Potential(Br(Br(t.left, t.node, Leaf), x, t.right)) <= Potential(t) + Rank(t) + 1
  {
    var l := Br(t.left, t.node, Leaf);
    RankOneSided(l);
    RankMono(l, t);
    RankNext(t, Br(l, x, t.right));
  }

  /** The root `s` of a splayed tree hangs below the new node, on the side of its key. */
  ghost function Placed(s: Tree, x: Node): Tree
    requires s.Br?
  {
    if x.key < s.node.key then Br(s.left, x, Br(Leaf, s.node, s.right))
    else if x.key > s.node.key then Br(Br(s.left, s.node, Leaf), x, s.right)
    else s
  }

  lemma PlacedPaid(s: Tree, x: Node)
    requires s.Br?
    ensures Potential(Placed(s, x)) <= Potential(s) + Rank(s) + 1
  {
    InsertBelowPaid(s, x);
    InsertAbovePaid(s, x);
  }

  /** The root of a tree taken out: its subtrees are joined at the greatest node of the left one. */
  ghost function Joined(s: Tree, k: int): Tree
    requires s.Br?
  {
    if s.left.Leaf? then s.right
    else
      var l := Splayed(s.left, k);
      Br(l.left, l.node, s.right)
  }

  ghost function JoinRounds(s: Tree, k: int): nat
    requires s.Br?
  {
    if s.left.Leaf? then 0 else Rounds(s.left, k)
  }

  lemma JoinedPaid(s: Tree, k: int)
    requires s.Br? && s.left.Br? && Splayed(s.left, k).right.Leaf?
    ensures Rounds(s.left, k) + 2 * Potential(Joined(s, k)) <= 2 * Potential(s) + 4 * Rank(s) + 1
  {
    var l := Splayed(s.left, k);
    SplayedLeaves(s.left, k);
    Access(s.left, k);
    LgMono(Leaves(Joined(s, k)), Leaves(s));
    LgMono(Leaves(s.left), Leaves(s));
    assert Potential(Joined(s, k)) == Potential(l.left) + Rank(Joined(s, k)) + Potential(s.right);
  }

  lemma JoinPaid(s: Tree, k: int)
    requires s.Br? && (s.left.Br? ==> Splayed(s.left, k).right.Leaf?)
    ensures JoinRounds(s, k) + 2 * Potential(Joined(s, k)) <= 2 * Potential(s) + 4 * Rank(s) + 1
  {
    if s.left.Br? {
      JoinedPaid(s, k);
    }
  }

  /** What an operation costs: the rounds it adds and the potential it leaves are paid by the potential it finds and
      ten times the rank of the tree. */
  ghost predicate Affords(t: Tree, work: nat, t': Tree, work': nat) {
    work' + 2 * Potential(t') <= work + 2 * Potential(t) + 10 * Rank(t) + 3
  }

  /** A splay of `t` to `s` followed by a change to `t'`. */
  lemma AffordsBoth(t: Tree, s: Tree, t': Tree, r: nat, r': nat, work: nat)
    requires Leaves(s) == Leaves(t) && r + 2 * Potential(s) <= 2 * Potential(t) + 6 * Rank(t) + 1
    requires r' + 2 * Potential(t') <= 2 * Potential(s) + 4 * Rank(s) + 2
    ensures Affords(t, work, t', work + r + r')
  {
  }

  lemma FirstAffords(x: Node, work: nat)
    ensures Affords(Leaf, work, Br(Leaf, x, Leaf), work)
  {
    LgNext(1);
  }

  lemma SplayAffords(t: Tree, k: int, work: nat)
    requires t.Br?
    ensures Affords(t, work, Splayed(t, k), work + Rounds(t, k))
  {
    SplayPaid(t, k);
    SplayedLeaves(t, k);
    AffordsBoth(t, Splayed(t, k), Splayed(t, k), Rounds(t, k), 0, work);
  }

  lemma InsertAffords(t: Tree, x: Node, work: nat)
    requires t.Br?
    ensures Affords(t, work, Placed(Splayed(t, x.key), x), work + Rounds(t, x.key))
  {
    var s := Splayed(t, x.key);
    SplayPaid(t, x.key);
    SplayedLeaves(t, x.key);
    PlacedPaid(s, x);
    AffordsBoth(t, s, Placed(s, x), Rounds(t, x.key), 0, work);
  }

  lemma RemoveAffords(t: Tree, k: int, work: nat)
    requires t.Br? && (Splayed(t, k).left.Br? ==> Splayed(Splayed(t, k).left, k).right.Leaf?)
    ensures var s := Splayed(t, k); Affords(t, work, Joined(s, k), work + Rounds(t, k) + JoinRounds(s, k))
  {
    var s := Splayed(t, k);
    SplayPaid(t, k);
    SplayedLeaves(t, k);
    JoinPaid(s, k);
    AffordsBoth(t, s, Joined(s, k), Rounds(t, k), JoinRounds(s, k), work);
  }
}
