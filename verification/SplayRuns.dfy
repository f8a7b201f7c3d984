/** Whole histories of a splay tree. */
module SplayRuns {
  import opened SetRuns
  import opened SplayShape
  import opened SplayMem
  import opened SplayTree
  import opened SplayCost
  import opened Powers

  ghost function Key(n: Node): int {
    n.key
  }

  ghost function Contents(h: Head): set<int>
    reads h
  {
    Keys(Inorder(h.shape), Key)
  }

  lemma CellsAre(m: Mem, t: Tree)
    requires Holds(m, t)
    ensures m.cells.Keys == set n | n in Inorder(t)
  {
    InorderNodes(t);
  }

  method DoInsert(h: Head, k: int) returns (was: bool)
    requires h.Valid()
    modifies h, h.mem.cells.Keys
    ensures h.Valid() && Contents(h) == old(Contents(h)) + {k} && was == (k in old(Contents(h)))
    ensures fresh(h.mem.cells.Keys - old(h.mem.cells.Keys))
    ensures Affords(old(h.shape), old(h.work), h.shape, h.work)
    ensures |Inorder(h.shape)| <= old(|Inorder(h.shape)|) + 1
  {
    ghost var ns := Inorder(h.shape);
    CellsAre(h.mem, h.shape);
    var elm := new Node(k);
    var res, a, b := h.Insert(elm);
    was := res != null;
    if res == null {
      KeysAbsent(ns, k, Key);
      KeysInsert(a, elm, b, Key);
    } else {
      KeysPresent<Node>(ns, res, Key);
    }
    CellsAre(h.mem, h.shape);
  }

  method DoRemove(h: Head, k: int) returns (was: bool)
    requires h.Valid()
    modifies h, h.mem.cells.Keys
    ensures h.Valid() && Contents(h) == old(Contents(h)) - {k} && was == (k in old(Contents(h)))
    ensures fresh(h.mem.cells.Keys - old(h.mem.cells.Keys))
    ensures Affords(old(h.shape), old(h.work), h.shape, h.work)
    ensures |Inorder(h.shape)| <= old(|Inorder(h.shape)|)
  {
    ghost var ns := Inorder(h.shape);
    CellsAre(h.mem, h.shape);
    var elm := new Node(k);
    var res, a, x, b := h.Remove(elm);
    was := res != null;
    if res == null {
      KeysAbsent(ns, k, Key);
    } else {
      KeysRemove(a, x, b, Key);
    }
    CellsAre(h.mem, h.shape);
  }

  method DoFind(h: Head, k: int) returns (was: bool)
    requires h.Valid()
    modifies h, h.mem.cells.Keys
    ensures h.Valid() && Contents(h) == old(Contents(h)) && was == (k in old(Contents(h)))
    ensures fresh(h.mem.cells.Keys - old(h.mem.cells.Keys))
    ensures Affords(old(h.shape), old(h.work), h.shape, h.work)
    ensures |Inorder(h.shape)| <= old(|Inorder(h.shape)|)
  {
    ghost var ns := Inorder(h.shape);
    CellsAre(h.mem, h.shape);
    var elm := new Node(k);
    var res := h.Find(elm);
    was := res != null;
    if res == null {
      KeysAbsent(ns, k, Key);
    } else {
      KeysPresent<Node>(ns, res, Key);
    }
    CellsAre(h.mem, h.shape);
  }

  ghost function Adds(op: Op): nat {
    if op.Insert? then 1 else 0
  }

  ghost function Inserts(ops: seq<Op>): nat {
    if ops == [] then 0 else Inserts(ops[..|ops| - 1]) + Adds(ops[|ops| - 1])
  }

  lemma {:induction false} InsertsSoFar(ops: seq<Op>, i: nat)
    requires i <= |ops|
    ensures Inserts(ops[..i]) <= Inserts(ops)
    decreases |ops|
  {
    if i == |ops| {
      assert ops[..i] == ops;
    } else {
      assert ops[..|ops| - 1][..i] == ops[..i];
      InsertsSoFar(ops[..|ops| - 1], i);
    }
  }

  method Perform(h: Head, op: Op) returns (answer: bool)
    requires h.Valid()
    modifies h, h.mem.cells.Keys
    ensures h.Valid() && (Contents(h), answer) == Step(old(Contents(h)), op)
    ensures fresh(h.mem.cells.Keys - old(h.mem.cells.Keys))
    ensures Affords(old(h.shape), old(h.work), h.shape, h.work)
    ensures |Inorder(h.shape)| <= old(|Inorder(h.shape)|) + Adds(op)
  {
    match op
    case Insert(k) => answer := DoInsert(h, k);
    case Remove(k) => answer := DoRemove(h, k);
    case Find(k) => answer := DoFind(h, k);
  }

  /** Rounds and potential after `i` operations, each costing at most `c`. */
  ghost predicate Balanced(work: nat, t: Tree, i: nat, c: nat) {
    work + 2 * Potential(t) <= i * c
  }

  lemma BalancedNext(work: nat, t: Tree, work': nat, t': Tree, i: nat, n: nat)
    requires Balanced(work, t, i, 10 * Lg(n + 1) + 3) && Affords(t, work, t', work') && |Inorder(t)| <= n
    ensures Balanced(work', t', i + 1, 10 * Lg(n + 1) + 3)
  {
    LeavesAre(t);
    LgMono(Leaves(t), n + 1);
    Distribute(i, 10 * Lg(n + 1) + 3);
  }

  lemma Distribute(i: nat, c: nat)
    ensures (i + 1) * c == i * c + c
  {
  }

  /** Under every sequence of operations the tree answers as the set of its keys does. All splays together take at most
      10 lg (n + 1) + 3 rounds for each operation, where n is the number of inserts. */
  method History(ops: seq<Op>) returns (h: Head, answers: seq<bool>)
    ensures h.Valid() && (Contents(h), answers) == Run(ops)
    ensures h.work <= |ops| * (10 * Lg(Inserts(ops) + 1) + 3)
  {
    h := new Head();
    answers := [];
    CellsAre(h.mem, h.shape);
    assert Keys<Node>([], Key) == {} && ops[..0] == [];
    ghost var n := Inserts(ops);
    for i := 0 to |ops|
      invariant fresh(h) && h.Valid() && fresh(h.mem.cells.Keys)
      invariant (Contents(h), answers) == Run(ops[..i])
      invariant |Inorder(h.shape)| <= Inserts(ops[..i]) && Balanced(h.work, h.shape, i, 10 * Lg(n + 1) + 3)
    {
      assert ops[..i + 1][..i] == ops[..i];
      InsertsSoFar(ops, i);
      ghost var work, t := h.work, h.shape;
      var answer := Perform(h, ops[i]);
      answers := answers + [answer];
      BalancedNext(work, t, h.work, h.shape, i, n);
    }
    assert ops[..|ops|] == ops;
  }
}
