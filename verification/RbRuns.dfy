/** Whole histories of a red-black tree. */
module RbRuns {
  import opened SetRuns
  import opened Powers
  import opened RbShape
  import opened RbMem
  import opened RbTree

  ghost function Key(n: Node): int {
    n.key
  }

  ghost function Contents(h: Head): set<int>
    reads h
  {
    Keys(Inorder(h.shape), Key)
  }

  lemma {:induction false} NodesAre(t: Tree)
    ensures Nodes(t) == set n | n in Inorder(t)
  {
    if t.Br? {
      NodesAre(t.left);
      NodesAre(t.right);
    }
  }

  lemma CellsAre(m: Mem, t: Tree)
    requires At(m, Top, t)
    ensures m.cells.Keys == set n | n in Inorder(t)
  {
    NodesAre(t);
  }

  method DoInsert(h: Head, k: int) returns (was: bool)
    requires h.Valid()
    modifies h, h.mem.cells.Keys
    ensures h.Valid() && Contents(h) == old(Contents(h)) + {k} && was == (k in old(Contents(h)))
    ensures fresh(h.mem.cells.Keys - old(h.mem.cells.Keys))
  {
    ghost var ns := Inorder(h.shape);
    CellsAre(h.mem, h.shape);
    var elm := new Node(k);
    var res, a, b := h.Insert(elm);
    was := res != null;
    if res == null {
      KeysAbsent(ns, k, Key);
      KeysInsert(a, elm, b, Key);
    } else {
      KeysPresent<Node>(ns, res, Key);
    }
    CellsAre(h.mem, h.shape);
  }

  method RemoveFound(h: Head, found: Node)
    requires h.Valid() && found in Inorder(h.shape)
    modifies h, h.mem.cells.Keys
    ensures h.Valid() && Contents(h) == old(Contents(h)) - {found.key} && found.key in old(Contents(h))
    ensures h.mem.cells.Keys <= old(h.mem.cells.Keys)
  {
    CellsAre(h.mem, h.shape);
    var res, a, b := h.Remove(found);
    KeysRemove(a, found, b, Key);
    CellsAre(h.mem, h.shape);
  }

  method DoRemove(h: Head, k: int) returns (was: bool)
    requires h.Valid()
    modifies h, h.mem.cells.Keys
    ensures h.Valid() && Contents(h) == old(Contents(h)) - {k} && was == (k in old(Contents(h)))
    ensures fresh(h.mem.cells.Keys - old(h.mem.cells.Keys))
  {
    ghost var ns := Inorder(h.shape);
    CellsAre(h.mem, h.shape);
    var elm := new Node(k);
    var found := h.Find(elm);
    was := found != null;
    if found == null {
      KeysAbsent(ns, k, Key);
    } else {
      RemoveFound(h, found);
    }
  }

  method DoFind(h: Head, k: int) returns (was: bool)
    requires h.Valid()
    modifies h, h.mem.cells.Keys
    ensures h.Valid() && Contents(h) == old(Contents(h)) && was == (k in old(Contents(h)))
    ensures fresh(h.mem.cells.Keys - old(h.mem.cells.Keys))
  {
    ghost var ns := Inorder(h.shape);
    CellsAre(h.mem, h.shape);
    var elm := new Node(k);
    var res := h.Find(elm);
    was := res != null;
    if res == null {
      KeysAbsent(ns, k, Key);
    } else {
      KeysPresent<Node>(ns, res, Key);
    }
    CellsAre(h.mem, h.shape);
  }

  method Perform(h: Head, op: Op) returns (answer: bool)
    requires h.Valid()
    modifies h, h.mem.cells.Keys
    ensures h.Valid() && (Contents(h), answer) == Step(old(Contents(h)), op)
    ensures fresh(h.mem.cells.Keys - old(h.mem.cells.Keys))
  {
    match op
    case Insert(k) => answer := DoInsert(h, k);
    case Remove(k) => answer := DoRemove(h, k);
    case Find(k) => answer := DoFind(h, k);
  }

  /** Every tree built by inserts and removes is the set of its keys, in order, and is at most
      2 lg (n + 1) high. */
  method History(ops: seq<Op>) returns (h: Head, answers: seq<bool>)
    ensures h.Valid() && (Contents(h), answers) == Run(ops)
    ensures Pow2(Height(h.shape)) <= (|Inorder(h.shape)| + 1) * (|Inorder(h.shape)| + 1)
  {
    h := new Head();
    answers := [];
    CellsAre(h.mem, h.shape);
    assert Keys<Node>([], Key) == {} && ops[..0] == [];
    for i := 0 to |ops|
      invariant fresh(h) && h.Valid() && fresh(h.mem.cells.Keys)
      invariant (Contents(h), answers) == Run(ops[..i])
    {
      assert ops[..i + 1][..i] == ops[..i];
      var answer := Perform(h, ops[i]);
      answers := answers + [answer];
    }
    assert ops[..|ops|] == ops;
    HeightBound(h.shape);
  }
}
