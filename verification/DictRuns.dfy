/** Whole histories of a hash table against the finite map it stands for. */
module DictRuns {
  import opened Resp
  import opened Powers
  import opened DictShape
  import opened Dict
  import opened DictIterator

  datatype Op<K, V> = Add(key: K, val: V) | Replace(key: K, val: V) | Delete(key: K) | Find(key: K)

  datatype Answer<V> = Did(yes: bool) | Got(val: Option<V>)

  /** What an operation does to a finite map, and answers. */
  function Step<K(==), V>(c: map<K, V>, op: Op<K, V>): (map<K, V>, Answer<V>) {
    match op
    case Add(k, v) => if k in c then (c, Did(false)) else (c[k := v], Did(true))
    case Replace(k, v) => (c[k := v], Did(k !in c))
    case Delete(k) => (c - {k}, Did(k in c))
    case Find(k) => (c, Got(if k in c then Some(c[k]) else None))
  }

  function Run<K(==), V>(c: map<K, V>, ops: seq<Op<K, V>>): (map<K, V>, seq<Answer<V>>) {
    if ops == [] then (c, [])
    else
      var (c', answers) := Run(c, ops[..|ops| - 1]);
      var (c'', answer) := Step(c', ops[|ops| - 1]);
      (c'', answers + [answer])
  }

  method Perform<K(==), V>(d: Dict<K, V>, op: Op<K, V>) returns (answer: Answer<V>)
    requires d.Valid()
    modifies d, d.table, d.cell.Values
    ensures d.Valid() && (d.contents, answer) == Step(old(d.contents), op)
    ensures d.table == old(d.table) || fresh(d.table)
    ensures fresh(d.cell.Values - old(d.cell.Values))
    ensures d.size == old(d.size) || Resized(old(d.size), old(d.used), d.size)
  {
    match op
    case Add(k, v) =>
      var ok := d.Add(k, v);
      answer := Did(ok);
    case Replace(k, v) =>
      var added := d.Replace(k, v);
      answer := Did(added);
    case Delete(k) =>
      var ok, h, p, s := d.Delete(k);
      answer := Did(ok);
    case Find(k) =>
      var e := d.Find(k);
      answer := Got(if e == null then None else Some(e.val));
  }

  /** The counter is the number of keys. */
  lemma UsedIs<K, V>(d: Dict<K, V>)
    requires d.Valid()
    ensures d.used == |d.contents|
  {
    FlatIsCell(d.hash, d.sizemask, d.m, d.cell, d.tab, d.chains);
    assert d.contents.Keys == d.cell.Keys;
  }

  /** The size is 0 or a power of two from 4 on, and there is a bucket for every entry. */
  ghost predicate Roomy(size: nat, used: nat) {
    used <= size && (size == 0 || (INITIAL_SIZE <= size && IsPow2(size)))
  }

  lemma RoomyUnlessClamped(size: nat, used: nat)
    requires Sized(size, used) && (size == 0 || IsPow2(size))
    ensures Roomy(size, used)
  {
    if size == LONG_MAX {
      var k: nat :| size == Pow2(k);
      Pow2Odd(k);
    }
  }

  /** Short histories never reach the clamp. */
  lemma RoomyNext(size: nat, used: nat, size': nat, used': nat)
    requires Roomy(size, used) && 2 * used < LONG_MAX && Sized(size', used')
    requires size' == size || Resized(size, used, size')
    ensures Roomy(size', used')
  {
    RoomyUnlessClamped(size', used');
  }

  lemma UpdateAdds<K, V>(c: map<K, V>, k: K, v: V)
    ensures |c[k := v]| <= |c| + 1
  {
    assert c[k := v].Keys == c.Keys + {k};
  }

  lemma RemoveAdds<K, V>(c: map<K, V>, k: K)
    ensures |c - {k}| <= |c|
  {
    assert (c - {k}).Keys == c.Keys - {k};
  }

  lemma StepAdds<K, V>(c: map<K, V>, op: Op<K, V>)
    ensures |Step(c, op).0| <= |c| + 1
  {
    match op
    case Add(k, v) => UpdateAdds(c, k, v);
    case Replace(k, v) => UpdateAdds(c, k, v);
    case Delete(k) => RemoveAdds(c, k);
    case Find(k) =>
  }

  /** After `i` of `n` operations: the counter is right, and there is room unless there are too many operations. */
  ghost predicate Counted<K, V>(size: nat, used: nat, c: map<K, V>, i: nat, n: nat) {
    used == |c| <= i && (2 * n < LONG_MAX ==> Roomy(size, used))
  }

  /** One operation of a history. */
  method PerformNext<K(==), V>(d: Dict<K, V>, op: Op<K, V>, ghost i: nat, ghost n: nat) returns (answer: Answer<V>)
    requires d.Valid() && Counted(d.size, d.used, d.contents, i, n) && i < n
    modifies d, d.table, d.cell.Values
    ensures d.Valid() && (d.contents, answer) == Step(old(d.contents), op)
    ensures d.table == old(d.table) || fresh(d.table)
    ensures fresh(d.cell.Values - old(d.cell.Values))
    ensures Counted(d.size, d.used, d.contents, i + 1, n)
  {
    StepAdds(d.contents, op);
    ghost var size, used := d.size, d.used;
    answer := Perform(d, op);
    UsedIs(d);
    if 2 * n < LONG_MAX {
      RoomyNext(size, used, d.size, d.used);
    }
  }

  /** Under every sequence of operations the table answers as the map does, and counts its keys. Unless the sequence is
      as long as half the largest long, the size is a power of two with a bucket for every entry. */
  method History<K(==), V>(hash: K -> nat, ops: seq<Op<K, V>>) returns (d: Dict<K, V>, answers: seq<Answer<V>>)
    ensures fresh(d) && d.Valid() && (d.contents, answers) == Run(map[], ops)
    ensures d.used == |d.contents| && (2 * |ops| < LONG_MAX ==> Roomy(d.size, d.used))
  {
    d := new Dict(hash);
    answers := [];
    assert ops[..0] == [];
    UsedIs(d);
    for i := 0 to |ops|
      invariant d.Valid() && fresh(d) && fresh(d.table) && fresh(d.cell.Values)
      invariant (d.contents, answers) == Run(map[], ops[..i])
      invariant Counted(d.size, d.used, d.contents, i, |ops|)
    {
      assert ops[..i + 1][..i] == ops[..i];
      var answer := PerformNext(d, ops[i], i, |ops|);
      answers := answers + [answer];
    }
    assert ops[..|ops|] == ops;
  }
}
