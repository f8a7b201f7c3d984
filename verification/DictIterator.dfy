/** The iterator of dict.c, and what it visits when the caller deletes as it goes. */
module DictIterator {
  import opened DictShape
  import opened Dict

  // ----- All entries, bucket by bucket -----

  ghost function Flat<T>(chains: seq<seq<T>>): seq<T> {
    if chains == [] then [] else chains[0] + Flat(chains[1..])
  }

  lemma {:induction false} FlatHas<T>(chains: seq<seq<T>>, b: nat, e: T)
    requires b < |chains| && e in chains[b]
    ensures e in Flat(chains)
  {
    if b > 0 {
      FlatHas(chains[1..], b - 1, e);
    }
  }

  lemma {:induction false} FlatFrom<T>(chains: seq<seq<T>>, e: T) returns (b: nat)
    requires e in Flat(chains)
    ensures b < |chains| && e in chains[b]
  {
    if e in chains[0] {
      b := 0;
    } else {
      b := FlatFrom(chains[1..], e);
      b := b + 1;
    }
  }

  lemma {:induction false} NoDupConcat<T>(a: seq<T>, b: seq<T>)
    requires NoDup(a) && NoDup(b) && forall x :: x in a ==> x !in b
    ensures NoDup(a + b)
  {
    if a == [] {
      assert a + b == b;
    } else {
      assert (a + b)[1..] == a[1..] + b;
      NoDupConcat(a[1..], b);
    }
  }

  lemma {:induction false} FlatLater<K, V>(hash: K -> nat, mask: nat, m: Next<K, V>, cell: map<K, Entry<K, V>>,
                                           tab: seq<Entry?<K, V>>, chains: seq<seq<Entry<K, V>>>, i: nat)
    requires Bins(hash, mask, m, cell, tab, chains) && i <= |chains|
    ensures forall e :: e in Flat(chains[i..]) ==> Bucket(hash, mask, e.key) >= i
    decreases |chains| - i
  {
    if i < |chains| {
      FlatLater(hash, mask, m, cell, tab, chains, i + 1);
      assert chains[i..][1..] == chains[i + 1..];
      assert Bin(hash, mask, m, cell, i, tab[i], chains[i]);
    }
  }

  lemma {:induction false} FlatNoDup<K, V>(hash: K -> nat, mask: nat, m: Next<K, V>, cell: map<K, Entry<K, V>>,
                                           tab: seq<Entry?<K, V>>, chains: seq<seq<Entry<K, V>>>, i: nat)
    requires Bins(hash, mask, m, cell, tab, chains) && i <= |chains|
    ensures NoDup(Flat(chains[i..])) && |Flat(chains[i..])| == Total(chains[i..])
    decreases |chains| - i
  {
    if i < |chains| {
      FlatNoDup(hash, mask, m, cell, tab, chains, i + 1);
      assert chains[i..][1..] == chains[i + 1..];
      assert Bin(hash, mask, m, cell, i, tab[i], chains[i]);
      FlatLater(hash, mask, m, cell, tab, chains, i + 1);
      NoDupConcat(chains[i], Flat(chains[i + 1..]));
    }
  }

  /** The entries visited are those of the map, one for each key. */
  lemma FlatIsCell<K, V>(hash: K -> nat, mask: nat, m: Next<K, V>, cell: map<K, Entry<K, V>>,
                         tab: seq<Entry?<K, V>>, chains: seq<seq<Entry<K, V>>>)
    requires Bins(hash, mask, m, cell, tab, chains)
    ensures NoDup(Flat(chains)) && |Flat(chains)| == Total(chains) == |cell|
    ensures forall e :: e in Flat(chains) ==> e.key in cell && cell[e.key] == e
    ensures forall k :: k in cell ==> cell[k].key == k && cell[k] in Flat(chains)
  {
    assert chains[0..] == chains;
    FlatNoDup(hash, mask, m, cell, tab, chains, 0);
    forall e | e in Flat(chains)
      ensures e.key in cell && cell[e.key] == e
    {
      var b := FlatFrom(chains, e);
      assert Bin(hash, mask, m, cell, b, tab[b], chains[b]);
    }
    forall k | k in cell
      ensures cell[k].key == k && cell[k] in Flat(chains)
    {
      assert Lodged(hash, mask, cell, chains, k);
      FlatHas(chains, Bucket(hash, mask, k), cell[k]);
    }
    KeyCount(Flat(chains), cell);
    assert KeySet(Flat(chains)) == cell.Keys;
  }

  ghost function KeySet<K, V>(s: seq<Entry<K, V>>): set<K> {
    set e | e in s :: e.key
  }

  lemma {:induction false} KeyCount<K, V>(s: seq<Entry<K, V>>, cell: map<K, Entry<K, V>>)
    requires NoDup(s) && forall e :: e in s ==> e.key in cell && cell[e.key] == e
    ensures |KeySet(s)| == |s|
  {
    if s != [] {
      KeyCount(s[1..], cell);
      assert KeySet(s) == {s[0].key} + KeySet(s[1..]);
    }
  }

  lemma {:induction false} ChainSuffix<K, V>(m: Next<K, V>, first: Entry?<K, V>, p: seq<Entry<K, V>>, s: seq<Entry<K, V>>)
    requires Chain(m, first, p + s)
    ensures Chain(m, if s == [] then null else s[0], s)
    decreases |p|
  {
    if p == [] {
      assert p + s == s;
    } else {
      assert (p + s)[1..] == p[1..] + s;
      ChainSuffix(m, m[p[0]], p[1..], s);
    }
  }

  lemma {:induction false} NoDupIndex<T>(c: seq<T>, i: nat, j: nat)
    requires NoDup(c) && i < |c| && j < |c|
    ensures c[i] == c[j] ==> i == j
  {
    if i > 0 && j > 0 {
      NoDupIndex(c[1..], i - 1, j - 1);
    } else if i < j {
      assert c[j] == c[1..][j - 1];
    } else if j < i {
      assert c[i] == c[1..][i - 1];
    }
  }

  /** An entry stands at one place in its chain. */
  lemma SameSplit<T>(p: seq<T>, e: T, s: seq<T>, p': seq<T>, s': seq<T>)
    requires p + [e] + s == p' + [e] + s' && NoDup(p + [e] + s)
    ensures p == p' && s == s'
  {
    var c := p + [e] + s;
    assert c[|p|] == e && c[|p'|] == e;
    NoDupIndex(c, |p|, |p'|);
    assert p == c[..|p|] && p' == c[..|p'|] && s == c[|p| + 1..] && s' == c[|p'| + 1..];
  }

  // ----- The iterator -----

  /** The entries in the buckets after `index`. */
  ghost function Later<K, V>(chains: seq<seq<Entry<K, V>>>, index: int): seq<Entry<K, V>>
    requires index >= -1
  {
    if index + 1 < |chains| then Flat(chains[index + 1..]) else []
  }

  lemma LaterStep<K, V>(chains: seq<seq<Entry<K, V>>>, index: nat)
    requires index < |chains|
    ensures Later(chains, index - 1) == chains[index] + Later(chains, index)
  {
    assert chains[index..][0] == chains[index] && chains[index..][1..] == chains[index + 1..];
    assert Flat(chains[index..]) == chains[index] + Flat(chains[index + 1..]);
  }

  /** From any place in a bucket the `next` fields run to its end. */
  lemma ChainAt<K, V>(hash: K -> nat, mask: nat, m: Next<K, V>, cell: map<K, Entry<K, V>>, tab: seq<Entry?<K, V>>,
                      chains: seq<seq<Entry<K, V>>>, b: nat, p: seq<Entry<K, V>>, s: seq<Entry<K, V>>)
    requires Bins(hash, mask, m, cell, tab, chains) && b < |chains| && chains[b] == p + s
    ensures Chain(m, if s == [] then null else s[0], s)
    ensures p == [] ==> tab[b] == if s == [] then null else s[0]
    ensures s != [] ==> s[0].key in cell && cell[s[0].key] == s[0]
  {
    assert Bin(hash, mask, m, cell, b, tab[b], chains[b]);
    ChainSuffix(m, tab[b], p, s);
    assert s != [] ==> s[0] in chains[b];
  }

  class Iter<K(==), V> {
    const ht: Dict<K, V>
    var index: int
    var entry: Entry?<K, V>
    var nextEntry: Entry?<K, V>
    /** What has been returned from the current bucket, and what is left in it. */
    ghost var before: seq<Entry<K, V>>
    ghost var rest: seq<Entry<K, V>>

    ghost predicate Valid()
      reads this, ht
    {
      && index >= -1
      && (entry == null ==> rest == [])
      && (entry != null ==> 0 <= index < |ht.chains| && ht.chains[index] == before + rest
                            && nextEntry == if rest == [] then null else rest[0])
    }

    /** What is still to be returned. */
    ghost function Left(): seq<Entry<K, V>>
      requires index >= -1
      reads this, ht
    {
      rest + Later(ht.chains, index)
    }

    /** dictGetIterator. */
    constructor (ht: Dict<K, V>)
      ensures Valid() && Left() == Flat(ht.chains) && this.ht == ht
    {
      this.ht := ht;
      index, entry, nextEntry := -1, null, null;
      before, rest := [], [];
      new;
      assert ht.chains[0..] == ht.chains;
    }

    /** The next bucket with an entry, or the end. */
    method NextBucket() returns (more: bool)
      requires ht.Valid() && Valid() && entry == null
      modifies this
      ensures index == old(index) + 1 && (more <==> index < |ht.chains|)
      ensures more ==> ht.chains[index] == before + rest && entry == if rest == [] then null else rest[0]
      ensures !more ==> entry == null && rest == [] && old(Left()) == []
      ensures more ==> Left() == old(Left())
    {
      index := index + 1;
      more := index < ht.size;
      if more {
        entry := ht.table[index];
        before, rest := [], ht.chains[index];
        LaterStep(ht.chains, index);
        ChainAt(ht.hash, ht.sizemask, ht.m, ht.cell, ht.tab, ht.chains, index, [], rest);
      }
    }

    /** The entry just reached is handed out. */
    method Yield() returns (e: Entry<K, V>)
      requires ht.Valid() && entry != null && 0 <= index < |ht.chains| && ht.chains[index] == before + rest
      requires rest != [] && rest[0] == entry
      modifies this
      ensures ht.Valid() && Valid() && index == old(index) && entry == e && old(Left()) == [e] + Left()
      ensures before == old(before) + [e] && rest == old(rest)[1..]
    {
      ChainAt(ht.hash, ht.sizemask, ht.m, ht.cell, ht.tab, ht.chains, index, before, rest);
      nextEntry := entry.next;
      assert ht.chains[index] == before + [entry] + rest[1..];
      before, rest := before + [entry], rest[1..];
      e := entry;
    }

    /** On to the entry after the last one in this bucket, if there is one. */
    method StepOn()
      requires Valid() && entry != null
      modifies `entry
      ensures ht.chains[index] == before + rest && entry == if rest == [] then null else rest[0]
      ensures entry == null ==> Valid()
      ensures Left() == old(Left())
    {
      entry := nextEntry;
    }

    /** On to the entry after the last one, in this bucket or at the start of the next. */
    method Advance() returns (more: bool)
      requires ht.Valid() && Valid()
      modifies this
      ensures ht.Valid() && (!more ==> Valid() && entry == null && old(Left()) == [] && Left() == [])
      ensures more ==> 0 <= index < |ht.chains| && Left() == old(Left())
      ensures more ==> ht.chains[index] == before + rest && entry == if rest == [] then null else rest[0]
      ensures more && entry == null ==> Valid()
      ensures index == if old(entry) == null then old(index) + 1 else old(index)
    {
      if entry == null {
        more := NextBucket();
      } else {
        StepOn();
        more := true;
      }
    }

    /** dictNext. */
    method Next() returns (e: Entry?<K, V>)
      requires ht.Valid() && Valid()
      modifies this
      ensures ht.Valid() && Valid() && (e == null <==> old(Left()) == [])
      ensures e == entry && (e == null ==> Left() == [])
      ensures e != null ==> old(Left()) == [e] + Left() && before != [] && before[|before| - 1] == e
    {
      while true
        invariant ht.Valid() && Valid() && Left() == old(Left())
        decreases |ht.chains| - index, if entry == null then 0 else 1
      {
        var more := Advance();
        if !more {
          return null;
        }
        if entry != null {
          e := Yield();
          return;
        }
      }
    }
  }

  /** Two ways of finding an entry in the chains agree on the bucket and on the place in it. */
  lemma SamePlace<K, V>(hash: K -> nat, mask: nat, m: Next<K, V>, cell: map<K, Entry<K, V>>, tab: seq<Entry?<K, V>>,
                        chains: seq<seq<Entry<K, V>>>, e: Entry<K, V>, h: nat, p: seq<Entry<K, V>>, s: seq<Entry<K, V>>,
                        h': nat, p': seq<Entry<K, V>>, s': seq<Entry<K, V>>)
    requires Bins(hash, mask, m, cell, tab, chains) && h < |chains| && h' < |chains|
    requires chains[h] == p + [e] + s && chains[h'] == p' + [e] + s'
    ensures h == h' && p == p' && s == s'
  {
    assert Bin(hash, mask, m, cell, h, tab[h], chains[h]);
    assert Bin(hash, mask, m, cell, h', tab[h'], chains[h']);
    assert e in chains[h] && e in chains[h'];
    SameSplit(p, e, s, p', s');
  }

  /** The user of the iterator deletes the entry just returned: the rest of the iteration stands. */
  method DeleteReturned<K, V>(it: Iter<K, V>)
    requires it.ht.Valid() && it.Valid() && it.entry != null
    requires it.before != [] && it.before[|it.before| - 1] == it.entry
    modifies it`before, it.ht.table, it.ht`used, it.ht`contents, it.ht`cell, it.ht`m, it.ht`tab, it.ht`chains,
             it.ht.cell.Values`next
    ensures it.ht.Valid() && it.Valid() && it.Left() == old(it.Left())
    ensures it.ht.contents == old(it.ht.contents) - {it.entry.key}
    ensures it.ht.cell == old(it.ht.cell) - {it.entry.key}
  {
    var d, e := it.ht, it.entry;
    ghost var p := it.before[..|it.before| - 1];
    ghost var chains, index := d.chains, it.index;
    assert chains[index] == p + [e] + it.rest;
    Lodgers(d.hash, d.sizemask, d.m, d.cell, d.tab, chains, index, p, e, it.rest);
    label start:
    ghost var h, p', s';
    var ok;
    ok, h, p', s' := d.Delete(e.key);
    SamePlace(d.hash, d.sizemask, old@start(d.m), old@start(d.cell), old@start(d.tab), chains, e, index, p, it.rest, h, p', s');
    it.before := p;
    assert d.chains[index + 1..] == chains[index + 1..];
  }

  /** The map after the chosen ones among the visited have been deleted. */
  ghost function Kept<K, V>(c: map<K, V>, drop: K -> bool, visited: seq<Entry<K, V>>): map<K, V> {
    map k | k in c && !(drop(k) && k in KeySet(visited)) :: c[k]
  }

  lemma KeptStep<K, V>(c: map<K, V>, drop: K -> bool, visited: seq<Entry<K, V>>, e: Entry<K, V>)
    ensures Kept(c, drop, visited + [e]) ==
            if drop(e.key) then Kept(c, drop, visited) - {e.key} else Kept(c, drop, visited)
  {
    assert KeySet(visited + [e]) == KeySet(visited) + {e.key};
  }

  lemma KeptNone<K, V>(c: map<K, V>, drop: K -> bool)
    ensures Kept(c, drop, []) == c
  {
  }

  lemma KeptAll<K, V>(c: map<K, V>, drop: K -> bool, visited: seq<Entry<K, V>>)
    requires forall k :: k in c ==> k in KeySet(visited)
    ensures Kept(c, drop, visited) == map k | k in c && !drop(k) :: c[k]
  {
  }

  lemma Visited<T>(all: seq<T>, visited: seq<T>, e: T, left: seq<T>, left': seq<T>)
    requires all == visited + left && left == [e] + left'
    ensures all == (visited + [e]) + left'
  {
  }

  /** The caller's turn with the entry just returned. */
  method Visit<K, V>(it: Iter<K, V>, drop: K -> bool, ghost c: map<K, V>, ghost visited: seq<Entry<K, V>>)
    requires it.ht.Valid() && it.Valid() && it.entry != null
    requires it.before != [] && it.before[|it.before| - 1] == it.entry
    requires it.ht.contents == Kept(c, drop, visited)
    modifies it`before, it.ht.table, it.ht`used, it.ht`contents, it.ht`cell, it.ht`m, it.ht`tab, it.ht`chains,
             it.ht.cell.Values`next
    ensures it.ht.Valid() && it.Valid() && it.Left() == old(it.Left())
    ensures it.ht.contents == Kept(c, drop, visited + [it.entry])
    ensures it.ht.cell.Values <= old(it.ht.cell.Values)
  {
    KeptStep(c, drop, visited, it.entry);
    if drop(it.entry.key) {
      DeleteReturned(it);
    }
  }

  lemma KeysVisited<K, V>(hash: K -> nat, mask: nat, m: Next<K, V>, cell: map<K, Entry<K, V>>,
                          tab: seq<Entry?<K, V>>, chains: seq<seq<Entry<K, V>>>)
    requires Bins(hash, mask, m, cell, tab, chains)
    ensures KeySet(Flat(chains)) == cell.Keys
  {
    FlatIsCell(hash, mask, m, cell, tab, chains);
  }

  /** One round of the loop of a user of the iterator. */
  method Turn<K, V>(it: Iter<K, V>, drop: K -> bool, ghost c: map<K, V>, ghost all: seq<Entry<K, V>>,
                    visited: seq<Entry<K, V>>)
    returns (e: Entry?<K, V>, visited': seq<Entry<K, V>>, ghost left: seq<Entry<K, V>>)
    requires it.ht.Valid() && Returned(it, c, drop, all, visited, it.entry) && it.entry != null
    modifies it, it.ht.table, it.ht`used, it.ht`contents, it.ht`cell, it.ht`m, it.ht`tab, it.ht`chains,
             it.ht.cell.Values`next
    ensures it.ht.Valid() && Returned(it, c, drop, all, visited', e) && visited' == visited + [old(it.entry)]
    ensures it.ht.cell.Values <= old(it.ht.cell.Values)
  {
    Visit(it, drop, c, visited);
    visited' := visited + [it.entry];
    left := it.Left();
    Visited(all, visited, it.entry, [it.entry] + left, left);
    e := it.Next();
  }

  /** `visited` has been dealt with, `e` is in hand, and the iterator has the rest of `all`. */
  ghost predicate Returned<K, V>(it: Iter<K, V>, c: map<K, V>, drop: K -> bool, all: seq<Entry<K, V>>,
                                 visited: seq<Entry<K, V>>, e: Entry?<K, V>)
    reads it, it.ht
  {
    && it.Valid() && e == it.entry && it.ht.contents == Kept(c, drop, visited)
    && (e == null ==> all == visited)
    && (e != null ==> all == visited + ([e] + it.Left()) && it.before != [] && it.before[|it.before| - 1] == e)
  }

  /** The loop of a user of the iterator. */
  method VisitAll<K, V>(it: Iter<K, V>, drop: K -> bool, ghost c: map<K, V>) returns (visited: seq<Entry<K, V>>)
    requires it.ht.Valid() && it.Valid() && it.ht.contents == c
    modifies it, it.ht.table, it.ht`used, it.ht`contents, it.ht`cell, it.ht`m, it.ht`tab, it.ht`chains,
             it.ht.cell.Values`next
    ensures it.ht.Valid() && visited == old(it.Left()) && it.ht.contents == Kept(c, drop, visited)
  {
    visited := [];
    ghost var all := it.Left();
    KeptNone(c, drop);
    var e := it.Next();
    while e != null
      invariant it.ht.Valid() && Returned(it, c, drop, all, visited, e)
      invariant it.ht.cell.Values <= old(it.ht.cell.Values)
      decreases |all| - |visited|
    {
      ghost var left;
      e, visited, left := Turn(it, drop, c, all, visited);
    }
  }

  /** A whole iteration during which the caller deletes the entries it chooses, each just after it
      was returned: every entry there was at the start is returned exactly once, in order. */
  method Iterate<K, V>(d: Dict<K, V>, drop: K -> bool) returns (visited: seq<Entry<K, V>>)
    requires d.Valid()
    modifies d.table, d`used, d`contents, d`cell, d`m, d`tab, d`chains, d.cell.Values`next
    ensures d.Valid() && visited == Flat(old(d.chains))
    ensures NoDup(visited) && KeySet(visited) == old(d.contents).Keys && |visited| == |old(d.contents)|
    ensures forall e :: e in visited ==> e.key in old(d.cell) && old(d.cell)[e.key] == e
    ensures d.contents == map k | k in old(d.contents) && !drop(k) :: old(d.contents)[k]
  {
    var it := new Iter(d);
    ghost var c := d.contents;
    FlatIsCell(d.hash, d.sizemask, d.m, d.cell, d.tab, d.chains);
    KeysVisited(d.hash, d.sizemask, d.m, d.cell, d.tab, d.chains);
    visited := VisitAll(it, drop, c);
    KeptAll(c, drop, visited);
  }
}