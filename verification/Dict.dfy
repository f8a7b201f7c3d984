/** The chained hash table of dict.c as a refinement of a finite map. */
module Dict {
  import opened Powers
  import opened DictShape

  /** The size a table gets when `want` buckets are asked for: a power of two, until the clamp. */
  ghost predicate Granted(want: nat, n: nat) {
    && (IsPow2(n) <==> want < LONG_MAX)
    && (want >= LONG_MAX ==> n == LONG_MAX)
    && (want < LONG_MAX ==> want <= n && INITIAL_SIZE <= n && (INITIAL_SIZE < n ==> n < 2 * want))
  }

  /** The size is a power of two after an insertion exactly if the table was new, or was doubled below the clamp, or was
      a power of two and had room. */
  ghost predicate Resized(size: nat, used: nat, size': nat) {
    IsPow2(size') <==> size == 0 || (if used == size then 2 * size < LONG_MAX else IsPow2(size))
  }

  /** _dictNextPower: the smallest power of two from 4 on that is not below `size`. */
  method NextPower(size: nat) returns (i: nat)
    ensures Granted(size, i)
  {
    if size >= LONG_MAX {
      forall k: nat ensures LONG_MAX != Pow2(k) {
        Pow2Odd(k);
      }
      return LONG_MAX;
    }
    i := INITIAL_SIZE;
    ghost var k: nat := 2;
    assert Pow2(2) == 2 * Pow2(1) && Pow2(1) == 2 * Pow2(0);
    while i < size
      invariant i == Pow2(k) && INITIAL_SIZE <= i && (INITIAL_SIZE < i ==> i < 2 * size)
      decreases size - i
    {
      i := i * 2;
      k := k + 1;
    }
  }

  ghost predicate Within<K, V>(moved: map<K, Entry<K, V>>, cell: map<K, Entry<K, V>>) {
    forall k :: k in moved ==> k in cell && moved[k] == cell[k]
  }

  /** Half way through moving bucket `b`: `s` is still to go, `moved` has gone. */
  ghost predicate Moving<K, V>(hash: K -> nat, mask: nat, cell: map<K, Entry<K, V>>, b: nat, c: seq<Entry<K, V>>,
                               m0: Next<K, V>, moved0: map<K, Entry<K, V>>,
                               he: Entry?<K, V>, s: seq<Entry<K, V>>, m: Next<K, V>, moved: map<K, Entry<K, V>>) {
    Going(c, m0, he, s, m) && Gone(hash, mask, cell, b, c, moved0, s, moved)
  }

  ghost predicate Going<K, V>(c: seq<Entry<K, V>>, m0: Next<K, V>, he: Entry?<K, V>, s: seq<Entry<K, V>>, m: Next<K, V>) {
    && Chain(m, he, s) && NoDup(s) && (forall e :: e in s ==> e in c)
    && (forall e :: e in m0 && e !in c ==> e in m && m[e] == m0[e])
  }

  ghost predicate Gone<K, V>(hash: K -> nat, mask: nat, cell: map<K, Entry<K, V>>, b: nat, c: seq<Entry<K, V>>,
                             moved0: map<K, Entry<K, V>>, s: seq<Entry<K, V>>, moved: map<K, Entry<K, V>>) {
    && moved0.Keys <= moved.Keys && Within(moved, cell)
    && (forall e :: e in c ==> e.key in cell && cell[e.key] == e && Bucket(hash, mask, e.key) == b)
    && (forall e :: e in c ==> (e.key in moved <==> e !in s))
    && (forall k :: k in moved ==> k in moved0 || Bucket(hash, mask, k) == b)
  }

  lemma MovingHead<K, V>(hash: K -> nat, mask: nat, cell: map<K, Entry<K, V>>, b: nat, c: seq<Entry<K, V>>,
                         m0: Next<K, V>, moved0: map<K, Entry<K, V>>,
                         he: Entry<K, V>, s: seq<Entry<K, V>>, m: Next<K, V>, moved: map<K, Entry<K, V>>)
    requires Moving(hash, mask, cell, b, c, m0, moved0, he, s, m, moved)
    ensures s != [] && s[0] == he && he in m && he in c && he.key !in moved
    ensures he.key in cell && cell[he.key] == he
  {
    assert he == s[0] && he in s;
  }

  lemma GoingStep<K, V>(c: seq<Entry<K, V>>, m0: Next<K, V>, he: Entry<K, V>, s: seq<Entry<K, V>>, m: Next<K, V>,
                        m': Next<K, V>)
    requires Going(c, m0, he, s, m) && he in m' && m' == m[he := m'[he]]
    ensures s != [] && he in m && Going(c, m0, m[he], s[1..], m')
  {
    assert s[0] in s;
    ChainFrame(m, m', m[he], s[1..]);
  }

  lemma GoneStep<K, V>(hash: K -> nat, mask: nat, cell: map<K, Entry<K, V>>, b: nat, c: seq<Entry<K, V>>,
                       moved0: map<K, Entry<K, V>>, he: Entry<K, V>, s: seq<Entry<K, V>>, moved: map<K, Entry<K, V>>)
    requires Gone(hash, mask, cell, b, c, moved0, s, moved) && s != [] && s[0] == he && NoDup(s)
    requires he in c
    ensures Gone(hash, mask, cell, b, c, moved0, s[1..], moved[he.key := he])
  {
    assert s == [he] + s[1..];
  }

  lemma MovingStep<K, V>(hash: K -> nat, mask: nat, cell: map<K, Entry<K, V>>, b: nat, c: seq<Entry<K, V>>,
                         m0: Next<K, V>, moved0: map<K, Entry<K, V>>,
                         he: Entry<K, V>, s: seq<Entry<K, V>>, m: Next<K, V>, moved: map<K, Entry<K, V>>, m': Next<K, V>)
    requires Moving(hash, mask, cell, b, c, m0, moved0, he, s, m, moved)
    requires he in m' && m' == m[he := m'[he]]
    ensures s != [] && he in m && Moving(hash, mask, cell, b, c, m0, moved0, m[he], s[1..], m', moved[he.key := he])
  {
    MovingHead(hash, mask, cell, b, c, m0, moved0, he, s, m, moved);
    GoingStep(c, m0, he, s, m, m');
    GoneStep(hash, mask, cell, b, c, moved0, he, s, moved);
  }

  /** The first `i` old buckets have been moved. */
  ghost predicate Rehashed<K, V>(hash: K -> nat, mask: nat, cell: map<K, Entry<K, V>>, tab: seq<Entry?<K, V>>,
                                 chains: seq<seq<Entry<K, V>>>, i: nat, m: Next<K, V>, moved: map<K, Entry<K, V>>) {
    && i <= |chains| == |tab|
    && (forall b {:trigger Bin(hash, mask, m, cell, b, tab[b], chains[b])} ::
          i <= b < |chains| ==> Bin(hash, mask, m, cell, b, tab[b], chains[b]))
    && Within(moved, cell) && (forall k :: k in moved ==> Bucket(hash, mask, k) < i)
    && (forall k {:trigger Lodged(hash, mask, cell, chains, k)} :: k in cell ==> Lodged(hash, mask, cell, chains, k))
    && (forall k :: k in cell && Bucket(hash, mask, k) < i ==> k in moved)
  }

  lemma RehashBucket<K, V>(hash: K -> nat, mask: nat, cell: map<K, Entry<K, V>>, tab: seq<Entry?<K, V>>,
                           chains: seq<seq<Entry<K, V>>>, i: nat, m: Next<K, V>, moved: map<K, Entry<K, V>>)
    requires Rehashed(hash, mask, cell, tab, chains, i, m, moved) && i < |chains|
    ensures Moving(hash, mask, cell, i, chains[i], m, moved, tab[i], chains[i], m, moved)
  {
    assert Bin(hash, mask, m, cell, i, tab[i], chains[i]);
  }

  lemma RehashStep<K, V>(hash: K -> nat, mask: nat, cell: map<K, Entry<K, V>>, tab: seq<Entry?<K, V>>,
                         chains: seq<seq<Entry<K, V>>>, i: nat, m: Next<K, V>, moved: map<K, Entry<K, V>>,
                         m': Next<K, V>, moved': map<K, Entry<K, V>>)
    requires Rehashed(hash, mask, cell, tab, chains, i, m, moved) && i < |chains|
    requires Moving(hash, mask, cell, i, chains[i], m, moved, null, [], m', moved')
    ensures Rehashed(hash, mask, cell, tab, chains, i + 1, m', moved')
  {
    assert Bin(hash, mask, m, cell, i, tab[i], chains[i]);
    forall b | i + 1 <= b < |chains|
      ensures Bin(hash, mask, m', cell, b, tab[b], chains[b])
    {
      assert Bin(hash, mask, m, cell, b, tab[b], chains[b]);
      ChainFrame(m, m', tab[b], chains[b]);
    }
    forall k | k in cell && Bucket(hash, mask, k) < i + 1
      ensures k in moved'
    {
      assert Lodged(hash, mask, cell, chains, k);
      assert cell[k].key == k;
    }
  }

  lemma RehashDone<K, V>(hash: K -> nat, mask: nat, cell: map<K, Entry<K, V>>, tab: seq<Entry?<K, V>>,
                         chains: seq<seq<Entry<K, V>>>, i: nat, m: Next<K, V>, moved: map<K, Entry<K, V>>)
    requires Rehashed(hash, mask, cell, tab, chains, i, m, moved) && Total(chains[i..]) == 0
    ensures moved == cell
  {
    forall k | k in cell
      ensures k in moved
    {
      assert Lodged(hash, mask, cell, chains, k);
      var b := Bucket(hash, mask, k);
      if b >= i {
        TotalZero(chains[i..], b - i);
      }
    }
  }

  lemma Lodgers<K, V>(hash: K -> nat, mask: nat, m: Next<K, V>, cell: map<K, Entry<K, V>>, tab: seq<Entry?<K, V>>,
                      chains: seq<seq<Entry<K, V>>>, h: nat, p: seq<Entry<K, V>>, e: Entry<K, V>, s: seq<Entry<K, V>>)
    requires Bins(hash, mask, m, cell, tab, chains) && h < |chains| && chains[h] == p + [e] + s
    ensures e.key in cell && cell[e.key] == e
    ensures p != [] ==> p[|p| - 1].key in cell && cell[p[|p| - 1].key] == p[|p| - 1]
  {
    assert Bin(hash, mask, m, cell, h, tab[h], chains[h]);
    assert e in chains[h] && (p != [] ==> p[|p| - 1] in chains[h]);
  }

  /** A search of the bucket of a key finds its entry if there is one. */
  lemma Found<K, V>(hash: K -> nat, mask: nat, m: Next<K, V>, cell: map<K, Entry<K, V>>, tab: seq<Entry?<K, V>>,
                    chains: seq<seq<Entry<K, V>>>, h: nat, key: K, de: Entry?<K, V>,
                    p: seq<Entry<K, V>>, s: seq<Entry<K, V>>)
    requires Bins(hash, mask, m, cell, tab, chains) && h == Bucket(hash, mask, key) < |chains|
    requires de == null ==> forall e :: e in chains[h] ==> e.key != key
    requires de != null ==> de.key == key && chains[h] == p + [de] + s
    ensures de != null <==> key in cell
    ensures de != null ==> cell[key] == de
  {
    assert key in cell ==> Lodged(hash, mask, cell, chains, key);
    assert Bin(hash, mask, m, cell, h, tab[h], chains[h]);
    if de != null {
      assert de in p + [de] + s;
    }
  }

  /** A table of empty buckets. */
  lemma EmptyBins<K, V>(hash: K -> nat, mask: nat, m: Next<K, V>, tab: seq<Entry?<K, V>>, chains: seq<seq<Entry<K, V>>>)
    requires |tab| == |chains| && forall b :: 0 <= b < |tab| ==> tab[b] == null && chains[b] == []
    ensures Bins(hash, mask, m, map[], tab, chains) && Total(chains) == 0
  {
    NoEntries(chains);
  }

  lemma {:induction false} NoEntries<T>(chains: seq<seq<T>>)
    requires forall b :: 0 <= b < |chains| ==> chains[b] == []
    ensures Total(chains) == 0
  {
    if chains != [] {
      NoEntries(chains[1..]);
    }
  }

  /** A table under construction: its buckets, their chains and the entries in them. */
  datatype Growth<!K, !V> = Growth(tab: seq<Entry?<K, V>>, chains: seq<seq<Entry<K, V>>>, moved: map<K, Entry<K, V>>)

  /** The array holds the sequence. */
  ghost predicate Spells<T>(a: array<T>, t: seq<T>)
    reads a
  {
    a.Length == |t| && forall i :: 0 <= i < |t| ==> a[i] == t[i]
  }

  class Dict<K(==), V> {
    const hash: K -> nat
    var table: array<Entry?<K, V>>
    var size: nat
    var sizemask: nat
    var used: nat
    /** The map, the entry of each key, the `next` fields, the buckets and the chain in each bucket. */
    ghost var contents: map<K, V>
    ghost var cell: map<K, Entry<K, V>>
    ghost var m: Next<K, V>
    ghost var tab: seq<Entry?<K, V>>
    ghost var chains: seq<seq<Entry<K, V>>>

    ghost predicate Is()
      reads this, cell.Values
    {
      forall k :: k in cell ==> cell[k].key == k && cell[k] in m && cell[k].next == m[cell[k]]
    }

    ghost predicate Holds()
      reads this, cell.Values
    {
      && (forall k :: k in contents ==> k in cell)
      && (forall k :: k in cell ==> k in contents && contents[k] == cell[k].val)
    }

    ghost predicate Valid()
      reads this, table, cell.Values
    {
      && Is() && Holds() && Spells(table, tab)
      && |tab| == size && sizemask == (if size == 0 then 0 else size - 1)
      && Bins(hash, sizemask, m, cell, tab, chains)
      && used == Total(chains) && Sized(size, used)
    }

    constructor (hash: K -> nat)
      ensures Valid() && contents == map[] && size == 0 && fresh(table) && this.hash == hash
    {
      this.hash := hash;
      table := new Entry?<K, V>[0];
      size, sizemask, used := 0, 0, 0;
      contents, cell, m, tab, chains := map[], map[], map[], [], [];
    }

    /** The walk shared by dictFind, dictDelete and _dictKeyIndex. */
    method Search(h: nat, key: K)
      returns (prev: Entry?<K, V>, de: Entry?<K, V>, ghost p: seq<Entry<K, V>>, ghost s: seq<Entry<K, V>>)
      requires Is() && Spells(table, tab) && h < |tab| && Bins(hash, sizemask, m, cell, tab, chains)
      ensures de == null ==> forall e :: e in chains[h] ==> e.key != key
      ensures de != null ==> de.key == key && chains[h] == p + [de] + s
      ensures de != null ==> prev == if p == [] then null else p[|p| - 1]
    {
      ghost var c := chains[h];
      assert Bin(hash, sizemask, m, cell, h, tab[h], c);
      prev, de, p, s := null, table[h], [], c;
      while de != null
        invariant c == p + s && Chain(m, de, s) && prev == if p == [] then null else p[|p| - 1]
        invariant forall e :: e in p ==> e.key != key
        decreases |s|
      {
        assert s[0] in c && de == s[0];
        if de.key == key {
          assert c == p + [de] + s[1..];
          s := s[1..];
          return;
        }
        prev := de;
        p := p + [de];
        s := s[1..];
        de := de.next;
      }
    }

    /** dictFind. */
    method Find(key: K) returns (de: Entry?<K, V>)
      requires Valid()
      ensures de != null <==> key in contents
      ensures de != null ==> key in cell && de == cell[key] && de.val == contents[key]
    {
      if size == 0 {
        assert key in cell ==> Lodged(hash, sizemask, cell, chains, key);
        return null;
      }
      ghost var p, s;
      var prev;
      var h := Bucket(hash, sizemask, key);
      prev, de, p, s := Search(h, key);
      Found(hash, sizemask, m, cell, tab, chains, h, key, de, p, s);
    }

    /** The new table `n` holds what has been moved. */
    ghost predicate Growing(n: array<Entry?<K, V>>, mask: nat, g: Growth<K, V>)
      reads this, cell.Values, n
    {
      Is() && Spells(n, g.tab) && mask < |g.tab| && Bins(hash, mask, m, g.moved, g.tab, g.chains)
    }

    /** The entry goes to the front of its new bucket. */
    method MoveEntry(he: Entry<K, V>, n: array<Entry?<K, V>>, mask: nat, ghost g: Growth<K, V>)
      returns (ghost g': Growth<K, V>)
      requires Growing(n, mask, g) && he.key in cell && cell[he.key] == he && he.key !in g.moved
      modifies `m, n, he`next
      ensures Growing(n, mask, g') && g'.moved == g.moved[he.key := he]
      ensures |g'.tab| == |g.tab| && Total(g'.chains) == Total(g.chains) + 1
      ensures he in m && m == old(m)[he := m[he]]
    {
      var h := Bucket(hash, mask, he.key);
      Prepended(hash, mask, m, g.moved, g.tab, g.chains, he, h);
      TotalUpdate(g.chains, h, [he] + g.chains[h]);
      he.next := n[h];
      m := m[he := he.next];
      n[h] := he;
      g' := Growth(g.tab[h := he], g.chains[h := [he] + g.chains[h]], g.moved[he.key := he]);
    }

    /** One round of the inner loop of dictExpand. */
    method MoveNext(he: Entry<K, V>, n: array<Entry?<K, V>>, mask: nat, ghost b: nat, ghost c: seq<Entry<K, V>>,
                    ghost m0: Next<K, V>, ghost moved0: map<K, Entry<K, V>>, ghost s: seq<Entry<K, V>>,
                    ghost g: Growth<K, V>)
      returns (nextHe: Entry?<K, V>, ghost g': Growth<K, V>)
      requires Growing(n, mask, g) && Moving(hash, sizemask, cell, b, c, m0, moved0, he, s, m, g.moved) && |s| <= used
      modifies `m, `used, n, cell.Values`next
      ensures Growing(n, mask, g') && |g'.tab| == |g.tab| && Total(g'.chains) == Total(g.chains) + 1
      ensures used == old(used) - 1 && s != []
      ensures Moving(hash, sizemask, cell, b, c, m0, moved0, nextHe, s[1..], m, g'.moved)
    {
      ghost var before := m;
      MovingHead(hash, sizemask, cell, b, c, m0, moved0, he, s, m, g.moved);
      nextHe := he.next;
      g' := MoveEntry(he, n, mask, g);
      used := used - 1;
      MovingStep(hash, sizemask, cell, b, c, m0, moved0, he, s, before, g.moved, m);
    }

    /** The inner loop of dictExpand: all entries of one old bucket. */
    method MoveChain(first: Entry?<K, V>, n: array<Entry?<K, V>>, mask: nat, ghost b: nat, ghost c: seq<Entry<K, V>>,
                     ghost g: Growth<K, V>) returns (ghost g': Growth<K, V>)
      requires Growing(n, mask, g) && Moving(hash, sizemask, cell, b, c, m, g.moved, first, c, m, g.moved) && |c| <= used
      modifies `m, `used, n, cell.Values`next
      ensures Growing(n, mask, g') && |g'.tab| == |g.tab| && Total(g'.chains) == Total(g.chains) + |c|
      ensures used == old(used) - |c|
      ensures Moving(hash, sizemask, cell, b, c, old(m), g.moved, null, [], m, g'.moved)
    {
      g' := g;
      var he := first;
      ghost var s := c;
      while he != null
        invariant Growing(n, mask, g') && |g'.tab| == |g.tab| && Total(g'.chains) == Total(g.chains) + |c| - |s|
        invariant used == old(used) - |c| + |s|
        invariant Moving(hash, sizemask, cell, b, c, old(m), g.moved, he, s, m, g'.moved)
        decreases |s|
      {
        he, g' := MoveNext(he, n, mask, b, c, old(m), g.moved, s, g');
        s := s[1..];
      }
    }

    /** One round of the outer loop of dictExpand. */
    method RehashBucketAt(i: nat, n: array<Entry?<K, V>>, mask: nat, ghost g: Growth<K, V>)
      returns (ghost g': Growth<K, V>)
      requires Growing(n, mask, g) && Spells(table, tab) && n != table && i < |tab|
      requires Rehashed(hash, sizemask, cell, tab, chains, i, m, g.moved) && used == Total(chains[i..])
      modifies `m, `used, n, cell.Values`next
      ensures Growing(n, mask, g') && |g'.tab| == |g.tab| && used == Total(chains[i + 1..])
      ensures Total(g'.chains) + used == Total(g.chains) + old(used)
      ensures Rehashed(hash, sizemask, cell, tab, chains, i + 1, m, g'.moved)
    {
      ghost var before := m;
      assert chains[i..][1..] == chains[i + 1..];
      RehashBucket(hash, sizemask, cell, tab, chains, i, m, g.moved);
      g' := MoveChain(table[i], n, mask, i, chains[i], g);
      RehashStep(hash, sizemask, cell, tab, chains, i, before, g.moved, m, g'.moved);
    }

    /** The outer loop of dictExpand. It stops early when `used` has been counted down, and by then
        everything has moved. */
    method Rehash(n: array<Entry?<K, V>>, mask: nat, ghost g: Growth<K, V>) returns (ghost g': Growth<K, V>)
      requires Growing(n, mask, g) && Spells(table, tab) && n != table && |tab| == size
      requires Rehashed(hash, sizemask, cell, tab, chains, 0, m, g.moved) && used == Total(chains)
      modifies `m, `used, n, cell.Values`next
      ensures Growing(n, mask, g') && used == 0 && g'.moved == cell && |g'.tab| == |g.tab|
      ensures Total(g'.chains) == Total(g.chains) + old(used)
    {
      g' := g;
      var i := 0;
      assert chains[0..] == chains;
      while i < size && used > 0
        invariant i <= size && Spells(table, tab)
        invariant Growing(n, mask, g') && |g'.tab| == |g.tab| && used == Total(chains[i..])
        invariant Total(g'.chains) + used == Total(g.chains) + old(used)
        invariant Rehashed(hash, sizemask, cell, tab, chains, i, m, g'.moved)
        decreases size - i
      {
        g' := RehashBucketAt(i, n, mask, g');
        i := i + 1;
      }
      RehashDone(hash, sizemask, cell, tab, chains, i, m, g'.moved);
    }

    /** The new table takes the place of the old one. */
    method Install(n: array<Entry?<K, V>>, realsize: nat, mask: nat, count: nat, ghost g: Growth<K, V>)
      requires Growing(n, mask, g) && Holds() && g.moved == cell
      requires |g.tab| == realsize && mask == realsize - 1 && count == Total(g.chains) && Sized(realsize, count)
      modifies `table, `size, `sizemask, `used, `tab, `chains
      ensures Valid() && table == n && size == realsize && used == count
    {
      table, size, sizemask, used, tab, chains := n, realsize, mask, count, g.tab, g.chains;
    }

    method NewTable(realsize: nat, mask: nat) returns (n: array<Entry?<K, V>>, ghost g: Growth<K, V>)
      requires Is() && mask < realsize
      ensures fresh(n) && Growing(n, mask, g) && |g.tab| == realsize && g.moved == map[] && Total(g.chains) == 0
    {
      n := new Entry?<K, V>[realsize](_ => null);
      g := Growth(seq(realsize, _ => null), seq(realsize, _ => []), map[]);
      EmptyBins(hash, mask, m, g.tab, g.chains);
    }

    /** dictExpand. */
    method Expand(want: nat) returns (ok: bool)
      requires Valid()
      modifies `table, `size, `sizemask, `used, `m, `tab, `chains, cell.Values`next
      ensures Valid() && (ok <==> old(used) <= want) && used == old(used)
      ensures ok ==> fresh(table) && Granted(want, size)
      ensures !ok ==> table == old(table) && size == old(size) && m == old(m) && chains == old(chains)
    {
      var realsize := NextPower(want);
      if used > want {
        return false;
      }
      var mask, count := realsize - 1, used;
      var n, g := NewTable(realsize, mask);
      g := Rehash(n, mask, g);
      Install(n, realsize, mask, count, g);
      return true;
    }

    /** _dictExpandIfNeeded never fails. The size stays a power of two exactly while doubling stays
        below the clamp. */
    method ExpandIfNeeded() returns (ok: bool)
      requires Valid()
      modifies `table, `size, `sizemask, `used, `m, `tab, `chains, cell.Values`next
      ensures ok && Valid() && used == old(used)
      ensures size > 0 && (used < size || size == LONG_MAX)
      ensures table == old(table) || fresh(table)
      ensures Resized(old(size), old(used), size)
    {
      if size == 0 {
        ok := Expand(INITIAL_SIZE);
      } else if used == size {
        ok := Expand(size * 2);
      } else {
        ok := true;
      }
    }

    /** _dictKeyIndex. */
    method KeyIndex(key: K) returns (index: int)
      requires Valid()
      modifies `table, `size, `sizemask, `used, `m, `tab, `chains, cell.Values`next
      ensures Valid() && used == old(used)
      ensures size > 0 && (used < size || size == LONG_MAX)
      ensures table == old(table) || fresh(table)
      ensures Resized(old(size), old(used), size)
      ensures index == -1 <==> key in cell
      ensures index != -1 ==> 0 <= index < size && index == Bucket(hash, sizemask, key)
      ensures index != -1 && IsPow2(size) ==> index == hash(key) % size
    {
      var ok := ExpandIfNeeded();
      if !ok {
        return -1;
      }
      var h := Bucket(hash, sizemask, key);
      var prev, he;
      ghost var p, s;
      prev, he, p, s := Search(h, key);
      Found(hash, sizemask, m, cell, tab, chains, h, key, he, p, s);
      if IsPow2(size) {
        BucketIsRemainder(hash, size, key);
      }
      return if he != null then -1 else h;
    }

    /** A new entry, linked in at the front of bucket `h`. */
    method Link(h: nat, key: K, val: V) returns (entry: Entry<K, V>)
      requires Is() && Holds() && Spells(table, tab) && h < |tab|
      modifies table, `m, `tab
      ensures Is() && Holds() && Spells(table, tab) && fresh(entry)
      ensures entry.key == key && entry.val == val && entry.next == old(tab)[h]
      ensures m == old(m)[entry := entry.next] && tab == old(tab)[h := entry]
    {
      entry := new Entry<K, V>(key, val, table[h]);
      m := m[entry := table[h]];
      table[h] := entry;
      tab := tab[h := entry];
    }

    method Prepend(h: nat, key: K, val: V)
      requires Valid() && key !in cell && h == Bucket(hash, sizemask, key) < size && (used < size || size == LONG_MAX)
      modifies table, `used, `contents, `cell, `m, `tab, `chains
      ensures Valid() && contents == old(contents)[key := val] && used == old(used) + 1
      ensures key in cell && fresh(cell[key]) && cell == old(cell)[key := cell[key]]
    {
      ghost var m0, tab0 := m, tab;
      var entry := Link(h, key, val);
      Prepended(hash, sizemask, m0, cell, tab0, chains, entry, h);
      TotalUpdate(chains, h, [entry] + chains[h]);
      contents, cell, chains := contents[key := val], cell[key := entry], chains[h := [entry] + chains[h]];
      used := used + 1;
    }

    /** dictAdd. */
    method Add(key: K, val: V) returns (ok: bool)
      requires Valid()
      modifies this, table, cell.Values`next
      ensures Valid() && (ok <==> key !in old(contents))
      ensures contents == if ok then old(contents)[key := val] else old(contents)
      ensures Resized(old(size), old(used), size)
      ensures table == old(table) || fresh(table)
      ensures fresh(cell.Values - old(cell.Values))
    {
      var index := KeyIndex(key);
      if index == -1 {
        return false;
      }
      Prepend(index, key, val);
      return true;
    }

    /** dictReplace: true when the key is new. */
    method Replace(key: K, val: V) returns (added: bool)
      requires Valid()
      modifies this, table, cell.Values
      ensures Valid() && (added <==> key !in old(contents)) && contents == old(contents)[key := val]
      ensures Resized(old(size), old(used), size)
      ensures table == old(table) || fresh(table)
      ensures fresh(cell.Values - old(cell.Values))
    {
      added := Add(key, val);
      if added {
        return;
      }
      var entry := Find(key);
      SetVal(entry, val);
    }

    method SetVal(entry: Entry<K, V>, val: V)
      requires Valid() && entry.key in cell && cell[entry.key] == entry
      modifies entry`val, `contents
      ensures Valid() && contents == old(contents)[entry.key := val]
    {
      entry.val := val;
      contents := contents[entry.key := val];
    }

    /** The predecessor of `de`, or the bucket, is made to point past it. */
    method Bypass(h: nat, prev: Entry?<K, V>, de: Entry<K, V>)
      requires Is() && Holds() && Spells(table, tab) && h < |tab|
      requires de.key in cell && cell[de.key] == de && (prev != null ==> prev.key in cell && cell[prev.key] == prev)
      modifies table, `m, `tab, cell.Values`next
      ensures Is() && Holds() && Spells(table, tab) && de in old(m)
      ensures m == if prev == null then old(m) else old(m)[prev := old(m)[de]]
      ensures tab == if prev == null then old(tab)[h := old(m)[de]] else old(tab)
    {
      if prev != null {
        prev.next := de.next;
        m := m[prev := m[de]];
      } else {
        table[h] := de.next;
        tab := tab[h := m[de]];
      }
    }

    /** The entry between `p` and `s` is unlinked from bucket `h`. */
    method Unlink(h: nat, prev: Entry?<K, V>, de: Entry<K, V>, ghost p: seq<Entry<K, V>>, ghost s: seq<Entry<K, V>>)
      requires Valid() && h < size && chains[h] == p + [de] + s && prev == if p == [] then null else p[|p| - 1]
      requires used > 0
      modifies table, `used, `contents, `cell, `m, `tab, `chains, cell.Values`next
      ensures Valid() && contents == old(contents) - {de.key} && cell == old(cell) - {de.key}
      ensures h < |old(chains)| && chains == old(chains)[h := p + s]
    {
      ghost var m0, tab0 := m, tab;
      Lodgers(hash, sizemask, m, cell, tab, chains, h, p, de, s);
      Bypass(h, prev, de);
      Removed(hash, sizemask, m0, cell, tab0, chains, h, p, de, s, m, tab);
      TotalUpdate(chains, h, p + s);
      Forget(de.key, chains[h := p + s]);
    }

    /** The entry is gone from the buckets, and is no longer counted. */
    method Forget(key: K, ghost chains': seq<seq<Entry<K, V>>>)
      requires Is() && Holds() && Spells(table, tab) && |tab| == size && sizemask == (if size == 0 then 0 else size - 1)
      requires Bins(hash, sizemask, m, cell - {key}, tab, chains') && used == Total(chains') + 1 && Sized(size, used)
      modifies `used, `contents, `cell, `chains
      ensures Valid() && contents == old(contents) - {key} && cell == old(cell) - {key} && chains == chains'
    {
      contents, cell, chains := contents - {key}, cell - {key}, chains';
      used := used - 1;
    }

    /** dictDelete. */
    method Delete(key: K) returns (ok: bool, ghost h: nat, ghost p: seq<Entry<K, V>>, ghost s: seq<Entry<K, V>>)
      requires Valid()
      modifies table, `used, `contents, `cell, `m, `tab, `chains, cell.Values`next
      ensures Valid() && (ok <==> key in old(contents)) && contents == old(contents) - {key}
      ensures ok ==> h < |old(chains)| && key in old(cell) && old(chains)[h] == p + [old(cell)[key]] + s
                     && cell == old(cell) - {key} && chains == old(chains)[h := p + s]
      ensures !ok ==> chains == old(chains) && cell == old(cell)
    {
      ok, h, p, s := false, 0, [], [];
      if size == 0 {
        assert key in cell ==> Lodged(hash, sizemask, cell, chains, key);
        return;
      }
      var b := Bucket(hash, sizemask, key);
      h := b;
      var prev, de;
      prev, de, p, s := Search(b, key);
      Found(hash, sizemask, m, cell, tab, chains, b, key, de, p, s);
      if de == null {
        return;
      }
      TotalAtLeast(chains, b);
      Unlink(b, prev, de, p, s);
      ok := true;
    }
  }
}