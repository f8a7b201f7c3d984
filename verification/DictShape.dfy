/** Masks, table sizes and bucket chains of the hash table in dict.c, as values. */
module DictShape {
  import opened Powers

  const INITIAL_SIZE: nat := 4

  /** The largest long, which has 32 or 64 bits. */
  type LongMax = n: nat | n == 0x7FFF_FFFF || n == 0x7FFF_FFFF_FFFF_FFFF witness 0x7FFF_FFFF

  const LONG_MAX: LongMax

  // ----- Masks and sizes -----

  /** The & of C on unsigned values. */
  function BitAnd(x: nat, y: nat): (r: nat)
    ensures r <= y
  {
    if x == 0 || y == 0 then 0 else 2 * BitAnd(x / 2, y / 2) + (if x % 2 == 1 && y % 2 == 1 then 1 else 0)
  }

  /** Masking with a power of two less one is the remainder. */
  lemma MaskIsRemainder(x: nat, k: nat)
    ensures BitAnd(x, Pow2(k) - 1) == x % Pow2(k)
  {
    MaskIsRem(x, k);
    RemIsRemainder(x, Pow2(k));
  }

  /** The remainder by repeated subtraction. */
  ghost function Rem(x: nat, d: nat): nat
    requires d > 0
  {
    if x < d then x else Rem(x - d, d)
  }

  lemma {:induction false} MaskIsRem(x: nat, k: nat)
    ensures BitAnd(x, Pow2(k) - 1) == Rem(x, Pow2(k))
  {
    if k == 0 {
      RemOne(x);
    } else {
      MaskIsRem(x / 2, k - 1);
      MaskRemStep(x / 2, x % 2, Pow2(k - 1));
    }
  }

  lemma MaskRemStep(h: nat, b: nat, p: nat)
    requires p > 0 && b < 2 && BitAnd(h, p - 1) == Rem(h, p)
    ensures BitAnd(2 * h + b, 2 * p - 1) == Rem(2 * h + b, 2 * p)
  {
    MaskDouble(h, b, p);
    RemDouble(h, b, p);
  }

  lemma MaskDouble(h: nat, b: nat, p: nat)
    requires p > 0 && b < 2
    ensures BitAnd(2 * h + b, 2 * p - 1) == 2 * BitAnd(h, p - 1) + b
  {
    assert (2 * p - 1) / 2 == p - 1 && (2 * p - 1) % 2 == 1;
    assert (2 * h + b) / 2 == h && (2 * h + b) % 2 == b;
  }

  lemma {:induction false} RemOne(x: nat)
    ensures Rem(x, 1) == 0
  {
    if x > 0 {
      RemOne(x - 1);
    }
  }

  lemma {:induction false} RemDouble(h: nat, b: nat, p: nat)
    requires p > 0 && b < 2
    ensures Rem(2 * h + b, 2 * p) == 2 * Rem(h, p) + b
    decreases h
  {
    if h >= p {
      RemDouble(h - p, b, p);
      assert 2 * (h - p) + b == 2 * h + b - 2 * p;
    }
  }

  lemma {:induction false} RemIsRemainder(x: nat, d: nat)
    requires d > 0
    ensures Rem(x, d) == x % d
    decreases x
  {
    if x >= d {
      RemIsRemainder(x - d, d);
      LessDivisor(x, d);
    }
  }

  lemma LessDivisor(x: nat, d: nat)
    requires 0 < d <= x
    ensures x % d == (x - d) % d
  {
    var q, r := x / d, x % d;
    var q', r' := (x - d) / d, (x - d) % d;
    assert x == d * q + r;
    assert x - d == d * q' + r';
    assert d * (q - q' - 1) == r' - r by {
      assert d * (q - q' - 1) == d * q - d * q' - d;
    }
    Small(d, q - q' - 1);
  }

  lemma Small(d: int, n: int)
    requires -d < d * n < d
    ensures n == 0
  {
  }

  lemma {:induction false} Pow2Odd(k: nat)
    ensures Pow2(k) % 2 == 1 ==> Pow2(k) == 1
  {
  }

  /** A table doubles for ever as a power of two, and stops doing so exactly at the clamp. */
  ghost predicate Sized(size: nat, used: nat) {
    && (size == 0 || (INITIAL_SIZE <= size && IsPow2(size)) || size == LONG_MAX)
    && (used <= size || size == LONG_MAX)
  }

  // ----- Chains -----

  class Entry<K, V> {
    const key: K
    var val: V
    var next: Entry?<K, V>

    constructor (key: K, val: V, next: Entry?<K, V>)
      ensures this.key == key && this.val == val && this.next == next
    {
      this.key, this.val, this.next := key, val, next;
    }
  }

  /** The `next` field of every entry in use. */
  type Next<!K, !V> = map<Entry<K, V>, Entry?<K, V>>

  /** From `first`, the `next` fields run through `c` and end. */
  ghost predicate Chain<K, V>(m: Next<K, V>, first: Entry?<K, V>, c: seq<Entry<K, V>>) {
    if c == [] then first == null else first == c[0] && c[0] in m && Chain(m, m[c[0]], c[1..])
  }

  ghost predicate NoDup<T>(c: seq<T>) {
    c == [] || (c[0] !in c[1..] && NoDup(c[1..]))
  }

  function Bucket<K>(hash: K -> nat, mask: nat, k: K): nat {
    BitAnd(hash(k), mask)
  }

  /** In a table whose size is a power of two the bucket is the remainder of the hash. */
  lemma BucketIsRemainder<K>(hash: K -> nat, size: nat, k: K)
    requires IsPow2(size)
    ensures Bucket(hash, size - 1, k) == hash(k) % size
  {
    var e: nat :| size == Pow2(e);
    MaskIsRemainder(hash(k), e);
  }

  /** Bucket `b` starts at `first` and holds entries of that bucket, each the one entry of its key. */
  ghost predicate Bin<K, V>(hash: K -> nat, mask: nat, m: Next<K, V>, cell: map<K, Entry<K, V>>,
                            b: nat, first: Entry?<K, V>, c: seq<Entry<K, V>>) {
    && Chain(m, first, c) && NoDup(c)
    && (forall e :: e in c ==> e.key in cell && cell[e.key] == e && Bucket(hash, mask, e.key) == b)
  }

  /** All buckets together hold exactly the entries `cell`. */
  ghost predicate Bins<K, V>(hash: K -> nat, mask: nat, m: Next<K, V>, cell: map<K, Entry<K, V>>,
                             tab: seq<Entry?<K, V>>, chains: seq<seq<Entry<K, V>>>) {
    && |tab| == |chains|
    && (forall b {:trigger Bin(hash, mask, m, cell, b, tab[b], chains[b])} ::
          0 <= b < |chains| ==> Bin(hash, mask, m, cell, b, tab[b], chains[b]))
    && (forall k {:trigger Lodged(hash, mask, cell, chains, k)} :: k in cell ==> Lodged(hash, mask, cell, chains, k))
  }

  ghost predicate Lodged<K, V>(hash: K -> nat, mask: nat, cell: map<K, Entry<K, V>>,
                               chains: seq<seq<Entry<K, V>>>, k: K)
    requires k in cell
  {
    cell[k].key == k && Bucket(hash, mask, k) < |chains| && cell[k] in chains[Bucket(hash, mask, k)]
  }

  lemma {:induction false} ChainFrame<K, V>(m: Next<K, V>, m': Next<K, V>, first: Entry?<K, V>, c: seq<Entry<K, V>>)
    requires Chain(m, first, c) && forall e :: e in c && e in m ==> e in m' && m'[e] == m[e]
    ensures Chain(m', first, c)
    decreases |c|
  {
    if c != [] {
      ChainFrame(m, m', m[c[0]], c[1..]);
    }
  }

  /** An entry put at the front of its bucket. */
  lemma Prepended<K, V>(hash: K -> nat, mask: nat, m: Next<K, V>, cell: map<K, Entry<K, V>>,
                        tab: seq<Entry?<K, V>>, chains: seq<seq<Entry<K, V>>>, e: Entry<K, V>, h: nat)
    requires Bins(hash, mask, m, cell, tab, chains)
    requires e.key !in cell && h == Bucket(hash, mask, e.key) < |chains|
    ensures Bins(hash, mask, m[e := tab[h]], cell[e.key := e], tab[h := e], chains[h := [e] + chains[h]])
  {
    var m', cell', tab', chains' := m[e := tab[h]], cell[e.key := e], tab[h := e], chains[h := [e] + chains[h]];
    forall b | 0 <= b < |chains'|
      ensures Bin(hash, mask, m', cell', b, tab'[b], chains'[b])
    {
      assert Bin(hash, mask, m, cell, b, tab[b], chains[b]);
      assert e !in chains[b];
      ChainFrame(m, m', tab[b], chains[b]);
      if b == h {
        assert chains'[b][1..] == chains[b];
      }
    }
    forall k | k in cell'
      ensures Lodged(hash, mask, cell', chains', k)
    {
      assert k in cell ==> Lodged(hash, mask, cell, chains, k);
    }
  }

  /** The chain with the entry in the middle bypassed. */
  lemma {:induction false} ChainBypass<K, V>(m: Next<K, V>, first: Entry?<K, V>, p: seq<Entry<K, V>>, e: Entry<K, V>,
                                             s: seq<Entry<K, V>>)
    requires Chain(m, first, p + [e] + s) && NoDup(p + [e] + s)
    ensures e in m
    ensures NoDup(p + s) && e !in p + s
    ensures p == [] ==> Chain(m, m[e], p + s)
    ensures p != [] ==> Chain(m[p[|p| - 1] := m[e]], first, p + s)
    decreases |p|
  {
    var c := p + [e] + s;
    if p == [] {
      assert c[1..] == s && p + s == s;
    } else {
      assert c[1..] == p[1..] + [e] + s;
      ChainBypass(m, m[p[0]], p[1..], e, s);
      assert (p + s)[1..] == p[1..] + s;
      if |p| == 1 {
        assert p[1..] + s == s;
        ChainFrame(m, m[p[0] := m[e]], m[e], s);
      } else {
        assert p[|p| - 1] == p[1..][|p| - 2] && p[|p| - 1] in c[1..];
      }
    }
  }

  /** An entry taken out of its bucket. */
  lemma Removed<K, V>(hash: K -> nat, mask: nat, m: Next<K, V>, cell: map<K, Entry<K, V>>, tab: seq<Entry?<K, V>>,
                      chains: seq<seq<Entry<K, V>>>, h: nat, p: seq<Entry<K, V>>, e: Entry<K, V>, s: seq<Entry<K, V>>,
                      m': Next<K, V>, tab': seq<Entry?<K, V>>)
    requires Bins(hash, mask, m, cell, tab, chains) && h < |chains| && chains[h] == p + [e] + s && e in m
    requires m' == if p == [] then m else m[p[|p| - 1] := m[e]]
    requires tab' == if p == [] then tab[h := m[e]] else tab
    ensures Bins(hash, mask, m', cell - {e.key}, tab', chains[h := p + s])
  {
    var cell', chains' := cell - {e.key}, chains[h := p + s];
    assert Bin(hash, mask, m, cell, h, tab[h], chains[h]);
    ChainBypass(m, tab[h], p, e, s);
    assert e in chains[h] && forall x :: x in p + s ==> x in chains[h];
    assert p != [] ==> p[|p| - 1] in chains[h];
    forall b | 0 <= b < |chains'|
      ensures Bin(hash, mask, m', cell', b, tab'[b], chains'[b])
    {
      assert Bin(hash, mask, m, cell, b, tab[b], chains[b]);
      if b != h {
        ChainFrame(m, m', tab[b], chains[b]);
      }
    }
    forall k | k in cell'
      ensures Lodged(hash, mask, cell', chains', k)
    {
      assert Lodged(hash, mask, cell, chains, k);
    }
  }

  /** The number of entries. */
  ghost function Total<T>(chains: seq<seq<T>>): nat {
    if chains == [] then 0 else |chains[0]| + Total(chains[1..])
  }

  lemma {:induction false} TotalUpdate<T>(chains: seq<seq<T>>, h: nat, c: seq<T>)
    requires h < |chains|
    ensures Total(chains[h := c]) + |chains[h]| == Total(chains) + |c|
  {
    if h == 0 {
      assert chains[h := c][1..] == chains[1..];
    } else {
      TotalUpdate(chains[1..], h - 1, c);
      assert chains[h := c][1..] == chains[1..][h - 1 := c];
    }
  }

  lemma {:induction false} TotalZero<T>(chains: seq<seq<T>>, b: nat)
    requires Total(chains) == 0 && b < |chains|
    ensures chains[b] == []
  {
    if b > 0 {
      TotalZero(chains[1..], b - 1);
    }
  }

  lemma {:induction false} TotalAtLeast<T>(chains: seq<seq<T>>, b: nat)
    requires b < |chains|
    ensures Total(chains) >= |chains[b]|
  {
    if b > 0 {
      TotalAtLeast(chains[1..], b - 1);
    }
  }
}
