/** What a history of inserts, removes and finds means for a set of keys. */
module SetRuns {
  datatype Op = Insert(key: int) | Remove(key: int) | Find(key: int)

  /** The set afterwards, and whether the key was there before. */
  function Step(s: set<int>, op: Op): (set<int>, bool) {
    match op
    case Insert(k) => (s + {k}, k in s)
    case Remove(k) => (s - {k}, k in s)
    case Find(k) => (s, k in s)
  }

  function Run(ops: seq<Op>): (set<int>, seq<bool>) {
    if ops == [] then ({}, [])
    else
      var (s, answers) := Run(ops[..|ops| - 1]);
      var (s', answer) := Step(s, ops[|ops| - 1]);
      (s', answers + [answer])
  }

  // ----- The keys of a sequence of nodes -----

  ghost function Keys<T>(ns: seq<T>, key: T -> int): set<int> {
    set n | n in ns :: key(n)
  }

  ghost predicate Ascending<T>(ns: seq<T>, key: T -> int) {
    forall i, j :: 0 <= i < j < |ns| ==> key(ns[i]) < key(ns[j])
  }

  lemma KeysInsert<T>(a: seq<T>, n: T, b: seq<T>, key: T -> int)
    ensures Keys(a + [n] + b, key) == Keys(a + b, key) + {key(n)}
  {
    var all := a + [n] + b;
    assert forall x :: x in all <==> x in a + b || x == n;
  }

  lemma KeysRemove<T>(a: seq<T>, n: T, b: seq<T>, key: T -> int)
    requires Ascending(a + [n] + b, key)
    ensures Keys(a + b, key) == Keys(a + [n] + b, key) - {key(n)} && key(n) in Keys(a + [n] + b, key)
  {
    var all := a + [n] + b;
    KeysInsert(a, n, b, key);
    forall x | x in a + b
      ensures key(x) != key(n)
    {
      var i :| 0 <= i < |a + b| && (a + b)[i] == x;
      assert all[|a|] == n && all[if i < |a| then i else i + 1] == x;
    }
  }

  lemma KeysAbsent<T>(ns: seq<T>, k: int, key: T -> int)
    requires forall n :: n in ns ==> key(n) != k
    ensures k !in Keys(ns, key) && Keys(ns, key) - {k} == Keys(ns, key)
  {
  }

  lemma KeysPresent<T>(ns: seq<T>, n: T, key: T -> int)
    requires n in ns
    ensures key(n) in Keys(ns, key) && Keys(ns, key) + {key(n)} == Keys(ns, key)
  {
  }
}
