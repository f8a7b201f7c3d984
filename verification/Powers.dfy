/** Powers of two and their logarithm. */
module Powers {
  function Pow2(k: nat): (r: nat)
    ensures r >= 1
  {
    if k == 0 then 1 else 2 * Pow2(k - 1)
  }

  ghost predicate IsPow2(n: nat) {
    exists k: nat :: n == Pow2(k)
  }

  lemma {:induction false} Pow2Mono(j: nat, k: nat)
    requires j <= k
    ensures Pow2(j) <= Pow2(k)
  {
    if j < k {
      Pow2Mono(j, k - 1);
    }
  }

  lemma {:induction false} Pow2Large(k: nat)
    ensures Pow2(k) > k
  {
    if k > 0 {
      Pow2Large(k - 1);
    }
  }

  /** The logarithm, rounded down; 0 for 0. */
  ghost function Lg(n: nat): nat {
    LgFrom(n, 0)
  }

  ghost function LgFrom(n: nat, k: nat): nat
    decreases n - k
  {
    Pow2Large(k + 1);
    if n < Pow2(k + 1) then k else LgFrom(n, k + 1)
  }

  lemma {:induction false} LgFromIs(n: nat, k: nat)
    requires Pow2(k) <= n
    ensures var l := LgFrom(n, k); Pow2(l) <= n < Pow2(l + 1)
    decreases n - k
  {
    Pow2Large(k + 1);
    if n >= Pow2(k + 1) {
      LgFromIs(n, k + 1);
    }
  }

  lemma LgIs(n: nat)
    requires 1 <= n
    ensures Pow2(Lg(n)) <= n < Pow2(Lg(n) + 1)
  {
    LgFromIs(n, 0);
  }

  lemma LgMono(a: nat, b: nat)
    requires a <= b
    ensures Lg(a) <= Lg(b)
  {
    if 1 <= a {
      LgIs(a);
      LgIs(b);
      if Lg(b) < Lg(a) {
        Pow2Mono(Lg(b) + 1, Lg(a));
      }
    }
  }

  lemma LgNext(n: nat)
    requires 1 <= n
    ensures Lg(n + 1) <= Lg(n) + 1
  {
    LgIs(n);
    LgIs(n + 1);
    if Lg(n) + 2 <= Lg(n + 1) {
      Pow2Mono(Lg(n) + 2, Lg(n + 1));
    }
  }

  /** Two parts of a whole cannot both be as long as the whole, in binary. */
  lemma LgSum(a: nat, b: nat, t: nat)
    requires 1 <= a && 1 <= b && a + b <= t
    ensures Lg(a) + Lg(b) + 1 <= 2 * Lg(t)
  {
    LgMono(a, t);
    LgMono(b, t);
    LgIs(a);
    LgIs(b);
    LgIs(t);
    assert Pow2(Lg(t) + 1) == 2 * Pow2(Lg(t));
  }
}
