/** Facts of arithmetic and of finite sets that several modules use. */
module Facts {

  lemma MulLe(a: nat, b: nat, n: nat)
    ensures a <= b ==> a * n <= b * n
  {
  }

  lemma DivIs(n: nat, q: nat, r: nat, d: nat)
    requires r < d && n == q * d + r
    ensures n / d == q && n % d == r
  {
    var p := n / d;
    assert n == p * d + n % d;
    MulLe(p + 1, q, d);
    MulLe(q + 1, p, d);
  }

  lemma SubsetSize<T>(a: set<T>, b: set<T>)
    requires a <= b
    ensures |a| <= |b| && (|a| == |b| ==> a == b)
  {
    assert b == a + (b - a);
  }

  lemma {:induction false} RangeSize(s: set<nat>, a: nat, b: nat)
    requires a <= b && forall q :: q in s <==> a <= q < b
    ensures |s| == b - a
    decreases b - a
  {
    if a == b { assert s == {}; } else { RangeSize(s - {b - 1}, a, b - 1); }
  }

  /** What is met twice in a sequence counts twice. */
  lemma Twice(s: seq<nat>, i: nat, j: nat)
    requires i < j < |s|
    ensures s[i] == s[j] ==> multiset(s)[s[i]] >= 2
  {
    assert s == s[..j] + ([s[j]] + s[j + 1..]);
    assert s[..j][i] == s[i];
    assert multiset(s) == multiset(s[..j]) + (multiset{s[j]} + multiset(s[j + 1..]));
  }
}
