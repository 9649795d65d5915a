/** The hash representation of a bitvec: open addressing with linear probing and no deletion in place. */
module BitHash {
  const BITVEC_NINT: nat := 124
  const BITVEC_MXHASH: nat := 62

  /** Slot reached from slot h in k steps. */
  function Slot(h: nat, k: nat): (r: nat)
    requires h < BITVEC_NINT && k < BITVEC_NINT
    ensures r < BITVEC_NINT
  {
    if h + k < BITVEC_NINT then h + k else h + k - BITVEC_NINT
  }

  /** Number of steps from slot h to slot s. */
  function Dist(h: nat, s: nat): (k: nat)
    requires h < BITVEC_NINT && s < BITVEC_NINT
    ensures k < BITVEC_NINT && Slot(h, k) == s
  {
    if h <= s then s - h else s + BITVEC_NINT - h
  }

  /** BITVEC_HASH of the value before it was incremented. */
  function Home(v: nat): (h: nat)
    requires v > 0
    ensures h < BITVEC_NINT
  {
    (v - 1) % BITVEC_NINT
  }

  function Count(a: seq<nat>): (r: nat)
    ensures r <= |a|
  {
    if a == [] then 0 else (if a[0] != 0 then 1 else 0) + Count(a[1..])
  }

  lemma {:induction false} CountPut(a: seq<nat>, s: nat, v: nat)
    requires s < |a| && a[s] == 0 && v != 0
    ensures Count(a[s := v]) == Count(a) + 1
  {
    var b := a[s := v];
    if s > 0 {
      CountPut(a[1..], s - 1, v);
      assert b[1..] == a[1..][s - 1 := v];
    } else {
      assert b[1..] == a[1..];
    }
  }

  lemma {:induction false} HasEmpty(a: seq<nat>) returns (e: nat)
    requires Count(a) < |a|
    ensures e < |a| && a[e] == 0
  {
    if a[0] == 0 { e := 0; } else { var f := HasEmpty(a[1..]); e := f + 1; }
  }

  /** Every slot from h to the k-th after it is taken. */
  ghost predicate Run(a: seq<nat>, h: nat, k: nat)
    requires |a| == BITVEC_NINT && h < BITVEC_NINT && k <= BITVEC_NINT
  {
    forall t | 0 <= t < k :: a[Slot(h, t)] != 0
  }

  /** Values are distinct and at most n, each is reached by probing from its home, and a slot is empty. */
  ghost predicate HashOk(a: seq<nat>, nSet: nat, n: nat) {
    && |a| == BITVEC_NINT && nSet == Count(a) < BITVEC_NINT
    && (forall s | 0 <= s < |a| && a[s] != 0 :: a[s] <= n && Run(a, Home(a[s]), Dist(Home(a[s]), s)))
    && (forall s, t | 0 <= s < t < |a| && a[s] != 0 :: a[s] != a[t])
  }

  /** Probing from its home either finds v or comes to an empty slot, and then v is not there. */
  method Probe(a: seq<nat>, ghost nSet: nat, ghost n: nat, v: nat) returns (found: bool, h: nat)
    requires HashOk(a, nSet, n) && v > 0
    ensures h < |a| && a[h] == (if found then v else 0) && (found <==> v in a)
    ensures Run(a, Home(v), Dist(Home(v), h))
  {
    hide Count;
    h := Home(v);
    ghost var e := HasEmpty(a);
    ghost var k := 0;
    while a[h] != 0
      invariant k <= Dist(Home(v), e) && h == Slot(Home(v), k) && Run(a, Home(v), k)
      invariant forall t | 0 <= t < k :: a[Slot(Home(v), t)] != v
      decreases BITVEC_NINT - k
    {
      if a[h] == v { DistSlot(Home(v), k); return true, h; }
      h := (h + 1) % BITVEC_NINT;
      assert k != Dist(Home(v), e);
      k := k + 1;
    }
    DistSlot(Home(v), k);
    Absent(a, nSet, n, v, k);
    found := false;
  }

  lemma DistSlot(h: nat, k: nat)
    requires h < BITVEC_NINT && k < BITVEC_NINT
    ensures Dist(h, Slot(h, k)) == k
  {
  }

  lemma Absent(a: seq<nat>, nSet: nat, n: nat, v: nat, k: nat)
    requires HashOk(a, nSet, n) && v > 0 && k < BITVEC_NINT && a[Slot(Home(v), k)] == 0
    requires forall t | 0 <= t < k :: a[Slot(Home(v), t)] != v
    ensures v !in a
  {
    forall s | 0 <= s < |a| ensures a[s] != v {
      var d := Dist(Home(v), s);
    }
  }

  lemma PutOk(a: seq<nat>, nSet: nat, n: nat, v: nat, h: nat)
    requires HashOk(a, nSet, n) && 0 < v <= n && v !in a && h < |a| && a[h] == 0 && nSet + 1 < BITVEC_NINT
    requires Run(a, Home(v), Dist(Home(v), h))
    ensures HashOk(a[h := v], nSet + 1, n)
    ensures forall w | w != 0 :: w in a[h := v] <==> w in a || w == v
  {
    hide Count, Slot, Dist, Home;
    CountPut(a, h, v);
    var b := a[h := v];
    forall s | 0 <= s < |b| && b[s] != 0 ensures b[s] <= n && Run(b, Home(b[s]), Dist(Home(b[s]), s)) {
      if s != h { assert b[s] == a[s]; }
    }
    assert forall s | 0 <= s < |a| && s != h :: b[s] == a[s];
    forall w | w != 0 ensures w in b <==> w in a || w == v {
      if w in a { var s :| 0 <= s < |a| && a[s] == w; assert b[s] == w; }
      if w == v { assert b[h] == w; }
    }
  }

  function Empty(): (a: seq<nat>)
    ensures |a| == BITVEC_NINT && forall s | 0 <= s < |a| :: a[s] == 0
  {
    seq(BITVEC_NINT, _ => 0)
  }

  lemma {:induction false} EmptyCount(a: seq<nat>)
    requires forall s | 0 <= s < |a| :: a[s] == 0
    ensures Count(a) == 0
  {
    if a != [] { EmptyCount(a[1..]); }
  }

  lemma EmptyOk(n: nat)
    ensures HashOk(Empty(), 0, n) && forall w | w != 0 :: w !in Empty()
  {
    EmptyCount(Empty());
  }

  lemma {:induction false} CountPrefix(a: seq<nat>, j: nat)
    requires j <= |a|
    ensures Count(a[..j]) + Count(a[j..]) == Count(a)
  {
    if j == 0 {
      assert a[..0] == [] && a[0..] == a;
    } else {
      CountPrefix(a[1..], j - 1);
      assert a[..j][1..] == a[1..][..j - 1] && a[1..][j - 1..] == a[j..];
    }
  }

  /** The table after sqlite3BitvecClear: every value but v, put back in order. */
  method Without(aiValues: seq<nat>, ghost nSet: nat, ghost n: nat, v: nat) returns (aHash: seq<nat>, nNew: nat)
    requires HashOk(aiValues, nSet, n) && v > 0
    ensures HashOk(aHash, nNew, n)
    ensures forall w | w != 0 :: w in aHash <==> w in aiValues && w != v
  {
    hide HashOk, Count, Slot, Dist, Home, Run;
    aHash, nNew := Empty(), 0;
    EmptyOk(n);
    Lengths(aiValues, nSet, n);
    for j := 0 to BITVEC_NINT
      invariant HashOk(aHash, nNew, n) && |aHash| == BITVEC_NINT
      invariant forall w | w != 0 :: w in aHash <==> w in aiValues[..j] && w != v
      invariant nNew <= Count(aiValues[..j])
    {
      NextValue(aiValues, nSet, n, j, v);
      ghost var was := aHash;
      if aiValues[j] != 0 && aiValues[j] != v {
        var found, h := Probe(aHash, nNew, n, aiValues[j]);
        PutOk(aHash, nNew, n, aiValues[j], h);
        nNew := nNew + 1;
        aHash := aHash[h := aiValues[j]];
      }
      assert forall w | w != 0 :: w in aHash <==> w in was || (w == aiValues[j] && w != v);
      forall w | w != 0 ensures w in aHash <==> w in aiValues[..j + 1] && w != v {
        assert w in was <==> w in aiValues[..j] && w != v;
      }
    }
    assert aiValues[..BITVEC_NINT] == aiValues;
  }

  lemma Lengths(a: seq<nat>, nSet: nat, n: nat)
    requires HashOk(a, nSet, n)
    ensures |a| == BITVEC_NINT && nSet == Count(a) < BITVEC_NINT
  {
  }

  lemma NextValue(a: seq<nat>, nSet: nat, n: nat, j: nat, v: nat)
    requires HashOk(a, nSet, n) && j < BITVEC_NINT
    ensures |a| == BITVEC_NINT && a[j] <= n && (a[j] != 0 ==> a[j] !in a[..j])
    ensures Count(a[..j + 1]) == Count(a[..j]) + (if a[j] != 0 then 1 else 0) < BITVEC_NINT
    ensures forall w :: w in a[..j + 1] <==> w in a[..j] || w == a[j]
  {
    hide Run, Slot, Dist, Home;
    CountPrefix(a, j + 1);
    CountPrefix(a[..j + 1], j);
    assert a[..j + 1][..j] == a[..j] && a[..j + 1][j..] == [a[j]] && [a[j]][1..] == [];
    assert a[..j + 1] == a[..j] + [a[j]];
  }
}
