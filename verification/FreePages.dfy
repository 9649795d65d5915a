/** The free-list as it lies in the file: trunk pages linked to each other, each with leaf page numbers. */
module FreePages {
  import opened Facts

  datatype Trunk = Trunk(next: nat, leaves: seq<nat>)

  type Trunks = map<nat, Trunk>

  function Nth(chain: seq<nat>, i: nat): nat { if i < |chain| then chain[i] else 0 }

  /** The trunks in the order of their links, the first one named in the header. */
  ghost predicate Linked(first: nat, trunks: Trunks, chain: seq<nat>) {
    && first == Nth(chain, 0)
    && (forall i | 0 <= i < |chain| :: chain[i] in trunks && chain[i] != 0)
    && (forall i | 0 <= i < |chain| :: trunks[chain[i]].next == Nth(chain, i + 1))
  }

  lemma LinkedIn(first: nat, trunks: Trunks, chain: seq<nat>)
    requires Linked(first, trunks, chain)
    ensures forall i | 0 <= i < |chain| :: chain[i] in trunks
  {
  }

  ghost function Leaves(trunks: Trunks, chain: seq<nat>): multiset<nat>
    requires forall i | 0 <= i < |chain| :: chain[i] in trunks
  {
    if chain == [] then multiset{} else multiset(trunks[chain[0]].leaves) + Leaves(trunks, chain[1..])
  }

  /** All free pages, each as often as it is met. */
  ghost function Bag(trunks: Trunks, chain: seq<nat>): multiset<nat>
    requires forall i | 0 <= i < |chain| :: chain[i] in trunks
  {
    multiset(chain) + Leaves(trunks, chain)
  }

  ghost predicate Once(m: multiset<nat>) { forall p | p in m :: m[p] == 1 }

  lemma {:induction false} LeavesConcat(trunks: Trunks, a: seq<nat>, b: seq<nat>)
    requires (forall i | 0 <= i < |a| :: a[i] in trunks) && forall i | 0 <= i < |b| :: b[i] in trunks
    ensures forall i | 0 <= i < |a + b| :: (a + b)[i] in trunks
    ensures Leaves(trunks, a + b) == Leaves(trunks, a) + Leaves(trunks, b)
  {
    if a == [] {
      assert a + b == b;
    } else {
      LeavesConcat(trunks, a[1..], b);
      assert (a + b)[0] == a[0] && (a + b)[1..] == a[1..] + b;
    }
  }

  /** Trunks of a chain whose leaves are the same in another map. */
  ghost predicate SameLeaves(t1: Trunks, t2: Trunks, chain: seq<nat>) {
    forall i | 0 <= i < |chain| :: chain[i] in t1 && chain[i] in t2 && t1[chain[i]].leaves == t2[chain[i]].leaves
  }

  lemma {:induction false} LeavesFrame(t1: Trunks, t2: Trunks, chain: seq<nat>)
    requires SameLeaves(t1, t2, chain)
    ensures Leaves(t1, chain) == Leaves(t2, chain)
  {
    if chain != [] { LeavesFrame(t1, t2, chain[1..]); }
  }

  /** The chain around trunk number t. */
  lemma Around(trunks: Trunks, chain: seq<nat>, t: nat)
    requires (forall i | 0 <= i < |chain| :: chain[i] in trunks) && t < |chain|
    ensures chain == chain[..t] + ([chain[t]] + chain[t + 1..])
    ensures Leaves(trunks, chain)
         == Leaves(trunks, chain[..t]) + (multiset(trunks[chain[t]].leaves) + Leaves(trunks, chain[t + 1..]))
    ensures multiset(chain) == multiset(chain[..t]) + (multiset{chain[t]} + multiset(chain[t + 1..]))
  {
    assert chain == chain[..t] + ([chain[t]] + chain[t + 1..]);
    LeavesConcat(trunks, chain[..t], [chain[t]] + chain[t + 1..]);
    LeavesConcat(trunks, [chain[t]], chain[t + 1..]);
    assert [chain[t]][1..] == [];
    assert Leaves(trunks, []) == multiset{};
  }

  // ---- taking a page out ----

  /** A leaf goes, and the last one takes its place. */
  function DropLeaf(leaves: seq<nat>, j: nat): seq<nat>
    requires j < |leaves|
  {
    leaves[j := leaves[|leaves| - 1]][..|leaves| - 1]
  }

  lemma DropLeafBag(leaves: seq<nat>, j: nat)
    requires j < |leaves|
    ensures multiset(DropLeaf(leaves, j)) == multiset(leaves) - multiset{leaves[j]}
  {
    var k := |leaves| - 1;
    var u := leaves[j := leaves[k]];
    assert u == u[..k] + [leaves[k]];
    assert leaves == leaves[..k] + [leaves[k]];
  }

  lemma ChainOnce(trunks: Trunks, chain: seq<nat>)
    requires (forall i | 0 <= i < |chain| :: chain[i] in trunks) && Once(Bag(trunks, chain))
    ensures forall i, j | 0 <= i < j < |chain| :: chain[i] != chain[j]
    ensures forall p | p in Leaves(trunks, chain) :: p !in chain
  {
    hide Leaves;
    forall i, j | 0 <= i < j < |chain| ensures chain[i] != chain[j] {
      Twice(chain, i, j);
      assert chain[i] in Bag(trunks, chain);
    }
    forall p | p in Leaves(trunks, chain) ensures p !in chain {
      assert p in chain ==> p in multiset(chain);
      assert p in Bag(trunks, chain);
    }
  }

  /** The leaves of one trunk changed. */
  lemma OneTrunk(trunks: Trunks, trunks2: Trunks, chain: seq<nat>, t: nat, m: multiset<nat>)
    requires (forall i | 0 <= i < |chain| :: chain[i] in trunks && chain[i] in trunks2) && t < |chain|
    requires forall i | 0 <= i < |chain| && i != t :: trunks2[chain[i]].leaves == trunks[chain[i]].leaves
    requires m <= multiset(trunks[chain[t]].leaves) && multiset(trunks2[chain[t]].leaves) == multiset(trunks[chain[t]].leaves) - m
    ensures Leaves(trunks2, chain) == Leaves(trunks, chain) - m
    ensures Bag(trunks2, chain) == Bag(trunks, chain) - m
  {
    hide Leaves;
    Around(trunks, chain, t);
    Around(trunks2, chain, t);
    LeavesFrame(trunks, trunks2, chain[..t]);
    LeavesFrame(trunks, trunks2, chain[t + 1..]);
  }

  lemma TakeLeaf(first: nat, trunks: Trunks, chain: seq<nat>, t: nat, j: nat)
    requires Linked(first, trunks, chain) && Once(Bag(trunks, chain)) && t < |chain| && j < |trunks[chain[t]].leaves|
    ensures var tr := trunks[chain[t]]; var trunks2 := trunks[chain[t] := tr.(leaves := DropLeaf(tr.leaves, j))];
      Linked(first, trunks2, chain) && Bag(trunks2, chain) == Bag(trunks, chain) - multiset{tr.leaves[j]}
  {
    hide Leaves, Bag, DropLeaf;
    var tr := trunks[chain[t]];
    var trunks2 := trunks[chain[t] := tr.(leaves := DropLeaf(tr.leaves, j))];
    ChainOnce(trunks, chain);
    DropLeafBag(tr.leaves, j);
    assert tr.leaves[j] in multiset(tr.leaves);
    OneTrunk(trunks, trunks2, chain, t, multiset{tr.leaves[j]});
  }

  /** The link to trunk number t, in the header or in the trunk before it, is changed. */
  function Relink(trunks: Trunks, prev: nat, next: nat): Trunks {
    if prev == 0 || prev !in trunks then trunks else trunks[prev := trunks[prev].(next := next)]
  }

  ghost function PrevOf(chain: seq<nat>, t: nat): nat
    requires t <= |chain|
  {
    if t == 0 then 0 else chain[t - 1]
  }

  /** No trunk has more than m leaves. */
  ghost predicate Short(trunks: Trunks, chain: seq<nat>, m: nat) {
    forall i | 0 <= i < |chain| :: chain[i] in trunks && |trunks[chain[i]].leaves| <= m
  }

  lemma RechainedShort(trunks: Trunks, chain: seq<nat>, t: nat, mid: seq<nat>, trunks2: Trunks, m: nat)
    requires Short(trunks, chain, m) && t < |chain|
    requires forall i | 0 <= i < |chain| && i != t :: chain[i] in trunks2 && trunks2[chain[i]].leaves == trunks[chain[i]].leaves
    requires Short(trunks2, mid, m)
    ensures Short(trunks2, chain[..t] + (mid + chain[t + 1..]), m)
  {
  }

  /** The chain with the part at t replaced by mid, when the link before it is set and the last of mid links on. */
  lemma Rechained(first: nat, trunks: Trunks, chain: seq<nat>, t: nat, mid: seq<nat>, first2: nat, trunks2: Trunks)
    requires Linked(first, trunks, chain) && t < |chain| && |mid| <= 1
    requires var next := trunks[chain[t]].next; var to := if mid == [] then next else mid[0];
      && first2 == (if t == 0 then to else first)
      && (forall i | 0 <= i < |chain| && i != t :: chain[i] in trunks2)
      && (forall i | 0 <= i < |chain| && i != t && i + 1 != t :: trunks2[chain[i]].next == trunks[chain[i]].next)
      && (t > 0 ==> trunks2[chain[t - 1]].next == to)
      && (mid != [] ==> mid[0] != 0 && mid[0] in trunks2 && trunks2[mid[0]].next == next)
    ensures Linked(first2, trunks2, chain[..t] + (mid + chain[t + 1..]))
  {
    var c := chain[..t] + (mid + chain[t + 1..]);
    forall i | 0 <= i < |c|
      ensures c[i] in trunks2 && c[i] != 0 && trunks2[c[i]].next == Nth(c, i + 1)
    {
      assert c[i] == if i < t then chain[i] else if i < t + |mid| then mid[0] else chain[i + 1 - |mid|];
      assert Nth(c, i + 1) == if i + 1 < t then chain[i + 1] else if i + 1 < t + |mid| then mid[0] else Nth(chain, i + 2 - |mid|);
      assert i >= t + |mid| ==> trunks2[c[i]].next == Nth(chain, i + 2 - |mid|);
      assert i + 1 < t ==> trunks[chain[i]].next == Nth(chain, i + 1);
    }
    assert trunks[chain[t]].next == Nth(chain, t + 1);
  }

  lemma TrunkFrame(trunks: Trunks, chain: seq<nat>, t: nat, l: nat, x: Trunk, to: nat)
    requires (forall i | 0 <= i < |chain| :: chain[i] in trunks && chain[i] != 0) && t < |chain| && l !in chain
    requires forall i, j | 0 <= i < j < |chain| :: chain[i] != chain[j]
    ensures var trunks2 := Relink(trunks[l := x], PrevOf(chain, t), to);
      && l in trunks2 && trunks2[l] == x
      && (forall i | 0 <= i < |chain| :: chain[i] in trunks2 && trunks2[chain[i]].leaves == trunks[chain[i]].leaves)
      && (forall i | 0 <= i < |chain| && i + 1 != t :: trunks2[chain[i]].next == trunks[chain[i]].next)
      && (t > 0 ==> trunks2[chain[t - 1]].next == to)
  {
  }

  lemma TrunkFrame0(trunks: Trunks, chain: seq<nat>, t: nat, to: nat)
    requires (forall i | 0 <= i < |chain| :: chain[i] in trunks && chain[i] != 0) && t < |chain|
    requires forall i, j | 0 <= i < j < |chain| :: chain[i] != chain[j]
    ensures var trunks2 := Relink(trunks, PrevOf(chain, t), to);
      && (forall i | 0 <= i < |chain| :: chain[i] in trunks2 && trunks2[chain[i]].leaves == trunks[chain[i]].leaves)
      && (forall i | 0 <= i < |chain| && i + 1 != t :: trunks2[chain[i]].next == trunks[chain[i]].next)
      && (t > 0 ==> trunks2[chain[t - 1]].next == to)
  {
  }

  lemma RechainedLeaves(trunks: Trunks, chain: seq<nat>, t: nat, mid: seq<nat>, trunks2: Trunks)
    requires (forall i | 0 <= i < |chain| :: chain[i] in trunks) && t < |chain|
    requires forall i | 0 <= i < |chain| && i != t :: chain[i] in trunks2 && trunks2[chain[i]].leaves == trunks[chain[i]].leaves
    requires forall i | 0 <= i < |mid| :: mid[i] in trunks2
    ensures var c := chain[..t] + (mid + chain[t + 1..]);
      (forall i | 0 <= i < |c| :: c[i] in trunks2)
      && Leaves(trunks2, c) == Leaves(trunks, chain[..t]) + (Leaves(trunks2, mid) + Leaves(trunks, chain[t + 1..]))
  {
    hide Leaves;
    LeavesFrame(trunks, trunks2, chain[..t]);
    LeavesFrame(trunks, trunks2, chain[t + 1..]);
    LeavesConcat(trunks2, mid, chain[t + 1..]);
    LeavesConcat(trunks2, chain[..t], mid + chain[t + 1..]);
  }

  /** The bag after trunk number t gave way to mid. */
  lemma RechainedBag(trunks: Trunks, chain: seq<nat>, t: nat, mid: seq<nat>, trunks2: Trunks)
    requires (forall i | 0 <= i < |chain| :: chain[i] in trunks) && t < |chain|
    requires forall i | 0 <= i < |chain| && i != t :: chain[i] in trunks2 && trunks2[chain[i]].leaves == trunks[chain[i]].leaves
    requires forall i | 0 <= i < |mid| :: mid[i] in trunks2
    requires multiset(mid) + Leaves(trunks2, mid) == multiset(trunks[chain[t]].leaves)
    ensures var c := chain[..t] + (mid + chain[t + 1..]);
      (forall i | 0 <= i < |c| :: c[i] in trunks2) && Bag(trunks2, c) == Bag(trunks, chain) - multiset{chain[t]}
  {
    hide Leaves;
    var c := chain[..t] + (mid + chain[t + 1..]);
    Around(trunks, chain, t);
    RechainedLeaves(trunks, chain, t, mid, trunks2);
    assert multiset(c) == multiset(chain[..t]) + (multiset(mid) + multiset(chain[t + 1..]));
  }

  /** A trunk without leaves leaves the chain. */
  lemma TakeTrunk(first: nat, trunks: Trunks, chain: seq<nat>, t: nat, m: nat)
    requires Linked(first, trunks, chain) && Once(Bag(trunks, chain)) && t < |chain| && trunks[chain[t]].leaves == []
    requires Short(trunks, chain, m)
    ensures var next := trunks[chain[t]].next;
      var trunks2, chain2 := Relink(trunks, PrevOf(chain, t), next), chain[..t] + ([] + chain[t + 1..]);
      && Linked(if t == 0 then next else first, trunks2, chain2) && Short(trunks2, chain2, m)
      && Bag(trunks2, chain2) == Bag(trunks, chain) - multiset{chain[t]}
  {
    hide Bag, Relink, Once;
    var next := trunks[chain[t]].next;
    var trunks2 := Relink(trunks, PrevOf(chain, t), next);
    ChainOnce(trunks, chain);
    TrunkFrame0(trunks, chain, t, next);
    Rechained(first, trunks, chain, t, [], if t == 0 then next else first, trunks2);
    RechainedBag(trunks, chain, t, [], trunks2);
    RechainedShort(trunks, chain, t, [], trunks2, m);
  }

  /** A trunk with leaves is taken: its first leaf becomes the trunk of the others. */
  lemma TakeFullTrunk(first: nat, trunks: Trunks, chain: seq<nat>, t: nat, m: nat)
    requires Linked(first, trunks, chain) && Once(Bag(trunks, chain)) && t < |chain| && trunks[chain[t]].leaves != [] && 0 !in Bag(trunks, chain)
    requires Short(trunks, chain, m)
    ensures var tr := trunks[chain[t]];
      var l := tr.leaves[0];
      var trunks2, chain2 := Relink(trunks[l := Trunk(tr.next, tr.leaves[1..])], PrevOf(chain, t), l), chain[..t] + ([l] + chain[t + 1..]);
      && Linked(if t == 0 then l else first, trunks2, chain2) && Short(trunks2, chain2, m)
      && Bag(trunks2, chain2) == Bag(trunks, chain) - multiset{chain[t]}
  {
    hide Bag, Relink, Once, Leaves, Linked, Short;
    LinkedIn(first, trunks, chain);
    var tr := trunks[chain[t]];
    var l := tr.leaves[0];
    var trunks2 := Relink(trunks[l := Trunk(tr.next, tr.leaves[1..])], PrevOf(chain, t), l);
    FullTrunkFrame(first, trunks, chain, t);
    Rechained(first, trunks, chain, t, [l], if t == 0 then l else first, trunks2);
    OneLeaves(trunks2, l);
    assert tr.leaves == [l] + tr.leaves[1..];
    RechainedBag(trunks, chain, t, [l], trunks2);
    FirstShort(trunks, chain, t, m, trunks2, l);
    RechainedShort(trunks, chain, t, [l], trunks2, m);
  }

  lemma FirstShort(trunks: Trunks, chain: seq<nat>, t: nat, m: nat, trunks2: Trunks, l: nat)
    requires Short(trunks, chain, m) && t < |chain| && trunks[chain[t]].leaves != []
    requires l in trunks2 && trunks2[l].leaves == trunks[chain[t]].leaves[1..]
    ensures Short(trunks2, [l], m)
  {
  }

  lemma FullTrunkFrame(first: nat, trunks: Trunks, chain: seq<nat>, t: nat)
    requires Linked(first, trunks, chain) && Once(Bag(trunks, chain)) && t < |chain| && trunks[chain[t]].leaves != [] && 0 !in Bag(trunks, chain)
    ensures var tr := trunks[chain[t]];
      var l := tr.leaves[0];
      var trunks2 := Relink(trunks[l := Trunk(tr.next, tr.leaves[1..])], PrevOf(chain, t), l);
      && l != 0 && l in trunks2 && trunks2[l] == Trunk(tr.next, tr.leaves[1..])
      && (forall i | 0 <= i < |chain| :: chain[i] in trunks2 && trunks2[chain[i]].leaves == trunks[chain[i]].leaves)
      && (forall i | 0 <= i < |chain| && i + 1 != t :: trunks2[chain[i]].next == trunks[chain[i]].next)
      && (t > 0 ==> trunks2[chain[t - 1]].next == l)
  {
    hide Bag, Relink, Once, Leaves;
    var tr := trunks[chain[t]];
    ChainOnce(trunks, chain);
    LeafOf(trunks, chain, t, 0);
    TrunkFrame(trunks, chain, t, tr.leaves[0], Trunk(tr.next, tr.leaves[1..]), tr.leaves[0]);
  }

  lemma OneLeaves(trunks: Trunks, l: nat)
    requires l in trunks
    ensures Leaves(trunks, [l]) == multiset(trunks[l].leaves)
  {
    assert [l][1..] == [];
  }

  lemma LeafOf(trunks: Trunks, chain: seq<nat>, t: nat, j: nat)
    requires (forall i | 0 <= i < |chain| :: chain[i] in trunks) && t < |chain| && j < |trunks[chain[t]].leaves|
    ensures trunks[chain[t]].leaves[j] in Leaves(trunks, chain) && trunks[chain[t]].leaves[j] in Bag(trunks, chain)
    ensures chain[t] in Bag(trunks, chain)
  {
    hide Leaves;
    Around(trunks, chain, t);
    assert trunks[chain[t]].leaves[j] in multiset(trunks[chain[t]].leaves);
  }

  // ---- putting a page in ----

  lemma PutLeaf(first: nat, trunks: Trunks, chain: seq<nat>, p: nat)
    requires Linked(first, trunks, chain) && Once(Bag(trunks, chain)) && chain != []
    ensures var tr := trunks[first]; var trunks2 := trunks[first := tr.(leaves := tr.leaves + [p])];
      Linked(first, trunks2, chain) && Bag(trunks2, chain) == Bag(trunks, chain) + multiset{p}
  {
    hide Leaves, Bag;
    var tr := trunks[first];
    var trunks2 := trunks[first := tr.(leaves := tr.leaves + [p])];
    ChainOnce(trunks, chain);
    OneTrunk(trunks2, trunks, chain, 0, multiset{p});
    BagPlus(trunks, trunks2, chain, p);
  }

  lemma BagPlus(trunks: Trunks, trunks2: Trunks, chain: seq<nat>, p: nat)
    requires (forall i | 0 <= i < |chain| :: chain[i] in trunks && chain[i] in trunks2) && chain != []
    requires forall i | 0 < i < |chain| :: trunks2[chain[i]].leaves == trunks[chain[i]].leaves
    requires trunks2[chain[0]].leaves == trunks[chain[0]].leaves + [p]
    ensures Bag(trunks2, chain) == Bag(trunks, chain) + multiset{p}
  {
    LeavesFrame(trunks, trunks2, chain[1..]);
  }

  lemma PutTrunk(first: nat, trunks: Trunks, chain: seq<nat>, p: nat)
    requires Linked(first, trunks, chain) && p !in Bag(trunks, chain) && p != 0
    ensures var trunks2 := trunks[p := Trunk(first, [])];
      Linked(p, trunks2, [p] + chain) && Bag(trunks2, [p] + chain) == Bag(trunks, chain) + multiset{p}
  {
    hide Leaves;
    var trunks2 := trunks[p := Trunk(first, [])];
    assert p !in chain by { assert p in chain ==> p in multiset(chain); }
    PutTrunkLinked(first, trunks, chain, p);
    LeavesFrame(trunks, trunks2, chain);
    OneLeaves(trunks2, p);
    LeavesConcat(trunks2, [p], chain);
  }

  lemma PutTrunkLinked(first: nat, trunks: Trunks, chain: seq<nat>, p: nat)
    requires Linked(first, trunks, chain) && p !in chain && p != 0
    ensures Linked(p, trunks[p := Trunk(first, [])], [p] + chain)
  {
    var c, trunks2 := [p] + chain, trunks[p := Trunk(first, [])];
    forall i | 0 <= i < |c|
      ensures c[i] in trunks2 && c[i] != 0 && trunks2[c[i]].next == Nth(c, i + 1)
    {
      assert Nth(c, i + 1) == Nth(chain, i);
      if i > 0 { assert c[i] == chain[i - 1] && chain[i - 1] != p; }
    }
  }

  lemma TakeOnce(m: multiset<nat>, p: nat)
    requires Once(m) && p in m
    ensures p !in m - multiset{p} && |m - multiset{p}| < |m|
    ensures forall q :: q in m - multiset{p} <==> q in m && q != p
  {
  }
}
