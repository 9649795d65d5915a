/** The min-heap of the integrity check, kept in an array whose element 0 is the number of entries. */
module MinHeap {

  const SENTINEL: nat := 0xffffffff

  /** Every entry is at least its parent, except the children of node but. */
  ghost predicate HeapBut(s: seq<nat>, n: nat, but: nat)
    requires n < |s|
  {
    && (forall k | 2 <= k <= n && k / 2 != but :: s[k / 2] <= s[k])
    && (but > 1 ==> forall k | 2 <= k <= n && k / 2 == but :: s[but / 2] <= s[k])
  }

  /** Every entry is at least its parent, except entry up. */
  ghost predicate HeapUp(s: seq<nat>, n: nat, up: nat)
    requires n < |s|
  {
    && (forall k | 2 <= k <= n && k != up :: s[k / 2] <= s[k])
    && (up > 1 ==> forall k | 2 <= k <= n && k / 2 == up :: s[up / 2] <= s[k])
  }

  ghost predicate Heap(s: seq<nat>, n: nat)
    requires n < |s|
  {
    forall k | 2 <= k <= n :: s[k / 2] <= s[k]
  }

  ghost function Bag(s: seq<nat>, n: nat): multiset<nat>
    requires n < |s|
  {
    multiset(s[1..n + 1])
  }

  function Swap(s: seq<nat>, i: nat, j: nat): seq<nat>
    requires i < |s| && j < |s|
  {
    s[i := s[j]][j := s[i]]
  }

  lemma SwapBag(s: seq<nat>, n: nat, i: nat, j: nat)
    requires n < |s| && 1 <= i <= n && 1 <= j <= n && i != j
    ensures Bag(Swap(s, i, j), n) == Bag(s, n)
  {
    var t, u := s[1..n + 1], Swap(s, i, j)[1..n + 1];
    assert u == t[i - 1 := t[j - 1]][j - 1 := t[i - 1]];
  }

  lemma SwapUp(s: seq<nat>, n: nat, i: nat)
    requires n < |s| && 1 < i <= n && HeapUp(s, n, i) && s[i / 2] > s[i]
    ensures HeapUp(Swap(s, i / 2, i), n, i / 2)
  {
  }

  lemma SwapDown(s: seq<nat>, n: nat, i: nat, j: nat)
    requires n < |s| && 1 <= i && (j == 2 * i || j == 2 * i + 1) && j <= n && HeapBut(s, n, i) && s[j] <= s[i]
    requires forall k | 2 <= k <= n && k / 2 == i :: s[j] <= s[k]
    ensures HeapBut(Swap(s, i, j), n, j)
  {
  }

  /** The root is the least entry. */
  lemma {:induction false} RootLeast(s: seq<nat>, n: nat, k: nat)
    requires n < |s| && Heap(s, n) && 1 <= k <= n
    ensures s[1] <= s[k]
    decreases k
  {
    if k > 1 { RootLeast(s, n, k / 2); }
  }

  class IntHeap {
    const aHeap: array<nat>

    ghost predicate Valid()
      reads this, aHeap
    {
      && 0 < aHeap.Length && aHeap[0] < aHeap.Length && Heap(aHeap[..], aHeap[0])
      && forall k | 1 <= k <= aHeap[0] :: aHeap[k] <= SENTINEL
    }

    ghost function Entries(): multiset<nat>
      reads this, aHeap
      requires Valid()
    {
      Bag(aHeap[..], aHeap[0])
    }

    constructor (size: nat)
      ensures Valid() && Entries() == multiset{} && aHeap.Length == size + 1 && aHeap[0] == 0 && fresh(aHeap)
    {
      aHeap := new nat[size + 1](_ => 0);
      new;
      assert aHeap[..][1..1] == [];
    }

    /** btreeHeapInsert */
    method Insert(x: nat)
      requires Valid() && aHeap[0] + 1 < aHeap.Length && x <= SENTINEL
      modifies aHeap
      ensures Valid() && Entries() == old(Entries()) + multiset{x} && aHeap[0] == old(aHeap[0]) + 1
    {
      hide Heap, HeapUp, Swap, Bag;
      ghost var was := aHeap[..];
      aHeap[0] := aHeap[0] + 1;
      var n := aHeap[0];
      aHeap[n] := x;
      Added(was, aHeap[..], n, x);
      var i := n;
      while i / 2 > 0 && aHeap[i / 2] > aHeap[i]
        invariant 1 <= i <= n < aHeap.Length && aHeap[0] == n && HeapUp(aHeap[..], n, i)
        invariant Bag(aHeap[..], n) == old(Entries()) + multiset{x}
        invariant forall k | 1 <= k <= n :: aHeap[k] <= SENTINEL
        decreases i
      {
        SwapUp(aHeap[..], n, i);
        SwapBag(aHeap[..], n, i / 2, i);
        ghost var s := aHeap[..];
        var y := aHeap[i / 2];
        aHeap[i / 2] := aHeap[i];
        aHeap[i] := y;
        Swapped(s, aHeap[..], i / 2, i);
        i := i / 2;
      }
      UpDone(aHeap[..], n, i);
    }

    /** btreeHeapPull: takes out the least entry. */
    method Pull() returns (ok: bool, out: nat)
      requires Valid()
      modifies aHeap
      ensures Valid() && ok == (old(aHeap[0]) > 0)
      ensures !ok ==> Entries() == old(Entries()) == multiset{} && aHeap[0] == 0
      ensures ok ==> aHeap[0] == old(aHeap[0]) - 1 && old(Entries()) == Entries() + multiset{out}
      ensures ok ==> forall y | y in Entries() :: out <= y
    {
      hide Heap, HeapBut, Swap, Bag;
      var x := aHeap[0];
      if x == 0 { EmptyBag(aHeap[..]); return false, 0; }
      ghost var was := aHeap[..];
      out := aHeap[1];
      aHeap[1] := aHeap[x];
      aHeap[x] := SENTINEL;
      aHeap[0] := aHeap[0] - 1;
      var n := x - 1;
      Removed(was, aHeap[..], x);
      Sift(n);
      ok := true;
      Least(was, x, aHeap[..], n, out);
    }

    /** The new root sinks to its place; the entry after the last is the sentinel. */
    method Sift(n: nat)
      requires n + 1 < aHeap.Length && aHeap[0] == n && HeapBut(aHeap[..], n, 1)
      requires aHeap[n + 1] == SENTINEL && forall k | 1 <= k <= n :: aHeap[k] <= SENTINEL
      modifies aHeap
      ensures aHeap[0] == n && Heap(aHeap[..], n) && forall k | 1 <= k <= n :: aHeap[k] <= SENTINEL
      ensures Bag(aHeap[..], n) == old(Bag(aHeap[..], n))
    {
      hide Heap, HeapBut, Swap, Bag;
      var i, done := 1, false;
      while i * 2 <= n && !done
        invariant 1 <= i && aHeap[0] == n
        invariant aHeap[n + 1] == SENTINEL && forall k | 1 <= k <= n :: aHeap[k] <= SENTINEL
        invariant if done then Heap(aHeap[..], n) else HeapBut(aHeap[..], n, i)
        invariant Bag(aHeap[..], n) == old(Bag(aHeap[..], n))
        decreases !done, n - i
      {
        var j := i * 2;
        if aHeap[j] > aHeap[j + 1] { j := j + 1; }
        LesserChild(aHeap[..], n, i, j);
        if aHeap[i] < aHeap[j] {
          DownDone(aHeap[..], n, i, j);
          done := true;
        } else {
          SwapDown(aHeap[..], n, i, j);
          SwapBag(aHeap[..], n, i, j);
          ghost var s := aHeap[..];
          var y := aHeap[i];
          aHeap[i] := aHeap[j];
          aHeap[j] := y;
          Swapped(s, aHeap[..], i, j);
          i := j;
        }
      }
      if !done { NoChildren(aHeap[..], n, i); }
    }
  }

  lemma Swapped(s: seq<nat>, t: seq<nat>, i: nat, j: nat)
    requires |s| == |t| && i < |s| && j < |s| && t == s[i := s[j]][j := s[i]]
    ensures t == Swap(s, i, j)
  {
  }

  lemma Added(s: seq<nat>, t: seq<nat>, n: nat, x: nat)
    requires 0 < n < |s| && t == s[0 := n][n := x] && Heap(s, n - 1)
    ensures HeapUp(t, n, n) && Bag(t, n) == Bag(s, n - 1) + multiset{x}
  {
    assert t[1..n + 1] == s[1..n] + [x];
  }

  lemma UpDone(s: seq<nat>, n: nat, i: nat)
    requires n < |s| && 1 <= i <= n && HeapUp(s, n, i) && (i / 2 == 0 || s[i / 2] <= s[i])
    ensures Heap(s, n)
  {
  }

  lemma EmptyBag(s: seq<nat>)
    requires 0 < |s|
    ensures Bag(s, 0) == multiset{}
  {
    assert s[1..1] == [];
  }

  lemma Removed(s: seq<nat>, t: seq<nat>, x: nat)
    requires 0 < x < |s| && t == s[1 := s[x]][x := SENTINEL][0 := x - 1] && Heap(s, x)
    ensures HeapBut(t, x - 1, 1) && Bag(s, x) == Bag(t, x - 1) + multiset{s[1]}
  {
    if x == 1 {
      assert s[1..2] == [s[1]] && t[1..1] == [];
    } else {
      assert s[1..x + 1] == [s[1]] + s[2..x] + [s[x]];
      assert t[1..x] == [s[x]] + s[2..x];
    }
  }

  lemma LesserChild(s: seq<nat>, n: nat, i: nat, j: nat)
    requires n + 1 < |s| && 1 <= i && 2 * i <= n && s[n + 1] == SENTINEL && forall k | 1 <= k <= n :: s[k] <= SENTINEL
    requires j == if s[2 * i] > s[2 * i + 1] then 2 * i + 1 else 2 * i
    ensures j <= n && forall k | 2 <= k <= n && k / 2 == i :: s[j] <= s[k]
  {
  }

  lemma DownDone(s: seq<nat>, n: nat, i: nat, j: nat)
    requires n < |s| && HeapBut(s, n, i) && j <= n && i <= n && s[i] < s[j]
    requires forall k | 2 <= k <= n && k / 2 == i :: s[j] <= s[k]
    ensures Heap(s, n)
  {
  }

  lemma NoChildren(s: seq<nat>, n: nat, i: nat)
    requires n < |s| && HeapBut(s, n, i) && i * 2 > n
    ensures Heap(s, n)
  {
  }

  lemma Least(s: seq<nat>, x: nat, t: seq<nat>, n: nat, out: nat)
    requires 0 < x < |s| && Heap(s, x) && out == s[1] && n < |t| && Bag(s, x) == Bag(t, n) + multiset{out}
    ensures forall y | y in Bag(t, n) :: out <= y
  {
    forall y | y in Bag(t, n) ensures out <= y {
      assert y in Bag(s, x);
      var k :| 0 <= k < |s[1..x + 1]| && s[1..x + 1][k] == y;
      RootLeast(s, x, k + 1);
    }
  }
}
