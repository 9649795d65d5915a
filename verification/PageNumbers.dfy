/** The page numbers of rebalanced siblings, put in ascending order. */
module PageNumbers {
  import opened Results
  import opened Facts

  const NO_PAGE: nat := 0xffffffff

  ghost predicate Distinct(s: seq<nat>) { forall i, j | 0 <= i < j < |s| :: s[i] != s[j] }

  ghost predicate Rising(s: seq<nat>) { forall i, j | 0 <= i < j < |s| :: s[i] < s[j] }

  ghost function SetOf(s: seq<nat>): set<nat> { set x | x in s }

  lemma {:induction false} DistinctSize(s: seq<nat>)
    requires Distinct(s)
    ensures |SetOf(s)| == |s|
  {
    if s != [] {
      var t := s[..|s| - 1];
      DistinctSize(t);
      assert SetOf(s) == SetOf(t) + {s[|s| - 1]};
      assert s[|s| - 1] !in SetOf(t);
    }
  }

  method Smallest(order: array<nat>) returns (iBest: nat)
    requires 0 < order.Length
    ensures iBest < order.Length && forall j | 0 <= j < order.Length :: order[iBest] <= order[j]
  {
    iBest := 0;
    for j := 1 to order.Length
      invariant iBest < order.Length && forall t | 0 <= t < j :: order[iBest] <= order[t]
    {
      if order[j] < order[iBest] { iBest := j; }
    }
  }

  /** The pages get their numbers anew, in ascending order. */
  method AssignNumbers(aPgno: seq<nat>) returns (rc: Rc, pgnos: seq<nat>)
    requires forall i | 0 <= i < |aPgno| :: aPgno[i] < NO_PAGE
    ensures rc == OK <==> Distinct(aPgno)
    ensures rc == OK ==> |pgnos| == |aPgno| && Rising(pgnos) && SetOf(pgnos) == SetOf(aPgno)
  {
    rc, pgnos := OK, [];
    var n := |aPgno|;
    for i := 0 to n
      invariant rc == OK && Distinct(aPgno[..i])
    {
      for j := 0 to i
        invariant forall t | 0 <= t < j :: aPgno[t] != aPgno[i]
      {
        if aPgno[j] == aPgno[i] { rc := CORRUPT; return; }
      }
    }
    assert aPgno[..n] == aPgno;
    var order := new nat[n](i requires 0 <= i < n => aPgno[i]);
    assert order[..] == aPgno;
    for i := 0 to n
      invariant |pgnos| == i && Rising(pgnos) && Sorting(order[..], aPgno, pgnos)
    {
      ghost var left := Remaining(order[..], aPgno, pgnos);
      var iBest := Smallest(order);
      SortStep(order[..], aPgno, pgnos, iBest);
      pgnos := pgnos + [order[iBest]];
      order[iBest] := NO_PAGE;
    }
    SortDone(order[..], aPgno, pgnos);
  }

  /** order is a with the numbers in out crossed off; those left are all bigger. */
  ghost predicate Sorting(order: seq<nat>, a: seq<nat>, out: seq<nat>) {
    && |order| == |a| && Distinct(a)
    && (forall i | 0 <= i < |a| :: order[i] == a[i] || (order[i] == NO_PAGE && a[i] in out))
    && (forall i | 0 <= i < |a| :: a[i] < NO_PAGE && (order[i] == a[i] ==> a[i] !in out))
    && (forall x | x in out :: x in a)
    && (forall x, i | x in out && 0 <= i < |a| && order[i] == a[i] :: x < a[i])
    && Distinct(out)
  }

  lemma Remaining(order: seq<nat>, a: seq<nat>, out: seq<nat>) returns (i: nat)
    requires Sorting(order, a, out) && |out| < |a|
    ensures i < |a| && order[i] == a[i]
  {
    if forall i | 0 <= i < |a| :: order[i] != a[i] {
      assert SetOf(a) <= SetOf(out);
      DistinctSize(a);
      DistinctSize(out);
      SubsetSize(SetOf(a), SetOf(out));
    }
    i :| 0 <= i < |a| && order[i] == a[i];
  }

  lemma SortStep(order: seq<nat>, a: seq<nat>, out: seq<nat>, b: nat)
    requires Sorting(order, a, out) && Rising(out) && b < |order| && |out| < |a|
    requires forall j | 0 <= j < |order| :: order[b] <= order[j]
    ensures Sorting(order[b := NO_PAGE], a, out + [order[b]]) && Rising(out + [order[b]])
  {
    var i := Remaining(order, a, out);
    assert order[b] <= a[i] < NO_PAGE;
    assert order[b] == a[b];
    var o2, out2 := order[b := NO_PAGE], out + [order[b]];
    assert out2[|out|] == a[b];
    forall t | 0 <= t < |out| ensures out[t] < a[b] { assert out[t] in out; }
    forall t | 0 <= t < |a| ensures o2[t] == a[t] || (o2[t] == NO_PAGE && a[t] in out2) {}
    forall t | 0 <= t < |a| ensures a[t] < NO_PAGE && (o2[t] == a[t] ==> a[t] !in out2) {}
    forall x, t | x in out2 && 0 <= t < |a| && o2[t] == a[t] ensures x < a[t] {
      if x == a[b] { assert a[b] != a[t]; }
    }
  }

  lemma SortDone(order: seq<nat>, a: seq<nat>, out: seq<nat>)
    requires Sorting(order, a, out) && |out| == |a|
    ensures SetOf(out) == SetOf(a)
  {
    DistinctSize(a);
    DistinctSize(out);
    SubsetSize(SetOf(out), SetOf(a));
  }
}
