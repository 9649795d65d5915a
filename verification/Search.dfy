/** The order of keys in a b-tree, and what a binary search on one page tells of all entries. */
module Search {
  import opened CursorTree

  ghost predicate Increasing(ks: seq<int>) { forall i, j | 0 <= i < j < |ks| :: ks[i] < ks[j] }

  ghost predicate Below(s: seq<int>, key: int) { forall i | 0 <= i < |s| :: s[i] < key }

  ghost predicate UpTo(s: seq<int>, key: int) { forall i | 0 <= i < |s| :: s[i] <= key }

  ghost predicate Above(s: seq<int>, key: int) { forall i | 0 <= i < |s| :: s[i] > key }

  /** Keys are in order; a cell's key divides the entries below its child from those of the next one. A table's signpost
      may be the greatest key on its left. */
  ghost predicate Ord(table: bool, n: Node)
    decreases n
  {
    Increasing(n.keys) && (n.Inner? ==> OrdKids(table, n.keys, n.kids))
  }

  ghost predicate OrdKids(table: bool, ks: seq<int>, cs: seq<Node>)
    decreases cs
  {
    && |cs| == |ks| + 1 && Ord(table, cs[0])
    && (ks != [] ==>
      && (if table then UpTo(Flat(table, cs[0]), ks[0]) else Below(Flat(table, cs[0]), ks[0]))
      && Above(Flat(table, cs[1]), ks[0]) && OrdKids(table, ks[1..], cs[1..]))
  }

  lemma {:induction false} KidsAbove(table: bool, ks: seq<int>, cs: seq<Node>, key: int)
    requires OrdKids(table, ks, cs) && Increasing(ks) && Above(Flat(table, cs[0]), key) && (ks != [] ==> ks[0] >= key && (!table ==> ks[0] > key))
    ensures Above(FlatKids(table, ks, cs), key)
    decreases |ks|
  {
    hide Flat, Ord;
    if ks != [] { KidsAbove(table, ks[1..], cs[1..], key); }
  }

  /** Entries before the child that a search goes down to are smaller than the key. */
  lemma {:induction false} LeftBelow(table: bool, ks: seq<int>, cs: seq<Node>, i: nat, key: int)
    requires OrdKids(table, ks, cs) && Increasing(ks) && i < |cs| && (i > 0 ==> ks[i - 1] < key)
    ensures Below(Left(table, ks, cs, i), key)
    decreases i
  {
    hide Flat, Ord;
    if i > 0 {
      assert ks[0] <= ks[i - 1];
      LeftBelow(table, ks[1..], cs[1..], i - 1, key);
    }
  }

  /** Entries after it are greater. */
  lemma {:induction false} RightAbove(table: bool, ks: seq<int>, cs: seq<Node>, i: nat, key: int)
    requires OrdKids(table, ks, cs) && Increasing(ks) && i < |cs| && (i < |ks| ==> ks[i] > key || (table && ks[i] == key))
    ensures Above(Right(table, ks, cs, i), key)
    decreases i
  {
    hide Flat, Ord;
    if i > 0 {
      RightAbove(table, ks[1..], cs[1..], i - 1, key);
    } else if ks != [] {
      KidsAbove(table, ks[1..], cs[1..], ks[0]);
    }
  }

  lemma {:induction false} OrdKid(table: bool, ks: seq<int>, cs: seq<Node>, i: nat)
    requires OrdKids(table, ks, cs) && i < |cs|
    ensures Ord(table, cs[i])
    decreases i
  {
    hide Flat, Ord;
    if i > 0 { OrdKid(table, ks[1..], cs[1..], i - 1); }
  }

  /** c: how the last cell looked at, idx, compares with the key; lwr: the child to go on to. */
  datatype Probe = Probe(c: int, idx: nat, lwr: nat)

  /** The rest of a search on one page, which has come down to the cells from lo to upr and looks at idx next. */
  function Halve(ks: seq<int>, key: int, lo: nat, upr: nat, idx: nat): Probe
    requires lo <= idx <= upr < |ks|
    decreases upr - lo
  {
    if ks[idx] < key then
      if idx + 1 > upr then Probe(-1, idx, idx + 1) else Halve(ks, key, idx + 1, upr, (idx + 1 + upr) / 2)
    else if ks[idx] > key then
      if lo > idx - 1 then Probe(1, idx, lo) else Halve(ks, key, lo, idx - 1, (lo + idx - 1) / 2)
    else Probe(0, idx, idx)
  }

  function ProbePage(ks: seq<int>, key: int, biasRight: bool): Probe
    requires ks != []
  {
    Halve(ks, key, 0, |ks| - 1, if biasRight then |ks| - 1 else (|ks| - 1) / 2)
  }

  /** How the entry that a search comes to will compare with the key; -1 for an empty tree. */
  function SearchSign(table: bool, n: Node, key: int, biasRight: bool): int
    decreases n
  {
    if n.keys == [] then -1
    else
      var p := ProbePage(n.keys, key, biasRight);
      if n.Leaf? || (p.c == 0 && !table) then p.c
      else if p.lwr < |n.kids| then SearchSign(table, n.kids[p.lwr], key, biasRight)
      else -1
  }

  lemma SignStep(table: bool, n: Node, key: int, biasRight: bool)
    ensures n.keys == [] ==> SearchSign(table, n, key, biasRight) == -1
    ensures n.keys != [] ==> var p := ProbePage(n.keys, key, biasRight);
      && (n.Leaf? || (p.c == 0 && !table) ==> SearchSign(table, n, key, biasRight) == p.c)
      && (n.Inner? && (p.c != 0 || table) && p.lwr < |n.kids| ==> SearchSign(table, n, key, biasRight) == SearchSign(table, n.kids[p.lwr], key, biasRight))
  {
  }

  /** What the cell looked at last tells of the others. */
  ghost predicate Probed(ks: seq<int>, key: int, p: Probe) {
    && p.idx < |ks| && -1 <= p.c <= 1
    && (p.c == 0 ==> ks[p.idx] == key && p.lwr == p.idx)
    && (p.c != 0 ==> p.lwr == (if p.c < 0 then p.idx + 1 else p.idx) && Below(ks[..p.lwr], key) && Above(ks[p.lwr..], key))
  }

  lemma {:induction false} HalveTells(ks: seq<int>, key: int, lo: nat, upr: nat, idx: nat)
    requires Increasing(ks) && lo <= idx <= upr < |ks|
    requires (forall j | 0 <= j < lo :: ks[j] < key) && forall j | upr < j < |ks| :: ks[j] > key
    ensures Probed(ks, key, Halve(ks, key, lo, upr, idx))
    decreases upr - lo
  {
    if ks[idx] < key {
      if idx + 1 <= upr { HalveTells(ks, key, idx + 1, upr, (idx + 1 + upr) / 2); }
    } else if ks[idx] > key {
      if lo <= idx - 1 { HalveTells(ks, key, lo, idx - 1, (lo + idx - 1) / 2); }
    }
  }

  lemma ProbeTells(ks: seq<int>, key: int, biasRight: bool)
    requires Increasing(ks) && ks != []
    ensures Probed(ks, key, ProbePage(ks, key, biasRight))
  {
    HalveTells(ks, key, 0, |ks| - 1, if biasRight then |ks| - 1 else (|ks| - 1) / 2);
  }

  lemma HalveStep(ks: seq<int>, key: int, lo: nat, upr: nat, idx: nat)
    requires lo <= idx <= upr < |ks|
    ensures ks[idx] == key ==> Halve(ks, key, lo, upr, idx) == Probe(0, idx, idx)
    ensures ks[idx] < key && idx == upr ==> Halve(ks, key, lo, upr, idx) == Probe(-1, idx, idx + 1)
    ensures ks[idx] < key && idx < upr ==> Halve(ks, key, lo, upr, idx) == Halve(ks, key, idx + 1, upr, (idx + 1 + upr) / 2)
    ensures ks[idx] > key && idx == lo ==> Halve(ks, key, lo, upr, idx) == Probe(1, idx, lo)
    ensures ks[idx] > key && idx > lo ==> Halve(ks, key, lo, upr, idx) == Halve(ks, key, lo, idx - 1, (lo + idx - 1) / 2)
  {
  }

  /** The search on one page. */
  method SearchPage(ks: seq<int>, key: int, biasRight: bool) returns (c: int, idx: nat, lwr: nat)
    requires ks != [] && Increasing(ks)
    ensures idx < |ks| && -1 <= c <= 1
    ensures c == 0 ==> ks[idx] == key && lwr == idx
    ensures c != 0 ==> lwr == (if c < 0 then idx + 1 else idx) && Below(ks[..lwr], key) && Above(ks[lwr..], key)
    ensures Probe(c, idx, lwr) == ProbePage(ks, key, biasRight)
  {
    hide Halve;
    var lo, upr := 0, |ks| - 1;
    idx := if biasRight then upr else upr / 2;
    ProbeTells(ks, key, biasRight);
    while true
      invariant 0 <= lo <= idx <= upr < |ks|
      invariant Halve(ks, key, lo, upr, idx) == ProbePage(ks, key, biasRight)
      decreases upr - lo
    {
      HalveStep(ks, key, lo, upr, idx);
      if ks[idx] < key {
        lo := idx + 1;
        if lo > upr { return -1, idx, lo; }
      } else if ks[idx] > key {
        upr := idx - 1;
        if lo > upr { return 1, idx, lo; }
      } else {
        return 0, idx, idx;
      }
      idx := (lo + upr) / 2;
    }
  }

  /** The key is among the entries just if the sign is 0; else there is an entry on the side of the sign. */
  lemma {:induction false} SignTells(table: bool, n: Node, key: int, biasRight: bool)
    requires Shape(n) && Ord(table, n)
    ensures var c := SearchSign(table, n, key, biasRight);
      && -1 <= c <= 1 && (c == 0 <==> key in Flat(table, n))
      && (c > 0 ==> exists x :: x in Flat(table, n) && x > key) && (c < 0 ==> exists x :: x in Flat(table, n) && x < key)
    decreases n
  {
    hide Left, Right, FlatKids, OrdKids, ProbePage;
    var ks := n.keys;
    ProbeTells(ks, key, biasRight);
    var p := ProbePage(ks, key, biasRight);
    match n
    case Leaf(_) => LeafTells(ks, key, p);
    case Inner(_, cs) =>
      if p.c == 0 && !table {
        CellIn(ks, cs, p.idx);
      } else {
        ProbeSides(ks, key, p);
        ShapeKid(n, p.lwr);
        OrdKid(table, ks, cs, p.lwr);
        SignTells(table, cs[p.lwr], key, biasRight);
        Around(table, ks, cs, p.lwr);
        LeftBelow(table, ks, cs, p.lwr, key);
        RightAbove(table, ks, cs, p.lwr, key);
        InMiddle(Left(table, ks, cs, p.lwr), Flat(table, cs[p.lwr]), Right(table, ks, cs, p.lwr), key);
      }
  }

  lemma LeafTells(ks: seq<int>, key: int, p: Probe)
    requires Probed(ks, key, p)
    ensures p.c == 0 <==> key in ks
    ensures p.c > 0 ==> exists x :: x in ks && x > key
    ensures p.c < 0 ==> exists x :: x in ks && x < key
  {
    assert ks == ks[..p.lwr] + ks[p.lwr..] || p.c == 0;
    if p.c != 0 {
      if p.c > 0 { assert ks[p.lwr..][0] == ks[p.idx]; } else { assert ks[..p.lwr][p.idx] == ks[p.idx]; }
      assert ks[p.idx] in ks;
      forall x | x in ks ensures x != key { assert x in ks[..p.lwr] || x in ks[p.lwr..]; }
    }
  }

  lemma CellIn(ks: seq<int>, cs: seq<Node>, i: nat)
    requires i < |ks| && |cs| == |ks| + 1
    ensures ks[i] in FlatKids(false, ks, cs)
  {
    hide Flat, FlatKids, Left, Right;
    Around(false, ks, cs, i);
    NextChild(false, ks, cs, i);
    assert ks[i] in Sep(false, ks[i]);
    assert ks[i] in Right(false, ks, cs, i);
  }

  lemma ProbeSides(ks: seq<int>, key: int, p: Probe)
    requires Probed(ks, key, p) && Increasing(ks)
    ensures p.lwr <= |ks| && (p.lwr > 0 ==> ks[p.lwr - 1] < key)
    ensures p.lwr < |ks| ==> ks[p.lwr] > key || (p.c == 0 && ks[p.lwr] == key)
  {
    if p.c != 0 {
      if p.lwr > 0 { assert ks[..p.lwr][p.lwr - 1] < key; }
      if p.lwr < |ks| { assert ks[p.lwr..][0] > key; }
    }
  }

  lemma InMiddle(l: seq<int>, m: seq<int>, r: seq<int>, key: int)
    requires Below(l, key) && Above(r, key)
    ensures key in l + m + r <==> key in m
    ensures forall x | x in m :: x in l + m + r
  {
  }

  lemma FoundApart(ks: seq<int>, idx: nat)
    requires Increasing(ks) && idx < |ks|
    ensures Below(ks[..idx], ks[idx]) && Above(ks[idx + 1..], ks[idx])
  {
  }
}
