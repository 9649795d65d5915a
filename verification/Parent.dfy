/** balance_nonroot as its caller sees it: the parent, its children, and the page numbers they get. */
module Parent {
  import opened Results
  import opened Pack
  import opened Siblings
  import opened Balance
  import opened PageNumbers
  import opened Trees
  import opened Families
  import opened Signposts

  /** An interior page with its overflow cells in place. */
  datatype Inner = Inner(cells: seq<Cell<nat>>, right: nat) {
    /** Page number of child i, counted from the left. */
    function Kid(i: nat): nat
      requires i <= |cells|
    {
      if i < |cells| then cells[i].child else right
    }
  }

  // ---- choosing the siblings ----

  /** The siblings from nxDiv on: the page and one neighbour on either side of it, or two on one side. */
  ghost predicate Picks(n: nat, iParentIdx: nat, bBulk: bool, nxDiv: nat, nOld: nat) {
    && nxDiv <= iParentIdx < nxDiv + nOld <= n + 1 && 0 < nOld <= 3
    && (n < 2 ==> nxDiv == 0 && nOld == n + 1)
    && (n >= 2 ==> nOld == if bBulk then 2 else 3)
    && (n >= 2 && 0 < iParentIdx < n ==> nxDiv == iParentIdx - 1)
  }

  /** First divider and number of siblings. */
  method ChooseSiblings(n: nat, iParentIdx: nat, bBulk: bool) returns (nxDiv: nat, nOld: nat)
    requires iParentIdx <= n
    ensures nxDiv <= iParentIdx < nxDiv + nOld <= n + 1 && 0 < nOld <= 3 && Picks(n, iParentIdx, bBulk, nxDiv, nOld)
  {
    var i := n;
    var b := if bBulk then 1 else 0;
    if i < 2 {
      nxDiv := 0;
    } else {
      if iParentIdx == 0 { nxDiv := 0; }
      else if iParentIdx == i { nxDiv := i - 2 + b; }
      else { nxDiv := iParentIdx - 1; }
      i := 2 - b;
    }
    nOld := i + 1;
  }

  // ---- the parent ----

  /** Numbers of all the children. */
  ghost function KidNos(parent: Inner): (r: seq<nat>)
    ensures |r| == |parent.cells| + 1 && forall i | 0 <= i < |r| :: r[i] == parent.Kid(i)
  {
    seq(|parent.cells| + 1, i requires 0 <= i <= |parent.cells| => parent.Kid(i))
  }

  ghost function InnerItems(parent: Inner): seq<Item<nat>> { KidItems(KidNos(parent), Bodies(parent.cells)) }

  lemma {:induction false} InnerItemsCells(parent: Inner)
    ensures InnerItems(parent) == CellItems(false, parent.cells) + Tail(false, parent.right)
    decreases |parent.cells|
  {
    var cs := parent.cells;
    if cs != [] {
      var rest := parent.(cells := cs[1..]);
      InnerItemsCells(rest);
      assert KidNos(parent)[1..] == KidNos(rest) && Bodies(cs)[1..] == Bodies(cs[1..]);
    }
  }

  /** The old siblings: nOld children from nxDiv on, with the dividers between them. */
  ghost predicate Among(parent: Inner, nxDiv: nat, nOld: nat) {
    0 < nOld && nxDiv + nOld <= |parent.cells| + 1
  }

  /** In r, new children with dividers between them stand in place of the old siblings. */
  ghost predicate Replaced(parent: Inner, nxDiv: nat, nOld: nat, pgnos: seq<nat>, divs: seq<Body>, r: Inner)
    requires Among(parent, nxDiv, nOld)
  {
    && KidNos(r) == KidNos(parent)[..nxDiv] + (pgnos + KidNos(parent)[nxDiv + nOld..])
    && Bodies(r.cells) == Bodies(parent.cells)[..nxDiv] + (divs + Bodies(parent.cells)[nxDiv + nOld - 1..])
  }

  function SetKid(parent: Inner, i: nat, pgno: nat): Inner
    requires i <= |parent.cells|
  {
    if i < |parent.cells| then parent.(cells := parent.cells[i := parent.cells[i].(child := pgno)])
    else parent.(right := pgno)
  }

  /** The first i new dividers are in place, and the pointer after them is the last new child. */
  ghost predicate Half(parent: Inner, nxDiv: nat, nOld: nat, pgnos: seq<nat>, divs: seq<Body>, i: nat, r: Inner)
    requires Among(parent, nxDiv, nOld) && |pgnos| == |divs| + 1 && i <= |divs|
  {
    && KidNos(r) == KidNos(parent)[..nxDiv] + (pgnos[..i] + ([pgnos[|divs|]] + KidNos(parent)[nxDiv + nOld..]))
    && Bodies(r.cells) == Bodies(parent.cells)[..nxDiv] + (divs[..i] + Bodies(parent.cells)[nxDiv + nOld - 1..])
  }

  /** The dividers are dropped, the pointer after them is set, and the new dividers go in one by one. */
  method ReplaceDividers(parent: Inner, nxDiv: nat, nOld: nat, pgnos: seq<nat>, divs: seq<Body>) returns (r: Inner)
    requires Among(parent, nxDiv, nOld) && |pgnos| == |divs| + 1
    ensures Replaced(parent, nxDiv, nOld, pgnos, divs, r)
  {
    hide Half, Replaced, KidNos, Bodies;
    r := parent;
    for i := 0 to nOld - 1
      invariant r == Inner(parent.cells[..nxDiv] + parent.cells[nxDiv + i..], parent.right)
    {
      r := r.(cells := r.cells[..nxDiv] + r.cells[nxDiv + 1..]);
    }
    Dropped(parent, nxDiv, nOld, pgnos, divs, r);
    r := SetKid(r, nxDiv, pgnos[|divs|]);
    for i := 0 to |divs|
      invariant Half(parent, nxDiv, nOld, pgnos, divs, i, r) && nxDiv + i <= |r.cells|
    {
      PutStep(parent, nxDiv, nOld, pgnos, divs, i, r);
      r := r.(cells := r.cells[..nxDiv + i] + [Cell(pgnos[i], divs[i])] + r.cells[nxDiv + i..]);
    }
    HalfDone(parent, nxDiv, nOld, pgnos, divs, r);
  }

  lemma Dropped(parent: Inner, nxDiv: nat, nOld: nat, pgnos: seq<nat>, divs: seq<Body>, r: Inner)
    requires Among(parent, nxDiv, nOld) && |pgnos| == |divs| + 1
    requires r == Inner(parent.cells[..nxDiv] + parent.cells[nxDiv + nOld - 1..], parent.right)
    ensures nxDiv <= |r.cells| && Half(parent, nxDiv, nOld, pgnos, divs, 0, SetKid(r, nxDiv, pgnos[|divs|]))
  {
    var s, last := SetKid(r, nxDiv, pgnos[|divs|]), pgnos[|divs|];
    assert KidNos(s) == KidNos(parent)[..nxDiv] + ([] + ([last] + KidNos(parent)[nxDiv + nOld..]));
    assert Bodies(s.cells) == Bodies(parent.cells)[..nxDiv] + ([] + Bodies(parent.cells)[nxDiv + nOld - 1..]);
  }

  lemma PutStep(parent: Inner, nxDiv: nat, nOld: nat, pgnos: seq<nat>, divs: seq<Body>, i: nat, was: Inner)
    requires Among(parent, nxDiv, nOld) && |pgnos| == |divs| + 1 && i < |divs| && nxDiv + i <= |was.cells|
    requires Half(parent, nxDiv, nOld, pgnos, divs, i, was)
    ensures var r := was.(cells := was.cells[..nxDiv + i] + [Cell(pgnos[i], divs[i])] + was.cells[nxDiv + i..]);
      Half(parent, nxDiv, nOld, pgnos, divs, i + 1, r)
  {
    var r := was.(cells := was.cells[..nxDiv + i] + [Cell(pgnos[i], divs[i])] + was.cells[nxDiv + i..]);
    Put(was, nxDiv + i, pgnos[i], divs[i], r);
    hide KidNos, Bodies;
    InTheMiddle(KidNos(parent)[..nxDiv], pgnos[..i], pgnos[i], [pgnos[|divs|]] + KidNos(parent)[nxDiv + nOld..]);
    InTheMiddle(Bodies(parent.cells)[..nxDiv], divs[..i], divs[i], Bodies(parent.cells)[nxDiv + nOld - 1..]);
    assert pgnos[..i + 1] == pgnos[..i] + [pgnos[i]] && divs[..i + 1] == divs[..i] + [divs[i]];
  }

  lemma HalfDone(parent: Inner, nxDiv: nat, nOld: nat, pgnos: seq<nat>, divs: seq<Body>, r: Inner)
    requires Among(parent, nxDiv, nOld) && |pgnos| == |divs| + 1
    requires Half(parent, nxDiv, nOld, pgnos, divs, |divs|, r)
    ensures Replaced(parent, nxDiv, nOld, pgnos, divs, r)
  {
    assert divs[..|divs|] == divs;
    assert pgnos[..|divs|] + ([pgnos[|divs|]] + KidNos(parent)[nxDiv + nOld..]) == pgnos + KidNos(parent)[nxDiv + nOld..];
  }

  lemma Put(was: Inner, at: nat, pgno: nat, div: Body, r: Inner)
    requires at <= |was.cells| && r == was.(cells := was.cells[..at] + [Cell(pgno, div)] + was.cells[at..])
    ensures KidNos(r) == KidNos(was)[..at] + [pgno] + KidNos(was)[at..]
    ensures Bodies(r.cells) == Bodies(was.cells)[..at] + [div] + Bodies(was.cells)[at..]
  {
  }

  lemma InTheMiddle<T>(a: seq<T>, b: seq<T>, x: T, c: seq<T>)
    ensures (a + (b + c))[..|a| + |b|] + [x] + (a + (b + c))[|a| + |b|..] == a + ((b + [x]) + c)
  {
  }

  // ---- what the caller guarantees ----

  predicate Fit(k: Kind, b: Body) { if k.leafData then W(k, b) <= k.u else 3 * W(k, b) <= k.u }

  /** Page contents fit; only the page being balanced has overflow cells: one from an insert on a leaf-data
      leaf, up to four from the level below. */
  ghost predicate Overfull(k: Kind, pages: seq<Page<nat>>, divs: seq<Body>) {
    && (forall i | 0 <= i < |pages| :: pages[i].Ok() && Weight(k, pages[i].cells) <= k.u)
    && (forall i | 0 <= i < |pages| :: forall c | c in Loaded(pages[i]) :: Fit(k, c.body))
    && (!k.leafData ==> forall i | 0 <= i < |divs| :: Fit(k, divs[i]))
    && (exists p | 0 <= p < |pages| :: OnlyOne(k, pages, p))
  }

  ghost predicate OnlyOne(k: Kind, pages: seq<Page<nat>>, p: nat)
    requires p < |pages|
  {
    |pages[p].ovfl| <= (if k.leafData then 1 else 4) && forall t | 0 <= t < |pages| && t != p :: pages[t].ovfl == []
  }

  lemma {:induction false} AllFit(k: Kind, sibs: seq<Page<nat>>, divs: seq<Cell<nat>>, i: nat)
    requires Input(k, sibs, divs) && i <= |sibs| && Overfull(k, sibs, Bodies(divs))
    ensures forall c | c in GatherTo(k, sibs, divs, i) :: Fit(k, c.body)
  {
    hide Loaded, Weight, OnlyOne, Fit;
    if i > 0 {
      AllFit(k, sibs, divs, i - 1);
      forall c | c in DivAfter(k, sibs, divs, i - 1) ensures Fit(k, c.body) { assert Bodies(divs)[i - 1] == divs[i - 1].body; }
    }
  }

  lemma {:induction false} FewLoose(k: Kind, sibs: seq<Page<nat>>, divs: seq<Cell<nat>>, i: nat, p: nat)
    requires Input(k, sibs, divs) && i <= |sibs| && p < |sibs| && OnlyOne(k, sibs, p) && !k.leafData
    ensures |Loose(k, sibs, divs, i)| <= (if i < |sibs| then i else i - 1) + (if p < i then 4 else 0)
  {
    hide Loaded, Weight;
    if i > 0 { FewLoose(k, sibs, divs, i - 1, p); }
  }

  lemma OverfullBounded(k: Kind, sibs: seq<Page<nat>>, divs: seq<Cell<nat>>)
    requires k.Ok() && 0 < |sibs| <= 3 && |divs| == |sibs| - 1 && Overfull(k, sibs, Bodies(divs))
    ensures Input(k, sibs, divs) && Bounded(k, sibs, divs)
  {
    hide Loaded, Weight, W, GatherTo, Loose;
    AllFit(k, sibs, divs, |sibs|);
    var p :| 0 <= p < |sibs| && OnlyOne(k, sibs, p);
    if !k.leafData { FewLoose(k, sibs, divs, |sibs|, p); }
  }

  lemma OverfullSlice(k: Kind, pages: seq<Page<nat>>, divs: seq<Body>, a: nat, n: nat)
    requires Overfull(k, pages, divs) && |pages| == |divs| + 1 && 0 < n && a + n <= |pages|
    ensures Overfull(k, pages[a..a + n], divs[a..a + n - 1])
  {
    hide Weight, Loaded, Fit;
    var s := pages[a..a + n];
    assert forall i | 0 <= i < n :: s[i] == pages[a + i];
    var p :| 0 <= p < |pages| && OnlyOne(k, pages, p);
    var q: nat := if a <= p < a + n then p - a else 0;
    forall t | 0 <= t < n && t != q ensures s[t].ovfl == [] { assert s[t] == pages[a + t]; }
    assert OnlyOne(k, s, q);
  }

  // ---- balance_nonroot ----

  /** The first sibling pages are used again; further new pages come from the allocator, and old ones left over are freed. */
  method Restore(store: Store, s: seq<nat>, added: seq<nat>, pages: seq<Page<nat>>) returns (rc: Rc, s2: seq<nat>, store2: Store)
    requires AllIn(store, s) && Distinct(s) && (forall p | p in store :: p < NO_PAGE) && Unused(store, added)
    requires |pages| <= |s| + |added|
    ensures rc == OK && Rising(s2) && Restored(store, store2, s, s2, pages)
    ensures Supplied(s2, s, added)
  {
    var n := if |pages| < |s| then |pages| else |s|;
    var aPgno := s[..n] + added[..|pages| - n];
    NumbersDistinct(store, s, added, n, |pages| - n);
    rc, s2 := AssignNumbers(aPgno);
    SameNumbers(aPgno, s2);
    SortedNumbers(store, s, added, n, |pages| - n, s2);
    store2 := PutPages((map p | p in store && p !in s :: store[p]), s2, pages);
  }

  /** The pages are put under the numbers. */
  method PutPages(rest: Store, s2: seq<nat>, pages: seq<Page<nat>>) returns (store2: Store)
    requires |s2| == |pages| && Rising(s2) && forall i | 0 <= i < |s2| :: s2[i] !in rest
    ensures forall t | 0 <= t < |pages| :: s2[t] in store2 && store2[s2[t]] == pages[t]
    ensures forall p | p in rest :: p in store2 && store2[p] == rest[p]
    ensures forall p | p in store2 :: p in rest || p in s2
  {
    store2 := rest;
    for i := 0 to |pages|
      invariant forall t | 0 <= t < i :: s2[t] in store2 && store2[s2[t]] == pages[t]
      invariant forall p | p in rest :: p in store2 && store2[p] == rest[p]
      invariant forall p | p in store2 :: p in rest || p in s2
    {
      store2 := store2[s2[i] := pages[i]];
    }
  }

  ghost predicate Supplied(s2: seq<nat>, s: seq<nat>, added: seq<nat>) { forall p | p in s2 :: p in s || p in added }

  ghost predicate Unused(store: Store, pgnos: seq<nat>) {
    Distinct(pgnos) && forall i | 0 <= i < |pgnos| :: pgnos[i] !in store && pgnos[i] < NO_PAGE
  }

  lemma NumbersDistinct(store: Store, s: seq<nat>, added: seq<nat>, n: nat, m: nat)
    requires AllIn(store, s) && Distinct(s) && Unused(store, added) && n <= |s| && m <= |added|
    ensures Distinct(s[..n] + added[..m])
  {
    var k := s[..n] + added[..m];
    forall i, j | 0 <= i < j < |k| ensures k[i] != k[j] {
      assert k[i] == if i < n then s[i] else added[i - n];
      assert k[j] == if j < n then s[j] else added[j - n];
    }
  }

  lemma SameNumbers(a: seq<nat>, b: seq<nat>)
    requires SetOf(a) == SetOf(b)
    ensures forall p :: p in a <==> p in b
  {
    forall p ensures p in a <==> p in b { assert p in a <==> p in SetOf(a); }
  }

  lemma SortedNumbers(store: Store, s: seq<nat>, added: seq<nat>, n: nat, m: nat, s2: seq<nat>)
    requires AllIn(store, s) && (forall p | p in store :: p < NO_PAGE) && Unused(store, added) && n <= |s| && m <= |added|
    requires forall p :: p in s[..n] + added[..m] <==> p in s2
    ensures forall p | p in s2 :: p < NO_PAGE && (p in s || p !in store) && (p in s || p in added)
  {
    forall p | p in s2 ensures p < NO_PAGE && (p in s || p !in store) && (p in s || p in added) { assert p in s[..n] || p in added[..m]; }
  }

  ghost predicate Legit(k: Kind, data: bool, h: nat, store: Store, parent: Inner) {
    && k.Ok() && k.leaf == (h == 0) && k.leafData == (h == 0 && !data)
    && Family(store, KidNos(parent), Bodies(parent.cells), h)
    && Overfull(k, Fetched(store, KidNos(parent)), Bodies(parent.cells))
  }

  /** What the pages record as their free bytes. */
  ghost predicate FreeCounts(k: Kind, store: Store, parent: Inner, nFree: seq<int>) {
    && |nFree| == |parent.cells| + 1
    && forall i | 0 <= i < |nFree| :: parent.Kid(i) in store ==> nFree[i] == k.u - Weight(k, store[parent.Kid(i)].cells)
  }

  /** No page but child number i of the parent has overflow cells. */
  ghost predicate OthersPlain(store: Store, parent: Inner, i: nat) {
    forall t | 0 <= t <= |parent.cells| && t != i :: parent.Kid(t) in store ==> store[parent.Kid(t)].ovfl == []
  }

  /** Every child of the parent fits on its page without overflow cells. */
  ghost predicate Settled(k: Kind, pages: seq<Page<nat>>) {
    forall i | 0 <= i < |pages| :: pages[i].Ok() && pages[i].ovfl == [] && Weight(k, pages[i].cells) <= k.u
  }

  /** The entries below the parent are met in the same order, all leaves h levels below its children. */
  ghost predicate SameWalk(v: View, h: nat, store: Store, parent: Inner, store2: Store, parent2: Inner) {
    && Below(store, InnerItems(parent), h + 1) && Below(store2, InnerItems(parent2), h + 1)
    && Walk(v, store2, InnerItems(parent2), h + 1) == Walk(v, store, InnerItems(parent), h + 1)
  }

  /** Everything met below the parent was met there before, or is a signpost made from it. */
  ghost predicate DrawnWalk(k: Kind, data: bool, h: nat, store: Store, parent: Inner, store2: Store, parent2: Inner) {
    && Below(store, InnerItems(parent), h + 1) && Below(store2, InnerItems(parent2), h + 1)
    && Drawn(k, Walk(SearchView(data), store2, InnerItems(parent2), h + 1), Walk(SearchView(data), store, InnerItems(parent), h + 1))
  }

  /** Only children of the parent are written, freed, or added under unused numbers. */
  ghost predicate Reworked(store: Store, kids: seq<nat>, store2: Store, kids2: seq<nat>, added: seq<nat>) {
    && (forall p | p in store && p !in kids :: p in store2 && store2[p] == store[p])
    && (forall p | p in store2 :: p in store || p in added)
    && (forall p | p in kids2 :: p in kids || p !in store)
  }

  /** The parent's dividers from nxDiv on, nOld less one of them, give way to nNew less one. */
  ghost predicate Redivided(parent: Inner, parent2: Inner, nxDiv: nat, nOld: nat, nNew: nat) {
    && Among(parent, nxDiv, nOld) && 0 < nNew <= MAX_PAGES && |parent2.cells| + nOld == |parent.cells| + nNew
    && Bodies(parent2.cells)[..nxDiv] == Bodies(parent.cells)[..nxDiv]
    && nxDiv + nNew - 1 <= |parent2.cells|
    && Bodies(parent2.cells)[nxDiv + nNew - 1..] == Bodies(parent.cells)[nxDiv + nOld - 1..]
  }

  ghost predicate ChildrenFit(k: Kind, store: Store, parent: Inner) {
    AllIn(store, KidNos(parent)) && Settled(k, Fetched(store, KidNos(parent)))
  }

  /** A divider is an old one, or made from the last cell of the page before it. */
  ghost predicate DividersMade(k: Kind, parent: Inner, store2: Store, parent2: Inner) {
    forall i | 0 <= i < |parent2.cells| && parent2.Kid(i) in store2 ::
      parent2.cells[i].body in Bodies(parent.cells)
      || (var cs := store2[parent2.Kid(i)].cells; cs != [] && parent2.cells[i].body == k.divider(cs[|cs| - 1].body))
  }

  /** The siblings' cells go to the pages from nxDiv on in parent2, which have ascending numbers and are evened out; no way
      to divide the cells has fewer pages. */
  ghost predicate Spread(k: Kind, bBulk: bool, store: Store, parent: Inner, nxDiv: nat, nOld: nat, store2: Store, parent2: Inner, nNew: nat) {
    && Among(parent, nxDiv, nOld) && Among(parent2, nxDiv, nNew)
    && SpreadTo(k, bBulk, store, KidNos(parent)[nxDiv..nxDiv + nOld], parent.cells[nxDiv..nxDiv + nOld - 1],
                store2, KidNos(parent2)[nxDiv..nxDiv + nNew])
  }

  ghost predicate SpreadTo(k: Kind, bBulk: bool, store: Store, s: seq<nat>, divs: seq<Cell<nat>>, store2: Store, s2: seq<nat>) {
    && AllIn(store, s) && AllIn(store2, s2) && Rising(s2) && Input(k, Fetched(store, s), divs)
    && LeastPages(k, Fetched(store, s), divs, |s2|) && Divided(k, Fetched(store, s), divs, bBulk, Fetched(store2, s2))
  }

  /** Children and dividers of the parent are met in the same order. */
  ghost predicate SameRow(leaf: bool, store: Store, parent: Inner, store2: Store, parent2: Inner) {
    && AllIn(store, KidNos(parent)) && Row(Fetched(store, KidNos(parent)), Bodies(parent.cells))
    && AllIn(store2, KidNos(parent2)) && Row(Fetched(store2, KidNos(parent2)), Bodies(parent2.cells))
    && RowItems(leaf, Fetched(store2, KidNos(parent2)), Bodies(parent2.cells)) == RowItems(leaf, Fetched(store, KidNos(parent)), Bodies(parent.cells))
  }

  /** The subtree below the parent keeps its entries, their order and the depth of its leaves; so it does the dividers, or,
      where these are made anew from the keys on the leaves, what they are there for. */
  method BalanceNonroot(k: Kind, ghost data: bool, ghost h: nat, ghost key: Body -> int, store: Store, parent: Inner, iParentIdx: nat,
                        added: seq<nat>, nFree: seq<int>, bBulk: bool) returns (rc: Rc, store2: Store, parent2: Inner, nxDiv: nat, nOld: nat, nNew: nat)
    requires Legit(k, data, h, store, parent) && iParentIdx <= |parent.cells|
    requires Unused(store, added) && |added| >= MAX_PAGES
    requires FreeCounts(k, store, parent, nFree)
    requires OthersPlain(store, parent, iParentIdx)
    ensures rc == OK
    ensures Family(store2, KidNos(parent2), Bodies(parent2.cells), h)
    ensures ChildrenFit(k, store2, parent2)
    ensures SameWalk(OwnView(data), h, store, parent, store2, parent2)
    ensures DrawnWalk(k, data, h, store, parent, store2, parent2)
    ensures Reworked(store, KidNos(parent), store2, KidNos(parent2), added) && Redivided(parent, parent2, nxDiv, nOld, nNew)
    ensures Picks(|parent.cells|, iParentIdx, bBulk, nxDiv, nOld) && Spread(k, bBulk, store, parent, nxDiv, nOld, store2, parent2, nNew)
    ensures !k.leafData ==> SameRow(k.leaf, store, parent, store2, parent2)
    ensures k.leafData ==> DividersMade(k, parent, store2, parent2)
    ensures KeepsKey(k, key) && Searchable(data, store, InnerItems(parent), h + 1, key) ==> Searchable(data, store2, InnerItems(parent2), h + 1, key)
  {
    hide Supplied, SameWalk, DrawnWalk, Reworked, Redivided, ChildrenFit, DividersMade, Searchable, KeepsKey, SameRow, OthersPlain, Weight, Family, Overfull, RowItems, Walk, Below, Fetched, Settled, KidNos, Bodies, Rebalanced, Bounded, Input, Rising, Distinct, Restored, Replaced, Loaded, LeastPages, Divided, Spread, Picks;
    nxDiv, nOld := ChooseSiblings(|parent.cells|, iParentIdx, bBulk);
    var s := Numbers(parent, nxDiv, nOld);
    var divs := parent.cells[nxDiv..nxDiv + nOld - 1];
    Chosen(k, data, h, store, parent, nxDiv, nOld, s);
    var sibs := FetchPages(store, s);
    var pages, newDivs;
    rc, pages, newDivs := BalanceSiblings(k, sibs, divs, nFree[nxDiv..nxDiv + nOld], bBulk);
    Enough(k, sibs, divs, pages, newDivs);
    var s2;
    rc, s2, store2 := Restore(store, s, added, pages);
    parent2 := ReplaceDividers(parent, nxDiv, nOld, s2, newDivs);
    nNew := |newDivs| + 1;
    NonrootDone(k, bBulk, data, h, key, store, parent, iParentIdx, added, nxDiv, nOld, s, divs, pages, newDivs, s2, store2, parent2);
  }

  /** What has been done to the siblings is what was to be done to the subtree. */
  lemma NonrootDone(k: Kind, bBulk: bool, data: bool, h: nat, key: Body -> int, store: Store, parent: Inner, iParentIdx: nat, added: seq<nat>,
                    nxDiv: nat, nOld: nat, s: seq<nat>, divs: seq<Cell<nat>>, pages: seq<Page<nat>>, newDivs: seq<Body>,
                    s2: seq<nat>, store2: Store, parent2: Inner)
    requires Legit(k, data, h, store, parent) && OthersPlain(store, parent, iParentIdx) && Among(parent, nxDiv, nOld)
    requires nxDiv <= iParentIdx < nxDiv + nOld
    requires s == KidNos(parent)[nxDiv..nxDiv + nOld] && divs == parent.cells[nxDiv..nxDiv + nOld - 1] && AllIn(store, s)
    requires Input(k, Fetched(store, s), divs) && Rebalanced(k, Fetched(store, s), divs, pages, newDivs)
    requires LeastPages(k, Fetched(store, s), divs, |pages|) && Divided(k, Fetched(store, s), divs, bBulk, pages) && Rising(s2)
    requires |pages| == |newDivs| + 1 == |s2| <= MAX_PAGES && Restored(store, store2, s, s2, pages) && Supplied(s2, s, added)
    requires Replaced(parent, nxDiv, nOld, s2, newDivs, parent2)
    ensures Family(store2, KidNos(parent2), Bodies(parent2.cells), h)
    ensures ChildrenFit(k, store2, parent2)
    ensures SameWalk(OwnView(data), h, store, parent, store2, parent2)
    ensures DrawnWalk(k, data, h, store, parent, store2, parent2)
    ensures Reworked(store, KidNos(parent), store2, KidNos(parent2), added) && Redivided(parent, parent2, nxDiv, nOld, |pages|)
    ensures Spread(k, bBulk, store, parent, nxDiv, nOld, store2, parent2, |pages|)
    ensures !k.leafData ==> SameRow(k.leaf, store, parent, store2, parent2)
    ensures k.leafData ==> DividersMade(k, parent, store2, parent2)
    ensures KeepsKey(k, key) && Searchable(data, store, InnerItems(parent), h + 1, key) ==> Searchable(data, store2, InnerItems(parent2), h + 1, key)
  {
    hide Supplied, SameWalk, DrawnWalk, Reworked, Redivided, ChildrenFit, DividersMade, Searchable, KeepsKey, SameRow, OthersPlain, Weight, Family, Overfull, RowItems, Walk, Below, Fetched, Settled, KidNos, Bodies, Rebalanced, Bounded, Input, Rising, Distinct, Restored, Replaced, Loaded, LeastPages, Divided, Spread, Legit, Made, Change.Ok;
    var c := TheChange(k, data, h, store, parent, nxDiv, nOld, s, pages, newDivs, store2, s2, parent2);
    Whole(k, key, parent, iParentIdx, nxDiv, nOld, parent2, c);
    IsSpread(k, bBulk, store, parent, nxDiv, nOld, s, divs, store2, parent2, s2, newDivs, pages);
    Changed(parent, parent2, nxDiv, nOld, s, s2, newDivs, store, store2, pages, added);
  }

  method Numbers(parent: Inner, a: nat, n: nat) returns (s: seq<nat>)
    requires Among(parent, a, n)
    ensures s == KidNos(parent)[a..a + n]
  {
    s := [];
    for i := 0 to n
      invariant s == KidNos(parent)[a..a + i]
    {
      s := s + [parent.Kid(a + i)];
    }
  }

  method FetchPages(store: Store, s: seq<nat>) returns (pages: seq<Page<nat>>)
    requires AllIn(store, s)
    ensures pages == Fetched(store, s)
  {
    pages := seq(|s|, i requires 0 <= i < |s| => store[s[i]]);
  }

  lemma FamilyParts(store: Store, parent: Inner, h: nat)
    requires Family(store, KidNos(parent), Bodies(parent.cells), h)
    ensures AllIn(store, KidNos(parent)) && Distinct(KidNos(parent)) && forall p | p in store :: p < NO_PAGE
    ensures Row(Fetched(store, KidNos(parent)), Bodies(parent.cells))
  {
    hide Below, PageItems, Pages, RowItems, KidNos, Bodies, Fetched, Row;
    FetchedRow(store, KidNos(parent), Bodies(parent.cells), h);
  }

  lemma DistinctSlice(k: seq<nat>, a: nat, b: nat)
    requires Distinct(k) && a <= b <= |k|
    ensures Distinct(k[a..b])
  {
  }

  lemma BodiesSlice(cells: seq<Cell<nat>>, a: nat, b: nat)
    requires a <= b <= |cells|
    ensures Bodies(cells[a..b]) == Bodies(cells)[a..b]
  {
  }

  lemma FetchedSlice(store: Store, k: seq<nat>, a: nat, b: nat)
    requires AllIn(store, k) && a <= b <= |k|
    ensures AllIn(store, k[a..b]) && Fetched(store, k[a..b]) == Fetched(store, k)[a..b]
  {
  }

  lemma Chosen(k: Kind, data: bool, h: nat, store: Store, parent: Inner, nxDiv: nat, nOld: nat, s: seq<nat>)
    requires Legit(k, data, h, store, parent) && Among(parent, nxDiv, nOld) && nOld <= 3
    requires s == KidNos(parent)[nxDiv..nxDiv + nOld]
    ensures AllIn(store, s) && Distinct(s) && forall p | p in store :: p < NO_PAGE
    ensures var divs := parent.cells[nxDiv..nxDiv + nOld - 1];
      Input(k, Fetched(store, s), divs) && Bounded(k, Fetched(store, s), divs)
    ensures forall i | 0 <= i < nOld :: Fetched(store, s)[i] == store[parent.Kid(nxDiv + i)]
  {
    hide Weight, Family, Overfull, Bounded, Input, Distinct, Row, Loaded;
    FamilyParts(store, parent, h);
    FetchedSlice(store, KidNos(parent), nxDiv, nxDiv + nOld);
    DistinctSlice(KidNos(parent), nxDiv, nxDiv + nOld);
    BodiesSlice(parent.cells, nxDiv, nxDiv + nOld - 1);
    OverfullSlice(k, Fetched(store, KidNos(parent)), Bodies(parent.cells), nxDiv, nOld);
    OverfullBounded(k, Fetched(store, s), parent.cells[nxDiv..nxDiv + nOld - 1]);
  }

  lemma Enough(k: Kind, sibs: seq<Page<nat>>, divs: seq<Cell<nat>>, pages: seq<Page<nat>>, newDivs: seq<Body>)
    requires Input(k, sibs, divs) && Rebalanced(k, sibs, divs, pages, newDivs)
    ensures 0 < |pages| <= MAX_PAGES && |newDivs| + 1 == |pages|
  {
    hide Weight, RowItems, Joined, Bodies, Input;
  }

  lemma IsSpread(k: Kind, bBulk: bool, store: Store, parent: Inner, nxDiv: nat, nOld: nat, s: seq<nat>, divs: seq<Cell<nat>>,
                 store2: Store, parent2: Inner, s2: seq<nat>, newDivs: seq<Body>, pages: seq<Page<nat>>)
    requires Among(parent, nxDiv, nOld) && s == KidNos(parent)[nxDiv..nxDiv + nOld] && divs == parent.cells[nxDiv..nxDiv + nOld - 1]
    requires AllIn(store, s) && Input(k, Fetched(store, s), divs) && LeastPages(k, Fetched(store, s), divs, |pages|)
    requires Divided(k, Fetched(store, s), divs, bBulk, pages) && Rising(s2) && Restored(store, store2, s, s2, pages)
    requires |pages| == |newDivs| + 1 && Replaced(parent, nxDiv, nOld, s2, newDivs, parent2)
    ensures Spread(k, bBulk, store, parent, nxDiv, nOld, store2, parent2, |pages|)
  {
    hide Input, LeastPages, Divided, Rising, Restored, Fetched, Replaced, KidNos;
    NewPages(store, store2, s, s2, pages);
    NewKids(parent, nxDiv, nOld, s2, newDivs, parent2);
  }

  lemma NewPages(store: Store, store2: Store, s: seq<nat>, s2: seq<nat>, pages: seq<Page<nat>>)
    requires Restored(store, store2, s, s2, pages)
    ensures |s2| == |pages| && AllIn(store2, s2) && Fetched(store2, s2) == pages
  {
  }

  lemma NewKids(parent: Inner, nxDiv: nat, nOld: nat, s2: seq<nat>, newDivs: seq<Body>, parent2: Inner)
    requires Among(parent, nxDiv, nOld) && |s2| == |newDivs| + 1 && Replaced(parent, nxDiv, nOld, s2, newDivs, parent2)
    ensures Among(parent2, nxDiv, |s2|) && KidNos(parent2)[nxDiv..nxDiv + |s2|] == s2
  {
    assert |KidNos(parent)[..nxDiv]| == nxDiv;
  }

  /** The parts of the replacement put together. */
  lemma TheChange(k: Kind, data: bool, h: nat, store: Store, parent: Inner, nxDiv: nat, nOld: nat, s: seq<nat>,
                  pages: seq<Page<nat>>, newDivs: seq<Body>, store2: Store, s2: seq<nat>, parent2: Inner) returns (c: Change)
    requires Legit(k, data, h, store, parent) && Among(parent, nxDiv, nOld) && s == KidNos(parent)[nxDiv..nxDiv + nOld]
    requires AllIn(store, s)
    requires Input(k, Fetched(store, s), parent.cells[nxDiv..nxDiv + nOld - 1])
    requires Rebalanced(k, Fetched(store, s), parent.cells[nxDiv..nxDiv + nOld - 1], pages, newDivs)
    requires Restored(store, store2, s, s2, pages) && |s2| == |newDivs| + 1
    requires Replaced(parent, nxDiv, nOld, s2, newDivs, parent2)
    ensures Made(k, parent, nxDiv, nOld, c) && KidNos(parent2) == c.Kids2() && Bodies(parent2.cells) == c.Divs2()
    ensures c.data == data && c.h == h && c.store == store && c.store2 == store2
  {
    hide Weight, Family, RowItems, Walk, Below, Fetched, KidNos, Bodies, Input, Restored, Settled, Rebalanced, Made, Change.Ok, Replaced, Legit;
    var kids, bodies := KidNos(parent), Bodies(parent.cells);
    c := Change(data, h, store, store2, kids[..nxDiv], s, kids[nxDiv + nOld..],
                bodies[..nxDiv], bodies[nxDiv..nxDiv + nOld - 1], bodies[nxDiv + nOld - 1..], s2, newDivs, pages);
    IsMade(k, parent, nxDiv, nOld, c);
    IsReplaced(parent, nxDiv, nOld, c, parent2);
  }

  lemma Changed(parent: Inner, parent2: Inner, nxDiv: nat, nOld: nat, s: seq<nat>, s2: seq<nat>, newDivs: seq<Body>,
                store: Store, store2: Store, pages: seq<Page<nat>>, added: seq<nat>)
    requires Among(parent, nxDiv, nOld) && s == KidNos(parent)[nxDiv..nxDiv + nOld] && |s2| == |newDivs| + 1 <= MAX_PAGES
    requires AllIn(store, s) && Restored(store, store2, s, s2, pages) && Supplied(s2, s, added)
    requires Replaced(parent, nxDiv, nOld, s2, newDivs, parent2)
    ensures Reworked(store, KidNos(parent), store2, KidNos(parent2), added)
    ensures Redivided(parent, parent2, nxDiv, nOld, |newDivs| + 1)
  {
    Parted(parent, parent2, nxDiv, nOld, s2, newDivs);
    var kids := KidNos(parent);
    assert forall p | p in s :: p in kids;
    forall p | p in KidNos(parent2) ensures p in kids || p !in store {
      InParts(kids[..nxDiv], s2, kids[nxDiv + nOld..], p);
    }
  }

  lemma Parted(parent: Inner, parent2: Inner, nxDiv: nat, nOld: nat, s2: seq<nat>, newDivs: seq<Body>)
    requires Among(parent, nxDiv, nOld) && |s2| == |newDivs| + 1 <= MAX_PAGES && Replaced(parent, nxDiv, nOld, s2, newDivs, parent2)
    ensures Redivided(parent, parent2, nxDiv, nOld, |newDivs| + 1)
  {
    var d, d2 := Bodies(parent.cells), Bodies(parent2.cells);
    assert d2[..nxDiv] == d[..nxDiv];
    assert d2[nxDiv + |newDivs|..] == d[nxDiv + nOld - 1..];
  }

  lemma Whole(k: Kind, key: Body -> int, parent: Inner, iParentIdx: nat, nxDiv: nat, nOld: nat, parent2: Inner, c: Change)
    requires Made(k, parent, nxDiv, nOld, c) && KidNos(parent2) == c.Kids2() && Bodies(parent2.cells) == c.Divs2()
    requires nxDiv <= iParentIdx < nxDiv + nOld && OthersPlain(c.store, parent, iParentIdx)
    ensures Family(c.store2, KidNos(parent2), Bodies(parent2.cells), c.h)
    ensures ChildrenFit(k, c.store2, parent2)
    ensures SameWalk(OwnView(c.data), c.h, c.store, parent, c.store2, parent2)
    ensures DrawnWalk(k, c.data, c.h, c.store, parent, c.store2, parent2)
    ensures !k.leafData ==> SameRow(k.leaf, c.store, parent, c.store2, parent2)
    ensures k.leafData ==> DividersMade(k, parent, c.store2, parent2)
    ensures KeepsKey(k, key) && Searchable(c.data, c.store, InnerItems(parent), c.h + 1, key) ==> Searchable(c.data, c.store2, InnerItems(parent2), c.h + 1, key)
  {
    hide DividersMade, DrawnWalk, Searchable, KeepsKey, SameRow, Weight, Family, RowItems, Walk, Below, Fetched, KidNos, Bodies, Input, Restored, Settled, Rebalanced, Made, Change.Ok, OthersPlain, Legit;
    IsChange(k, parent, nxDiv, nOld, c);
    MadeWhole(k, parent, nxDiv, nOld, c);
    ChangeFamily(c);
    ChangeWalk(c, OwnView(c.data));
    DividersKept(k, key, parent, nxDiv, nOld, parent2, c);
    DrawnKept(k, parent, nxDiv, nOld, parent2, c);
    AllSettled(k, parent, iParentIdx, nxDiv, nOld, c);
  }

  lemma DrawnKept(k: Kind, parent: Inner, nxDiv: nat, nOld: nat, parent2: Inner, c: Change)
    requires Made(k, parent, nxDiv, nOld, c) && KidNos(parent2) == c.Kids2() && Bodies(parent2.cells) == c.Divs2()
    ensures DrawnWalk(k, c.data, c.h, c.store, parent, c.store2, parent2)
  {
    hide Weight, Family, RowItems, Row, Below, Fetched, KidNos, Bodies, Input, Restored, Rebalanced, Made, Change.Ok, Drawn, Walk, LeafDivs;
    IsChange(k, parent, nxDiv, nOld, c);
    MadeWhole(k, parent, nxDiv, nOld, c);
    LeafKind(k, c.data, c.h, c.store, parent);
    if k.leafData { NewLeafDivs(k, c.store, c.s, parent.cells[nxDiv..nxDiv + nOld - 1], c.pages, c.ds2); }
    DrawnChange(c, k);
  }

  lemma DividersKept(k: Kind, key: Body -> int, parent: Inner, nxDiv: nat, nOld: nat, parent2: Inner, c: Change)
    requires Made(k, parent, nxDiv, nOld, c) && KidNos(parent2) == c.Kids2() && Bodies(parent2.cells) == c.Divs2()
    ensures !k.leafData ==> SameRow(k.leaf, c.store, parent, c.store2, parent2)
    ensures k.leafData ==> DividersMade(k, parent, c.store2, parent2)
    ensures KeepsKey(k, key) && Searchable(c.data, c.store, InnerItems(parent), c.h + 1, key) ==> Searchable(c.data, c.store2, InnerItems(parent2), c.h + 1, key)
  {
    hide Weight, Family, RowItems, Row, Below, Fetched, KidNos, Bodies, Input, Restored, Rebalanced, Made, Change.Ok, Searchable, Drawn, Walk, DividersMade, LeafDivs;
    IsChange(k, parent, nxDiv, nOld, c);
    MadeWhole(k, parent, nxDiv, nOld, c);
    LeafKind(k, c.data, c.h, c.store, parent);
    if k.leafData {
      NewLeafDivs(k, c.store, c.s, parent.cells[nxDiv..nxDiv + nOld - 1], c.pages, c.ds2);
      NewOrOld(k, parent, nxDiv, nOld, parent2, c);
    } else {
      ChangeRow(c);
    }
    if KeepsKey(k, key) && Searchable(c.data, c.store, InnerItems(parent), c.h + 1, key) { SearchableChange(c, k, key); }
  }

  lemma LeafKind(k: Kind, data: bool, h: nat, store: Store, parent: Inner)
    requires Legit(k, data, h, store, parent)
    ensures k.leafData == (h == 0 && !data) && k.leaf == (h == 0)
  {
  }

  lemma NewOrOld(k: Kind, parent: Inner, nxDiv: nat, nOld: nat, parent2: Inner, c: Change)
    requires Made(k, parent, nxDiv, nOld, c) && c.Ok() && KidNos(parent2) == c.Kids2() && Bodies(parent2.cells) == c.Divs2()
    requires LeafDivs(k, c.pages, c.ds2)
    ensures DividersMade(k, parent, c.store2, parent2)
  {
    hide Weight, Family, RowItems, Row, Below, KidNos, Input, Restored, Rebalanced, Made, Change.Ok, Legit, Joined;
    MadeWhole(k, parent, nxDiv, nOld, c);
    ChangeParts(c);
    forall i | 0 <= i < |parent2.cells| && parent2.Kid(i) in c.store2
      ensures parent2.cells[i].body in Bodies(parent.cells)
        || (var cs := c.store2[parent2.Kid(i)].cells; cs != [] && parent2.cells[i].body == k.divider(cs[|cs| - 1].body))
    {
      assert parent2.cells[i].body == Bodies(parent2.cells)[i] && parent2.Kid(i) == KidNos(parent2)[i];
      DivAt(c, i);
      if |c.da| <= i < |c.da| + |c.ds2| {
        assert Fetched(c.store2, c.Kids2())[i] == (Fetched(c.store, c.a) + (c.pages + Fetched(c.store, c.b)))[i];
      }
    }
  }

  lemma DivAt(c: Change, i: nat)
    requires i < |c.Divs2()|
    ensures if |c.da| <= i < |c.da| + |c.ds2| then c.Divs2()[i] == c.ds2[i - |c.da|] else c.Divs2()[i] in c.Divs()
  {
    if i < |c.da| { assert c.Divs()[i] == c.Divs2()[i]; }
    if i >= |c.da| + |c.ds2| { assert c.Divs()[i - |c.ds2| + |c.ds|] == c.Divs2()[i]; }
  }

  lemma NewLeafDivs(k: Kind, store: Store, s: seq<nat>, divs: seq<Cell<nat>>, pages: seq<Page<nat>>, divs2: seq<Body>)
    requires AllIn(store, s) && Input(k, Fetched(store, s), divs) && Rebalanced(k, Fetched(store, s), divs, pages, divs2) && k.leafData
    ensures LeafDivs(k, pages, divs2) && forall i | 0 <= i < |pages| :: pages[i].ovfl == []
  {
    hide Weight, RowItems, Joined, LeafDivs, Row;
  }

  lemma MadeWhole(k: Kind, parent: Inner, nxDiv: nat, nOld: nat, c: Change)
    requires Made(k, parent, nxDiv, nOld, c)
    ensures c.Kids() == KidNos(parent) && c.Divs() == Bodies(parent.cells)
    ensures Among(parent, nxDiv, nOld) && Legit(k, c.data, c.h, c.store, parent)
    ensures AllIn(c.store, c.s) && Input(k, Fetched(c.store, c.s), parent.cells[nxDiv..nxDiv + nOld - 1])
    ensures Rebalanced(k, Fetched(c.store, c.s), parent.cells[nxDiv..nxDiv + nOld - 1], c.pages, c.ds2)
    ensures c.a == KidNos(parent)[..nxDiv] && c.b == KidNos(parent)[nxDiv + nOld..]
  {
    hide Weight, Family, Distinct, Rebalanced, Input, Fetched, Legit, KidNos, Bodies, Restored;
  }

  lemma IsReplaced(parent: Inner, nxDiv: nat, nOld: nat, c: Change, parent2: Inner)
    requires Among(parent, nxDiv, nOld) && Replaced(parent, nxDiv, nOld, c.s2, c.ds2, parent2)
    requires c.a == KidNos(parent)[..nxDiv] && c.b == KidNos(parent)[nxDiv + nOld..]
    requires c.da == Bodies(parent.cells)[..nxDiv] && c.db == Bodies(parent.cells)[nxDiv + nOld - 1..]
    ensures KidNos(parent2) == c.Kids2() && Bodies(parent2.cells) == c.Divs2()
  {
  }

  lemma IsMade(k: Kind, parent: Inner, nxDiv: nat, nOld: nat, c: Change)
    requires Legit(k, c.data, c.h, c.store, parent) && Among(parent, nxDiv, nOld)
    requires c.a == KidNos(parent)[..nxDiv] && c.s == KidNos(parent)[nxDiv..nxDiv + nOld] && c.b == KidNos(parent)[nxDiv + nOld..]
    requires c.da == Bodies(parent.cells)[..nxDiv] && c.ds == Bodies(parent.cells)[nxDiv..nxDiv + nOld - 1]
    requires c.db == Bodies(parent.cells)[nxDiv + nOld - 1..]
    requires |c.s2| == |c.ds2| + 1 && Restored(c.store, c.store2, c.s, c.s2, c.pages) && AllIn(c.store, c.s)
    requires Input(k, Fetched(c.store, c.s), parent.cells[nxDiv..nxDiv + nOld - 1])
    requires Rebalanced(k, Fetched(c.store, c.s), parent.cells[nxDiv..nxDiv + nOld - 1], c.pages, c.ds2)
    ensures Made(k, parent, nxDiv, nOld, c)
  {
    hide Fetched, Input, Restored, Rebalanced, Legit, AllIn;
    Halves(KidNos(parent), nxDiv, nOld);
    Halves(Bodies(parent.cells), nxDiv, nOld - 1);
  }

  lemma Halves<T>(k: seq<T>, a: nat, n: nat)
    requires a + n <= |k|
    ensures k == k[..a] + (k[a..a + n] + k[a + n..])
  {
  }

  /** c is the replacement of the siblings as balance_nonroot makes it. */
  ghost predicate Made(k: Kind, parent: Inner, nxDiv: nat, nOld: nat, c: Change) {
    && Legit(k, c.data, c.h, c.store, parent) && Among(parent, nxDiv, nOld)
    && c.a == KidNos(parent)[..nxDiv] && c.s == KidNos(parent)[nxDiv..nxDiv + nOld] && c.b == KidNos(parent)[nxDiv + nOld..]
    && c.da == Bodies(parent.cells)[..nxDiv] && c.ds == Bodies(parent.cells)[nxDiv..nxDiv + nOld - 1]
    && c.db == Bodies(parent.cells)[nxDiv + nOld - 1..]
    && c.Kids() == KidNos(parent) && c.Divs() == Bodies(parent.cells)
    && |c.s2| == |c.ds2| + 1 && Restored(c.store, c.store2, c.s, c.s2, c.pages)
    && AllIn(c.store, c.s)
    && Input(k, Fetched(c.store, c.s), parent.cells[nxDiv..nxDiv + nOld - 1])
    && Rebalanced(k, Fetched(c.store, c.s), parent.cells[nxDiv..nxDiv + nOld - 1], c.pages, c.ds2)
  }

  lemma IsChange(k: Kind, parent: Inner, nxDiv: nat, nOld: nat, c: Change)
    requires Made(k, parent, nxDiv, nOld, c)
    ensures c.Ok()
  {
    hide Weight, Family, RowItems, Distinct, Joined, Overfull, LeafDivs, Loaded, KidNos, Restored;
    BodiesSlice(parent.cells, nxDiv, nxDiv + nOld - 1);
    RestoredSize(c);
    assert Row(Fetched(c.store, c.s), c.ds);
    assert Row(c.pages, c.ds2);
  }

  lemma RestoredSize(c: Change)
    requires Restored(c.store, c.store2, c.s, c.s2, c.pages)
    ensures |c.s2| == |c.pages|
  {
  }

  lemma AllSettled(k: Kind, parent: Inner, iParentIdx: nat, nxDiv: nat, nOld: nat, c: Change)
    requires Made(k, parent, nxDiv, nOld, c) && c.Ok() && nxDiv <= iParentIdx < nxDiv + nOld
    requires OthersPlain(c.store, parent, iParentIdx)
    ensures AllIn(c.store2, c.Kids2()) && Settled(k, Fetched(c.store2, c.Kids2()))
  {
    hide Weight, Made, Change.Ok, OthersPlain, Bodies, KidNos, Input, Rebalanced, Family, Row, Fetched, Settled, Distinct, Legit;
    ChangeParts(c);
    MadeWhole(k, parent, nxDiv, nOld, c);
    SettledOther(k, c.data, c.h, c.store, parent, iParentIdx, 0, nxDiv);
    SettledOther(k, c.data, c.h, c.store, parent, iParentIdx, nxDiv + nOld, |parent.cells| + 1);
    SettledNew(k, c.store, c.s, parent.cells[nxDiv..nxDiv + nOld - 1], c.pages, c.ds2);
    assert KidNos(parent)[0..nxDiv] == KidNos(parent)[..nxDiv];
    assert KidNos(parent)[nxDiv + nOld..|parent.cells| + 1] == KidNos(parent)[nxDiv + nOld..];
    SettledParts(k, Fetched(c.store, c.a), c.pages, Fetched(c.store, c.b));
  }

  lemma SettledNew(k: Kind, store: Store, s: seq<nat>, divs: seq<Cell<nat>>, pages: seq<Page<nat>>, divs2: seq<Body>)
    requires AllIn(store, s) && Input(k, Fetched(store, s), divs) && Rebalanced(k, Fetched(store, s), divs, pages, divs2)
    ensures Settled(k, pages)
  {
    hide Weight, RowItems, Joined, LeafDivs, Row;
  }

  /** Children of the parent from a to b, without the one being balanced, were settled before. */
  lemma SettledOther(k: Kind, data: bool, h: nat, store: Store, parent: Inner, iParentIdx: nat, a: nat, b: nat)
    requires Legit(k, data, h, store, parent) && OthersPlain(store, parent, iParentIdx)
    requires a <= b <= |parent.cells| + 1 && !(a <= iParentIdx < b)
    ensures AllIn(store, KidNos(parent)[a..b]) && Settled(k, Fetched(store, KidNos(parent)[a..b]))
  {
    hide Weight, Family, Loaded, Row, Bodies, Distinct;
    FamilyParts(store, parent, h);
    var kids := KidNos(parent);
    forall i | 0 <= i < b - a
      ensures kids[a..b][i] in store
      ensures var q := store[kids[a..b][i]]; q.Ok() && q.ovfl == [] && Weight(k, q.cells) <= k.u
    {
      assert kids[a..b][i] == kids[a + i] == parent.Kid(a + i);
      assert Fetched(store, kids)[a + i] == store[kids[a + i]];
    }
  }

  lemma SettledParts(k: Kind, a: seq<Page<nat>>, s: seq<Page<nat>>, b: seq<Page<nat>>)
    requires Settled(k, a) && Settled(k, s) && Settled(k, b)
    ensures Settled(k, a + (s + b))
  {
    hide Weight;
  }
}
