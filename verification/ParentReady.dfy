/** A parent whose child is to be balanced: what balance_nonroot asks for is given, and what it leaves is plain. */
module ParentReady {
  import Pack
  import opened Siblings
  import opened Balance
  import opened PageNumbers
  import opened Trees
  import opened Families
  import opened Signposts
  import opened Parent
  import opened TreePlace
  import opened ParentPlace
  import opened PlainTree

  // ---- a parent whose child is to be balanced ----

  lemma {:induction false} KidIn(kids: seq<nat>, divs: seq<Body>, i: nat)
    requires |kids| == |divs| + 1 && i < |kids|
    ensures Kid(kids[i]) in KidItems(kids, divs)
    decreases |kids|
  {
    if i > 0 { KidIn(kids[1..], divs[1..], i - 1); }
  }

  lemma {:induction false} KidOf(kids: seq<nat>, divs: seq<Body>, p: nat) returns (i: nat)
    requires |kids| == |divs| + 1 && Kid(p) in KidItems(kids, divs)
    ensures i < |kids| && kids[i] == p
    decreases |kids|
  {
    if kids[0] == p {
      i := 0;
    } else {
      var j := KidOf(kids[1..], divs[1..], p);
      i := j + 1;
    }
  }

  /** How many overflow cells a page may come with. */
  function OvflLimit(c: Config, g: nat): nat { if g == 0 && !c.data then 1 else 4 }

  /** A page whose child cur is to be balanced, in a tree that is otherwise plain. */
  ghost predicate Ready(c: Config, store: Store, q: nat, g: nat, cur: nat) {
    && c.Ok() && g > 0 && (forall p | p in store :: p < NO_PAGE)
    && Tree(store, q, g) && OnceBelow(store, q, g) && Plain(c, store, q, g) && PlainUnder(c, store, q, g, cur)
    && cur in store && Holds(c, store[cur], g - 1) && |store[cur].ovfl| <= OvflLimit(c, g - 1)
    && FitAll(c, Met0(SearchView(c.data), store, q, g))
  }

  lemma KidPlain(c: Config, store: Store, q: nat, g: nat, cur: nat, i: nat)
    requires Ready(c, store, q, g, cur) && i <= |store[q].cells|
    ensures var p := Opened(store[q]).Kid(i); Tree(store, p, g - 1) && PlainUnder(c, store, p, g - 1, cur)
  {
    hide PageItems, KidItems, Pages, Once, Walk, Plain;
    var parent := Opened(store[q]);
    PlainIs(c, store, q, g);
    OpenedItems(store[q]);
    KidIn(KidNos(parent), Bodies(parent.cells), i);
    var x: Item<nat> := Kid(parent.Kid(i));
    assert Below(store, PageItems(g == 0, store[q]), g) && PlainAll(c, store, PageItems(g == 0, store[q]), g, cur);
    assert x.Kid? && x in PageItems(g == 0, store[q]);
  }

  lemma PlainIs(c: Config, store: Store, q: nat, g: nat)
    requires Plain(c, store, q, g)
    ensures q in store && store[q].ovfl == [] && Holds(c, store[q], g) && store[q].Ok()
  {
  }

  lemma IsLegit(c: Config, store: Store, q: nat, g: nat, cur: nat, iIdx: nat)
    requires Ready(c, store, q, g, cur) && iIdx <= |store[q].cells| && Opened(store[q]).Kid(iIdx) == cur
    ensures var parent := Opened(store[q]); Legit(c.KindAt(g - 1), c.data, g - 1, store, parent) && OthersPlain(store, parent, iIdx)
  {
    hide PageItems, KidItems, Pages, Once, Walk, Plain, Family, Overfull, RowItems, KidNos, OthersPlain;
    var parent := Opened(store[q]);
    PlainIs(c, store, q, g);
    IsFamily(store, q, g);
    IsOverfull(c, store, q, g, cur, iIdx);
  }

  lemma FamilyIn(store: Store, kids: seq<nat>, divs: seq<Body>, h: nat)
    requires Family(store, kids, divs, h)
    ensures AllIn(store, kids) && Distinct(kids) && Rooted(store, kids, h) && |kids| == |divs| + 1 && Row(Fetched(store, kids), divs)
    ensures forall i | 0 <= i < |kids| :: Below(store, PageItems(h == 0, Fetched(store, kids)[i]), h)
  {
    FetchedRow(store, kids, divs, h);
  }

  lemma IsOverfull(c: Config, store: Store, q: nat, g: nat, cur: nat, iIdx: nat)
    requires Ready(c, store, q, g, cur) && iIdx <= |store[q].cells| && Opened(store[q]).Kid(iIdx) == cur
    requires var parent := Opened(store[q]); Family(store, KidNos(parent), Bodies(parent.cells), g - 1)
    ensures var parent := Opened(store[q]);
      AllIn(store, KidNos(parent)) && Overfull(c.KindAt(g - 1), Fetched(store, KidNos(parent)), Bodies(parent.cells)) && OthersPlain(store, parent, iIdx)
  {
    hide PageItems, KidItems, Pages, Once, Walk, Weight, Loaded, RowWalk, Family, Fit, FitMet;
    var parent, k := Opened(store[q]), c.KindAt(g - 1);
    var kids, divs := KidNos(parent), Bodies(parent.cells);
    FamilyIn(store, kids, divs, g - 1);
    var pages := Fetched(store, kids);
    OpenedItems(store[q]);
    KidsWalk(SearchView(c.data), store, kids, divs, g - 1);
    forall i | 0 <= i < |pages|
      ensures pages[i].Ok() && Weight(k, pages[i].cells) <= k.u && (i != iIdx ==> pages[i].ovfl == [])
      ensures forall x | x in Loaded(pages[i]) :: Fit(k, x.body)
      ensures i < |divs| && !k.leafData ==> Fit(k, divs[i])
    {
      KidPlain(c, store, q, g, cur, i);
      RowMet(c, store, pages, divs, g - 1, i);
      forall x | x in Loaded(pages[i]) ensures Fit(k, x.body) { MetFits(c, x.body, g - 1, g - 1); }
      if i < |divs| && !k.leafData { MetFits(c, divs[i], g, g - 1); }
    }
    assert OnlyOne(k, pages, iIdx);
  }

  // ---- the new dividers on the parent's page ----

  lemma {:induction false} SameWeight<C>(k: Kind, a: seq<Cell<C>>, b: seq<Cell<C>>)
    requires Bodies(a) == Bodies(b)
    ensures Weight(k, a) == Weight(k, b)
    decreases |a|
  {
    assert |a| == |b|;
    if a != [] {
      assert Bodies(a)[0] == a[0].body && Bodies(b)[0] == b[0].body;
      assert Bodies(a[1..]) == Bodies(a)[1..] && Bodies(b[1..]) == Bodies(b)[1..];
      SameWeight(k, a[1..], b[1..]);
    }
  }

  /** Cells of the parent that stay take no more room than before. */
  lemma KeptWeight(k: Kind, parent: Inner, parent2: Inner, nxDiv: nat, nOld: nat, nNew: nat)
    requires Redivided(parent, parent2, nxDiv, nOld, nNew)
    ensures Weight(k, parent2.cells[..nxDiv] + parent2.cells[nxDiv + nNew - 1..]) <= Weight(k, parent.cells)
  {
    hide Weight;
    var a, m, b := parent.cells[..nxDiv], parent.cells[nxDiv..nxDiv + nOld - 1], parent.cells[nxDiv + nOld - 1..];
    var a2, b2 := parent2.cells[..nxDiv], parent2.cells[nxDiv + nNew - 1..];
    assert parent.cells == a + (m + b);
    assert Bodies(a) == Bodies(parent.cells)[..nxDiv] && Bodies(a2) == Bodies(parent2.cells)[..nxDiv];
    assert Bodies(b) == Bodies(parent.cells)[nxDiv + nOld - 1..] && Bodies(b2) == Bodies(parent2.cells)[nxDiv + nNew - 1..];
    SameWeight(k, a, a2);
    SameWeight(k, b, b2);
    WeightConcat(k, m, b);
    WeightConcat(k, a, m + b);
    WeightConcat(k, a2, b2);
  }

  /** The first f of the new dividers are on the page, and the others are its overflow cells. */
  ghost predicate PlacedAt(k: Kind, parent2: Inner, nxDiv: nat, nNew: nat, p: Page<nat>, f: nat)
    requires 0 < nNew && nxDiv + nNew - 1 <= |parent2.cells|
  {
    var cs, m := parent2.cells, nxDiv + nNew - 1;
    && nxDiv + f <= m && p == Page(cs[..nxDiv + f] + cs[m..], parent2.right, nxDiv + f, cs[nxDiv + f..m])
    && Weight(k, p.cells) <= k.u && (nxDiv + f < m ==> Weight(k, cs[..nxDiv + f + 1] + cs[m..]) > k.u)
  }

  /** insertCell of each new divider: the first that does not fit, and all after it, overflow. */
  method PlaceDividers(k: Kind, parent2: Inner, nxDiv: nat, nNew: nat) returns (p: Page<nat>, ghost placed: nat)
    requires 0 < nNew <= Pack.MAX_PAGES && nxDiv + nNew - 1 <= |parent2.cells|
    requires Weight(k, parent2.cells[..nxDiv] + parent2.cells[nxDiv + nNew - 1..]) <= k.u
    ensures p.Ok() && Loaded(p) == parent2.cells && p.right == parent2.right && Weight(k, p.cells) <= k.u && |p.ovfl| < nNew
    ensures Weight(k, parent2.cells) <= k.u ==> p.ovfl == []
    ensures PlacedAt(k, parent2, nxDiv, nNew, p, placed)
  {
    hide Weight;
    var cs, m := parent2.cells, nNew - 1;
    var rest := cs[nxDiv + m..];
    var f := 0;
    var stored := cs[..nxDiv] + rest;
    assert cs[..nxDiv + 0] == cs[..nxDiv];
    while f < m && Weight(k, cs[..nxDiv + f + 1] + rest) <= k.u
      invariant 0 <= f <= m && stored == cs[..nxDiv + f] + rest && Weight(k, stored) <= k.u
    {
      f := f + 1;
      stored := cs[..nxDiv + f] + rest;
    }
    p := Page(stored, parent2.right, nxDiv + f, cs[nxDiv + f..nxDiv + m]);
    assert cs == cs[..nxDiv + f] + cs[nxDiv + f..nxDiv + m] + rest;
    assert stored[..nxDiv + f] == cs[..nxDiv + f] && stored[nxDiv + f..] == rest;
    placed := f;
    if f < m { PartWeight(k, cs, nxDiv + f + 1, nxDiv + m); }
  }

  lemma PartWeight(k: Kind, cs: seq<Cell<nat>>, a: nat, b: nat)
    requires a <= b <= |cs|
    ensures Weight(k, cs[..a] + cs[b..]) <= Weight(k, cs)
  {
    hide Weight;
    assert cs == cs[..a] + (cs[a..b] + cs[b..]);
    WeightConcat(k, cs[a..b], cs[b..]);
    WeightConcat(k, cs[..a], cs[a..b] + cs[b..]);
    WeightConcat(k, cs[..a], cs[b..]);
  }

  lemma PlacedItems(p: Page<nat>, parent2: Inner)
    requires p.Ok() && Loaded(p) == parent2.cells && p.right == parent2.right
    ensures PageItems(false, p) == InnerItems(parent2)
  {
    InnerItemsCells(parent2);
  }

  method Frees(k: Kind, store: Store, parent: Inner) returns (nFree: seq<int>)
    requires AllIn(store, KidNos(parent))
    ensures FreeCounts(k, store, parent, nFree)
  {
    nFree := [];
    for i := 0 to |parent.cells| + 1
      invariant |nFree| == i && forall t | 0 <= t < i :: parent.Kid(t) in store && nFree[t] == k.u - Weight(k, store[parent.Kid(t)].cells)
    {
      assert KidNos(parent)[i] == parent.Kid(i);
      nFree := nFree + [k.u - Weight(k, store[parent.Kid(i)].cells)];
    }
  }

  // ---- the pages below the parent afterwards ----

  lemma {:induction false} RowHasKid(leaf: bool, pages: seq<Page<nat>>, divs: seq<Body>, i: nat, x: nat)
    requires Row(pages, divs) && i < |pages| && Kid(x) in PageItems(leaf, pages[i])
    ensures Kid(x) in RowItems(leaf, pages, divs)
    decreases i
  {
    hide PageItems;
    if i > 0 {
      assert pages[1..][i - 1] == pages[i];
      RowHasKid(leaf, pages[1..], divs[1..], i - 1, x);
    }
  }

  lemma {:induction false} KidOfRow(leaf: bool, pages: seq<Page<nat>>, divs: seq<Body>, x: nat) returns (i: nat)
    requires Row(pages, divs) && Kid(x) in RowItems(leaf, pages, divs)
    ensures i < |pages| && Kid(x) in PageItems(leaf, pages[i])
    decreases |pages|
  {
    hide PageItems;
    if Kid(x) in PageItems(leaf, pages[0]) {
      i := 0;
    } else {
      var j := KidOfRow(leaf, pages[1..], divs[1..], x);
      i := j + 1;
    }
  }

  /** The pages below the children are plain, child by child or along the row. */
  lemma RowPlain(c: Config, store: Store, kids: seq<nat>, divs: seq<Body>, h: nat, but: nat)
    requires |kids| == |divs| + 1 && Rooted(store, kids, h) && forall i | 0 <= i < |kids| :: Tree(store, kids[i], h) && PlainUnder(c, store, kids[i], h, but)
    ensures (forall i | 0 <= i < |kids| :: kids[i] in store) && Row(Fetched(store, kids), divs)
    ensures var r := RowItems(h == 0, Fetched(store, kids), divs); Below(store, r, h) && PlainAll(c, store, r, h, but)
  {
    hide PageItems, RowItems, Row, Plain;
    FetchedRow(store, kids, divs, h);
    RowBelow(store, Fetched(store, kids), divs, h);
    var r := RowItems(h == 0, Fetched(store, kids), divs);
    if h > 0 {
      forall x | x in r && x.Kid? ensures PlainUnder(c, store, x.kid, h - 1, but) {
        var i := KidOfRow(h == 0, Fetched(store, kids), divs, x.kid);
        assert PlainUnder(c, store, kids[i], h, but);
      }
    }
  }

  lemma PlainKid(c: Config, store: Store, kids: seq<nat>, divs: seq<Body>, h: nat, but: nat, i: nat)
    requires |kids| == |divs| + 1 && Rooted(store, kids, h) && i < |kids|
    requires (forall t | 0 <= t < |kids| :: kids[t] in store) && Row(Fetched(store, kids), divs)
    requires var r := RowItems(h == 0, Fetched(store, kids), divs); Below(store, r, h) && PlainAll(c, store, r, h, but)
    requires Plain(c, store, kids[i], h)
    ensures Tree(store, kids[i], h) && PlainUnder(c, store, kids[i], h, but)
  {
    hide PageItems, RowItems, Row, Plain;
    assert Tree(store, kids[i], h);
    if h > 0 {
      forall x | x in PageItems(false, store[kids[i]]) && x.Kid? ensures Tree(store, x.kid, h - 1) && PlainUnder(c, store, x.kid, h - 1, but) {
        RowHasKid(h == 0, Fetched(store, kids), divs, i, x.kid);
      }
    }
  }

  lemma ThirdRooted(store: Store, q: nat, g: nat, store2: Store, parent2: Inner, p2: Page<nat>, added: seq<nat>)
    requires g > 0 && Tree(store, q, g) && OnceBelow(store, q, g) && store[q].ovfl == [] && forall p | p in store :: p < NO_PAGE
    requires var kids := KidNos(Opened(store[q])); Reworked(store, kids, store2, KidNos(parent2), added)
    requires Family(store2, KidNos(parent2), Bodies(parent2.cells), g - 1) && LocalChange(store, store2[q := p2], q, g)
    requires PageItems(false, p2) == InnerItems(parent2) && p2.Ok()
    ensures var kids2 := KidNos(parent2);
      && Rooted(store2[q := p2], kids2, g - 1) && AllIn(store2, kids2) && AllIn(store2[q := p2], kids2)
      && Fetched(store2[q := p2], kids2) == Fetched(store2, kids2) && q !in kids2
  {
    hide PageItems, KidItems, Pages, Once, Walk, Family, RowItems, Row, Distinct, Bodies, KidNos;
    IsFamily(store, q, g);
    FamilyIn(store2, KidNos(parent2), Bodies(parent2.cells), g - 1);
    KidsBelow(store2[q := p2], KidNos(parent2), Bodies(parent2.cells), g - 1);
  }

  lemma ThirdRow(c: Config, store: Store, q: nat, g: nat, cur: nat, store2: Store, parent2: Inner, p2: Page<nat>, added: seq<nat>)
    requires Ready(c, store, q, g, cur) && cur in KidNos(Opened(store[q]))
    requires var kids := KidNos(Opened(store[q])); Reworked(store, kids, store2, KidNos(parent2), added)
    requires AllIn(store2, KidNos(parent2)) && Row(Fetched(store2, KidNos(parent2)), Bodies(parent2.cells))
    requires g > 1 ==> SameRow(false, store, Opened(store[q]), store2, parent2)
    ensures var r := RowItems(g == 1, Fetched(store2, KidNos(parent2)), Bodies(parent2.cells));
      Below(store2[q := p2], r, g - 1) && PlainAll(c, store2[q := p2], r, g - 1, q)
  {
    hide PageItems, KidItems, Pages, Once, Walk, Weight, Family, RowItems, KidNos, Bodies, Row, Distinct, PlainUnder, Plain;
    var store3, h, parent := store2[q := p2], g - 1, Opened(store[q]);
    if h > 0 {
      PlainIs(c, store, q, g);
      var kids, divs := KidNos(parent), Bodies(parent.cells);
      IsFamily(store, q, g);
      FamilyIn(store, kids, divs, h);
      OpenedItems(store[q]);
      KidsPages(store, kids, divs, h);
      RowOnce(store, kids, divs, h);
      OnceKids(store, kids, divs, h);
      AllKidsPlain(c, store, q, g, cur);
      RowPlain(c, store, kids, divs, h, cur);
      var r := RowItems(h == 0, Fetched(store, kids), divs);
      RowUntouched(store, r, h, kids, store2, KidNos(parent2), added, q, p2, cur);
      PlainFrame(c, store, store3, r, h, cur, q);
    }
  }

  lemma AllKidsPlain(c: Config, store: Store, q: nat, g: nat, cur: nat)
    requires Ready(c, store, q, g, cur)
    ensures var kids := KidNos(Opened(store[q]));
      forall i | 0 <= i < |kids| :: Tree(store, kids[i], g - 1) && PlainUnder(c, store, kids[i], g - 1, cur)
  {
    hide Plain, PlainUnder, Walk, Pages, Once;
    var kids := KidNos(Opened(store[q]));
    forall i | 0 <= i < |kids| ensures Tree(store, kids[i], g - 1) && PlainUnder(c, store, kids[i], g - 1, cur) { KidPlain(c, store, q, g, cur, i); }
  }

  lemma RowUntouched(store: Store, r: seq<Item<nat>>, h: nat, kids: seq<nat>, store2: Store, kids2: seq<nat>, added: seq<nat>,
                     q: nat, p2: Page<nat>, cur: nat)
    requires Below(store, r, h) && Reworked(store, kids, store2, kids2, added) && SetOf(kids) !! Pages(store, r, h)
    requires q !in Pages(store, r, h) && cur in kids
    ensures SameOn(store, store2[q := p2], Pages(store, r, h)) && cur !in Pages(store, r, h)
  {
    hide Pages, Below;
    assert cur in SetOf(kids);
    forall p | p in Pages(store, r, h) && p in store ensures p in store2 && store2[p] == store[p] { assert p !in SetOf(kids); }
  }

  lemma ChildPlain(c: Config, store2: Store, parent2: Inner, h: nat, i: nat)
    requires ChildrenFit(c.KindAt(h), store2, parent2) && i <= |parent2.cells|
    ensures Plain(c, store2, KidNos(parent2)[i], h)
  {
    hide Weight;
  }

  lemma ParentPlain(c: Config, store3: Store, q: nat, g: nat, parent2: Inner)
    requires g > 0 && Tree(store3, q, g) && PageItems(false, store3[q]) == InnerItems(parent2)
    requires forall i | 0 <= i <= |parent2.cells| :: Tree(store3, KidNos(parent2)[i], g - 1) && PlainUnder(c, store3, KidNos(parent2)[i], g - 1, q)
    ensures PlainUnder(c, store3, q, g, q)
  {
    hide PageItems, KidItems, Plain;
    var items := PageItems(false, store3[q]);
    assert Below(store3, items, g);
    forall x | x in items && x.Kid? ensures Tree(store3, x.kid, g - 1) && PlainUnder(c, store3, x.kid, g - 1, q) {
      var i := KidOf(KidNos(parent2), Bodies(parent2.cells), x.kid);
    }
  }

  /** The changed part of the tree is plain but for the parent. */
  lemma NewPlain(c: Config, store: Store, q: nat, g: nat, cur: nat, store2: Store, parent2: Inner, p2: Page<nat>, added: seq<nat>)
    requires Ready(c, store, q, g, cur) && cur in KidNos(Opened(store[q]))
    requires var kids := KidNos(Opened(store[q])); Reworked(store, kids, store2, KidNos(parent2), added)
    requires Family(store2, KidNos(parent2), Bodies(parent2.cells), g - 1) && ChildrenFit(c.KindAt(g - 1), store2, parent2)
    requires g > 1 ==> SameRow(false, store, Opened(store[q]), store2, parent2)
    requires LocalChange(store, store2[q := p2], q, g) && PageItems(false, p2) == InnerItems(parent2) && p2.Ok()
    ensures PlainUnder(c, store2[q := p2], q, g, q)
  {
    hide PageItems, KidItems, Pages, Once, Walk, Weight, Family, RowItems, KidNos, Bodies, Row, PlainAll, Settled, SameRow, Distinct, Below;
    var store3, h, parent := store2[q := p2], g - 1, Opened(store[q]);
    var kids, kids2, divs2 := KidNos(parent), KidNos(parent2), Bodies(parent2.cells);
    IsFamily(store, q, g);
    FamilyIn(store, kids, Bodies(parent.cells), h);
    FamilyIn(store2, kids2, divs2, h);
    ThirdRooted(store, q, g, store2, parent2, p2, added);
    ThirdRow(c, store, q, g, cur, store2, parent2, p2, added);
    forall i | 0 <= i < |kids2| ensures Tree(store3, kids2[i], h) && PlainUnder(c, store3, kids2[i], h, q) {
      ChildPlain(c, store2, parent2, h, i);
      PlainSame(c, store2, store3, kids2[i], h);
      PlainKid(c, store3, kids2, divs2, h, q, i);
    }
    ParentPlain(c, store3, q, g, parent2);
  }
}
