/** The other ways to balance: a page more at the right end, a level more below the root, a level less. */
module RootBalance {
  import opened Siblings
  import opened Balance
  import opened PageNumbers
  import opened Trees
  import opened Families
  import opened Signposts
  import opened Parent

  /** The same is met below the items, whatever counts as an entry. */
  ghost predicate SameMet(store: Store, items: seq<Item<nat>>, h: nat, store2: Store, items2: seq<Item<nat>>, h2: nat) {
    && Below(store, items, h) && Below(store2, items2, h2)
    && forall v :: Walk(v, store2, items2, h2) == Walk(v, store, items, h)
  }

  /** The root's content moves, overflow cells and all, to a new page below it; the root keeps no cell. */
  method BalanceDeeper(ghost h: nat, store: Store, root: Page<nat>, pgnoChild: nat) returns (store2: Store, root2: Inner)
    requires root.Ok() && Below(store, PageItems(h == 0, root), h)
    requires pgnoChild !in store && pgnoChild < NO_PAGE
    ensures root2 == Inner([], pgnoChild) && store2 == store[pgnoChild := root]
    ensures Rooted(store2, KidNos(root2), h) && SameMet(store, PageItems(h == 0, root), h, store2, InnerItems(root2), h + 1)
  {
    hide Walk, PageItems, Pages, Below;
    store2 := store[pgnoChild := root];
    root2 := Inner([], pgnoChild);
    PagesInStore(store, PageItems(h == 0, root), h);
    WalkFrame(Entries, store, store2, PageItems(h == 0, root), h);
    OnlyKid(pgnoChild);
    KidWalk(Entries, store2, pgnoChild, h);
    ghost var items, items2, h2 := PageItems(h == 0, root), InnerItems(root2), h + 1;
    forall v ensures Walk(v, store2, items2, h2) == Walk(v, store, items, h) {
      WalkFrame(v, store, store2, items, h);
      KidWalk(v, store2, pgnoChild, h);
    }
  }

  lemma OnlyKid(p: nat)
    ensures KidNos(Inner([], p)) == [p] && InnerItems(Inner([], p)) == [Kid(p)]
  {
    assert KidNos(Inner([], p)) == [p];
  }

  /** p is the root of a subtree of height h and does not occur again in it. */
  ghost predicate Only(store: Store, p: nat, h: nat) {
    Tree(store, p, h) && p !in Pages(store, PageItems(h == 0, store[p]), h)
  }

  /** A root without cells takes over the content of its only child, whose page is freed: the tree is a level lower. */
  method BalanceShallower(ghost h: nat, store: Store, root: Inner) returns (store2: Store, root2: Page<nat>)
    requires root.cells == [] && Only(store, root.right, h)
    ensures root2 == store[root.right] && store2 == store - {root.right}
    ensures SameMet(store, InnerItems(root), h + 1, store2, PageItems(h == 0, root2), h)
  {
    hide Walk, PageItems, Pages, Below, KidNos, InnerItems, Bodies;
    OnlyKid(root.right);
    root2 := store[root.right];
    store2 := store - {root.right};
    WalkFrame(Entries, store, store2, PageItems(h == 0, root2), h);
    KidWalk(Entries, store, root.right, h);
    ghost var items, items2, h1 := InnerItems(root), PageItems(h == 0, root2), h + 1;
    forall v ensures Walk(v, store2, items2, h) == Walk(v, store, items, h1) {
      WalkFrame(v, store, store2, items2, h);
      KidWalk(v, store, root.right, h);
    }
  }

  /** The page at the right end of a leaf-data tree gives its one overflow cell, the last, to a new page on its right. */
  method BalanceQuick(k: Kind, h: nat, ghost key: Body -> int, store: Store, parent: Inner, pgnoNew: nat) returns (store2: Store, parent2: Inner)
    requires k.Ok() && k.leafData && h == 0 && Family(store, KidNos(parent), Bodies(parent.cells), h)
    requires parent.right in store && pgnoNew !in store && pgnoNew < NO_PAGE
    requires var p := store[parent.right]; p.cells != [] && |p.ovfl| == 1 && p.at == |p.cells| && W(k, p.ovfl[0].body) <= k.u
    ensures var p := store[parent.right];
      && store2 == store[parent.right := Page(p.cells, p.right, 0, [])][pgnoNew := Page(p.ovfl, 0, 0, [])]
      && parent2 == Inner(parent.cells + [Cell(parent.right, k.divider(p.cells[|p.cells| - 1].body))], pgnoNew)
    ensures Weight(k, store2[pgnoNew].cells) <= k.u
    ensures Family(store2, KidNos(parent2), Bodies(parent2.cells), h)
    ensures Below(store, InnerItems(parent), 1) && Below(store2, InnerItems(parent2), 1)
    ensures Walk(LeafEntries, store2, InnerItems(parent2), 1) == Walk(LeafEntries, store, InnerItems(parent), 1)
    ensures DrawnWalk(k, false, 0, store, parent, store2, parent2)
    ensures KeepsKey(k, key) && Searchable(false, store, InnerItems(parent), 1, key) ==> Searchable(false, store2, InnerItems(parent2), 1, key)
  {
    hide Separated, Drawn, Fetched, Walk, PageItems, Pages, Below, RowItems, Family, Change.Ok, KidNos, Bodies;
    var p := store[parent.right];
    var left, new1 := Page(p.cells, p.right, 0, []), Page(p.ovfl, 0, 0, []);
    var div := k.divider(p.cells[|p.cells| - 1].body);
    store2 := store[parent.right := left][pgnoNew := new1];
    parent2 := Inner(parent.cells + [Cell(parent.right, div)], pgnoNew);
    ghost var c := Change(false, 0, store, store2, KidNos(parent)[..|parent.cells|], [parent.right], [],
                          Bodies(parent.cells), [], [], [parent.right, pgnoNew], [div], [left, new1]);
    QuickChange(c, parent, parent2, div);
    ChangeFamily(c);
    ChangeWalk(c, LeafEntries);
    DrawnChange(c, k);
    if KeepsKey(k, key) && Searchable(false, store, InnerItems(parent), 1, key) { SearchableChange(c, k, key); }
    assert p.ovfl == [p.ovfl[0]];
    OneWeight(k, p.ovfl[0]);
  }

  lemma QuickChange(c: Change, parent: Inner, parent2: Inner, div: Body)
    requires !c.data && c.h == 0 && Family(c.store, KidNos(parent), Bodies(parent.cells), 0)
    requires parent.right in c.store && |c.s2| == 2 && c.s2[0] == parent.right && c.s2[1] !in c.store && c.s2[1] < NO_PAGE
    requires |c.store[parent.right].ovfl| == 1 && c.store[parent.right].at == |c.store[parent.right].cells|
    requires c.pages == [Page(c.store[parent.right].cells, c.store[parent.right].right, 0, []), Page(c.store[parent.right].ovfl, 0, 0, [])]
    requires c.store2 == c.store[parent.right := c.pages[0]][c.s2[1] := c.pages[1]]
    requires c.a == KidNos(parent)[..|parent.cells|] && c.s == [parent.right] && c.b == []
    requires c.da == Bodies(parent.cells) && c.ds == [] && c.db == [] && c.ds2 == [div]
    requires parent2 == Inner(parent.cells + [Cell(parent.right, div)], c.s2[1])
    ensures c.Ok() && c.Kids() == KidNos(parent) && c.Divs() == Bodies(parent.cells)
    ensures c.Kids2() == KidNos(parent2) && c.Divs2() == Bodies(parent2.cells)
  {
    hide RowItems, PageItems, Pages, Below, Family, Loaded, Restored, Tree;
    FamilyParts(c.store, parent, 0);
    assert c.Kids() == KidNos(parent);
    assert c.Divs() == Bodies(parent.cells);
    QuickPages(c.store[parent.right], c.pages[0], c.pages[1]);
    assert Fetched(c.store, c.s) == [c.store[parent.right]];
    assert [c.store[parent.right]][1..] == [];
    assert Joined(Fetched(c.store, c.s)) == Loaded(c.store[parent.right]) + [];
    assert Row(Fetched(c.store, c.s), c.ds) && Row(c.pages, c.ds2);
    QuickRestored(c);
  }

  lemma QuickRestored(c: Change)
    requires |c.s2| == 2 && |c.pages| == 2 && c.s == [c.s2[0]] && c.s2[0] in c.store && c.s2[1] !in c.store
    requires c.s2[0] < NO_PAGE && c.s2[1] < NO_PAGE
    requires c.store2 == c.store[c.s2[0] := c.pages[0]][c.s2[1] := c.pages[1]]
    ensures Restored(c.store, c.store2, c.s, c.s2, c.pages)
  {
    forall p | p in c.store2 ensures p in c.s2 || (p in c.store && p !in c.s) {
      if p != c.s2[0] && p != c.s2[1] { assert p in c.store; }
    }
  }

  lemma QuickPages<C>(p: Page<C>, q: Page<C>, r: Page<C>)
    requires p.at == |p.cells| && q.cells == p.cells && r.cells == p.ovfl
    requires q.at == 0 && r.at == 0 && q.ovfl == [] && r.ovfl == []
    ensures Joined([q, r]) == Loaded(p)
  {
    assert [q, r][1..] == [r] && [r][1..] == [];
    assert Loaded(q) == p.cells && Loaded(r) == p.ovfl;
    assert Joined([r]) == p.ovfl + [];
  }
}
