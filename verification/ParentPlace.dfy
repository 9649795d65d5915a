/** A parent in its tree: a rebalancing of its children changes nothing but what is below it. */
module ParentPlace {
  import opened Siblings
  import opened PageNumbers
  import opened Trees
  import opened Families
  import opened Parent
  import opened TreePlace

  /** An interior page without overflow cells, as a parent. */
  function Opened(p: Page<nat>): Inner { Inner(p.cells, p.right) }

  lemma OpenedItems(p: Page<nat>)
    requires p.Ok() && p.ovfl == []
    ensures PageItems(false, p) == InnerItems(Opened(p)) && Loaded(p) == p.cells
  {
    assert Loaded(p) == p.cells;
    InnerItemsCells(Opened(p));
  }

  lemma {:induction false} OnceLeaf(store: Store, items: seq<Item<nat>>)
    ensures Below(store, items, 0) && Once(store, items, 0) && Pages(store, items, 0) == {}
    decreases |items|
  {
    if items != [] { OnceLeaf(store, items[1..]); }
  }

  /** Where no page is met twice, the children are a family. */
  lemma IsFamily(store: Store, q: nat, g: nat)
    requires g > 0 && Tree(store, q, g) && OnceBelow(store, q, g) && store[q].ovfl == [] && forall p | p in store :: p < NO_PAGE
    ensures var p := Opened(store[q]); Family(store, KidNos(p), Bodies(p.cells), g - 1) && q !in KidNos(p)
  {
    hide PageItems, Pages, Once, RowItems, KidItems;
    var p := Opened(store[q]);
    OpenedItems(store[q]);
    KidsBelow(store, KidNos(p), Bodies(p.cells), g - 1);
    OnceKids(store, KidNos(p), Bodies(p.cells), g - 1);
    KidsPages(store, KidNos(p), Bodies(p.cells), g - 1);
    RowOnce(store, KidNos(p), Bodies(p.cells), g - 1);
  }

  /** What is below the children is below them still. */
  ghost predicate LowerKept(store: Store, kids: seq<nat>, store2: Store, kids2: seq<nat>, h: nat)
    requires Rooted(store, kids, h) && Rooted(store2, kids2, h)
  {
    LowerPages(store2, kids2, h) == LowerPages(store, kids, h) && OnceLower(store2, kids2, h)
  }

  lemma LowerStays(store: Store, parent: Inner, store2: Store, parent2: Inner, h: nat, added: seq<nat>)
    requires Family(store, KidNos(parent), Bodies(parent.cells), h) && Family(store2, KidNos(parent2), Bodies(parent2.cells), h)
    requires OnceLower(store, KidNos(parent), h) && Reworked(store, KidNos(parent), store2, KidNos(parent2), added)
    requires h > 0 ==> SameRow(false, store, parent, store2, parent2)
    ensures LowerKept(store, KidNos(parent), store2, KidNos(parent2), h)
  {
    hide PageItems, Pages, Once, RowItems, KidItems, Row, Bodies, KidNos, Distinct;
    var kids, kids2 := KidNos(parent), KidNos(parent2);
    RowOnce(store, kids, Bodies(parent.cells), h);
    RowOnce(store2, kids2, Bodies(parent2.cells), h);
    var r := RowItems(h == 0, Fetched(store, kids), Bodies(parent.cells));
    var r2 := RowItems(h == 0, Fetched(store2, kids2), Bodies(parent2.cells));
    if h == 0 {
      OnceLeaf(store, r);
      OnceLeaf(store2, r2);
    } else {
      RowSame(store, r, store2, h, kids, kids2, added);
    }
  }

  lemma RowSame(store: Store, r: seq<Item<nat>>, store2: Store, h: nat, kids: seq<nat>, kids2: seq<nat>, added: seq<nat>)
    requires Below(store, r, h) && Once(store, r, h) && SetOf(kids) !! Pages(store, r, h) && Reworked(store, kids, store2, kids2, added)
    ensures Below(store2, r, h) && Pages(store2, r, h) == Pages(store, r, h) && Once(store2, r, h)
  {
    hide Pages, Once, Below;
    forall p | p in Pages(store, r, h) && p in store ensures p in store2 && store2[p] == store[p] { assert p !in SetOf(kids); }
    WalkFrame(Entries, store, store2, r, h);
    OnceFrame(store, store2, r, h);
  }

  /** What is below the parent, before and after. */
  lemma NewBelow(store: Store, q: nat, g: nat, store2: Store, parent2: Inner, added: seq<nat>)
    requires g > 0 && Tree(store, q, g) && OnceBelow(store, q, g) && store[q].ovfl == [] && forall p | p in store :: p < NO_PAGE
    requires var kids := KidNos(Opened(store[q])); Reworked(store, kids, store2, KidNos(parent2), added)
    requires Family(store2, KidNos(parent2), Bodies(parent2.cells), g - 1)
    requires g > 1 ==> SameRow(false, store, Opened(store[q]), store2, parent2)
    ensures Below(store2, InnerItems(parent2), g) && Once(store2, InnerItems(parent2), g) && q !in Pages(store2, InnerItems(parent2), g)
    ensures forall p | p in Pages(store2, InnerItems(parent2), g) :: p in Lower(store, q, g) || p !in store
    ensures forall p | p in KidNos(Opened(store[q])) :: p in Lower(store, q, g)
  {
    hide PageItems, Pages, Once, RowItems, KidItems, Row, Bodies, KidNos, Distinct, Walk, RowWalk, SameRow;
    var parent := Opened(store[q]);
    var kids, kids2, h := KidNos(parent), KidNos(parent2), g - 1;
    var divs, divs2 := Bodies(parent.cells), Bodies(parent2.cells);
    IsFamily(store, q, g);
    OpenedItems(store[q]);
    OnceKids(store, kids, divs, h);
    KidsPages(store, kids, divs, h);
    LowerStays(store, parent, store2, parent2, h, added);
    OnceKids(store2, kids2, divs2, h);
    KidsPages(store2, kids2, divs2, h);
    RowOnce(store2, kids2, divs2, h);
    NotBelow(store, q, kids, kids2, LowerPages(store, kids, h), store2, added);
  }

  /** The rebalanced parent back in its place. */
  lemma BackInPlace(store: Store, q: nat, g: nat, store2: Store, parent2: Inner, p2: Page<nat>, added: seq<nat>)
    requires g > 0 && Tree(store, q, g) && OnceBelow(store, q, g) && store[q].ovfl == [] && forall p | p in store :: p < NO_PAGE
    requires var kids := KidNos(Opened(store[q])); Reworked(store, kids, store2, KidNos(parent2), added)
    requires Family(store2, KidNos(parent2), Bodies(parent2.cells), g - 1)
    requires g > 1 ==> SameRow(false, store, Opened(store[q]), store2, parent2)
    requires p2.Ok() && PageItems(false, p2) == InnerItems(parent2)
    ensures LocalChange(store, store2[q := p2], q, g)
    ensures Below(store2, InnerItems(parent2), g)
    ensures forall v :: Walk(v, store2[q := p2], PageItems(false, p2), g) == Walk(v, store2, InnerItems(parent2), g)
  {
    hide PageItems, Pages, Once, RowItems, KidItems, Row, Bodies, KidNos, Distinct, Walk, RowWalk, SameRow, Family, InnerItems;
    NewBelow(store, q, g, store2, parent2, added);
    var store3, items2 := store2[q := p2], InnerItems(parent2);
    assert SameOn(store2, store3, Pages(store2, items2, g));
    OnceFrame(store2, store3, items2, g);
    forall v ensures Walk(v, store3, PageItems(false, p2), g) == Walk(v, store2, items2, g) { WalkFrame(v, store2, store3, items2, g); }
    WalkFrame(Entries, store2, store3, items2, g);
  }

  lemma NotBelow(store: Store, q: nat, kids: seq<nat>, kids2: seq<nat>, lower: set<nat>, store2: Store, added: seq<nat>)
    requires q in store && q !in SetOf(kids) + lower && Reworked(store, kids, store2, kids2, added)
    ensures q !in SetOf(kids2) + lower
    ensures forall p | p in SetOf(kids2) + lower :: p in SetOf(kids) + lower || p !in store
    ensures forall p | p in kids :: p in SetOf(kids) + lower
  {
  }
}
