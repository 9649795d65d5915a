/** Subtrees of equal height in a store of pages, and the entries met when they are walked through. */
module Trees {
  import opened Siblings
  import opened Rows

  type Store = map<nat, Page<nat>>

  /** A subtree of height h hangs below page p: all its leaves are h levels down. */
  ghost predicate Tree(store: Store, p: nat, h: nat)
    decreases h
  {
    p in store && store[p].Ok() && Below(store, PageItems(h == 0, store[p]), h)
  }

  /** The children met among the items are roots of subtrees of height h - 1. */
  ghost predicate Below(store: Store, items: seq<Item<nat>>, h: nat)
    decreases h, 0
  {
    h > 0 ==> forall x | x in items :: x.Kid? ==> Tree(store, x.kid, h - 1)
  }

  /** The pages met below the items. */
  ghost function Pages(store: Store, items: seq<Item<nat>>, h: nat): set<nat>
    requires Below(store, items, h)
    decreases h, |items|
  {
    if items == [] then {} else PagesUnder(store, items[0], h) + Pages(store, items[1..], h)
  }

  ghost function PagesUnder(store: Store, x: Item<nat>, h: nat): set<nat>
    requires x.Kid? && h > 0 ==> Tree(store, x.kid, h - 1)
    decreases h, 0
  {
    if x.Kid? && h > 0 then {x.kid} + Pages(store, PageItems(h == 1, store[x.kid]), h - 1) else {}
  }

  /** What counts as an entry: every cell (an index), those of leaves (a table), or these with the other cells as signposts. */
  datatype View = Entries | LeafEntries | WithPosts

  datatype Met = Data(body: Body) | Post(body: Body)

  /** A cell h levels above the leaves. */
  function Seen(v: View, b: Body, h: nat): seq<Met> {
    match v
    case Entries => [Data(b)]
    case LeafEntries => if h == 0 then [Data(b)] else []
    case WithPosts => [if h == 0 then Data(b) else Post(b)]
  }

  /** What is met, from left to right. */
  ghost function Walk(v: View, store: Store, items: seq<Item<nat>>, h: nat): seq<Met>
    requires Below(store, items, h)
    decreases h, |items|
  {
    if items == [] then [] else WalkItem(v, store, items[0], h) + Walk(v, store, items[1..], h)
  }

  ghost function WalkItem(v: View, store: Store, x: Item<nat>, h: nat): seq<Met>
    requires x.Kid? && h > 0 ==> Tree(store, x.kid, h - 1)
    decreases h, 0
  {
    match x
    case Kid(p) => if h == 0 then [] else Walk(v, store, PageItems(h == 1, store[p]), h - 1)
    case Entry(b) => Seen(v, b, h)
  }

  lemma {:induction false} WalkConcat(v: View, store: Store, a: seq<Item<nat>>, b: seq<Item<nat>>, h: nat)
    requires Below(store, a, h) && Below(store, b, h)
    ensures Below(store, a + b, h) && Walk(v, store, a + b, h) == Walk(v, store, a, h) + Walk(v, store, b, h)
    decreases |a|
  {
    hide WalkItem, Tree;
    if a == [] {
      assert a + b == b;
    } else {
      WalkConcat(v, store, a[1..], b, h);
      assert a + b == [a[0]] + (a[1..] + b);
      assert (a + b)[1..] == a[1..] + b;
    }
  }

  ghost predicate SameOn(store: Store, store2: Store, pages: set<nat>) {
    forall p | p in pages && p in store :: p in store2 && store2[p] == store[p]
  }

  /** Stores that agree on the pages below the items have the same walk. */
  lemma {:induction false} WalkFrame(v: View, store: Store, store2: Store, items: seq<Item<nat>>, h: nat)
    requires Below(store, items, h) && SameOn(store, store2, Pages(store, items, h))
    ensures Below(store2, items, h) && Walk(v, store2, items, h) == Walk(v, store, items, h)
    ensures Pages(store2, items, h) == Pages(store, items, h)
    decreases h, |items|
  {
    hide PageItems, Tree, PagesUnder, WalkItem;
    if items != [] {
      assert items == [items[0]] + items[1..];
      WalkFrame(v, store, store2, items[1..], h);
      WalkFrameItem(v, store, store2, items[0], h);
    }
  }

  lemma {:induction false} WalkFrameItem(v: View, store: Store, store2: Store, x: Item<nat>, h: nat)
    requires x.Kid? && h > 0 ==> Tree(store, x.kid, h - 1)
    requires SameOn(store, store2, PagesUnder(store, x, h))
    ensures x.Kid? && h > 0 ==> Tree(store2, x.kid, h - 1)
    ensures WalkItem(v, store2, x, h) == WalkItem(v, store, x, h) && PagesUnder(store2, x, h) == PagesUnder(store, x, h)
    decreases h, 0
  {
    hide PageItems, Walk, Pages, Below;
    if x.Kid? && h > 0 {
      assert x.kid in PagesUnder(store, x, h);
      WalkFrame(v, store, store2, PageItems(h == 1, store[x.kid]), h - 1);
    }
  }

  /** The walk through a row of pages. */
  ghost function RowWalk(v: View, store: Store, pages: seq<Page<nat>>, divs: seq<Body>, h: nat): seq<Met>
    requires Row(pages, divs) && forall i | 0 <= i < |pages| :: Below(store, PageItems(h == 0, pages[i]), h)
    decreases |pages|
  {
    Walk(v, store, PageItems(h == 0, pages[0]), h)
    + if |pages| == 1 then [] else Seen(v, divs[0], h + 1) + RowWalk(v, store, pages[1..], divs[1..], h)
  }

  lemma {:induction false} RowWalkItems(v: View, store: Store, pages: seq<Page<nat>>, divs: seq<Body>, h: nat)
    requires Row(pages, divs) && forall i | 0 <= i < |pages| :: Below(store, PageItems(h == 0, pages[i]), h)
    requires v == Entries || h > 0
    ensures Below(store, RowItems(h == 0, pages, divs), h)
    ensures Walk(v, store, RowItems(h == 0, pages, divs), h) == RowWalk(v, store, pages, divs, h)
    decreases |pages|
  {
    hide PageItems, Below, Walk, RowItems;
    if |pages| == 1 {
      RowOne(h == 0, pages, divs);
    } else {
      RowTwo(h == 0, pages, divs);
      RowWalkItems(v, store, pages[1..], divs[1..], h);
      WalkEntry(v, store, divs[0], h);
      WalkConcat(v, store, PageItems(h == 0, pages[0]), [Entry(divs[0])], h);
      WalkConcat(v, store, PageItems(h == 0, pages[0]) + [Entry(divs[0])], RowItems(h == 0, pages[1..], divs[1..]), h);
    }
  }

  lemma WalkEntry(v: View, store: Store, b: Body, h: nat)
    ensures Below(store, [Entry(b)], h) && Walk(v, store, [Entry(b)], h) == Seen(v, b, h)
  {
    var x: Item<nat> := Entry(b);
    assert [x][1..] == [];
    assert Walk(v, store, [], h) == [];
  }

  ghost function Datas(cs: seq<Cell<nat>>): (r: seq<Met>)
    ensures |r| == |cs| && forall i | 0 <= i < |cs| :: r[i] == Data(cs[i].body)
  {
    seq(|cs|, i requires 0 <= i < |cs| => Data(cs[i].body))
  }

  lemma {:induction false} WalkCells(v: View, store: Store, cs: seq<Cell<nat>>)
    ensures Below(store, CellItems(true, cs), 0) && Walk(v, store, CellItems(true, cs), 0) == Datas(cs)
    decreases |cs|
  {
    if cs != [] {
      WalkCells(v, store, cs[1..]);
      var x: Item<nat> := Entry(cs[0].body);
      assert CellItems(true, cs) == [x] + CellItems(true, cs[1..]);
      assert ([x] + CellItems(true, cs[1..]))[1..] == CellItems(true, cs[1..]);
      assert Datas(cs) == [Data(cs[0].body)] + Datas(cs[1..]);
    }
  }

  /** Where the leaves hold all the data, the walk through a row of leaves is the cells of the leaves. */
  lemma {:induction false} RowWalkLeaves(store: Store, pages: seq<Page<nat>>, divs: seq<Body>)
    requires Row(pages, divs)
    ensures forall i | 0 <= i < |pages| :: Below(store, PageItems(true, pages[i]), 0)
    ensures RowWalk(LeafEntries, store, pages, divs, 0) == Datas(Joined(pages))
    decreases |pages|
  {
    hide CellItems, Walk, Loaded;
    WalkCells(LeafEntries, store, Loaded(pages[0]));
    assert PageItems(true, pages[0]) == CellItems(true, Loaded(pages[0]));
    if |pages| > 1 {
      RowWalkLeaves(store, pages[1..], divs[1..]);
      assert Datas(Loaded(pages[0]) + Joined(pages[1..])) == Datas(Loaded(pages[0])) + Datas(Joined(pages[1..]));
    } else {
      assert pages[1..] == [];
      assert Joined(pages[1..]) == [];
      assert Loaded(pages[0]) + [] == Loaded(pages[0]);
    }
  }

  lemma {:induction false} PagesInStore(store: Store, items: seq<Item<nat>>, h: nat)
    requires Below(store, items, h)
    ensures forall p | p in Pages(store, items, h) :: p in store
    ensures h == 0 ==> Pages(store, items, h) == {}
    decreases h, |items|
  {
    hide PageItems;
    if items != [] {
      PagesInStore(store, items[1..], h);
      var x := items[0];
      assert x in items;
      if h > 0 && x.Kid? {
        assert Tree(store, x.kid, h - 1);
        PagesInStore(store, PageItems(h == 1, store[x.kid]), h - 1);
      }
    }
  }

  // ---- the children of a parent as a row ----

  /** What is met on an interior page. */
  ghost function KidItems(kids: seq<nat>, divs: seq<Body>): (r: seq<Item<nat>>)
    requires |kids| == |divs| + 1
    decreases |kids|
  {
    if |kids| == 1 then [Kid(kids[0])] else [Kid(kids[0]), Entry(divs[0])] + KidItems(kids[1..], divs[1..])
  }

  ghost predicate Rooted(store: Store, kids: seq<nat>, h: nat) {
    forall i | 0 <= i < |kids| :: Tree(store, kids[i], h)
  }

  ghost function Fetched(store: Store, kids: seq<nat>): (r: seq<Page<nat>>)
    requires forall i | 0 <= i < |kids| :: kids[i] in store
    ensures |r| == |kids| && forall i | 0 <= i < |r| :: r[i] == store[kids[i]]
  {
    seq(|kids|, i requires 0 <= i < |kids| => store[kids[i]])
  }

  lemma FetchedRow(store: Store, kids: seq<nat>, divs: seq<Body>, h: nat)
    requires |kids| == |divs| + 1 && Rooted(store, kids, h)
    ensures forall i | 0 <= i < |kids| :: kids[i] in store
    ensures Row(Fetched(store, kids), divs)
    ensures forall i | 0 <= i < |kids| :: Below(store, PageItems(h == 0, Fetched(store, kids)[i]), h)
  {
    hide Below, PageItems;
    forall i | 0 <= i < |kids| ensures kids[i] in store && store[kids[i]].Ok() && Below(store, PageItems(h == 0, store[kids[i]]), h) {
      assert Tree(store, kids[i], h);
    }
  }

  /** The walk below an interior page is the walk through the row of its children. */
  lemma {:induction false} KidsWalk(v: View, store: Store, kids: seq<nat>, divs: seq<Body>, h: nat)
    requires |kids| == |divs| + 1 && Rooted(store, kids, h)
    ensures forall i | 0 <= i < |kids| :: kids[i] in store
    ensures Row(Fetched(store, kids), divs)
    ensures forall i | 0 <= i < |kids| :: Below(store, PageItems(h == 0, Fetched(store, kids)[i]), h)
    ensures Below(store, KidItems(kids, divs), h + 1)
    ensures Walk(v, store, KidItems(kids, divs), h + 1) == RowWalk(v, store, Fetched(store, kids), divs, h)
    decreases |kids|
  {
    hide Row, PageItems, Tree, Below;
    FetchedRow(store, kids, divs, h);
    KidWalk(v, store, kids[0], h);
    if |kids| > 1 {
      KidsWalk(v, store, kids[1..], divs[1..], h);
      assert Fetched(store, kids)[1..] == Fetched(store, kids[1..]);
      WalkEntry(v, store, divs[0], h + 1);
      WalkConcat(v, store, [Kid(kids[0])], [Entry(divs[0])], h + 1);
      WalkConcat(v, store, [Kid(kids[0])] + [Entry(divs[0])], KidItems(kids[1..], divs[1..]), h + 1);
      assert KidItems(kids, divs) == [Kid(kids[0])] + [Entry(divs[0])] + KidItems(kids[1..], divs[1..]);
    } else {
      assert KidItems(kids, divs) == [Kid(kids[0])];
    }
  }

  lemma KidWalk(v: View, store: Store, p: nat, h: nat)
    requires Tree(store, p, h)
    ensures Below(store, [Kid(p)], h + 1)
    ensures Walk(v, store, [Kid(p)], h + 1) == Walk(v, store, PageItems(h == 0, store[p]), h)
  {
    hide PageItems;
    var x: Item<nat> := Kid(p);
    assert [x][1..] == [];
    assert Walk(v, store, [], h + 1) == [];
  }

  lemma {:induction false} KidsBelow(store: Store, kids: seq<nat>, divs: seq<Body>, h: nat)
    requires |kids| == |divs| + 1 && Below(store, KidItems(kids, divs), h + 1)
    ensures Rooted(store, kids, h)
    decreases |kids|
  {
    hide Tree;
    var items := KidItems(kids, divs);
    assert items[0] in items;
    if |kids| > 1 {
      assert forall x | x in KidItems(kids[1..], divs[1..]) :: x in items;
      KidsBelow(store, kids[1..], divs[1..], h);
      forall i | 0 <= i < |kids| ensures Tree(store, kids[i], h) { if i > 0 { assert kids[1..][i - 1] == kids[i]; } }
    }
  }
}
