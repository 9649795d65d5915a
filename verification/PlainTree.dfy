/** Trees whose pages hold what they can: all but one without overflow cells, and all cells of bounded size. */
module PlainTree {
  import opened Siblings
  import opened Balance
  import opened Trees
  import opened Signposts
  import opened Parent
  import opened TreePlace

  /** data: cells of interior pages are entries; u: room on an interior page; divider: the interior cell for a table's entry. */
  datatype Config = Config(data: bool, u: nat, divider: Body -> Body) {
    function KindAt(g: nat): Kind { Kind(g == 0, g == 0 && !data, if g == 0 then u + 4 else u, divider) }
    ghost predicate Ok() { forall b: Body :: 4 * (6 + |divider(b)|) <= u }
  }

  // ---- sizes of cells ----

  /** Interior cells take a quarter of a page at most, and so do all cells of an index. */
  predicate FitMet(c: Config, x: Met) {
    match x
    case Data(b) => if c.data then 4 * (6 + |b|) <= c.u else W(c.KindAt(0), b) <= c.u + 4
    case Post(b) => 4 * (6 + |b|) <= c.u
  }

  ghost predicate FitAll(c: Config, s: seq<Met>) { forall x | x in s :: FitMet(c, x) }

  lemma DrawnFit(c: Config, g: nat, n: seq<Met>, s: seq<Met>)
    requires c.Ok() && FitAll(c, s) && Drawn(c.KindAt(g), n, s)
    ensures FitAll(c, n)
  {
    forall y | y in n ensures FitMet(c, y) {
      if y !in s { assert FromData(c.KindAt(g), s, y); }
    }
  }

  /** What a cell is when it is met. */
  function AsMet(c: Config, b: Body, h: nat): Met { if c.data || h == 0 then Data(b) else Post(b) }

  lemma MetFits(c: Config, b: Body, h: nat, g: nat)
    requires FitMet(c, AsMet(c, b, h)) && (h == g || (h == g + 1 && !c.KindAt(g).leafData))
    ensures Fit(c.KindAt(g), b)
  {
  }

  lemma {:induction false} EntryMet(c: Config, store: Store, items: seq<Item<nat>>, h: nat, b: Body)
    requires Below(store, items, h) && Entry(b) in items
    ensures AsMet(c, b, h) in Walk(SearchView(c.data), store, items, h)
    decreases |items|
  {
    hide Tree;
    if items[0] != Entry(b) { EntryMet(c, store, items[1..], h, b); }
  }

  lemma {:induction false} CellItem(leaf: bool, cs: seq<Cell<nat>>, x: Cell<nat>)
    requires x in cs
    ensures Entry(x.body) in CellItems(leaf, cs)
  {
    if cs[0] != x { CellItem(leaf, cs[1..], x); }
  }

  /** Cells of the children, and the dividers between them, are met below the parent. */
  lemma {:induction false} RowMet(c: Config, store: Store, pages: seq<Page<nat>>, divs: seq<Body>, h: nat, i: nat)
    requires Row(pages, divs) && (forall t | 0 <= t < |pages| :: Below(store, PageItems(h == 0, pages[t]), h)) && i < |pages|
    ensures forall x | x in Loaded(pages[i]) :: AsMet(c, x.body, h) in RowWalk(SearchView(c.data), store, pages, divs, h)
    ensures i < |divs| ==> AsMet(c, divs[i], h + 1) in RowWalk(SearchView(c.data), store, pages, divs, h)
    decreases i
  {
    hide PageItems, Walk, Loaded, Below;
    if i > 0 {
      RowMet(c, store, pages[1..], divs[1..], h, i - 1);
      assert pages[1..][i - 1] == pages[i];
    } else {
      forall x | x in Loaded(pages[0]) ensures AsMet(c, x.body, h) in Walk(SearchView(c.data), store, PageItems(h == 0, pages[0]), h) {
        LoadedItem(h == 0, pages[0], x);
        EntryMet(c, store, PageItems(h == 0, pages[0]), h, x.body);
      }
    }
  }

  lemma LoadedItem(leaf: bool, p: Page<nat>, x: Cell<nat>)
    requires p.Ok() && x in Loaded(p)
    ensures Entry(x.body) in PageItems(leaf, p)
  {
    hide CellItems, Loaded;
    CellItem(leaf, Loaded(p), x);
  }

  // ---- pages without overflow cells ----

  ghost predicate Holds(c: Config, p: Page<nat>, g: nat) { p.Ok() && Weight(c.KindAt(g), p.cells) <= c.KindAt(g).u }

  ghost predicate Plain(c: Config, store: Store, p: nat, g: nat) { p in store && store[p].ovfl == [] && Holds(c, store[p], g) }

  /** All pages below the items, but perhaps one, are plain. */
  ghost predicate PlainAll(c: Config, store: Store, items: seq<Item<nat>>, h: nat, but: nat)
    requires Below(store, items, h)
    decreases h, 0
  {
    h > 0 ==> forall x | x in items && x.Kid? :: PlainUnder(c, store, x.kid, h - 1, but)
  }

  ghost predicate PlainUnder(c: Config, store: Store, p: nat, g: nat, but: nat)
    requires Tree(store, p, g)
    decreases g, 1
  {
    (p == but || Plain(c, store, p, g)) && PlainAll(c, store, PageItems(g == 0, store[p]), g, but)
  }

  /** Pages that stay, away from the exception. */
  lemma {:induction false} PlainFrame(c: Config, store: Store, store2: Store, items: seq<Item<nat>>, h: nat, but: nat, but2: nat)
    requires Below(store, items, h) && SameOn(store, store2, Pages(store, items, h))
    requires PlainAll(c, store, items, h, but) && but !in Pages(store, items, h)
    ensures Below(store2, items, h) && PlainAll(c, store2, items, h, but2)
    decreases h
  {
    hide PageItems, Pages, Walk, Plain;
    WalkFrame(Entries, store, store2, items, h);
    if h > 0 {
      forall x | x in items && x.Kid? ensures Tree(store2, x.kid, h - 1) && PlainUnder(c, store2, x.kid, h - 1, but2) {
        KidPages(store, items, h, x.kid);
        WalkFrame(Entries, store, store2, PageItems(h == 1, store[x.kid]), h - 1);
        PlainFrame(c, store, store2, PageItems(h == 1, store[x.kid]), h - 1, but, but2);
        PlainSame(c, store, store2, x.kid, h - 1);
      }
    }
  }

  lemma PlainSame(c: Config, store: Store, store2: Store, p: nat, g: nat)
    requires Plain(c, store, p, g) && p in store2 && store2[p] == store[p]
    ensures Plain(c, store2, p, g)
  {
  }

  lemma KidPages(store: Store, items: seq<Item<nat>>, h: nat, p: nat)
    requires Below(store, items, h) && h > 0 && Kid(p) in items
    ensures Tree(store, p, h - 1) && p in Pages(store, items, h) && Lower(store, p, h - 1) <= Pages(store, items, h)
  {
    hide PageItems, Pages, Once;
    var i := PlaceOfKid(items, p);
    Part(store, items, h, i);
    OneKid(store, p, h - 1);
  }

  lemma {:induction false} PlainAt(c: Config, store: Store, items: seq<Item<nat>>, h: nat, path: seq<nat>, but: nat)
    requires Below(store, items, h) && PathTo(store, items, h, path) && PlainAll(c, store, items, h, but)
    ensures Tree(store, End(path), h - |path|) && PlainUnder(c, store, End(path), h - |path|, but)
    decreases |path|
  {
    hide PageItems, Plain;
    if |path| > 1 { PlainAt(c, store, PageItems(h == 1, store[path[0]]), h - 1, path[1..], but); }
  }

  /** Two places of the items share no page. */
  lemma OtherKid(store: Store, items: seq<Item<nat>>, h: nat, p: nat, x: nat)
    requires Below(store, items, h) && Once(store, items, h) && h > 0 && Kid(p) in items && Kid(x) in items && x != p
    ensures Tree(store, p, h - 1) && Tree(store, x, h - 1)
    ensures ({x} + Lower(store, x, h - 1)) !! ({p} + Lower(store, p, h - 1))
  {
    hide PageItems, Pages, Once;
    var i := PlaceOfKid(items, p);
    Part(store, items, h, i);
    OneKid(store, p, h - 1);
    var j := PlaceOfKid(items, x);
    if j < i {
      assert Kid(x) in items[..i] by { assert items[..i][j] == items[j]; }
      KidPages(store, items[..i], h, x);
    } else {
      assert Kid(x) in items[i + 1..] by { assert items[i + 1..][j - i - 1] == items[j]; }
      KidPages(store, items[i + 1..], h, x);
    }
  }

  /** The exception goes from within the changed part to wherever it is in the new one. */
  lemma {:induction false} PlainReplace(c: Config, store: Store, store2: Store, items: seq<Item<nat>>, h: nat, path: seq<nat>, but: nat, but2: nat)
    requires Below(store, items, h) && Below(store2, items, h) && Once(store, items, h) && PathTo(store, items, h, path)
    requires LocalChange(store, store2, End(path), h - |path|) && PlainAll(c, store, items, h, but)
    requires but == End(path) || but in Lower(store, End(path), h - |path|)
    requires PlainUnder(c, store2, End(path), h - |path|, but2)
    ensures PlainAll(c, store2, items, h, but2)
    decreases |path|, 1
  {
    hide PageItems, Pages, Plain, Once, Lower, LocalChange;
    PathKid(store, items, h, path);
    forall x | x in items && x.Kid? ensures Tree(store2, x.kid, h - 1) && PlainUnder(c, store2, x.kid, h - 1, but2) {
      if x.kid != path[0] {
        PlainAside(c, store, store2, items, h, path, but, but2, x.kid);
      } else if |path| > 1 {
        PlainOnWay(c, store, store2, items, h, path, but, but2);
      }
    }
  }

  lemma PathKid(store: Store, items: seq<Item<nat>>, h: nat, path: seq<nat>)
    requires Below(store, items, h) && PathTo(store, items, h, path)
    ensures 0 < |path| <= h && Kid(path[0]) in items && Tree(store, path[0], h - 1)
  {
  }

  lemma PlainAside(c: Config, store: Store, store2: Store, items: seq<Item<nat>>, h: nat, path: seq<nat>, but: nat, but2: nat, x: nat)
    requires Below(store, items, h) && Below(store2, items, h) && Once(store, items, h) && PathTo(store, items, h, path)
    requires LocalChange(store, store2, End(path), h - |path|) && PlainAll(c, store, items, h, but)
    requires but == End(path) || but in Lower(store, End(path), h - |path|)
    requires Kid(x) in items && x != path[0]
    ensures Tree(store2, x, h - 1) && PlainUnder(c, store2, x, h - 1, but2)
  {
    hide PageItems, Pages, Plain, Once, Walk;
    OtherKid(store, items, h, path[0], x);
    OneKid(store, path[0], h - 1);
    OneIn(store, items, h, path);
    PathIn(store, [Kid(path[0])], h, path);
    var below := PageItems(h == 1, store[x]);
    assert PlainUnder(c, store, x, h - 1, but);
    PlainFrame(c, store, store2, below, h - 1, but, but2);
    PlainSame(c, store, store2, x, h - 1);
  }

  lemma OneIn(store: Store, items: seq<Item<nat>>, h: nat, path: seq<nat>)
    requires Below(store, items, h) && PathTo(store, items, h, path)
    ensures Below(store, [Kid(path[0])], h) && PathTo(store, [Kid(path[0])], h, path)
  {
    hide Tree;
  }

  lemma PlainOnWay(c: Config, store: Store, store2: Store, items: seq<Item<nat>>, h: nat, path: seq<nat>, but: nat, but2: nat)
    requires Below(store, items, h) && Below(store2, items, h) && Once(store, items, h) && PathTo(store, items, h, path) && |path| > 1
    requires LocalChange(store, store2, End(path), h - |path|) && PlainAll(c, store, items, h, but)
    requires but == End(path) || but in Lower(store, End(path), h - |path|)
    requires PlainUnder(c, store2, End(path), h - |path|, but2)
    ensures Tree(store2, path[0], h - 1) && PlainUnder(c, store2, path[0], h - 1, but2)
    decreases |path|, 0
  {
    hide PageItems, Pages, Plain, Once, Walk;
    var p := path[0];
    var below := PageItems(h == 1, store[p]);
    KidOnce(store, items, h, p);
    assert End(path[1..]) == End(path);
    PathIn(store, below, h - 1, path[1..]);
    assert PlainUnder(c, store, p, h - 1, but);
    PlainSame(c, store, store2, p, h - 1);
    PlainReplace(c, store, store2, below, h - 1, path[1..], but, but2);
  }

  lemma KidOnce(store: Store, items: seq<Item<nat>>, h: nat, p: nat)
    requires Below(store, items, h) && Once(store, items, h) && h > 0 && Kid(p) in items
    ensures Tree(store, p, h - 1) && OnceBelow(store, p, h - 1)
  {
    hide PageItems, Pages, Once;
    var i := PlaceOfKid(items, p);
    Part(store, items, h, i);
    OneKid(store, p, h - 1);
  }
}
