/** balance(): from a page up to the root, until no page overflows. */
module TreeBalance {
  import opened Results
  import Pack
  import opened Siblings
  import opened Balance
  import opened PageNumbers
  import opened Trees
  import opened Families
  import opened Signposts
  import opened Parent
  import opened RootBalance
  import opened TreePlace
  import opened ParentPlace
  import opened PlainTree
  import opened ParentReady

  // ---- the tree from its root ----

  ghost function Whole(v: View, store: Store, root: nat, hr: nat): seq<Met>
    requires Below(store, [Kid(root)], hr + 1)
  {
    Walk(v, store, [Kid(root)], hr + 1)
  }

  /** A tree below page root, hr levels above its leaves, that is plain but for the last page of the path. */
  ghost predicate State(c: Config, store: Store, root: nat, hr: nat, path: seq<nat>) {
    && c.Ok() && 0 < |path| <= hr + 1 && path[0] == root && (forall p | p in store :: p < NO_PAGE)
    && Below(store, [Kid(root)], hr + 1) && Once(store, [Kid(root)], hr + 1) && PathTo(store, [Kid(root)], hr + 1, path)
    && PlainAll(c, store, [Kid(root)], hr + 1, End(path)) && FitAll(c, Whole(SearchView(c.data), store, root, hr))
    && End(path) in store && Holds(c, store[End(path)], hr + 1 - |path|) && |store[End(path)].ovfl| <= OvflLimit(c, hr + 1 - |path|)
  }

  /** The entries of the tree are the same, and if it could be searched it still can. */
  ghost predicate SameTree(c: Config, key: Body -> int, store: Store, hr: nat, store2: Store, hr2: nat, root: nat) {
    && Below(store, [Kid(root)], hr + 1) && Below(store2, [Kid(root)], hr2 + 1)
    && Whole(OwnView(c.data), store2, root, hr2) == Whole(OwnView(c.data), store, root, hr)
    && (KeepsKey(c.KindAt(0), key) && Separated(Whole(SearchView(c.data), store, root, hr), key)
        ==> Separated(Whole(SearchView(c.data), store2, root, hr2), key))
  }

  lemma SameTreeTrans(c: Config, key: Body -> int, s0: Store, h0: nat, s1: Store, h1: nat, s2: Store, h2: nat, root: nat)
    requires SameTree(c, key, s0, h0, s1, h1, root) && SameTree(c, key, s1, h1, s2, h2, root)
    ensures SameTree(c, key, s0, h0, s2, h2, root)
  {
  }

  // ---- one level up ----

  function Up(path: seq<nat>): seq<nat>
    requires path != []
  {
    path[..|path| - 1]
  }

  lemma {:induction false} PathUp(store: Store, items: seq<Item<nat>>, h: nat, path: seq<nat>)
    requires Below(store, items, h) && PathTo(store, items, h, path) && |path| > 1
    ensures PathTo(store, items, h, Up(path)) && Tree(store, End(Up(path)), h - |path| + 1) && h - |path| + 1 > 0
    ensures Kid(End(path)) in PageItems(false, store[End(Up(path))])
    decreases |path|
  {
    hide PageItems;
    if |path| > 2 {
      PathUp(store, PageItems(h == 1, store[path[0]]), h - 1, path[1..]);
      assert Up(path)[1..] == Up(path[1..]) && End(Up(path)) == End(Up(path[1..])) && End(path) == End(path[1..]);
    } else {
      assert Up(path) == [path[0]] && path[1..] == [path[1]];
    }
  }

  lemma {:induction false} OnceAt(store: Store, items: seq<Item<nat>>, h: nat, path: seq<nat>)
    requires Below(store, items, h) && Once(store, items, h) && PathTo(store, items, h, path)
    ensures Tree(store, End(path), h - |path|) && OnceBelow(store, End(path), h - |path|)
    decreases |path|
  {
    hide PageItems, Once, Pages;
    KidOnce(store, items, h, path[0]);
    if |path| > 1 { OnceAt(store, PageItems(h == 1, store[path[0]]), h - 1, path[1..]); }
  }

  /** The way to the changed page is the same as before. */
  lemma {:induction false} PathStays(store: Store, store2: Store, items: seq<Item<nat>>, h: nat, path: seq<nat>)
    requires Below(store, items, h) && Below(store2, items, h) && Once(store, items, h) && PathTo(store, items, h, path)
    requires LocalChange(store, store2, End(path), h - |path|)
    ensures PathTo(store2, items, h, path)
    decreases |path|
  {
    hide PageItems, Once, Pages;
    KidOnce(store, items, h, path[0]);
    var x: Item<nat> := Kid(path[0]);
    assert x in items && Tree(store2, path[0], h - 1);
    if |path| > 1 {
      var below := PageItems(h == 1, store[path[0]]);
      assert End(path[1..]) == End(path);
      PathIn(store, below, h - 1, path[1..]);
      assert store2[path[0]] == store[path[0]];
      PathStays(store, store2, below, h - 1, path[1..]);
    }
  }

  lemma SelfChange(store: Store, q: nat, g: nat)
    requires Tree(store, q, g) && OnceBelow(store, q, g)
    ensures LocalChange(store, store, q, g)
  {
    hide Tree, OnceBelow, Lower;
  }

  ghost predicate IsKid(store: Store, q: nat, g: nat, cur: nat) {
    q in store && cur in KidNos(Opened(store[q])) && Tree(store, q, g) && cur in Lower(store, q, g)
  }

  ghost predicate Parented(c: Config, store: Store, root: nat, hr: nat, path: seq<nat>) {
    && 1 < |path| <= hr + 1 && Below(store, [Kid(root)], hr + 1) && PathTo(store, [Kid(root)], hr + 1, Up(path))
    && Ready(c, store, End(Up(path)), hr + 2 - |path|, End(path)) && IsKid(store, End(Up(path)), hr + 2 - |path|, End(path))
  }

  /** The parent of the page at the end of the path. */
  lemma IsReady(c: Config, store: Store, root: nat, hr: nat, path: seq<nat>)
    requires State(c, store, root, hr, path) && |path| > 1
    ensures Parented(c, store, root, hr, path)
  {
    hide PageItems, Once, Pages, Walk, Plain, Below, Separated, KidItems, FitMet, Weight;
    var items, h := [Kid(root)], hr + 1;
    var q, g, cur := End(Up(path)), hr + 2 - |path|, End(path);
    PathUp(store, items, h, path);
    OnceAt(store, items, h, Up(path));
    PlainAt(c, store, items, h, Up(path), cur);
    KidPages(store, PageItems(false, store[q]), g, cur);
    SelfChange(store, q, g);
    var f, b := Replace(SearchView(c.data), store, store, items, h, Up(path));
    PartFits(c, f, Met0(SearchView(c.data), store, q, g), b);
    assert q != cur;
    PlainIs(c, store, q, g);
    OpenedItems(store[q]);
    var i := KidOf(KidNos(Opened(store[q])), Bodies(Opened(store[q]).cells), cur);
  }

  lemma PartFits(c: Config, f: seq<Met>, s: seq<Met>, b: seq<Met>)
    requires FitAll(c, f + (s + b))
    ensures FitAll(c, s) && FitAll(c, f) && FitAll(c, b)
  {
    forall x | x in s ensures FitMet(c, x) { assert x in f + (s + b); }
    forall x | x in f ensures FitMet(c, x) { assert x in f + (s + b); }
    forall x | x in b ensures FitMet(c, x) { assert x in f + (s + b); }
  }

  lemma WholeFits(c: Config, f: seq<Met>, s: seq<Met>, b: seq<Met>)
    requires FitAll(c, f) && FitAll(c, s) && FitAll(c, b)
    ensures FitAll(c, f + (s + b))
  {
    hide FitMet;
  }

  /** What balance_nonroot and balance_quick make of a parent and its children. */
  ghost predicate Rebalance(c: Config, key: Body -> int, g: nat, store: Store, parent: Inner, store2: Store, parent2: Inner, added: seq<nat>)
    requires g > 0
  {
    && Family(store2, KidNos(parent2), Bodies(parent2.cells), g - 1) && ChildrenFit(c.KindAt(g - 1), store2, parent2)
    && SameWalk(OwnView(c.data), g - 1, store, parent, store2, parent2)
    && DrawnWalk(c.KindAt(g - 1), c.data, g - 1, store, parent, store2, parent2)
    && Reworked(store, KidNos(parent), store2, KidNos(parent2), added)
    && (g > 1 ==> SameRow(false, store, parent, store2, parent2))
    && (KeepsKey(c.KindAt(g - 1), key) && Searchable(c.data, store, InnerItems(parent), g, key)
        ==> Searchable(c.data, store2, InnerItems(parent2), g, key))
  }

  ghost predicate FitsAs(c: Config, p2: Page<nat>, g: nat, parent2: Inner) {
    p2.Ok() && PageItems(false, p2) == InnerItems(parent2) && Holds(c, p2, g) && |p2.ovfl| <= 4
  }

  /** The whole tree after it, the parent back in its place. */
  lemma StepUp(c: Config, key: Body -> int, store: Store, root: nat, hr: nat, path: seq<nat>, store2: Store, parent2: Inner, p2: Page<nat>,
               added: seq<nat>)
    requires State(c, store, root, hr, path) && |path| > 1
    requires Unused(store, added)
    requires var q, g := End(Up(path)), hr + 2 - |path|;
      q in store && Rebalance(c, key, g, store, Opened(store[q]), store2, parent2, added) && FitsAs(c, p2, g, parent2)
    ensures var store3 := store2[End(Up(path)) := p2];
      State(c, store3, root, hr, Up(path)) && SameTree(c, key, store, hr, store3, hr, root)
      && LocalChange(store, store3, End(Up(path)), hr + 2 - |path|)
  {
    hide PageItems, Once, Pages, Walk, Plain, Below, Separated, KidItems, FitMet, Weight, Family, SameRow, RowItems, Drawn, LocalChange, PlainAll, PlainUnder, Lower, KeepsKey, KidNos, Ready;
    var q, g, items, h := End(Up(path)), hr + 2 - |path|, [Kid(root)], hr + 1;
    var store3 := store2[q := p2];
    IsReady(c, store, root, hr, path);
    ReadyParts(c, store, q, g, End(path));
    BackInPlace(store, q, g, store2, parent2, p2, added);
    NewPlain(c, store, q, g, End(path), store2, parent2, p2, added);
    var f, b := Replace(SearchView(c.data), store, store3, items, h, Up(path));
    var f2, b2 := Replace(OwnView(c.data), store, store3, items, h, Up(path));
    PathStays(store, store3, items, h, Up(path));
    PlainReplace(c, store, store3, items, h, Up(path), End(path), q);
    NumbersOk(store, store2, q, store3, KidNos(Opened(store[q])), KidNos(parent2), added);
    ChangedTree(store, store3, q, g);
    OpenedItems(store[q]);
    SameMeets(c, key, store, q, g, store2, parent2, p2, f, b, added);
  }

  lemma ReadyParts(c: Config, store: Store, q: nat, g: nat, cur: nat)
    requires Ready(c, store, q, g, cur)
    ensures g > 0 && Tree(store, q, g) && OnceBelow(store, q, g) && q in store && store[q].ovfl == [] && store[q].Ok()
    ensures FitAll(c, Met0(SearchView(c.data), store, q, g)) && Weight(c.KindAt(g), store[q].cells) <= c.KindAt(g).u
  {
  }

  lemma ChangedTree(store: Store, store3: Store, q: nat, g: nat)
    requires LocalChange(store, store3, q, g)
    ensures Tree(store, q, g) && Tree(store3, q, g)
  {
  }

  lemma NumbersOk(store: Store, store2: Store, q: nat, store3: Store, kids: seq<nat>, kids2: seq<nat>, added: seq<nat>)
    requires (forall p | p in store :: p < NO_PAGE) && Unused(store, added) && Reworked(store, kids, store2, kids2, added) && q in store
    requires store3.Keys == store2.Keys + {q}
    ensures forall p | p in store3 :: p < NO_PAGE
  {
  }

  /** What is met in the whole tree: all fits, and what was in order still is. */
  lemma SameMeets(c: Config, key: Body -> int, store: Store, q: nat, g: nat, store2: Store, parent2: Inner, p2: Page<nat>,
                  f: seq<Met>, b: seq<Met>, added: seq<nat>)
    requires c.Ok() && g > 0 && Tree(store, q, g) && store[q].ovfl == [] && PageItems(false, store[q]) == InnerItems(Opened(store[q]))
    requires Rebalance(c, key, g, store, Opened(store[q]), store2, parent2, added) && Tree(store2[q := p2], q, g)
    requires PageItems(false, p2) == InnerItems(parent2) && p2.Ok()
    requires forall v :: Walk(v, store2[q := p2], PageItems(false, p2), g) == Walk(v, store2, InnerItems(parent2), g)
    requires FitAll(c, f + (Met0(SearchView(c.data), store, q, g) + b))
    ensures Met0(OwnView(c.data), store2[q := p2], q, g) == Met0(OwnView(c.data), store, q, g)
    ensures FitAll(c, f + (Met0(SearchView(c.data), store2[q := p2], q, g) + b))
    ensures KeepsKey(c.KindAt(0), key) && Separated(f + (Met0(SearchView(c.data), store, q, g) + b), key)
      ==> Separated(f + (Met0(SearchView(c.data), store2[q := p2], q, g) + b), key)
  {
    hide PageItems, Walk, Separated, KidItems, FitMet, Family, SameRow, RowItems, Drawn, KidNos, Below;
    var k, v := c.KindAt(g - 1), SearchView(c.data);
    var s, n := Met0(v, store, q, g), Met0(v, store2[q := p2], q, g);
    PartFits(c, f, s, b);
    DrawnFit(c, g - 1, n, s);
    WholeFits(c, f, n, b);
    if KeepsKey(c.KindAt(0), key) && Separated(f + (s + b), key) {
      SeparatedConcat(f, s + b, key);
      SeparatedConcat(s, b, key);
      Swap(k, f, s, n, b, key);
    }
  }

  // ---- a step of the loop ----

  /** The page at the end is child number iIdx of the page before it. */
  ghost predicate IsChild(store: Store, path: seq<nat>, iIdx: nat) {
    |path| > 1 && End(Up(path)) in store && iIdx <= |store[End(Up(path))].cells| && Opened(store[End(Up(path))]).Kid(iIdx) == End(path)
  }

  lemma FromNonroot(c: Config, key: Body -> int, g: nat, store: Store, parent: Inner, store2: Store, parent2: Inner, added: seq<nat>)
    requires g > 0 && Family(store2, KidNos(parent2), Bodies(parent2.cells), g - 1) && ChildrenFit(c.KindAt(g - 1), store2, parent2)
    requires SameWalk(OwnView(c.data), g - 1, store, parent, store2, parent2)
    requires DrawnWalk(c.KindAt(g - 1), c.data, g - 1, store, parent, store2, parent2)
    requires Reworked(store, KidNos(parent), store2, KidNos(parent2), added)
    requires !c.KindAt(g - 1).leafData ==> SameRow(c.KindAt(g - 1).leaf, store, parent, store2, parent2)
    requires KeepsKey(c.KindAt(g - 1), key) && Searchable(c.data, store, InnerItems(parent), g, key) ==> Searchable(c.data, store2, InnerItems(parent2), g, key)
    ensures Rebalance(c, key, g, store, parent, store2, parent2, added)
  {
    hide Family, ChildrenFit, SameWalk, DrawnWalk, Reworked, SameRow, KeepsKey, Searchable;
  }

  /** The rightmost leaf of a table, with one overflow cell that is its last. A leaf without cells has room for any. */
  predicate Rightmost(c: Config, g: nat, parent: Inner, p: Page<nat>, iIdx: nat) {
    g == 1 && !c.data && |p.ovfl| == 1 && p.at == |p.cells| && p.cells != [] && iIdx == |parent.cells|
  }

  /** The result of balance_quick in its place. */
  lemma FromQuick(c: Config, key: Body -> int, store: Store, q: nat, cur: nat, store2: Store, parent2: Inner, added: seq<nat>)
    requires Ready(c, store, q, 1, cur) && !c.data && Unused(store, added) && |added| > 0
    requires var parent := Opened(store[q]); parent.right == cur && parent.right in store && Rightmost(c, 1, parent, store[cur], |parent.cells|)
    requires var parent := Opened(store[q]); var p := store[cur];
      && store2 == store[cur := Page(p.cells, p.right, 0, [])][added[0] := Page(p.ovfl, 0, 0, [])]
      && parent2 == Inner(parent.cells + [Cell(cur, c.divider(p.cells[|p.cells| - 1].body))], added[0])
      && Weight(c.KindAt(0), store2[added[0]].cells) <= c.KindAt(0).u
    requires Family(store2, KidNos(parent2), Bodies(parent2.cells), 0)
    ensures var parent := Opened(store[q]);
      && ChildrenFit(c.KindAt(0), store2, parent2) && Reworked(store, KidNos(parent), store2, KidNos(parent2), added)
      && Redivided(parent, parent2, |parent.cells|, 1, 2)
  {
    hide Weight, Family, PageItems, Pages, Once, Walk, RowItems, PlainUnder, Plain;
    var parent := Opened(store[q]);
    FamilyIn(store2, KidNos(parent2), Bodies(parent2.cells), 0);
    QuickNumbers(parent, parent2, added[0]);
    QuickDivided(parent, parent2);
    ReadyParts(c, store, q, 1, cur);
    IsFamily(store, q, 1);
    FamilyIn(store, KidNos(parent), Bodies(parent.cells), 0);
    assert cur == KidNos(parent)[|parent.cells|];
    var pages := Fetched(store2, KidNos(parent2));
    forall i | 0 <= i < |pages| ensures pages[i].Ok() && pages[i].ovfl == [] && Weight(c.KindAt(0), pages[i].cells) <= c.KindAt(0).u {
      if i < |parent.cells| {
        KidPlain(c, store, q, 1, cur, i);
        assert KidNos(parent)[i] != KidNos(parent)[|parent.cells|];
        QuickOther(c, store, KidNos(parent)[i], cur, store2, added[0]);
      }
    }
  }

  lemma QuickOther(c: Config, store: Store, x: nat, cur: nat, store2: Store, fresh0: nat)
    requires Tree(store, x, 0) && PlainUnder(c, store, x, 0, cur) && x != cur && fresh0 !in store
    requires forall p | p in store && p != cur && p != fresh0 :: p in store2 && store2[p] == store[p]
    ensures x in store2 && store2[x] == store[x] && Plain(c, store, x, 0)
    ensures store2[x].Ok() && store2[x].ovfl == [] && Weight(c.KindAt(0), store2[x].cells) <= c.KindAt(0).u
  {
    hide Weight;
  }

  lemma QuickNumbers(parent: Inner, parent2: Inner, pgno: nat)
    requires |parent2.cells| == |parent.cells| + 1 && parent2.cells[..|parent.cells|] == parent.cells
    requires parent2.cells[|parent.cells|].child == parent.right && parent2.right == pgno
    ensures KidNos(parent2) == KidNos(parent) + [pgno]
  {
    forall i | 0 <= i < |parent.cells| ensures parent2.cells[i] == parent.cells[i] { assert parent2.cells[..|parent.cells|][i] == parent2.cells[i]; }
  }

  lemma QuickDivided(parent: Inner, parent2: Inner)
    requires |parent2.cells| == |parent.cells| + 1 && parent2.cells[..|parent.cells|] == parent.cells
    ensures Redivided(parent, parent2, |parent.cells|, 1, 2)
  {
    var n := |parent.cells|;
    forall i | 0 <= i < n ensures Bodies(parent2.cells)[i] == Bodies(parent.cells)[i] { assert parent2.cells[..n][i] == parent2.cells[i]; }
    assert Bodies(parent2.cells)[..n] == Bodies(parent.cells)[..n];
    assert Bodies(parent2.cells)[n + 1..] == [] && Bodies(parent.cells)[n..] == [];
  }

  lemma QuickWalk(c: Config, store: Store, parent: Inner, store2: Store, parent2: Inner)
    requires !c.data && Below(store, InnerItems(parent), 1) && Below(store2, InnerItems(parent2), 1)
    requires Walk(LeafEntries, store2, InnerItems(parent2), 1) == Walk(LeafEntries, store, InnerItems(parent), 1)
    ensures SameWalk(OwnView(c.data), 0, store, parent, store2, parent2)
  {
  }

  /** The one overflow cell fits on a page of its own. */
  lemma QuickFits(c: Config, store: Store, q: nat, cur: nat, iIdx: nat)
    requires Ready(c, store, q, 1, cur) && iIdx == |store[q].cells| && Opened(store[q]).Kid(iIdx) == cur
    requires Rightmost(c, 1, Opened(store[q]), store[cur], iIdx)
    ensures W(c.KindAt(0), store[cur].ovfl[0].body) <= c.KindAt(0).u
  {
    hide Weight, Family, PageItems, Pages, Once, Walk, RowItems, PlainUnder, Plain, W;
    var parent := Opened(store[q]);
    ReadyParts(c, store, q, 1, cur);
    IsFamily(store, q, 1);
    IsOverfull(c, store, q, 1, cur, iIdx);
    var pages := Fetched(store, KidNos(parent));
    assert pages[iIdx] == store[cur];
    FirstLoose(store[cur]);
    assert Fit(c.KindAt(0), store[cur].ovfl[0].body);
  }

  lemma FirstLoose(p: Page<nat>)
    requires p.Ok() && p.ovfl != []
    ensures p.ovfl[0] in Loaded(p)
  {
    assert Loaded(p)[p.at] == p.ovfl[0];
  }

  /** Four dividers fit on a page. */
  lemma FewFit(c: Config, g: nat, store: Store, parent: Inner, store2: Store, parent2: Inner)
    requires c.Ok() && g > 0 && DrawnWalk(c.KindAt(g - 1), c.data, g - 1, store, parent, store2, parent2) && |parent2.cells| <= 4
    requires FitAll(c, Walk(SearchView(c.data), store, InnerItems(parent), g))
    requires Family(store2, KidNos(parent2), Bodies(parent2.cells), g - 1)
    ensures Weight(c.KindAt(g), parent2.cells) <= c.u
  {
    hide Family, PageItems, Pages, Walk, RowItems, KidItems, Weight, Loaded, RowWalk, KidNos, Bodies, FitMet, Drawn, Below;
    var kids, divs, v := KidNos(parent2), Bodies(parent2.cells), SearchView(c.data);
    DrawnFit(c, g - 1, Walk(v, store2, InnerItems(parent2), g), Walk(v, store, InnerItems(parent), g));
    FamilyIn(store2, kids, divs, g - 1);
    KidsWalk(v, store2, kids, divs, g - 1);
    forall i | 0 <= i < |parent2.cells| ensures 4 * W(c.KindAt(g), parent2.cells[i].body) <= c.u {
      RowMet(c, store2, Fetched(store2, kids), divs, g - 1, i);
      PostFits(c, divs[i], g);
      BodyAt(parent2.cells, i);
    }
    FourCells(c.KindAt(g), parent2.cells, c.u);
  }

  lemma BodyAt(cells: seq<Cell<nat>>, i: nat)
    requires i < |cells|
    ensures |Bodies(cells)| == |cells| && Bodies(cells)[i] == cells[i].body
  {
  }

  lemma PostFits(c: Config, b: Body, g: nat)
    requires g > 0 && FitMet(c, AsMet(c, b, g))
    ensures 4 * W(c.KindAt(g), b) <= c.u
  {
  }

  lemma {:induction false} FourCells(k: Kind, cells: seq<Cell<nat>>, u: nat)
    requires |cells| <= 4 && forall i | 0 <= i < |cells| :: 4 * W(k, cells[i].body) <= u
    ensures 4 * Weight(k, cells) <= |cells| * u && Weight(k, cells) <= u
    decreases |cells|
  {
    hide W;
    if cells != [] {
      FourCells(k, cells[1..], u);
      assert 4 * W(k, cells[0].body) <= u;
    }
  }

  /** One overflow cell at the end of a table gets a page of its own; else the cells of the siblings chosen are spread. */
  ghost predicate Shared(c: Config, store: Store, q: nat, g: nat, cur: nat, iIdx: nat, bBulk: bool, store2: Store, parent2: Inner,
                         nxDiv: nat, nOld: nat, nNew: nat) {
    && g > 0 && q in store && cur in store
    && if Quick(c, store, q, g, cur, iIdx) then
         nxDiv == |store[q].cells| && nOld == 1 && nNew == 2 && Added(c, store, q, cur, store2, parent2)
       else
         Picks(|store[q].cells|, iIdx, bBulk, nxDiv, nOld)
         && Spread(c.KindAt(g - 1), bBulk, store, Opened(store[q]), nxDiv, nOld, store2, parent2, nNew)
  }

  ghost predicate Quick(c: Config, store: Store, q: nat, g: nat, cur: nat, iIdx: nat)
    requires q in store && cur in store
  {
    Rightmost(c, g, Opened(store[q]), store[cur], iIdx) && q != 1
  }

  /** A page is added on the right, with nothing but the overflow cell of page cur. */
  ghost predicate Added(c: Config, store: Store, q: nat, cur: nat, store2: Store, parent2: Inner)
    requires q in store && cur in store
  {
    var parent, p := Opened(store[q]), store[cur];
    && p.cells != [] && parent2.right !in store
    && store2 == store[cur := Page(p.cells, p.right, 0, [])][parent2.right := Page(p.ovfl, 0, 0, [])]
    && parent2.cells == parent.cells + [Cell(cur, c.divider(p.cells[|p.cells| - 1].body))]
  }

  lemma IsAdded(c: Config, store: Store, q: nat, cur: nat, store2: Store, parent2: Inner, added: seq<nat>)
    requires q in store && cur in store && store[cur].cells != [] && Unused(store, added) && |added| > 0
    requires var p := store[cur]; store2 == store[cur := Page(p.cells, p.right, 0, [])][added[0] := Page(p.ovfl, 0, 0, [])]
    requires var p := store[cur]; parent2 == Inner(Opened(store[q]).cells + [Cell(cur, c.divider(p.cells[|p.cells| - 1].body))], added[0])
    ensures Added(c, store, q, cur, store2, parent2)
  {
  }

  /** balance_quick or balance_nonroot for child cur of page q. */
  method Redistribute(c: Config, ghost key: Body -> int, store: Store, q: nat, g: nat, cur: nat, iIdx: nat, added: seq<nat>, bBulk: bool)
    returns (rc: Rc, store2: Store, parent2: Inner, nxDiv: nat, nOld: nat, nNew: nat)
    requires Ready(c, store, q, g, cur) && iIdx <= |store[q].cells| && Opened(store[q]).Kid(iIdx) == cur
    requires Unused(store, added) && |added| >= Pack.MAX_PAGES
    ensures rc == OK && Rebalance(c, key, g, store, Opened(store[q]), store2, parent2, added)
    ensures Redivided(Opened(store[q]), parent2, nxDiv, nOld, nNew) && Shared(c, store, q, g, cur, iIdx, bBulk, store2, parent2, nxDiv, nOld, nNew)
  {
    hide Picks, Spread, Added, Rebalance, Weight, Family, Walk, PageItems, KidItems, RowItems, Separated, SameRow, DrawnWalk, SameWalk, Searchable, KeepsKey, ChildrenFit, Pages, Once, PlainAll, PlainUnder, KidNos, Bodies, Below, Fetched, Row, FitAll, Reworked, Redivided;
    ReadyParts(c, store, q, g, cur);
    var parent, k := Opened(store[q]), c.KindAt(g - 1);
    IsFamily(store, q, g);
    FamilyIn(store, KidNos(parent), Bodies(parent.cells), g - 1);
    if Rightmost(c, g, parent, store[cur], iIdx) && q != 1 {
      QuickFits(c, store, q, cur, iIdx);
      store2, parent2 := BalanceQuick(k, 0, key, store, parent, added[0]);
      rc, nxDiv, nOld, nNew := OK, |parent.cells|, 1, 2;
      FromQuick(c, key, store, q, cur, store2, parent2, added);
      IsAdded(c, store, q, cur, store2, parent2, added);
      QuickWalk(c, store, parent, store2, parent2);
    } else {
      IsLegit(c, store, q, g, cur, iIdx);
      var nFree := Frees(k, store, parent);
      rc, store2, parent2, nxDiv, nOld, nNew := BalanceNonroot(k, c.data, g - 1, key, store, parent, iIdx, added, nFree, bBulk);
    }
    FromNonroot(c, key, g, store, parent, store2, parent2, added);
  }

  lemma UpParts(c: Config, store: Store, root: nat, hr: nat, path: seq<nat>, iIdx: nat)
    requires State(c, store, root, hr, path) && IsChild(store, path, iIdx)
    ensures var q, cur := End(Up(path)), End(path);
      && 1 < |path| <= hr + 1 && q in store && Ready(c, store, q, hr + 2 - |path|, cur) && iIdx <= |store[q].cells| && Opened(store[q]).Kid(iIdx) == cur
      && Weight(c.KindAt(hr + 2 - |path|), store[q].cells) <= c.KindAt(hr + 2 - |path|).u
      && FitAll(c, Met0(SearchView(c.data), store, q, hr + 2 - |path|))
      && Loaded(store[q]) == store[q].cells && PageItems(false, store[q]) == InnerItems(Opened(store[q])) && c.Ok()
  {
    hide PageItems, Once, Pages, Walk, Plain, Below, KidItems, FitMet, Weight, PlainAll, PlainUnder, KidNos, Loaded, FitAll;
    IsReady(c, store, root, hr, path);
    ReadyParts(c, store, End(Up(path)), hr + 2 - |path|, End(path));
    OpenedItems(store[End(Up(path))]);
  }

  lemma RebalanceParts(c: Config, key: Body -> int, g: nat, store: Store, parent: Inner, store2: Store, parent2: Inner, added: seq<nat>, q: nat)
    requires g > 0 && Rebalance(c, key, g, store, parent, store2, parent2, added) && q in store
    ensures Family(store2, KidNos(parent2), Bodies(parent2.cells), g - 1) && DrawnWalk(c.KindAt(g - 1), c.data, g - 1, store, parent, store2, parent2)
    ensures forall p | p in store2 :: p in store || p in added
  {
    hide Family, DrawnWalk, SameWalk, SameRow, Searchable, KeepsKey, ChildrenFit;
  }

  /** The last page of the path has shared with its siblings, and the page above it has the new parent's cells in store3. */
  ghost predicate UpBy(c: Config, store: Store, hr: nat, path: seq<nat>, iIdx: nat, bBulk: bool, store3: Store, store2: Store, parent2: Inner) {
    && 1 < |path| <= hr + 1 && End(Up(path)) in store && End(Up(path)) in store3
    && store3 == store2[End(Up(path)) := store3[End(Up(path))]]
    && exists nxDiv, nOld, nNew, f :: SharedBelow(c, store, hr, path, iIdx, bBulk, store2, parent2, nxDiv, nOld, nNew)
         && PlacedBelow(c, hr, path, parent2, nxDiv, nNew, store3[End(Up(path))], f)
  }

  ghost predicate PlacedBelow(c: Config, hr: nat, path: seq<nat>, parent2: Inner, nxDiv: nat, nNew: nat, p: Page<nat>, f: nat)
    requires 1 < |path| <= hr + 1
  {
    0 < nNew && nxDiv + nNew - 1 <= |parent2.cells| && PlacedAt(c.KindAt(hr + 2 - |path|), parent2, nxDiv, nNew, p, f)
  }

  ghost predicate SharedBelow(c: Config, store: Store, hr: nat, path: seq<nat>, iIdx: nat, bBulk: bool, store2: Store, parent2: Inner,
                              nxDiv: nat, nOld: nat, nNew: nat)
    requires 1 < |path| <= hr + 1
  {
    Shared(c, store, End(Up(path)), hr + 2 - |path|, End(path), iIdx, bBulk, store2, parent2, nxDiv, nOld, nNew)
  }

  lemma IsUpBy(c: Config, store: Store, hr: nat, path: seq<nat>, iIdx: nat, bBulk: bool, store3: Store, store2: Store, parent2: Inner,
               nxDiv: nat, nOld: nat, nNew: nat, f: nat)
    requires 1 < |path| <= hr + 1 && End(Up(path)) in store && End(Up(path)) in store3
    requires store3 == store2[End(Up(path)) := store3[End(Up(path))]] && 0 < nNew && nxDiv + nNew - 1 <= |parent2.cells|
    requires PlacedAt(c.KindAt(hr + 2 - |path|), parent2, nxDiv, nNew, store3[End(Up(path))], f)
    requires Shared(c, store, End(Up(path)), hr + 2 - |path|, End(path), iIdx, bBulk, store2, parent2, nxDiv, nOld, nNew)
    ensures UpBy(c, store, hr, path, iIdx, bBulk, store3, store2, parent2)
  {
    hide Shared, PlacedAt;
    assert SharedBelow(c, store, hr, path, iIdx, bBulk, store2, parent2, nxDiv, nOld, nNew);
    assert PlacedBelow(c, hr, path, parent2, nxDiv, nNew, store3[End(Up(path))], f);
  }

  lemma DividedParts(parent: Inner, parent2: Inner, nxDiv: nat, nOld: nat, nNew: nat)
    requires Redivided(parent, parent2, nxDiv, nOld, nNew)
    ensures 0 < nNew <= Pack.MAX_PAGES && nxDiv + nNew - 1 <= |parent2.cells| && (parent.cells == [] ==> |parent2.cells| <= 4)
  {
  }

  /** A page is balanced with its siblings, and the new dividers go to its parent. */
  method BalanceUp(c: Config, ghost key: Body -> int, store: Store, root: nat, hr: nat, path: seq<nat>, iIdx: nat, added: seq<nat>, bBulk: bool)
    returns (rc: Rc, store3: Store, ghost store2: Store, ghost parent2: Inner)
    requires State(c, store, root, hr, path) && IsChild(store, path, iIdx) && Unused(store, added) && |added| >= Pack.MAX_PAGES
    ensures rc == OK && State(c, store3, root, hr, Up(path)) && SameTree(c, key, store, hr, store3, hr, root)
    ensures forall p | p in store3 :: p in store || p in added
    ensures End(Up(path)) in store3 && (store[End(Up(path))].cells == [] ==> store3[End(Up(path))].ovfl == [])
    ensures LocalChange(store, store3, End(Up(path)), hr + 2 - |path|) && UpBy(c, store, hr, path, iIdx, bBulk, store3, store2, parent2)
  {
    hide UpBy, Redivided, Shared, PlacedAt, State, Ready, Rebalance, SameTree, Weight, Family, Walk, PageItems, KidItems, RowItems, DrawnWalk, LocalChange, KidNos, Bodies, FitAll, Unused;
    UpParts(c, store, root, hr, path, iIdx);
    var q, g: nat := End(Up(path)), hr + 2 - |path|;
    var stored, parent, nxDiv, nOld, nNew;
    rc, stored, parent, nxDiv, nOld, nNew := Redistribute(c, key, store, q, g, End(path), iIdx, added, bBulk);
    store2, parent2 := stored, parent;
    KeptWeight(c.KindAt(g), Opened(store[q]), parent, nxDiv, nOld, nNew);
    DividedParts(Opened(store[q]), parent, nxDiv, nOld, nNew);
    var p2;
    ghost var f;
    p2, f := PlaceDividers(c.KindAt(g), parent, nxDiv, nNew);
    PlacedItems(p2, parent);
    store3 := stored[q := p2];
    StepUp(c, key, store, root, hr, path, stored, parent, p2, added);
    RebalanceParts(c, key, g, store, Opened(store[q]), stored, parent, added, q);
    IsUpBy(c, store, hr, path, iIdx, bBulk, store3, stored, parent, nxDiv, nOld, nNew, f);
    if store[q].cells == [] { FewFit(c, g, store, Opened(store[q]), stored, parent); }
  }

  // ---- the root ----

  /** The tree is the page below the only child of its root. */
  lemma RootParts(c: Config, store: Store, root: nat, hr: nat)
    requires State(c, store, root, hr, [root])
    ensures Tree(store, root, hr) && OnceBelow(store, root, hr) && PlainAll(c, store, PageItems(hr == 0, store[root]), hr, root)
    ensures forall v :: Whole(v, store, root, hr) == Met0(v, store, root, hr)
  {
    hide PageItems, Once, Pages, Walk, Plain, FitMet, Weight, PlainAll;
    OneKid(store, root, hr);
    PlainOne(c, store, root, hr, root);
    forall v ensures Whole(v, store, root, hr) == Met0(v, store, root, hr) { KidWalk(v, store, root, hr); }
  }

  lemma PlainOne(c: Config, store: Store, p: nat, h: nat, but: nat)
    requires Below(store, [Kid(p)], h + 1) && Tree(store, p, h)
    ensures PlainAll(c, store, [Kid(p)], h + 1, but) <==> PlainUnder(c, store, p, h, but)
    ensures PlainUnder(c, store, p, h, but) ==> PlainAll(c, store, PageItems(h == 0, store[p]), h, but)
  {
    hide PageItems, Plain;
    var x: Item<nat> := Kid(p);
    assert x in [x];
    assert forall y | y in [x] :: y == x;
  }

  /** A state from what is known of the root's page. */
  lemma RootState(c: Config, store: Store, root: nat, hr: nat)
    requires c.Ok() && (forall p | p in store :: p < NO_PAGE) && Tree(store, root, hr) && OnceBelow(store, root, hr)
    requires PlainAll(c, store, PageItems(hr == 0, store[root]), hr, root) && FitAll(c, Met0(SearchView(c.data), store, root, hr))
    requires Holds(c, store[root], hr) && |store[root].ovfl| <= OvflLimit(c, hr)
    ensures State(c, store, root, hr, [root]) && forall v :: Whole(v, store, root, hr) == Met0(v, store, root, hr)
  {
    hide PageItems, Once, Pages, Walk, Plain, FitMet, Weight, PlainAll;
    OneKid(store, root, hr);
    PlainOne(c, store, root, hr, root);
    forall v ensures Whole(v, store, root, hr) == Met0(v, store, root, hr) { KidWalk(v, store, root, hr); }
    var x: Item<nat> := Kid(root);
    assert x in [x];
  }

  lemma DeeperState(c: Config, key: Body -> int, store: Store, root: nat, hr: nat, child: nat, store3: Store)
    requires State(c, store, root, hr, [root]) && child !in store && child < NO_PAGE
    requires store3 == store[child := store[root]][root := Page([], child, 0, [])]
    ensures State(c, store3, root, hr + 1, [root, child]) && SameTree(c, key, store, hr, store3, hr + 1, root)
    ensures IsChild(store3, [root, child], 0)
  {
    hide PageItems, Once, Pages, Walk, Plain, FitMet, Weight, PlainAll, Separated, KeepsKey, Below;
    RootParts(c, store, root, hr);
    var r := PageItems(hr == 0, store[root]);
    PagesInStore(store, r, hr);
    assert SameOn(store, store3, Pages(store, r, hr));
    WalkFrame(Entries, store, store3, r, hr);
    OnceFrame(store, store3, r, hr);
    PlainFrame(c, store, store3, r, hr, root, child);
    assert Tree(store3, child, hr);
    OneKid(store3, child, hr);
    PlainOne(c, store3, child, hr, child);
    NoCells(child);
    DeeperTree(c, store3, root, hr, child);
    forall v ensures Whole(v, store3, root, hr + 1) == Whole(v, store, root, hr) {
      WalkFrame(v, store, store3, r, hr);
      KidWalk(v, store3, child, hr);
      KidWalk(v, store3, root, hr + 1);
    }
  }

  lemma NoCells(child: nat)
    ensures PageItems(false, Page([], child, 0, [])) == [Kid(child)]
  {
  }

  lemma DeeperTree(c: Config, store3: Store, root: nat, hr: nat, child: nat)
    requires root in store3 && store3[root] == Page([], child, 0, []) && PageItems(false, store3[root]) == [Kid(child)] && c.Ok()
    requires Tree(store3, child, hr) && Below(store3, [Kid(child)], hr + 1) && Once(store3, [Kid(child)], hr + 1)
    requires root !in Pages(store3, [Kid(child)], hr + 1) && PlainUnder(c, store3, child, hr, child)
    ensures Tree(store3, root, hr + 1) && Below(store3, [Kid(root)], hr + 2) && Once(store3, [Kid(root)], hr + 2)
    ensures PathTo(store3, [Kid(root)], hr + 2, [root, child]) && PlainAll(c, store3, [Kid(root)], hr + 2, child)
  {
    hide PageItems, Once, Pages, Walk;
    assert Tree(store3, root, hr + 1);
    OneKid(store3, root, hr + 1);
    PlainOne(c, store3, child, hr, child);
    assert Plain(c, store3, root, hr + 1);
    PlainOne(c, store3, root, hr + 1, child);
    var x: Item<nat>, y: Item<nat> := Kid(root), Kid(child);
    assert x in [x] && y in [y];
    assert [root, child][1..] == [child];
  }

  lemma ShallowerState(c: Config, key: Body -> int, store: Store, root: nat, hr: nat, child: nat, store3: Store)
    requires State(c, store, root, hr, [root]) && hr > 0 && store[root].cells == [] && store[root].ovfl == [] && child == store[root].right
    requires child in store && store3 == (store - {child})[root := store[child]]
    ensures State(c, store3, root, hr - 1, [root]) && SameTree(c, key, store, hr, store3, hr - 1, root) && store3[root].ovfl == []
  {
    hide PageItems, Once, Pages, Walk, FitMet, Weight, PlainAll, Separated, KeepsKey, Below, Plain;
    RootParts(c, store, root, hr);
    OneChildOnly(store[root]);
    OnlyChild(c, store, root, hr, child);
    var r := PageItems(hr == 1, store[child]);
    assert SameOn(store, store3, Pages(store, r, hr - 1));
    WalkFrame(Entries, store, store3, r, hr - 1);
    OnceFrame(store, store3, r, hr - 1);
    PlainFrame(c, store, store3, r, hr - 1, root, root);
    PlainIs(c, store, child, hr - 1);
    assert Tree(store3, root, hr - 1);
    forall v ensures Met0(v, store3, root, hr - 1) == Met0(v, store, root, hr) {
      WalkFrame(v, store, store3, r, hr - 1);
      KidWalk(v, store, child, hr - 1);
    }
    RootState(c, store3, root, hr - 1);
  }

  lemma OneChildOnly(p: Page<nat>)
    requires p.Ok() && p.cells == [] && p.ovfl == []
    ensures PageItems(false, p) == [Kid(p.right)]
  {
    assert Loaded(p) == [];
  }

  lemma OnlyChild(c: Config, store: Store, root: nat, hr: nat, child: nat)
    requires hr > 0 && Tree(store, root, hr) && OnceBelow(store, root, hr) && PageItems(false, store[root]) == [Kid(child)]
    requires PlainAll(c, store, PageItems(hr == 0, store[root]), hr, root)
    ensures Tree(store, child, hr - 1) && OnceBelow(store, child, hr - 1) && Plain(c, store, child, hr - 1) && child != root
    ensures PlainAll(c, store, PageItems(hr == 1, store[child]), hr - 1, root)
    ensures root !in Pages(store, PageItems(hr == 1, store[child]), hr - 1)
  {
    hide PageItems, Once, Pages, Walk, Plain;
    var x: Item<nat> := Kid(child);
    assert x in [x] && Below(store, [x], hr);
    OneKid(store, child, hr - 1);
    PlainOne(c, store, child, hr - 1, root);
  }

  // ---- the loop ----

  /** Each page of the path but the last leads to the next by the child with the index kept for it. */
  ghost predicate IdxOk(store: Store, path: seq<nat>, idx: seq<nat>) {
    && |path| == |idx| + 1
    && forall l | 0 <= l < |idx| :: path[l] in store && idx[l] <= |store[path[l]].cells| && Opened(store[path[l]]).Kid(idx[l]) == path[l + 1]
  }

  lemma {:induction false} WayKept(store: Store, store2: Store, items: seq<Item<nat>>, h: nat, path: seq<nat>)
    requires Below(store, items, h) && Once(store, items, h) && PathTo(store, items, h, path)
    requires LocalChange(store, store2, End(path), h - |path|)
    ensures forall l | 0 <= l < |path| - 1 :: path[l] in store && path[l] in store2 && store2[path[l]] == store[path[l]]
    decreases |path|
  {
    hide PageItems, Once, Pages;
    KidOnce(store, items, h, path[0]);
    if |path| > 1 {
      var below := PageItems(h == 1, store[path[0]]);
      assert End(path[1..]) == End(path);
      PathIn(store, below, h - 1, path[1..]);
      assert store2[path[0]] == store[path[0]];
      WayKept(store, store2, below, h - 1, path[1..]);
      forall l | 0 <= l < |path| - 1 ensures path[l] in store && path[l] in store2 && store2[path[l]] == store[path[l]] {
        if l > 0 { assert path[l] == path[1..][l - 1]; }
      }
    }
  }

  lemma IdxUp(c: Config, store: Store, root: nat, hr: nat, path: seq<nat>, idx: seq<nat>, store3: Store)
    requires State(c, store, root, hr, path) && |path| > 1 && IdxOk(store, path, idx)
    requires LocalChange(store, store3, End(Up(path)), hr + 2 - |path|)
    ensures IdxOk(store3, Up(path), idx[..|idx| - 1])
  {
    hide PageItems, Once, Pages, Walk, Plain, FitMet, Weight, PlainAll, LocalChange, PathTo, Below;
    PathUp(store, [Kid(root)], hr + 1, path);
    WayKept(store, store3, [Kid(root)], hr + 1, Up(path));
  }

  lemma LastIdx(store: Store, path: seq<nat>, idx: seq<nat>)
    requires IdxOk(store, path, idx) && |path| > 1
    ensures IsChild(store, path, idx[|idx| - 1])
  {
  }

  /** The tree has no page with overflow cells. */
  ghost predicate Balanced(c: Config, store: Store, root: nat, hr: nat) {
    Below(store, [Kid(root)], hr + 1) && Once(store, [Kid(root)], hr + 1) && PlainAll(c, store, [Kid(root)], hr + 1, NO_PAGE)
  }

  lemma AllPlain(c: Config, store: Store, root: nat, hr: nat, path: seq<nat>)
    requires State(c, store, root, hr, path) && store[End(path)].ovfl == []
    ensures Balanced(c, store, root, hr)
  {
    hide PageItems, Once, Pages, Walk, FitMet, Weight, PlainAll, Below, Lower, LocalChange;
    var items, h, g, q := [Kid(root)], hr + 1, hr + 1 - |path|, End(path);
    OnceAt(store, items, h, path);
    PlainAt(c, store, items, h, path, q);
    SelfChange(store, q, g);
    EndPlain(c, store, q, g);
    PlainReplace(c, store, store, items, h, path, q, NO_PAGE);
  }

  lemma EndPlain(c: Config, store: Store, q: nat, g: nat)
    requires Tree(store, q, g) && OnceBelow(store, q, g) && PlainUnder(c, store, q, g, q) && store[q].ovfl == [] && Holds(c, store[q], g)
    ensures PlainUnder(c, store, q, g, NO_PAGE)
  {
    hide PageItems, Once, Pages, Weight;
    PlainFrame(c, store, store, PageItems(g == 0, store[q]), g, q, NO_PAGE);
  }

  lemma StillUnused(store: Store, store2: Store, a: seq<nat>, n: nat)
    requires Unused(store, a) && n <= |a| && forall p | p in store2 :: p in store || p in a[..n]
    ensures Unused(store2, a[n..]) && Unused(store, a[..n])
  {
    forall i | 0 <= i < |a[n..]| ensures a[n..][i] !in store2 {
      assert a[n..][i] == a[n + i];
      forall j | 0 <= j < n ensures a[..n][j] != a[n + i] {}
    }
  }

  method Deeper(c: Config, ghost key: Body -> int, store: Store, root: nat, ghost hr: nat, child: nat) returns (store2: Store)
    requires State(c, store, root, hr, [root]) && child !in store && child < NO_PAGE
    ensures State(c, store2, root, hr + 1, [root, child]) && SameTree(c, key, store, hr, store2, hr + 1, root)
    ensures IsChild(store2, [root, child], 0) && root in store2 && store2[root].cells == [] && forall p | p in store2 :: p in store || p == child
    ensures root in store && store2 == store[child := store[root]][root := Page([], child, 0, [])]
  {
    hide PageItems, Once, Pages, Walk, Plain, FitMet, Weight, PlainAll, Separated, KeepsKey, Below;
    RootParts(c, store, root, hr);
    var root2;
    store2, root2 := BalanceDeeper(hr, store, store[root], child);
    store2 := store2[root := Page(root2.cells, root2.right, 0, [])];
    DeeperState(c, key, store, root, hr, child, store2);
  }

  /** The root has taken over its only child. */
  ghost predicate Collapsed(store: Store, root: nat, store2: Store) {
    root in store && store[root].right in store && store2 == (store - {store[root].right})[root := store[store[root].right]]
  }

  method Shallower(c: Config, ghost key: Body -> int, store: Store, root: nat, ghost hr: nat) returns (store2: Store)
    requires State(c, store, root, hr, [root]) && hr > 0 && store[root].cells == [] && store[root].ovfl == []
    ensures State(c, store2, root, hr - 1, [root]) && SameTree(c, key, store, hr, store2, hr - 1, root)
    ensures store2[root].ovfl == [] && forall p | p in store2 :: p in store
    ensures Collapsed(store, root, store2)
  {
    hide PageItems, Once, Pages, Walk, Plain, FitMet, Weight, PlainAll, Separated, KeepsKey, Below;
    RootParts(c, store, root, hr);
    OneChildOnly(store[root]);
    OnlyChild(c, store, root, hr, store[root].right);
    var page;
    store2, page := BalanceShallower(hr - 1, store, Opened(store[root]));
    store2 := store2[root := page];
    ShallowerState(c, key, store, root, hr, store[root].right, store2);
  }

  /** Free bytes of a page beyond which it is balanced with its siblings even if it does not overflow. */
  function MinFree(c: Config): nat { (c.u + 12) * 2 / 3 }

  /** What balance() finds at the top of its loop: the way down to the page it looks at. */
  datatype Turn = Turn(store: Store, hr: nat, path: seq<nat>, idx: seq<nat>)

  /** The page does not overflow, and is the root or at most two thirds empty. */
  ghost predicate Rests(c: Config, t: Turn) {
    && 0 < |t.path| <= t.hr + 1 && End(t.path) in t.store && t.store[End(t.path)].ovfl == []
    && (|t.path| > 1 ==> Free(c, t) <= MinFree(c))
  }

  ghost function Free(c: Config, t: Turn): int
    requires 0 < |t.path| <= t.hr + 1 && End(t.path) in t.store
  {
    c.KindAt(t.hr + 1 - |t.path|).u - Weight(c.KindAt(t.hr + 1 - |t.path|), t.store[End(t.path)].cells)
  }

  /** One turn: the root moves down a level, or a page shares with its siblings, and a root left without cells collapses. */
  ghost predicate Turns(c: Config, bBulk: bool, root: nat, a: Turn, b: Turn) {
    if |a.path| <= 1 then
      |b.path| == 2 && b.path[0] == root && b.path[1] !in a.store && root in a.store && b.idx == [0] && b.hr == a.hr + 1
      && b.store == a.store[b.path[1] := a.store[root]][root := Page([], b.path[1], 0, [])]
    else
      |a.idx| + 1 == |a.path| && b.path == Up(a.path) && b.idx == a.idx[..|a.idx| - 1]
      && exists mid, store2, parent2 ::
           UpBy(c, a.store, a.hr, a.path, End(a.idx), bBulk, mid, store2, parent2) && MayCollapse(root, a, mid, b)
  }

  ghost predicate MayCollapse(root: nat, a: Turn, mid: Store, b: Turn) {
    if |b.path| == 1 && root in mid && mid[root].cells == [] && mid[root].ovfl == [] then b.hr + 1 == a.hr && Collapsed(mid, root, b.store)
    else b.hr == a.hr && b.store == mid
  }

  /** A run of balance(): it goes on as long as the page it looks at does not rest. */
  ghost predicate Run(c: Config, bBulk: bool, root: nat, ts: seq<Turn>) {
    ts != [] && forall i | 0 <= i < |ts| - 1 :: !Rests(c, ts[i]) && Turns(c, bBulk, root, ts[i], ts[i + 1])
  }

  /** One turn for a page below the root. */
  method TurnUp(c: Config, ghost key: Body -> int, store: Store, root: nat, hr: nat, path: seq<nat>, idx: seq<nat>, a: seq<nat>, bBulk: bool)
    returns (store2: Store, hr2: nat)
    requires State(c, store, root, hr, path) && IdxOk(store, path, idx) && |path| > 1 && Unused(store, a) && |a| >= Pack.MAX_PAGES
    ensures State(c, store2, root, hr2, Up(path)) && IdxOk(store2, Up(path), idx[..|idx| - 1]) && Unused(store2, a[Pack.MAX_PAGES..])
    ensures SameTree(c, key, store, hr, store2, hr2, root)
    ensures Turns(c, bBulk, root, Turn(store, hr, path, idx), Turn(store2, hr2, Up(path), idx[..|idx| - 1]))
    ensures |path| == 2 && root in store && store[root].cells == [] ==> root in store2 && store2[root].ovfl == []
  {
    hide State, SameTree, IsChild, LocalChange, Unused, Turns, UpBy, IdxOk;
    hr2 := hr;
    StateParts(c, store, root, hr, path);
    IdxSize(store, path, idx);
    LastIdx(store, path, idx);
    StillUnused(store, store, a, Pack.MAX_PAGES);
    var rc, mid;
    ghost var mid2, parent2;
    rc, mid, mid2, parent2 := BalanceUp(c, key, store, root, hr, path, idx[|idx| - 1], a[..Pack.MAX_PAGES], bBulk);
    store2 := mid;
    StillUnused(store, mid, a, Pack.MAX_PAGES);
    IdxUp(c, store, root, hr, path, idx, mid);
    StateParts(c, mid, root, hr, Up(path));
    if |Up(path)| == 1 && mid[root].cells == [] && mid[root].ovfl == [] {
      store2 := Shallower(c, key, mid, root, hr);
      StillUnused(mid, store2, a[Pack.MAX_PAGES..], 0);
      SameTreeTrans(c, key, store, hr, mid, hr, store2, hr - 1, root);
      hr2 := hr - 1;
      RootIdx(mid, store2, Up(path), idx[..|idx| - 1]);
    }
    Ups(c, bBulk, root, Turn(store, hr, path, idx), mid, Turn(store2, hr2, Up(path), idx[..|idx| - 1]), mid2, parent2);
  }

  /** balance(): whatever page overflows on the way, in the end none does; the entries and their order are the same. */
  method BalanceTree(c: Config, ghost key: Body -> int, store0: Store, root: nat, hr0: nat, path0: seq<nat>, idx0: seq<nat>,
                     alloc: seq<nat>, bBulk: bool) returns (store: Store, hr: nat, ghost ts: seq<Turn>)
    requires State(c, store0, root, hr0, path0) && IdxOk(store0, path0, idx0)
    requires Unused(store0, alloc) && |alloc| >= Pack.MAX_PAGES * (|path0| + 2) + 1
    ensures Balanced(c, store, root, hr) && SameTree(c, key, store0, hr0, store, hr, root)
    ensures Run(c, bBulk, root, ts) && ts[0] == Turn(store0, hr0, path0, idx0)
    ensures var last := ts[|ts| - 1]; last.store == store && last.hr == hr && Rests(c, last)
    ensures Rests(c, Turn(store0, hr0, path0, idx0)) ==> store == store0 && hr == hr0
  {
    hide State, SameTree, Balanced, IsChild, LocalChange, Unused, Weight, Turns, Rests, Free, IdxOk, Run;
    store, hr := store0, hr0;
    ghost var first := Turn(store0, hr0, path0, idx0);
    ts := [first];
    RunStarts(c, bBulk, root, first);
    var path, idx, a, deep := path0, idx0, alloc, false;
    SameSelf(c, key, store, root, hr, path);
    while true
      invariant State(c, store, root, hr, path) && IdxOk(store, path, idx) && SameTree(c, key, store0, hr0, store, hr, root)
      invariant Unused(store, a) && |a| >= Pack.MAX_PAGES * (|path| + if deep then 0 else 2) + if deep then 0 else 1
      invariant deep ==> |path| <= 2 && root in store && (if |path| == 2 then path[0] == root && store[root].cells == [] else store[root].ovfl == [])
      invariant ts != [] && ts[0] == first && ts[|ts| - 1] == Turn(store, hr, path, idx) && Run(c, bBulk, root, ts)
      invariant Rests(c, first) ==> ts == [first]
      decreases !deep, |path|
    {
      StateParts(c, store, root, hr, path);
      ghost var was, now := store, Turn(store, hr, path, idx);
      RestsIs(c, now);
      var cur := path[|path| - 1];
      if |path| == 1 {
        if store[root].ovfl == [] { break; }
        FirstUnused(store, a);
        store := Deeper(c, key, store, root, hr, a[0]);
        StillUnused(was, store, a, 1);
        SameTreeTrans(c, key, store0, hr0, was, hr, store, hr + 1, root);
        path, idx, a, hr, deep := [root, a[0]], [0], a[1..], hr + 1, true;
        DeepIdx(store, root, path[1]);
        Deepens(c, bBulk, root, now, store, path[1]);
      } else if store[cur].ovfl == [] && c.KindAt(hr + 1 - |path|).u - Weight(c.KindAt(hr + 1 - |path|), store[cur].cells) <= MinFree(c) {
        break;
      } else {
        ghost var hrWas := hr;
        IdxSize(store, path, idx);
        store, hr := TurnUp(c, key, store, root, hr, path, idx, a, bBulk);
        SameTreeTrans(c, key, store0, hr0, was, hrWas, store, hr, root);
        path, idx, a := Up(path), idx[..|idx| - 1], a[Pack.MAX_PAGES..];
      }
      RunGoesOn(c, bBulk, root, ts, Turn(store, hr, path, idx));
      ts := ts + [Turn(store, hr, path, idx)];
    }
    AllPlain(c, store, root, hr, path);
  }

  lemma IdxSize(store: Store, path: seq<nat>, idx: seq<nat>)
    requires IdxOk(store, path, idx)
    ensures |path| == |idx| + 1
  {
  }

  /** At the root no index is kept. */
  lemma RootIdx(store: Store, store2: Store, path: seq<nat>, idx: seq<nat>)
    requires IdxOk(store, path, idx) && |path| == 1
    ensures IdxOk(store2, path, idx)
  {
  }

  lemma RunStarts(c: Config, bBulk: bool, root: nat, t: Turn)
    ensures Run(c, bBulk, root, [t])
  {
  }

  lemma RunGoesOn(c: Config, bBulk: bool, root: nat, ts: seq<Turn>, t: Turn)
    requires Run(c, bBulk, root, ts) && !Rests(c, ts[|ts| - 1]) && Turns(c, bBulk, root, ts[|ts| - 1], t)
    ensures Run(c, bBulk, root, ts + [t])
  {
    hide Turns, Rests;
  }

  lemma RestsIs(c: Config, t: Turn)
    requires 0 < |t.path| <= t.hr + 1 && End(t.path) in t.store
    ensures Rests(c, t) <==> t.store[End(t.path)].ovfl == [] && (|t.path| > 1 ==>
      c.KindAt(t.hr + 1 - |t.path|).u - Weight(c.KindAt(t.hr + 1 - |t.path|), t.store[End(t.path)].cells) <= MinFree(c))
  {
    hide Weight;
  }

  lemma Deepens(c: Config, bBulk: bool, root: nat, a: Turn, store: Store, child: nat)
    requires |a.path| == 1 && child !in a.store && root in a.store
    requires store == a.store[child := a.store[root]][root := Page([], child, 0, [])]
    ensures Turns(c, bBulk, root, a, Turn(store, a.hr + 1, [root, child], [0]))
  {
  }

  lemma Ups(c: Config, bBulk: bool, root: nat, a: Turn, mid: Store, b: Turn, store2: Store, parent2: Inner)
    requires |a.idx| + 1 == |a.path| > 1 && b.path == Up(a.path) && b.idx == a.idx[..|a.idx| - 1]
    requires UpBy(c, a.store, a.hr, a.path, End(a.idx), bBulk, mid, store2, parent2) && MayCollapse(root, a, mid, b)
    ensures Turns(c, bBulk, root, a, b)
  {
    hide UpBy, MayCollapse;
  }

  lemma SameSelf(c: Config, key: Body -> int, store: Store, root: nat, hr: nat, path: seq<nat>)
    requires State(c, store, root, hr, path)
    ensures SameTree(c, key, store, hr, store, hr, root)
  {
  }

  lemma StateParts(c: Config, store: Store, root: nat, hr: nat, path: seq<nat>)
    requires State(c, store, root, hr, path)
    ensures 0 < |path| <= hr + 1 && path[0] == root && End(path) in store && root in store && (|path| == 1 ==> path == [root])
    ensures c.Ok() && forall p | p in store :: p < NO_PAGE
  {
  }

  lemma FirstUnused(store: Store, a: seq<nat>)
    requires Unused(store, a) && a != []
    ensures a[0] !in store && a[0] < NO_PAGE
  {
  }

  lemma DeepIdx(store: Store, root: nat, child: nat)
    requires IsChild(store, [root, child], 0)
    ensures IdxOk(store, [root, child], [0])
  {
    assert Up([root, child]) == [root];
  }
}
