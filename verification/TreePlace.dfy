/** A subtree replaced in its place: each page is met once, and what is met around the subtree stays. */
module TreePlace {
  import opened Siblings
  import opened PageNumbers
  import opened Rows
  import opened Trees

  // ---- no page is met twice ----

  ghost predicate Once(store: Store, items: seq<Item<nat>>, h: nat)
    requires Below(store, items, h)
    decreases h, |items|
  {
    items == [] || (OnceUnder(store, items[0], h) && PagesUnder(store, items[0], h) !! Pages(store, items[1..], h) && Once(store, items[1..], h))
  }

  ghost predicate OnceUnder(store: Store, x: Item<nat>, h: nat)
    requires x.Kid? && h > 0 ==> Tree(store, x.kid, h - 1)
    decreases h, 0
  {
    x.Kid? && h > 0 ==>
      var items := PageItems(h == 1, store[x.kid]);
      x.kid !in Pages(store, items, h - 1) && Once(store, items, h - 1)
  }

  lemma {:induction false} PagesConcat(store: Store, a: seq<Item<nat>>, b: seq<Item<nat>>, h: nat)
    requires Below(store, a, h) && Below(store, b, h)
    ensures Below(store, a + b, h) && Pages(store, a + b, h) == Pages(store, a, h) + Pages(store, b, h)
    decreases |a|
  {
    hide PagesUnder, Tree;
    if a == [] {
      assert a + b == b;
    } else {
      PagesConcat(store, a[1..], b, h);
      assert (a + b)[1..] == a[1..] + b;
    }
  }

  lemma {:induction false} OnceConcat(store: Store, a: seq<Item<nat>>, b: seq<Item<nat>>, h: nat)
    requires Below(store, a, h) && Below(store, b, h)
    ensures Below(store, a + b, h)
    ensures Once(store, a + b, h) <==> Once(store, a, h) && Once(store, b, h) && Pages(store, a, h) !! Pages(store, b, h)
    decreases |a|
  {
    hide PagesUnder, Tree, OnceUnder;
    if a == [] {
      assert a + b == b;
    } else {
      OnceConcat(store, a[1..], b, h);
      PagesConcat(store, a[1..], b, h);
      assert (a + b)[1..] == a[1..] + b;
    }
  }

  /** Stores that agree on the pages below the items. */
  lemma {:induction false} OnceFrame(store: Store, store2: Store, items: seq<Item<nat>>, h: nat)
    requires Below(store, items, h) && SameOn(store, store2, Pages(store, items, h)) && Once(store, items, h)
    ensures Below(store2, items, h) && Once(store2, items, h)
    decreases h, |items|
  {
    hide PageItems, Tree, PagesUnder, OnceUnder;
    WalkFrame(Entries, store, store2, items, h);
    if items != [] {
      assert items == [items[0]] + items[1..];
      OnceFrame(store, store2, items[1..], h);
      WalkFrame(Entries, store, store2, items[1..], h);
      WalkFrameItem(Entries, store, store2, items[0], h);
      OnceFrameItem(store, store2, items[0], h);
    }
  }

  lemma {:induction false} OnceFrameItem(store: Store, store2: Store, x: Item<nat>, h: nat)
    requires x.Kid? && h > 0 ==> Tree(store, x.kid, h - 1)
    requires SameOn(store, store2, PagesUnder(store, x, h)) && OnceUnder(store, x, h)
    ensures x.Kid? && h > 0 ==> Tree(store2, x.kid, h - 1)
    ensures OnceUnder(store2, x, h)
    decreases h, 0
  {
    hide PageItems, Walk, Pages, Below, Once;
    if x.Kid? && h > 0 {
      assert x.kid in PagesUnder(store, x, h);
      WalkFrame(Entries, store, store2, PageItems(h == 1, store[x.kid]), h - 1);
      OnceFrame(store, store2, PageItems(h == 1, store[x.kid]), h - 1);
    }
  }

  // ---- the children of a parent ----

  /** The pages below a row of children: they and what is below them. */
  lemma {:induction false} KidsPages(store: Store, kids: seq<nat>, divs: seq<Body>, h: nat)
    requires |kids| == |divs| + 1 && Rooted(store, kids, h)
    ensures Below(store, KidItems(kids, divs), h + 1)
    ensures Pages(store, KidItems(kids, divs), h + 1) == SetOf(kids) + LowerPages(store, kids, h)
    decreases |kids|
  {
    hide Tree, Below, PageItems, Pages, Walk, RowWalk;
    KidsWalk(Entries, store, kids, divs, h);
    HeadTree(store, kids, h);
    OneKid(store, kids[0], h);
    if |kids| == 1 {
      assert KidItems(kids, divs) == [Kid(kids[0])];
      assert kids == [kids[0]] && kids[1..] == [];
    } else {
      KidsPages(store, kids[1..], divs[1..], h);
      OneEntry(store, divs[0], h + 1);
      PagesConcat(store, [Kid(kids[0])], [Entry(divs[0])], h + 1);
      PagesConcat(store, [Kid(kids[0])] + [Entry(divs[0])], KidItems(kids[1..], divs[1..]), h + 1);
      assert KidItems(kids, divs) == [Kid(kids[0])] + [Entry(divs[0])] + KidItems(kids[1..], divs[1..]);
      assert SetOf(kids) == {kids[0]} + SetOf(kids[1..]);
    }
  }

  /** What is below the children. */
  ghost function LowerPages(store: Store, kids: seq<nat>, h: nat): set<nat>
    requires Rooted(store, kids, h)
    decreases |kids|
  {
    if kids == [] then {} else (HeadTree(store, kids, h); Pages(store, PageItems(h == 0, store[kids[0]]), h) + LowerPages(store, kids[1..], h))
  }

  lemma HeadTree(store: Store, kids: seq<nat>, h: nat)
    requires kids != [] && Rooted(store, kids, h)
    ensures Tree(store, kids[0], h) && Rooted(store, kids[1..], h)
  {
    assert Tree(store, kids[0], h);
  }

  lemma OneKid(store: Store, p: nat, h: nat)
    requires Tree(store, p, h)
    ensures Below(store, [Kid(p)], h + 1) && Pages(store, [Kid(p)], h + 1) == {p} + Pages(store, PageItems(h == 0, store[p]), h)
    ensures Once(store, [Kid(p)], h + 1) <==> p !in Pages(store, PageItems(h == 0, store[p]), h) && Once(store, PageItems(h == 0, store[p]), h)
  {
    hide PageItems;
    var x: Item<nat> := Kid(p);
    assert [x][1..] == [];
    assert Pages(store, [], h + 1) == {} && Once(store, [], h + 1);
  }

  lemma OneEntry(store: Store, b: Body, h: nat)
    ensures Below(store, [Entry(b)], h) && Pages(store, [Entry(b)], h) == {} && Once(store, [Entry(b)], h)
  {
    var x: Item<nat> := Entry(b);
    assert [x][1..] == [];
    assert Pages(store, [], h) == {} && Once(store, [], h);
  }

  /** No page is met twice below the children. */
  ghost predicate OnceLower(store: Store, kids: seq<nat>, h: nat)
    requires Rooted(store, kids, h)
    decreases |kids|
  {
    kids == [] || (HeadTree(store, kids, h);
      && Once(store, PageItems(h == 0, store[kids[0]]), h)
      && Pages(store, PageItems(h == 0, store[kids[0]]), h) !! LowerPages(store, kids[1..], h)
      && OnceLower(store, kids[1..], h))
  }

  lemma {:induction false} OnceKids(store: Store, kids: seq<nat>, divs: seq<Body>, h: nat)
    requires |kids| == |divs| + 1 && Rooted(store, kids, h)
    ensures Below(store, KidItems(kids, divs), h + 1)
    ensures Once(store, KidItems(kids, divs), h + 1) <==> Distinct(kids) && SetOf(kids) !! LowerPages(store, kids, h) && OnceLower(store, kids, h)
    decreases |kids|
  {
    hide Tree, Below, PageItems, Pages, Walk, RowWalk, Once, Distinct, SetOf;
    KidsWalk(Entries, store, kids, divs, h);
    HeadTree(store, kids, h);
    OneKid(store, kids[0], h);
    DistinctHead(kids);
    if |kids| == 1 {
      assert KidItems(kids, divs) == [Kid(kids[0])];
      assert kids[1..] == [];
    } else {
      OnceKids(store, kids[1..], divs[1..], h);
      KidsPages(store, kids[1..], divs[1..], h);
      OneEntry(store, divs[0], h + 1);
      OnceConcat(store, [Entry(divs[0])], KidItems(kids[1..], divs[1..]), h + 1);
      PagesConcat(store, [Entry(divs[0])], KidItems(kids[1..], divs[1..]), h + 1);
      OnceConcat(store, [Kid(kids[0])], [Entry(divs[0])] + KidItems(kids[1..], divs[1..]), h + 1);
      assert KidItems(kids, divs) == [Kid(kids[0])] + ([Entry(divs[0])] + KidItems(kids[1..], divs[1..]));
    }
  }

  lemma DistinctHead(kids: seq<nat>)
    requires kids != []
    ensures Distinct(kids) <==> kids[0] !in SetOf(kids[1..]) && Distinct(kids[1..])
    ensures SetOf(kids) == {kids[0]} + SetOf(kids[1..])
    ensures |kids| == 1 ==> SetOf(kids[1..]) == {} && Distinct(kids)
  {
    assert kids == [kids[0]] + kids[1..];
    if kids[0] !in SetOf(kids[1..]) && Distinct(kids[1..]) {
      forall i, j | 0 <= i < j < |kids| ensures kids[i] != kids[j] {
        assert kids[j] == kids[1..][j - 1];
        if i > 0 { assert kids[i] == kids[1..][i - 1]; } else { assert kids[1..][j - 1] in SetOf(kids[1..]); }
      }
    }
    if Distinct(kids) {
      forall x | x in kids[1..] ensures x != kids[0] { var j :| 0 <= j < |kids[1..]| && kids[1..][j] == x; assert kids[j + 1] == x; }
      forall i, j | 0 <= i < j < |kids[1..]| ensures kids[1..][i] != kids[1..][j] { assert kids[i + 1] != kids[j + 1]; }
    }
  }

  /** The same of the row of children, with dividers in between. */
  lemma {:induction false} RowOnce(store: Store, kids: seq<nat>, divs: seq<Body>, h: nat)
    requires |kids| == |divs| + 1 && Rooted(store, kids, h)
    ensures (forall i | 0 <= i < |kids| :: kids[i] in store) && Row(Fetched(store, kids), divs)
    ensures var r := RowItems(h == 0, Fetched(store, kids), divs);
      Below(store, r, h) && Pages(store, r, h) == LowerPages(store, kids, h) && (Once(store, r, h) <==> OnceLower(store, kids, h))
    decreases |kids|
  {
    hide Tree, PageItems, Pages, Once, RowItems, Row, Below;
    FetchedRow(store, kids, divs, h);
    HeadTree(store, kids, h);
    var pages := Fetched(store, kids);
    if |kids| == 1 {
      RowOne(h == 0, pages, divs);
      assert kids[1..] == [];
    } else {
      RowOnce(store, kids[1..], divs[1..], h);
      assert pages[1..] == Fetched(store, kids[1..]);
      RowTwo(h == 0, pages, divs);
      var a, e, r := PageItems(h == 0, pages[0]), [Entry(divs[0])], RowItems(h == 0, pages[1..], divs[1..]);
      OneEntry(store, divs[0], h);
      PagesConcat(store, a, e, h);
      PagesConcat(store, a + e, r, h);
      OnceConcat(store, a, e, h);
      OnceConcat(store, a + e, r, h);
    }
  }

  // ---- a subtree in its place ----

  /** The way from one of the items down to a page, |path| levels below them. */
  ghost predicate PathTo(store: Store, items: seq<Item<nat>>, h: nat, path: seq<nat>)
    requires Below(store, items, h)
    decreases |path|
  {
    && 0 < |path| <= h && Kid(path[0]) in items && Tree(store, path[0], h - 1)
    && (|path| > 1 ==> PathTo(store, PageItems(h == 1, store[path[0]]), h - 1, path[1..]))
  }

  function End(path: seq<nat>): nat
    requires path != []
  {
    path[|path| - 1]
  }

  ghost function Met0(v: View, store: Store, q: nat, g: nat): seq<Met>
    requires Tree(store, q, g)
  {
    Walk(v, store, PageItems(g == 0, store[q]), g)
  }

  ghost function Lower(store: Store, q: nat, g: nat): set<nat>
    requires Tree(store, q, g)
  {
    Pages(store, PageItems(g == 0, store[q]), g)
  }

  ghost predicate OnceBelow(store: Store, q: nat, g: nat)
    requires Tree(store, q, g)
  {
    q !in Lower(store, q, g) && Once(store, PageItems(g == 0, store[q]), g)
  }

  /** Only page q and the pages below it change; pages that come new below it have unused numbers. */
  ghost predicate LocalChange(store: Store, store2: Store, q: nat, g: nat) {
    && Tree(store, q, g) && Tree(store2, q, g) && OnceBelow(store2, q, g)
    && (forall p | p in Lower(store2, q, g) :: p in Lower(store, q, g) || p !in store)
    && (forall p | p in store && p != q && p !in Lower(store, q, g) :: p in store2 && store2[p] == store[p])
  }

  /** The changed pages lie below the items. */
  lemma {:induction false} PathIn(store: Store, items: seq<Item<nat>>, h: nat, path: seq<nat>)
    requires Below(store, items, h) && PathTo(store, items, h, path)
    ensures Tree(store, End(path), h - |path|)
    ensures End(path) in Pages(store, items, h) && Lower(store, End(path), h - |path|) <= Pages(store, items, h)
    decreases |path|
  {
    hide PageItems, Once, Pages;
    var i :| 0 <= i < |items| && items[i] == Kid(path[0]);
    Part(store, items, h, i);
    OneKid(store, path[0], h - 1);
    if |path| > 1 {
      PathIn(store, PageItems(h == 1, store[path[0]]), h - 1, path[1..]);
      assert End(path[1..]) == End(path);
    }
  }

  /** The items before, at and after place i. */
  lemma Part(store: Store, items: seq<Item<nat>>, h: nat, i: nat)
    requires Below(store, items, h) && i < |items|
    ensures Below(store, items[..i], h) && Below(store, [items[i]], h) && Below(store, items[i + 1..], h) && Below(store, [items[i]] + items[i + 1..], h)
    ensures items == items[..i] + ([items[i]] + items[i + 1..])
    ensures Pages(store, items, h) == Pages(store, items[..i], h) + (Pages(store, [items[i]], h) + Pages(store, items[i + 1..], h))
    ensures Once(store, items, h) <==> (Once(store, items[..i], h) && Once(store, [items[i]], h) && Once(store, items[i + 1..], h)
      && Pages(store, items[..i], h) !! (Pages(store, [items[i]], h) + Pages(store, items[i + 1..], h))
      && Pages(store, [items[i]], h) !! Pages(store, items[i + 1..], h))
  {
    hide Tree, Pages, Once;
    var a, x, b := items[..i], [items[i]], items[i + 1..];
    forall y | y in x + b ensures y in items { if y in x { assert y == items[i]; } }
    assert forall y | y in a :: y in items;
    assert forall y | y in b :: y in items;
    assert items == a + (x + b);
    PagesConcat(store, x, b, h);
    PagesConcat(store, a, x + b, h);
    OnceConcat(store, x, b, h);
    OnceConcat(store, a, x + b, h);
  }

  /** Items with no changed page below them. */
  lemma Aside(v: View, store: Store, store2: Store, items: seq<Item<nat>>, h: nat, q: nat, g: nat)
    requires Below(store, items, h) && Once(store, items, h) && LocalChange(store, store2, q, g)
    requires q !in Pages(store, items, h) && Lower(store, q, g) !! Pages(store, items, h)
    ensures Below(store2, items, h) && Once(store2, items, h)
    ensures Walk(v, store2, items, h) == Walk(v, store, items, h) && Pages(store2, items, h) == Pages(store, items, h)
  {
    hide Tree, Pages, Once, Walk, PageItems, Below, OnceBelow;
    assert SameOn(store, store2, Pages(store, items, h));
    WalkFrame(v, store, store2, items, h);
    OnceFrame(store, store2, items, h);
  }

  /** Everything below the items stays as it is, but for what is met below the changed page. */
  lemma {:induction false} Replace(v: View, store: Store, store2: Store, items: seq<Item<nat>>, h: nat, path: seq<nat>) returns (f: seq<Met>, b: seq<Met>)
    requires Below(store, items, h) && Once(store, items, h) && PathTo(store, items, h, path)
    requires LocalChange(store, store2, End(path), h - |path|)
    ensures Below(store2, items, h) && Once(store2, items, h)
    ensures forall p | p in Pages(store2, items, h) :: p in Pages(store, items, h) || p !in store
    ensures Walk(v, store, items, h) == f + (Met0(v, store, End(path), h - |path|) + b)
    ensures Walk(v, store2, items, h) == f + (Met0(v, store2, End(path), h - |path|) + b)
    decreases |path|, 1
  {
    hide Tree, Pages, Once, Walk, PageItems, Below, LocalChange, Met0, Lower;
    var i := PlaceOfKid(items, path[0]);
    Part(store, items, h, i);
    var l, x, r := items[..i], [items[i]], items[i + 1..];
    OnePath(store, items, x, h, path);
    PathIn(store, x, h, path);
    Aside(v, store, store2, l, h, End(path), h - |path|);
    Aside(v, store, store2, r, h, End(path), h - |path|);
    var f1, b1 := ReplaceKid(v, store, store2, h, path);
    WalkConcat(v, store, x, r, h);
    WalkConcat(v, store, l, x + r, h);
    WalkConcat(v, store2, x, r, h);
    WalkConcat(v, store2, l, x + r, h);
    JoinedBack(store2, l, x, r, h);
    Part(store2, items, h, i);
    f, b := Walk(v, store, l, h) + f1, b1 + Walk(v, store, r, h);
    FarPages(store, store2, l, x, r, h);
  }

  lemma PlaceOfKid(items: seq<Item<nat>>, p: nat) returns (i: nat)
    requires Kid(p) in items
    ensures i < |items| && items[i] == Kid(p)
  {
    i :| 0 <= i < |items| && items[i] == Kid(p);
  }

  lemma OnePath(store: Store, items: seq<Item<nat>>, x: seq<Item<nat>>, h: nat, path: seq<nat>)
    requires Below(store, items, h) && Below(store, x, h) && PathTo(store, items, h, path) && x == [Kid(path[0])]
    ensures PathTo(store, x, h, path)
  {
    hide Tree;
  }

  lemma JoinedBack(store2: Store, l: seq<Item<nat>>, x: seq<Item<nat>>, r: seq<Item<nat>>, h: nat)
    requires Below(store2, l, h) && Below(store2, x, h) && Below(store2, r, h)
    ensures Below(store2, l + (x + r), h)
  {
    hide Tree;
  }

  /** Numbers that come new are in none of the parts that stay. */
  lemma FarPages(store: Store, store2: Store, l: seq<Item<nat>>, x: seq<Item<nat>>, r: seq<Item<nat>>, h: nat)
    requires Below(store, l, h) && Below(store, x, h) && Below(store, r, h)
    requires Below(store2, l, h) && Below(store2, x, h) && Below(store2, r, h)
    requires Pages(store2, l, h) == Pages(store, l, h) && Pages(store2, r, h) == Pages(store, r, h)
    requires forall p | p in Pages(store2, x, h) :: p in Pages(store, x, h) || p !in store
    requires Pages(store, l, h) !! (Pages(store, x, h) + Pages(store, r, h)) && Pages(store, x, h) !! Pages(store, r, h)
    ensures Pages(store2, l, h) !! (Pages(store2, x, h) + Pages(store2, r, h)) && Pages(store2, x, h) !! Pages(store2, r, h)
  {
    hide Tree, Below, Pages;
    PagesInStore(store, l, h);
    PagesInStore(store, r, h);
  }

  lemma {:induction false} ReplaceKid(v: View, store: Store, store2: Store, h: nat, path: seq<nat>) returns (f: seq<Met>, b: seq<Met>)
    requires path != [] && Below(store, [Kid(path[0])], h) && Once(store, [Kid(path[0])], h) && PathTo(store, [Kid(path[0])], h, path)
    requires LocalChange(store, store2, End(path), h - |path|)
    ensures Below(store2, [Kid(path[0])], h) && Once(store2, [Kid(path[0])], h)
    ensures forall p | p in Pages(store2, [Kid(path[0])], h) :: p in Pages(store, [Kid(path[0])], h) || p !in store
    ensures Walk(v, store, [Kid(path[0])], h) == f + (Met0(v, store, End(path), h - |path|) + b)
    ensures Walk(v, store2, [Kid(path[0])], h) == f + (Met0(v, store2, End(path), h - |path|) + b)
    decreases |path|, 0
  {
    hide Pages, Once, Walk, PageItems, Below;
    var p := path[0];
    OneKid(store, p, h - 1);
    KidWalk(v, store, p, h - 1);
    if |path| == 1 {
      OneKid(store2, p, h - 1);
      KidWalk(v, store2, p, h - 1);
      f, b := [], [];
      Empties(Met0(v, store, p, h - 1));
      Empties(Met0(v, store2, p, h - 1));
    } else {
      var items := PageItems(h == 1, store[p]);
      assert End(path[1..]) == End(path);
      PathIn(store, items, h - 1, path[1..]);
      f, b := Replace(v, store, store2, items, h - 1, path[1..]);
      OneKid(store2, p, h - 1);
      KidWalk(v, store2, p, h - 1);
    }
  }

  lemma Empties(s: seq<Met>)
    ensures s == [] + (s + [])
  {
  }
}
