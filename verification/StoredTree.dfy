/** A tree of pages in a store as the tree a cursor moves in. */
module StoredTree {
  import opened Siblings
  import opened Trees
  import opened Signposts
  import CT = CursorTree
  import Search

  ghost function Keys(bs: seq<Body>, key: Body -> int): (r: seq<int>)
    ensures |r| == |bs| && forall i | 0 <= i < |r| :: r[i] == key(bs[i])
  {
    seq(|bs|, i requires 0 <= i < |bs| => key(bs[i]))
  }

  /** The children of an interior page. */
  ghost function Children(p: Page<nat>): (r: seq<nat>)
    requires p.Ok()
    ensures |r| == |Loaded(p)| + 1
  {
    seq(|Loaded(p)| + 1, i requires 0 <= i <= |Loaded(p)| => if i < |Loaded(p)| then Loaded(p)[i].child else p.right)
  }

  lemma {:induction false} ItemsOf(cs: seq<Cell<nat>>, right: nat, kids: seq<nat>)
    requires |kids| == |cs| + 1 && kids[|cs|] == right && forall i | 0 <= i < |cs| :: kids[i] == cs[i].child
    ensures CellItems(false, cs) + Tail(false, right) == KidItems(kids, Bodies(cs))
    decreases |cs|
  {
    if cs != [] {
      ItemsOf(cs[1..], right, kids[1..]);
      assert Bodies(cs)[1..] == Bodies(cs[1..]);
    }
  }

  lemma ChildrenRooted(store: Store, p: nat, h: nat)
    requires Tree(store, p, h) && h > 0
    ensures PageItems(false, store[p]) == KidItems(Children(store[p]), Bodies(Loaded(store[p])))
    ensures Rooted(store, Children(store[p]), h - 1)
  {
    hide Loaded, Below;
    ItemsOf(Loaded(store[p]), store[p].right, Children(store[p]));
    KidsBelow(store, Children(store[p]), Bodies(Loaded(store[p])), h - 1);
  }

  ghost function PageKeys(store: Store, p: nat, h: nat, key: Body -> int): seq<int>
    requires Tree(store, p, h)
  {
    Keys(Bodies(Loaded(store[p])), key)
  }

  /** The pages below p as nested pages, with their keys. */
  ghost function NodeOf(store: Store, p: nat, h: nat, key: Body -> int): CT.Node
    requires Tree(store, p, h)
    decreases h, 0
  {
    if h == 0 then CT.Leaf(PageKeys(store, p, h, key))
    else (ChildrenRooted(store, p, h); CT.Inner(PageKeys(store, p, h, key), NodesOf(store, Children(store[p]), h - 1, key)))
  }

  ghost function NodesOf(store: Store, kids: seq<nat>, h: nat, key: Body -> int): (r: seq<CT.Node>)
    requires Rooted(store, kids, h)
    ensures |r| == |kids|
    decreases h, 1, |kids|
  {
    if kids == [] then [] else (assert Tree(store, kids[0], h); [NodeOf(store, kids[0], h, key)] + NodesOf(store, kids[1..], h, key))
  }

  // ---- the entries ----

  ghost function DataKeys(s: seq<Met>, key: Body -> int): seq<int> {
    if s == [] then [] else (if s[0].Data? then [key(s[0].body)] else []) + DataKeys(s[1..], key)
  }

  lemma {:induction false} DataKeysConcat(a: seq<Met>, b: seq<Met>, key: Body -> int)
    ensures DataKeys(a + b, key) == DataKeys(a, key) + DataKeys(b, key)
  {
    if a == [] {
      assert a + b == b;
    } else {
      DataKeysConcat(a[1..], b, key);
      assert (a + b)[1..] == a[1..] + b;
    }
  }

  lemma {:induction false} DataKeysLeaf(cs: seq<Cell<nat>>, key: Body -> int)
    ensures DataKeys(Datas(cs), key) == Keys(Bodies(cs), key)
  {
    if cs != [] {
      DataKeysLeaf(cs[1..], key);
      assert Datas(cs)[1..] == Datas(cs[1..]);
      assert Keys(Bodies(cs), key) == [key(cs[0].body)] + Keys(Bodies(cs[1..]), key);
    } else {
      assert Datas(cs) == [] && Keys(Bodies(cs), key) == [];
    }
  }

  lemma {:induction false} DataKeysIn(s: seq<Met>, key: Body -> int, i: nat)
    requires i < |DataKeys(s, key)|
    ensures exists x :: x in s && x.Data? && key(x.body) == DataKeys(s, key)[i]
  {
    if s[0].Data? && i == 0 {
      assert s[0] in s;
    } else {
      DataKeysIn(s[1..], key, if s[0].Data? then i - 1 else i);
    }
  }

  lemma KidsParts(store: Store, kids: seq<nat>, divs: seq<Body>, h: nat)
    requires |kids| == |divs| + 1 > 1 && Rooted(store, kids, h)
    ensures Tree(store, kids[0], h) && Rooted(store, kids[1..], h)
    ensures Below(store, KidItems(kids, divs), h + 1) && Below(store, KidItems(kids[1..], divs[1..]), h + 1)
  {
    hide PageItems, Below, Walk, RowWalk, Row, Tree;
    FirstTree(store, kids, h);
    KidsWalk(Entries, store, kids, divs, h);
    KidsWalk(Entries, store, kids[1..], divs[1..], h);
  }

  ghost function Under(v: View, store: Store, p: nat, h: nat): seq<Met>
    requires Tree(store, p, h)
  {
    Walk(v, store, PageItems(h == 0, store[p]), h)
  }

  /** The walk over the first child, its divider, and the rest. */
  lemma KidsSplit(v: View, store: Store, kids: seq<nat>, divs: seq<Body>, h: nat)
    requires |kids| == |divs| + 1 > 1 && Rooted(store, kids, h) && Tree(store, kids[0], h)
    requires Below(store, KidItems(kids, divs), h + 1) && Below(store, KidItems(kids[1..], divs[1..]), h + 1)
    ensures Walk(v, store, KidItems(kids, divs), h + 1)
         == Under(v, store, kids[0], h) + (Seen(v, divs[0], h + 1) + Walk(v, store, KidItems(kids[1..], divs[1..]), h + 1))
  {
    hide PageItems, Below, Walk, RowWalk, Row;
    FirstTree(store, kids, h);
    KidsWalk(v, store, kids, divs, h);
    KidsWalk(v, store, kids[1..], divs[1..], h);
    assert Fetched(store, kids)[1..] == Fetched(store, kids[1..]);
    RowWalkSplit(v, store, Fetched(store, kids), divs, h);
  }

  lemma FirstTree(store: Store, kids: seq<nat>, h: nat)
    requires kids != [] && Rooted(store, kids, h)
    ensures Tree(store, kids[0], h) && Rooted(store, kids[1..], h)
  {
    assert Tree(store, kids[0], h);
  }

  lemma RowWalkSplit(v: View, store: Store, pages: seq<Page<nat>>, divs: seq<Body>, h: nat)
    requires Row(pages, divs) && |pages| > 1 && forall i | 0 <= i < |pages| :: Below(store, PageItems(h == 0, pages[i]), h)
    ensures RowWalk(v, store, pages, divs, h)
         == Walk(v, store, PageItems(h == 0, pages[0]), h) + (Seen(v, divs[0], h + 1) + RowWalk(v, store, pages[1..], divs[1..], h))
  {
    hide PageItems, Below, Walk;
  }

  lemma KidsOne(v: View, store: Store, kids: seq<nat>, h: nat)
    requires |kids| == 1 && Rooted(store, kids, h)
    ensures Tree(store, kids[0], h) && Below(store, PageItems(h == 0, store[kids[0]]), h) && Below(store, KidItems(kids, []), h + 1)
    ensures Walk(v, store, KidItems(kids, []), h + 1) == Walk(v, store, PageItems(h == 0, store[kids[0]]), h)
  {
    hide PageItems, Walk;
    FirstTree(store, kids, h);
    KidWalk(v, store, kids[0], h);
  }

  lemma LeafWalk(v: View, store: Store, p: nat)
    requires Tree(store, p, 0)
    ensures Walk(v, store, PageItems(true, store[p]), 0) == Datas(Loaded(store[p]))
  {
    hide CellItems, Walk, Loaded;
    WalkCells(v, store, Loaded(store[p]));
    assert PageItems(true, store[p]) == CellItems(true, Loaded(store[p]));
  }

  /** The entries of the nested pages are those met. */
  lemma {:induction false} FlatIs(data: bool, store: Store, p: nat, h: nat, key: Body -> int)
    requires Tree(store, p, h)
    ensures CT.Flat(!data, NodeOf(store, p, h, key)) == DataKeys(Walk(SearchView(data), store, PageItems(h == 0, store[p]), h), key)
    decreases h, 0
  {
    hide Walk, PageItems, KidItems, Loaded;
    if h == 0 {
      LeafWalk(SearchView(data), store, p);
      DataKeysLeaf(Loaded(store[p]), key);
    } else {
      ChildrenRooted(store, p, h);
      FlatKidsIs(data, store, Children(store[p]), Bodies(Loaded(store[p])), h - 1, key);
    }
  }

  lemma {:induction false} FlatKidsIs(data: bool, store: Store, kids: seq<nat>, divs: seq<Body>, h: nat, key: Body -> int)
    requires |kids| == |divs| + 1 && Rooted(store, kids, h)
    ensures Below(store, KidItems(kids, divs), h + 1)
    ensures CT.FlatKids(!data, Keys(divs, key), NodesOf(store, kids, h, key)) == DataKeys(Walk(SearchView(data), store, KidItems(kids, divs), h + 1), key)
    decreases h, 1, |kids|
  {
    hide Walk, PageItems, KidItems, NodeOf, Tree, Below;
    var v := SearchView(data);
    FirstTree(store, kids, h);
    FlatIs(data, store, kids[0], h, key);
    if |kids| == 1 {
      KidsOne(v, store, kids, h);
    } else {
      KidsParts(store, kids, divs, h);
      KidsSplit(v, store, kids, divs, h);
      FlatKidsIs(data, store, kids[1..], divs[1..], h, key);
      assert Keys(divs, key)[1..] == Keys(divs[1..], key);
      var a, s, r := Walk(v, store, PageItems(h == 0, store[kids[0]]), h), Seen(v, divs[0], h + 1), Walk(v, store, KidItems(kids[1..], divs[1..]), h + 1);
      DataKeysConcat(a, s + r, key);
      DataKeysConcat(s, r, key);
      assert s[1..] == [];
    }
  }

  // ---- the order ----

  lemma SeparatedKeys(cs: seq<Cell<nat>>, key: Body -> int)
    requires Separated(Datas(cs), key)
    ensures Search.Increasing(Keys(Bodies(cs), key))
  {
    forall i, j | 0 <= i < j < |cs| ensures Keys(Bodies(cs), key)[i] < Keys(Bodies(cs), key)[j] {
      assert Apart(Datas(cs)[i], Datas(cs)[j], key);
    }
  }

  /** What is met before a divider and after it. */
  lemma DividerParts(data: bool, a: seq<Met>, d: Body, r: seq<Met>, h: nat, key: Body -> int)
    requires Separated(a + (Seen(SearchView(data), d, h + 1) + r), key)
    ensures Separated(a, key) && Separated(r, key)
    ensures if data then Search.Below(DataKeys(a, key), key(d)) else Search.UpTo(DataKeys(a, key), key(d))
    ensures forall x | x in r && x.Data? :: key(d) < key(x.body)
  {
    hide Separated;
    var s := Seen(SearchView(data), d, h + 1);
    SeparatedConcat(a, s + r, key);
    SeparatedConcat(s, r, key);
    AheadParts(a, s, r, key);
    assert s[0] in s;
    forall x | x in r && x.Data? ensures key(d) < key(x.body) { assert Apart(s[0], x, key); }
    forall i | 0 <= i < |DataKeys(a, key)| ensures if data then DataKeys(a, key)[i] < key(d) else DataKeys(a, key)[i] <= key(d) {
      DataKeysIn(a, key, i);
      var x :| x in a && x.Data? && key(x.body) == DataKeys(a, key)[i];
      assert Apart(x, s[0], key);
    }
  }

  ghost predicate Within(s: seq<Met>, r: seq<Met>) { forall x | x in s :: x in r }

  lemma FirstNode(store: Store, kids: seq<nat>, h: nat, key: Body -> int)
    requires kids != [] && Rooted(store, kids, h)
    ensures Tree(store, kids[0], h) && Rooted(store, kids[1..], h) && kids[0] in store && store[kids[0]].Ok()
    ensures NodesOf(store, kids, h, key)[0] == NodeOf(store, kids[0], h, key)
    ensures NodesOf(store, kids, h, key)[1..] == NodesOf(store, kids[1..], h, key)
  {
    hide NodeOf;
    FirstTree(store, kids, h);
  }

  /** The first child after a divider. */
  lemma NextAbove(s: seq<Met>, r: seq<Met>, key: Body -> int, v: int)
    requires Within(s, r) && forall x | x in r && x.Data? :: v < key(x.body)
    ensures Search.Above(DataKeys(s, key), v)
  {
    forall i | 0 <= i < |DataKeys(s, key)| ensures DataKeys(s, key)[i] > v {
      DataKeysIn(s, key, i);
      var x :| x in s && x.Data? && key(x.body) == DataKeys(s, key)[i];
      assert x in r;
    }
  }

  lemma FirstMet(data: bool, store: Store, kids: seq<nat>, divs: seq<Body>, h: nat)
    requires |kids| == |divs| + 1 && Rooted(store, kids, h)
    ensures Tree(store, kids[0], h) && Below(store, PageItems(h == 0, store[kids[0]]), h) && Below(store, KidItems(kids, divs), h + 1)
    ensures Within(Walk(SearchView(data), store, PageItems(h == 0, store[kids[0]]), h), Walk(SearchView(data), store, KidItems(kids, divs), h + 1))
  {
    hide Walk, PageItems, Below, KidItems;
    if |kids| == 1 {
      KidsOne(SearchView(data), store, kids, h);
    } else {
      KidsParts(store, kids, divs, h);
      KidsSplit(SearchView(data), store, kids, divs, h);
    }
  }

  /** In order, the nested pages are as a search needs them. */
  lemma {:induction false} OrdIs(data: bool, store: Store, p: nat, h: nat, key: Body -> int)
    requires Tree(store, p, h) && Searchable(data, store, PageItems(h == 0, store[p]), h, key) && CT.Shape(NodeOf(store, p, h, key))
    ensures Search.Ord(!data, NodeOf(store, p, h, key))
    decreases h, 0
  {
    hide Walk, PageItems, KidItems, Loaded, Separated, CT.Flat;
    if h == 0 {
      LeafWalk(SearchView(data), store, p);
      SeparatedKeys(Loaded(store[p]), key);
    } else {
      ChildrenRooted(store, p, h);
      var kids, divs := Children(store[p]), Bodies(Loaded(store[p]));
      OrdKidsIs(data, store, kids, divs, h - 1, key);
      KeysRise(!data, Keys(divs, key), NodesOf(store, kids, h - 1, key));
    }
  }

  lemma {:induction false} OrdKidsIs(data: bool, store: Store, kids: seq<nat>, divs: seq<Body>, h: nat, key: Body -> int)
    requires |kids| == |divs| + 1 && Rooted(store, kids, h) && Searchable(data, store, KidItems(kids, divs), h + 1, key)
    requires forall i | 0 <= i < |kids| :: CT.Shape(NodesOf(store, kids, h, key)[i])
    ensures Search.OrdKids(!data, Keys(divs, key), NodesOf(store, kids, h, key))
    decreases h, 1, |kids|
  {
    hide Walk, PageItems, KidItems, NodeOf, Tree, Below, Separated, CT.Flat, CT.Shape;
    var v, cs := SearchView(data), NodesOf(store, kids, h, key);
    FirstNode(store, kids, h, key);
    assert CT.Shape(cs[0]);
    FirstMet(data, store, kids, divs, h);
    if |kids| == 1 {
      KidsOne(v, store, kids, h);
      OrdIs(data, store, kids[0], h, key);
    } else {
      KidsParts(store, kids, divs, h);
      KidsSplit(v, store, kids, divs, h);
      var a, r := Walk(v, store, PageItems(h == 0, store[kids[0]]), h), Walk(v, store, KidItems(kids[1..], divs[1..]), h + 1);
      DividerParts(data, a, divs[0], r, h, key);
      OrdIs(data, store, kids[0], h, key);
      FlatIs(data, store, kids[0], h, key);
      forall i | 0 <= i < |kids[1..]| ensures CT.Shape(NodesOf(store, kids[1..], h, key)[i]) { assert cs[i + 1] == NodesOf(store, kids[1..], h, key)[i]; }
      OrdKidsIs(data, store, kids[1..], divs[1..], h, key);
      assert Keys(divs, key)[1..] == Keys(divs[1..], key);
      FirstNode(store, kids[1..], h, key);
      FirstMet(data, store, kids[1..], divs[1..], h);
      FlatIs(data, store, kids[1], h, key);
      NextAbove(Walk(v, store, PageItems(h == 0, store[kids[1]]), h), r, key, key(divs[0]));
    }
  }

  /** The children of a parent with its dividers, as one page over them: what a rebalancing leaves can be searched. */
  lemma ParentOrd(data: bool, store: Store, kids: seq<nat>, divs: seq<Body>, h: nat, key: Body -> int)
    requires |kids| == |divs| + 1 && Rooted(store, kids, h) && Searchable(data, store, KidItems(kids, divs), h + 1, key)
    requires forall i | 0 <= i < |kids| :: CT.Shape(NodesOf(store, kids, h, key)[i])
    ensures Search.Ord(!data, CT.Inner(Keys(divs, key), NodesOf(store, kids, h, key)))
    ensures CT.Flat(!data, CT.Inner(Keys(divs, key), NodesOf(store, kids, h, key)))
         == DataKeys(Walk(SearchView(data), store, KidItems(kids, divs), h + 1), key)
  {
    hide Walk, PageItems, KidItems, NodeOf, Tree, Below, Separated, CT.Shape, CT.FlatKids, Search.OrdKids;
    OrdKidsIs(data, store, kids, divs, h, key);
    KeysRise(!data, Keys(divs, key), NodesOf(store, kids, h, key));
    FlatKidsIs(data, store, kids, divs, h, key);
  }

  lemma {:induction false} KeysRise(table: bool, ks: seq<int>, cs: seq<CT.Node>)
    requires Search.OrdKids(table, ks, cs) && forall i | 0 <= i < |cs| :: CT.Shape(cs[i])
    ensures Search.Increasing(ks)
    decreases |ks|
  {
    hide CT.Flat, Search.Ord, CT.Shape;
    if |ks| > 1 {
      KeysRise(table, ks[1..], cs[1..]);
      CT.NotEmpty(table, cs[1]);
      assert CT.Flat(table, cs[1])[0] > ks[0];
      assert ks[1..][0] == ks[1] && cs[1..][0] == cs[1];
      assert ks[0] < ks[1];
      forall i, j | 0 <= i < j < |ks| ensures ks[i] < ks[j] {
        assert ks[j] == ks[1..][j - 1];
        if i > 0 { assert ks[i] == ks[1..][i - 1]; } else if j > 1 { assert ks[1..][0] < ks[1..][j - 1]; }
      }
    }
  }
}
