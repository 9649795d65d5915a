/** The order of keys, with the interior cells of a table as signposts, and why it outlasts a rebalancing. */
module Signposts {
  import opened Siblings
  import opened Balance
  import opened PageNumbers
  import opened Trees
  import opened Families

  /** x comes before y: keys of data ascend, and a signpost is no less than the data before it and less than that after it. */
  ghost predicate Apart(x: Met, y: Met, key: Body -> int) {
    match y
    case Data(b) => key(x.body) < key(b)
    case Post(b) => x.Post? || key(x.body) <= key(b)
  }

  ghost predicate Separated(s: seq<Met>, key: Body -> int) { forall i, j | 0 <= i < j < |s| :: Apart(s[i], s[j], key) }

  ghost predicate Ahead(a: seq<Met>, b: seq<Met>, key: Body -> int) { forall x, y | x in a && y in b :: Apart(x, y, key) }

  function SearchView(data: bool): View { if data then Entries else WithPosts }

  /** All that is met below the items is in order: the entries and, in a table, its signposts. */
  ghost predicate Searchable(data: bool, store: Store, items: seq<Item<nat>>, h: nat, key: Body -> int) {
    Below(store, items, h) && Separated(Walk(SearchView(data), store, items, h), key)
  }

  /** A divider made from a cell has the key of the cell. */
  ghost predicate KeepsKey(k: Kind, key: Body -> int) { forall b :: key(k.divider(b)) == key(b) }

  lemma SeparatedConcat(a: seq<Met>, b: seq<Met>, key: Body -> int)
    ensures Separated(a + b, key) <==> Separated(a, key) && Separated(b, key) && Ahead(a, b, key)
  {
    hide Apart;
    var s := a + b;
    if Separated(s, key) {
      forall x, y | x in a && y in b ensures Apart(x, y, key) {
        var i :| 0 <= i < |a| && a[i] == x;
        var j :| 0 <= j < |b| && b[j] == y;
        assert s[i] == x && s[|a| + j] == y;
      }
      forall i, j | 0 <= i < j < |a| ensures Apart(a[i], a[j], key) { assert s[i] == a[i] && s[j] == a[j]; }
      forall i, j | 0 <= i < j < |b| ensures Apart(b[i], b[j], key) { assert s[|a| + i] == b[i] && s[|a| + j] == b[j]; }
    }
    if Separated(a, key) && Separated(b, key) && Ahead(a, b, key) {
      forall i, j | 0 <= i < j < |s| ensures Apart(s[i], s[j], key) {
        if j < |a| { assert s[i] == a[i]; } else if i < |a| { assert s[i] in a && s[j] in b; } else { assert s[i] == b[i - |a|] && s[j] == b[j - |a|]; }
      }
    }
  }

  /** A signpost made from data in s. */
  ghost predicate FromData(k: Kind, s: seq<Met>, y: Met) { y.Post? && exists z :: z in s && z.Data? && y.body == k.divider(z.body) }

  /** Everything in n is in s, or a signpost made from data in s. */
  ghost predicate Drawn(k: Kind, n: seq<Met>, s: seq<Met>) { forall y | y in n :: y in s || FromData(k, s, y) }

  lemma AheadLeft(k: Kind, f: seq<Met>, s: seq<Met>, n: seq<Met>, key: Body -> int)
    requires Ahead(f, s, key) && Drawn(k, n, s) && KeepsKey(k, key)
    ensures Ahead(f, n, key)
  {
    forall x, y | x in f && y in n ensures Apart(x, y, key) {
      if y !in s {
        var z :| z in s && z.Data? && y.body == k.divider(z.body);
        assert Apart(x, z, key) && key(y.body) == key(z.body);
      }
    }
  }

  lemma AheadRight(k: Kind, s: seq<Met>, n: seq<Met>, b: seq<Met>, key: Body -> int)
    requires Ahead(s, b, key) && Drawn(k, n, s) && KeepsKey(k, key)
    ensures Ahead(n, b, key)
  {
    forall x, y | x in n && y in b ensures Apart(x, y, key) {
      if x !in s {
        var z :| z in s && z.Data? && x.body == k.divider(z.body);
        assert Apart(z, y, key) && key(x.body) == key(z.body);
      }
    }
  }

  /** A stretch replaced by one drawn from it. */
  lemma Swap(k: Kind, f: seq<Met>, s: seq<Met>, n: seq<Met>, b: seq<Met>, key: Body -> int)
    requires Separated(f + (s + b), key) && Separated(n, key) && Drawn(k, n, s) && KeepsKey(k, key)
    ensures Separated(f + (n + b), key)
  {
    hide Apart, Separated, Drawn, KeepsKey;
    SeparatedConcat(f, s + b, key);
    SeparatedConcat(s, b, key);
    AheadParts(f, s, b, key);
    AheadLeft(k, f, s, n, key);
    AheadRight(k, s, n, b, key);
    AheadParts(f, n, b, key);
    SeparatedConcat(n, b, key);
    SeparatedConcat(f, n + b, key);
  }

  lemma AheadParts(f: seq<Met>, s: seq<Met>, b: seq<Met>, key: Body -> int)
    ensures Ahead(f, s + b, key) <==> Ahead(f, s, key) && Ahead(f, b, key)
  {
    hide Apart;
    assert forall y :: y in s + b <==> y in s || y in b;
  }

  // ---- the leaves and the dividers between them ----

  /** What is met on a row of leaves, with the dividers as signposts. */
  ghost function Posted(pages: seq<Page<nat>>, divs: seq<Body>): seq<Met>
    requires Row(pages, divs)
    decreases |pages|
  {
    Datas(Loaded(pages[0])) + if |pages| == 1 then [] else [Post(divs[0])] + Posted(pages[1..], divs[1..])
  }

  lemma {:induction false} RowWalkPosts(store: Store, pages: seq<Page<nat>>, divs: seq<Body>)
    requires Row(pages, divs)
    ensures forall i | 0 <= i < |pages| :: Below(store, PageItems(true, pages[i]), 0)
    ensures RowWalk(WithPosts, store, pages, divs, 0) == Posted(pages, divs)
    decreases |pages|
  {
    hide CellItems, Walk, Loaded;
    WalkCells(WithPosts, store, Loaded(pages[0]));
    assert PageItems(true, pages[0]) == CellItems(true, Loaded(pages[0]));
    if |pages| > 1 { RowWalkPosts(store, pages[1..], divs[1..]); }
  }

  ghost function Front(a: seq<Page<nat>>, da: seq<Body>): seq<Met>
    requires |a| == |da| && forall i | 0 <= i < |a| :: a[i].Ok()
  {
    if a == [] then [] else Datas(Loaded(a[0])) + [Post(da[0])] + Front(a[1..], da[1..])
  }

  ghost function Back(b: seq<Page<nat>>, db: seq<Body>): seq<Met>
    requires |b| == |db| && forall i | 0 <= i < |b| :: b[i].Ok()
  {
    if b == [] then [] else [Post(db[0])] + Datas(Loaded(b[0])) + Back(b[1..], db[1..])
  }

  lemma PostedHead(p: Page<nat>, d: Body, y: seq<Page<nat>>, dy: seq<Body>)
    requires p.Ok() && Row(y, dy)
    ensures Row([p] + y, [d] + dy) && Posted([p] + y, [d] + dy) == Datas(Loaded(p)) + [Post(d)] + Posted(y, dy)
  {
    hide Loaded, Datas;
    assert ([p] + y)[1..] == y && ([d] + dy)[1..] == dy;
  }

  lemma {:induction false} FrontRow(a: seq<Page<nat>>, da: seq<Body>, y: seq<Page<nat>>, dy: seq<Body>)
    requires |a| == |da| && (forall i | 0 <= i < |a| :: a[i].Ok()) && Row(y, dy)
    ensures Row(a + y, da + dy) && Posted(a + y, da + dy) == Front(a, da) + Posted(y, dy)
    decreases |a|
  {
    hide Loaded, Datas, Posted, Row;
    if a == [] {
      assert a + y == y && da + dy == dy;
    } else {
      FrontRow(a[1..], da[1..], y, dy);
      PostedHead(a[0], da[0], a[1..] + y, da[1..] + dy);
      assert a + y == [a[0]] + (a[1..] + y) && da + dy == [da[0]] + (da[1..] + dy);
    }
  }

  lemma PostedOne(p: Page<nat>)
    requires p.Ok()
    ensures Row([p], []) && Posted([p], []) == Datas(Loaded(p))
  {
    assert Datas(Loaded(p)) + [] == Datas(Loaded(p));
  }

  lemma {:induction false} BackOne(p: Page<nat>, b: seq<Page<nat>>, db: seq<Body>)
    requires p.Ok() && |b| == |db| && forall i | 0 <= i < |b| :: b[i].Ok()
    ensures Row([p] + b, db) && Posted([p] + b, db) == Datas(Loaded(p)) + Back(b, db)
    decreases |b|
  {
    hide Loaded, Datas, Posted, Row;
    if b == [] {
      PostedOne(p);
      assert [p] + b == [p] && Datas(Loaded(p)) + [] == Datas(Loaded(p));
    } else {
      BackOne(b[0], b[1..], db[1..]);
      PostedHead(p, db[0], [b[0]] + b[1..], db[1..]);
      assert b == [b[0]] + b[1..] && db == [db[0]] + db[1..];
    }
  }

  lemma {:induction false} BackRow(s: seq<Page<nat>>, ds: seq<Body>, b: seq<Page<nat>>, db: seq<Body>)
    requires Row(s, ds) && |b| == |db| && forall i | 0 <= i < |b| :: b[i].Ok()
    ensures Row(s + b, ds + db) && Posted(s + b, ds + db) == Posted(s, ds) + Back(b, db)
    decreases |s|
  {
    hide Loaded, Datas, Posted, Back;
    if |s| == 1 {
      BackOne(s[0], b, db);
      PostedOne(s[0]);
      assert s == [s[0]] && ds == [] && ds + db == db;
    } else {
      BackRow(s[1..], ds[1..], b, db);
      PostedHead(s[0], ds[0], s[1..], ds[1..]);
      PostedHead(s[0], ds[0], s[1..] + b, ds[1..] + db);
      assert s == [s[0]] + s[1..] && ds == [ds[0]] + ds[1..];
      assert s + b == [s[0]] + (s[1..] + b) && ds + db == [ds[0]] + (ds[1..] + db);
    }
  }

  lemma PostedParts(a: seq<Page<nat>>, da: seq<Body>, s: seq<Page<nat>>, ds: seq<Body>, b: seq<Page<nat>>, db: seq<Body>)
    requires |a| == |da| && |b| == |db| && Row(s, ds)
    requires (forall i | 0 <= i < |a| :: a[i].Ok()) && forall i | 0 <= i < |b| :: b[i].Ok()
    ensures Row(a + (s + b), da + (ds + db))
    ensures Posted(a + (s + b), da + (ds + db)) == Front(a, da) + (Posted(s, ds) + Back(b, db))
  {
    hide Posted, Row;
    BackRow(s, ds, b, db);
    FrontRow(a, da, s + b, ds + db);
  }

  lemma DatasConcat(a: seq<Cell<nat>>, b: seq<Cell<nat>>)
    ensures Datas(a + b) == Datas(a) + Datas(b)
  {
  }

  lemma {:induction false} DatasMet(pages: seq<Page<nat>>, divs: seq<Body>)
    requires Row(pages, divs)
    ensures forall x | x in Datas(Joined(pages)) :: x in Posted(pages, divs)
    decreases |pages|
  {
    hide Loaded, Datas;
    var l, j := Datas(Loaded(pages[0])), Joined(pages[1..]);
    DatasConcat(Loaded(pages[0]), j);
    if |pages| > 1 { DatasMet(pages[1..], divs[1..]); } else { DatasConcat(j, []); assert pages[1..] == [] && j == [] && Datas(j) == []; }
  }

  /** Without the signposts the data are still in order. */
  lemma {:induction false} PostedData(pages: seq<Page<nat>>, divs: seq<Body>, key: Body -> int)
    requires Row(pages, divs) && Separated(Posted(pages, divs), key)
    ensures Separated(Datas(Joined(pages)), key)
    decreases |pages|
  {
    hide Loaded, Separated, Datas, Apart;
    var l, j := Datas(Loaded(pages[0])), Joined(pages[1..]);
    DatasConcat(Loaded(pages[0]), j);
    if |pages| > 1 {
      var p := Posted(pages[1..], divs[1..]);
      SeparatedConcat(l, [Post(divs[0])] + p, key);
      SeparatedConcat([Post(divs[0])], p, key);
      PostedData(pages[1..], divs[1..], key);
      DatasMet(pages[1..], divs[1..]);
      assert forall x | x in Datas(j) :: x in [Post(divs[0])] + p;
      SeparatedConcat(l, Datas(j), key);
    } else {
      assert pages[1..] == [] && l + [] == l;
      assert Datas([]) == [];
    }
  }

  lemma OnePost(d: Body, key: Body -> int)
    ensures Separated([Post(d)], key)
  {
  }

  lemma LastGreatest(l: seq<Met>, d: Body, key: Body -> int)
    requires Separated(l, key) && l != [] && (forall x | x in l :: x.Data?) && key(d) == key(l[|l| - 1].body)
    ensures Ahead(l, [Post(d)], key)
  {
    forall x | x in l ensures Apart(x, Post(d), key) {
      var i :| 0 <= i < |l| && l[i] == x;
      if i < |l| - 1 { assert Apart(l[i], l[|l| - 1], key); }
    }
  }

  /** Data, then a divider made from the last of them, then more. */
  lemma LastAhead(k: Kind, l: seq<Met>, d: Body, p: seq<Met>, j: seq<Met>, key: Body -> int)
    requires Separated(l, key) && l != [] && (forall x | x in l :: x.Data?) && d == k.divider(l[|l| - 1].body) && KeepsKey(k, key)
    requires Separated(p, key) && Drawn(k, p, j) && Ahead(l, j, key)
    ensures Separated(l + ([Post(d)] + p), key)
  {
    hide Separated, Drawn;
    var last, post := l[|l| - 1], [Post(d)];
    AheadLeft(k, l, j, p, key);
    forall y | y in p ensures Apart(Post(d), y, key) { assert Apart(last, y, key); }
    LastGreatest(l, d, key);
    OnePost(d, key);
    SeparatedConcat(post, p, key);
    AheadParts(l, post, p, key);
    SeparatedConcat(l, post + p, key);
  }

  lemma LastDrawn(k: Kind, l: seq<Met>, d: Body, p: seq<Met>, j: seq<Met>)
    requires l != [] && (forall x | x in l :: x.Data?) && d == k.divider(l[|l| - 1].body) && Drawn(k, p, j)
    ensures Drawn(k, l + ([Post(d)] + p), l + j)
  {
    forall y | y in l + ([Post(d)] + p) ensures y in l + j || FromData(k, l + j, y) {
      if y == Post(d) {
        assert l[|l| - 1] in l + j;
      } else if y in p && y !in j {
        var z :| z in j && z.Data? && y.body == k.divider(z.body);
        assert z in l + j;
      }
    }
  }

  /** New dividers, each made from the last cell of the page before it. */
  lemma {:induction false} NewDrawn(k: Kind, pages: seq<Page<nat>>, divs: seq<Body>)
    requires Row(pages, divs) && LeafDivs(k, pages, divs) && forall i | 0 <= i < |pages| :: pages[i].ovfl == []
    ensures Drawn(k, Posted(pages, divs), Datas(Joined(pages)))
    decreases |pages|
  {
    hide Loaded, Drawn;
    var l, j := Datas(Loaded(pages[0])), Joined(pages[1..]);
    DatasConcat(Loaded(pages[0]), j);
    if |pages| > 1 {
      NewDrawn(k, pages[1..], divs[1..]);
      LastOf(k, pages[0], divs[0]);
      LastDrawn(k, l, divs[0], Posted(pages[1..], divs[1..]), Datas(j));
    } else {
      assert pages[1..] == [] && l + [] == l && Datas(j) == [];
      OwnDrawn(k, l);
    }
  }

  lemma OwnDrawn(k: Kind, s: seq<Met>)
    ensures Drawn(k, s, s)
  {
  }

  lemma LastOf(k: Kind, p: Page<nat>, d: Body)
    requires p.Ok() && p.ovfl == [] && p.cells != [] && d == k.divider(p.cells[|p.cells| - 1].body)
    ensures var l := Datas(Loaded(p)); l != [] && (forall x | x in l :: x.Data?) && d == k.divider(l[|l| - 1].body)
  {
    assert Loaded(p) == p.cells;
  }

  /** They part the data of the leaves. */
  lemma {:induction false} NewPosted(k: Kind, key: Body -> int, pages: seq<Page<nat>>, divs: seq<Body>)
    requires Row(pages, divs) && LeafDivs(k, pages, divs) && KeepsKey(k, key) && forall i | 0 <= i < |pages| :: pages[i].ovfl == []
    requires Separated(Datas(Joined(pages)), key)
    ensures Separated(Posted(pages, divs), key)
    decreases |pages|
  {
    hide Loaded, Separated, Apart, Ahead, Drawn, KeepsKey;
    var l, j := Datas(Loaded(pages[0])), Joined(pages[1..]);
    DatasConcat(Loaded(pages[0]), j);
    SeparatedConcat(l, Datas(j), key);
    if |pages| > 1 {
      NewPosted(k, key, pages[1..], divs[1..]);
      NewDrawn(k, pages[1..], divs[1..]);
      LastOf(k, pages[0], divs[0]);
      LastAhead(k, l, divs[0], Posted(pages[1..], divs[1..]), Datas(j), key);
    } else {
      assert pages[1..] == [] && l + [] == l && Datas(j) == [];
    }
  }

  /** A row of leaves of which some are replaced by others with the same cells. */
  lemma PostedDrawn(k: Kind, a: seq<Page<nat>>, da: seq<Body>, s: seq<Page<nat>>, ds: seq<Body>,
                    s2: seq<Page<nat>>, ds2: seq<Body>, b: seq<Page<nat>>, db: seq<Body>)
    requires |a| == |da| && |b| == |db| && Row(s, ds) && Row(s2, ds2) && Joined(s2) == Joined(s)
    requires (forall i | 0 <= i < |a| :: a[i].Ok()) && forall i | 0 <= i < |b| :: b[i].Ok()
    requires LeafDivs(k, s2, ds2) && forall i | 0 <= i < |s2| :: s2[i].ovfl == []
    ensures Row(a + (s + b), da + (ds + db)) && Row(a + (s2 + b), da + (ds2 + db))
    ensures Drawn(k, Posted(a + (s2 + b), da + (ds2 + db)), Posted(a + (s + b), da + (ds + db)))
  {
    hide Posted, Joined, Drawn, LeafDivs, Front, Back, Datas;
    PostedParts(a, da, s, ds, b, db);
    PostedParts(a, da, s2, ds2, b, db);
    DatasMet(s, ds);
    NewDrawn(k, s2, ds2);
    DrawnIn(k, Posted(s2, ds2), Datas(Joined(s)), Posted(s, ds));
    DrawnMiddle(k, Front(a, da), Posted(s, ds), Posted(s2, ds2), Back(b, db));
  }

  lemma DrawnMiddle(k: Kind, f: seq<Met>, s: seq<Met>, n: seq<Met>, b: seq<Met>)
    requires Drawn(k, n, s)
    ensures Drawn(k, f + (n + b), f + (s + b))
  {
    forall y | y in f + (n + b) ensures y in f + (s + b) || FromData(k, f + (s + b), y) {
      if y in n && y !in s {
        var z :| z in s && z.Data? && y.body == k.divider(z.body);
        assert z in f + (s + b);
      }
    }
  }

  lemma DrawnIn(k: Kind, n: seq<Met>, j: seq<Met>, s: seq<Met>)
    requires Drawn(k, n, j) && forall x | x in j :: x in s
    ensures Drawn(k, n, s)
  {
    forall y | y in n && y !in s ensures FromData(k, s, y) {
      var z :| z in j && z.Data? && y.body == k.divider(z.body);
      assert z in s;
    }
  }

  /** Its keys stay in order. */
  lemma PostedSwap(k: Kind, key: Body -> int, a: seq<Page<nat>>, da: seq<Body>, s: seq<Page<nat>>, ds: seq<Body>,
                   s2: seq<Page<nat>>, ds2: seq<Body>, b: seq<Page<nat>>, db: seq<Body>)
    requires |a| == |da| && |b| == |db| && Row(s, ds) && Row(s2, ds2) && Joined(s2) == Joined(s)
    requires (forall i | 0 <= i < |a| :: a[i].Ok()) && forall i | 0 <= i < |b| :: b[i].Ok()
    requires LeafDivs(k, s2, ds2) && KeepsKey(k, key) && forall i | 0 <= i < |s2| :: s2[i].ovfl == []
    requires Row(a + (s + b), da + (ds + db)) && Separated(Posted(a + (s + b), da + (ds + db)), key)
    ensures Row(a + (s2 + b), da + (ds2 + db)) && Separated(Posted(a + (s2 + b), da + (ds2 + db)), key)
  {
    hide Posted, Joined, Separated, Drawn, LeafDivs, Front, Back, KeepsKey, Datas;
    PostedParts(a, da, s, ds, b, db);
    PostedParts(a, da, s2, ds2, b, db);
    SeparatedConcat(Front(a, da), Posted(s, ds) + Back(b, db), key);
    SeparatedConcat(Posted(s, ds), Back(b, db), key);
    PostedData(s, ds, key);
    NewPosted(k, key, s2, ds2);
    DatasMet(s, ds);
    NewDrawn(k, s2, ds2);
    DrawnIn(k, Posted(s2, ds2), Datas(Joined(s)), Posted(s, ds));
    Swap(k, Front(a, da), Posted(s, ds), Posted(s2, ds2), Back(b, db), key);
  }

  // ---- the parent ----

  /** The cells of the parent still lead a search right. */
  lemma SearchableChange(c: Change, k: Kind, key: Body -> int)
    requires c.Ok() && Searchable(c.data, c.store, KidItems(c.Kids(), c.Divs()), c.h + 1, key)
    requires c.h == 0 && !c.data ==> LeafDivs(k, c.pages, c.ds2) && KeepsKey(k, key) && forall i | 0 <= i < |c.pages| :: c.pages[i].ovfl == []
    ensures Searchable(c.data, c.store2, KidItems(c.Kids2(), c.Divs2()), c.h + 1, key)
  {
    hide Distinct, RowItems, Joined, Fetched, Walk, Pages, PageItems, Row, Restored, KidItems, RowWalk, Separated, Posted, LeafDivs, KeepsKey, Family;
    if c.h > 0 || c.data {
      ChangeWalk(c, SearchView(c.data));
    } else {
      PostedChange(c, k, key);
    }
  }

  /** What is met below the parent was met before, or is a signpost made from it. */
  lemma DrawnChange(c: Change, k: Kind)
    requires c.Ok()
    requires c.h == 0 && !c.data ==> LeafDivs(k, c.pages, c.ds2) && forall i | 0 <= i < |c.pages| :: c.pages[i].ovfl == []
    ensures Below(c.store, KidItems(c.Kids(), c.Divs()), c.h + 1) && Below(c.store2, KidItems(c.Kids2(), c.Divs2()), c.h + 1)
    ensures Drawn(k, Walk(SearchView(c.data), c.store2, KidItems(c.Kids2(), c.Divs2()), c.h + 1),
                  Walk(SearchView(c.data), c.store, KidItems(c.Kids(), c.Divs()), c.h + 1))
  {
    hide Distinct, RowItems, Joined, Fetched, Walk, Pages, PageItems, Row, Restored, KidItems, RowWalk, Drawn, Posted, LeafDivs, Family;
    if c.h > 0 || c.data {
      ChangeWalk(c, SearchView(c.data));
      OwnDrawn(k, Walk(SearchView(c.data), c.store, KidItems(c.Kids(), c.Divs()), c.h + 1));
    } else {
      PostedWalks(c);
      PostedDrawn(k, Fetched(c.store, c.a), c.da, Fetched(c.store, c.s), c.ds, c.pages, c.ds2, Fetched(c.store, c.b), c.db);
    }
  }

  /** The walks of a table's leaves, with the dividers as signposts. */
  lemma PostedWalks(c: Change)
    requires c.Ok() && c.h == 0
    ensures AllIn(c.store, c.Kids()) && AllIn(c.store2, c.Kids2()) && AllIn(c.store, c.a) && AllIn(c.store, c.s) && AllIn(c.store, c.b)
    ensures Fetched(c.store, c.Kids()) == Fetched(c.store, c.a) + (Fetched(c.store, c.s) + Fetched(c.store, c.b))
    ensures Fetched(c.store2, c.Kids2()) == Fetched(c.store, c.a) + (c.pages + Fetched(c.store, c.b))
    ensures |c.a| == |c.da| && |c.b| == |c.db|
    ensures (forall i | 0 <= i < |c.a| :: c.store[c.a[i]].Ok()) && forall i | 0 <= i < |c.b| :: c.store[c.b[i]].Ok()
    ensures Row(Fetched(c.store, c.Kids()), c.Divs()) && Row(Fetched(c.store2, c.Kids2()), c.Divs2())
    ensures Below(c.store, KidItems(c.Kids(), c.Divs()), 1) && Below(c.store2, KidItems(c.Kids2(), c.Divs2()), 1)
    ensures Walk(WithPosts, c.store, KidItems(c.Kids(), c.Divs()), 1) == Posted(Fetched(c.store, c.Kids()), c.Divs())
    ensures Walk(WithPosts, c.store2, KidItems(c.Kids2(), c.Divs2()), 1) == Posted(Fetched(c.store2, c.Kids2()), c.Divs2())
  {
    hide Distinct, RowItems, Joined, Fetched, Walk, Pages, PageItems, Row, Restored, KidItems, RowWalk, Posted, Family;
    ChangeParts(c);
    ChangeRooted(c);
    NewRow(c);
    FamilyRooted(c);
    KidsWalk(WithPosts, c.store, c.Kids(), c.Divs(), 0);
    KidsWalk(WithPosts, c.store2, c.Kids2(), c.Divs2(), 0);
    RowWalkPosts(c.store, Fetched(c.store, c.Kids()), c.Divs());
    RowWalkPosts(c.store2, Fetched(c.store2, c.Kids2()), c.Divs2());
  }

  lemma PostedChange(c: Change, k: Kind, key: Body -> int)
    requires c.Ok() && !c.data && c.h == 0 && Searchable(false, c.store, KidItems(c.Kids(), c.Divs()), 1, key)
    requires LeafDivs(k, c.pages, c.ds2) && KeepsKey(k, key) && forall i | 0 <= i < |c.pages| :: c.pages[i].ovfl == []
    ensures Searchable(false, c.store2, KidItems(c.Kids2(), c.Divs2()), 1, key)
  {
    hide Distinct, RowItems, Joined, Fetched, Walk, Pages, PageItems, Row, Restored, KidItems, RowWalk, Separated, Posted, LeafDivs, KeepsKey, Family;
    PostedWalks(c);
    PostedSwap(k, key, Fetched(c.store, c.a), c.da, Fetched(c.store, c.s), c.ds, c.pages, c.ds2, Fetched(c.store, c.b), c.db);
  }

  lemma FamilyRooted(c: Change)
    requires c.Ok()
    ensures |c.Kids()| == |c.Divs()| + 1 && Rooted(c.store, c.Kids(), c.h)
  {
    hide Distinct, RowItems, Joined, Restored, Rooted;
  }
}
