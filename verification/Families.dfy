/** Some children of an interior page replaced by others with the same contents: the tree keeps its meaning. */
module Families {
  import opened Siblings
  import opened PageNumbers
  import opened Rows
  import opened Trees

  /** The parent, whose children have height h, is well formed: no page is met twice among and below its children. */
  ghost predicate Family(store: Store, kids: seq<nat>, divs: seq<Body>, h: nat) {
    && |kids| == |divs| + 1 && Rooted(store, kids, h) && Distinct(kids)
    && (forall p | p in store :: p < NO_PAGE)
    && (FetchedRow(store, kids, divs, h);
        RowBelow(store, Fetched(store, kids), divs, h);
        SetOf(kids) !! Pages(store, RowItems(h == 0, Fetched(store, kids), divs), h))
  }

  lemma {:induction false} RowBelow(store: Store, pages: seq<Page<nat>>, divs: seq<Body>, h: nat)
    requires Row(pages, divs) && forall i | 0 <= i < |pages| :: Below(store, PageItems(h == 0, pages[i]), h)
    ensures Below(store, RowItems(h == 0, pages, divs), h)
    decreases |pages|
  {
    hide PageItems, Tree, RowItems;
    if |pages| == 1 {
      RowOne(h == 0, pages, divs);
    } else {
      RowTwo(h == 0, pages, divs);
      RowBelow(store, pages[1..], divs[1..], h);
    }
  }

  lemma {:induction false} BelowRow(store: Store, pages: seq<Page<nat>>, divs: seq<Body>, h: nat)
    requires Row(pages, divs) && Below(store, RowItems(h == 0, pages, divs), h)
    ensures forall i | 0 <= i < |pages| :: Below(store, PageItems(h == 0, pages[i]), h)
    decreases |pages|
  {
    hide PageItems, Tree, RowItems, Row;
    if |pages| == 1 {
      RowOne(h == 0, pages, divs);
    } else {
      RowTwo(h == 0, pages, divs);
      BelowParts(store, PageItems(h == 0, pages[0]) + [Entry(divs[0])], RowItems(h == 0, pages[1..], divs[1..]), h);
      BelowParts(store, PageItems(h == 0, pages[0]), [Entry(divs[0])], h);
      BelowRow(store, pages[1..], divs[1..], h);
      forall i | 0 <= i < |pages| ensures Below(store, PageItems(h == 0, pages[i]), h) {
        if i > 0 { assert pages[i] == pages[1..][i - 1]; }
      }
    }
  }

  lemma BelowParts(store: Store, a: seq<Item<nat>>, b: seq<Item<nat>>, h: nat)
    requires Below(store, a + b, h)
    ensures Below(store, a, h) && Below(store, b, h)
  {
    hide Tree;
    forall x | x in a ensures x in a + b {}
    forall x | x in b ensures x in a + b {}
  }

  /** In store2 the pages s2 stand in place of the pages s; each keeps a number of s or gets an unused one. */
  ghost predicate Restored(store: Store, store2: Store, s: seq<nat>, s2: seq<nat>, pages: seq<Page<nat>>) {
    && |s2| == |pages| && Distinct(s2)
    && (forall i | 0 <= i < |s2| :: s2[i] < NO_PAGE && (s2[i] in s || s2[i] !in store))
    && (forall i | 0 <= i < |s2| :: s2[i] in store2 && store2[s2[i]] == pages[i])
    && (forall p | p in store && p !in s :: p in store2 && store2[p] == store[p])
    && (forall p | p in store2 :: p in s2 || (p in store && p !in s))
  }

  lemma DistinctParts(a: seq<nat>, s: seq<nat>, b: seq<nat>)
    requires Distinct(a + (s + b))
    ensures Distinct(a) && Distinct(b)
    ensures forall i | 0 <= i < |a| :: a[i] !in s && a[i] !in b
    ensures forall i | 0 <= i < |b| :: b[i] !in s
  {
    var k := a + (s + b);
    forall i | 0 <= i < |a| ensures a[i] !in s && a[i] !in b {
      forall j | 0 <= j < |s| ensures a[i] != s[j] { assert k[i] != k[|a| + j]; }
      forall j | 0 <= j < |b| ensures a[i] != b[j] { assert k[i] != k[|a| + |s| + j]; }
    }
    forall i | 0 <= i < |b| ensures b[i] !in s {
      forall j | 0 <= j < |s| ensures b[i] != s[j] { assert k[|a| + |s| + i] != k[|a| + j]; }
    }
    forall i, j | 0 <= i < j < |b| ensures b[i] != b[j] { assert k[|a| + |s| + i] != k[|a| + |s| + j]; }
    forall i, j | 0 <= i < j < |a| ensures a[i] != a[j] { assert k[i] != k[j]; }
  }

  lemma DistinctJoin(store: Store, s: seq<nat>, a: seq<nat>, s2: seq<nat>, b: seq<nat>)
    requires Distinct(a) && Distinct(b) && Distinct(s2)
    requires forall i | 0 <= i < |s2| :: s2[i] in s || s2[i] !in store
    requires forall i | 0 <= i < |a| :: a[i] !in s && a[i] !in b && a[i] in store
    requires forall i | 0 <= i < |b| :: b[i] !in s && b[i] in store
    ensures Distinct(a + (s2 + b))
  {
    forall i | 0 <= i < |s2| ensures s2[i] !in a && s2[i] !in b {}
    forall i | 0 <= i < |a| ensures a[i] !in s2 {}
    forall i | 0 <= i < |b| ensures b[i] !in s2 {}
    var k := a + (s2 + b);
    forall i, j | 0 <= i < j < |k| ensures k[i] != k[j] {
      var m, n := |a|, |a| + |s2|;
      assert k[i] == if i < m then a[i] else if i < n then s2[i - m] else b[i - n];
      assert k[j] == if j < m then a[j] else if j < n then s2[j - m] else b[j - n];
    }
  }

  lemma InParts(a: seq<nat>, s: seq<nat>, b: seq<nat>, p: nat)
    ensures p in a + (s + b) <==> p in a || p in s || p in b
  {
  }

  ghost predicate AllIn(store: Store, k: seq<nat>) { forall i | 0 <= i < |k| :: k[i] in store }

  lemma FetchedConcat(store: Store, a: seq<nat>, s: seq<nat>, b: seq<nat>)
    requires AllIn(store, a) && AllIn(store, s) && AllIn(store, b)
    ensures AllIn(store, a + (s + b))
    ensures Fetched(store, a + (s + b)) == Fetched(store, a) + (Fetched(store, s) + Fetched(store, b))
  {
  }

  lemma SplicedPages(store: Store, store2: Store, a: seq<nat>, s: seq<nat>, s2: seq<nat>, pages: seq<Page<nat>>, b: seq<nat>)
    requires Distinct(a + (s + b)) && Restored(store, store2, s, s2, pages) && AllIn(store, a + (s + b))
    ensures Distinct(a + (s2 + b)) && AllIn(store2, a + (s2 + b))
    ensures AllIn(store, a) && AllIn(store, s) && AllIn(store, b)
    ensures Fetched(store, a + (s + b)) == Fetched(store, a) + (Fetched(store, s) + Fetched(store, b))
    ensures Fetched(store2, a + (s2 + b)) == Fetched(store, a) + (pages + Fetched(store, b))
  {
    hide Distinct, Fetched;
    DistinctParts(a, s, b);
    PartsIn(store, a, s, b);
    DistinctJoin(store, s, a, s2, b);
    FetchedConcat(store, a, s, b);
    Kept(store, store2, s, s2, pages, a);
    Kept(store, store2, s, s2, pages, b);
    FetchedConcat(store2, a, s2, b);
    assert Fetched(store2, s2) == pages;
  }

  lemma PartsIn(store: Store, a: seq<nat>, s: seq<nat>, b: seq<nat>)
    requires AllIn(store, a + (s + b))
    ensures AllIn(store, a) && AllIn(store, s) && AllIn(store, b)
  {
    var k := a + (s + b);
    forall i | 0 <= i < |a| ensures a[i] in store { assert k[i] == a[i]; }
    forall i | 0 <= i < |s| ensures s[i] in store { assert k[|a| + i] == s[i]; }
    forall i | 0 <= i < |b| ensures b[i] in store { assert k[|a| + |s| + i] == b[i]; }
  }

  lemma Kept(store: Store, store2: Store, s: seq<nat>, s2: seq<nat>, pages: seq<Page<nat>>, a: seq<nat>)
    requires Restored(store, store2, s, s2, pages) && AllIn(store, a) && forall i | 0 <= i < |a| :: a[i] !in s
    ensures AllIn(store2, a) && Fetched(store2, a) == Fetched(store, a)
  {
  }

  /** The children s (dividers ds) of a parent, between the children a and b, become the children s2. */
  datatype Change = Change(data: bool, h: nat, store: Store, store2: Store, a: seq<nat>, s: seq<nat>, b: seq<nat>,
                           da: seq<Body>, ds: seq<Body>, db: seq<Body>, s2: seq<nat>, ds2: seq<Body>, pages: seq<Page<nat>>) {
    function Kids(): seq<nat> { a + (s + b) }
    function Divs(): seq<Body> { da + (ds + db) }
    function Kids2(): seq<nat> { a + (s2 + b) }
    function Divs2(): seq<Body> { da + (ds2 + db) }

    ghost predicate Ok() {
      && |a| == |da| && |s| == |ds| + 1 && |b| == |db| && |s2| == |ds2| + 1
      && Family(store, Kids(), Divs(), h) && AllIn(store, s) && Restored(store, store2, s, s2, pages)
      && Row(Fetched(store, s), ds) && Row(pages, ds2)
      && if data || h > 0 then RowItems(h == 0, pages, ds2) == RowItems(h == 0, Fetched(store, s), ds)
         else Joined(pages) == Joined(Fetched(store, s))
    }
  }

  lemma ChangeParts(c: Change)
    requires c.Ok()
    ensures Distinct(c.Kids()) && AllIn(c.store, c.Kids()) && AllIn(c.store, c.a) && AllIn(c.store, c.s) && AllIn(c.store, c.b)
    ensures Distinct(c.Kids2()) && AllIn(c.store2, c.Kids2())
    ensures Fetched(c.store, c.Kids()) == Fetched(c.store, c.a) + (Fetched(c.store, c.s) + Fetched(c.store, c.b))
    ensures Fetched(c.store2, c.Kids2()) == Fetched(c.store, c.a) + (c.pages + Fetched(c.store, c.b))
    ensures Row(Fetched(c.store, c.Kids()), c.Divs())
    ensures |c.a| == |c.da| && |c.b| == |c.db|
    ensures (forall i | 0 <= i < |c.a| :: c.store[c.a[i]].Ok()) && forall i | 0 <= i < |c.b| :: c.store[c.b[i]].Ok()
  {
    hide Distinct, RowItems, Joined, Fetched, Restored;
    FetchedRow(c.store, c.Kids(), c.Divs(), c.h);
    SplicedPages(c.store, c.store2, c.a, c.s, c.s2, c.pages, c.b);
    var k := c.Kids();
    forall i | 0 <= i < |c.a| ensures c.store[c.a[i]].Ok() { assert Tree(c.store, k[i], c.h); }
    forall i | 0 <= i < |c.b| ensures c.store[c.b[i]].Ok() { assert k[|c.a| + |c.s| + i] == c.b[i]; assert Tree(c.store, k[|c.a| + |c.s| + i], c.h); }
  }

  /** The row items of the whole family are the same. */
  lemma ChangeRow(c: Change)
    requires c.Ok() && (c.data || c.h > 0)
    ensures AllIn(c.store, c.Kids()) && AllIn(c.store2, c.Kids2())
    ensures Row(Fetched(c.store, c.Kids()), c.Divs()) && Row(Fetched(c.store2, c.Kids2()), c.Divs2())
    ensures RowItems(c.h == 0, Fetched(c.store2, c.Kids2()), c.Divs2()) == RowItems(c.h == 0, Fetched(c.store, c.Kids()), c.Divs())
  {
    hide Distinct, RowItems, Joined, Fetched, Restored, Family, Row;
    ChangeParts(c);
    RowReplaced(c.h == 0, Fetched(c.store, c.a), c.da, Fetched(c.store, c.s), c.ds, c.pages, c.ds2, Fetched(c.store, c.b), c.db);
  }

  /** So are the cells of the leaves, where these hold all the data. */
  lemma ChangeLeaves(c: Change)
    requires c.Ok() && !c.data && c.h == 0
    ensures AllIn(c.store, c.Kids()) && AllIn(c.store2, c.Kids2())
    ensures Row(Fetched(c.store, c.Kids()), c.Divs()) && Row(Fetched(c.store2, c.Kids2()), c.Divs2())
    ensures Joined(Fetched(c.store2, c.Kids2())) == Joined(Fetched(c.store, c.Kids()))
  {
    hide Distinct, RowItems, Joined, Fetched, Restored, Family;
    ChangeParts(c);
    JoinedParts(Fetched(c.store, c.a), Fetched(c.store, c.s), Fetched(c.store, c.b));
    JoinedParts(Fetched(c.store, c.a), c.pages, Fetched(c.store, c.b));
  }

  /** The items below the family, if its interior entries count or it has grandchildren, are met in store2 as in store. */
  lemma ChangeBelow(c: Change, v: View)
    requires c.Ok() && (c.data || c.h > 0)
    ensures AllIn(c.store, c.Kids()) && Row(Fetched(c.store, c.Kids()), c.Divs())
    ensures var r := RowItems(c.h == 0, Fetched(c.store, c.Kids()), c.Divs());
      && Below(c.store, r, c.h) && Below(c.store2, r, c.h)
      && Walk(v, c.store2, r, c.h) == Walk(v, c.store, r, c.h)
      && Pages(c.store2, r, c.h) == Pages(c.store, r, c.h) && SetOf(c.Kids()) !! Pages(c.store, r, c.h)
  {
    hide Distinct, RowItems, Joined, Fetched, Walk, Pages, Row, PageItems;
    FetchedRow(c.store, c.Kids(), c.Divs(), c.h);
    RowBelow(c.store, Fetched(c.store, c.Kids()), c.Divs(), c.h);
    var r := RowItems(c.h == 0, Fetched(c.store, c.Kids()), c.Divs());
    forall p | p in Pages(c.store, r, c.h) ensures p !in c.s {
      InParts(c.a, c.s, c.b, p);
      assert p in c.Kids() ==> p in SetOf(c.Kids());
    }
    WalkFrame(v, c.store, c.store2, r, c.h);
  }

  /** Every new child is the root of a subtree of the same height. */
  lemma ChangeRooted(c: Change)
    requires c.Ok()
    ensures Rooted(c.store2, c.Kids2(), c.h)
  {
    hide Distinct, RowItems, Joined, Fetched, Walk, Pages, PageItems, Family, Restored;
    ChangeParts(c);
    NewRow(c);
    if c.h > 0 || c.data {
      ChangeRow(c);
      ChangeBelow(c, Entries);
      BelowRow(c.store2, Fetched(c.store2, c.Kids2()), c.Divs2(), c.h);
    }
    forall i | 0 <= i < |c.Kids2()| ensures Tree(c.store2, c.Kids2()[i], c.h) {
      assert Fetched(c.store2, c.Kids2())[i] == c.store2[c.Kids2()[i]];
    }
  }

  lemma NewRow(c: Change)
    requires c.Ok()
    ensures AllIn(c.store2, c.Kids2()) && Row(Fetched(c.store2, c.Kids2()), c.Divs2())
  {
    hide Distinct, RowItems, Joined, Fetched, Restored, Family;
    ChangeParts(c);
  }

  lemma ChangeFamily(c: Change)
    requires c.Ok()
    ensures Family(c.store2, c.Kids2(), c.Divs2(), c.h)
  {
    hide Distinct, RowItems, Joined, Fetched, Walk, Pages, PageItems, Row;
    ChangeParts(c);
    ChangeRooted(c);
    FetchedRow(c.store2, c.Kids2(), c.Divs2(), c.h);
    RowBelow(c.store2, Fetched(c.store2, c.Kids2()), c.Divs2(), c.h);
    var r2 := RowItems(c.h == 0, Fetched(c.store2, c.Kids2()), c.Divs2());
    PagesInStore(c.store2, r2, c.h);
    if c.h > 0 || c.data {
      ChangeRow(c);
      ChangeBelow(c, Entries);
      PagesInStore(c.store, r2, c.h);
      forall p | p in c.Kids2() ensures p !in Pages(c.store, r2, c.h) {
        InParts(c.a, c.s2, c.b, p);
        InParts(c.a, c.s, c.b, p);
        assert p in c.Kids() ==> p in SetOf(c.Kids());
      }
    }
  }

  /** The view in which the entries are just what the tree stores. */
  function OwnView(data: bool): View { if data then Entries else LeafEntries }

  /** The tree below the parent holds the same entries in the same order. */
  lemma ChangeWalk(c: Change, v: View)
    requires c.Ok() && (c.h > 0 || v == OwnView(c.data))
    ensures Below(c.store, KidItems(c.Kids(), c.Divs()), c.h + 1) && Below(c.store2, KidItems(c.Kids2(), c.Divs2()), c.h + 1)
    ensures Walk(v, c.store2, KidItems(c.Kids2(), c.Divs2()), c.h + 1) == Walk(v, c.store, KidItems(c.Kids(), c.Divs()), c.h + 1)
  {
    hide Distinct, RowItems, Joined, Fetched, Walk, Pages, PageItems, Row, Restored, KidItems, RowWalk;
    ChangeRooted(c);
    NewRow(c);
    KidsWalk(v, c.store, c.Kids(), c.Divs(), c.h);
    KidsWalk(v, c.store2, c.Kids2(), c.Divs2(), c.h);
    if c.h > 0 || c.data {
      ChangeRow(c);
      ChangeBelow(c, v);
      RowWalkItems(v, c.store, Fetched(c.store, c.Kids()), c.Divs(), c.h);
      RowWalkItems(v, c.store2, Fetched(c.store2, c.Kids2()), c.Divs2(), c.h);
    } else {
      ChangeLeaves(c);
      RowWalkLeaves(c.store, Fetched(c.store, c.Kids()), c.Divs());
      RowWalkLeaves(c.store2, Fetched(c.store2, c.Kids2()), c.Divs2());
    }
  }
}
