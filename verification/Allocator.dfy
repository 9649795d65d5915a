/** The page allocator: pages come from the free-list, or from the end of the file. */
module Allocator {
  import opened Results
  import opened PtrMap
  import opened FreePages
  import PG = PageGraph

  datatype Mode = ANY | EXACT | LE

  /** A page a search would settle for. */
  predicate Suits(p: nat, nearby: nat, mode: Mode) { p == nearby || (mode == LE && p < nearby) }

  function Apart(a: nat, b: nat): nat { if a < b then b - a else a - b }

  /** Of the leaves the first with a number closest to nearby or, for LE, the first one not after it; else the first. */
  predicate Nearest(leaves: seq<nat>, c: nat, nearby: nat, mode: Mode)
    requires c < |leaves|
  {
    if nearby == 0 then c == 0
    else if mode == LE then (forall i | 0 <= i < c :: leaves[i] > nearby) && (leaves[c] > nearby ==> c == 0 && forall i | 0 <= i < |leaves| :: leaves[i] > nearby)
    else forall i | 0 <= i < |leaves| :: Apart(leaves[c], nearby) <= Apart(leaves[i], nearby) && (i < c ==> Apart(leaves[c], nearby) < Apart(leaves[i], nearby))
  }

  /** The page is a leaf of the first trunk if that has room for it, with six places to spare; else the first trunk itself. */
  ghost predicate Joined(first: nat, trunks: Trunks, iPage: nat, limit: int, first2: nat, trunks2: Trunks) {
    if first != 0 && first in trunks && |trunks[first].leaves| < limit then
      first2 == first && trunks2 == trunks[first := trunks[first].(leaves := trunks[first].leaves + [iPage])]
    else
      first2 == iPage && trunks2 == trunks[iPage := Trunk(first, [])]
  }

  /** What a trunk with these leaves has to give: itself, if it is wanted or has no leaves, or one of its leaves. */
  ghost predicate Settles(iTrunk: nat, leaves: seq<nat>, pgno: nat, searchList: bool, nearby: nat, mode: Mode) {
    if if searchList then Suits(iTrunk, nearby, mode) else leaves == [] then pgno == iTrunk
    else exists c :: 0 <= c < |leaves| && pgno == leaves[c] && Nearest(leaves, c, nearby, mode) && (searchList ==> Suits(pgno, nearby, mode))
  }

  method Closest(leaves: seq<nat>, nearby: nat, mode: Mode) returns (closest: nat)
    requires leaves != []
    ensures closest < |leaves| && Nearest(leaves, closest, nearby, mode)
  {
    closest := 0;
    if nearby > 0 {
      if mode == LE {
        for i := 0 to |leaves|
          invariant closest == 0 && forall t | 0 <= t < i :: leaves[t] > nearby
        {
          if leaves[i] <= nearby { closest := i; break; }
        }
      } else {
        var dist := Apart(leaves[0], nearby);
        for i := 1 to |leaves|
          invariant closest < i && dist == Apart(leaves[closest], nearby)
          invariant forall t | 0 <= t < i :: dist <= Apart(leaves[t], nearby) && (t < closest ==> dist < Apart(leaves[t], nearby))
        {
          var d2 := Apart(leaves[i], nearby);
          if d2 < dist { closest, dist := i, d2; }
        }
      }
    }
  }

  class BtShared {
    const g: Geometry
    const autoVacuum: bool
    /** Number of pages of the database. */
    var nPage: nat
    /** First trunk page and number of free pages, as the header of page 1 has them. */
    var first: nat
    var nFree: nat
    /** Contents of the trunk pages. */
    var trunks: Trunks
    /** The pointer map, and the pages in use. */
    var ptrmap: PG.EntryMap
    var pages: PG.Pages
    ghost var chain: seq<nat>

    /** The free pages. */
    ghost function Free(): multiset<nat>
      reads this
      requires Chained()
    {
      Bag(trunks, chain)
    }

    ghost predicate Chained()
      reads this
    {
      forall i | 0 <= i < |chain| :: chain[i] in trunks
    }

    /** The free-list is well formed, whatever count the header has. */
    ghost predicate Lists()
      reads this
    {
      && g.Ok() && Chained() && Linked(first, trunks, chain) && Once(Free())
      && (forall p | p in Free() :: 2 <= p <= nPage && p != g.pending && (autoVacuum ==> Content(g, p)))
      && Short(trunks, chain, g.usable / 4 - 2)
      && 1 <= nPage != g.pending
    }

    ghost predicate Valid()
      reads this
    {
      Chained() && Lists() && nFree == |Free()|
    }

    constructor (geometry: Geometry, auto: bool)
      requires geometry.Ok()
      ensures Valid() && Free() == multiset{} && nPage == 1 && g == geometry && autoVacuum == auto
    {
      g, autoVacuum := geometry, auto;
      nPage, first, nFree, trunks, ptrmap, pages, chain := 1, 0, 0, map[], map[], map[], [];
    }

    lemma FirstTrunk()
      requires Valid()
      ensures nFree == 0 <==> chain == []
      ensures chain == [] ==> first == 0 && Free() == multiset{}
      ensures chain != [] ==> first == chain[0] != 0 && first in trunks && |trunks[first].leaves| <= g.usable / 4 - 2
    {
      if chain != [] { assert chain[0] in multiset(chain); assert chain[0] in Free(); }
    }

    /** A page that may be freed. */
    ghost predicate InUse(p: nat)
      reads this
      requires Chained()
    {
      2 <= p <= nPage && p != g.pending && p !in Free() && (autoVacuum ==> Content(g, p))
    }

    /** freePage2 */
    method FreePage2(iPage: nat) returns (rc: Rc)
      requires Valid() && (iPage >= 2 ==> InUse(iPage))
      modifies this`nFree, this`trunks, this`first, this`chain, this`ptrmap
      ensures Valid() && nPage == old(nPage)
      ensures rc == OK <==> iPage >= 2
      ensures Free() == if iPage >= 2 then old(Free()) + multiset{iPage} else old(Free())
      ensures ptrmap == if autoVacuum && iPage >= 2 then old(ptrmap)[iPage := PG.Entry(PG.FREEPAGE, 0)] else old(ptrmap)
      ensures iPage >= 2 ==> Joined(old(first), old(trunks), iPage, g.usable / 4 - 8, first, trunks)
    {
      hide Leaves, Once, Content, Linked, Bag;
      if iPage < 2 { return CORRUPT; }
      rc := OK;
      FirstTrunk();
      if autoVacuum { ptrmap := ptrmap[iPage := PG.Entry(PG.FREEPAGE, 0)]; }
      if nFree != 0 {
        var nLeaf := |trunks[first].leaves|;
        if nLeaf > g.usable / 4 - 2 { rc := CORRUPT; return; }
        if nLeaf < g.usable / 4 - 8 {
          AddLeaf(iPage);
          return;
        }
      }
      AddTrunk(iPage);
    }

    method AddLeaf(iPage: nat)
      requires Valid() && InUse(iPage) && chain != [] && |trunks[chain[0]].leaves| < g.usable / 4 - 8
      modifies this`nFree, this`trunks
      ensures Valid() && Free() == old(Free()) + multiset{iPage}
      ensures first in old(trunks) && trunks == old(trunks)[first := old(trunks)[first].(leaves := old(trunks)[first].leaves + [iPage])]
    {
      hide Leaves, Once, Content, Linked, Bag;
      FirstTrunk();
      PutLeaf(first, trunks, chain, iPage);
      OncePlus(Free(), iPage);
      nFree := nFree + 1;
      trunks := trunks[first := trunks[first].(leaves := trunks[first].leaves + [iPage])];
      LinkedIn(first, trunks, chain);
    }

    method AddTrunk(iPage: nat)
      requires Valid() && InUse(iPage)
      modifies this`nFree, this`trunks, this`first, this`chain
      ensures Valid() && Free() == old(Free()) + multiset{iPage}
      ensures first == iPage && trunks == old(trunks)[iPage := Trunk(old(first), [])]
    {
      hide Leaves, Once, Content, Linked, Bag;
      PutTrunk(first, trunks, chain, iPage);
      OncePlus(Free(), iPage);
      ghost var was, had := trunks, chain;
      nFree := nFree + 1;
      trunks := trunks[iPage := Trunk(first, [])];
      first := iPage;
      chain := [iPage] + chain;
      LinkedIn(first, trunks, chain);
      forall i | 0 <= i < |chain| ensures chain[i] in trunks && |trunks[chain[i]].leaves| <= g.usable / 4 - 2 {
        if i > 0 { assert chain[i] == had[i - 1]; }
      }
    }

    // ---- allocation ----

    lemma LinkAt(t: nat)
      requires Lists() && t < |chain|
      ensures Nth(chain, t) == chain[t] && chain[t] in trunks && chain[t] != 0 && trunks[chain[t]].next == Nth(chain, t + 1)
      ensures 2 <= chain[t] <= nPage && |trunks[chain[t]].leaves| <= g.usable / 4 - 2
      ensures forall j | 0 <= j < |trunks[chain[t]].leaves| :: trunks[chain[t]].leaves[j] in Free()
      ensures chain[t] in Free() && 0 !in Free() && first == Nth(chain, 0)
    {
      hide Bag, Once;
      forall j | 0 <= j < |trunks[chain[t]].leaves| ensures trunks[chain[t]].leaves[j] in Free() { LeafOf(trunks, chain, t, j); }
      assert chain[t] in multiset(chain);
      InBag(trunks, chain, t);
    }

    /** A leaf is taken out of the trunk in place t. */
    method OutLeaf(iTrunk: nat, closest: nat, ghost t: nat) returns (pgno: nat)
      requires Lists() && t < |chain| && iTrunk == chain[t] && closest < |trunks[iTrunk].leaves|
      modifies this`trunks
      ensures Lists() && pgno == old(trunks)[iTrunk].leaves[closest] && Free() == old(Free()) - multiset{pgno}
    {
      hide Leaves, Once, Content, Linked, Bag;
      var tr := trunks[iTrunk];
      pgno := tr.leaves[closest];
      TakeLeaf(first, trunks, chain, t, closest);
      OnceMinus(Free(), pgno);
      trunks := trunks[iTrunk := tr.(leaves := DropLeaf(tr.leaves, closest))];
    }

    /** The trunk in place t is taken; its first leaf, if it has one, becomes the trunk of the others. */
    method OutTrunk(iTrunk: nat, prev: nat, ghost t: nat)
      requires Lists() && t < |chain| && iTrunk == chain[t] && prev == PrevOf(chain, t)
      modifies this`trunks, this`first, this`chain
      ensures Lists() && Free() == old(Free()) - multiset{iTrunk}
    {
      hide Leaves, Once, Content, Linked, Bag;
      LinkAt(t);
      if t > 0 { LinkAt(t - 1); }
      var tr := trunks[iTrunk];
      OnceMinus(Free(), iTrunk);
      if tr.leaves == [] {
        TakeTrunk(first, trunks, chain, t, g.usable / 4 - 2);
        if prev == 0 { first := tr.next; }
        trunks := Relink(trunks, prev, tr.next);
        chain := chain[..t] + ([] + chain[t + 1..]);
      } else {
        TakeFullTrunk(first, trunks, chain, t, g.usable / 4 - 2);
        var iNewTrunk := tr.leaves[0];
        if prev == 0 { first := iNewTrunk; }
        trunks := Relink(trunks[iNewTrunk := Trunk(tr.next, tr.leaves[1..])], prev, iNewTrunk);
        chain := chain[..t] + ([iNewTrunk] + chain[t + 1..]);
      }
      LinkedIn(first, trunks, chain);
    }

    lemma FewFree()
      requires Valid()
      ensures nFree < nPage && |chain| <= nFree
    {
      hide Leaves, Linked, Content, Once;
      OnceSize(Free(), nPage);
      assert |multiset(chain)| == |chain|;
    }

    /** No page on the first t trunks is one the search would settle for. */
    ghost predicate Searched(t: nat, nearby: nat, mode: Mode)
      reads this
      requires Chained()
    {
      forall i | 0 <= i < t && i < |chain| ::
        !Suits(chain[i], nearby, mode) && forall j | 0 <= j < |trunks[chain[i]].leaves| :: !Suits(trunks[chain[i]].leaves[j], nearby, mode)
    }

    /** The page comes from the first trunk that has one the search would settle for; any will do if it is not for a page. */
    ghost predicate Chosen(pgno: nat, searchList: bool, nearby: nat, mode: Mode)
      reads this
      requires Chained()
    {
      exists t :: 0 <= t < |chain| && Settles(chain[t], trunks[chain[t]].leaves, pgno, searchList, nearby, mode)
        && if searchList then Searched(t, nearby, mode) else t == 0
    }

    lemma SearchedAll(nearby: nat, mode: Mode)
      requires Lists() && Searched(|chain|, nearby, mode)
      ensures forall p | p in Free() :: !Suits(p, nearby, mode)
    {
      hide Suits, Linked, Once;
      forall p | p in Free() ensures !Suits(p, nearby, mode) {
        var i := Found(trunks, chain, p);
      }
    }

    /** One turn of the search: the trunk in place t, or one of its leaves, is taken if the search settles for it. */
    method Visit(iTrunk: nat, prev: nat, ghost t: nat, searchList: bool, nearby: nat, mode: Mode) returns (rc: Rc, found: bool, pgno: nat)
      requires Lists() && t < |chain| && iTrunk == chain[t] && prev == PrevOf(chain, t) && (searchList ==> nearby > 0)
      modifies this`trunks, this`first, this`chain
      ensures rc == OK && Lists() && (!searchList ==> found)
      ensures found ==> pgno in old(Free()) && Free() == old(Free()) - multiset{pgno} && (searchList ==> Suits(pgno, nearby, mode))
      ensures iTrunk in old(trunks) && (found ==> Settles(iTrunk, old(trunks[iTrunk]).leaves, pgno, searchList, nearby, mode))
      ensures !found ==> first == old(first) && trunks == old(trunks) && chain == old(chain)
      ensures !found && old(Searched(t, nearby, mode)) ==> Searched(t + 1, nearby, mode)
    {
      hide Leaves, Once, Content, Linked, Bag, Short, Nearest;
      LinkAt(t);
      rc, found, pgno := OK, false, 0;
      var leaves := trunks[iTrunk].leaves;
      if leaves == [] && !searchList {
        OutTrunk(iTrunk, prev, t);
        found, pgno := true, iTrunk;
      } else if |leaves| > g.usable / 4 - 2 {
        rc := CORRUPT;
      } else if searchList && Suits(iTrunk, nearby, mode) {
        if leaves != [] && leaves[0] > nPage { rc := CORRUPT; return; }
        OutTrunk(iTrunk, prev, t);
        found, pgno := true, iTrunk;
      } else if leaves != [] {
        var closest := Closest(leaves, nearby, mode);
        if leaves[closest] > nPage { rc := CORRUPT; return; }
        if !searchList || Suits(leaves[closest], nearby, mode) {
          pgno := OutLeaf(iTrunk, closest, t);
          found := true;
        } else {
          NoneSuits(leaves, closest, nearby, mode);
        }
      }
    }

    /** The trunks are gone through until one, or a leaf of one, will do. */
    method Search(searchList: bool, n: nat, nearby: nat, mode: Mode) returns (rc: Rc, pgno: nat)
      requires Lists() && chain != [] && |chain| <= n < nPage && (searchList ==> nearby > 0)
      modifies this`trunks, this`first, this`chain
      ensures rc == OK ==> Lists() && pgno in old(Free()) && Free() == old(Free()) - multiset{pgno}
      ensures rc == OK && searchList ==> Suits(pgno, nearby, mode)
      ensures rc == OK ==> old(Chosen(pgno, searchList, nearby, mode))
      ensures rc != OK ==> searchList && forall p | p in old(Free()) :: !Suits(p, nearby, mode)
    {
      hide Leaves, Once, Content, Linked, Bag, Short, Suits, BtShared.Searched, Settles;
      rc, pgno := OK, 0;
      var found, prev, iTrunk, nSearch := false, 0, first, 0;
      ghost var was := Free();
      LinkAt(0);
      SearchedNone(nearby, mode);
      while !found
        invariant rc == OK && nSearch <= |old(chain)| && Lists()
        invariant found ==> pgno in was && Free() == was - multiset{pgno} && (searchList ==> Suits(pgno, nearby, mode))
        invariant found ==> old(Chosen(pgno, searchList, nearby, mode))
        invariant !found ==> trunks == old(trunks) && first == old(first) && Free() == was && chain == old(chain) && iTrunk == Nth(chain, nSearch) && prev == PrevOf(chain, nSearch)
        invariant !found && nSearch > 0 ==> searchList
        invariant !found ==> Searched(nSearch, nearby, mode)
        invariant nSearch <= |old(chain)| && (!found ==> old(Searched(nSearch, nearby, mode)))
        decreases !found, |old(chain)| - nSearch
      {
        if nSearch < |chain| { LinkAt(nSearch); }
        if iTrunk > nPage || nSearch > n || iTrunk == 0 {
          SearchedAll(nearby, mode);
          rc := CORRUPT;
          return;
        }
        var next := trunks[iTrunk].next;
        rc, found, pgno := Visit(iTrunk, prev, nSearch, searchList, nearby, mode);
        if !found { prev, iTrunk, nSearch := iTrunk, next, nSearch + 1; }
      }
    }

    lemma SearchedNone(nearby: nat, mode: Mode)
      requires Chained()
      ensures Searched(0, nearby, mode)
    {
    }

    /** The list is searched for a page: any up to nearby, or nearby itself if it is free. */
    predicate Wanted(nearby: nat, mode: Mode)
      reads this
    {
      mode == LE || (mode == EXACT && nearby <= nPage && nearby in ptrmap && ptrmap[nearby].eType == PG.FREEPAGE)
    }

    /** allocateBtreePage, while there are free pages. */
    method Reuse(nearby: nat, mode: Mode) returns (rc: Rc, pgno: nat)
      requires Valid() && nFree > 0 && (mode != ANY ==> nearby > 0 && autoVacuum)
      requires mode == EXACT && nearby <= nPage ==> nearby in ptrmap && (ptrmap[nearby].eType == PG.FREEPAGE ==> nearby in Free())
      modifies this`nFree, this`trunks, this`first, this`chain
      ensures rc == OK <==> mode != LE || exists p | p in old(Free()) :: p <= nearby
      ensures rc == OK ==> Valid() && pgno in old(Free()) && Free() == old(Free()) - multiset{pgno}
      ensures rc == OK && mode == LE ==> pgno <= nearby
      ensures rc == OK ==> old(Chosen(pgno, Wanted(nearby, mode), nearby, mode))
      ensures mode == EXACT && nearby <= nPage && old(ptrmap[nearby].eType == PG.FREEPAGE) ==> pgno == nearby
    {
      hide Leaves, Once, Content, Linked, Bag, Short, Settles;
      var n := nFree;
      FewFree();
      FirstTrunk();
      pgno := 0;
      if n >= nPage { rc := CORRUPT; return; }
      var searchList := Wanted(nearby, mode);
      nFree := n - 1;
      ghost var was := Free();
      rc, pgno := Search(searchList, n, nearby, mode);
      OnceMinus(was, pgno);
    }

    /** allocateBtreePage, when there is no free page: the next page that may be used is added to the file. */
    method Append() returns (pgno: nat)
      requires Valid() && nFree == 0
      modifies this`nPage
      ensures Valid() && Free() == multiset{} && pgno == nPage > old(nPage) && pgno != g.pending
      ensures autoVacuum ==> Content(g, pgno) && forall p | old(nPage) < p < pgno :: !Content(g, p)
      ensures !autoVacuum ==> pgno == old(nPage) + 1 || (pgno == old(nPage) + 2 && pgno == g.pending + 1)
    {
      hide Leaves, Once, Content, Linked, Bag, Short, IsMap;
      FirstTrunk();
      AppendSkips(g, nPage);
      nPage := nPage + 1;
      if nPage == g.pending { nPage := nPage + 1; }
      if autoVacuum && IsMap(g, nPage) {
        nPage := nPage + 1;
        if nPage == g.pending { nPage := nPage + 1; }
      }
      pgno := nPage;
    }

    /** allocateBtreePage */
    method Allocate(nearby: nat, mode: Mode) returns (rc: Rc, pgno: nat)
      requires Valid() && (mode != ANY ==> nearby > 0 && autoVacuum)
      requires mode == EXACT && nearby <= nPage && nFree > 0 ==> nearby in ptrmap && (ptrmap[nearby].eType == PG.FREEPAGE ==> nearby in Free())
      modifies this`nFree, this`trunks, this`first, this`chain, this`nPage
      ensures rc == OK <==> old(nFree) == 0 || mode != LE || exists p | p in old(Free()) :: p <= nearby
      ensures rc == OK ==> Valid() && pgno != g.pending && (autoVacuum ==> Content(g, pgno))
      ensures rc == OK && old(nFree) > 0 ==> pgno in old(Free()) && Free() == old(Free()) - multiset{pgno} && nPage == old(nPage)
      ensures rc == OK && old(nFree) == 0 ==> Free() == multiset{} && pgno == nPage > old(nPage)
      ensures rc == OK && old(nFree) > 0 && mode == LE ==> pgno <= nearby
      ensures rc == OK && old(nFree) > 0 ==> old(Chosen(pgno, Wanted(nearby, mode), nearby, mode))
      ensures old(nFree) > 0 && mode == EXACT && nearby <= old(nPage) && old(ptrmap[nearby].eType == PG.FREEPAGE) ==> pgno == nearby
    {
      hide Leaves, Once, Content, Linked, Bag, Short, Settles;
      if nFree > 0 {
        rc, pgno := Reuse(nearby, mode);
      } else {
        pgno := Append();
        rc := OK;
      }
    }
  }

  /** The page after n, or after the non-content pages that follow n. */
  lemma AppendSkips(g: Geometry, n: nat)
    requires g.Ok() && n >= 1
    ensures var a := if n + 1 == g.pending then n + 2 else n + 1;
      var b := if a + 1 == g.pending then a + 2 else a + 1;
      && (!IsMap(g, a) ==> Content(g, a) && forall p | n < p < a :: !Content(g, p))
      && (IsMap(g, a) ==> Content(g, b) && forall p | n < p < b :: !Content(g, p))
  {
    var a := if n + 1 == g.pending then n + 2 else n + 1;
    if IsMap(g, a) { AfterMap(g, a); }
  }

  /** The two pages after a map page are not map pages. */
  lemma AfterMap(g: Geometry, a: nat)
    requires g.Ok() && a >= 2 && IsMap(g, a) && a != g.pending
    ensures !IsMap(g, a + 1) && (a + 1 == g.pending ==> !IsMap(g, a + 2))
  {
    var k := (a - 2) / g.Group();
    GroupBounds(g, a);
    GroupOf(g, a + 1, k);
    GroupOf(g, a + 2, k);
  }

  lemma {:induction false} OnceSize(m: multiset<nat>, n: nat)
    requires Once(m) && n >= 1 && forall p | p in m :: 2 <= p <= n
    ensures |m| < n
  {
    if n == 1 {
      forall p ensures p !in m {}
      assert m == multiset{};
    } else {
      var m2 := m - multiset{n};
      assert m2[n] == 0;
      OnceSize(m2, n - 1);
    }
  }

  lemma NoneSuits(leaves: seq<nat>, closest: nat, nearby: nat, mode: Mode)
    requires closest < |leaves| && nearby > 0 && !Suits(leaves[closest], nearby, mode)
    requires mode == LE && leaves[closest] > nearby ==> forall i | 0 <= i < |leaves| :: leaves[i] > nearby
    requires mode != LE ==> forall i | 0 <= i < |leaves| :: Apart(leaves[closest], nearby) <= Apart(leaves[i], nearby)
    ensures forall i | 0 <= i < |leaves| :: !Suits(leaves[i], nearby, mode)
  {
  }

  lemma {:induction false} Found(trunks: Trunks, chain: seq<nat>, p: nat) returns (i: nat)
    requires (forall i | 0 <= i < |chain| :: chain[i] in trunks) && p in Bag(trunks, chain)
    ensures i < |chain| && (p == chain[i] || p in trunks[chain[i]].leaves)
  {
    if chain[0] == p || p in trunks[chain[0]].leaves {
      i := 0;
    } else {
      assert chain == [chain[0]] + chain[1..];
      var j := Found(trunks, chain[1..], p);
      i := j + 1;
    }
  }

  lemma InBag(trunks: Trunks, chain: seq<nat>, t: nat)
    requires (forall i | 0 <= i < |chain| :: chain[i] in trunks) && t < |chain|
    ensures chain[t] in Bag(trunks, chain)
  {
    assert chain[t] in multiset(chain);
  }

  lemma OnceMinus(m: multiset<nat>, p: nat)
    requires Once(m)
    ensures Once(m - multiset{p}) && p !in m - multiset{p} && forall q | q in m - multiset{p} :: q in m
    ensures p in m ==> |m - multiset{p}| == |m| - 1
  {
  }

  lemma OncePlus(m: multiset<nat>, p: nat)
    requires Once(m) && p !in m
    ensures Once(m + multiset{p}) && |m + multiset{p}| == |m| + 1
  {
  }
}
