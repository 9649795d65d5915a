/** Auto-vacuum: the pages at the end of the file move into free pages before it, and the file is cut short. */
module Vacuum {
  import opened Facts
  import opened PtrMap
  import opened FL = Allocator
  import opened PG = PageGraph
  import opened RL = Relocate

  datatype Result = DONE | OK | CORRUPT

  ghost function ContentSet(g: Geometry, n: nat): (r: set<nat>) { set p | 1 <= p <= n && Content(g, p) }

  lemma {:induction false} ContentSize(g: Geometry, n: nat)
    ensures |ContentSet(g, n)| == Count(g, n)
  {
    hide Content;
    if n == 0 {
      assert ContentSet(g, 0) == {};
    } else {
      ContentSize(g, n - 1);
      assert ContentSet(g, n) == ContentSet(g, n - 1) + if Content(g, n) then {n} else {};
    }
  }

  // ---- renamings ----

  function Ren(f: map<nat, nat>, x: nat): nat { if x in f then f[x] else x }

  function MapCell(leaf: bool, c: CellPtrs, f: map<nat, nat>): CellPtrs {
    CellPtrs(if leaf then c.child else Ren(f, c.child), Ren(f, c.ovfl))
  }

  /** A page with all its pointers renamed. */
  function MapPage(p: Page, f: map<nat, nat>): Page {
    match p
    case Btree(leaf, cells, right) =>
      Btree(leaf, seq(|cells|, i requires 0 <= i < |cells| => MapCell(leaf, cells[i], f)), if leaf then right else Ren(f, right))
    case Overflow(next) => Overflow(Ren(f, next))
  }

  /** pages2 is pages under a one-to-one renaming of all page numbers. */
  ghost predicate Image(pages: Pages, pages2: Pages, f: map<nat, nat>) {
    && f.Keys == pages.Keys && f.Values == pages2.Keys
    && (forall p, q | p in f && q in f && p != q :: f[p] != f[q])
    && (forall p | p in pages :: pages2[f[p]] == MapPage(pages[p], f))
  }

  ghost predicate Closed(pages: Pages) {
    0 !in pages && forall p, s | p in pages :: At(pages[p], s) == 0 || At(pages[p], s) in pages
  }

  lemma GraphClosed(pages: Pages, ptr: EntryMap, roots: set<nat>)
    requires Graph(pages, ptr, roots)
    ensures Closed(pages)
  {
    hide At, PG.Once, Referred;
    forall p, s | p in pages ensures At(pages[p], s) == 0 || At(pages[p], s) in pages { assert Refers(pages, ptr, roots, p, s); }
  }

  function Identity(pages: Pages): map<nat, nat> { map p | p in pages :: p }

  lemma SelfImage(pages: Pages)
    ensures Image(pages, pages, Identity(pages))
  {
    var f := Identity(pages);
    assert f.Values == pages.Keys by { forall p | p in pages ensures p in f.Values { assert f[p] == p; } }
    forall p | p in pages ensures MapPage(pages[p], f) == pages[p] {
      if pages[p].Btree? { assert MapPage(pages[p], f).cells == pages[p].cells; }
    }
  }

  function After(f: map<nat, nat>, from: nat, to: nat): map<nat, nat> { map p | p in f :: Move(f[p], from, to) }

  lemma MapMove(p: Page, f: map<nat, nat>, from: nat, to: nat)
    requires 0 !in f && from != 0 && forall s :: At(p, s) == 0 || At(p, s) in f
    ensures MovePage(MapPage(p, f), from, to) == MapPage(p, After(f, from, to))
  {
    var a, b := MovePage(MapPage(p, f), from, to), MapPage(p, After(f, from, to));
    if p.Btree? {
      forall i | 0 <= i < |p.cells| ensures a.cells[i] == b.cells[i] {
        assert At(p, Child(i)) == 0 || At(p, Child(i)) in f;
        assert At(p, Ovfl(i)) == 0 || At(p, Ovfl(i)) in f;
      }
      assert At(p, Right) == 0 || At(p, Right) in f;
      assert a.cells == b.cells;
    } else {
      assert At(p, Next) == 0 || At(p, Next) in f;
    }
  }

  lemma ImagePages(pages: Pages, pages1: Pages, pages2: Pages, f: map<nat, nat>, from: nat, to: nat, p: nat)
    requires Closed(pages) && Image(pages, pages1, f) && Moved(pages1, pages2, from, to)
    requires from in pages1 && to !in pages1 && from != 0 && p in pages
    ensures f[p] in pages1 && Move(f[p], from, to) in pages2
    ensures pages2[Move(f[p], from, to)] == MapPage(pages[p], After(f, from, to))
  {
    hide At, MovePage, MapPage, After;
    assert f[p] in f.Values;
    MapMove(pages[p], f, from, to);
  }

  lemma ImageApart(pages: Pages, pages1: Pages, f: map<nat, nat>, from: nat, to: nat)
    requires Image(pages, pages1, f) && to !in pages1
    ensures forall p, q | p in f && q in f && p != q :: Move(f[p], from, to) != Move(f[q], from, to)
  {
    hide MapPage;
    forall p, q | p in f && q in f && p != q ensures Move(f[p], from, to) != Move(f[q], from, to) {
      assert f[p] in f.Values && f[q] in f.Values;
    }
  }

  /** A move after a renaming is a renaming. */
  lemma ImageMoved(pages: Pages, pages1: Pages, pages2: Pages, f: map<nat, nat>, from: nat, to: nat)
    requires Closed(pages) && Image(pages, pages1, f) && Moved(pages1, pages2, from, to)
    requires from in pages1 && to !in pages1 && from != 0
    ensures Image(pages, pages2, After(f, from, to))
  {
    hide MovePage, MapPage, Closed, Moved;
    ImageApart(pages, pages1, f, from, to);
    ImageAll(pages, pages1, pages2, f, from, to);
    ImageKeys(pages, pages1, pages2, f, from, to);
  }

  lemma ImageKeys(pages: Pages, pages1: Pages, pages2: Pages, f: map<nat, nat>, from: nat, to: nat)
    requires f.Keys == pages.Keys && f.Values == pages1.Keys && Moved(pages1, pages2, from, to)
    requires from in pages1 && to !in pages1
    ensures After(f, from, to).Values == pages2.Keys
  {
    hide MovePage;
    var h := After(f, from, to);
    forall x ensures x in h.Values <==> x in pages2 { ImageValues(pages, pages1, pages2, f, from, to, x); }
  }

  lemma ImageAll(pages: Pages, pages1: Pages, pages2: Pages, f: map<nat, nat>, from: nat, to: nat)
    requires Closed(pages) && Image(pages, pages1, f) && Moved(pages1, pages2, from, to)
    requires from in pages1 && to !in pages1 && from != 0
    ensures forall p | p in pages :: Move(f[p], from, to) in pages2 && pages2[Move(f[p], from, to)] == MapPage(pages[p], After(f, from, to))
  {
    hide MovePage, MapPage, Closed, Moved, After;
    forall p | p in pages ensures Move(f[p], from, to) in pages2 && pages2[Move(f[p], from, to)] == MapPage(pages[p], After(f, from, to)) {
      ImagePages(pages, pages1, pages2, f, from, to, p);
    }
  }

  lemma ImageValues(pages: Pages, pages1: Pages, pages2: Pages, f: map<nat, nat>, from: nat, to: nat, x: nat)
    requires f.Keys == pages.Keys && f.Values == pages1.Keys && pages2.Keys == pages1.Keys - {from} + {to}
    requires from in pages1 && to !in pages1
    ensures x in After(f, from, to).Values <==> x in pages2
  {
    var h := After(f, from, to);
    if x in pages2 {
      var y := if x == to then from else x;
      assert y in f.Values;
      var p :| p in f && f[p] == y;
      assert h[p] == x;
    }
  }

  // ---- pages in use and free pages ----

  /** The last page a root has been given comes before all other content pages that are not roots. */
  ghost predicate RootsFirst(g: Geometry, roots: set<nat>) {
    forall r, p | r in roots && 1 <= p <= r && Content(g, p) :: p in roots
  }

  /** Every content page is in use or free, never both; the pointer map knows which. */
  ghost predicate Whole(b: BtShared, roots: set<nat>)
    reads b
  {
    && b.Valid() && b.autoVacuum && Sound(b.pages, b.ptrmap, roots) && RootsFirst(b.g, roots)
    && Content(b.g, b.nPage) && b.nPage + b.g.Entries() < U32 && 1 in roots
    && (forall p :: p in b.pages || p in b.Free() <==> p in ContentSet(b.g, b.nPage))
    && (forall p | p in b.Free() :: p !in b.pages && p in b.ptrmap && b.ptrmap[p].eType == FREEPAGE)
  }

  lemma {:induction false} BagSize(m: multiset<nat>, s: set<nat>)
    requires FreePages.Once(m) && forall p :: p in m <==> p in s
    ensures |m| == |s|
  {
    if s == {} {
      assert m == multiset{};
    } else {
      var p :| p in s;
      var m2 := m - multiset{p};
      assert m2[p] == 0;
      BagSize(m2, s - {p});
      assert m == m2 + multiset{p};
    }
  }

  /** The pages in use are as many as content pages are left. */
  lemma InUse(b: BtShared, roots: set<nat>)
    requires Whole(b, roots)
    ensures |b.pages.Keys| == Count(b.g, b.nPage) - b.nFree && b.nFree < Count(b.g, b.nPage)
  {
    hide Sound, Content, RootsFirst, Count, BtShared.Lists;
    var all := ContentSet(b.g, b.nPage);
    ContentSize(b.g, b.nPage);
    FreeOnce(b);
    var free := all - b.pages.Keys;
    BagSize(b.Free(), free);
    assert all == b.pages.Keys + free;
    SomePage(b, roots);
  }

  lemma FreeOnce(b: BtShared)
    requires b.Valid()
    ensures b.Chained() && b.nFree == |b.Free()|
    ensures FreePages.Once(b.Free())
  {
  }

  lemma SomePage(b: BtShared, roots: set<nat>)
    requires Sound(b.pages, b.ptrmap, roots) && 1 in roots
    ensures 1 in b.pages && |b.pages.Keys| > 0
  {
    hide Graph, Typed;
    assert Graph(b.pages, b.ptrmap, roots);
    OneIn(b, roots);
    assert 1 in b.pages.Keys;
  }

  lemma OneIn(b: BtShared, roots: set<nat>)
    requires Graph(b.pages, b.ptrmap, roots) && 1 in roots
    ensures 1 in b.pages
  {
  }

  lemma {:induction false} CountGrows(g: Geometry, m: nat, n: nat)
    requires m <= n
    ensures Count(g, m) <= Count(g, n) && (m < n && Content(g, n) ==> Count(g, m) < Count(g, n))
  {
    if m < n { CountGrows(g, m, n - 1); }
  }

  /** Roots come so early that none of them has to move. */
  lemma RootsStay(g: Geometry, roots: set<nat>, used: set<nat>, nFin: nat, r: nat)
    requires RootsFirst(g, roots) && roots <= used && |used| == Count(g, nFin) && r in roots && Content(g, r)
    ensures r <= nFin
  {
    hide Content, Count;
    if r > nFin {
      ContentSize(g, r);
      assert ContentSet(g, r) <= roots;
      SubsetSize(ContentSet(g, r), used);
      CountGrows(g, nFin, r);
    }
  }

  /** While a page after nFin is in use, a page before it is not. */
  lemma RoomBelow(g: Geometry, used: set<nat>, nFin: nat, k: nat) returns (p: nat)
    requires |used| == Count(g, nFin) && k in used && k > nFin
    ensures p in ContentSet(g, nFin) && p !in used
  {
    hide Content, Count;
    var all := ContentSet(g, nFin);
    if all <= used {
      ContentSize(g, nFin);
      SubsetSize(all, used - {k});
    }
    p :| p in all && p !in used;
  }

  // ---- vacuum on commit ----

  /** No page after k is in use, and every page up to nFin but one is in use or free. */
  ghost predicate Part(g: Geometry, free: multiset<nat>, roots: set<nat>, nFin: nat, k: nat, but: nat, pages: Pages, ptr: EntryMap) {
    && pages.Keys <= ContentSet(g, k) && |pages.Keys| == Count(g, nFin)
    && (forall p | p in ContentSet(g, nFin) && p != but :: p in pages || p in free)
    && (forall p | p in free :: p !in pages)
    && (forall r | r in roots :: r <= nFin)
    && (forall p | p in ContentSet(g, k) && p !in pages :: p in ptr && ptr[p].eType == FREEPAGE)
  }

  /** During the vacuum: no page after k is in use, and every page up to nFin is in use or free. */
  ghost predicate Middle(b: BtShared, roots: set<nat>, nFin: nat, k: nat)
    reads b
  {
    && b.Valid() && b.autoVacuum && Sound(b.pages, b.ptrmap, roots)
    && Part(b.g, b.Free(), roots, nFin, k, 0, b.pages, b.ptrmap)
  }

  lemma Entries(b: BtShared, roots: set<nat>, p: nat)
    requires Sound(b.pages, b.ptrmap, roots) && p in b.pages && p !in roots
    ensures p in b.ptrmap && (b.ptrmap[p].eType == BTREE || b.ptrmap[p].eType == OVERFLOW1 || b.ptrmap[p].eType == OVERFLOW2)
    ensures p != 0
  {
    hide At, Typed, Refers, NoMissing;
    assert Referred(b.pages, b.ptrmap, p);
  }

  /** Any free page. */
  method AllocateAny(b: BtShared, ghost p: nat) returns (to: nat)
    requires b.Valid() && b.autoVacuum && p in b.Free()
    modifies b`nFree, b`trunks, b`first, b`chain, b`nPage
    ensures b.Valid() && b.nPage == old(b.nPage) && to in old(b.Free()) && to >= 2 && Content(b.g, to)
    ensures forall q :: q in b.Free() <==> q in old(b.Free()) && q != to
    ensures |b.Free()| < old(|b.Free()|)
  {
    hide Content, BtShared.Lists;
    ghost var was := b.Free();
    HasFree(b, p);
    FreeOnce(b);
    FreeContent(b);
    var rc;
    rc, to := b.Allocate(0, ANY);
    FreePages.TakeOnce(was, to);
  }

  /** The pages up to nFin, but one, are in use or free. */
  ghost predicate Covered(b: BtShared, nFin: nat, but: nat)
    reads b
    requires b.Chained()
  {
    forall p | p in ContentSet(b.g, nFin) && p != but :: p in b.pages || p in b.Free()
  }

  /** A free page is taken that is not after nFin; free pages after nFin that are met on the way are dropped. */
  method AllocateBelow(b: BtShared, ghost roots: set<nat>, nFin: nat, k: nat) returns (to: nat)
    requires Middle(b, roots, nFin, k) && k in b.pages && k > nFin
    modifies b`nFree, b`trunks, b`first, b`chain, b`nPage
    ensures b.Valid() && b.nPage == old(b.nPage)
    ensures to in ContentSet(b.g, nFin) && to in old(b.Free()) && to !in b.Free() && Covered(b, nFin, to)
    ensures forall p | p in b.Free() :: p in old(b.Free())
  {
    hide Sound, Content, Count, BtShared.Lists;
    ghost var room := RoomBelow(b.g, b.pages.Keys, nFin, k);
    to := nFin + 1;
    while to > nFin
      invariant b.Valid() && b.nPage == old(b.nPage)
      invariant forall p | p in b.Free() :: p in old(b.Free())
      invariant if to > nFin then Covered(b, nFin, 0)
                else to in ContentSet(b.g, nFin) && to in old(b.Free()) && to !in b.Free() && Covered(b, nFin, to)
      decreases if to > nFin then 1 else 0, |b.Free()|
    {
      to := AllocateAny(b, room);
    }
  }

  /** What is known of page k before it is looked at. */
  lemma EntryAt(b: BtShared, roots: set<nat>, nFin: nat, k: nat)
    requires Middle(b, roots, nFin, k) && k > nFin && Content(b.g, k)
    ensures k in b.ptrmap && k !in roots && b.ptrmap[k].eType != ROOTPAGE
    ensures b.ptrmap[k].eType == FREEPAGE <==> k !in b.pages
    ensures k != 0
  {
    hide Sound, Content, Count, BtShared.Lists;
    assert k in ContentSet(b.g, k);
    if k in b.pages { Entries(b, roots, k); }
  }

  lemma NotContent(b: BtShared, roots: set<nat>, nFin: nat, k: nat)
    requires Middle(b, roots, nFin, k) && k > nFin && (IsMap(b.g, k) || k == b.g.pending)
    ensures Middle(b, roots, nFin, k - 1)
  {
    hide Sound, Count, BtShared.Lists, Part, IsMap;
    Skip(b, roots, nFin, k);
  }

  lemma PartBut(was: multiset<nat>, b: BtShared, roots: set<nat>, nFin: nat, k: nat, to: nat)
    requires b.Chained() && Part(b.g, was, roots, nFin, k, 0, b.pages, b.ptrmap) && Covered(b, nFin, to)
    requires to in was && to in ContentSet(b.g, nFin) && forall p | p in b.Free() :: p in was
    ensures Part(b.g, b.Free(), roots, nFin, k, to, b.pages, b.ptrmap) && to !in b.pages && to != 0
  {
    hide Content, Count;
  }

  lemma HasFree(b: BtShared, p: nat)
    requires b.Valid() && p in b.Free()
    ensures b.nFree > 0
  {
    hide BtShared.Lists;
    assert b.Free() != multiset{};
  }

  lemma FreeContent(b: BtShared)
    requires b.Valid() && b.autoVacuum
    ensures b.Chained() && forall p | p in b.Free() :: p >= 2 && Content(b.g, p)
  {
  }

  /** Nothing in use at k: the vacuum has come one page further. */
  lemma Skip(b: BtShared, roots: set<nat>, nFin: nat, k: nat)
    requires Middle(b, roots, nFin, k) && k > nFin && (Content(b.g, k) ==> k !in b.pages)
    ensures Middle(b, roots, nFin, k - 1)
  {
    hide Sound, Content, Count, BtShared.Valid;
    forall p | p in b.pages.Keys ensures p in ContentSet(b.g, k - 1) { assert p in ContentSet(b.g, k); }
    forall p | p in ContentSet(b.g, k - 1) ensures p in ContentSet(b.g, k) {}
  }

  /** When no page is free any more, all the pages in use are where they should be. */
  lemma NothingLeft(b: BtShared, roots: set<nat>, nFin: nat, k: nat)
    requires Middle(b, roots, nFin, k) && b.nFree == 0
    ensures b.pages.Keys == ContentSet(b.g, nFin)
  {
    hide Sound, Content, Count, BtShared.Lists;
    forall p | p in b.pages.Keys ensures p in ContentSet(b.g, nFin) {
      if p > nFin {
        var q := RoomBelow(b.g, b.pages.Keys, nFin, p);
        HasFree(b, q);
      } else {
        InContent(b.g, nFin, k, p);
      }
    }
    ContentSize(b.g, nFin);
    SubsetSize(b.pages.Keys, ContentSet(b.g, nFin));
  }

  lemma InContent(g: Geometry, n: nat, k: nat, p: nat)
    requires p in ContentSet(g, k) && p <= n
    ensures p in ContentSet(g, n)
  {
  }

  lemma MovedSize(a: set<nat>, from: nat, to: nat)
    requires from in a && to !in a
    ensures |a - {from} + {to}| == |a|
  {
  }

  /** The entry of a page not in use is not touched by a move, unless it is the place moved to. */
  lemma Untouched(pages: Pages, ptr: EntryMap, roots: set<nat>, from: nat, to: nat, ptr2: EntryMap, p: nat)
    requires Graph(pages, ptr, roots) && from in pages && from in ptr && MovedPtr(pages, ptr, ptr2, from, to)
    requires p in ptr && p !in pages && p != to && p != 0
    ensures p in ptr2 && ptr2[p] == ptr[p]
  {
    hide At, PG.Once, Referred;
    forall s ensures At(pages[from], s) != p { assert Refers(pages, ptr, roots, from, s); }
  }

  /** Page k moved to a place not after nFin: the vacuum has come one page further. */
  lemma MovedDown(g: Geometry, free: multiset<nat>, roots: set<nat>, nFin: nat, k: nat, to: nat, pages: Pages, ptr: EntryMap,
                  pages2: Pages, ptr2: EntryMap)
    requires Graph(pages, ptr, roots) && Part(g, free, roots, nFin, k, to, pages, ptr)
    requires k in pages && k > nFin && to in ContentSet(g, nFin) && to !in pages && to !in free && k in ptr
    requires Moved(pages, pages2, k, to) && MovedPtr(pages, ptr, ptr2, k, to)
    ensures Part(g, free, roots, nFin, k - 1, 0, pages2, ptr2)
  {
    hide Content, Count, At, Graph, MovedPtr, MovePage;
    MovedSize(pages.Keys, k, to);
    forall p | p in pages2.Keys ensures p in ContentSet(g, k - 1) {
      assert p == to || p in ContentSet(g, k);
    }
    forall p | p in ContentSet(g, k - 1) && p !in pages2 ensures p in ptr2 && ptr2[p].eType == FREEPAGE {
      assert p in ContentSet(g, k) && p !in pages;
      Untouched(pages, ptr, roots, k, to, ptr2, p);
    }
  }

  method SetPages(b: BtShared, pages2: Pages, ptr2: EntryMap)
    requires b.Valid()
    modifies b`pages, b`ptrmap
    ensures b.Valid() && b.pages == pages2 && b.ptrmap == ptr2 && b.Free() == old(b.Free())
  {
    hide FreePages.Linked, FreePages.Bag, FreePages.Once, FreePages.Short;
    b.pages, b.ptrmap := pages2, ptr2;
  }

  lemma CanMoveDown(pages: Pages, ptr: EntryMap, roots: set<nat>, from: nat, to: nat)
    requires Sound(pages, ptr, roots) && from in pages && from !in roots && to !in pages && to != 0
    ensures CanMove(pages, ptr, roots, from, to) && Graph(pages, ptr, roots)
  {
    hide At, Typed, Refers, NoMissing;
    assert Referred(pages, ptr, from);
  }

  /** incrVacuumStep, as autoVacuumCommit calls it. */
  method CommitStep(b: BtShared, ghost roots: set<nat>, nFin: nat, k: nat, ghost pages0: Pages, ghost f: map<nat, nat>)
    returns (r: Result, ghost f2: map<nat, nat>)
    requires Middle(b, roots, nFin, k) && k > nFin && Closed(pages0) && Image(pages0, b.pages, f)
    modifies b`nFree, b`trunks, b`first, b`chain, b`nPage, b`ptrmap, b`pages
    ensures r == Result.OK || r == DONE
    ensures b.nPage == old(b.nPage) && Image(pages0, b.pages, f2)
    ensures r == Result.OK ==> Middle(b, roots, nFin, k - 1)
    ensures r == DONE ==> Middle(b, roots, nFin, k) && b.pages.Keys == ContentSet(b.g, nFin)
  {
    hide Sound, Count, BtShared.Lists, Part, Image, Moved, MovedPtr, Closed, IsMap;
    r, f2 := Result.OK, f;
    if IsMap(b.g, k) || k == b.g.pending {
      NotContent(b, roots, nFin, k);
      return;
    }
    if b.nFree == 0 {
      NothingLeft(b, roots, nFin, k);
      return DONE, f;
    }
    EntryAt(b, roots, nFin, k);
    var e := b.ptrmap[k];
    if e.eType == ROOTPAGE { r := Result.CORRUPT; return; }
    if e.eType == FREEPAGE {
      Skip(b, roots, nFin, k);
    } else {
      var to := AllocateBelow(b, roots, nFin, k);
      PartBut(old(b.Free()), b, roots, nFin, k, to);
      CanMoveDown(b.pages, b.ptrmap, roots, k, to);
      var rc, pages2, ptr2 := RelocatePage(b.pages, b.ptrmap, roots, k, e.eType, e.parent, to);
      MovedDown(b.g, b.Free(), roots, nFin, k, to, b.pages, b.ptrmap, pages2, ptr2);
      ImageMoved(pages0, b.pages, pages2, f, k, to);
      f2 := After(f, k, to);
      SetPages(b, pages2, ptr2);
    }
  }

  lemma WholeStarts(b: BtShared, roots: set<nat>, nFin: nat)
    requires Whole(b, roots) && Count(b.g, nFin) == Count(b.g, b.nPage) - b.nFree && nFin <= b.nPage
    ensures Middle(b, roots, nFin, b.nPage)
  {
    hide Sound, Content, Count, BtShared.Lists, RootsFirst;
    InUse(b, roots);
    RootsIn(b.pages, b.ptrmap, roots);
    forall r | r in roots ensures r <= nFin {
      assert r in ContentSet(b.g, b.nPage);
      ContentOf(b.g, b.nPage, r);
      RootsStay(b.g, roots, b.pages.Keys, nFin, r);
    }
    forall p | p in ContentSet(b.g, nFin) ensures p in b.pages || p in b.Free() { InContent(b.g, b.nPage, nFin, p); }
  }

  lemma ContentOf(g: Geometry, n: nat, p: nat)
    ensures p in ContentSet(g, n) <==> 1 <= p <= n && Content(g, p)
  {
  }

  lemma RootsIn(pages: Pages, ptr: EntryMap, roots: set<nat>)
    requires Sound(pages, ptr, roots)
    ensures roots <= pages.Keys && Graph(pages, ptr, roots)
  {
    hide Refers, Referred, PG.Once, Typed;
  }

  /** The free-list is gone and the file ends after page nFin. */
  method Truncate(b: BtShared, nFin: nat)
    requires b.Valid() && Content(b.g, nFin)
    modifies b`nFree, b`trunks, b`first, b`chain, b`nPage
    ensures b.Valid() && b.Free() == multiset{} && b.nPage == nFin && b.nFree == 0
  {
    hide Content;
    ContentPlace(b.g, nFin);
    b.first, b.nFree, b.nPage := 0, 0, nFin;
    b.chain := [];
  }

  lemma ContentPlace(g: Geometry, n: nat)
    ensures Content(g, n) ==> n >= 1 && n != g.pending
  {
  }

  lemma WholeEnds(b: BtShared, roots: set<nat>)
    requires b.Valid() && b.autoVacuum && Sound(b.pages, b.ptrmap, roots) && RootsFirst(b.g, roots)
    requires b.pages.Keys == ContentSet(b.g, b.nPage) && b.Free() == multiset{} && Content(b.g, b.nPage)
    requires b.nPage + b.g.Entries() < U32 && 1 in roots
    ensures Whole(b, roots)
  {
    hide Sound, Content, Count, BtShared.Lists, RootsFirst;
  }

  /** At the end of the loop the pages in use are the content pages up to nFin. */
  lemma LoopEnds(b: BtShared, roots: set<nat>, nFin: nat)
    requires Middle(b, roots, nFin, nFin)
    ensures b.pages.Keys == ContentSet(b.g, nFin)
  {
    hide Sound, Content, Count, BtShared.Lists;
    ContentSize(b.g, nFin);
    SubsetSize(b.pages.Keys, ContentSet(b.g, nFin));
  }

  /** The loop of autoVacuumCommit: from the last page down, each page in use after nFin moves before it. */
  method CommitLoop(b: BtShared, ghost roots: set<nat>, nFin: nat, nOrig: nat, ghost pages0: Pages) returns (ghost f: map<nat, nat>)
    requires Middle(b, roots, nFin, nOrig) && nFin <= nOrig && b.pages == pages0 && Closed(pages0)
    modifies b`nFree, b`trunks, b`first, b`chain, b`nPage, b`ptrmap, b`pages
    ensures b.Valid() && Sound(b.pages, b.ptrmap, roots) && Image(pages0, b.pages, f)
    ensures b.pages.Keys == ContentSet(b.g, nFin)
    ensures nFin == nOrig ==> b.nPage == old(b.nPage) && b.Free() == old(b.Free())
  {
    hide Sound, Count, BtShared.Lists, Part, Image, Closed, RootsFirst, Content, IsMap;
    f := Identity(pages0);
    SelfImage(pages0);
    var rc, iFree := Result.OK, nOrig;
    while iFree > nFin && rc == Result.OK
      invariant nFin <= iFree && rc != Result.CORRUPT && Image(pages0, b.pages, f) && Middle(b, roots, nFin, iFree)
      invariant rc == Result.DONE ==> b.pages.Keys == ContentSet(b.g, nFin)
      invariant nFin == nOrig ==> b.nPage == old(b.nPage) && b.Free() == old(b.Free()) && iFree == nOrig
      decreases if rc == Result.OK then 1 else 0, iFree
    {
      rc, f := CommitStep(b, roots, nFin, iFree, pages0, f);
      if rc == Result.OK { iFree := iFree - 1; }
    }
    if rc == Result.OK { LoopEnds(b, roots, nFin); }
  }

  /** autoVacuumCommit: the file holds the pages in use and nothing else, under new numbers. */
  method AutoVacuumCommit(b: BtShared, ghost roots: set<nat>) returns (rc: Result, ghost f: map<nat, nat>)
    requires Whole(b, roots)
    modifies b`nFree, b`trunks, b`first, b`chain, b`nPage, b`ptrmap, b`pages
    ensures rc == Result.OK && Whole(b, roots) && Image(old(b.pages), b.pages, f)
    ensures b.Free() == multiset{} && b.pages.Keys == ContentSet(b.g, b.nPage) && b.nPage <= old(b.nPage)
  {
    hide Sound, Count, BtShared.Lists, Image, Closed, RootsFirst, Content, IsMap, Middle, Graph;
    rc := Result.OK;
    RootsIn(b.pages, b.ptrmap, roots);
    GraphClosed(b.pages, b.ptrmap, roots);
    var nOrig := b.nPage;
    NotMap(b.g, nOrig);
    if IsMap(b.g, nOrig) || nOrig == b.g.pending { rc := Result.CORRUPT; return; }
    InUse(b, roots);
    GeometryOk(b);
    var nFree := b.nFree;
    var nFin := FinalDbSize(b.g, nOrig, nFree);
    if nFin > nOrig { rc := Result.CORRUPT; return; }
    WholeStarts(b, roots, nFin);
    if nFree == 0 { AllKept(b, nFin); }
    f := CommitLoop(b, roots, nFin, nOrig, b.pages);
    if nFree > 0 { Truncate(b, nFin); }
    WholeEnds(b, roots);
  }

  lemma AllKept(b: BtShared, nFin: nat)
    requires b.Valid() && b.nFree == 0 && nFin <= b.nPage && Content(b.g, b.nPage) && Count(b.g, nFin) == Count(b.g, b.nPage)
    ensures nFin == b.nPage && b.Free() == multiset{}
  {
    hide Content, Count, BtShared.Lists;
    CountGrows(b.g, nFin, b.nPage);
  }

  lemma GeometryOk(b: BtShared)
    requires b.Valid()
    ensures b.g.Ok()
  {
  }

  lemma NotMap(g: Geometry, n: nat)
    ensures Content(g, n) ==> !IsMap(g, n) && n != g.pending
  {
  }
}
