/** One step of an incremental vacuum: the last page of the file goes out of use. */
module IncrVacuum {
  import opened PtrMap
  import opened FL = Allocator
  import opened PG = PageGraph
  import opened RL = Relocate
  import opened Vacuum

  /** The page before n that is a content page. */
  method Before(g: Geometry, n: nat) returns (p: nat)
    requires g.Ok() && n > 1
    ensures 1 <= p < n && Content(g, p) && ContentSet(g, p) == ContentSet(g, n - 1)
  {
    hide Pageno;
    p := n - 1;
    OneContent(g);
    while p == g.pending || IsMap(g, p)
      invariant 1 <= p < n && ContentSet(g, p) == ContentSet(g, n - 1)
      decreases p
    {
      assert p != 1;
      ContentLess(g, p);
      p := p - 1;
    }
  }

  lemma OneContent(g: Geometry)
    requires g.Ok()
    ensures Content(g, 1)
  {
  }

  lemma ContentLess(g: Geometry, p: nat)
    requires p >= 1
    ensures ContentSet(g, p - 1) == ContentSet(g, p) - {p}
    ensures !Content(g, p) ==> ContentSet(g, p - 1) == ContentSet(g, p)
  {
  }

  /** Every content page before k is in use or free, and page k is neither. */
  ghost predicate Gone(g: Geometry, free: multiset<nat>, pages: Pages, ptr: EntryMap, k: nat) {
    && (forall p :: p in pages || p in free <==> p in ContentSet(g, k) && p != k)
    && (forall p | p in free :: p !in pages && p in ptr && ptr[p].eType == FREEPAGE)
  }

  /** The last page is free: it is taken from the free-list. */
  method DropLast(b: BtShared, ghost roots: set<nat>)
    requires Whole(b, roots) && b.nPage !in b.pages && b.nPage in b.ptrmap
    modifies b`nFree, b`trunks, b`first, b`chain, b`nPage
    ensures b.Valid() && b.nPage == old(b.nPage) && b.nFree == old(b.nFree) - 1
    ensures Gone(b.g, b.Free(), b.pages, b.ptrmap, b.nPage)
  {
    hide Sound, Content, Count, BtShared.Lists, RootsFirst;
    LastFree(b, roots);
    ghost var was := b.Free();
    HasFree(b, b.nPage);
    FreeOnce(b);
    var rc, iFreePg := b.Allocate(b.nPage, EXACT);
    FreePages.TakeOnce(was, iFreePg);
    FreeOnce(b);
  }

  lemma LastFree(b: BtShared, roots: set<nat>)
    requires Whole(b, roots) && b.nPage !in b.pages
    ensures b.nPage in b.Free() && b.nPage > 0
  {
    hide Sound, Count, BtShared.Lists, RootsFirst, IsMap;
    assert b.nPage in ContentSet(b.g, b.nPage);
  }

  /** A free page not after nFin. */
  method TakeRoom(b: BtShared, ghost roots: set<nat>, nFin: nat) returns (to: nat)
    requires Whole(b, roots) && b.nPage in b.pages && b.nPage > nFin && |b.pages.Keys| == Count(b.g, nFin)
    modifies b`nFree, b`trunks, b`first, b`chain, b`nPage
    ensures b.Valid() && b.nPage == old(b.nPage) && b.nFree == old(b.nFree) - 1
    ensures to in old(b.Free()) && to <= nFin && forall q :: q in b.Free() <==> q in old(b.Free()) && q != to
  {
    hide Sound, Content, Count, BtShared.Lists, RootsFirst;
    ghost var room := RoomBelow(b.g, b.pages.Keys, nFin, b.nPage);
    InContent(b.g, b.nPage, nFin, room);
    ContentOf(b.g, nFin, room);
    ghost var was := b.Free();
    HasFree(b, room);
    FreeOnce(b);
    var rc;
    rc, to := b.Allocate(nFin, LE);
    FreePages.TakeOnce(was, to);
    FreeOnce(b);
  }

  /** The last page moved into a free page. */
  lemma MovedGone(g: Geometry, was: multiset<nat>, free: multiset<nat>, pages: Pages, ptr: EntryMap, roots: set<nat>, k: nat, to: nat,
                  pages2: Pages, ptr2: EntryMap)
    requires Graph(pages, ptr, roots) && k in pages && k in ptr && to in was && to != k
    requires forall p :: p in pages || p in was <==> p in ContentSet(g, k)
    requires forall p | p in was :: p !in pages && p in ptr && ptr[p].eType == FREEPAGE
    requires forall q :: q in free <==> q in was && q != to
    requires Moved(pages, pages2, k, to) && MovedPtr(pages, ptr, ptr2, k, to)
    ensures Gone(g, free, pages2, ptr2, k)
  {
    hide Content, Graph, MovedPtr, MovePage, ContentSet;
    forall p | p in free ensures p !in pages2 && p in ptr2 && ptr2[p].eType == FREEPAGE {
      ContentOf(g, k, p);
      Untouched(pages, ptr, roots, k, to, ptr2, p);
    }
  }

  /** The file ends with the last content page before k. */
  method Shrink(b: BtShared, ghost roots: set<nat>, k: nat)
    requires b.Valid() && b.autoVacuum && b.nPage == k && Sound(b.pages, b.ptrmap, roots) && RootsFirst(b.g, roots)
    requires k + b.g.Entries() < U32 && 1 in roots && Gone(b.g, b.Free(), b.pages, b.ptrmap, k)
    modifies b`nPage
    ensures Whole(b, roots) && b.nPage < k && b.nFree == old(b.nFree)
  {
    hide Content, Sound, RootsFirst, FreePages.Linked, FreePages.Bag, FreePages.Once, FreePages.Short;
    SomePage(b, roots);
    ContentOf(b.g, k, 1);
    ghost var free := b.Free();
    var p := Before(b.g, k);
    ContentPlace(b.g, p);
    ContentLess(b.g, k);
    forall q | q in free ensures q <= p { ContentOf(b.g, p, q); }
    b.nPage := p;
  }

  /** The last page, which is in use, moves to a free page not after nFin. */
  method MoveLast(b: BtShared, ghost roots: set<nat>, nFin: nat) returns (ghost f: map<nat, nat>)
    requires Whole(b, roots) && b.nPage in b.pages && b.nPage !in roots && b.nPage > nFin && |b.pages.Keys| == Count(b.g, nFin)
    modifies b`nFree, b`trunks, b`first, b`chain, b`nPage, b`ptrmap, b`pages
    ensures b.Valid() && b.nPage == old(b.nPage) && b.nFree == old(b.nFree) - 1 && Sound(b.pages, b.ptrmap, roots)
    ensures Gone(b.g, b.Free(), b.pages, b.ptrmap, b.nPage) && Image(old(b.pages), b.pages, f)
  {
    hide Whole, Sound, Count, BtShared.Lists, Image, Closed, RootsFirst, Content, IsMap, Graph, Moved, MovedPtr, ContentSet, Gone, MovePage;
    var k := b.nPage;
    Opened(b, roots);
    ghost var was := b.Free();
    var to := TakeRoom(b, roots, nFin);
    WasFree(b.g, was, b.pages, k, to);
    f := MoveTo(b, roots, was, to);
  }

  method MoveTo(b: BtShared, ghost roots: set<nat>, ghost was: multiset<nat>, to: nat) returns (ghost f: map<nat, nat>)
    requires b.Valid() && Sound(b.pages, b.ptrmap, roots) && b.nPage in b.pages && b.nPage !in roots
    requires to in was && to != 0 && to !in b.pages
    requires forall p :: p in b.pages || p in was <==> p in ContentSet(b.g, b.nPage)
    requires forall p | p in was :: p !in b.pages && p in b.ptrmap && b.ptrmap[p].eType == FREEPAGE
    requires forall q :: q in b.Free() <==> q in was && q != to
    modifies b`ptrmap, b`pages
    ensures b.Valid() && Sound(b.pages, b.ptrmap, roots) && b.Free() == old(b.Free())
    ensures Gone(b.g, b.Free(), b.pages, b.ptrmap, b.nPage) && Image(old(b.pages), b.pages, f)
  {
    hide Sound, BtShared.Lists, Image, Closed, Content, IsMap, Graph, Moved, MovedPtr, ContentSet, Gone, MovePage;
    var k := b.nPage;
    SelfImage(b.pages);
    RootsIn(b.pages, b.ptrmap, roots);
    GraphClosed(b.pages, b.ptrmap, roots);
    CanMoveDown(b.pages, b.ptrmap, roots, k, to);
    Entries(b, roots, k);
    var e := b.ptrmap[k];
    var rc2, pages2, ptr2 := RelocatePage(b.pages, b.ptrmap, roots, k, e.eType, e.parent, to);
    MovedGone(b.g, was, b.Free(), b.pages, b.ptrmap, roots, k, to, pages2, ptr2);
    ImageMoved(b.pages, b.pages, pages2, Identity(b.pages), k, to);
    f := After(Identity(b.pages), k, to);
    SetPages(b, pages2, ptr2);
  }

  lemma WasFree(g: Geometry, free: multiset<nat>, pages: Pages, k: nat, p: nat)
    requires p in free && forall q :: q in pages || q in free <==> q in ContentSet(g, k)
    requires forall q | q in free :: q !in pages
    ensures p != 0 && p !in pages
  {
    hide Content;
  }

  /** sqlite3BtreeIncrVacuum with the step it takes. */
  method Step(b: BtShared, ghost roots: set<nat>) returns (rc: Result, ghost f: map<nat, nat>)
    requires Whole(b, roots)
    modifies b`nFree, b`trunks, b`first, b`chain, b`nPage, b`ptrmap, b`pages
    ensures Whole(b, roots) && Image(old(b.pages), b.pages, f)
    ensures old(b.nFree) == 0 ==> rc == Result.DONE && b.pages == old(b.pages) && b.nPage == old(b.nPage)
    ensures old(b.nFree) > 0 ==> rc == Result.OK && b.nFree == old(b.nFree) - 1 && b.nPage < old(b.nPage)
  {
    hide Whole, Sound, Count, BtShared.Lists, Image, Closed, RootsFirst, Content, IsMap, Middle, Gone;
    rc, f := Result.OK, Identity(b.pages);
    SelfImage(b.pages);
    Opened(b, roots);
    InUse(b, roots);
    GeometryOk(b);
    var nOrig, nFree := b.nPage, b.nFree;
    var nFin := FinalDbSize(b.g, nOrig, nFree);
    if nOrig < nFin { rc := Result.CORRUPT; return; }
    if nFree == 0 { rc := Result.DONE; return; }
    WholeStarts(b, roots, nFin);
    EntryAt(b, roots, nFin, nOrig);
    var e := b.ptrmap[nOrig];
    if e.eType == ROOTPAGE { rc := Result.CORRUPT; return; }
    if e.eType == FREEPAGE {
      DropLast(b, roots);
    } else {
      f := MoveLast(b, roots, nFin);
    }
    Shrink(b, roots, nOrig);
  }

  lemma Opened(b: BtShared, roots: set<nat>)
    requires Whole(b, roots)
    ensures b.Valid() && b.autoVacuum && Sound(b.pages, b.ptrmap, roots) && RootsFirst(b.g, roots)
    ensures Content(b.g, b.nPage) && b.nPage + b.g.Entries() < U32 && 1 in roots
    ensures forall p :: p in b.pages || p in b.Free() <==> p in ContentSet(b.g, b.nPage)
    ensures forall p | p in b.Free() :: p !in b.pages && p in b.ptrmap && b.ptrmap[p].eType == FREEPAGE
  {
    hide Sound, Content, RootsFirst, BtShared.Lists;
  }
}
