/** relocatePage: a page gets another number, and every pointer to it and from it is set right. */
module Relocate {
  import opened Results
  import opened PageGraph

  /** ptrmapPut */
  method PtrmapPut(ptr: EntryMap, key: nat, eType: nat, parent: nat, rc: Rc) returns (rc2: Rc, ptr2: EntryMap)
    ensures rc2 == OK <==> rc == OK && key != 0
    ensures ptr2 == if rc2 == OK then ptr[key := Entry(eType, parent)] else ptr
  {
    rc2, ptr2 := rc, ptr;
    if rc != OK { return; }
    if key == 0 { rc2 := CORRUPT; return; }
    ptr2 := ptr[key := Entry(eType, parent)];
  }

  /** The order in which setChildPtrmaps comes to the slots of a page. */
  function Rank(p: Page, s: Slot): nat
    requires p.Btree?
  {
    match s
    case Ovfl(i) => 2 * i
    case Child(i) => 2 * i + 1
    case Right => 2 * |p.cells|
    case Next => 2 * |p.cells| + 1
  }

  /** The entries of the targets of the first m slots name page pgno; no other entry has changed. */
  ghost predicate Named(p: Page, pgno: nat, ptr: EntryMap, ptr2: EntryMap, m: nat)
    requires p.Btree?
  {
    && (forall q | q in ptr :: q in ptr2)
    && (forall s | Rank(p, s) < m && At(p, s) != 0 :: At(p, s) in ptr2 && ptr2[At(p, s)] == Entry(s.Kind(), pgno))
    && (forall q | q in ptr && (forall s :: Rank(p, s) < m ==> At(p, s) != q) :: ptr2[q] == ptr[q])
  }

  lemma NamedStep(p: Page, pgno: nat, ptr: EntryMap, ptr2: EntryMap, ptr3: EntryMap, s: Slot)
    requires p.Btree? && Once(p) && Named(p, pgno, ptr, ptr2, Rank(p, s)) && Rank(p, s) < 2 * |p.cells| + 1
    requires s.Child? || s.Ovfl? ==> s.i < |p.cells|
    requires ptr3 == if At(p, s) == 0 then ptr2 else ptr2[At(p, s) := Entry(s.Kind(), pgno)]
    ensures Named(p, pgno, ptr, ptr3, Rank(p, s) + 1)
  {
    var m, t := Rank(p, s), At(p, s);
    forall s2 | Rank(p, s2) < m + 1 && At(p, s2) != 0
      ensures At(p, s2) in ptr3 && ptr3[At(p, s2)] == Entry(s2.Kind(), pgno)
    {
      if Rank(p, s2) == m { SameRank(p, s, s2); }
    }
    forall q | q in ptr && (forall s2 :: Rank(p, s2) < m + 1 ==> At(p, s2) != q) ensures ptr3[q] == ptr[q] {
      assert Rank(p, s) < m + 1;
    }
  }

  lemma SameRank(p: Page, s: Slot, s2: Slot)
    requires p.Btree? && Rank(p, s) == Rank(p, s2) && At(p, s2) != 0 && Rank(p, s) < 2 * |p.cells| + 1
    requires s.Child? || s.Ovfl? ==> s.i < |p.cells|
    ensures s == s2
  {
  }

  /** setChildPtrmaps */
  method SetChildPtrmaps(p: Page, pgno: nat, ptr: EntryMap) returns (rc: Rc, ptr2: EntryMap)
    requires p.Btree? && Once(p) && NoMissing(p)
    ensures rc == OK && Named(p, pgno, ptr, ptr2, 2 * |p.cells| + 1)
  {
    hide At, Once, Named;
    rc, ptr2 := OK, ptr;
    NamedNone(p, pgno, ptr);
    for i := 0 to |p.cells|
      invariant rc == OK && Named(p, pgno, ptr, ptr2, 2 * i)
    {
      Slots(p, i);
      ghost var was := ptr2;
      if p.cells[i].ovfl != 0 {
        rc, ptr2 := PtrmapPut(ptr2, p.cells[i].ovfl, OVERFLOW1, pgno, rc);
      }
      NamedStep(p, pgno, ptr, was, ptr2, Ovfl(i));
      was := ptr2;
      if !p.leaf {
        rc, ptr2 := PtrmapPut(ptr2, p.cells[i].child, BTREE, pgno, rc);
      }
      NamedStep(p, pgno, ptr, was, ptr2, Child(i));
    }
    ghost var was := ptr2;
    RightSlot(p);
    if !p.leaf {
      rc, ptr2 := PtrmapPut(ptr2, p.right, BTREE, pgno, rc);
    }
    NamedStep(p, pgno, ptr, was, ptr2, Right);
  }

  lemma NamedNone(p: Page, pgno: nat, ptr: EntryMap)
    requires p.Btree?
    ensures Named(p, pgno, ptr, ptr, 0)
  {
  }

  lemma Slots(p: Page, i: nat)
    requires p.Btree? && i < |p.cells|
    ensures At(p, Ovfl(i)) == p.cells[i].ovfl && At(p, Child(i)) == if p.leaf then 0 else p.cells[i].child
  {
  }

  lemma RightSlot(p: Page)
    requires p.Btree?
    ensures At(p, Right) == if p.leaf then 0 else p.right
  {
  }

  /** An interior page has every child. */
  ghost predicate NoMissing(p: Page) {
    p.Btree? && !p.leaf ==> p.right != 0 && forall i | 0 <= i < |p.cells| :: p.cells[i].child != 0
  }

  /** modifyPagePointer: the first pointer of this kind to iFrom is set to iTo. */
  method ModifyPagePointer(p: Page, iFrom: nat, iTo: nat, eType: nat) returns (rc: Rc, q: Page)
    requires iFrom != 0 && Once(p) && (eType == OVERFLOW2 ==> p.Overflow?) && (eType != OVERFLOW2 ==> p.Btree?)
    requires exists s :: At(p, s) == iFrom && s.Kind() == eType
    ensures rc == OK && q == MovePage(p, iFrom, iTo)
  {
    hide MovePage;
    ghost var s :| At(p, s) == iFrom && s.Kind() == eType;
    rc, q := OK, p;
    if eType == OVERFLOW2 {
      if p.next != iFrom { rc := CORRUPT; return; }
      q := Overflow(iTo);
      OneMoved(p, q, iFrom, iTo, s);
      return;
    }
    var i := 0;
    while i < |p.cells|
      invariant i <= |p.cells| && q == p
      invariant forall t | 0 <= t < i :: if eType == OVERFLOW1 then p.cells[t].ovfl != iFrom else p.leaf || p.cells[t].child != iFrom
    {
      var c := p.cells[i];
      if eType == OVERFLOW1 {
        if c.ovfl == iFrom {
          q := p.(cells := p.cells[i := c.(ovfl := iTo)]);
          OneMoved(p, q, iFrom, iTo, Ovfl(i));
          return;
        }
      } else if c.child == iFrom {
        q := p.(cells := p.cells[i := c.(child := iTo)]);
        OneMoved(p, q, iFrom, iTo, Child(i));
        return;
      }
      i := i + 1;
    }
    if eType != BTREE || p.right != iFrom { rc := CORRUPT; return; }
    q := p.(right := iTo);
    OneMoved(p, q, iFrom, iTo, Right);
  }

  /** q is p with one slot set. */
  ghost predicate SetAt(p: Page, q: Page, s: Slot, to: nat) {
    match s
    case Child(i) => p.Btree? && !p.leaf && i < |p.cells| && q == p.(cells := p.cells[i := p.cells[i].(child := to)])
    case Ovfl(i) => p.Btree? && i < |p.cells| && q == p.(cells := p.cells[i := p.cells[i].(ovfl := to)])
    case Right => p.Btree? && !p.leaf && q == p.(right := to)
    case Next => p.Overflow? && q == Overflow(to)
  }

  lemma OneMoved(p: Page, q: Page, from: nat, to: nat, s: Slot)
    requires Once(p) && from != 0 && At(p, s) == from && SetAt(p, q, s, to)
    ensures q == MovePage(p, from, to)
  {
    if p.Btree? {
      forall i | 0 <= i < |p.cells| ensures q.cells[i] == MoveCell(p.leaf, p.cells[i], from, to) {
        assert At(p, Ovfl(i)) == from ==> Ovfl(i) == s;
        assert At(p, Child(i)) == from ==> Child(i) == s;
      }
      assert At(p, Right) == from ==> Right == s;
      assert q.cells == MovePage(p, from, to).cells;
    }
  }

  /** Child pointers lead to b-tree pages, the others to overflow pages. */
  ghost predicate Typed(pages: Pages) {
    forall p, s | p in pages && At(pages[p], s) in pages :: s.Kind() == BTREE <==> pages[At(pages[p], s)].Btree?
  }

  /** The database as a graph of pages; interior pages have all their children. */
  ghost predicate Sound(pages: Pages, ptr: EntryMap, roots: set<nat>) {
    Graph(pages, ptr, roots) && Typed(pages) && forall p | p in pages :: NoMissing(pages[p])
  }

  lemma Referrer(pages: Pages, ptr: EntryMap, roots: set<nat>, from: nat)
    requires Sound(pages, ptr, roots) && from in pages && from !in roots
    ensures from != 0 && from in ptr && ptr[from].parent in pages && ptr[from].parent != from
    ensures var e := ptr[from]; var q := pages[e.parent];
      && Once(q) && (exists s :: At(q, s) == from && s.Kind() == e.eType)
      && (if e.eType == OVERFLOW2 then q.Overflow? else q.Btree?)
      && (e.eType == BTREE || e.eType == OVERFLOW1 || e.eType == OVERFLOW2) && (e.eType == BTREE <==> pages[from].Btree?)
      && Once(pages[from]) && (pages[from].Btree? ==> NoMissing(pages[from]))
  {
    hide Once;
    assert Referred(pages, ptr, from);
    var q := ptr[from].parent;
    var s :| At(pages[q], s) == from && s.Kind() == ptr[from].eType;
    assert Refers(pages, ptr, roots, q, s);
  }

  /** The entries of the page's targets, and only they, have changed, and name page number to. */
  ghost predicate KidsDone(page: Page, to: nat, ptr: EntryMap, ptr2: EntryMap) {
    && (forall p | p in ptr :: p in ptr2)
    && (forall s :: var t := At(page, s); t != 0 ==> t in ptr2 && ptr2[t] == Entry(s.Kind(), to))
    && (forall p | p in ptr && (forall s :: At(page, s) != p) :: ptr2[p] == ptr[p])
  }

  lemma KidsNamed(page: Page, to: nat, ptr: EntryMap, ptr2: EntryMap)
    requires page.Btree? ==> Named(page, to, ptr, ptr2, 2 * |page.cells| + 1)
    requires page.Overflow? ==> ptr2 == if page.next == 0 then ptr else ptr[page.next := Entry(OVERFLOW2, to)]
    ensures KidsDone(page, to, ptr, ptr2)
  {
    if page.Overflow? { assert At(page, Next) == page.next; }
  }

  lemma OwnNamed(pages: Pages, ptr: EntryMap, roots: set<nat>, from: nat, to: nat, was: EntryMap, ptr2: EntryMap)
    requires CanMove(pages, ptr, roots, from, to) && KidsDone(pages[from], to, ptr, was) && ptr2 == was[to := ptr[from]]
    ensures MovedPtr(pages, ptr, ptr2, from, to)
  {
    hide At;
    forall s | At(pages[from], s) != 0 ensures At(pages[from], s) != to { assert Refers(pages, ptr, roots, from, s); }
  }

  lemma SamePage(p: Page, from: nat, to: nat)
    requires from != 0 && forall s :: At(p, s) != from
    ensures MovePage(p, from, to) == p
  {
    if p.Btree? {
      forall i | 0 <= i < |p.cells| ensures p.cells[i] == MoveCell(p.leaf, p.cells[i], from, to) {
        assert At(p, Ovfl(i)) != from && At(p, Child(i)) != from;
      }
      assert At(p, Right) != from;
      assert MovePage(p, from, to).cells == p.cells;
    } else {
      assert At(p, Next) != from;
    }
  }

  lemma AllMoved(pages: Pages, ptr: EntryMap, roots: set<nat>, from: nat, to: nat, pages2: Pages)
    requires CanMove(pages, ptr, roots, from, to) && from != 0 && ptr[from].parent in pages && ptr[from].parent != from
    requires var q := ptr[from].parent;
      pages2 == (map p | p in pages && p != from :: pages[p])[to := pages[from]][q := MovePage(pages[q], from, to)]
    ensures Moved(pages, pages2, from, to)
  {
    hide At, MovePage, Once, Referred;
    forall p | p in pages ensures pages2[Move(p, from, to)] == MovePage(pages[p], from, to) {
      if p != ptr[from].parent {
        forall s ensures At(pages[p], s) != from { assert Refers(pages, ptr, roots, p, s); }
        SamePage(pages[p], from, to);
      }
    }
  }

  lemma MovedRest(pages: Pages, ptr: EntryMap, roots: set<nat>, pages2: Pages, from: nat, to: nat)
    requires Sound(pages, ptr, roots) && CanMove(pages, ptr, roots, from, to) && from != 0 && Moved(pages, pages2, from, to)
    ensures Typed(pages2) && forall p | p in pages2 :: NoMissing(pages2[p])
  {
    hide Once, Refers, Referred, NoMissing, At;
    forall p2, s | p2 in pages2 && At(pages2[p2], s) in pages2
      ensures s.Kind() == BTREE <==> pages2[At(pages2[p2], s)].Btree?
    {
      var p := BackTo(pages, pages2, from, to, p2);
      TargetMoved(pages, ptr, roots, pages2, from, to, p, s);
    }
    forall p2 | p2 in pages2 ensures NoMissing(pages2[p2]) {
      var p := BackTo(pages, pages2, from, to, p2);
      MissingMoved(pages[p], from, to);
    }
  }

  lemma TargetMoved(pages: Pages, ptr: EntryMap, roots: set<nat>, pages2: Pages, from: nat, to: nat, p: nat, s: Slot)
    requires CanMove(pages, ptr, roots, from, to) && from != 0 && Moved(pages, pages2, from, to) && p in pages
    requires At(MovePage(pages[p], from, to), s) in pages2
    ensures At(pages[p], s) in pages && At(MovePage(pages[p], from, to), s) == Move(At(pages[p], s), from, to)
    ensures pages2[Move(At(pages[p], s), from, to)].Btree? == pages[At(pages[p], s)].Btree?
  {
    hide Once, Referred, At;
    assert Refers(pages, ptr, roots, p, s);
    assert pages2[Move(At(pages[p], s), from, to)] == MovePage(pages[At(pages[p], s)], from, to);
  }

  lemma MissingMoved(p: Page, from: nat, to: nat)
    requires NoMissing(p) && to != 0
    ensures NoMissing(MovePage(p, from, to))
  {
  }

  /** relocatePage: the reachable graph is its image under from -> to, and the entries are right again. */
  method RelocatePage(pages: Pages, ptr: EntryMap, ghost roots: set<nat>, from: nat, eType: nat, iPtrPage: nat, to: nat)
    returns (rc: Rc, pages2: Pages, ptr2: EntryMap)
    requires Sound(pages, ptr, roots) && CanMove(pages, ptr, roots, from, to) && ptr[from] == Entry(eType, iPtrPage)
    ensures rc == OK && Sound(pages2, ptr2, roots)
    ensures Moved(pages, pages2, from, to)
    ensures MovedPtr(pages, ptr, ptr2, from, to)
  {
    hide At, Once, Refers, MovePage, MovedPtr, Moved, Named, Graph, KidsDone, Typed, NoMissing;
    Referrer(pages, ptr, roots, from);
    var page := pages[from];
    pages2 := (map p | p in pages && p != from :: pages[p])[to := page];
    rc, ptr2 := MoveKids(page, eType, to, ptr);
    var q;
    rc, q := ModifyPagePointer(pages2[iPtrPage], from, to, eType);
    pages2 := pages2[iPtrPage := q];
    ghost var was := ptr2;
    rc, ptr2 := PtrmapPut(ptr2, to, eType, iPtrPage, rc);
    OwnNamed(pages, ptr, roots, from, to, was, ptr2);
    AllMoved(pages, ptr, roots, from, to, pages2);
    MovedGraph(pages, ptr, roots, pages2, ptr2, from, to);
    MovedRest(pages, ptr, roots, pages2, from, to);
  }

  /** The entries of the pages that the moved page points to. */
  method MoveKids(page: Page, eType: nat, to: nat, ptr: EntryMap) returns (rc: Rc, ptr2: EntryMap)
    requires Once(page) && (page.Btree? ==> NoMissing(page)) && (page.Btree? <==> eType == BTREE || eType == ROOTPAGE)
    ensures rc == OK && KidsDone(page, to, ptr, ptr2)
  {
    hide At, Once, Named, KidsDone, NoMissing;
    rc, ptr2 := OK, ptr;
    if eType == BTREE || eType == ROOTPAGE {
      rc, ptr2 := SetChildPtrmaps(page, to, ptr);
    } else {
      var nextOvfl := page.next;
      if nextOvfl != 0 { rc, ptr2 := PtrmapPut(ptr, nextOvfl, OVERFLOW2, to, rc); }
    }
    KidsNamed(page, to, ptr, ptr2);
  }
}
