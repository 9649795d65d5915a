/** The pages in use and the pointers between them, and what moving a page does to both. */
module PageGraph {

  const ROOTPAGE: nat := 1
  const FREEPAGE: nat := 2
  const OVERFLOW1: nat := 3
  const OVERFLOW2: nat := 4
  const BTREE: nat := 5

  /** An entry of the pointer map. */
  datatype Entry = Entry(eType: nat, parent: nat)

  /** What a cell points to: a child, on an interior page, and its first overflow page, 0 if it has none. */
  datatype CellPtrs = CellPtrs(child: nat, ovfl: nat)

  datatype Page = Btree(leaf: bool, cells: seq<CellPtrs>, right: nat) | Overflow(next: nat)

  /** A place on a page where a page number stands. */
  datatype Slot = Child(i: nat) | Ovfl(i: nat) | Right | Next {
    function Kind(): nat {
      match this
      case Child(_) => BTREE
      case Ovfl(_) => OVERFLOW1
      case Right => BTREE
      case Next => OVERFLOW2
    }
  }

  /** The page number in a slot, 0 if there is none. */
  function At(p: Page, s: Slot): nat {
    match p
    case Btree(leaf, cells, right) =>
      (match s
       case Child(i) => if !leaf && i < |cells| then cells[i].child else 0
       case Ovfl(i) => if i < |cells| then cells[i].ovfl else 0
       case Right => if leaf then 0 else right
       case Next => 0)
    case Overflow(next) => if s.Next? then next else 0
  }

  type Pages = map<nat, Page>
  type EntryMap = map<nat, Entry>

  /** A pointer leads to a page in use, other than a root, whose entry names where it comes from. */
  ghost predicate Refers(pages: Pages, ptr: EntryMap, roots: set<nat>, p: nat, s: Slot)
    requires p in pages
  {
    var t := At(pages[p], s);
    t != 0 ==> t in pages && t !in roots && t != p && t in ptr && ptr[t] == Entry(s.Kind(), p)
  }

  ghost predicate Referred(pages: Pages, ptr: EntryMap, p: nat) {
    p in ptr && ptr[p].parent in pages && exists s :: At(pages[ptr[p].parent], s) == p && s.Kind() == ptr[p].eType
  }

  ghost predicate Once(p: Page) { forall s, t :: At(p, s) == At(p, t) != 0 ==> s == t }

  /** Every page but the roots has exactly one referrer, the one its pointer-map entry names. */
  ghost predicate Graph(pages: Pages, ptr: EntryMap, roots: set<nat>) {
    && 0 !in pages && roots <= pages.Keys
    && (forall p, s | p in pages :: Refers(pages, ptr, roots, p, s))
    && (forall p | p in pages :: Once(pages[p]))
    && (forall p | p in pages && p !in roots :: Referred(pages, ptr, p))
  }

  // ---- renaming ----

  function Move(x: nat, from: nat, to: nat): nat { if x == from then to else x }

  function MoveCell(leaf: bool, c: CellPtrs, from: nat, to: nat): CellPtrs {
    CellPtrs(if leaf then c.child else Move(c.child, from, to), Move(c.ovfl, from, to))
  }

  /** A page with every pointer to from made a pointer to to. */
  function MovePage(p: Page, from: nat, to: nat): (q: Page)
    ensures forall s | from != 0 :: At(q, s) == Move(At(p, s), from, to)
  {
    match p
    case Btree(leaf, cells, right) =>
      Btree(leaf, seq(|cells|, i requires 0 <= i < |cells| => MoveCell(leaf, cells[i], from, to)), if leaf then right else Move(right, from, to))
    case Overflow(next) => Overflow(Move(next, from, to))
  }

  /** The whole graph with page from become page to. */
  ghost predicate Moved(pages: Pages, pages2: Pages, from: nat, to: nat) {
    && pages2.Keys == pages.Keys - {from} + {to}
    && forall p | p in pages :: pages2[Move(p, from, to)] == MovePage(pages[p], from, to)
  }

  /** The entries that a move leaves: those of the children of the page and its own are new. */
  ghost predicate MovedPtr(pages: Pages, ptr: EntryMap, ptr2: EntryMap, from: nat, to: nat)
    requires from in pages && from in ptr
  {
    && (forall p | p in ptr :: p in ptr2)
    && to in ptr2 && ptr2[to] == ptr[from]
    && (forall s :: var t := At(pages[from], s); t != 0 ==> t in ptr2 && ptr2[t] == Entry(s.Kind(), to))
    && (forall p | p in ptr && p != to && (forall s :: At(pages[from], s) != p) :: ptr2[p] == ptr[p])
  }

  /** What a move starts from. */
  ghost predicate CanMove(pages: Pages, ptr: EntryMap, roots: set<nat>, from: nat, to: nat) {
    Graph(pages, ptr, roots) && from in pages && from !in roots && to !in pages && to != 0 && from in ptr
  }

  lemma BackTo(pages: Pages, pages2: Pages, from: nat, to: nat, p2: nat) returns (p: nat)
    requires Moved(pages, pages2, from, to) && p2 in pages2 && from in pages && to !in pages
    ensures p in pages && p2 == Move(p, from, to) && pages2[p2] == MovePage(pages[p], from, to)
  {
    p := if p2 == to then from else p2;
  }

  lemma MovedRefers(pages: Pages, ptr: EntryMap, roots: set<nat>, pages2: Pages, ptr2: EntryMap, from: nat, to: nat, p: nat, s: Slot)
    requires CanMove(pages, ptr, roots, from, to) && Moved(pages, pages2, from, to) && MovedPtr(pages, ptr, ptr2, from, to)
    requires p in pages && p != 0
    ensures Move(p, from, to) in pages2 && Refers(pages2, ptr2, roots, Move(p, from, to), s)
    ensures At(pages2[Move(p, from, to)], s) == Move(At(pages[p], s), from, to)
  {
    hide At, Once, Referred, MovePage;
    assert Refers(pages, ptr, roots, p, s);
    assert pages2[Move(p, from, to)] == MovePage(pages[p], from, to);
    var t := At(pages[p], s);
    if t != 0 && t != from && p != from {
      forall s2 ensures At(pages[from], s2) != t { assert Refers(pages, ptr, roots, from, s2); }
    }
  }

  lemma MovedReferred(pages: Pages, ptr: EntryMap, roots: set<nat>, pages2: Pages, ptr2: EntryMap, from: nat, to: nat, p: nat)
    requires CanMove(pages, ptr, roots, from, to) && Moved(pages, pages2, from, to) && MovedPtr(pages, ptr, ptr2, from, to)
    requires p in pages && p !in roots
    ensures Referred(pages2, ptr2, Move(p, from, to))
  {
    hide At, Once, MovePage, Moved, MovedPtr;
    assert Referred(pages, ptr, p);
    var q := ptr[p].parent;
    var s :| At(pages[q], s) == p && s.Kind() == ptr[p].eType;
    assert p != 0;
    MovedRefers(pages, ptr, roots, pages2, ptr2, from, to, q, s);
  }

  lemma MovedOnce(pages: Pages, ptr: EntryMap, roots: set<nat>, pages2: Pages, from: nat, to: nat, p: nat)
    requires CanMove(pages, ptr, roots, from, to) && Moved(pages, pages2, from, to) && p in pages
    ensures Move(p, from, to) in pages2 && Once(pages2[Move(p, from, to)])
  {
    hide At, Referred, MovePage;
    var q := pages2[Move(p, from, to)];
    assert q == MovePage(pages[p], from, to);
    forall s, t | At(q, s) == At(q, t) != 0 ensures s == t {
      assert Refers(pages, ptr, roots, p, s) && Refers(pages, ptr, roots, p, t);
      assert Once(pages[p]);
    }
  }

  /** A moved graph is again one in which every entry names the unique referrer. */
  lemma MovedGraph(pages: Pages, ptr: EntryMap, roots: set<nat>, pages2: Pages, ptr2: EntryMap, from: nat, to: nat)
    requires CanMove(pages, ptr, roots, from, to)
    requires Moved(pages, pages2, from, to) && MovedPtr(pages, ptr, ptr2, from, to)
    ensures Graph(pages2, ptr2, roots)
  {
    hide At, Refers, Referred, Once, MovedPtr, MovePage;
    forall p2, s | p2 in pages2 ensures Refers(pages2, ptr2, roots, p2, s) {
      var p := BackTo(pages, pages2, from, to, p2);
      MovedRefers(pages, ptr, roots, pages2, ptr2, from, to, p, s);
    }
    forall p2 | p2 in pages2 ensures Once(pages2[p2]) {
      var p := BackTo(pages, pages2, from, to, p2);
      MovedOnce(pages, ptr, roots, pages2, from, to, p);
    }
    forall p2 | p2 in pages2 && p2 !in roots ensures Referred(pages2, ptr2, p2) {
      var p := BackTo(pages, pages2, from, to, p2);
      MovedReferred(pages, ptr, roots, pages2, ptr2, from, to, p);
    }
  }
}
