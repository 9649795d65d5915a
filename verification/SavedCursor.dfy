/** Cursors saved before a change of the tree and restored after it. */
module SavedCursor {
  import opened CursorTree
  import opened Search
  import opened Cursor

  /** The entries from a key on, the key itself included or not. */
  predicate From(x: int, key: int, incl: bool) { x > key || (incl && x == key) }

  predicate UpTil(x: int, key: int, incl: bool) { x < key || (incl && x == key) }

  /** The cursor is on the least of these entries, or there is none. */
  ghost predicate OnLeast(c: BtCursor, key: int, incl: bool, eof: bool)
    reads c
  {
    if eof then forall i | 0 <= i < |c.Entries()| :: !From(c.Entries()[i], key, incl)
    else c.At() && c.Pos() < |c.Entries()| && From(c.Entries()[c.Pos()], key, incl)
         && forall i | 0 <= i < c.Pos() && i < |c.Entries()| :: !From(c.Entries()[i], key, incl)
  }

  ghost predicate OnGreatest(c: BtCursor, key: int, incl: bool, bof: bool)
    reads c
  {
    if bof then forall i | 0 <= i < |c.Entries()| :: !UpTil(c.Entries()[i], key, incl)
    else c.At() && c.Pos() < |c.Entries()| && UpTil(c.Entries()[c.Pos()], key, incl)
         && forall i | c.Pos() < i < |c.Entries()| :: !UpTil(c.Entries()[i], key, incl)
  }

  /** Bitwise or of -1, 0 and 1. */
  function Or(a: int, b: int): int { if a == -1 || b == -1 then -1 else if a == 1 || b == 1 then 1 else 0 }

  ghost predicate Ordered(c: BtCursor)
    reads c
  {
    TreeOk(c.root) && (Shape(c.root) ==> Ord(c.table, c.root))
  }

  /** saveCursorPosition: the key of the entry is kept, and on which side of it the cursor belongs. */
  method Save(c: BtCursor)
    requires c.Valid() && (c.eState == VALID || c.eState == SKIPNEXT) && -1 <= c.skipNext <= 1
    modifies c`eState, c`skipNext, c`nKey
    ensures c.eState == REQUIRESEEK && c.Pos() < |c.Entries()| && c.nKey == c.Entries()[c.Pos()]
    ensures c.skipNext == if old(c.eState) == SKIPNEXT then old(c.skipNext) else 0
  {
    hide Flat, LeftOf, RightOf, Way, Position;
    if c.eState == SKIPNEXT { c.eState := VALID; } else { c.skipNext := 0; }
    EntryAt(c.table, c.path);
    c.nKey := Last(c.path).node.keys[Last(c.path).idx];
    c.eState := REQUIRESEEK;
  }

  /** Anything may happen to the tree while the cursor is saved. */
  method Change(c: BtCursor, root: Node)
    requires c.eState == REQUIRESEEK && TreeOk(root) && (Shape(root) ==> Ord(c.table, root))
    modifies c`root
    ensures c.root == root && Ordered(c) && c.Valid()
  {
    c.root := root;
  }

  /** How the entry that a restored cursor comes to will compare with the saved key. */
  ghost function Landing(c: BtCursor): int
    reads c
  {
    SearchSign(c.table, c.root, c.nKey, false)
  }

  /** The saved key is there just if the cursor lands on it; else it lands on an entry that is there. */
  lemma LandingTells(c: BtCursor)
    requires Ordered(c)
    ensures -1 <= Landing(c) <= 1 && (Landing(c) == 0 <==> c.nKey in c.Entries())
    ensures Landing(c) > 0 ==> exists x :: x in c.Entries() && x > c.nKey
    ensures Landing(c) < 0 ==> c.Entries() == [] || exists x :: x in c.Entries() && x < c.nKey
  {
    hide Ord;
    if Shape(c.root) { SignTells(c.table, c.root, c.nKey, false); }
  }

  /** btreeRestoreCursorPosition; landed: how the entry the cursor comes to compares with the saved key. */
  method Restore(c: BtCursor) returns (landed: int)
    requires Ordered(c) && c.eState == REQUIRESEEK
    modifies c`path, c`eState, c`skipNext
    ensures c.Valid() && -1 <= landed <= 1 && c.skipNext == Or(old(c.skipNext), landed)
    ensures if c.Entries() == [] then c.eState == INVALID && landed == -1
            else c.Found(c.nKey, landed) && c.eState == if c.skipNext != 0 then SKIPNEXT else VALID
    ensures landed == Landing(c)
  {
    hide Flat, LeftOf, RightOf, Way, Position, Around1, Ord, Shape, SearchSign;
    c.eState := INVALID;
    landed := c.Moveto(c.nKey, false);
    c.skipNext := Or(c.skipNext, landed);
    if c.skipNext != 0 && c.eState == VALID { c.eState := SKIPNEXT; }
  }

  /** A cursor that was saved just after an entry (skipNext -1) will find itself on a greater one, and take it for the
      one before. */
  ghost predicate Mistaken(c: BtCursor)
    reads c
  {
    c.skipNext < 0 && Landing(c) > 0
  }

  /** That needs an entry greater than a saved key that is gone. */
  lemma NotMistaken(c: BtCursor)
    requires Ordered(c) && (c.skipNext >= 0 || c.nKey in c.Entries() || forall x | x in c.Entries() :: x <= c.nKey)
    ensures !Mistaken(c)
  {
    LandingTells(c);
  }

  /** sqlite3BtreeNext of a saved cursor comes to the least entry after the place that was saved, just if the cursor is not
      mistaken; else it passes over the least entry. */
  method NextSaved(c: BtCursor) returns (eof: bool)
    requires Ordered(c) && c.eState == REQUIRESEEK && -1 <= c.skipNext <= 1
    modifies c`path, c`eState, c`skipNext
    ensures c.Valid() && (if eof then c.eState == INVALID else c.eState == VALID)
    ensures OnLeast(c, c.nKey, old(c.skipNext) > 0, eof) <==> !old(Mistaken(c))
  {
    hide Flat, LeftOf, RightOf, Way, Position, Ord, Shape, SearchSign;
    var landed := Restore(c);
    if c.eState == INVALID { return true; }
    if c.skipNext != 0 {
      c.eState := VALID;
      if c.skipNext > 0 {
        c.skipNext := 0;
        return false;
      }
      c.skipNext := 0;
    }
    eof := c.Next();
  }

  /** sqlite3BtreePrevious of a saved cursor, with the same exception: it comes to the greater entry. */
  method PreviousSaved(c: BtCursor) returns (bof: bool)
    requires Ordered(c) && c.eState == REQUIRESEEK && -1 <= c.skipNext <= 1
    modifies c`path, c`eState, c`skipNext
    ensures c.Valid() && (if bof then c.eState == INVALID else c.eState == VALID)
    ensures OnGreatest(c, c.nKey, old(c.skipNext) < 0, bof) <==> !old(Mistaken(c))
  {
    hide Flat, LeftOf, RightOf, Way, Position, Ord, Shape, SearchSign;
    var landed := Restore(c);
    if c.eState == INVALID { return true; }
    if c.skipNext != 0 {
      c.eState := VALID;
      if c.skipNext < 0 {
        c.skipNext := 0;
        return false;
      }
      c.skipNext := 0;
    }
    bof := c.Previous();
  }

  // ---- a delete that keeps the cursor's position ----

  /** The way to a page that takes the place of the last one, with the pages above it changed accordingly. */
  ghost function NewWay(path: seq<Frame>, n: Node): seq<Frame>
    requires Way(path)
    decreases |path|
  {
    if |path| == 1 then [Frame(n, path[0].idx)]
    else
      var up := path[..|path| - 1];
      var f := Last(up);
      NewWay(up, f.node.(kids := f.node.kids[f.idx := n])) + [Frame(n, Last(path).idx)]
  }

  lemma {:induction false} LeftSame(table: bool, ks: seq<int>, cs: seq<Node>, i: nat, n: Node)
    requires i < |cs| == |ks| + 1
    ensures Left(table, ks, cs[i := n], i) == Left(table, ks, cs, i) && Right(table, ks, cs[i := n], i) == Right(table, ks, cs, i)
    decreases i
  {
    hide Flat;
    if i > 0 {
      assert cs[i := n][1..] == cs[1..][i - 1 := n];
      LeftSame(table, ks[1..], cs[1..], i - 1, n);
    } else {
      assert cs[0 := n][1..] == cs[1..];
    }
  }

  /** The entries before and after the changed page are the same. */
  lemma {:induction false} NewWayOk(table: bool, path: seq<Frame>, n: Node)
    requires Way(path) && Shape(n)
    ensures var p := NewWay(path, n);
      |p| == |path| && Way(p) && Last(p) == Frame(n, Last(path).idx)
      && LeftOf(table, p) == LeftOf(table, path) && RightOf(table, p) == RightOf(table, path)
    decreases |path|
  {
    hide Left, Right, Flat;
    if |path| > 1 {
      var up := path[..|path| - 1];
      var f := Last(up);
      KidsHere(up);
      var g := f.node.(kids := f.node.kids[f.idx := n]);
      ParentShape(f.node, f.idx, n);
      NewWayOk(table, up, g);
      LeftSame(table, f.node.keys, f.node.kids, f.idx, n);
      var q := NewWay(up, g);
      Push(table, q, Last(path).idx);
    }
  }

  lemma ParentShape(p: Node, i: nat, n: Node)
    requires Shape(p) && p.Inner? && i < |p.kids| && Shape(n)
    ensures Shape(p.(kids := p.kids[i := n]))
  {
  }

  /** The tree without the cell on the last page of the way. */
  function Rebuilt(path: seq<Frame>, n: Node): Node
    requires path != [] && forall l | 0 <= l < |path| - 1 :: path[l].node.Inner? && path[l].idx < |path[l].node.kids|
    decreases |path|
  {
    if |path| == 1 then n
    else
      var f := path[|path| - 2];
      Rebuilt(path[..|path| - 1], f.node.(kids := f.node.kids[f.idx := n]))
  }

  function Reframed(path: seq<Frame>, n: Node): seq<Frame>
    requires path != [] && forall l | 0 <= l < |path| - 1 :: path[l].node.Inner? && path[l].idx < |path[l].node.kids|
    decreases |path|
  {
    if |path| == 1 then [Frame(n, path[0].idx)]
    else
      var f := path[|path| - 2];
      Reframed(path[..|path| - 1], f.node.(kids := f.node.kids[f.idx := n])) + [Frame(n, Last(path).idx)]
  }

  lemma {:induction false} ReframedIs(path: seq<Frame>, n: Node)
    requires Way(path)
    ensures Reframed(path, n) == NewWay(path, n) && Reframed(path, n)[0].node == Rebuilt(path, n)
    decreases |path|
  {
    hide Shape;
    if |path| > 1 {
      var f := path[|path| - 2];
      PrefixWay(path);
      ReframedIs(path[..|path| - 1], f.node.(kids := f.node.kids[f.idx := n]));
    }
  }

  lemma PrefixWay(path: seq<Frame>)
    requires Way(path) && |path| > 1
    ensures Way(path[..|path| - 1]) && Last(path[..|path| - 1]) == path[|path| - 2]
  {
  }

  /** sqlite3BtreeDelete with BTREE_SAVEPOSITION, of a cell on a leaf that keeps others and needs no balancing. */
  method DeleteKeep(c: BtCursor)
    requires c.Valid() && c.eState == VALID && Last(c.path).node.Leaf? && Last(c.path).node.NCell() > 1
    modifies c`root, c`path, c`eState, c`skipNext
    ensures c.Valid() && c.eState == SKIPNEXT && (c.skipNext == 1 || c.skipNext == -1)
    ensures old(c.Pos()) < |old(c.Entries())| && c.Entries() == old(c.Entries())[..old(c.Pos())] + old(c.Entries())[old(c.Pos()) + 1..]
    ensures c.Pos() == if c.skipNext > 0 then old(c.Pos()) else old(c.Pos()) - 1
  {
    hide Left, Right, LeftOf, RightOf, Shape, Rebuilt, Reframed, NewWay, Flat, Way;
    ghost var path0 := c.path;
    var f := Last(c.path);
    var i, ks := f.idx, f.node.keys;
    var n := Leaf(ks[..i] + ks[i + 1..]);
    LeafShape(n);
    DeletedWay(c.table, c.path, i, n);
    c.root := Rebuilt(c.path, n);
    c.path := Reframed(c.path, n);
    c.eState := SKIPNEXT;
    if i >= n.NCell() {
      c.skipNext := -1;
      SetIdx(c.table, c.path, n.NCell() - 1);
      c.path := c.path[|c.path| - 1 := Last(c.path).(idx := n.NCell() - 1)];
    } else {
      c.skipNext := 1;
    }
  }

  lemma DeletedWay(table: bool, path: seq<Frame>, i: nat, n: Node)
    requires path != [] && Way(path) && Last(path).node.Leaf? && i < |Last(path).node.keys| && Shape(n)
    requires n == Leaf(Last(path).node.keys[..i] + Last(path).node.keys[i + 1..])
    ensures forall l | 0 <= l < |path| - 1 :: path[l].node.Inner? && path[l].idx < |path[l].node.kids|
    ensures var p, l := Reframed(path, n), |LeftOf(table, path)|;
      && p != [] && Way(p) && p[0].node == Rebuilt(path, n) && Last(p) == Frame(n, Last(path).idx) && |LeftOf(table, p)| == l
    ensures var all, l := Flat(table, path[0].node), |LeftOf(table, path)|;
      l + i < |all| && Flat(table, Rebuilt(path, n)) == all[..l + i] + all[l + i + 1..]
    ensures Shape(Rebuilt(path, n))
  {
    hide Left, Right, LeftOf, RightOf, Rebuilt, Reframed, NewWay, Flat;
    WholeWay(table, path);
    NewWayOk(table, path, n);
    ReframedIs(path, n);
    WholeWay(table, NewWay(path, n));
    LeafFlat(table, n);
    LeafFlat(table, Last(path).node);
    Cut(LeftOf(table, path), Last(path).node.keys, i, RightOf(table, path));
    FirstShape(NewWay(path, n));
  }

  lemma FirstShape(path: seq<Frame>)
    requires Way(path)
    ensures Shape(path[0].node)
  {
  }

  lemma Cut(l: seq<int>, ks: seq<int>, i: nat, r: seq<int>)
    requires i < |ks|
    ensures l + (ks[..i] + ks[i + 1..]) + r == (l + ks + r)[..|l| + i] + (l + ks + r)[|l| + i + 1..]
  {
    var all := l + ks + r;
    assert all == (l + ks[..i]) + [ks[i]] + (ks[i + 1..] + r);
    assert all[..|l| + i] == l + ks[..i];
    assert all[|l| + i + 1..] == ks[i + 1..] + r;
  }

  lemma LeafShape(n: Node)
    ensures n.Leaf? && |n.keys| > 0 ==> Shape(n)
  {
  }

  /** sqlite3BtreeNext of a cursor that a delete left beside the deleted entry. */
  method NextSkip(c: BtCursor) returns (eof: bool)
    requires c.Valid() && c.eState == SKIPNEXT && (c.skipNext == 1 || c.skipNext == -1)
    modifies c`path, c`eState, c`skipNext
    ensures c.Valid() && eof == (old(c.skipNext < 0 && c.Pos() + 1 == |c.Entries()|))
    ensures !eof ==> c.eState == VALID && c.At() && c.Pos() == if old(c.skipNext) > 0 then old(c.Pos()) else old(c.Pos()) + 1
  {
    hide Flat, LeftOf, RightOf, Way, Position, Shape;
    c.eState := VALID;
    if c.skipNext > 0 {
      c.skipNext := 0;
      return false;
    }
    c.skipNext := 0;
    eof := c.Next();
  }

  /** After the delete, next and previous come to the entries that were beside the deleted one. */
  method DeleteThenNext(c: BtCursor) returns (eof: bool)
    requires c.Valid() && c.eState == VALID && Last(c.path).node.Leaf? && Last(c.path).node.NCell() > 1
    modifies c`root, c`path, c`eState, c`skipNext
    ensures c.Valid() && eof == old(c.Pos() + 1 == |c.Entries()|)
    ensures !eof ==> c.At() && c.Pos() < |c.Entries()| && old(c.Pos()) + 1 < |old(c.Entries())|
    ensures !eof ==> c.Entries()[c.Pos()] == old(c.Entries())[old(c.Pos()) + 1]
  {
    hide Flat, LeftOf, RightOf, Way, Position, Shape;
    EntryAt(c.table, c.path);
    DeleteKeep(c);
    EntryAt(c.table, c.path);
    eof := NextSkip(c);
    if !eof { EntryAt(c.table, c.path); }
  }

  // ---- where the exception happens ----

  /** A cursor can be mistaken: in a table of 3 and 4 the entry 4 is deleted under it; it is saved just after 3; the table is
      changed to 5 alone. Next then finds nothing after 3. */
  method PassedOver() returns (c: BtCursor, eof: bool)
    ensures c.Entries() == [5] && c.nKey == 3 && eof && !OnLeast(c, c.nKey, false, eof)
  {
    c := new BtCursor(true, Leaf([3, 4]));
    var empty := c.LastEntry();
    OneLeaf(c.path);
    DeleteKeep(c);
    EntryAt(c.table, c.path);
    Save(c);
    Change(c, Leaf([5]));
    assert c.nKey == 3 && c.skipNext == -1;
    assert ProbePage([5], 3, false).c == 1;
    eof := NextSaved(c);
    if !eof { EntryAt(c.table, c.path); }
  }

  lemma OneLeaf(path: seq<Frame>)
    requires path != [] && Way(path) && path[0].node.Leaf?
    ensures Last(path) == path[0]
  {
  }
}
