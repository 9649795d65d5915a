/** Cursors: first, last, next and previous entry. */
module Cursor {
  import opened CursorTree
  import opened Search

  datatype State = VALID | INVALID | SKIPNEXT | REQUIRESEEK

  /** An empty tree is an empty leaf. */
  ghost predicate TreeOk(n: Node) { Shape(n) || n == Leaf([]) }

  /** Where a descent along the path and then to the left ends. */
  ghost function Start(table: bool, path: seq<Frame>): nat
    requires Way(path) && (Last(path).node.Inner? ==> Last(path).idx < |Last(path).node.kids| == |Last(path).node.keys| + 1)
  {
    |LeftOf(table, path)| + if Last(path).node.Leaf? then Last(path).idx else |FrameLeft(table, Last(path))|
  }

  /** The path leads to a cell that is an entry. */
  ghost predicate OnEntry(table: bool, path: seq<Frame>) {
    path != [] && Way(path) && Last(path).idx < Last(path).node.NCell() && (table ==> Last(path).node.Leaf?)
  }

  /** The number of entries before the cell. */
  ghost function Position(table: bool, path: seq<Frame>): nat
    requires OnEntry(table, path)
  {
    var f := Last(path);
    |LeftOf(table, path)| +
      match f.node
      case Leaf(_) => f.idx
      case Inner(ks, cs) => if f.idx < |cs| == |ks| + 1 then |Left(table, ks, cs, f.idx)| + |Flat(table, cs[f.idx])| else 0
  }

  lemma KidCount(path: seq<Frame>)
    requires Way(path) && Last(path).node.Inner?
    ensures |Last(path).node.kids| == |Last(path).node.keys| + 1 && |Last(path).node.keys| > 0
  {
    assert Shape(path[|path| - 1].node);
  }

  /** The entry at the position is the cell's. */
  lemma EntryAt(table: bool, path: seq<Frame>)
    requires path != [] && OnEntry(table, path)
    ensures Position(table, path) < |Flat(table, path[0].node)|
    ensures Flat(table, path[0].node)[Position(table, path)] == Last(path).node.keys[Last(path).idx]
  {
    hide Left, Right, FlatKids, LeftOf, RightOf, Way;
    WholeWay(table, path);
    var f := Last(path);
    if f.node.Inner? {
      KidCount(path);
      Around(table, f.node.keys, f.node.kids, f.idx);
      NextChild(table, f.node.keys, f.node.kids, f.idx);
    }
  }

  /** The cell on the last page of the way comes after t entries, the last of them below its child. */
  ghost predicate AfterChild(table: bool, path: seq<Frame>, t: nat)
    requires path != [] && Way(path)
  {
    var f := Last(path);
    f.node.Inner? && f.idx < f.node.NCell() && |f.node.kids| == |f.node.keys| + 1
    && t == |LeftOf(table, path)| + |FrameLeft(table, f)| + |Flat(table, f.node.kids[f.idx])|
  }

  class BtCursor {
    const table: bool
    var root: Node
    var path: seq<Frame>
    var eState: State
    var skipNext: int
    var nKey: int

    ghost predicate At()
      reads this
    {
      OnEntry(table, path) && path[0].node == root
    }

    ghost predicate Valid()
      reads this
    {
      TreeOk(root) && (eState == VALID || eState == SKIPNEXT ==> At())
    }

    ghost function Entries(): seq<int>
      reads this
    {
      Flat(table, root)
    }

    ghost function Pos(): nat
      reads this
      requires At()
    {
      Position(table, path)
    }

    constructor (t: bool, r: Node)
      requires TreeOk(r)
      ensures Valid() && table == t && root == r && eState == INVALID && skipNext == 0
    {
      table, root, path, eState, skipNext, nKey := t, r, [], INVALID, 0, 0;
    }

    /** moveToLeftmost */
    method MoveToLeftmost()
      requires path != [] && Way(path) && path[0].node == root
      requires if Last(path).node.Inner? then Last(path).idx < |Last(path).node.kids| else Last(path).idx < Last(path).node.NCell()
      modifies this`path
      ensures At() && Last(path).node.Leaf?
      ensures (KidsHere(old(path)); Pos() == Start(table, old(path)))
    {
      hide Left, Right, Flat, LeftOf, RightOf, Way;
      KidsHere(path);
      ghost var s := Start(table, path);
      while Last(path).node.Inner?
        invariant Way(path) && path != [] && path[0].node == root
        invariant if Last(path).node.Inner? then Last(path).idx < |Last(path).node.kids| == |Last(path).node.keys| + 1
                  else Last(path).idx < Last(path).node.NCell()
        invariant Start(table, path) == s
        decreases Last(path).node
      {
        var f := Last(path);
        Push(table, path, 0);
        ghost var p := path;
        path := path + [Frame(f.node.kids[f.idx], 0)];
        Pushed(table, p, path);
      }
    }

    /** moveToRightmost */
    method MoveToRightmost()
      requires path != [] && Way(path) && path[0].node == root
      modifies this`path
      ensures At() && Last(path).node.Leaf?
      ensures Pos() == |LeftOf(table, old(path))| + |Flat(table, Last(old(path)).node)| - 1
    {
      hide Left, Right, Flat, LeftOf, RightOf, Way;
      ghost var s := |LeftOf(table, path)| + |Flat(table, Last(path).node)|;
      KidsHere(path);
      while Last(path).node.Inner?
        invariant path != [] && Way(path) && path[0].node == root && Last(path).node.NCell() > 0
        invariant Last(path).node.Inner? ==> |Last(path).node.kids| == |Last(path).node.keys| + 1
        invariant |LeftOf(table, path)| + |Flat(table, Last(path).node)| == s
        decreases Last(path).node
      {
        ghost var p := path;
        var n := Last(path).node;
        path := path[|path| - 1 := Last(path).(idx := n.NCell())];
        SetIdx(table, p, n.NCell());
        Push(table, path, 0);
        path := path + [Frame(n.kids[n.NCell()], 0)];
        RightStep(table, p, path);
      }
      ghost var p := path;
      path := path[|path| - 1 := Last(path).(idx := Last(path).node.NCell() - 1)];
      SetIdx(table, p, Last(p).node.NCell() - 1);
      LeafFlat(table, Last(p).node);
    }

    /** sqlite3BtreeFirst */
    method First() returns (empty: bool)
      requires TreeOk(root)
      modifies this`path, this`eState
      ensures Valid() && (empty <==> Entries() == []) && (empty ==> eState == INVALID)
      ensures !empty ==> eState == VALID && At() && Pos() == 0
    {
      if root == Leaf([]) { eState := INVALID; return true; }
      NotEmpty(table, root);
      path := [Frame(root, 0)];
      eState := VALID;
      RootKids(table, root);
      MoveToLeftmost();
      empty := false;
    }

    /** sqlite3BtreeLast */
    method LastEntry() returns (empty: bool)
      requires TreeOk(root)
      modifies this`path, this`eState
      ensures Valid() && (empty <==> Entries() == []) && (empty ==> eState == INVALID)
      ensures !empty ==> eState == VALID && At() && Pos() == |Entries()| - 1
    {
      if root == Leaf([]) { eState := INVALID; return true; }
      NotEmpty(table, root);
      path := [Frame(root, 0)];
      eState := VALID;
      MoveToRightmost();
      empty := false;
    }

    /** Up to the first page on the way with a cell after the subtree just left. */
    method ClimbRight() returns (atEnd: bool)
      requires path != [] && Way(path) && path[0].node == root
      modifies this`path
      ensures path != [] && Way(path) && path[0].node == root
      ensures var t := |LeftOf(table, old(path))| + |Flat(table, Last(old(path)).node)|;
        if atEnd then t == |Entries()| else AfterChild(table, path, t)
    {
      hide Left, Right, Flat, LeftOf, RightOf, Way;
      ghost var t := |LeftOf(table, path)| + |Flat(table, Last(path).node)|;
      while true
        invariant path != [] && Way(path) && path[0].node == root && t == |LeftOf(table, path)| + |Flat(table, Last(path).node)|
        decreases |path|
      {
        if |path| == 1 { OnlyPage(table, path); return true; }
        Pop(table, path);
        Popped(table, path);
        path := path[..|path| - 1];
        if Last(path).idx < Last(path).node.NCell() { return false; }
      }
    }

    /** sqlite3BtreeNext, from an entry */
    method Next() returns (eof: bool)
      requires Valid() && eState == VALID
      modifies this`path, this`eState
      ensures Valid() && eof == (old(Pos()) + 1 == |Entries()|)
      ensures eof ==> eState == INVALID
      ensures !eof ==> eState == VALID && At() && Pos() == old(Pos()) + 1
    {
      hide Left, Right, Flat, LeftOf, RightOf, Way;
      EntryAt(table, path);
      KidsHere(path);
      var f := Last(path);
      if f.node.Leaf? {
        LeafFlat(table, f.node);
        if f.idx + 1 < f.node.NCell() {
          SetIdx(table, path, f.idx + 1);
          path := path[|path| - 1 := f.(idx := f.idx + 1)];
          EntryAt(table, path);
          return false;
        }
        var atEnd := ClimbRight();
        if atEnd { eState := INVALID; return true; }
        if !table { EntryAt(table, path); return false; }
      }
      DownRight();
      EntryAt(table, path);
      eof := false;
    }

    /** From the cell on the last page of the way to the first entry after it. */
    method DownRight()
      requires path != [] && Way(path) && path[0].node == root && AfterChild(table, path, Here(table, path))
      modifies this`path
      ensures At() && Pos() == Here(table, old(path)) + if table then 0 else 1
    {
      hide Left, Right, Flat, LeftOf, RightOf, Way;
      ChildAfter(table, path);
      SetIdx(table, path, Last(path).idx + 1);
      path := path[|path| - 1 := Last(path).(idx := Last(path).idx + 1)];
      MoveToLeftmost();
    }

    /** Up to the first page on the way with a cell before the subtree just left. */
    method ClimbLeft() returns (atStart: bool)
      requires path != [] && Way(path) && path[0].node == root && Last(path).idx == 0
      modifies this`path
      ensures path != [] && Way(path) && path[0].node == root
      ensures if atStart then |LeftOf(table, old(path))| == 0 else BeforeChild(table, path, |LeftOf(table, old(path))|)
    {
      hide Left, Right, Flat, LeftOf, RightOf, Way;
      ghost var t := |LeftOf(table, path)|;
      while Last(path).idx == 0
        invariant path != [] && Way(path) && path[0].node == root
        invariant if Last(path).idx == 0 then t == |LeftOf(table, path)| else BeforeChild(table, path, t)
        decreases |path|
      {
        if |path| == 1 { OnlyPage(table, path); return true; }
        Pop(table, path);
        path := path[..|path| - 1];
        FirstChild(table, path);
      }
      atStart := false;
    }

    /** sqlite3BtreePrevious, from an entry */
    method Previous() returns (bof: bool)
      requires Valid() && eState == VALID
      modifies this`path, this`eState
      ensures Valid() && bof == (old(Pos()) == 0)
      ensures bof ==> eState == INVALID
      ensures !bof ==> eState == VALID && At() && Pos() == old(Pos()) - 1
    {
      hide Left, Right, Flat, LeftOf, RightOf, Way;
      KidsHere(path);
      var f := Last(path);
      if f.node.Inner? {
        InnerNotFirst(table, path);
        DownLeft();
        return false;
      }
      if f.idx > 0 {
        SetIdx(table, path, f.idx - 1);
        path := path[|path| - 1 := f.(idx := f.idx - 1)];
        return false;
      }
      var atStart := ClimbLeft();
      if atStart { eState := INVALID; return true; }
      CellBefore(table, path);
      SetIdx(table, path, Last(path).idx - 1);
      path := path[|path| - 1 := Last(path).(idx := Last(path).idx - 1)];
      if table { DownLeft(); }
      bof := false;
    }

    /** From a cell on an interior page to the last entry below its child. */
    method DownLeft()
      requires path != [] && Way(path) && path[0].node == root && Last(path).node.Inner?
      requires Last(path).idx < Last(path).node.NCell() && |Last(path).node.kids| == |Last(path).node.keys| + 1
      modifies this`path
      ensures At() && Pos() == Here(table, old(path)) - 1
    {
      hide Left, Right, Flat, LeftOf, RightOf, Way;
      var f := Last(path);
      Push(table, path, 0);
      path := path + [Frame(f.node.kids[f.idx], 0)];
      MoveToRightmost();
    }

    /** Where a search for a key has come to on the way down. */
    ghost predicate Seeking(key: int)
      reads this
    {
      && path != [] && Way(path) && path[0].node == root && Ord(table, Last(path).node)
      && Below(LeftOf(table, path), key) && Above(RightOf(table, path), key)
    }

    /** All entries before the cursor's are smaller and all after it greater than the key; c: how its own compares. */
    ghost predicate Found(key: int, c: int)
      reads this
    {
      At() && Around1(Entries(), Pos(), key, c)
    }

    /** sqlite3BtreeMovetoUnpacked: to the entry with the key, or to one next to where it would be. */
    method Moveto(key: int, biasRight: bool) returns (c: int)
      requires TreeOk(root) && (Shape(root) ==> Ord(table, root))
      modifies this`path, this`eState
      ensures Valid() && -1 <= c <= 1
      ensures if Entries() == [] then eState == INVALID && c == -1 else eState == VALID && Found(key, c)
      ensures c == SearchSign(table, root, key, biasRight)
    {
      hide Left, Right, Flat, LeftOf, RightOf, Way, Ord, ProbePage, SearchSign;
      SignStep(table, root, key, biasRight);
      if root == Leaf([]) { EmptyLeaf(table, root); eState := INVALID; return -1; }
      NotEmpty(table, root);
      path := [Frame(root, 0)];
      eState := VALID;
      RootSeeks(table, root, key);
      while true
        invariant Seeking(key) && eState == VALID
        invariant SearchSign(table, Last(path).node, key, biasRight) == SearchSign(table, root, key, biasRight)
        decreases Last(path).node
      {
        KidsHere(path);
        var n := Last(path).node;
        KeysIncrease(table, n);
        var idx, lwr;
        SignStep(table, n, key, biasRight);
        c, idx, lwr := SearchPage(n.keys, key, biasRight);
        if n.Leaf? || (c == 0 && !table) {
          SetIdx(table, path, idx);
          path := path[|path| - 1 := Last(path).(idx := idx)];
          if n.Leaf? { LandLeaf(table, path, key, c); } else { LandInner(table, path, key); }
          return;
        }
        SetIdx(table, path, lwr);
        ghost var p := path;
        path := path[|path| - 1 := Last(path).(idx := lwr)];
        Descend(table, path, key, c);
        Push(table, path, 0);
        path := path + [Frame(n.kids[lwr], 0)];
      }
    }
  }

  lemma EmptyLeaf(table: bool, n: Node)
    ensures n == Leaf([]) ==> Flat(table, n) == []
  {
  }

  lemma RootSeeks(table: bool, root: Node, key: int)
    requires Shape(root)
    ensures var p := [Frame(root, 0)]; Way(p) && LeftOf(table, p) == [] && RightOf(table, p) == []
  {
  }

  lemma KeysIncrease(table: bool, n: Node)
    requires Ord(table, n)
    ensures Increasing(n.keys)
  {
  }

  lemma BelowConcat(a: seq<int>, b: seq<int>, key: int)
    requires Below(a, key) && Below(b, key)
    ensures Below(a + b, key)
  {
  }

  lemma AboveConcat(a: seq<int>, b: seq<int>, key: int)
    requires Above(a, key) && Above(b, key)
    ensures Above(a + b, key)
  {
  }

  /** Down to the child between the cells around the key. */
  lemma Descend(table: bool, path: seq<Frame>, key: int, c: int)
    requires path != [] && Way(path) && Ord(table, Last(path).node) && Below(LeftOf(table, path), key) && Above(RightOf(table, path), key)
    requires var f := Last(path); f.node.Inner? && f.idx < |f.node.kids| == |f.node.keys| + 1
    requires var f := Last(path); if c == 0 then table && f.idx < |f.node.keys| && f.node.keys[f.idx] == key
             else Below(f.node.keys[..f.idx], key) && Above(f.node.keys[f.idx..], key)
    ensures Below(LeftOf(table, path) + FrameLeft(table, Last(path)), key) && Above(FrameRight(table, Last(path)) + RightOf(table, path), key)
    ensures Ord(table, Last(path).node.kids[Last(path).idx])
  {
    hide Left, Right, Flat, LeftOf, RightOf, Way;
    var f := Last(path);
    var ks, i := f.node.keys, f.idx;
    if c == 0 { FoundApart(ks, i); }
    assert i > 0 ==> ks[..i][i - 1] < key;
    assert i < |ks| && c != 0 ==> ks[i..][0] > key;
    LeftBelow(table, ks, f.node.kids, i, key);
    RightAbove(table, ks, f.node.kids, i, key);
    OrdKid(table, ks, f.node.kids, i);
    BelowConcat(LeftOf(table, path), FrameLeft(table, f), key);
    AboveConcat(FrameRight(table, f), RightOf(table, path), key);
  }

  /** The entries of the tree around a position. */
  ghost predicate Around1(all: seq<int>, pos: nat, key: int, c: int) {
    && pos < |all| && (forall i | 0 <= i < pos :: all[i] < key) && (forall i | pos < i < |all| :: all[i] > key)
    && (if c < 0 then all[pos] < key else if c > 0 then all[pos] > key else all[pos] == key)
  }

  lemma Landed(l: seq<int>, a: seq<int>, x: int, b: seq<int>, r: seq<int>, key: int, c: int)
    requires Below(l, key) && Below(a, key) && Above(b, key) && Above(r, key)
    requires if c < 0 then x < key else if c > 0 then x > key else x == key
    ensures Around1(l + (a + [x] + b) + r, |l| + |a|, key, c)
  {
    var s := l + (a + [x] + b) + r;
    forall i | 0 <= i < |l| + |a| ensures s[i] < key {
      assert s[i] == if i < |l| then l[i] else a[i - |l|];
    }
    forall i | |l| + |a| < i < |s| ensures s[i] > key {
      var j := i - |l| - |a| - 1;
      assert s[i] == if j < |b| then b[j] else r[j - |b|];
    }
  }

  lemma AboveTail(ks: seq<int>, i: nat, key: int)
    requires i < |ks| && Above(ks[i..], key)
    ensures Above(ks[i + 1..], key)
  {
    assert ks[i..] == [ks[i]] + ks[i + 1..];
  }

  lemma BelowInit(ks: seq<int>, i: nat, key: int)
    requires i < |ks| && Below(ks[..i + 1], key)
    ensures Below(ks[..i], key)
  {
    assert ks[..i + 1] == ks[..i] + [ks[i]];
  }

  lemma LandLeaf(table: bool, path: seq<Frame>, key: int, c: int)
    requires OnEntry(table, path) && Last(path).node.Leaf? && Increasing(Last(path).node.keys)
    requires Below(LeftOf(table, path), key) && Above(RightOf(table, path), key)
    requires var f := Last(path); var ks := f.node.keys;
      if c == 0 then ks[f.idx] == key
      else (if c < 0 then ks[f.idx] < key else ks[f.idx] > key)
           && Below(ks[..if c < 0 then f.idx + 1 else f.idx], key) && Above(ks[if c < 0 then f.idx + 1 else f.idx..], key)
    ensures Around1(Flat(table, path[0].node), Position(table, path), key, c)
  {
    hide Left, Right, LeftOf, RightOf, Way;
    WholeWay(table, path);
    var f := Last(path);
    var ks := f.node.keys;
    FoundApart(ks, f.idx);
    assert ks == ks[..f.idx] + [ks[f.idx]] + ks[f.idx + 1..];
    if c > 0 { AboveTail(ks, f.idx, key); }
    if c < 0 { BelowInit(ks, f.idx, key); }
    Landed(LeftOf(table, path), ks[..f.idx], ks[f.idx], ks[f.idx + 1..], RightOf(table, path), key, c);
  }

  lemma LandInner(table: bool, path: seq<Frame>, key: int)
    requires !table && OnEntry(table, path) && Last(path).node.Inner? && Ord(table, Last(path).node)
    requires Below(LeftOf(table, path), key) && Above(RightOf(table, path), key) && Last(path).node.keys[Last(path).idx] == key
    ensures Around1(Flat(table, path[0].node), Position(table, path), key, 0)
  {
    hide Left, Right, FlatKids, LeftOf, RightOf, Way, OrdKids;
    WholeWay(table, path);
    KidsHere(path);
    var f := Last(path);
    var ks, cs, i := f.node.keys, f.node.kids, f.idx;
    Around(table, ks, cs, i + 1);
    NextChild(table, ks, cs, i);
    InnerApart(ks, cs, i);
    var b := Flat(table, cs[i + 1]) + Right(table, ks, cs, i + 1);
    assert Flat(table, f.node) == (Left(table, ks, cs, i) + Flat(table, cs[i])) + [ks[i]] + b;
    Landed(LeftOf(table, path), Left(table, ks, cs, i) + Flat(table, cs[i]), ks[i], b, RightOf(table, path), key, 0);
  }

  lemma {:induction false} InnerApart(ks: seq<int>, cs: seq<Node>, i: nat)
    requires OrdKids(false, ks, cs) && Increasing(ks) && i < |ks|
    ensures |cs| == |ks| + 1
    ensures Below(Left(false, ks, cs, i) + Flat(false, cs[i]), ks[i])
    ensures Above(Flat(false, cs[i + 1]) + Right(false, ks, cs, i + 1), ks[i])
  {
    hide Flat, Left, Right, Ord;
    Divides(ks, cs, i);
    LeftBelow(false, ks, cs, i, ks[i]);
    RightAbove(false, ks, cs, i + 1, ks[i]);
    BelowConcat(Left(false, ks, cs, i), Flat(false, cs[i]), ks[i]);
    AboveConcat(Flat(false, cs[i + 1]), Right(false, ks, cs, i + 1), ks[i]);
  }

  lemma {:induction false} Divides(ks: seq<int>, cs: seq<Node>, i: nat)
    requires OrdKids(false, ks, cs) && i < |ks|
    ensures |cs| == |ks| + 1 && Below(Flat(false, cs[i]), ks[i]) && Above(Flat(false, cs[i + 1]), ks[i])
    decreases i
  {
    hide Flat, Ord;
    if i > 0 { Divides(ks[1..], cs[1..], i - 1); }
  }

  /** The child on the last page of the way comes after t entries, the last of them the cell before it or below that. */
  ghost predicate BeforeChild(table: bool, path: seq<Frame>, t: nat)
    requires path != [] && Way(path)
  {
    var f := Last(path);
    f.node.Inner? && 0 < f.idx < |f.node.kids| == |f.node.keys| + 1 && t == |LeftOf(table, path)| + |FrameLeft(table, f)|
  }

  lemma FirstChild(table: bool, path: seq<Frame>)
    requires path != [] && Way(path) && Last(path).node.Inner? && Last(path).idx < |Last(path).node.kids| == |Last(path).node.keys| + 1
    ensures Last(path).idx == 0 ==> FrameLeft(table, Last(path)) == []
  {
  }

  /** The cell before a child comes just before the child's entries. */
  lemma CellBefore(table: bool, path: seq<Frame>)
    requires path != [] && Way(path) && Last(path).node.Inner? && 0 < Last(path).idx < |Last(path).node.kids| == |Last(path).node.keys| + 1
    ensures var f := Last(path);
      |FrameLeft(table, f)| == |FrameLeft(table, f.(idx := f.idx - 1))| + |Flat(table, f.node.kids[f.idx - 1])| + if table then 0 else 1
  {
    hide Left, Right, Flat;
    var f := Last(path);
    NextChild(table, f.node.keys, f.node.kids, f.idx - 1);
  }

  lemma InnerNotFirst(table: bool, path: seq<Frame>)
    requires OnEntry(table, path) && Last(path).node.Inner?
    ensures Position(table, path) == Here(table, path) > 0
  {
    hide Left, Right, Flat;
    KidsHere(path);
    var f := Last(path);
    ShapeKid(f.node, f.idx);
    NotEmpty(table, f.node.kids[f.idx]);
  }

  /** The number of entries before the cell on the last page of the way, and below its child. */
  ghost function Here(table: bool, path: seq<Frame>): nat
    requires path != [] && Way(path)
  {
    var f := Last(path);
    if f.node.Inner? && f.idx < |f.node.kids| == |f.node.keys| + 1 then
      |LeftOf(table, path)| + |FrameLeft(table, f)| + |Flat(table, f.node.kids[f.idx])|
    else 0
  }

  /** The child after a cell begins right after the cell. */
  lemma ChildAfter(table: bool, path: seq<Frame>)
    requires path != [] && Way(path) && Last(path).node.Inner? && Last(path).idx < Last(path).node.NCell()
    ensures |Last(path).node.kids| == |Last(path).node.keys| + 1
    ensures var f := Last(path);
      |FrameLeft(table, f.(idx := f.idx + 1))| == |FrameLeft(table, f)| + |Flat(table, f.node.kids[f.idx])| + if table then 0 else 1
  {
    hide Left, Right, Flat;
    KidsHere(path);
    var f := Last(path);
    NextChild(table, f.node.keys, f.node.kids, f.idx);
  }

  lemma OnlyPage(table: bool, path: seq<Frame>)
    requires Way(path) && |path| == 1
    ensures LeftOf(table, path) == [] && Last(path) == path[0]
  {
  }

  lemma RootKids(table: bool, root: Node)
    requires Shape(root)
    ensures Way([Frame(root, 0)]) && (root.Inner? ==> |root.kids| == |root.keys| + 1)
    ensures (KidsHere([Frame(root, 0)]); Start(table, [Frame(root, 0)]) == 0)
  {
  }

  lemma LeafFlat(table: bool, n: Node)
    ensures n.Leaf? ==> Flat(table, n) == n.keys
  {
  }

  /** Above the last child of a page there is nothing more of that page. */
  lemma Popped(table: bool, path: seq<Frame>)
    requires Way(path) && |path| > 1 && Way(path[..|path| - 1])
    requires Last(path[..|path| - 1]).node.Inner? && Last(path[..|path| - 1]).idx < |Last(path[..|path| - 1]).node.kids|
    ensures var f := Last(path[..|path| - 1]);
      f.idx >= f.node.NCell() ==> f.idx == |f.node.keys| && Flat(table, f.node) == Left(table, f.node.keys, f.node.kids, f.idx) + Flat(table, f.node.kids[f.idx])
  {
    hide Left, Right, FlatKids;
    var f := Last(path[..|path| - 1]);
    KidsHere(path[..|path| - 1]);
    if f.idx >= f.node.NCell() {
      Around(table, f.node.keys, f.node.kids, f.idx);
      LastChild(table, f.node.keys, f.node.kids);
    }
  }

  lemma RightStep(table: bool, p: seq<Frame>, q: seq<Frame>)
    requires p != [] && Way(p) && Way(q) && Last(p).node.Inner? && |Last(p).node.kids| == |Last(p).node.keys| + 1
    requires |q| == |p| + 1 && Last(q) == Frame(Last(p).node.kids[Last(p).node.NCell()], 0)
    requires LeftOf(table, q) == LeftOf(table, p) + Left(table, Last(p).node.keys, Last(p).node.kids, Last(p).node.NCell())
    ensures |LeftOf(table, q)| + |Flat(table, Last(q).node)| == |LeftOf(table, p)| + |Flat(table, Last(p).node)|
    ensures Last(q).node.NCell() > 0 && (Last(q).node.Inner? ==> |Last(q).node.kids| == |Last(q).node.keys| + 1)
  {
    hide Left, Right, FlatKids, LeftOf;
    var n := Last(p).node;
    Around(table, n.keys, n.kids, n.NCell());
    LastChild(table, n.keys, n.kids);
    assert Shape(q[|q| - 1].node);
  }

  lemma KidsHere(path: seq<Frame>)
    requires path != [] && Way(path)
    ensures Last(path).node.NCell() > 0 && (Last(path).node.Inner? ==> |Last(path).node.kids| == |Last(path).node.keys| + 1)
  {
    assert Shape(path[|path| - 1].node);
  }

  lemma Pushed(table: bool, p: seq<Frame>, q: seq<Frame>)
    requires Way(p) && Last(p).node.Inner? && Last(p).idx < |Last(p).node.kids| && q == p + [Frame(Last(p).node.kids[Last(p).idx], 0)] && Way(q)
    requires LeftOf(table, q) == LeftOf(table, p) + (KidsHere(p); FrameLeft(table, Last(p)))
    ensures q[0] == p[0] && Last(q).node.NCell() > 0 && (Last(q).node.Inner? ==> |Last(q).node.kids| == |Last(q).node.keys| + 1)
    ensures (KidsHere(p); KidsHere(q); Start(table, q) == Start(table, p))
  {
    KidsHere(p);
    assert Shape(q[|q| - 1].node);
  }

  /** The first entry and then the next one, until there is none: every entry once, in order. */
  method Scan(c: BtCursor) returns (out: seq<int>)
    requires TreeOk(c.root)
    modifies c`path, c`eState
    ensures c.Valid() && out == c.Entries()
  {
    hide Flat, LeftOf, RightOf, Way, Position, Shape;
    out := [];
    var eof := c.First();
    while !eof
      invariant c.Valid() && |out| <= |c.Entries()| && out == c.Entries()[..|out|]
      invariant if eof then |out| == |c.Entries()| else c.eState == VALID && c.Pos() == |out| < |c.Entries()|
      decreases !eof, |c.Entries()| - |out|
    {
      EntryAt(c.table, c.path);
      out := out + [Last(c.path).node.keys[Last(c.path).idx]];
      eof := c.Next();
      if !eof { EntryAt(c.table, c.path); }
    }
  }

  /** Previous undoes next. */
  method ThereAndBack(c: BtCursor) returns (eof: bool)
    requires c.Valid() && c.eState == VALID
    modifies c`path, c`eState
    ensures c.Valid() && eof == (old(c.Pos()) + 1 == |c.Entries()|)
    ensures !eof ==> c.eState == VALID && c.Pos() == old(c.Pos())
  {
    hide Flat, LeftOf, RightOf, Way, Position, Shape;
    eof := c.Next();
    if !eof {
      var bof := c.Previous();
    }
  }
}
