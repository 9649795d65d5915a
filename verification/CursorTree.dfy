/** B-trees as nested pages, the entries in their order, and the way from the root to a page. */
module CursorTree {

  /** table: the cells of interior pages are only signposts. */
  datatype Node = Leaf(keys: seq<int>) | Inner(keys: seq<int>, kids: seq<Node>) {
    function NCell(): nat { |keys| }
  }

  /** Interior pages have a cell and one more child than cells; only an empty tree has an empty page. */
  ghost predicate Shape(n: Node) {
    |n.keys| > 0 && (n.Inner? ==> |n.kids| == |n.keys| + 1 && forall i | 0 <= i < |n.kids| :: Shape(n.kids[i]))
  }

  function Sep(table: bool, k: int): seq<int> { if table then [] else [k] }

  /** The entries in order. */
  ghost function Flat(table: bool, n: Node): seq<int>
    decreases n
  {
    match n
    case Leaf(ks) => ks
    case Inner(ks, cs) => FlatKids(table, ks, cs)
  }

  ghost function FlatKids(table: bool, ks: seq<int>, cs: seq<Node>): seq<int>
    decreases cs
  {
    if cs == [] then [] else Flat(table, cs[0]) + if ks == [] then [] else Sep(table, ks[0]) + FlatKids(table, ks[1..], cs[1..])
  }

  /** The entries before child i, and after it. */
  ghost function Left(table: bool, ks: seq<int>, cs: seq<Node>, i: nat): seq<int>
    requires i < |cs| == |ks| + 1
    decreases i
  {
    if i == 0 then [] else Flat(table, cs[0]) + Sep(table, ks[0]) + Left(table, ks[1..], cs[1..], i - 1)
  }

  ghost function Right(table: bool, ks: seq<int>, cs: seq<Node>, i: nat): seq<int>
    requires i < |cs| == |ks| + 1
    decreases i
  {
    if i == 0 then (if ks == [] then [] else Sep(table, ks[0]) + FlatKids(table, ks[1..], cs[1..]))
    else Right(table, ks[1..], cs[1..], i - 1)
  }

  lemma {:induction false} Around(table: bool, ks: seq<int>, cs: seq<Node>, i: nat)
    requires i < |cs| == |ks| + 1
    ensures FlatKids(table, ks, cs) == Left(table, ks, cs, i) + Flat(table, cs[i]) + Right(table, ks, cs, i)
    decreases i
  {
    hide Flat;
    if i > 0 {
      Around(table, ks[1..], cs[1..], i - 1);
      assert cs[1..][i - 1] == cs[i];
    }
  }

  /** From one child to the next: the cell between them. */
  lemma {:induction false} NextChild(table: bool, ks: seq<int>, cs: seq<Node>, i: nat)
    requires i + 1 < |cs| == |ks| + 1
    ensures Left(table, ks, cs, i + 1) == Left(table, ks, cs, i) + Flat(table, cs[i]) + Sep(table, ks[i])
    ensures Right(table, ks, cs, i) == Sep(table, ks[i]) + Flat(table, cs[i + 1]) + Right(table, ks, cs, i + 1)
    decreases i
  {
    hide Flat;
    if i > 0 {
      NextChild(table, ks[1..], cs[1..], i - 1);
      assert cs[1..][i - 1] == cs[i] && cs[1..][i] == cs[i + 1] && ks[1..][i - 1] == ks[i];
    } else {
      assert Left(table, ks[1..], cs[1..], 0) == [];
      Around(table, ks[1..], cs[1..], 0);
    }
  }

  lemma {:induction false} LastChild(table: bool, ks: seq<int>, cs: seq<Node>)
    requires |cs| == |ks| + 1
    ensures Right(table, ks, cs, |ks|) == []
    decreases |ks|
  {
    if ks != [] { LastChild(table, ks[1..], cs[1..]); }
  }

  lemma {:induction false} NotEmpty(table: bool, n: Node)
    requires Shape(n)
    ensures |Flat(table, n)| > 0
    decreases n
  {
    if n.Inner? { NotEmpty(table, n.kids[0]); }
  }

  // ---- the way to a page ----

  datatype Frame = Frame(node: Node, idx: nat)

  /** Each page is the child of the one before it at that one's index. */
  ghost predicate Way(path: seq<Frame>) {
    && 0 < |path| && (forall l | 0 <= l < |path| :: Shape(path[l].node))
    && (forall l | 0 <= l < |path| - 1 :: path[l].node.Inner? && path[l].idx < |path[l].node.kids|)
    && (forall l | 0 <= l < |path| - 1 :: path[l + 1].node == path[l].node.kids[path[l].idx])
  }

  ghost function FrameLeft(table: bool, f: Frame): seq<int>
    requires f.node.Inner? && f.idx < |f.node.kids| == |f.node.keys| + 1
  {
    Left(table, f.node.keys, f.node.kids, f.idx)
  }

  ghost function FrameRight(table: bool, f: Frame): seq<int>
    requires f.node.Inner? && f.idx < |f.node.kids| == |f.node.keys| + 1
  {
    Right(table, f.node.keys, f.node.kids, f.idx)
  }

  /** The entries before and after those of the last page. */
  ghost function LeftOf(table: bool, path: seq<Frame>): seq<int>
    requires Way(path)
    decreases |path|
  {
    if |path| == 1 then [] else LeftOf(table, path[..|path| - 1]) + FrameLeft(table, path[|path| - 2])
  }

  ghost function RightOf(table: bool, path: seq<Frame>): seq<int>
    requires Way(path)
    decreases |path|
  {
    if |path| == 1 then [] else FrameRight(table, path[|path| - 2]) + RightOf(table, path[..|path| - 1])
  }

  function Last(path: seq<Frame>): Frame
    requires path != []
  {
    path[|path| - 1]
  }

  lemma {:induction false} WholeWay(table: bool, path: seq<Frame>)
    requires Way(path)
    ensures Flat(table, path[0].node) == LeftOf(table, path) + Flat(table, Last(path).node) + RightOf(table, path)
    decreases |path|
  {
    hide Left, Right, FlatKids;
    if |path| > 1 {
      var up := path[..|path| - 1];
      WholeWay(table, up);
      var f := Last(up);
      assert f == path[|path| - 2] && Last(path).node == f.node.kids[f.idx];
      Around(table, f.node.keys, f.node.kids, f.idx);
    } else {
      assert path[0].node == Last(path).node;
    }
  }

  /** Down to the child at the index. */
  lemma Push(table: bool, path: seq<Frame>, i: nat)
    requires Way(path) && Last(path).node.Inner? && Last(path).idx < |Last(path).node.kids|
    ensures var p := path + [Frame(Last(path).node.kids[Last(path).idx], i)];
      Way(p) && LeftOf(table, p) == LeftOf(table, path) + FrameLeft(table, Last(path))
      && RightOf(table, p) == FrameRight(table, Last(path)) + RightOf(table, path)
  {
    hide Shape;
    var p := path + [Frame(Last(path).node.kids[Last(path).idx], i)];
    ShapeKid(Last(path).node, Last(path).idx);
    assert p[..|p| - 1] == path;
    forall l | 0 <= l < |p| - 1 ensures p[l + 1].node == p[l].node.kids[p[l].idx] {
      if l < |path| - 1 { assert p[l] == path[l] && p[l + 1] == path[l + 1]; }
    }
  }

  lemma ShapeKid(n: Node, i: nat)
    requires Shape(n) && n.Inner? && i < |n.kids|
    ensures Shape(n.kids[i]) && |n.kids| == |n.keys| + 1
  {
  }

  /** Another index on the last page. */
  lemma SetIdx(table: bool, path: seq<Frame>, i: nat)
    requires Way(path)
    ensures var p := path[|path| - 1 := Last(path).(idx := i)];
      Way(p) && LeftOf(table, p) == LeftOf(table, path) && RightOf(table, p) == RightOf(table, path)
  {
    hide Shape;
    var p := path[|path| - 1 := Last(path).(idx := i)];
    assert p[..|p| - 1] == path[..|path| - 1];
  }

  /** Up to the parent. */
  lemma Pop(table: bool, path: seq<Frame>)
    requires Way(path) && |path| > 1
    ensures var p := path[..|path| - 1];
      Way(p) && Last(p).node.Inner? && Last(p).idx < |Last(p).node.kids| == |Last(p).node.keys| + 1
      && Last(path).node == Last(p).node.kids[Last(p).idx]
      && LeftOf(table, path) == LeftOf(table, p) + FrameLeft(table, Last(p))
      && RightOf(table, path) == FrameRight(table, Last(p)) + RightOf(table, p)
  {
    hide Shape;
    var p := path[..|path| - 1];
    assert Shape(path[|path| - 2].node);
    ShapeKid(Last(p).node, Last(p).idx);
  }
}
