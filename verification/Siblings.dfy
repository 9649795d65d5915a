/** Sibling pages as sequences of cells, and what a redistribution of their cells must keep. */
module Siblings {
  import opened Bytes

  type Body = seq<byte>

  /** A cell without its child pointer, and the child pointer it carries on an interior page. */
  datatype Cell<C> = Cell(child: C, body: Body)

  /** A page with its overflow cells, which belong before the stored cell number at. On a leaf, right means nothing. */
  datatype Page<C> = Page(cells: seq<Cell<C>>, right: C, at: nat, ovfl: seq<Cell<C>>) {
    predicate Ok() { at <= |cells| }
  }

  /** What is met, from left to right, when the subtrees below some siblings are walked through. */
  datatype Item<C> = Kid(kid: C) | Entry(body: Body)

  function Loaded<C>(p: Page<C>): (r: seq<Cell<C>>)
    requires p.Ok()
    ensures |r| == |p.cells| + |p.ovfl|
  {
    p.cells[..p.at] + p.ovfl + p.cells[p.at..]
  }

  function CellItems<C>(leaf: bool, cs: seq<Cell<C>>): seq<Item<C>> {
    if cs == [] then []
    else (if leaf then [Entry(cs[0].body)] else [Kid(cs[0].child), Entry(cs[0].body)]) + CellItems(leaf, cs[1..])
  }

  function Tail<C>(leaf: bool, right: C): seq<Item<C>> { if leaf then [] else [Kid(right)] }

  function PageItems<C>(leaf: bool, p: Page<C>): seq<Item<C>>
    requires p.Ok()
  {
    CellItems(leaf, Loaded(p)) + Tail(leaf, p.right)
  }

  ghost predicate Row<C>(pages: seq<Page<C>>, divs: seq<Body>) {
    0 < |pages| == |divs| + 1 && forall i | 0 <= i < |pages| :: pages[i].Ok()
  }

  /** The items below a row of siblings, with the dividers between them. */
  ghost function RowItems<C>(leaf: bool, pages: seq<Page<C>>, divs: seq<Body>): seq<Item<C>>
    requires Row(pages, divs)
    decreases |pages|
  {
    if |pages| == 1 then PageItems(leaf, pages[0])
    else PageItems(leaf, pages[0]) + [Entry(divs[0])] + RowItems(leaf, pages[1..], divs[1..])
  }

  lemma {:induction false} CellItemsConcat<C>(leaf: bool, a: seq<Cell<C>>, b: seq<Cell<C>>)
    ensures CellItems(leaf, a + b) == CellItems(leaf, a) + CellItems(leaf, b)
  {
    if a == [] {
      assert a + b == b;
    } else {
      CellItemsConcat(leaf, a[1..], b);
      assert (a + b)[1..] == a[1..] + b;
    }
  }

  /** All cells of a row in order: the dividers in between, taking over the right child of the page before them. */
  ghost function Gather<C>(leaf: bool, pages: seq<Page<C>>, divs: seq<Cell<C>>): seq<Cell<C>>
    requires 0 < |pages| == |divs| + 1 && forall i | 0 <= i < |pages| :: pages[i].Ok()
    decreases |pages|
  {
    if |pages| == 1 then Loaded(pages[0])
    else Loaded(pages[0]) + [AsCell(leaf, pages[0], divs[0])] + Gather(leaf, pages[1..], divs[1..])
  }

  function AsCell<C>(leaf: bool, p: Page<C>, d: Cell<C>): Cell<C> {
    if leaf then d else d.(child := p.right)
  }

  ghost function Bodies<C>(divs: seq<Cell<C>>): (r: seq<Body>)
    ensures |r| == |divs|
  {
    seq(|divs|, i requires 0 <= i < |divs| => divs[i].body)
  }

  /** Gathering the cells of a row loses nothing but the last right child. */
  lemma {:induction false} GatherItems<C>(leaf: bool, pages: seq<Page<C>>, divs: seq<Cell<C>>)
    requires Row(pages, Bodies(divs))
    ensures RowItems(leaf, pages, Bodies(divs))
         == CellItems(leaf, Gather(leaf, pages, divs)) + Tail(leaf, pages[|pages| - 1].right)
    decreases |pages|
  {
    if |pages| > 1 {
      assert Bodies(divs)[1..] == Bodies(divs[1..]);
      GatherItems(leaf, pages[1..], divs[1..]);
      GatherStep(leaf, pages[0], divs[0], Gather(leaf, pages[1..], divs[1..]));
    }
  }

  lemma GatherStep<C>(leaf: bool, p: Page<C>, d: Cell<C>, rest: seq<Cell<C>>)
    requires p.Ok()
    ensures CellItems(leaf, Loaded(p) + [AsCell(leaf, p, d)] + rest)
         == PageItems(leaf, p) + [Entry(d.body)] + CellItems(leaf, rest)
  {
    CellItemsConcat(leaf, Loaded(p) + [AsCell(leaf, p, d)], rest);
    CellItemsConcat(leaf, Loaded(p), [AsCell(leaf, p, d)]);
    assert [AsCell(leaf, p, d)][1..] == [];
  }

  // ---- dividing the cells anew ----

  /** Cells c[i-1] (the divider before page i) and the cells of page i, by the cuts c. */
  function From(c: seq<nat>, gap: nat, i: nat): nat
    requires i <= |c|
  {
    if i == 0 then 0 else c[i - 1] + gap
  }

  ghost predicate CutsOk(c: seq<nat>, gap: nat, n: nat) {
    && 0 < |c| && c[|c| - 1] == n
    && (forall i | 0 <= i < |c| :: From(c, gap, i) <= c[i] <= n)
    && (forall i | 0 <= i < |c| - 1 :: c[i] + gap <= n)
  }

  /** The pages and dividers that the cuts c make of the cells: where gap is 1, one cell between two pages divides them. */
  ghost predicate IsSplit<C>(leaf: bool, pages: seq<Page<C>>, divs: seq<Body>, cells: seq<Cell<C>>, right: C, c: seq<nat>)
    requires CutsOk(c, 1, |cells|)
  {
    && |pages| == |c| == |divs| + 1
    && (forall i | 0 <= i < |c| :: pages[i].Ok() && Loaded(pages[i]) == cells[From(c, 1, i)..c[i]])
    && (forall i | 0 <= i < |c| - 1 :: divs[i] == cells[c[i]].body)
    && (!leaf ==> pages[|c| - 1].right == right && forall i | 0 <= i < |c| - 1 :: pages[i].right == cells[c[i]].child)
  }

  /** Divided again, the cells make a row with the same items. */
  lemma {:induction false} SplitItems<C>(leaf: bool, pages: seq<Page<C>>, divs: seq<Body>, cells: seq<Cell<C>>, right: C, c: seq<nat>, i: nat)
    requires CutsOk(c, 1, |cells|) && IsSplit(leaf, pages, divs, cells, right, c) && i < |c|
    ensures Row(pages[i..], divs[i..])
    ensures RowItems(leaf, pages[i..], divs[i..]) == CellItems(leaf, cells[From(c, 1, i)..]) + Tail(leaf, right)
    decreases |c| - i
  {
    hide RowItems, CellItems, Loaded, PageItems, Row, IsSplit, CutsOk, From;
    SplitAt(leaf, pages, divs, cells, right, c, i);
    if i == |c| - 1 {
      SplitLast(leaf, pages, divs, cells, right, c);
    } else {
      SplitItems(leaf, pages, divs, cells, right, c, i + 1);
      SplitStep(leaf, pages[i], cells, From(c, 1, i), c[i]);
      RowStep(leaf, pages, divs, i);
    }
  }

  lemma SplitAt<C>(leaf: bool, pages: seq<Page<C>>, divs: seq<Body>, cells: seq<Cell<C>>, right: C, c: seq<nat>, i: nat)
    requires CutsOk(c, 1, |cells|) && IsSplit(leaf, pages, divs, cells, right, c) && i < |c|
    ensures |pages| == |c| == |divs| + 1 && From(c, 1, i) <= c[i] <= |cells|
    ensures pages[i].Ok() && Loaded(pages[i]) == cells[From(c, 1, i)..c[i]]
    ensures i < |c| - 1 ==> c[i] < |cells| && divs[i] == cells[c[i]].body && (!leaf ==> pages[i].right == cells[c[i]].child)
    ensures i < |c| - 1 ==> From(c, 1, i + 1) == c[i] + 1
  {
    hide Loaded;
  }

  lemma SplitLast<C>(leaf: bool, pages: seq<Page<C>>, divs: seq<Body>, cells: seq<Cell<C>>, right: C, c: seq<nat>)
    requires CutsOk(c, 1, |cells|) && IsSplit(leaf, pages, divs, cells, right, c)
    ensures var i := |c| - 1;
      Row(pages[i..], divs[i..]) && RowItems(leaf, pages[i..], divs[i..]) == CellItems(leaf, cells[From(c, 1, i)..]) + Tail(leaf, right)
  {
    hide CellItems, Loaded;
    var i := |c| - 1;
    assert cells[From(c, 1, i)..c[i]] == cells[From(c, 1, i)..];
    assert pages[i..] == [pages[i]];
  }

  lemma RowStep<C>(leaf: bool, pages: seq<Page<C>>, divs: seq<Body>, i: nat)
    requires i < |divs| && |pages| == |divs| + 1 && pages[i].Ok() && Row(pages[i + 1..], divs[i + 1..])
    ensures Row(pages[i..], divs[i..])
    ensures RowItems(leaf, pages[i..], divs[i..])
         == PageItems(leaf, pages[i]) + [Entry(divs[i])] + RowItems(leaf, pages[i + 1..], divs[i + 1..])
  {
    var p, d := pages[i..], divs[i..];
    assert p[1..] == pages[i + 1..] && d[1..] == divs[i + 1..];
    forall t | 0 <= t < |p| ensures p[t].Ok() {
      if t > 0 { assert p[t] == pages[i + 1..][t - 1]; }
    }
  }

  lemma SplitStep<C>(leaf: bool, p: Page<C>, cells: seq<Cell<C>>, a: nat, b: nat)
    requires a <= b < |cells| && p.Ok() && Loaded(p) == cells[a..b] && (!leaf ==> p.right == cells[b].child)
    ensures CellItems(leaf, cells[a..]) == PageItems(leaf, p) + [Entry(cells[b].body)] + CellItems(leaf, cells[b + 1..])
  {
    assert cells[a..] == cells[a..b] + ([cells[b]] + cells[b + 1..]);
    CellItemsConcat(leaf, cells[a..b], [cells[b]] + cells[b + 1..]);
    assert ([cells[b]] + cells[b + 1..])[1..] == cells[b + 1..];
  }

  /** Rebalancing preserves meaning: the walk over the siblings and their dividers is the same before and after. */
  lemma SameItems<C>(leaf: bool, pages: seq<Page<C>>, divs: seq<Cell<C>>, pages2: seq<Page<C>>, divs2: seq<Body>, c: seq<nat>)
    requires Row(pages, Bodies(divs))
    requires CutsOk(c, 1, |Gather(leaf, pages, divs)|)
    requires IsSplit(leaf, pages2, divs2, Gather(leaf, pages, divs), pages[|pages| - 1].right, c)
    ensures Row(pages2, divs2)
    ensures RowItems(leaf, pages2, divs2) == RowItems(leaf, pages, Bodies(divs))
  {
    hide Gather, RowItems, CellItems, Loaded;
    GatherItems(leaf, pages, divs);
    var cells := Gather(leaf, pages, divs);
    SplitItems(leaf, pages2, divs2, cells, pages[|pages| - 1].right, c, 0);
    assert pages2[0..] == pages2 && divs2[0..] == divs2 && cells[0..] == cells;
  }

  // ---- leaves of a tree that keeps all its data in the leaves ----

  /** The cells of a row of leaves; the dividers above them are only copies of keys. */
  ghost function Joined<C>(pages: seq<Page<C>>): seq<Cell<C>>
    requires forall i | 0 <= i < |pages| :: pages[i].Ok()
  {
    if pages == [] then [] else Loaded(pages[0]) + Joined(pages[1..])
  }

  ghost predicate IsLeafSplit<C>(pages: seq<Page<C>>, divs: seq<Body>, cells: seq<Cell<C>>, c: seq<nat>, divider: Body -> Body)
    requires CutsOk(c, 0, |cells|)
  {
    && |pages| == |c| == |divs| + 1
    && (forall i | 0 <= i < |c| :: pages[i].Ok() && Loaded(pages[i]) == cells[From(c, 0, i)..c[i]])
    && (forall i | 0 <= i < |c| - 1 :: 0 < c[i] && divs[i] == divider(cells[c[i] - 1].body))
  }

  lemma LeafAt<C>(pages: seq<Page<C>>, divs: seq<Body>, cells: seq<Cell<C>>, c: seq<nat>, divider: Body -> Body, i: nat)
    requires CutsOk(c, 0, |cells|) && IsLeafSplit(pages, divs, cells, c, divider) && i < |c|
    ensures |pages| == |c| == |divs| + 1 && From(c, 0, i) <= c[i] <= |cells|
    ensures pages[i].Ok() && Loaded(pages[i]) == cells[From(c, 0, i)..c[i]]
    ensures i == |c| - 1 ==> c[i] == |cells|
    ensures i < |c| - 1 ==> From(c, 0, i + 1) == c[i] && 0 < c[i] && divs[i] == divider(cells[c[i] - 1].body)
  {
    hide Loaded;
  }

  lemma {:induction false} LeafSplitJoined<C>(pages: seq<Page<C>>, divs: seq<Body>, cells: seq<Cell<C>>, c: seq<nat>, divider: Body -> Body, i: nat)
    requires CutsOk(c, 0, |cells|) && IsLeafSplit(pages, divs, cells, c, divider) && i < |c|
    ensures |pages| == |c| && (forall t | 0 <= t < |pages[i..]| :: pages[i..][t].Ok()) && From(c, 0, i) <= |cells|
    ensures Joined(pages[i..]) == cells[From(c, 0, i)..]
    decreases |c| - i
  {
    hide Loaded, IsLeafSplit, CutsOk, From;
    LeafAt(pages, divs, cells, c, divider, i);
    forall t | 0 <= t < |pages[i..]| ensures pages[i..][t].Ok() { LeafAt(pages, divs, cells, c, divider, i + t); }
    if i < |c| - 1 {
      LeafSplitJoined(pages, divs, cells, c, divider, i + 1);
      assert pages[i..][1..] == pages[i + 1..];
      assert cells[From(c, 0, i)..] == cells[From(c, 0, i)..c[i]] + cells[c[i]..];
    } else {
      assert pages[i..] == [pages[i]] && pages[i..][1..] == [];
      assert cells[From(c, 0, i)..] == cells[From(c, 0, i)..c[i]];
    }
  }
}
