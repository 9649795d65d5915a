/** Rows of sibling pages put together and taken apart. */
module Rows {
  import opened Siblings

  /** Pages each followed by its divider. */
  ghost function Before<C>(leaf: bool, x: seq<Page<C>>, dx: seq<Body>): seq<Item<C>>
    requires |x| == |dx| && forall i | 0 <= i < |x| :: x[i].Ok()
  {
    if x == [] then [] else PageItems(leaf, x[0]) + [Entry(dx[0])] + Before(leaf, x[1..], dx[1..])
  }

  lemma {:induction false} BeforeRow<C>(leaf: bool, x: seq<Page<C>>, dx: seq<Body>, y: seq<Page<C>>, dy: seq<Body>)
    requires |x| == |dx| && (forall i | 0 <= i < |x| :: x[i].Ok()) && Row(y, dy)
    ensures Row(x + y, dx + dy)
    ensures RowItems(leaf, x + y, dx + dy) == Before(leaf, x, dx) + RowItems(leaf, y, dy)
    decreases |x|
  {
    hide RowItems, PageItems, Row;
    if x == [] {
      assert x + y == y && dx + dy == dy;
    } else {
      BeforeRow(leaf, x[1..], dx[1..], y, dy);
      RowHead(leaf, x[0], dx[0], x[1..] + y, dx[1..] + dy);
      assert x + y == [x[0]] + (x[1..] + y) && dx + dy == [dx[0]] + (dx[1..] + dy);
    }
  }

  /** A stretch of siblings replaced by another with the same items: the whole row has the same items. */
  lemma RowReplaced<C>(leaf: bool, x: seq<Page<C>>, dx: seq<Body>, s: seq<Page<C>>, ds: seq<Body>,
                       s2: seq<Page<C>>, ds2: seq<Body>, y: seq<Page<C>>, dy: seq<Body>)
    requires |x| == |dx| && |y| == |dy| && (forall i | 0 <= i < |x| :: x[i].Ok()) && (forall i | 0 <= i < |y| :: y[i].Ok())
    requires Row(s, ds) && Row(s2, ds2) && RowItems(leaf, s2, ds2) == RowItems(leaf, s, ds)
    ensures Row(x + (s + y), dx + (ds + dy)) && Row(x + (s2 + y), dx + (ds2 + dy))
    ensures RowItems(leaf, x + (s2 + y), dx + (ds2 + dy)) == RowItems(leaf, x + (s + y), dx + (ds + dy))
  {
    hide Row, RowItems, Before, Rest;
    RowJoin(leaf, s, ds, y, dy);
    RowJoin(leaf, s2, ds2, y, dy);
    BeforeRow(leaf, x, dx, s + y, ds + dy);
    BeforeRow(leaf, x, dx, s2 + y, ds2 + dy);
  }

  /** A row followed by the rest of a bigger row: divs holds the dividers of the rest, the first one before its first page. */
  lemma {:induction false} RowJoin<C>(leaf: bool, x: seq<Page<C>>, dx: seq<Body>, y: seq<Page<C>>, dy: seq<Body>)
    requires Row(x, dx) && |y| == |dy| && forall i | 0 <= i < |y| :: y[i].Ok()
    ensures Row(x + y, dx + dy)
    ensures RowItems(leaf, x + y, dx + dy) == RowItems(leaf, x, dx) + Rest(leaf, y, dy)
    decreases |x|
  {
    hide RowItems, PageItems, Rest, Row;
    if |x| == 1 {
      RowOne(leaf, x, dx);
      RestRow(leaf, x[0], y, dy);
      assert x + y == [x[0]] + y && dx + dy == dy;
    } else {
      RowTwo(leaf, x, dx);
      RowJoin(leaf, x[1..], dx[1..], y, dy);
      RowHead(leaf, x[0], dx[0], x[1..] + y, dx[1..] + dy);
      RowSplit(x, dx);
      assert x + y == [x[0]] + (x[1..] + y) && dx + dy == [dx[0]] + (dx[1..] + dy);
    }
  }

  lemma RowOne<C>(leaf: bool, x: seq<Page<C>>, dx: seq<Body>)
    requires Row(x, dx) && |x| == 1
    ensures x == [x[0]] && dx == [] && x[0].Ok() && RowItems(leaf, x, dx) == PageItems(leaf, x[0])
  {
  }

  lemma RowSplit<C>(x: seq<Page<C>>, dx: seq<Body>)
    requires Row(x, dx) && |x| > 1
    ensures x == [x[0]] + x[1..] && |dx| > 0 && dx == [dx[0]] + dx[1..]
  {
  }

  lemma RowTwo<C>(leaf: bool, x: seq<Page<C>>, dx: seq<Body>)
    requires Row(x, dx) && |x| != 1
    ensures |x| > 1 && |dx| > 0 && x[0].Ok() && Row(x[1..], dx[1..])
    ensures RowItems(leaf, x, dx) == PageItems(leaf, x[0]) + [Entry(dx[0])] + RowItems(leaf, x[1..], dx[1..])
  {
  }

  lemma RowHead<C>(leaf: bool, p: Page<C>, d: Body, x: seq<Page<C>>, dx: seq<Body>)
    requires p.Ok() && Row(x, dx)
    ensures Row([p] + x, [d] + dx)
    ensures RowItems(leaf, [p] + x, [d] + dx) == PageItems(leaf, p) + [Entry(d)] + RowItems(leaf, x, dx)
  {
    hide PageItems;
    assert ([p] + x)[1..] == x && ([d] + dx)[1..] == dx;
  }

  ghost function Rest<C>(leaf: bool, y: seq<Page<C>>, dy: seq<Body>): seq<Item<C>>
    requires |y| == |dy| && forall i | 0 <= i < |y| :: y[i].Ok()
  {
    if y == [] then [] else [Entry(dy[0])] + PageItems(leaf, y[0]) + Rest(leaf, y[1..], dy[1..])
  }

  lemma {:induction false} RestRow<C>(leaf: bool, p: Page<C>, y: seq<Page<C>>, dy: seq<Body>)
    requires p.Ok() && |y| == |dy| && forall i | 0 <= i < |y| :: y[i].Ok()
    ensures Row([p] + y, dy) && RowItems(leaf, [p] + y, dy) == PageItems(leaf, p) + Rest(leaf, y, dy)
    decreases |y|
  {
    hide RowItems, PageItems, Row;
    if y != [] {
      RestRow(leaf, y[0], y[1..], dy[1..]);
      RowHead(leaf, p, dy[0], [y[0]] + y[1..], dy[1..]);
      assert y == [y[0]] + y[1..] && dy == [dy[0]] + dy[1..];
    } else {
      assert [p] + y == [p];
      RowSingle(leaf, p);
    }
  }

  lemma RowSingle<C>(leaf: bool, p: Page<C>)
    requires p.Ok()
    ensures Row([p], []) && RowItems(leaf, [p], []) == PageItems(leaf, p)
  {
  }

  lemma JoinedParts<C>(a: seq<Page<C>>, s: seq<Page<C>>, b: seq<Page<C>>)
    requires (forall i | 0 <= i < |a| :: a[i].Ok()) && (forall i | 0 <= i < |s| :: s[i].Ok()) && (forall i | 0 <= i < |b| :: b[i].Ok())
    ensures forall i | 0 <= i < |a + (s + b)| :: (a + (s + b))[i].Ok()
    ensures Joined(a + (s + b)) == Joined(a) + (Joined(s) + Joined(b))
  {
    hide Joined;
    JoinedConcat(s, b);
    JoinedConcat(a, s + b);
  }

  lemma {:induction false} JoinedConcat<C>(a: seq<Page<C>>, b: seq<Page<C>>)
    requires (forall i | 0 <= i < |a| :: a[i].Ok()) && forall i | 0 <= i < |b| :: b[i].Ok()
    ensures forall i | 0 <= i < |a + b| :: (a + b)[i].Ok()
    ensures Joined(a + b) == Joined(a) + Joined(b)
  {
    hide Loaded;
    if a == [] {
      assert a + b == b;
    } else {
      JoinedConcat(a[1..], b);
      assert (a + b)[1..] == a[1..] + b;
    }
  }
}
