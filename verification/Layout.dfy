/** Geometry of one b-tree page: which bytes belong to cells, to freeblocks and to fragments. */
module Layout {

  /** gap: first byte after the cell pointer array; top: first byte of the content area;
      free and used map the start of each freeblock and of each cell to its size. */
  datatype Layout = Layout(gap: nat, top: nat, free: map<nat, nat>, used: map<nat, nat>)

  ghost predicate Has(s: nat, n: nat, b: int) { s <= b < s + n }

  /** The freeblocks lie above the content start, at least 4 bytes apart. */
  ghost predicate FreeOk(u: nat, top: nat, free: map<nat, nat>) {
    && (forall s | s in free :: top < s && 4 <= free[s] && s + free[s] <= u)
    && (forall s, t | s in free && t in free && s < t :: s + free[s] + 4 <= t)
  }

  ghost predicate UsedOk(u: nat, top: nat, used: map<nat, nat>) {
    && (forall s | s in used :: top <= s && 4 <= used[s] && s + used[s] <= u)
    && (forall s, t | s in used && t in used && s < t :: s + used[s] <= t)
  }

  ghost predicate Apart(free: map<nat, nat>, used: map<nat, nat>) {
    forall s, t | s in used && t in free :: s + used[s] <= t || t + free[t] <= s
  }

  ghost predicate Sound(u: nat, L: Layout) {
    && L.gap <= L.top <= u
    && FreeOk(u, L.top, L.free)
    && UsedOk(u, L.top, L.used)
    && Apart(L.free, L.used)
  }

  ghost predicate Covered(b: int, m: map<nat, nat>) { exists s :: s in m && Has(s, m[s], b) }

  /** Content bytes that no cell and no freeblock covers. */
  ghost function FragSet(u: nat, L: Layout): set<int> {
    set b: int | L.top <= b < u && !Covered(b, L.used) && !Covered(b, L.free)
  }

  /** Bytes after the pointer array that no cell covers. */
  ghost function SpareSet(u: nat, L: Layout): set<int> {
    set b: int | L.gap <= b < u && !Covered(b, L.used)
  }

  ghost function Span(a: int, b: int): (r: set<int>)
    ensures forall x :: x in r <==> a <= x < b
    decreases b - a
  {
    if a < b then Span(a, b - 1) + {b - 1} else {}
  }

  lemma {:induction false} SpanSize(a: int, b: int)
    requires a <= b
    ensures |Span(a, b)| == b - a
    decreases b - a
  {
    if a < b {
      SpanSize(a, b - 1);
    }
  }

  lemma CoveredMinus(b: int, m: map<nat, nat>, k: nat)
    requires k in m
    ensures Covered(b, m) <==> Covered(b, m - {k}) || Has(k, m[k], b)
  {
    var r := m - {k};
    if s :| s in m && Has(s, m[s], b) {
      assert s == k || s in r;
    }
    if s :| s in r && Has(s, r[s], b) {
      assert s in m && Has(s, m[s], b);
    }
  }

  // Six primitive changes of a layout. Every page operation is a composition of them.

  /** No cell and no freeblock overlaps [s, e). */
  ghost predicate Clear(L: Layout, s: nat, e: nat) {
    && (forall t | t in L.used :: t + L.used[t] <= s || e <= t)
    && (forall t | t in L.free :: t + L.free[t] <= s || e <= t)
  }

  ghost predicate Counts(u: nat, L: Layout, frag: int, spare: int) {
    |FragSet(u, L)| == frag && |SpareSet(u, L)| == spare
  }

  lemma SplitSize(a: set<int>, b: set<int>, x: int, y: int)
    requires x <= y
    requires forall i :: i in a <==> i in b || x <= i < y
    requires forall i | x <= i < y :: i !in b
    ensures |a| == |b| + (y - x)
  {
    assert a == b + Span(x, y);
    assert b !! Span(x, y);
    SpanSize(x, y);
  }

  lemma DropUsedSound(u: nat, L: Layout, x: nat)
    requires Sound(u, L) && x in L.used
    ensures var R := L.(used := L.used - {x}); Sound(u, R) && Clear(R, x, x + L.used[x])
  {
  }

  lemma DropUsed(u: nat, L: Layout, x: nat, frag: int, spare: int)
    requires Sound(u, L) && x in L.used && Counts(u, L, frag, spare)
    ensures var R := L.(used := L.used - {x});
            Sound(u, R) && Counts(u, R, frag + L.used[x], spare + L.used[x]) && Clear(R, x, x + L.used[x])
  {
    DropUsedSound(u, L, x);
    var R := L.(used := L.used - {x});
    var e := x + L.used[x];
    forall b ensures Covered(b, L.used) <==> Covered(b, R.used) || Has(x, L.used[x], b) {
      CoveredMinus(b, L.used, x);
    }
    forall b | Has(x, L.used[x], b) ensures !Covered(b, R.used) && !Covered(b, R.free) {
    }
    SplitSize(SpareSet(u, R), SpareSet(u, L), x, e);
    SplitSize(FragSet(u, R), FragSet(u, L), x, e);
  }

  lemma DropFreeSound(u: nat, L: Layout, x: nat)
    requires Sound(u, L) && x in L.free
    ensures var R := L.(free := L.free - {x}); Sound(u, R) && Clear(R, x, x + L.free[x])
  {
  }

  lemma DropFree(u: nat, L: Layout, x: nat, frag: int, spare: int)
    requires Sound(u, L) && x in L.free && Counts(u, L, frag, spare)
    ensures var R := L.(free := L.free - {x});
            Sound(u, R) && Counts(u, R, frag + L.free[x], spare) && Clear(R, x, x + L.free[x])
  {
    DropFreeSound(u, L, x);
    var R := L.(free := L.free - {x});
    var e := x + L.free[x];
    forall b ensures Covered(b, L.free) <==> Covered(b, R.free) || Has(x, L.free[x], b) {
      CoveredMinus(b, L.free, x);
    }
    forall b | Has(x, L.free[x], b) ensures !Covered(b, R.used) && !Covered(b, R.free) {
    }
    assert SpareSet(u, R) == SpareSet(u, L);
    SplitSize(FragSet(u, R), FragSet(u, L), x, e);
  }

  lemma AddUsed(u: nat, L: Layout, x: nat, n: nat, frag: int, spare: int)
    requires Sound(u, L) && L.top <= x && 4 <= n && x + n <= u && Clear(L, x, x + n)
    requires Counts(u, L, frag, spare)
    ensures var R := L.(used := L.used[x := n]);
            x !in L.used && Sound(u, R) && Counts(u, R, frag - n, spare - n)
  {
    AddUsedSound(u, L, x, n);
    hide Sound, Clear, FragSet, SpareSet;
    var R := L.(used := L.used[x := n]);
    DropUsed(u, R, x, |FragSet(u, R)|, |SpareSet(u, R)|);
    assert R.(used := R.used - {x}) == L;
  }

  lemma AddUsedSound(u: nat, L: Layout, x: nat, n: nat)
    requires Sound(u, L) && L.top <= x && 4 <= n && x + n <= u && Clear(L, x, x + n)
    ensures var R := L.(used := L.used[x := n]);
            x !in L.used && Sound(u, R) && R.used - {x} == L.used
  {
  }

  /** A new freeblock keeps 4 bytes from its neighbours. */
  lemma AddFree(u: nat, L: Layout, x: nat, n: nat, frag: int, spare: int)
    requires Sound(u, L) && L.top < x && 4 <= n && x + n <= u && Clear(L, x, x + n)
    requires forall t | t in L.free :: t + L.free[t] + 4 <= x || x + n + 4 <= t
    requires Counts(u, L, frag, spare)
    ensures var R := L.(free := L.free[x := n]);
            x !in L.free && Sound(u, R) && Counts(u, R, frag - n, spare)
  {
    AddFreeSound(u, L, x, n);
    hide Sound, Clear, FragSet, SpareSet;
    var R := L.(free := L.free[x := n]);
    DropFree(u, R, x, |FragSet(u, R)|, |SpareSet(u, R)|);
    assert R.(free := R.free - {x}) == L;
  }

  lemma AddFreeSound(u: nat, L: Layout, x: nat, n: nat)
    requires Sound(u, L) && L.top < x && 4 <= n && x + n <= u && Clear(L, x, x + n)
    requires forall t | t in L.free :: t + L.free[t] + 4 <= x || x + n + 4 <= t
    ensures var R := L.(free := L.free[x := n]);
            x !in L.free && Sound(u, R) && R.free - {x} == L.free
  {
  }

  lemma LowerTop(u: nat, L: Layout, t: nat, frag: int, spare: int)
    requires Sound(u, L) && L.gap <= t <= L.top && Counts(u, L, frag, spare)
    ensures var R := L.(top := t);
            Sound(u, R) && Counts(u, R, frag + (L.top - t), spare) && Clear(R, t, L.top)
  {
    var R := L.(top := t);
    assert SpareSet(u, R) == SpareSet(u, L);
    forall b | b < L.top ensures !Covered(b, L.used) && !Covered(b, L.free) {}
    SplitSize(FragSet(u, R), FragSet(u, L), t, L.top);
  }

  lemma RaiseTop(u: nat, L: Layout, t: nat, frag: int, spare: int)
    requires Sound(u, L) && L.top <= t <= u && Clear(L, L.top, t) && t !in L.free
    requires Counts(u, L, frag, spare)
    ensures var R := L.(top := t); Sound(u, R) && Counts(u, R, frag - (t - L.top), spare)
  {
    var R := L.(top := t);
    assert Sound(u, R);
    LowerTop(u, R, L.top, |FragSet(u, R)|, |SpareSet(u, R)|);
    assert R.(top := L.top) == L;
  }

  /** Moving the end of the cell pointer array. */
  lemma MoveGap(u: nat, L: Layout, g: nat, frag: int, spare: int)
    requires Sound(u, L) && g <= L.top && Counts(u, L, frag, spare)
    ensures var R := L.(gap := g); Sound(u, R) && Counts(u, R, frag, spare - (g - L.gap))
  {
    var R := L.(gap := g);
    assert FragSet(u, R) == FragSet(u, L);
    forall b | b < L.top ensures !Covered(b, L.used) {}
    if g <= L.gap {
      SplitSize(SpareSet(u, R), SpareSet(u, L), g, L.gap);
    } else {
      SplitSize(SpareSet(u, L), SpareSet(u, R), L.gap, g);
    }
  }
}
