/** The page as a sequence of cells, and what inserting and dropping one does to it. */
module PageCells {
  import opened Bytes
  import opened Layout
  import opened FreeList
  import opened Page
  import opened Packing
  import opened PageDefrag

  function Without<T>(s: seq<T>, k: nat): (r: seq<T>)
    requires k < |s|
    ensures |r| == |s| - 1
  {
    s[..k] + s[k + 1..]
  }

  function With<T>(s: seq<T>, k: nat, x: T): (r: seq<T>)
    requires k <= |s|
    ensures |r| == |s| + 1
  {
    s[..k] + [x] + s[k..]
  }

  /** The cell at offset p is the byte string c. */
  ghost predicate HoldsCell(g: Geo, d: seq<byte>, used: map<nat, nat>, p: nat, c: seq<byte>) {
    p in used && used[p] == |c| && p + |c| <= g.u <= |d| && d[p..p + |c|] == c
  }

  /** The offsets ps are the cell pointers of d, and the cells they lead to are cs. */
  ghost predicate Cells(g: Geo, d: seq<byte>, used: map<nat, nat>, ps: seq<nat>, cs: seq<seq<byte>>)
    requires g.CellOffset() + 2 * |ps| <= |d|
  {
    && |ps| == |cs|
    && (forall k | 0 <= k < |ps| :: Ptr(g, d, k) == ps[k])
    && (forall k | 0 <= k < |ps| :: HoldsCell(g, d, used, ps[k], cs[k]))
    && Names(used, ps)
  }

  ghost predicate Names(used: map<nat, nat>, ps: seq<nat>) {
    && (forall i | 0 <= i < |ps| :: ps[i] in used)
    && (forall i, j | 0 <= i < j < |ps| :: ps[i] != ps[j])
    && (forall s | s in used :: s in ps)
  }

  lemma NamesWithout(used: map<nat, nat>, ps: seq<nat>, k: nat)
    requires Names(used, ps) && k < |ps|
    ensures Names(used - {ps[k]}, Without(ps, k))
  {
    var r := Without(ps, k);
    forall i | 0 <= i < |r| ensures r[i] == ps[if i < k then i else i + 1] {}
    forall s | s in used - {ps[k]} ensures s in r {
      var i :| 0 <= i < |ps| && ps[i] == s;
      assert r[if i < k then i else i - 1] == s;
    }
  }

  lemma NamesWith(used: map<nat, nat>, ps: seq<nat>, k: nat, x: nat, n: nat)
    requires Names(used, ps) && k <= |ps| && x !in used
    ensures Names(used[x := n], With(ps, k, x))
  {
    var r := With(ps, k, x);
    forall i | 0 <= i < |r| && i != k ensures r[i] == ps[if i < k then i else i - 1] {}
    assert r[k] == x;
    forall i, j | 0 <= i < j < |r| ensures r[i] != r[j] {
      if i != k && j != k {
        assert r[i] == ps[if i < k then i else i - 1] && r[j] == ps[if j < k then j else j - 1];
      }
    }
    forall i | 0 <= i < |r| ensures r[i] in used[x := n] {}
    forall s | s in used ensures s in r {
      var i :| 0 <= i < |ps| && ps[i] == s;
      assert r[if i < k then i else i + 1] == s;
    }
  }

  lemma CellsPtrs(g: Geo, d: seq<byte>, used: map<nat, nat>, ps: seq<nat>, cs: seq<seq<byte>>)
    requires g.Ok() && g.CellOffset() + 2 * |ps| <= |d| && Cells(g, d, used, ps, cs)
    ensures PtrsOk(g, d, |ps|, used)
  {
    forall s | s in used ensures exists i :: 0 <= i < |ps| && Ptr(g, d, i) == s {
      var i :| 0 <= i < |ps| && ps[i] == s;
      assert Ptr(g, d, i) == s;
    }
  }

  /** Writing only the cell count and the pointer array moves the gap and nothing else. */
  lemma CoreMoved(g: Geo, d: seq<byte>, d2: seq<byte>, n: nat, n2: nat, nFree: int, L: Layout)
    requires Core(g, d, n, nFree, L) && |d2| == |d|
    requires forall b | 0 <= b < |d| && (b < g.hdr + 3 || g.hdr + 5 <= b < g.hdr + 8 || L.top <= b) :: d2[b] == d[b]
    requires g.CellOffset() + 2 * n2 <= L.top && Get2(d2, g.hdr + 3) == n2
    ensures Core(g, d2, n2, nFree - 2 * (n2 - n), L.(gap := g.CellOffset() + 2 * n2))
  {
    hide IsNext, LinkOk, SizeFieldOk, FragSet, SpareSet;
    MoveGap(g.u, L, g.CellOffset() + 2 * n2, d[g.hdr + 7], nFree);
    hide Sound;
    CoreFacts(g, d, n, nFree, L);
    SameGet2(d, d2, g.hdr + 5);
    LinkSame(d, d2, L.free, g.hdr + 1);
    forall s | s in L.free ensures LinkOk(d2, L.free, s) && SizeFieldOk(d2, L.free, s) {
      assert LinkOk(d, L.free, s) && SizeFieldOk(d, L.free, s);
      LinkSame(d, d2, L.free, s);
      SizeSame(d, d2, L.free, s);
    }
  }

  lemma CoreFacts(g: Geo, d: seq<byte>, n: nat, nFree: int, L: Layout)
    requires Core(g, d, n, nFree, L)
    ensures 480 <= g.u <= |d| && g.u <= 65536 && g.CellOffset() + 2 * n == L.gap <= L.top <= g.u
    ensures forall s | s in L.free :: L.top < s && s + 4 <= g.u
    ensures forall s | s in L.used :: L.top <= s && 4 <= L.used[s] && s + L.used[s] <= g.u
  {
    hide ChainOk, Counts;
  }

  lemma LinkSame(d: seq<byte>, d2: seq<byte>, free: map<nat, nat>, at: nat)
    requires LinkOk(d, free, at) && |d2| == |d| && d2[at] == d[at] && d2[at + 1] == d[at + 1]
    ensures LinkOk(d2, free, at)
  {
  }

  lemma SizeSame(d: seq<byte>, d2: seq<byte>, free: map<nat, nat>, at: nat)
    requires SizeFieldOk(d, free, at) && |d2| == |d| && d2[at + 2] == d[at + 2] && d2[at + 3] == d[at + 3]
    ensures SizeFieldOk(d2, free, at)
  {
  }

  /** Writing inside a cell disturbs neither the header nor the freeblock list. */
  lemma CoreContent(g: Geo, d: seq<byte>, d2: seq<byte>, n: nat, nFree: int, L: Layout, x: nat)
    requires Core(g, d, n, nFree, L) && |d2| == |d| && x in L.used
    requires forall b | 0 <= b < |d| && !(x <= b < x + L.used[x]) :: d2[b] == d[b]
    ensures Core(g, d2, n, nFree, L)
  {
    hide IsNext, LinkOk, SizeFieldOk, FragSet, SpareSet, Sound;
    CoreFacts(g, d, n, nFree, L);
    LinkSame(d, d2, L.free, g.hdr + 1);
    forall s | s in L.free ensures LinkOk(d2, L.free, s) && SizeFieldOk(d2, L.free, s) {
      assert LinkOk(d, L.free, s) && SizeFieldOk(d, L.free, s);
      ApartFrom(g.u, L, x, s);
      LinkSame(d, d2, L.free, s);
      SizeSame(d, d2, L.free, s);
    }
  }

  lemma ApartFrom(u: nat, L: Layout, x: nat, s: nat)
    requires Sound(u, L) && x in L.used && s in L.free
    ensures x + L.used[x] <= s || s + 4 <= x
  {
  }

  lemma UsedApart(u: nat, L: Layout, x: nat, s: nat)
    requires Sound(u, L) && x in L.used && s in L.used && x != s
    ensures x + L.used[x] <= s || s + L.used[s] <= x
  {
  }

  // ---- defragmentation ----

  lemma CellsOffsets(g: Geo, d: seq<byte>, used: map<nat, nat>, ps: seq<nat>, cs: seq<seq<byte>>)
    requires g.CellOffset() + 2 * |ps| <= |d| && Cells(g, d, used, ps, cs)
    ensures ps == Offsets(g, d, |ps|)
  {
  }

  lemma DefragJob(g: Geo, d: seq<byte>, n: nat, nFree: int, L: Layout, ps: seq<nat>, cs: seq<seq<byte>>)
    requires Rep(g, d, n, nFree, L) && SizeIsLocal(g.sizeOf)
    requires g.CellOffset() + 2 * n <= |d| && |ps| == n && Cells(g, d, L.used, ps, cs)
    ensures ps == Offsets(g, d, n) && forall k | 0 <= k < n :: ps[k] in L.used
    ensures var sz := SizesOf(L.used, ps);
      Job(g, d, L.top, ps, sz) && L.gap + nFree + Sum(sz, |sz|) == g.u && |sz| == n
    ensures Get2(d, g.hdr + 5) == TopField(L.top) && L.gap == g.CellOffset() + 2 * n
  {
    hide Core, SizeIsLocal, Sum, SizesOk;
    CellsOffsets(g, d, L.used, ps, cs);
    RepOk(g, d, n, nFree, L);
    RepLists(g, d, n, L.used);
    JobOk(g, d, n, nFree, L, ps, SizesOf(L.used, ps));
  }

  lemma RepOk(g: Geo, d: seq<byte>, n: nat, nFree: int, L: Layout)
    requires Core(g, d, n, nFree, L)
    ensures g.Ok() && 480 <= g.u <= |d| && g.u <= 65536 && g.CellOffset() + 2 * n == L.gap <= L.top <= g.u
    ensures Get2(d, g.hdr + 5) == TopField(L.top) && Get2(d, g.hdr + 3) == n
  {
    hide ChainOk, Counts;
  }

  /** What the last writes of defragmentPage leave of the packed cells. */
  lemma PackedBytes(g: Geo, d0: seq<byte>, d1: seq<byte>, d: seq<byte>, ps: seq<nat>, sz: seq<nat>)
    requires g.Ok() && |ps| == |sz| && g.CellOffset() + 2 * |ps| + Sum(sz, |sz|) <= g.u <= |d1|
    requires Moved(g, d0, d1, ps, sz, |ps|) && |d| == |d1|
    requires Get2(d, g.hdr + 5) == TopField(g.u - Sum(sz, |sz|))
    requires d[g.hdr + 1] == 0 && d[g.hdr + 2] == 0 && d[g.hdr + 7] == 0
    requires forall b | 0 <= b < |d| && (b <= g.hdr || g.hdr + 3 <= b < g.hdr + 5 || g.hdr + 8 <= b < g.CellOffset() + 2 * |ps|
                        || g.u - Sum(sz, |sz|) <= b) :: d[b] == d1[b]
    ensures Packed(g, d0, d, ps, sz)
  {
    hide Sum, CellIs;
    forall k | 0 <= k < |ps| ensures Ptr(g, d, k) == At(g, sz, k) {
      assert Ptr(g, d1, k) == At(g, sz, k);
      SameGet2(d, d1, g.CellOffset() + 2 * k);
    }
    forall k | 0 <= k < |ps| ensures 0 <= At(g, sz, k) && CellIs(d, At(g, sz, k), d0, ps[k], sz[k]) {
      SumGrows(sz, k + 1, |sz|);
      CellStays(d1, d, At(g, sz, k), d0, ps[k], sz[k], g.u - Sum(sz, |sz|));
    }
    SameGet2(d, d1, g.hdr + 3);
    SameGet2(d1, d0, g.hdr + 3);
  }

  lemma PackedNames(g: Geo, d: seq<byte>, ps: seq<nat>, sz: seq<nat>)
    requires g.Ok() && |ps| == |sz| && g.CellOffset() + 2 * |sz| + Sum(sz, |sz|) <= g.u <= |d|
    requires PtrsOk(g, d, |ps|, PackedLayout(g, sz).used) && ps == Offsets(g, d, |ps|)
    ensures Names(PackedLayout(g, sz).used, ps)
  {
    hide Pack, Sum;
    var U := PackedLayout(g, sz).used;
    forall s | s in U ensures s in ps {
      var i :| 0 <= i < |ps| && Ptr(g, d, i) == s;
      assert ps[i] == s;
    }
  }

  lemma PackedCell(g: Geo, d0: seq<byte>, d: seq<byte>, used: map<nat, nat>, ps: seq<nat>, sz: seq<nat>, c: seq<byte>, k: nat)
    requires g.Ok() && |ps| == |sz| && g.CellOffset() + 2 * |sz| + Sum(sz, |sz|) <= g.u <= |d| && g.hdr + 8 <= |d0|
    requires forall i | 0 <= i < |sz| :: 4 <= sz[i]
    requires Packed(g, d0, d, ps, sz) && k < |ps|
    requires HoldsCell(g, d0, used, ps[k], c) && sz[k] == used[ps[k]]
    ensures HoldsCell(g, d, PackedLayout(g, sz).used, Ptr(g, d, k), c)
  {
    hide Sum, Pack;
    PackHas(g.CellOffset() + 2 * |sz|, g.u, sz, |sz|, k);
    Room(g, g.CellOffset() + 2 * |sz|, sz, k);
    assert CellIs(d, At(g, sz, k), d0, ps[k], sz[k]);
  }

  lemma PackedFrame(g: Geo, d0: seq<byte>, d: seq<byte>, ps: seq<nat>, sz: seq<nat>)
    requires g.Ok() && |ps| == |sz| && g.CellOffset() + 2 * |sz| <= g.u <= |d| && g.hdr + 8 <= |d0|
    requires Packed(g, d0, d, ps, sz)
    ensures |d| == |d0| && d[g.hdr + 7] == 0
    ensures forall b | 0 <= b < |d| && (b == g.hdr || g.hdr + 8 <= b < g.CellOffset() || g.u <= b) :: d[b] == d0[b]
  {
    hide At, CellIs, Sum;
  }

  lemma DefragDone(g: Geo, d0: seq<byte>, d: seq<byte>, L: Layout, ps: seq<nat>, sz: seq<nat>, nFree: int, cs: seq<seq<byte>>)
    requires Job(g, d0, L.top, ps, sz) && g.u <= |d| && Packed(g, d0, d, ps, sz)
    requires Get2(d0, g.hdr + 3) == |ps| && g.CellOffset() + 2 * |ps| + nFree + Sum(sz, |sz|) == g.u
    requires Cells(g, d0, L.used, ps, cs) && sz == SizesOf(L.used, ps)
    ensures Rep(g, d, |ps|, nFree, PackedLayout(g, sz))
    ensures Cells(g, d, PackedLayout(g, sz).used, Offsets(g, d, |ps|), cs)
    ensures PackedLayout(g, sz).free == map[] && PackedLayout(g, sz).top == g.u - Sum(sz, |sz|)
    ensures PackedLayout(g, sz).gap == g.CellOffset() + 2 * |ps|
    ensures |d| == |d0| && d[g.hdr + 7] == 0
    ensures forall b | 0 <= b < |d| && (b == g.hdr || g.hdr + 8 <= b < g.CellOffset() || g.u <= b) :: d[b] == d0[b]
  {
    hide SizeIsLocal, Core, SizesOk, Pack, Sum, PtrsOk, Packed, Cells, HoldsCell;
    PackedFrame(g, d0, d, ps, sz);
    PackedPtrs(g, d0, d, L.top, ps, sz);
    PackedSizes(g, d0, d, L.top, ps, sz);
    PackedCore(g, d0, d, L.top, ps, sz, nFree);
    PackSound(g.CellOffset() + 2 * |sz|, g.u, sz, |sz|);
    DefragCells(g, d0, d, L, ps, sz, cs);
  }

  lemma DefragCells(g: Geo, d0: seq<byte>, d: seq<byte>, L: Layout, ps: seq<nat>, sz: seq<nat>, cs: seq<seq<byte>>)
    requires Job(g, d0, L.top, ps, sz) && g.u <= |d| && Packed(g, d0, d, ps, sz)
    requires PtrsOk(g, d, |ps|, PackedLayout(g, sz).used)
    requires Cells(g, d0, L.used, ps, cs) && sz == SizesOf(L.used, ps)
    ensures Cells(g, d, PackedLayout(g, sz).used, Offsets(g, d, |ps|), cs)
  {
    hide SizeIsLocal, Pack, Sum, HoldsCell, PtrsOk, Names, Packed;
    PackedNames(g, d, Offsets(g, d, |ps|), sz);
    forall k | 0 <= k < |ps| ensures HoldsCell(g, d, PackedLayout(g, sz).used, Ptr(g, d, k), cs[k]) {
      PackedCell(g, d0, d, L.used, ps, sz, cs[k], k);
    }
  }

  // ---- inserting ----

  /** Everything from the content start up is as before, except the bytes of the block at x. */
  ghost predicate SameBut(d: seq<byte>, d2: seq<byte>, top: nat, x: nat, n: nat) {
    |d2| == |d| && forall b | top <= b < |d| && !(x <= b < x + n) :: d2[b] == d[b]
  }

  lemma OthersKept(g: Geo, d: seq<byte>, d2: seq<byte>, L: Layout, x: nat, p: nat, used2: map<nat, nat>, c: seq<byte>)
    requires Sound(g.u, L) && x in L.used && p in L.used && p != x
    requires SameBut(d, d2, L.top, x, L.used[x]) && HoldsCell(g, d, L.used - {x}, p, c)
    requires p in used2 && used2[p] == L.used[p]
    ensures HoldsCell(g, d2, used2, p, c)
  {
    UsedApart(g.u, L, x, p);
    hide Sound;
    SameSlice(d, d2, p, |c|);
  }

  lemma SizesKept(g: Geo, d: seq<byte>, d2: seq<byte>, L: Layout, x: nat, used2: map<nat, nat>)
    requires SizeIsLocal(g.sizeOf) && Sound(g.u, L) && x in L.used && g.u <= |d|
    requires SameBut(d, d2, L.top, x, L.used[x]) && SizesOk(g, d, L.used - {x})
    requires forall p | p in L.used && p != x :: p in used2 && used2[p] == L.used[p]
    ensures forall p | p in L.used && p != x :: SizeOk(g, d2, used2, p)
  {
    hide SizeIsLocal, SameBut;
    forall p | p in L.used && p != x ensures SizeOk(g, d2, used2, p) {
      assert SizeOk(g, d, L.used - {x}, p);
      UsedApart(g.u, L, x, p);
      SameButSlice(g.u, d, d2, L, x, p);
      SameCellSize(g, d, d2, p, L.used[p]);
    }
  }

  lemma SameButSlice(u: nat, d: seq<byte>, d2: seq<byte>, L: Layout, x: nat, p: nat)
    requires Sound(u, L) && x in L.used && p in L.used && p != x && u <= |d|
    requires SameBut(d, d2, L.top, x, L.used[x])
    ensures |d2| == |d| && p + L.used[p] <= u && 4 <= L.used[p] && d2[p..p + L.used[p]] == d[p..p + L.used[p]]
  {
    UsedApart(u, L, x, p);
    SameSlice(d, d2, p, L.used[p]);
  }

  ghost predicate CellSized(g: Geo, c: seq<byte>) { 4 <= |c| && g.sizeOf(c) == |c| }

  lemma NewSize(g: Geo, d: seq<byte>, used: map<nat, nat>, x: nat, c: seq<byte>)
    requires SizeIsLocal(g.sizeOf) && CellSized(g, c) && HoldsCell(g, d, used, x, c)
    ensures SizeOk(g, d, used, x)
  {
    var y := d[x..g.u];
    assert y[..|c|] == d[x..x + |c|];
    assert c[..|c|] == c;
    assert Agree(c, y, g.sizeOf(c));
  }

  lemma InsertedCells(g: Geo, d: seq<byte>, d2: seq<byte>, L: Layout, ps: seq<nat>, cs: seq<seq<byte>>, i: nat, x: nat, c: seq<byte>)
    requires g.Ok() && Sound(g.u, L) && x in L.used && i <= |ps| && g.CellOffset() + 2 * |ps| + 2 <= g.u <= |d|
    requires Cells(g, d, L.used - {x}, ps, cs)
    requires SameBut(d, d2, L.top, x, L.used[x]) && HoldsCell(g, d2, L.used, x, c)
    requires forall k | 0 <= k <= |ps| :: Ptr(g, d2, k) == With(ps, i, x)[k]
    ensures Cells(g, d2, L.used, With(ps, i, x), With(cs, i, c))
  {
    hide Sound, SameBut, HoldsCell, Names;
    var r, q := With(ps, i, x), With(cs, i, c);
    NamesWith(L.used - {x}, ps, i, x, L.used[x]);
    assert (L.used - {x})[x := L.used[x]] == L.used;
    forall k | 0 <= k < |r| ensures HoldsCell(g, d2, L.used, r[k], q[k]) {
      if k != i {
        var k' := if k < i then k else k - 1;
        assert r[k] == ps[k'] && q[k] == cs[k'];
        assert HoldsCell(g, d, L.used - {x}, ps[k'], cs[k']);
        HoldsIn(g, d, L.used - {x}, ps[k'], cs[k']);
        OthersKept(g, d, d2, L, x, ps[k'], L.used, cs[k']);
      }
    }
  }

  lemma HoldsIn(g: Geo, d: seq<byte>, used: map<nat, nat>, p: nat, c: seq<byte>)
    requires HoldsCell(g, d, used, p, c)
    ensures p in used && used[p] == |c|
  {
  }

  /** The allocated block filled with the cell, the pointer and the count written: a well-formed page again. */
  lemma Inserted(g: Geo, d: seq<byte>, d1: seq<byte>, d2: seq<byte>, n: nat, nFree: int, L: Layout,
                 ps: seq<nat>, cs: seq<seq<byte>>, i: nat, x: nat, c: seq<byte>)
    requires Core(g, d, n, nFree - |c|, L) && SizeIsLocal(g.sizeOf) && CellSized(g, c)
    requires x in L.used && L.used[x] == |c| && SizesOk(g, d, L.used - {x}) && L.gap + 2 <= L.top
    requires i <= |ps| == |cs| == n && g.CellOffset() + 2 * n <= |d| && Cells(g, d, L.used - {x}, ps, cs)
    requires |d1| == |d2| == |d|
    requires forall b | 0 <= b < |d| && !(x <= b < x + |c|) :: d1[b] == d[b]
    requires x + |c| <= |d| && d1[x..x + |c|] == c
    requires forall b | 0 <= b < |d| && (b < g.hdr + 3 || g.hdr + 5 <= b < g.hdr + 8 || L.top <= b) :: d2[b] == d1[b]
    requires g.hdr + 5 <= |d| && Get2(d2, g.hdr + 3) == n + 1
    requires forall k | 0 <= k <= n && g.CellOffset() + 2 * k + 2 <= |d| :: Ptr(g, d2, k) == With(ps, i, x)[k]
    ensures g.CellOffset() + 2 * n + 2 <= |d2|
    ensures Rep(g, d2, n + 1, nFree - |c| - 2, L.(gap := L.gap + 2))
    ensures Cells(g, d2, L.used, With(ps, i, x), With(cs, i, c))
  {
    hide SizeIsLocal, Core, Sound, SizesOk, Cells, PtrsOk;
    CoreFacts(g, d, n, nFree - |c|, L);
    CoreSound(g, d, n, nFree - |c|, L);
    CoreContent(g, d, d1, n, nFree - |c|, L, x);
    CoreMoved(g, d1, d2, n, n + 1, nFree - |c|, L);
    SameSlice(d1, d2, x, |c|);
    assert SameBut(d, d2, L.top, x, L.used[x]);
    assert HoldsCell(g, d2, L.used, x, c);
    InsertedCells(g, d, d2, L, ps, cs, i, x, c);
    CellsPtrs(g, d2, L.used, With(ps, i, x), With(cs, i, c));
    InsertedSizes(g, d, d2, L, x, c);
  }

  lemma InsertedSizes(g: Geo, d: seq<byte>, d2: seq<byte>, L: Layout, x: nat, c: seq<byte>)
    requires SizeIsLocal(g.sizeOf) && Sound(g.u, L) && x in L.used && g.u <= |d| && CellSized(g, c)
    requires SameBut(d, d2, L.top, x, L.used[x]) && SizesOk(g, d, L.used - {x}) && HoldsCell(g, d2, L.used, x, c)
    ensures SizesOk(g, d2, L.used)
  {
    hide SizeIsLocal, Sound, SameBut, HoldsCell, SizeOk, CellSized;
    SizesKept(g, d, d2, L, x, L.used);
    NewSize(g, d2, L.used, x, c);
  }

  lemma CoreSound(g: Geo, d: seq<byte>, n: nat, nFree: int, L: Layout)
    requires Core(g, d, n, nFree, L)
    ensures g.Ok() && Sound(g.u, L)
  {
  }

  // ---- dropping ----

  lemma DroppedCells(g: Geo, d: seq<byte>, d2: seq<byte>, L: Layout, ps: seq<nat>, cs: seq<seq<byte>>, k: nat)
    requires g.Ok() && k < |ps| && g.CellOffset() + 2 * |ps| <= |d| && |d2| == |d|
    requires Cells(g, d, L.used, ps, cs)
    requires forall p, c | p in L.used && p != ps[k] && HoldsCell(g, d, L.used, p, c) :: HoldsCell(g, d2, L.used - {ps[k]}, p, c)
    requires forall j | 0 <= j < |ps| - 1 :: Ptr(g, d2, j) == Without(ps, k)[j]
    ensures Cells(g, d2, L.used - {ps[k]}, Without(ps, k), Without(cs, k))
  {
    hide HoldsCell;
    var r, q := Without(ps, k), Without(cs, k);
    NamesWithout(L.used, ps, k);
    forall j | 0 <= j < |r| ensures HoldsCell(g, d2, L.used - {ps[k]}, r[j], q[j]) {
      var j' := if j < k then j else j + 1;
      assert r[j] == ps[j'] && q[j] == cs[j'];
      assert HoldsCell(g, d, L.used, ps[j'], cs[j']);
    }
  }

  /** Two byte strings that agree on the cells of a layout hold the same cells. */
  ghost predicate AgreeOn(d: seq<byte>, d2: seq<byte>, used: map<nat, nat>) {
    |d2| == |d| && forall b | 0 <= b < |d| && Covered(b, used) :: d2[b] == d[b]
  }

  lemma AgreeCell(g: Geo, d: seq<byte>, d2: seq<byte>, used0: map<nat, nat>, used: map<nat, nat>, p: nat, c: seq<byte>)
    requires AgreeOn(d, d2, used) && HoldsCell(g, d, used0, p, c) && p in used && used[p] == used0[p]
    ensures HoldsCell(g, d2, used, p, c)
  {
    forall b | p <= b < p + |c| ensures d2[b] == d[b] {
      assert Has(p, used[p], b);
    }
    SameSlice(d, d2, p, |c|);
  }

  lemma AgreeSizes(g: Geo, d: seq<byte>, d2: seq<byte>, used0: map<nat, nat>, used: map<nat, nat>)
    requires AgreeOn(d, d2, used) && SizeIsLocal(g.sizeOf) && SizesOk(g, d, used0)
    requires forall p | p in used :: p in used0 && used0[p] == used[p] && 4 <= used[p]
    ensures SizesOk(g, d2, used)
  {
    hide SizeIsLocal, AgreeOn;
    forall p | p in used ensures SizeOk(g, d2, used, p) {
      assert SizeOk(g, d, used0, p);
      AgreeCell(g, d, d2, used0, used, p, d[p..p + used[p]]);
      SameCellSize(g, d, d2, p, used[p]);
    }
  }

  lemma KeptAgree(g: Geo, d: seq<byte>, d2: seq<byte>, L: Layout)
    requires Kept(g, d, d2, L)
    ensures AgreeOn(d, d2, L.used)
  {
  }

  /** The pointer of cell k taken out of the array and the count lowered, after freeSpace. */
  lemma Dropped(g: Geo, d: seq<byte>, d1: seq<byte>, d2: seq<byte>, n: nat, nFree: int, L0: Layout, L: Layout,
                ps: seq<nat>, cs: seq<seq<byte>>, k: nat)
    requires k < |ps| == |cs| == n && g.CellOffset() + 2 * n <= |d| && SizeIsLocal(g.sizeOf)
    requires g.Ok() && Cells(g, d, L0.used, ps, cs) && SizesOk(g, d, L0.used)
    requires Core(g, d1, n, nFree, L) && L.used == L0.used - {ps[k]}
    requires AgreeOn(d, d1, L.used)
    requires |d2| == |d1|
    requires forall b | 0 <= b < |d1| && (b < g.hdr + 3 || g.hdr + 5 <= b < g.hdr + 8 || L.top <= b) :: d2[b] == d1[b]
    requires g.hdr + 5 <= |d1| && Get2(d2, g.hdr + 3) == n - 1
    requires forall j | 0 <= j < n - 1 && g.CellOffset() + 2 * j + 2 <= |d2| :: Ptr(g, d2, j) == Without(ps, k)[j]
    ensures |d2| == |d| && Rep(g, d2, n - 1, nFree + 2, L.(gap := L.gap - 2))
    ensures Cells(g, d2, L.used, Without(ps, k), Without(cs, k))
  {
    hide SizeIsLocal, Core, Sound, SizesOk, Cells, PtrsOk, HoldsCell;
    CoreFacts(g, d1, n, nFree, L);
    CoreMoved(g, d1, d2, n, n - 1, nFree, L);
    assert AgreeOn(d, d2, L.used) by { AgreeAbove(d, d1, d2, L); }
    hide AgreeOn;
    forall p, c | p in L0.used && p != ps[k] && HoldsCell(g, d, L0.used, p, c) ensures HoldsCell(g, d2, L.used, p, c) {
      AgreeCell(g, d, d2, L0.used, L.used, p, c);
    }
    DroppedCells(g, d, d2, L0, ps, cs, k);
    CellsPtrs(g, d2, L.used, Without(ps, k), Without(cs, k));
    AgreeSizes(g, d, d2, L0.used, L.used);
  }

  lemma AgreeAbove(d: seq<byte>, d1: seq<byte>, d2: seq<byte>, L: Layout)
    requires AgreeOn(d, d1, L.used) && |d2| == |d1|
    requires forall b | L.top <= b < |d1| :: d2[b] == d1[b]
    requires forall s | s in L.used :: L.top <= s
    ensures AgreeOn(d, d2, L.used)
  {
    forall b | 0 <= b < |d| && Covered(b, L.used) ensures d2[b] == d[b] {
      assert L.top <= b;
    }
  }

  lemma EmptySpare(g: Geo, d: seq<byte>, n: nat, nFree: int, L: Layout)
    requires Core(g, d, n, nFree, L) && L.used == map[]
    ensures nFree == g.u - L.gap
  {
    hide ChainOk, HeaderOk;
    SpanSize(L.gap, g.u);
    assert SpareSet(g.u, L) == Span(L.gap, g.u);
  }

  lemma NamesNone(used: map<nat, nat>, ps: seq<nat>)
    requires Names(used, ps) && |ps| == 1
    ensures used - {ps[0]} == map[]
  {
  }

  lemma EmptyPage(g: Geo, d: seq<byte>)
    requires g.Ok() && g.u <= |d|
    requires Get2(d, g.hdr + 1) == 0 && Get2(d, g.hdr + 3) == 0 && Get2(d, g.hdr + 5) == TopField(g.u) && d[g.hdr + 7] == 0
    ensures var L := Layout(g.CellOffset(), g.u, map[], map[]);
      Rep(g, d, 0, g.u - g.CellOffset(), L) && Cells(g, d, L.used, [], [])
  {
    var L := Layout(g.CellOffset(), g.u, map[], map[]);
    PackSound(g.CellOffset(), g.u, [], 0);
    assert Pack(g.CellOffset(), g.u, [], 0) == L;
  }
}
