/** defragmentPage: what each step keeps, and the page it ends with. */
module PageDefrag {
  import opened Bytes
  import opened Layout
  import opened Page
  import opened Packing

  ghost predicate CellIs(d: seq<byte>, a: nat, e: seq<byte>, b: nat, n: nat) {
    a + n <= |d| && b + n <= |e| && d[a..a + n] == e[b..b + n]
  }

  /** Where cell k goes. */
  ghost function At(g: Geo, sz: seq<nat>, k: nat): int
    requires k < |sz|
  {
    g.u - Sum(sz, k + 1)
  }

  /** Offsets ps and sizes sz of the n cells of the page d0, all inside the content area that starts at top. */
  ghost predicate Job(g: Geo, d0: seq<byte>, top: nat, ps: seq<nat>, sz: seq<nat>) {
    && g.Ok() && g.u <= |d0| && SizeIsLocal(g.sizeOf) && |ps| == |sz|
    && g.CellOffset() + 2 * |ps| <= top <= g.u
    && g.CellOffset() + 2 * |ps| + Sum(sz, |sz|) <= g.u
    && (forall k | 0 <= k < |ps| :: Ptr(g, d0, k) == ps[k])
    && (forall k | 0 <= k < |ps| :: 4 <= sz[k] && top <= ps[k] && ps[k] + sz[k] <= g.u)
    && (forall k | 0 <= k < |ps| :: g.sizeOf(d0[ps[k]..g.u]) == sz[k])
    && (forall i, j | 0 <= i < j < |ps| :: ps[i] + sz[i] <= ps[j] || ps[j] + sz[j] <= ps[i])
  }

  lemma Room(g: Geo, gap: nat, sz: seq<nat>, k: nat)
    requires gap + Sum(sz, |sz|) <= g.u && k < |sz|
    ensures gap <= At(g, sz, k)
    ensures At(g, sz, k) + sz[k] == g.u - Sum(sz, k) <= g.u
    ensures forall j | 0 <= j < k :: At(g, sz, k) + sz[k] <= At(g, sz, j)
  {
    hide Sum;
    SumGrows(sz, k + 1, |sz|);
    SumStep(sz, k + 1);
    forall j | 0 <= j < k ensures At(g, sz, k) + sz[k] <= At(g, sz, j) {
      SumGrows(sz, j + 1, k);
    }
  }

  /** The first i cells are in place, with their pointers; the other pointers and the rest of the page are as in d0. */
  ghost predicate Moved(g: Geo, d0: seq<byte>, d: seq<byte>, ps: seq<nat>, sz: seq<nat>, i: nat)
    requires i <= |ps| == |sz| && g.CellOffset() + 2 * |ps| <= g.u <= |d|
  {
    && |d| == |d0|
    && (forall k | 0 <= k < i :: Ptr(g, d, k) == At(g, sz, k))
    && (forall k | i <= k < |ps| :: Ptr(g, d, k) == ps[k])
    && (forall k | 0 <= k < i :: 0 <= At(g, sz, k) && CellIs(d, At(g, sz, k), d0, ps[k], sz[k]))
    && (forall b | 0 <= b < |d| && (b < g.CellOffset() || g.u <= b) :: d[b] == d0[b])
  }

  lemma SpliceAt(d: seq<byte>, a: nat, s: seq<byte>)
    requires a + |s| <= |d|
    ensures forall b | 0 <= b < a || a + |s| <= b < |d| :: Splice(d, a, s)[b] == d[b]
    ensures Splice(d, a, s)[a..a + |s|] == s
  {
  }

  lemma SameSlice(d: seq<byte>, e: seq<byte>, a: nat, n: nat)
    requires a + n <= |d| && a + n <= |e|
    requires forall b | a <= b < a + n :: d[b] == e[b]
    ensures d[a..a + n] == e[a..a + n]
  {
  }

  /** One cell copied: its pointer rewritten, its bytes placed below the cells already moved. */
  lemma MoveOne(g: Geo, d0: seq<byte>, d: seq<byte>, ps: seq<nat>, sz: seq<nat>, i: nat, s: seq<byte>)
    requires i < |ps| == |sz| && g.CellOffset() + 2 * |ps| + Sum(sz, |sz|) <= g.u <= |d|
    requires g.u <= 65536 && 4 <= sz[i] && ps[i] + sz[i] <= |d0|
    requires Moved(g, d0, d, ps, sz, i)
    requires |s| == sz[i] && s == d0[ps[i]..ps[i] + sz[i]]
    ensures 0 <= At(g, sz, i) && At(g, sz, i) + sz[i] <= |d|
    ensures Moved(g, d0, Splice(Put2(d, g.CellOffset() + 2 * i, At(g, sz, i)), At(g, sz, i), s), ps, sz, i + 1)
  {
    hide At, Sum, Put2, Splice, Get2, CellIs;
    Room(g, g.CellOffset() + 2 * |ps|, sz, i);
    var a := At(g, sz, i);
    var d1 := Put2(d, g.CellOffset() + 2 * i, a);
    var d2 := Splice(d1, a, s);
    SpliceAt(d1, a, s);
    PutBytes(d, g.CellOffset() + 2 * i, a);
    assert a < 65536 && g.CellOffset() + 2 * i + 2 <= a;
    MovedPtrs(g, d0, d, ps, sz, i, s);
    CellNew(d2, a, s, d0, ps[i], sz[i]);
    forall k | 0 <= k < i ensures 0 <= At(g, sz, k) && CellIs(d2, At(g, sz, k), d0, ps[k], sz[k]) {
      CellStays(d, d2, At(g, sz, k), d0, ps[k], sz[k], a + sz[i]);
    }
  }

  lemma CellNew(d2: seq<byte>, a: nat, s: seq<byte>, e: seq<byte>, b: nat, n: nat)
    requires a + n <= |d2| && b + n <= |e| && d2[a..a + n] == s == e[b..b + n]
    ensures CellIs(d2, a, e, b, n)
  {
  }

  lemma CellStays(d: seq<byte>, d2: seq<byte>, a: nat, e: seq<byte>, b: nat, n: nat, from: nat)
    requires CellIs(d, a, e, b, n) && from <= a && |d2| == |d|
    requires forall i | from <= i < |d| :: d2[i] == d[i]
    ensures CellIs(d2, a, e, b, n)
  {
    SameSlice(d, d2, a, n);
  }

  lemma MovedPtrs(g: Geo, d0: seq<byte>, d: seq<byte>, ps: seq<nat>, sz: seq<nat>, i: nat, s: seq<byte>)
    requires i < |ps| == |sz| && g.CellOffset() + 2 * |ps| <= g.u <= |d| && Moved(g, d0, d, ps, sz, i)
    requires At(g, sz, i) < 65536
    requires |s| == sz[i] && g.CellOffset() + 2 * |ps| <= At(g, sz, i) && At(g, sz, i) + sz[i] <= g.u
    ensures var d2 := Splice(Put2(d, g.CellOffset() + 2 * i, At(g, sz, i)), At(g, sz, i), s);
      && (forall k | 0 <= k < i + 1 :: Ptr(g, d2, k) == At(g, sz, k))
      && (forall k | i + 1 <= k < |ps| :: Ptr(g, d2, k) == ps[k])
      && (forall b | 0 <= b < |d| && (b < g.CellOffset() || g.u <= b) :: d2[b] == d0[b])
  {
    hide At, Sum, CellIs, Splice, Put2, Get2;
    var a, q := At(g, sz, i), g.CellOffset() + 2 * i;
    var d1 := Put2(d, q, a);
    var d2 := Splice(d1, a, s);
    SpliceAt(d1, a, s);
    PutBytes(d, q, a);
    forall k | 0 <= k < |ps| ensures Ptr(g, d2, k) == if k == i then a else Ptr(g, d, k) {
      SameGet2(d1, d2, g.CellOffset() + 2 * k);
      if k != i { PutGet2(d, q, a, g.CellOffset() + 2 * k); }
    }
  }

  lemma SameGet2(d: seq<byte>, e: seq<byte>, i: nat)
    requires i + 2 <= |d| && i + 2 <= |e| && d[i] == e[i] && d[i + 1] == e[i + 1]
    ensures Get2(d, i) == Get2(e, i)
  {
  }

  lemma PutBytes(d: seq<byte>, i: nat, v: nat)
    requires i + 2 <= |d|
    ensures forall b | 0 <= b < i || i + 2 <= b < |d| :: Put2(d, i, v)[b] == d[b]
  {
  }

  // ---- the lazily made copy ----

  /** Nothing has moved yet: the cells still to come lie below the cells already in place. */
  ghost predicate Still(g: Geo, ps: seq<nat>, sz: seq<nat>, i: nat)
    requires i <= |ps| == |sz|
  {
    forall k | i <= k < |ps| :: ps[k] + sz[k] <= g.u - Sum(sz, i)
  }

  /** The copy t holds every cell still to come. */
  ghost predicate Holds(d0: seq<byte>, t: seq<byte>, ps: seq<nat>, sz: seq<nat>, i: nat)
    requires i <= |ps| == |sz|
  {
    forall k | i <= k < |ps| :: CellIs(t, ps[k], d0, ps[k], sz[k])
  }

  lemma StillStep(g: Geo, d0: seq<byte>, top: nat, ps: seq<nat>, sz: seq<nat>, i: nat)
    requires Job(g, d0, top, ps, sz) && i < |ps| && Still(g, ps, sz, i) && ps[i] == At(g, sz, i)
    ensures Still(g, ps, sz, i + 1)
  {
    hide SizeIsLocal;
    SumStep(sz, i + 1);
    forall k | i + 1 <= k < |ps| ensures ps[k] + sz[k] <= g.u - Sum(sz, i + 1) {
    }
  }

  lemma PutSame(d: seq<byte>, i: nat)
    requires i + 2 <= |d|
    ensures Put2(d, i, Get2(d, i)) == d
  {
  }

  /** A cell already in place: rewriting its pointer changes nothing. */
  lemma MoveNone(g: Geo, d0: seq<byte>, ps: seq<nat>, sz: seq<nat>, i: nat)
    requires i < |ps| == |sz| && g.CellOffset() + 2 * |ps| + Sum(sz, |sz|) <= g.u <= |d0| && ps[i] + sz[i] <= |d0|
    requires Moved(g, d0, d0, ps, sz, i) && ps[i] == At(g, sz, i)
    ensures Put2(d0, g.CellOffset() + 2 * i, ps[i]) == d0
    ensures Moved(g, d0, d0, ps, sz, i + 1)
  {
    hide Sum, Put2, CellIs, Get2;
    assert Ptr(g, d0, i) == ps[i];
    CellNew(d0, ps[i], d0[ps[i]..ps[i] + sz[i]], d0, ps[i], sz[i]);
    PutSame(d0, g.CellOffset() + 2 * i);
  }

  lemma HoldsCopy(g: Geo, d0: seq<byte>, d: seq<byte>, t: seq<byte>, top: nat, ps: seq<nat>, sz: seq<nat>, i: nat)
    requires Job(g, d0, top, ps, sz) && i < |ps| && Still(g, ps, sz, i)
    requires |d| == |d0| && forall b | top <= b < |d| :: d[b] == d0[b]
    requires Sum(sz, i) <= g.u && top <= g.u - Sum(sz, i) <= |t|
    requires t[top..g.u - Sum(sz, i)] == d[top..g.u - Sum(sz, i)]
    ensures Holds(d0, t, ps, sz, i)
  {
    hide SizeIsLocal, Sum;
    var e := g.u - Sum(sz, i);
    forall b | top <= b < e ensures t[b] == d0[b] {
      assert t[b] == t[top..e][b - top] == d[top..e][b - top];
    }
    forall k | i <= k < |ps| ensures CellIs(t, ps[k], d0, ps[k], sz[k]) {
      SameSlice(t, d0, ps[k], sz[k]);
    }
  }

  // ---- before and after ----

  ghost function Offsets(g: Geo, d: seq<byte>, n: nat): (r: seq<nat>)
    requires g.CellOffset() + 2 * n <= |d|
    ensures |r| == n && forall k | 0 <= k < n :: r[k] == Ptr(g, d, k)
  {
    seq(n, k requires 0 <= k < n => Ptr(g, d, k))
  }

  ghost function SizesOf(used: map<nat, nat>, ps: seq<nat>): (r: seq<nat>)
    requires forall k | 0 <= k < |ps| :: ps[k] in used
    ensures |r| == |ps| && forall k | 0 <= k < |ps| :: r[k] == used[ps[k]]
  {
    seq(|ps|, k requires 0 <= k < |ps| => used[ps[k]])
  }

  lemma RepLists(g: Geo, d: seq<byte>, n: nat, used: map<nat, nat>)
    requires g.Ok() && g.CellOffset() + 2 * n <= |d| && PtrsOk(g, d, n, used)
    ensures forall k | 0 <= k < n :: Offsets(g, d, n)[k] in used
    ensures Lists(used, Offsets(g, d, n), SizesOf(used, Offsets(g, d, n)))
  {
    var ps := Offsets(g, d, n);
    assert forall k | 0 <= k < n :: ps[k] == Ptr(g, d, k);
    forall s | s in used ensures exists i :: 0 <= i < |ps| && ps[i] == s {
      var i :| 0 <= i < n && Ptr(g, d, i) == s;
      assert ps[i] == s;
    }
  }

  /** A well-formed page is a job for PackCells, and its spare bytes are what packing leaves free. */
  lemma JobOk(g: Geo, d: seq<byte>, n: nat, nFree: int, L: Layout, ps: seq<nat>, sz: seq<nat>)
    requires Rep(g, d, n, nFree, L) && SizeIsLocal(g.sizeOf) && g.CellOffset() + 2 * n <= |d|
    requires ps == Offsets(g, d, n) && Lists(L.used, ps, sz)
    ensures Job(g, d, L.top, ps, sz)
    ensures L.gap + nFree + Sum(sz, |sz|) == g.u
  {
    hide SizeIsLocal, Sum, ChainOk;
    SpareIs(g.u, L, ps, sz, d[g.hdr + 7], nFree);
    hide Counts;
    JobSizes(g, d, L, ps, sz);
  }

  lemma JobSizes(g: Geo, d: seq<byte>, L: Layout, ps: seq<nat>, sz: seq<nat>)
    requires Sound(g.u, L) && Lists(L.used, ps, sz) && SizesOk(g, d, L.used) && g.u <= |d|
    ensures forall k | 0 <= k < |ps| :: 4 <= sz[k] && L.top <= ps[k] && ps[k] + sz[k] <= g.u
    ensures forall k | 0 <= k < |ps| :: g.sizeOf(d[ps[k]..g.u]) == sz[k]
    ensures forall i, j | 0 <= i < j < |ps| :: ps[i] + sz[i] <= ps[j] || ps[j] + sz[j] <= ps[i]
  {
    forall k | 0 <= k < |ps| ensures g.sizeOf(d[ps[k]..g.u]) == sz[k] {
      assert SizeOk(g, d, L.used, ps[k]);
    }
  }

  /** The page the method leaves: cells packed, no freeblock, no fragment, the gap filled with zeros. */
  ghost predicate Packed(g: Geo, d0: seq<byte>, d: seq<byte>, ps: seq<nat>, sz: seq<nat>)
    requires |ps| == |sz| && g.CellOffset() + 2 * |ps| <= g.u <= |d| && g.hdr + 8 <= |d0| && g.hdr + 8 <= |d|
  {
    && |d| == |d0|
    && (forall k | 0 <= k < |ps| :: Ptr(g, d, k) == At(g, sz, k))
    && (forall k | 0 <= k < |ps| :: 0 <= At(g, sz, k) && CellIs(d, At(g, sz, k), d0, ps[k], sz[k]))
    && Get2(d, g.hdr + 1) == 0 && Get2(d, g.hdr + 3) == Get2(d0, g.hdr + 3) && d[g.hdr + 7] == 0
    && Sum(sz, |sz|) <= g.u && Get2(d, g.hdr + 5) == TopField(g.u - Sum(sz, |sz|))
    && (forall b | 0 <= b < |d| && (b == g.hdr || g.hdr + 8 <= b < g.CellOffset() || g.u <= b) :: d[b] == d0[b])
  }

  lemma SizeElsewhere(g: Geo, d: seq<byte>, a: nat, e: seq<byte>, b: nat, n: nat)
    requires SizeIsLocal(g.sizeOf) && 4 <= n && CellIs(d, a, e, b, n) && a + n <= g.u <= |d| && b + n <= g.u <= |e|
    requires g.sizeOf(e[b..g.u]) == n
    ensures g.sizeOf(d[a..g.u]) == n
  {
    var x, y := e[b..g.u], d[a..g.u];
    assert x[..n] == e[b..b + n];
    assert y[..n] == d[a..a + n];
    assert Agree(x, y, g.sizeOf(x));
  }

  ghost function PackedLayout(g: Geo, sz: seq<nat>): Layout
    requires g.CellOffset() + 2 * |sz| + Sum(sz, |sz|) <= g.u
  {
    Pack(g.CellOffset() + 2 * |sz|, g.u, sz, |sz|)
  }

  lemma PackedPtrs(g: Geo, d0: seq<byte>, d: seq<byte>, top: nat, ps: seq<nat>, sz: seq<nat>)
    requires Job(g, d0, top, ps, sz) && g.u <= |d| && Packed(g, d0, d, ps, sz)
    ensures PtrsOk(g, d, |ps|, PackedLayout(g, sz).used)
  {
    hide SizeIsLocal, Sum, CellIs, Pack;
    var U := PackedLayout(g, sz).used;
    var gap := g.CellOffset() + 2 * |sz|;
    forall k | 0 <= k < |ps| ensures Ptr(g, d, k) in U {
      PackHas(gap, g.u, sz, |sz|, k);
    }
    forall i, j | 0 <= i < j < |ps| ensures Ptr(g, d, i) != Ptr(g, d, j) {
      SumStrict(sz, i + 1, j + 1);
    }
    forall s | s in U ensures exists i :: 0 <= i < |ps| && Ptr(g, d, i) == s {
      var j := PackOnly(gap, g.u, sz, |sz|, s);
      assert Ptr(g, d, j) == s;
    }
  }

  lemma PackedSizes(g: Geo, d0: seq<byte>, d: seq<byte>, top: nat, ps: seq<nat>, sz: seq<nat>)
    requires Job(g, d0, top, ps, sz) && g.u <= |d| && Packed(g, d0, d, ps, sz)
    ensures SizesOk(g, d, PackedLayout(g, sz).used)
  {
    hide SizeIsLocal, Sum, CellIs, Pack;
    var U := PackedLayout(g, sz).used;
    var gap := g.CellOffset() + 2 * |sz|;
    forall s | s in U ensures SizeOk(g, d, U, s) {
      var j := PackOnly(gap, g.u, sz, |sz|, s);
      PackHas(gap, g.u, sz, |sz|, j);
      Room(g, gap, sz, j);
      SizeElsewhere(g, d, At(g, sz, j), d0, ps[j], sz[j]);
    }
  }

  lemma PackedCore(g: Geo, d0: seq<byte>, d: seq<byte>, top: nat, ps: seq<nat>, sz: seq<nat>, nFree: int)
    requires Job(g, d0, top, ps, sz) && g.u <= |d| && Packed(g, d0, d, ps, sz)
    requires Get2(d0, g.hdr + 3) == |ps|
    requires g.CellOffset() + 2 * |ps| + nFree + Sum(sz, |sz|) == g.u
    ensures Core(g, d, |ps|, nFree, PackedLayout(g, sz))
  {
    hide SizeIsLocal, Sum, CellIs, Pack, Sound, Counts;
    PackSound(g.CellOffset() + 2 * |sz|, g.u, sz, |sz|);
  }
}
