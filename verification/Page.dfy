/** The b-tree page: cell pointer array, freeblock list, fragments and cell content in one byte array. */
module Page {
  import opened Bytes
  import opened Layout
  import opened FreeList

  /** What is fixed for a page: header offset, child pointer size, usable size, and the cell size scan. */
  datatype Geo = Geo(hdr: nat, child: nat, u: nat, sizeOf: seq<byte> -> nat) {
    function CellOffset(): nat { hdr + 8 + child }
    predicate Ok() { (hdr == 0 || hdr == 100) && (child == 0 || child == 4) && 480 <= u <= 65536 }
  }

  ghost predicate Agree(s: seq<byte>, t: seq<byte>, n: nat) {
    4 <= n <= |s| && n <= |t| && s[..n] == t[..n]
  }

  /** The size scan of a cell reads only the bytes of that cell. */
  ghost predicate SizeIsLocal(f: seq<byte> -> nat) {
    forall s, t | Agree(s, t, f(s)) :: f(t) == f(s)
  }

  function Ptr(g: Geo, d: seq<byte>, i: nat): nat
    requires g.CellOffset() + 2 * i + 2 <= |d|
  {
    Get2(d, g.CellOffset() + 2 * i)
  }

  /** The content offset field holds 0 in place of 65536. */
  function TopField(top: nat): nat { if top == 65536 then 0 else top }

  ghost predicate HeaderOk(g: Geo, d: seq<byte>, n: nat, L: Layout)
    requires g.Ok() && g.u <= |d|
  {
    && L.gap == g.CellOffset() + 2 * n
    && Get2(d, g.hdr + 3) == n
    && L.top <= 65536
    && Get2(d, g.hdr + 5) == TopField(L.top)
  }

  /** The list link stored at an address: the list head in the header, or the first two bytes of a freeblock. */
  ghost predicate LinkOk(d: seq<byte>, free: map<nat, nat>, at: nat) {
    at + 2 <= |d| && IsNext(free, at, Get2(d, at))
  }

  ghost predicate SizeFieldOk(d: seq<byte>, free: map<nat, nat>, s: nat) {
    s in free && s + 4 <= |d| && Get2(d, s + 2) == free[s]
  }

  ghost predicate ChainOk(g: Geo, d: seq<byte>, free: map<nat, nat>)
    requires g.Ok() && g.u <= |d|
  {
    && LinkOk(d, free, g.hdr + 1)
    && (forall s {:trigger LinkOk(d, free, s)} | s in free :: LinkOk(d, free, s))
    && (forall s {:trigger SizeFieldOk(d, free, s)} | s in free :: SizeFieldOk(d, free, s))
  }

  ghost predicate PtrsOk(g: Geo, d: seq<byte>, n: nat, used: map<nat, nat>)
    requires g.Ok() && g.CellOffset() + 2 * n <= |d|
  {
    && (forall i | 0 <= i < n :: Ptr(g, d, i) in used)
    && (forall i, j | 0 <= i < j < n :: Ptr(g, d, i) != Ptr(g, d, j))
    && (forall s | s in used :: exists i :: 0 <= i < n && Ptr(g, d, i) == s)
  }

  ghost predicate SizeOk(g: Geo, d: seq<byte>, used: map<nat, nat>, s: nat)
  {
    s in used && s + used[s] <= g.u <= |d| && g.sizeOf(d[s..g.u]) == used[s]
  }

  /** Header, freeblock list and byte counts agree with the layout L. */
  ghost predicate Core(g: Geo, d: seq<byte>, n: nat, nFree: int, L: Layout) {
    && g.Ok() && g.u <= |d|
    && Sound(g.u, L)
    && HeaderOk(g, d, n, L)
    && ChainOk(g, d, L.free)
    && Counts(g.u, L, d[g.hdr + 7], nFree)
    && d[g.hdr + 7] <= 60
  }

  ghost predicate SizesOk(g: Geo, d: seq<byte>, used: map<nat, nat>) {
    forall s | s in used :: SizeOk(g, d, used, s)
  }

  /** The bytes d of a page with n cells and nFree spare bytes are laid out as L. */
  ghost predicate Rep(g: Geo, d: seq<byte>, n: nat, nFree: int, L: Layout) {
    && Core(g, d, n, nFree, L)
    && PtrsOk(g, d, n, L.used)
    && SizesOk(g, d, L.used)
  }

  /** d2 differs from d only in the free-space fields of the header and in bytes that no cell of L uses. */
  ghost predicate Kept(g: Geo, d: seq<byte>, d2: seq<byte>, L: Layout) {
    && |d2| == |d|
    && forall b | 0 <= b < |d| && Fixed(g, L, b) :: d2[b] == d[b]
  }

  ghost predicate Fixed(g: Geo, L: Layout, b: int) {
    || (b < L.gap && !(g.hdr + 1 <= b <= g.hdr + 2) && !(g.hdr + 5 <= b <= g.hdr + 7))
    || g.u <= b
    || Covered(b, L.used)
  }

  lemma KeptPtrs(g: Geo, d: seq<byte>, d2: seq<byte>, L: Layout, n: nat, used: map<nat, nat>)
    requires g.Ok() && g.u <= |d| && L.gap == g.CellOffset() + 2 * n <= g.u
    requires Kept(g, d, d2, L) && PtrsOk(g, d, n, used)
    ensures PtrsOk(g, d2, n, used)
    ensures forall i | 0 <= i < n :: Ptr(g, d2, i) == Ptr(g, d, i)
  {
    forall i | 0 <= i < n ensures Ptr(g, d2, i) == Ptr(g, d, i) {
      assert Fixed(g, L, g.CellOffset() + 2 * i) && Fixed(g, L, g.CellOffset() + 2 * i + 1);
    }
  }

  lemma KeptCell(g: Geo, d: seq<byte>, d2: seq<byte>, L: Layout, s: nat)
    requires Kept(g, d, d2, L) && s in L.used && s + L.used[s] <= |d|
    ensures d2[s..s + L.used[s]] == d[s..s + L.used[s]]
  {
    forall b | s <= b < s + L.used[s] ensures d2[b] == d[b] {
      assert Has(s, L.used[s], b);
      assert Fixed(g, L, b);
    }
  }

  lemma SameCellSize(g: Geo, d: seq<byte>, d2: seq<byte>, s: nat, n: nat)
    requires SizeIsLocal(g.sizeOf) && 4 <= n && s + n <= g.u <= |d| && g.u <= |d2|
    requires d2[s..s + n] == d[s..s + n] && g.sizeOf(d[s..g.u]) == n
    ensures g.sizeOf(d2[s..g.u]) == n
  {
    var a, b := d[s..g.u], d2[s..g.u];
    assert a[..n] == d[s..s + n];
    assert b[..n] == d2[s..s + n];
    assert Agree(a, b, g.sizeOf(a));
  }

  lemma KeptSizes(g: Geo, d: seq<byte>, d2: seq<byte>, L: Layout)
    requires SizeIsLocal(g.sizeOf) && g.u <= |d|
    requires forall s | s in L.used :: 4 <= L.used[s]
    requires Kept(g, d, d2, L) && SizesOk(g, d, L.used)
    ensures SizesOk(g, d2, L.used)
  {
    forall s | s in L.used ensures SizeOk(g, d2, L.used, s) {
      assert SizeOk(g, d, L.used, s);
      KeptCell(g, d, d2, L, s);
      SameCellSize(g, d, d2, s, L.used[s]);
    }
  }
}
