/** Runs of page operations, and what a well-formed page says about each of its bytes. */
module PageRuns {
  import opened Results
  import opened Bytes
  import opened Layout
  import opened Page
  import opened Packing
  import opened PageDefrag
  import opened PageCells
  import opened MemPages

  datatype Op = Insert(i: nat, c: seq<byte>) | Drop(k: nat) | Defragment

  /** A page seen from outside: its cells, and how many more bytes it can take. */
  datatype Contents = Contents(cells: seq<seq<byte>>, room: int)

  /** Bytes taken by the cells and their pointers. */
  function Total(cs: seq<seq<byte>>): nat {
    if cs == [] then 0 else |cs[0]| + 2 + Total(cs[1..])
  }

  predicate Legal(g: Geo, p: Contents, op: Op) {
    match op
    case Insert(i, c) => i <= |p.cells| && 4 <= |c| && g.sizeOf(c) == |c| && |c| + 2 <= p.room
    case Drop(k) => k < |p.cells|
    case Defragment => true
  }

  function Next(g: Geo, p: Contents, op: Op): Contents
    requires Legal(g, p, op)
  {
    match op
    case Insert(i, c) => Contents(With(p.cells, i, c), p.room - |c| - 2)
    case Drop(k) => Contents(Without(p.cells, k), p.room + |p.cells[k]| + 2)
    case Defragment => p
  }

  predicate AllLegal(g: Geo, p: Contents, ops: seq<Op>)
    decreases |ops|
  {
    ops == [] || (Legal(g, p, ops[0]) && AllLegal(g, Next(g, p, ops[0]), ops[1..]))
  }

  function After(g: Geo, p: Contents, ops: seq<Op>): Contents
    requires AllLegal(g, p, ops)
    decreases |ops|
  {
    if ops == [] then p else After(g, Next(g, p, ops[0]), ops[1..])
  }

  /** Any run of insertions, deletions and defragmentations does to the page what it does to the sequence of cells. */
  method Run(page: MemPage, ops: seq<Op>) returns (rc: Rc)
    requires page.Valid() && page.ovfl == []
    requires AllLegal(page.g, Contents(page.cells, page.nFree), ops)
    modifies page, page.data
    ensures rc == OK && page.Valid() && page.ovfl == []
    ensures Contents(page.cells, page.nFree) == old(After(page.g, Contents(page.cells, page.nFree), ops))
  {
    rc := OK;
    ghost var p0 := Contents(page.cells, page.nFree);
    hide Rep, Cells, SizeIsLocal, With, Without;
    for n := 0 to |ops|
      invariant rc == OK && page.Valid() && page.ovfl == []
      invariant AllLegal(page.g, Contents(page.cells, page.nFree), ops[n..])
      invariant After(page.g, Contents(page.cells, page.nFree), ops[n..]) == After(page.g, p0, ops)
    {
      assert ops[n..][1..] == ops[n + 1..];
      rc := Step(page, ops[n]);
    }
  }

  method Step(page: MemPage, op: Op) returns (rc: Rc)
    requires page.Valid() && page.ovfl == [] && Legal(page.g, Contents(page.cells, page.nFree), op)
    modifies page, page.data
    ensures rc == OK && page.Valid() && page.ovfl == []
    ensures Contents(page.cells, page.nFree) == old(Next(page.g, Contents(page.cells, page.nFree), op))
  {
    hide Rep, SizeIsLocal, With, Without;
    match op
    case Insert(i, c) =>
      rc := page.InsertCell(i, c, 0, OK);
    case Drop(k) =>
      assert |page.ps| == |page.cells| by { hide HoldsCell, Names; }
      var sz := page.CellSize(k);
      rc := page.DropCell(k, sz, OK);
    case Defragment =>
      rc := page.DefragmentPage();
  }

  // ---- every byte is accounted for ----

  lemma {:induction false} TotalIsSum(cs: seq<seq<byte>>, sz: seq<nat>, k: nat)
    requires k <= |cs| == |sz| && forall i | 0 <= i < |cs| :: sz[i] == |cs[i]|
    ensures Total(cs[..k]) == Sum(sz, k) + 2 * k
  {
    if k > 0 {
      TotalIsSum(cs, sz, k - 1);
      TotalSnoc(cs[..k - 1], cs[k - 1]);
      assert cs[..k] == cs[..k - 1] + [cs[k - 1]];
    }
  }

  lemma {:induction false} TotalSnoc(cs: seq<seq<byte>>, c: seq<byte>)
    ensures Total(cs + [c]) == Total(cs) + |c| + 2
  {
    if cs != [] {
      TotalSnoc(cs[1..], c);
      assert (cs + [c])[1..] == cs[1..] + [c];
    } else {
      assert [c][1..] == [];
    }
  }

  /** nFree is exact: it is what the cells and their pointers leave of the page. */
  lemma SpareExact(g: Geo, d: seq<byte>, n: nat, nFree: int, L: Layout, ps: seq<nat>, cs: seq<seq<byte>>)
    requires Rep(g, d, n, nFree, L) && SizeIsLocal(g.sizeOf)
    requires |ps| == n && g.CellOffset() + 2 * n <= |d| && Cells(g, d, L.used, ps, cs)
    ensures nFree == g.u - g.CellOffset() - Total(cs)
  {
    hide Rep, SizeIsLocal, Sum, Total, Job;
    DefragJob(g, d, n, nFree, L, ps, cs);
    var sz := SizesOf(L.used, ps);
    assert |cs| == n && forall k | 0 <= k < n :: sz[k] == |cs[k]|;
    TotalIsSum(cs, sz, n);
    assert cs[..n] == cs;
  }

  /** Each content byte is in exactly one of: a single cell, a single freeblock, the at most 60 fragment bytes. */
  lemma EveryByte(g: Geo, d: seq<byte>, n: nat, nFree: int, L: Layout, b: int)
    requires Rep(g, d, n, nFree, L) && L.top <= b < g.u
    ensures b in FragSet(g.u, L) <==> !Covered(b, L.used) && !Covered(b, L.free)
    ensures !(Covered(b, L.used) && Covered(b, L.free))
    ensures forall s, t | s in L.used && t in L.used && Has(s, L.used[s], b) && Has(t, L.used[t], b) :: s == t
    ensures forall s, t | s in L.free && t in L.free && Has(s, L.free[s], b) && Has(t, L.free[t], b) :: s == t
    ensures |FragSet(g.u, L)| == d[g.hdr + 7] <= 60
  {
    hide ChainOk, PtrsOk, SizesOk, HeaderOk;
  }
}
