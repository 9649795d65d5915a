/** The free-byte count btreeInitPage computes from the header and the freeblock list. */
module PageInit {
  import opened Results
  import opened Bytes
  import opened Layout
  import opened Page
  import opened PageAlloc
  import opened PageCells
  import opened MemPages

  /** The freeblocks from address pc on. */
  ghost function From(free: map<nat, nat>, pc: nat): map<nat, nat> {
    map s | s in free && pc <= s :: free[s]
  }

  lemma FromStep(free: map<nat, nat>, pc: nat, next: nat)
    requires pc in free && (next == 0 || pc < next)
    requires forall s | s in free && pc < s :: next != 0 && next <= s
    requires next != 0 ==> next in free
    ensures From(free, pc) - {pc} == if next == 0 then map[] else From(free, next)
  {
  }

  /** With the freeblocks counted as fragments, the spare bytes are the gap and the fragments. */
  lemma NoFreeblocks(u: nat, L: Layout, frag: int, spare: int)
    requires Sound(u, L) && L.free == map[] && Counts(u, L, frag, spare)
    ensures spare == frag + (L.top - L.gap)
  {
    MoveGap(u, L, L.top, frag, spare);
    assert SpareSet(u, L.(gap := L.top)) == FragSet(u, L);
  }

  /** One freeblock moved into the running sum. */
  lemma SumStep(u: nat, L: Layout, pc: nat, next: nat, frag: int, spare: int)
    requires pc in L.free && (next == 0 || (next in L.free && pc < next))
    requires forall s | s in L.free && pc < s :: next != 0 && next <= s
    requires Sound(u, L.(free := From(L.free, pc))) && Counts(u, L.(free := From(L.free, pc)), frag, spare)
    ensures var R := L.(free := if next == 0 then map[] else From(L.free, next));
            Sound(u, R) && Counts(u, R, frag + L.free[pc], spare)
  {
    hide Sound, Counts;
    FromStep(L.free, pc, next);
    DropFree(u, L.(free := From(L.free, pc)), pc, frag, spare);
  }

  ghost predicate Summed(u: nat, L: Layout, pc: nat, frag: int, spare: int) {
    var R := L.(free := if pc == 0 then map[] else From(L.free, pc));
    Sound(u, R) && Counts(u, R, frag, spare)
  }

  lemma SumStart(g: Geo, d: seq<byte>, n: nat, nFree: int, L: Layout)
    requires Core(g, d, n, nFree, L)
    ensures Summed(g.u, L, Get2(d, g.hdr + 1), d[g.hdr + 7], nFree)
  {
    SlotFirst(g, d, n, nFree, L);
    hide Sound, Counts, ChainOk, HeaderOk;
    if Get2(d, g.hdr + 1) == 0 {
      assert L.free == map[];
    } else {
      assert From(L.free, Get2(d, g.hdr + 1)) == L.free;
    }
    assert L.(free := L.free) == L;
  }

  lemma FreeFits(g: Geo, d: seq<byte>, n: nat, nFree: int, L: Layout, p: nat, pc: nat)
    requires Slot(g, d, n, nFree, L, p, pc)
    ensures pc + 4 <= |d| && Get2(d, pc + 2) == L.free[pc] && pc + L.free[pc] <= g.u && pc in L.free
    ensures L.gap < pc <= g.u - 4
    ensures Get2(d, pc) != 0 ==> pc + L.free[pc] + 3 < Get2(d, pc) && Get2(d, pc) in L.free
  {
    hide Counts, HeaderOk;
    assert LinkOk(d, L.free, pc) && SizeFieldOk(d, L.free, pc);
  }

  /** The last part of btreeInitPage: no corruption found, and nFree comes out exact. */
  method InitFree(page: MemPage) returns (rc: Rc, nFree: int)
    requires page.Valid()
    ensures rc == OK && nFree == page.nFree
  {
    hide Core, Slot, Summed, Counts, PtrsOk, SizesOk, Cells, SizeIsLocal;
    var g, d := page.g, page.data;
    ghost var L, D := page.lay, d[..];
    RepOk(g, D, page.nCell, page.nFree, L);
    SumStart(g, D, page.nCell, page.nFree, L);
    SlotFirst(g, D, page.nCell, page.nFree, L);
    rc, nFree := OK, 0;
    var top := page.Read2(g.hdr + 5);
    if top == 0 { top := 65536; }
    var iCellFirst, iCellLast := g.CellOffset() + 2 * page.nCell, g.u - 4;
    var pc: nat := page.Read2(g.hdr + 1);
    nFree := d[g.hdr + 7] + top;
    ghost var p: nat := g.hdr + 1;
    if pc != 0 { FreeFits(g, D, page.nCell, page.nFree, L, p, pc); }
    while pc > 0
      invariant rc == OK
      invariant pc != 0 ==> Slot(g, D, page.nCell, page.nFree, L, p, pc)
      invariant pc != 0 ==> pc <= g.u
      invariant Summed(g.u, L, pc, nFree - top, page.nFree)
      decreases if pc == 0 then 0 else g.u + 1 - pc
    {
      FreeFits(g, D, page.nCell, page.nFree, L, p, pc);
      SlotStep(g, D, page.nCell, page.nFree, L, p, pc);
      if pc < iCellFirst || pc > iCellLast { rc := CORRUPT; return; }
      var next := page.Read2(pc);
      var size := page.Read2(pc + 2);
      if (next > 0 && next <= pc + size + 3) || pc + size > g.u { rc := CORRUPT; return; }
      SummedStep(g.u, L, pc, next, nFree - top, page.nFree);
      if next != 0 { FreeFits(g, D, page.nCell, page.nFree, L, pc, next); }
      nFree := nFree + size;
      p, pc := pc, next;
    }
    SummedEnd(g.u, L, nFree - top, page.nFree);
    FreeBound(g, D, page.nCell, page.nFree, L);
    if nFree > g.u { rc := CORRUPT; return; }
    nFree := nFree - iCellFirst;
  }

  lemma SummedStep(u: nat, L: Layout, pc: nat, next: nat, frag: int, spare: int)
    requires pc in L.free && pc > 0 && (next == 0 || (next in L.free && pc < next))
    requires forall s | s in L.free && pc < s :: next != 0 && next <= s
    requires Summed(u, L, pc, frag, spare)
    ensures Summed(u, L, next, frag + L.free[pc], spare)
  {
    hide Sound, Counts;
    SumStep(u, L, pc, next, frag, spare);
  }

  lemma SummedEnd(u: nat, L: Layout, frag: int, spare: int)
    requires Summed(u, L, 0, frag, spare)
    ensures spare == frag + (L.top - L.gap)
  {
    NoFreeblocks(u, L.(free := map[]), frag, spare);
  }
}
