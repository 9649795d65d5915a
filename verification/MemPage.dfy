/** One b-tree page in memory. */
module MemPages {
  import opened Results
  import opened Facts
  import opened Bytes
  import opened Layout
  import opened FreeList
  import opened Page
  import opened PageFree
  import opened PageAlloc
  import opened Packing
  import opened PageDefrag
  import opened PageCells

  class MemPage {
    const g: Geo
    const data: array<byte>
    var nCell: nat
    var nFree: int
    var ovflIdx: seq<nat>        // aiOvfl: cell index of each overflow cell
    var ovfl: seq<seq<byte>>     // apOvfl: cells that did not fit
    ghost var lay: Layout
    ghost var ps: seq<nat>
    ghost var cells: seq<seq<byte>>

    ghost predicate Valid()
      reads this, data
    {
      && Rep(g, data[..], nCell, nFree, lay)
      && SizeIsLocal(g.sizeOf)
      && |ps| == nCell && Cells(g, data[..], lay.used, ps, cells)
      && |ovflIdx| == |ovfl|
    }

    method Write2(i: nat, v: nat)
      requires i + 2 <= data.Length
      modifies data
      ensures data[..] == Put2(old(data[..]), i, v)
    {
      data[i] := v / 256 % 256;
      data[i + 1] := v % 256;
    }

    function Read2(i: nat): (r: nat)
      requires i + 2 <= data.Length
      reads data
      ensures r == Get2(data[..], i)
    {
      (data[i] as int) * 256 + data[i + 1]
    }

    // freeSpace, in its three stages.

    /** The freeblock before iStart, or the list head, and the freeblock after it, or zero. */
    method FindNeighbours(iStart: nat) returns (rc: Rc, iPtr: nat, iFreeBlk: nat)
      requires Core(g, data[..], nCell, nFree, lay) && iStart in lay.used
      ensures rc == OK
      ensures CanFree(g, data[..], nCell, nFree, lay, iStart, iPtr, iFreeBlk)
    {
      rc := OK;
      iPtr := g.hdr + 1;
      iFreeBlk := 0;
      if data[iPtr + 1] == 0 && data[iPtr] == 0 {
        assert Get2(data[..], iPtr) == 0;
      } else {
        iFreeBlk := Read2(iPtr);
        while iFreeBlk > 0 && iFreeBlk < iStart
          invariant iPtr == g.hdr + 1 || iPtr in lay.free
          invariant iPtr + 4 <= data.Length && iFreeBlk == Get2(data[..], iPtr)
          invariant iPtr < iStart
          decreases iStart - iPtr
        {
          assert LinkOk(data[..], lay.free, iPtr);
          if iFreeBlk < iPtr + 4 { rc := CORRUPT; return; }
          iPtr := iFreeBlk;
          iFreeBlk := Read2(iPtr);
        }
        assert LinkOk(data[..], lay.free, iPtr);
        if iFreeBlk > g.u - 4 { rc := CORRUPT; return; }
      }
    }

    /** Joins the freed bytes with the neighbours that lie at most 3 bytes away, counting the bytes in between. */
    method Join(iStart0: nat, iSize0: nat, iPtr: nat, iFreeBlk0: nat)
      returns (rc: Rc, iStart: nat, iSize: nat, iEnd: nat, iFreeBlk: nat, nFrag: nat)
      requires CanFree(g, data[..], nCell, nFree, lay, iStart0, iPtr, iFreeBlk0)
      requires FreeingBounds(g, data[..], lay, iStart0, iPtr, iFreeBlk0)
      requires lay.used[iStart0] == iSize0
      ensures rc == OK
      ensures iStart == NewStart(lay, iStart0, iPtr) && iEnd == NewEnd(lay, iStart0, iFreeBlk0)
      ensures iSize == iEnd - iStart && iFreeBlk == After(data[..], lay, iStart0, iFreeBlk0)
      ensures nFrag == Lost(lay, iStart0, iFreeBlk0, iPtr)
    {
      Order(g.u, lay, g.hdr + 1, iPtr, iStart0, iFreeBlk0);
      assert iFreeBlk0 != 0 ==> SizeFieldOk(data[..], lay.free, iFreeBlk0);
      assert iPtr in lay.free ==> SizeFieldOk(data[..], lay.free, iPtr);
      hide IsNext, Freed, Between;
      rc := OK;
      iStart, iSize, iEnd, iFreeBlk, nFrag := iStart0, iSize0, iStart0 + iSize0, iFreeBlk0, 0;
      if iFreeBlk != 0 && iEnd + 3 >= iFreeBlk {
        if iEnd > iFreeBlk { rc := CORRUPT; return; }
        nFrag := iFreeBlk - iEnd;
        iEnd := iFreeBlk + Read2(iFreeBlk + 2);
        if iEnd > g.u { rc := CORRUPT; return; }
        iSize := iEnd - iStart;
        iFreeBlk := Read2(iFreeBlk);
      }
      if iPtr > g.hdr + 1 {
        var iPtrEnd := iPtr + Read2(iPtr + 2);
        if iPtrEnd + 3 >= iStart {
          if iPtrEnd > iStart { rc := CORRUPT; return; }
          nFrag := nFrag + (iStart - iPtrEnd);
          iSize := iEnd - iPtr;
          iStart := iPtr;
        }
      }
    }

    /** Returns the cell at iStart to the free list, joining it with freeblocks at most 3 bytes away. */
    method FreeSpace(iStart0: nat, iOrigSize: nat) returns (rc: Rc)
      requires Core(g, data[..], nCell, nFree, lay)
      requires iStart0 in lay.used && lay.used[iStart0] == iOrigSize
      modifies data, `nFree, `lay
      ensures rc == OK
      ensures Core(g, data[..], nCell, nFree, lay)
      ensures lay.used == old(lay.used) - {iStart0} && lay.gap == old(lay.gap)
      ensures nFree == old(nFree) + iOrigSize
      ensures Kept(g, old(data[..]), data[..], lay)
    {
      hide Core, NewStart, NewEnd, Lost, After, Ready, Kept, Freeing, FreedPage, Put2, CanFree, Rest;
      ghost var d0, L := data[..], lay;
      var iPtr, n0, nFrag;
      rc, iPtr, n0 := FindNeighbours(iStart0);
      if rc != OK { return; }
      FreedCore(g, d0, nCell, nFree, L, iStart0, iPtr, n0);
      FreedWrites(g, d0, nCell, nFree, L, iStart0, iPtr, n0);
      var iStart, iSize, iEnd, iFreeBlk;
      rc, iStart, iSize, iEnd, iFreeBlk, nFrag := Join(iStart0, iOrigSize, iPtr, n0);
      if rc != OK { return; }
      if nFrag > data[g.hdr + 7] { rc := CORRUPT; return; }
      data[g.hdr + 7] := data[g.hdr + 7] - nFrag;
      if iStart == Read2(g.hdr + 5) {
        if iPtr != g.hdr + 1 { rc := CORRUPT; return; }
        Write2(g.hdr + 1, iFreeBlk);
        Write2(g.hdr + 5, iEnd);
      } else {
        Write2(iPtr, iStart);
        Write2(iStart, iFreeBlk);
        Write2(iStart + 2, iSize);
      }
      assert data[..] == FreedPage(g, d0, L, iStart0, iPtr, n0);
      nFree := nFree + iOrigSize;
      lay := Freed(L, iStart0, n0, iPtr);
    }

    /** First freeblock that holds nByte bytes, taken off the list or cut down at its end. */
    method PageFindSlot(nByte: nat) returns (rc: Rc, found: bool, at: nat)
      requires Core(g, data[..], nCell, nFree, lay) && 4 <= nByte
      requires Get2(data[..], g.hdr + 1) > 0
      modifies data, `lay
      ensures rc == OK
      ensures found ==> Core(g, data[..], nCell, nFree - nByte, lay)
      ensures found ==> at !in old(lay.used) && lay.used == old(lay.used)[at := nByte]
      ensures found ==> lay.gap == old(lay.gap) && lay.top == old(lay.top)
      ensures Kept(g, old(data[..]), data[..], old(lay))
      ensures !found ==> lay == old(lay) && data[..] == old(data[..])
      ensures !found ==> data[g.hdr + 7] > 57 || forall s | s in lay.free :: lay.free[s] < nByte
    {
      hide Core, Slot, SlotBounds, IsNext, Kept;
      rc, found, at := OK, false, 0;
      ghost var d, L := data[..], lay;
      CoreSize(g, d, nCell, nFree, L);
      var iAddr: nat := g.hdr + 1;
      var pc: nat := Read2(iAddr);
      SlotFirst(g, d, nCell, nFree, L);
      KeptSelf(g, d, L);
      while true
        invariant data[..] == d && lay == L && rc == OK && !found
        invariant Slot(g, d, nCell, nFree, L, iAddr, pc)
        invariant iAddr + 2 <= |d| && Get2(d, iAddr) == pc
        invariant forall s | s in L.free && s < pc :: L.free[s] < nByte
        decreases |d| - pc
      {
        SlotSize(g, d, nCell, nFree, L, iAddr, pc);
        SlotStep(g, d, nCell, nFree, L, iAddr, pc);
        if pc > g.u - 4 || pc < iAddr + 4 { rc := CORRUPT; return; }
        var size := Read2(pc + 2);
        if size >= nByte {
          if pc < g.CellOffset() + 2 * nCell || size + pc > g.u { rc := CORRUPT; return; }
          found := Claim(iAddr, pc, size - nByte, nByte);
          at := pc + (size - nByte);
          return;
        }
        iAddr := pc;
        pc := Read2(pc);
        if pc == 0 { return; }
      }
    }

    /** Takes the last nByte bytes of the freeblock at pc, which has x bytes more. */
    method Claim(iAddr: nat, pc: nat, x: nat, nByte: nat) returns (ok: bool)
      requires Slot(g, data[..], nCell, nFree, lay, iAddr, pc) && SlotBounds(g, data[..], lay, iAddr, pc)
      requires 4 <= nByte && x + nByte == lay.free[pc]
      modifies data, `lay
      ensures ok == !(x < 4 && old(data[g.hdr + 7]) > 57)
      ensures !ok ==> lay == old(lay) && data[..] == old(data[..])
      ensures ok ==> Core(g, data[..], nCell, nFree - nByte, lay)
      ensures ok ==> pc + x !in old(lay.used) && lay.used == old(lay.used)[pc + x := nByte]
      ensures ok ==> lay.gap == old(lay.gap) && lay.top == old(lay.top)
      ensures Kept(g, old(data[..]), data[..], old(lay))
    {
      hide Core, Slot, IsNext, Kept, Put2;
      ok := true;
      ghost var d := data[..];
      KeptSelf(g, d, lay);
      if x < 4 {
        if data[g.hdr + 7] > 57 { return false; }
        TakenCore(g, d, nCell, nFree, lay, iAddr, pc, nByte);
        TakenByte(g, d, iAddr, pc, x);
        Write2(iAddr, Read2(pc));
        data[g.hdr + 7] := data[g.hdr + 7] + x;
        lay := Taken(lay, pc, nByte);
      } else {
        ShrunkCore(g, d, nCell, nFree, lay, iAddr, pc, nByte);
        Write2(pc + 2, x);
        lay := Shrunk(lay, pc, nByte);
      }
    }

    // ---- defragmentPage ----

    static method MemCpy(dst: array<byte>, to: nat, src: array<byte>, from: nat, n: nat)
      requires dst != src && to + n <= dst.Length && from + n <= src.Length
      modifies dst
      ensures dst[..] == Splice(old(dst[..]), to, old(src[from..from + n]))
    {
      forall b | 0 <= b < n { dst[to + b] := src[from + b]; }
    }

    /** Copies the content area up to e, which holds every cell still to come. */
    method CopyOut(ghost d0: seq<byte>, ghost ps: seq<nat>, ghost sz: seq<nat>, ghost i: nat, temp: array<byte>, e: nat)
      requires Job(g, d0, lay.top, ps, sz) && i < |ps| && Still(g, ps, sz, i) && e == g.u - Sum(sz, i)
      requires temp != data && temp.Length == data.Length == |d0| && Get2(d0, g.hdr + 5) == TopField(lay.top)
      requires forall b | 0 <= b < |d0| && (b < g.CellOffset() || lay.top <= b) :: data[b] == d0[b]
      modifies temp
      ensures Holds(d0, temp[..], ps, sz, i)
    {
      hide SizeIsLocal, Sum, Splice, Holds;
      assert lay.top <= ps[i] && ps[i] + 4 <= e <= g.u;
      var x := Read2(g.hdr + 5);
      SameGet2(data[..], d0, g.hdr + 5);
      SpliceAt(temp[..], x, data[x..e]);
      MemCpy(temp, x, data, x, e - x);
      HoldsCopy(g, d0, data[..], temp[..], lay.top, ps, sz, i);
    }

    /** Where cell i is and how big it is, read from the page or from the copy. */
    method NextCell(ghost d0: seq<byte>, ghost ps: seq<nat>, ghost sz: seq<nat>, i: nat, temp: array?<byte>, cbrk: nat)
      returns (rc: Rc, pc: nat, size: nat)
      requires Job(g, d0, lay.top, ps, sz) && nCell == |ps| == |sz| && i < |ps| && cbrk == g.u - Sum(sz, i) && g.u <= data.Length == |d0|
      requires Moved(g, d0, data[..], ps, sz, i)
      requires if temp == null then data[..] == d0 else temp.Length == data.Length && Holds(d0, temp[..], ps, sz, i)
      ensures rc == OK && pc == ps[i] && 4 <= size == sz[i] && pc + size <= g.u && g.CellOffset() + 2 * nCell + size <= cbrk
    {
      hide SizeIsLocal, Sum, Moved, CellIs, Splice, Put2, At, Holds, Job, Get2;
      var iCellFirst := g.CellOffset() + 2 * nCell;
      rc, pc, size := OK, 0, 0;
      JobSize(g, d0, lay.top, ps, sz);
      JobAt(g, d0, lay.top, ps, sz, i);
      MovedPtr(g, d0, data[..], ps, sz, i);
      pc := Read2(g.CellOffset() + 2 * i);
      if pc < iCellFirst || pc > g.u - 4 { rc := CORRUPT; return; }
      var src := if temp == null then data else temp;
      SourceSize(g, d0, src[..], lay.top, ps, sz, i);
      size := g.sizeOf(src[pc..g.u]);
      Room(g, iCellFirst, sz, i);
      if cbrk < size || cbrk - size < iCellFirst || pc + size > g.u { rc := CORRUPT; return; }
    }

    /** Packs the cells against the end of the page. The cells are copied away only when the first one has to move. */
    method PackCells(ghost d0: seq<byte>, ghost ps: seq<nat>, ghost sz: seq<nat>) returns (rc: Rc, cbrk: nat)
      requires d0 == data[..] && Job(g, d0, lay.top, ps, sz) && nCell == |ps|
      requires Get2(d0, g.hdr + 5) == TopField(lay.top)
      modifies data
      ensures rc == OK && cbrk == g.u - Sum(sz, |sz|)
      ensures Moved(g, d0, data[..], ps, sz, |ps|)
    {
      hide SizeIsLocal, Sum, Moved, CellIs, Splice, Put2, At, Holds, Still, Job, Get2;
      rc, cbrk := OK, g.u;
      var temp: array?<byte> := null;
      JobSize(g, d0, lay.top, ps, sz);
      MovedStart(g, d0, lay.top, ps, sz);
      var i := 0;
      while i < nCell
        invariant 0 <= i <= nCell == |ps| && rc == OK && cbrk == g.u - Sum(sz, i)
        invariant Moved(g, d0, data[..], ps, sz, i)
        invariant temp == null ==> data[..] == d0 && Still(g, ps, sz, i)
        invariant temp != null ==> fresh(temp) && temp.Length == data.Length && Holds(d0, temp[..], ps, sz, i)
      {
        var pAddr := g.CellOffset() + 2 * i;
        var pc, size;
        rc, pc, size := NextCell(d0, ps, sz, i, temp, cbrk);
        cbrk := cbrk - size;
        StepSum(g, sz, i);
        MoveOne(g, d0, data[..], ps, sz, i, d0[ps[i]..ps[i] + sz[i]]);
        if temp == null && cbrk == pc {
          MoveNone(g, d0, ps, sz, i);
          StillStep(g, d0, lay.top, ps, sz, i);
          Write2(pAddr, cbrk);
        } else {
          if temp == null {
            temp := new byte[data.Length];
            PutBytes(d0, pAddr, cbrk);
            Write2(pAddr, cbrk);
            CopyOut(d0, ps, sz, i, temp, cbrk + size);
          } else {
            Write2(pAddr, cbrk);
          }
          SourceSize(g, d0, temp[..], lay.top, ps, sz, i);
          MemCpy(data, cbrk, temp, pc, size);
          HoldsNext(d0, temp[..], ps, sz, i);
        }
        i := i + 1;
      }
    }

    /** Writes the content offset, empties the freeblock list and the fragment count, and zeroes the gap. */
    method ClearFree(cbrk: nat)
      requires g.Ok() && g.CellOffset() + 2 * nCell <= cbrk <= g.u <= data.Length
      modifies data
      ensures Get2(data[..], g.hdr + 5) == TopField(cbrk)
      ensures data[g.hdr + 1] == 0 && data[g.hdr + 2] == 0 && data[g.hdr + 7] == 0
      ensures forall b | 0 <= b < data.Length && (b <= g.hdr || g.hdr + 3 <= b < g.hdr + 5
                || g.hdr + 8 <= b < g.CellOffset() + 2 * nCell || cbrk <= b) :: data[b] == old(data[b])
    {
      data[g.hdr + 5], data[g.hdr + 6] := cbrk / 256 % 256, cbrk % 256;
      data[g.hdr + 1] := 0;
      data[g.hdr + 2] := 0;
      data[g.hdr + 7] := 0;
      forall b | g.CellOffset() + 2 * nCell <= b < cbrk { data[b] := 0; }
    }

    /** Moves all the free space of the page into the gap. */
    method DefragmentPage() returns (rc: Rc)
      requires Valid() && ovfl == []
      modifies data, `lay, `ps
      ensures rc == OK && Valid()
      ensures lay.gap == old(lay.gap) && lay.free == map[] && data[g.hdr + 7] == 0
      ensures lay.top - lay.gap == nFree
      ensures forall b | 0 <= b < data.Length && (b == g.hdr || g.hdr + 8 <= b < g.CellOffset() || g.u <= b) ::
                data[b] == old(data[b])
    {
      hide SizeIsLocal, Core, PtrsOk, SizesOk, Sum, Cells, Job, Moved, Lists, Pack, HoldsCell, Packed;
      ghost var d0, p0 := data[..], ps;
      RepOk(g, d0, nCell, nFree, lay);
      DefragJob(g, d0, nCell, nFree, lay, p0, cells);
      ghost var sz := SizesOf(lay.used, p0);
      JobSize(g, d0, lay.top, p0, sz);
      var cbrk;
      rc, cbrk := PackCells(d0, p0, sz);
      if rc != OK { return; }
      ghost var d1 := data[..];
      ClearFree(cbrk);
      PackedBytes(g, d0, d1, data[..], p0, sz);
      DefragDone(g, d0, data[..], lay, p0, sz, nFree, cells);
      lay := PackedLayout(g, sz);
      ps := Offsets(g, data[..], nCell);
      if cbrk - (g.CellOffset() + 2 * nCell) != nFree { rc := CORRUPT; }
    }

    // ---- allocateSpace ----

    /** The page with one more block, at idx, that no cell pointer names yet. */
    ghost predicate Allocated(idx: nat, nByte: nat)
      reads this, data
    {
      && Core(g, data[..], nCell, nFree - nByte, lay)
      && SizeIsLocal(g.sizeOf)
      && idx in lay.used && lay.used[idx] == nByte
      && SizesOk(g, data[..], lay.used - {idx})
      && |ps| == nCell && Cells(g, data[..], lay.used - {idx}, ps, cells)
    }

    /** Takes nByte bytes off the end of the gap. */
    method FromGap(top: nat, nByte: nat) returns (idx: nat)
      requires Valid() && 4 <= nByte && lay.gap + nByte <= lay.top == top
      modifies data, `lay
      ensures Allocated(idx, nByte)
      ensures lay.gap == old(lay.gap) && lay.top == top - nByte
      ensures forall b | 0 <= b < data.Length && (b == g.hdr || g.hdr + 8 <= b < g.CellOffset() || g.u <= b) ::
                data[b] == old(data[b])
    {
      hide SizeIsLocal, Core, PtrsOk, SizesOk, Cells, HoldsCell, Kept, Put2;
      ghost var d0, L0 := data[..], lay;
      RepOk(g, d0, nCell, nFree, lay);
      BumpedCore(g, d0, nCell, nFree, lay, nByte);
      idx := top - nByte;
      Write2(g.hdr + 5, idx);
      lay := Bumped(lay, nByte);
      SlotAllocated(g, d0, data[..], nCell, nFree, L0, lay, ps, cells, idx, nByte);
    }

    /** Takes nByte bytes from the freeblock list, if it has room for them. */
    method FromFreeList(nByte: nat) returns (rc: Rc, found: bool, idx: nat)
      requires Valid() && 4 <= nByte && Get2(data[..], g.hdr + 1) > 0
      modifies data, `lay
      ensures rc == OK
      ensures found ==> Allocated(idx, nByte) && lay.gap == old(lay.gap) && lay.top == old(lay.top)
      ensures !found ==> Valid() && lay == old(lay) && data[..] == old(data[..])
      ensures forall b | 0 <= b < data.Length && (b == g.hdr || g.hdr + 8 <= b < g.CellOffset() || g.u <= b) ::
                data[b] == old(data[b])
    {
      hide SizeIsLocal, Core, PtrsOk, SizesOk, Cells, HoldsCell, Kept, Put2;
      ghost var d0, L0 := data[..], lay;
      RepOk(g, d0, nCell, nFree, lay);
      rc, found, idx := PageFindSlot(nByte);
      if found {
        SlotAllocated(g, d0, data[..], nCell, nFree, L0, lay, ps, cells, idx, nByte);
      } else {
        assert data[..] == d0;
      }
    }

    /** Finds nByte bytes on the page: on the freeblock list, in the gap, or in the gap once the page is defragmented. */
    method AllocateSpace(nByte: nat) returns (rc: Rc, idx: nat)
      requires Valid() && ovfl == []
      requires 4 <= nByte <= nFree && nByte + 8 < g.u
      modifies data, `lay, `ps
      ensures rc == OK
      ensures Allocated(idx, nByte)
      ensures nByte + 2 <= nFree ==> lay.gap + 2 <= lay.top
      ensures forall b | 0 <= b < data.Length && (b == g.hdr || g.hdr + 8 <= b < g.CellOffset() || g.u <= b) ::
                data[b] == old(data[b])
    {
      hide SizeIsLocal, Core, PtrsOk, SizesOk, Cells, HoldsCell;
      rc, idx := OK, 0;
      RepOk(g, data[..], nCell, nFree, lay);
      var gap := g.CellOffset() + 2 * nCell;
      var top := Read2(g.hdr + 5);
      if gap > top {
        if top == 0 && g.u == 65536 { top := 65536; } else { rc := CORRUPT; return; }
      }
      if (data[g.hdr + 2] != 0 || data[g.hdr + 1] != 0) && gap + 2 <= top {
        var found;
        rc, found, idx := FromFreeList(nByte);
        if found || rc != OK { return; }
      }
      if gap + 2 + nByte > top {
        rc := DefragmentPage();
        if rc != OK { return; }
        RepOk(g, data[..], nCell, nFree, lay);
        top := Read2(g.hdr + 5);
        if top == 0 { top := 65536; }
      }
      idx := FromGap(top, nByte);
    }

    // ---- insertCell ----

    /** Makes room in the pointer array for entry i and stores idx there. */
    method ShiftIn(i: nat, idx: nat, ghost p: seq<nat>)
      requires g.Ok() && i <= nCell == |p| && g.CellOffset() + 2 * nCell + 2 <= data.Length && idx < 65536
      requires forall k | 0 <= k < nCell :: Ptr(g, data[..], k) == p[k]
      modifies data
      ensures forall b | 0 <= b < data.Length && !(g.CellOffset() <= b < g.CellOffset() + 2 * nCell + 2) :: data[b] == old(data[b])
      ensures forall k | 0 <= k <= nCell :: Ptr(g, data[..], k) == With(p, i, idx)[k]
    {
      ghost var d := data[..];
      var pIns := g.CellOffset() + 2 * i;
      forall b | pIns <= b < pIns + 2 * (nCell - i) { data[b + 2] := data[b]; }
      data[pIns], data[pIns + 1] := idx / 256 % 256, idx % 256;
      forall k | 0 <= k <= nCell ensures Ptr(g, data[..], k) == With(p, i, idx)[k] {
        ShiftedIn(g, d, data[..], p, i, idx, k);
      }
    }

    /** The pointer array and the cell count with one more cell. */
    method InsertPointer(i: nat, idx: nat, ghost p: seq<nat>)
      requires g.Ok() && i <= nCell == |p| && g.CellOffset() + 2 * nCell + 2 <= g.u <= data.Length && idx < 65536
      requires Get2(data[..], g.hdr + 3) == nCell
      requires forall k | 0 <= k < nCell :: Ptr(g, data[..], k) == p[k]
      modifies data
      ensures Get2(data[..], g.hdr + 3) == nCell + 1
      ensures forall b | 0 <= b < data.Length && (b < g.hdr + 3 || g.hdr + 5 <= b < g.CellOffset()
                || g.CellOffset() + 2 * nCell + 2 <= b) :: data[b] == old(data[b])
      ensures forall k | 0 <= k <= nCell :: Ptr(g, data[..], k) == With(p, i, idx)[k]
    {
      hide Get2, With;
      ShiftIn(i, idx, p);
      ghost var d := data[..];
      SameGet2(d, old(data[..]), g.hdr + 3);
      CountCell();
      forall k | 0 <= k <= nCell ensures Ptr(g, data[..], k) == With(p, i, idx)[k] {
        SameGet2(data[..], d, g.CellOffset() + 2 * k);
      }
    }

    /** The two-byte cell count in the header goes up by one. */
    method CountCell()
      requires g.hdr + 5 <= data.Length && Get2(data[..], g.hdr + 3) < 65535
      modifies data
      ensures Get2(data[..], g.hdr + 3) == old(Get2(data[..], g.hdr + 3)) + 1
      ensures forall b | 0 <= b < data.Length && b != g.hdr + 3 && b != g.hdr + 4 :: data[b] == old(data[b])
    {
      if data[g.hdr + 4] == 255 {
        data[g.hdr + 4] := 0;
        data[g.hdr + 3] := data[g.hdr + 3] + 1;
      } else {
        data[g.hdr + 4] := data[g.hdr + 4] + 1;
      }
    }

    /** The branch of insertCell that places a cell on the page. */
    method InsertHere(i: nat, pCell: seq<byte>, iChild: nat) returns (rc: Rc)
      requires Valid() && ovfl == [] && i <= nCell && |pCell| + 2 <= nFree
      requires 4 <= |pCell| && CellSized(g, WithChild(pCell, iChild))
      modifies this, data
      ensures rc == OK && Valid()
      ensures cells == With(old(cells), i, WithChild(pCell, iChild)) && nFree == old(nFree) - |pCell| - 2
      ensures ovfl == [] && ovflIdx == old(ovflIdx)
      ensures forall b | 0 <= b < data.Length && (b == g.hdr || g.hdr + 8 <= b < g.CellOffset() || g.u <= b) ::
                data[b] == old(data[b])
    {
      hide SizeIsLocal, Core, PtrsOk, SizesOk, Cells, WithChild, With, Get2, CellSized;
      RepOk(g, data[..], nCell, nFree, lay);
      FreeBound(g, data[..], nCell, nFree, lay);
      var idx;
      rc, idx := AllocateSpace(|pCell|);
      if rc != OK { return; }
      FillCell(i, idx, pCell, iChild);
    }

    /** The allocated block gets its content, its pointer and its place in the count. */
    method FillCell(i: nat, idx: nat, pCell: seq<byte>, iChild: nat)
      requires 4 <= |pCell| && Allocated(idx, |pCell|) && i <= nCell && lay.gap + 2 <= lay.top
      requires CellSized(g, WithChild(pCell, iChild)) && |ovflIdx| == |ovfl|
      modifies data, `nFree, `nCell, `lay, `ps, `cells
      ensures Valid()
      ensures cells == With(old(cells), i, WithChild(pCell, iChild)) && nFree == old(nFree) - |pCell| - 2
      ensures forall b | 0 <= b < data.Length && (b == g.hdr || g.hdr + 8 <= b < g.CellOffset() || g.u <= b) ::
                data[b] == old(data[b])
    {
      hide SizeIsLocal, Core, PtrsOk, SizesOk, Cells, WithChild, With, Get2, CellSized;
      ghost var d, L, p0 := data[..], lay, ps;
      AllocatedOk(g, d, nCell, nFree - |pCell|, L, idx);
      nFree := nFree - (2 + |pCell|);
      WriteCell(idx, pCell, iChild);
      ghost var d1 := data[..];
      PtrsStay(g, d, d1, L.used - {idx}, p0, cells);
      SameGet2(d, d1, g.hdr + 3);
      InsertPointer(i, idx, p0);
      Inserted(g, d, d1, data[..], nCell, nFree + 2 + |pCell|, L, p0, cells, i, idx, WithChild(pCell, iChild));
      lay := lay.(gap := lay.gap + 2);
      ps := With(ps, i, idx);
      cells := With(cells, i, WithChild(pCell, iChild));
      nCell := nCell + 1;
    }

    /** Inserts pCell as cell i, with its child pointer replaced if iChild is not zero; what does not fit overflows. */
    method InsertCell(i: nat, pCell: seq<byte>, iChild: nat, pRC: Rc) returns (rc: Rc)
      requires Valid() && i <= nCell + |ovfl| && iChild < 0x1_0000_0000
      requires 4 <= |pCell| && CellSized(g, WithChild(pCell, iChild))
      requires ovfl != [] ==> i == ovflIdx[|ovfl| - 1] + 1
      modifies this, data
      ensures rc == pRC && Valid()
      ensures pRC != OK ==> data[..] == old(data[..]) && cells == old(cells) && ovfl == old(ovfl) && ovflIdx == old(ovflIdx)
      ensures pRC == OK && old(ovfl) == [] && |pCell| + 2 <= old(nFree) ==>
                cells == With(old(cells), i, WithChild(pCell, iChild)) && nFree == old(nFree) - |pCell| - 2
                && ovfl == [] && ovflIdx == old(ovflIdx)
      ensures pRC == OK && (old(ovfl) != [] || |pCell| + 2 > old(nFree)) ==>
                data[..] == old(data[..]) && cells == old(cells) && nFree == old(nFree)
                && ovfl == old(ovfl) + [WithChild(pCell, iChild)] && ovflIdx == old(ovflIdx) + [i]
      ensures forall b | 0 <= b < data.Length && (b == g.hdr || g.hdr + 8 <= b < g.CellOffset() || g.u <= b) ::
                data[b] == old(data[b])
    {
      hide SizeIsLocal, Core, PtrsOk, SizesOk, Cells, WithChild, With, CellSized;
      rc := pRC;
      if pRC != OK { return; }
      if ovfl != [] || |pCell| + 2 > nFree {
        ovfl := ovfl + [WithChild(pCell, iChild)];
        ovflIdx := ovflIdx + [i];
      } else {
        rc := InsertHere(i, pCell, iChild);
      }
    }

    // ---- dropCell ----

    /** cellSize: the size scan of cell k. */
    method CellSize(k: nat) returns (sz: nat)
      requires Valid() && k < nCell
      ensures k < |cells| && sz == |cells[k]|
    {
      hide SizeIsLocal, Core, PtrsOk, Cells;
      RepOk(g, data[..], nCell, nFree, lay);
      CellAt(g, data[..], nCell, nFree, lay, ps, cells, k);
      assert SizeOk(g, data[..], lay.used, ps[k]);
      sz := g.sizeOf(data[Read2(g.CellOffset() + 2 * k)..g.u]);
    }

    /** Takes entry k out of a pointer array that now has nCell entries. */
    method ShiftOut(k: nat, ghost p: seq<nat>)
      requires g.Ok() && k <= nCell && |p| == nCell + 1 && g.CellOffset() + 2 * nCell + 2 <= data.Length
      requires forall j | 0 <= j <= nCell :: Ptr(g, data[..], j) == p[j]
      modifies data
      ensures forall b | 0 <= b < data.Length && !(g.CellOffset() <= b < g.CellOffset() + 2 * nCell) :: data[b] == old(data[b])
      ensures forall j | 0 <= j < nCell :: Ptr(g, data[..], j) == Without(p, k)[j]
    {
      ghost var d := data[..];
      var ptr := g.CellOffset() + 2 * k;
      forall b | ptr <= b < ptr + 2 * (nCell - k) { data[b] := data[b + 2]; }
      forall j | 0 <= j < nCell ensures Ptr(g, data[..], j) == Without(p, k)[j] {
        if j < k { assert Ptr(g, d, j) == p[j]; } else { assert Ptr(g, d, j + 1) == p[j + 1]; }
      }
    }

    /** The pointer array and the cell count with one cell less. */
    method RemovePointer(k: nat, ghost p: seq<nat>)
      requires g.Ok() && k <= nCell && |p| == nCell + 1 && g.CellOffset() + 2 * nCell + 2 <= g.u <= data.Length
      requires forall j | 0 <= j <= nCell :: Ptr(g, data[..], j) == p[j]
      modifies data
      ensures Get2(data[..], g.hdr + 3) == nCell
      ensures forall b | 0 <= b < data.Length && (b < g.hdr + 3 || g.hdr + 5 <= b < g.CellOffset()
                || g.CellOffset() + 2 * nCell + 2 <= b) :: data[b] == old(data[b])
      ensures forall j | 0 <= j < nCell :: Ptr(g, data[..], j) == Without(p, k)[j]
    {
      hide Get2, Without, Put2;
      ShiftOut(k, p);
      ghost var d := data[..];
      PutBytes(d, g.hdr + 3, nCell);
      Write2(g.hdr + 3, nCell);
      forall j | 0 <= j < nCell ensures Ptr(g, data[..], j) == Without(p, k)[j] {
        SameGet2(data[..], d, g.CellOffset() + 2 * j);
      }
    }

    /** Resets an empty page. */
    method ResetEmpty()
      requires g.Ok() && g.u <= data.Length
      modifies data
      ensures Get2(data[..], g.hdr + 1) == 0 && Get2(data[..], g.hdr + 3) == 0 && data[g.hdr + 7] == 0
      ensures Get2(data[..], g.hdr + 5) == TopField(g.u)
      ensures forall b | 0 <= b < data.Length && (b == g.hdr || g.hdr + 8 <= b) :: data[b] == old(data[b])
    {
      data[g.hdr + 1], data[g.hdr + 2], data[g.hdr + 3], data[g.hdr + 4] := 0, 0, 0, 0;
      data[g.hdr + 7] := 0;
      data[g.hdr + 5], data[g.hdr + 6] := g.u / 256 % 256, g.u % 256;
    }

    /** Removes cell idx, of sz bytes, from the page; a page left without cells is reset. */
    method DropCell(idx: nat, sz: nat, pRC: Rc) returns (rc: Rc)
      requires Valid() && idx < nCell && sz == |cells[idx]|
      modifies data, `nFree, `nCell, `lay, `ps, `cells
      ensures rc == pRC && Valid()
      ensures pRC != OK ==> data[..] == old(data[..]) && cells == old(cells)
      ensures pRC == OK ==> cells == Without(old(cells), idx) && nFree == old(nFree) + sz + 2
      ensures forall b | 0 <= b < data.Length && (b == g.hdr || g.hdr + 8 <= b < g.CellOffset() || g.u <= b) ::
                data[b] == old(data[b])
    {
      hide SizeIsLocal, Core, PtrsOk, SizesOk, Cells, Without, Kept, AgreeOn;
      rc := pRC;
      if pRC != OK { return; }
      ghost var d, L0 := data[..], lay;
      RepOk(g, d, nCell, nFree, lay);
      CellAt(g, d, nCell, nFree, lay, ps, cells, idx);
      var pc := Read2(g.CellOffset() + 2 * idx);
      if pc < Read2(g.hdr + 5) || pc + sz > g.u { rc := CORRUPT; return; }
      rc := FreeSpace(pc, sz);
      if rc != OK { return; }
      KeptEdges(g, d, data[..], lay);
      if nCell == 1 { DropLast(d, L0); } else { DropOne(idx, d, L0); }
    }

    /** freeSpace has run; the count and the pointer array are still those of the page d, laid out as L0. */
    ghost predicate Dropping(idx: nat, d: seq<byte>, L0: Layout)
      reads this, data
    {
      && idx < nCell == |ps| == |cells| && |d| == data.Length && g.CellOffset() + 2 * nCell <= |d|
      && Core(g, data[..], nCell, nFree, lay) && SizeIsLocal(g.sizeOf) && |ovflIdx| == |ovfl|
      && Cells(g, d, L0.used, ps, cells) && SizesOk(g, d, L0.used)
      && lay.used == L0.used - {ps[idx]} && Kept(g, d, data[..], lay)
    }

    method DropLast(ghost d: seq<byte>, ghost L0: Layout)
      requires Dropping(0, d, L0) && nCell == 1
      modifies data, `nFree, `nCell, `lay, `ps, `cells
      ensures Valid() && cells == Without(old(cells), 0) && nFree == old(nFree) + 2
      ensures forall b | 0 <= b < data.Length && (b == g.hdr || g.hdr + 8 <= b) :: data[b] == old(data[b])
    {
      hide SizeIsLocal, Core, PtrsOk, SizesOk, Cells, Without, Kept, AgreeOn;
      RepOk(g, data[..], nCell, nFree, lay);
      LastCell(g, d, data[..], L0, lay, ps, cells, nFree);
      nCell := 0;
      nFree := g.u - g.hdr - g.child - 8;
      lay, ps, cells := Layout(g.CellOffset(), g.u, map[], map[]), [], [];
      ResetEmpty();
      EmptyPage(g, data[..]);
    }

    method DropOne(idx: nat, ghost d: seq<byte>, ghost L0: Layout)
      requires Dropping(idx, d, L0) && nCell > 1
      modifies data, `nFree, `nCell, `lay, `ps, `cells
      ensures Valid() && cells == Without(old(cells), idx) && nFree == old(nFree) + 2
      ensures forall b | 0 <= b < data.Length && (b == g.hdr || g.hdr + 8 <= b < g.CellOffset() || g.u <= b) ::
                data[b] == old(data[b])
    {
      hide SizeIsLocal, Core, PtrsOk, SizesOk, Cells, Without, Kept, AgreeOn;
      ghost var d1, L := data[..], lay;
      RepOk(g, d1, nCell, nFree, L);
      PtrsStillThere(g, d, d1, L, L0.used, ps, cells);
      nCell := nCell - 1;
      nFree := nFree + 2;
      RemovePointer(idx, ps);
      OneLess(g, d, d1, data[..], nCell + 1, nFree - 2, L0, L, ps, cells, idx);
      lay := lay.(gap := lay.gap - 2);
      ps, cells := Without(ps, idx), Without(cells, idx);
    }

    /** The cell content at idx, with its first four bytes replaced if iChild is not zero. */
    method WriteCell(idx: nat, pCell: seq<byte>, iChild: nat)
      requires 4 <= |pCell| && idx + |pCell| <= data.Length
      modifies data
      ensures data[idx..idx + |pCell|] == WithChild(pCell, iChild)
      ensures forall b | 0 <= b < data.Length && !(idx <= b < idx + |pCell|) :: data[b] == old(data[b])
    {
      forall b | 0 <= b < |pCell| { data[idx + b] := pCell[b]; }
      if iChild != 0 {
        data[idx], data[idx + 1] := iChild / 65536 / 256 % 256, iChild / 65536 % 256;
        data[idx + 2], data[idx + 3] := iChild % 65536 / 256 % 256, iChild % 65536 % 256;
      }
    }
  }

  lemma FreeBound(g: Geo, d: seq<byte>, n: nat, nFree: int, L: Layout)
    requires Core(g, d, n, nFree, L)
    ensures nFree + L.gap <= g.u
  {
    hide ChainOk, HeaderOk;
    SpanSize(L.gap, g.u);
    SubsetSize(SpareSet(g.u, L), Span(L.gap, g.u));
  }

  lemma PtrsStay(g: Geo, d: seq<byte>, d1: seq<byte>, used: map<nat, nat>, ps: seq<nat>, cs: seq<seq<byte>>)
    requires g.CellOffset() + 2 * |ps| <= |d| == |d1| && Cells(g, d, used, ps, cs)
    requires forall b | 0 <= b < g.CellOffset() + 2 * |ps| :: d1[b] == d[b]
    ensures |ps| == |cs| && forall k | 0 <= k < |ps| :: Ptr(g, d1, k) == ps[k]
  {
    hide HoldsCell, Names;
    forall k | 0 <= k < |ps| ensures Ptr(g, d1, k) == ps[k] {
      assert Ptr(g, d, k) == ps[k];
    }
  }

  lemma CellAt(g: Geo, d: seq<byte>, n: nat, nFree: int, L: Layout, ps: seq<nat>, cs: seq<seq<byte>>, k: nat)
    requires k < |ps| == n && Core(g, d, n, nFree, L) && g.CellOffset() + 2 * n <= |d| && Cells(g, d, L.used, ps, cs)
    ensures |cs| == n && Get2(d, g.CellOffset() + 2 * k) == ps[k]
    ensures ps[k] in L.used && L.used[ps[k]] == |cs[k]|
    ensures L.top <= ps[k] && Get2(d, g.hdr + 5) <= ps[k] && ps[k] + |cs[k]| <= g.u
  {
    hide ChainOk, Counts, Names;
    assert Ptr(g, d, k) == ps[k] && HoldsCell(g, d, L.used, ps[k], cs[k]);
  }

  lemma PtrsStillThere(g: Geo, d: seq<byte>, d1: seq<byte>, L: Layout, used: map<nat, nat>, ps: seq<nat>, cs: seq<seq<byte>>)
    requires g.Ok() && g.u <= |d| && L.gap == g.CellOffset() + 2 * |ps| <= g.u && Kept(g, d, d1, L) && Cells(g, d, used, ps, cs)
    ensures |d1| == |d| && forall k | 0 <= k < |ps| :: Ptr(g, d1, k) == ps[k]
  {
    hide HoldsCell, Kept, Names;
    KeptSize(g, d, d1, L);
    CellsPtrs(g, d, used, ps, cs);
    KeptPtrs(g, d, d1, L, |ps|, used);
  }

  /** Dropping the only cell leaves every byte after the header spare. */
  lemma LastCell(g: Geo, d: seq<byte>, d1: seq<byte>, L0: Layout, L: Layout, ps: seq<nat>, cs: seq<seq<byte>>, nFree: int)
    requires |ps| == |cs| == 1 && g.CellOffset() + 2 <= |d| && Cells(g, d, L0.used, ps, cs)
    requires L.used == L0.used - {ps[0]} && Core(g, d1, 1, nFree, L)
    ensures nFree + 2 == g.u - g.CellOffset() && Without(cs, 0) == []
  {
    hide HoldsCell;
    NamesNone(L0.used, ps);
    EmptySpare(g, d1, 1, nFree, L);
  }

  lemma ShiftedIn(g: Geo, d: seq<byte>, d2: seq<byte>, p: seq<nat>, i: nat, x: nat, k: nat)
    requires i <= |p| && k <= |p| && g.CellOffset() + 2 * |p| + 2 <= |d| == |d2| && x < 65536
    requires forall j | 0 <= j < |p| :: Ptr(g, d, j) == p[j]
    requires forall b | 0 <= b < g.CellOffset() + 2 * i :: d2[b] == d[b]
    requires d2[g.CellOffset() + 2 * i] == x / 256 % 256 && d2[g.CellOffset() + 2 * i + 1] == x % 256
    requires forall b | g.CellOffset() + 2 * i + 2 <= b < g.CellOffset() + 2 * |p| + 2 :: d2[b] == d[b - 2]
    ensures Ptr(g, d2, k) == With(p, i, x)[k]
  {
    if k < i { assert Ptr(g, d, k) == p[k]; } else if k > i { assert Ptr(g, d, k - 1) == p[k - 1]; }
  }

  lemma OneLess(g: Geo, d: seq<byte>, d1: seq<byte>, d2: seq<byte>, n: nat, nFree: int, L0: Layout, L: Layout,
                ps: seq<nat>, cs: seq<seq<byte>>, k: nat)
    requires k < |ps| == |cs| == n && g.CellOffset() + 2 * n <= |d| && SizeIsLocal(g.sizeOf)
    requires g.Ok() && Cells(g, d, L0.used, ps, cs) && SizesOk(g, d, L0.used)
    requires Core(g, d1, n, nFree, L) && L.used == L0.used - {ps[k]}
    requires Kept(g, d, d1, L) && |d2| == |d1| && g.hdr + 5 <= |d2| && Get2(d2, g.hdr + 3) == n - 1
    requires forall b | 0 <= b < |d1| && (b < g.hdr + 3 || g.hdr + 5 <= b < g.CellOffset() || L.top <= b) :: d2[b] == d1[b]
    requires forall j | 0 <= j < n - 1 && g.CellOffset() + 2 * j + 2 <= |d2| :: Ptr(g, d2, j) == Without(ps, k)[j]
    ensures |d2| == |d| && Rep(g, d2, n - 1, nFree + 2, L.(gap := L.gap - 2))
    ensures Cells(g, d2, L.used, Without(ps, k), Without(cs, k))
  {
    hide SizeIsLocal, Core, PtrsOk, SizesOk, Cells, Without, Kept, AgreeOn, Get2;
    RepOk(g, d1, n, nFree, L);
    KeptAgree(g, d, d1, L);
    Dropped(g, d, d1, d2, n, nFree, L0, L, ps, cs, k);
  }

  lemma AllocatedOk(g: Geo, d: seq<byte>, n: nat, nFree: int, L: Layout, idx: nat)
    requires Core(g, d, n, nFree, L) && idx in L.used
    ensures L.top <= idx && idx + L.used[idx] <= g.u <= 65536 && g.u <= |d| && 4 <= L.used[idx]
    ensures L.gap == g.CellOffset() + 2 * n && g.Ok() && L.top <= g.u && Get2(d, g.hdr + 3) == n
  {
    hide ChainOk, Counts;
  }

  /** put4byte over the first four bytes, for a cell that goes to an interior page. */
  function WithChild(c: seq<byte>, iChild: nat): (r: seq<byte>)
    requires 4 <= |c|
    ensures |r| == |c|
  {
    if iChild == 0 then c else Put4(c, 0, iChild)
  }

  /** Bytes were found without touching a cell: the cells and their pointers are as before. */
  lemma SlotAllocated(g: Geo, d0: seq<byte>, d: seq<byte>, n: nat, nFree: int, L0: Layout, L: Layout,
                      ps: seq<nat>, cs: seq<seq<byte>>, idx: nat, nByte: nat)
    requires Rep(g, d0, n, nFree, L0) && SizeIsLocal(g.sizeOf) && |ps| == n && g.CellOffset() + 2 * n <= |d0|
    requires Cells(g, d0, L0.used, ps, cs)
    requires Kept(g, d0, d, L0) && idx !in L0.used && L.used == L0.used[idx := nByte]
    ensures g.CellOffset() + 2 * n <= |d| && L.used - {idx} == L0.used
    ensures SizesOk(g, d, L0.used)
    ensures Cells(g, d, L0.used, ps, cs)
    ensures forall b | 0 <= b < |d| && (b == g.hdr || g.hdr + 8 <= b < g.CellOffset() || g.u <= b) :: d[b] == d0[b]
  {
    hide SizeIsLocal, Sound, ChainOk, Counts, SizesOk, Kept, HoldsCell, PtrsOk, Fixed;
    CoreFacts(g, d0, n, nFree, L0);
    KeptSizes(g, d0, d, L0);
    KeptPtrs(g, d0, d, L0, n, L0.used);
    KeptEdges(g, d0, d, L0);
    forall k | 0 <= k < n ensures HoldsCell(g, d, L0.used, ps[k], cs[k]) {
      KeptHolds(g, d0, d, L0, ps[k], cs[k]);
    }
  }

  lemma KeptEdges(g: Geo, d0: seq<byte>, d: seq<byte>, L: Layout)
    requires Kept(g, d0, d, L) && g.CellOffset() <= L.gap
    ensures |d| == |d0|
    ensures forall b | 0 <= b < |d| && (b == g.hdr || g.hdr + 8 <= b < g.CellOffset() || g.u <= b) :: d[b] == d0[b]
  {
  }

  lemma KeptHolds(g: Geo, d0: seq<byte>, d: seq<byte>, L: Layout, p: nat, c: seq<byte>)
    requires Kept(g, d0, d, L) && HoldsCell(g, d0, L.used, p, c)
    ensures HoldsCell(g, d, L.used, p, c)
  {
    hide Kept;
    assert |d| == |d0| by { KeptSize(g, d0, d, L); }
    KeptCell(g, d0, d, L, p);
  }

  lemma KeptSize(g: Geo, d0: seq<byte>, d: seq<byte>, L: Layout)
    requires Kept(g, d0, d, L)
    ensures |d| == |d0|
  {
  }

  lemma CoreSize(g: Geo, d: seq<byte>, c: nat, nFree: int, L: Layout)
    requires Core(g, d, c, nFree, L)
    ensures 480 <= g.u <= |d| && g.u <= 65536 && (g.hdr == 0 || g.hdr == 100) && d[g.hdr + 7] <= 60
    ensures g.CellOffset() + 2 * c == L.gap <= L.top <= g.u && nFree >= 0
  {
    hide ChainOk;
  }

  lemma MovedStart(g: Geo, d0: seq<byte>, top: nat, ps: seq<nat>, sz: seq<nat>)
    requires Job(g, d0, top, ps, sz)
    ensures Moved(g, d0, d0, ps, sz, 0) && Still(g, ps, sz, 0) && Sum(sz, 0) == 0
  {
    hide SizeIsLocal;
  }

  lemma MovedPtr(g: Geo, d0: seq<byte>, d: seq<byte>, ps: seq<nat>, sz: seq<nat>, i: nat)
    requires i < |ps| == |sz| && g.CellOffset() + 2 * |ps| <= g.u <= |d| && Moved(g, d0, d, ps, sz, i)
    ensures Get2(d, g.CellOffset() + 2 * i) == ps[i]
  {
    assert Ptr(g, d, i) == ps[i];
  }

  lemma JobSize(g: Geo, d0: seq<byte>, top: nat, ps: seq<nat>, sz: seq<nat>)
    requires Job(g, d0, top, ps, sz)
    ensures |ps| == |sz| && g.CellOffset() + 2 * |ps| <= top <= g.u <= |d0| && 480 <= g.u <= 65536
    ensures g.CellOffset() + 2 * |ps| + Sum(sz, |sz|) <= g.u
  {
    hide Sum, SizeIsLocal;
  }

  lemma JobAt(g: Geo, d0: seq<byte>, top: nat, ps: seq<nat>, sz: seq<nat>, i: nat)
    requires Job(g, d0, top, ps, sz) && i < |ps|
    ensures 4 <= sz[i] && top <= ps[i] && ps[i] + sz[i] <= g.u
  {
    hide Sum, SizeIsLocal;
  }

  lemma StepSum(g: Geo, sz: seq<nat>, i: nat)
    requires i < |sz|
    ensures At(g, sz, i) == g.u - Sum(sz, i) - sz[i] == g.u - Sum(sz, i + 1)
  {
  }

  lemma HoldsNext(d0: seq<byte>, t: seq<byte>, ps: seq<nat>, sz: seq<nat>, i: nat)
    requires i < |ps| == |sz| && Holds(d0, t, ps, sz, i)
    ensures Holds(d0, t, ps, sz, i + 1)
  {
  }

  /** The size scan reads the same size off the copy as off the page. */
  lemma SourceSize(g: Geo, d0: seq<byte>, t: seq<byte>, top: nat, ps: seq<nat>, sz: seq<nat>, i: nat)
    requires Job(g, d0, top, ps, sz) && i < |ps| && g.u <= |t|
    requires t == d0 || Holds(d0, t, ps, sz, i)
    ensures g.sizeOf(t[ps[i]..g.u]) == sz[i]
    ensures t[ps[i]..ps[i] + sz[i]] == d0[ps[i]..ps[i] + sz[i]]
  {
    if t != d0 {
      assert CellIs(t, ps[i], d0, ps[i], sz[i]);
      SameCellSize(g, d0, t, ps[i], sz[i]);
    }
  }

  lemma TakenByte(g: Geo, d: seq<byte>, p: nat, pc: nat, x: nat)
    requires p + 2 <= |d| && pc + 2 <= |d| && g.hdr + 8 <= |d| && d[g.hdr + 7] + x < 256
    requires p + 2 <= g.hdr + 7 || g.hdr + 8 <= p
    ensures Put2(d, p, Get2(d, pc))[g.hdr + 7] == d[g.hdr + 7]
  {
  }

  lemma SlotSize(g: Geo, d: seq<byte>, c: nat, nFree: int, L: Layout, p: nat, pc: nat)
    requires Slot(g, d, c, nFree, L, p, pc)
    requires p + 2 <= |d| && Get2(d, p) == pc
    ensures SlotBounds(g, d, L, p, pc)
    ensures g.u <= |d| && 480 <= g.u && p + 4 <= pc && pc + L.free[pc] <= g.u && 4 <= L.free[pc] && pc in L.free
    ensures Get2(d, pc + 2) == L.free[pc] && g.CellOffset() + 2 * c <= pc
    ensures d[g.hdr + 7] <= 60
  {
    hide Counts, ChainOk, IsNext;
    SlotOk(g, d, c, nFree, L, p, pc);
  }

  lemma KeptSelf(g: Geo, d: seq<byte>, L: Layout)
    ensures Kept(g, d, d, L)
  {
  }
}
