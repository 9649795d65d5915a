/** freeSpace on any page that the scan of btreeInitPage lets through, whether it is well formed or not. */
module PageStart {
  import opened Results
  import opened Bytes

  /** Number of bytes of the freeblock at pc. */
  function BlockSize(d: seq<byte>, pc: nat): nat
    requires pc + 4 <= |d|
  {
    Get2(d, pc + 2)
  }

  /** The scan lets the freeblocks from pc on through: none before lo, each on the page and some way before the next. */
  ghost predicate Scanned(d: seq<byte>, u: nat, lo: nat, pc: nat)
    requires u <= |d|
    decreases u - pc
  {
    pc == 0 || (lo <= pc && pc + 4 <= u && pc + BlockSize(d, pc) <= u
      && (Get2(d, pc) == 0 || (pc + BlockSize(d, pc) + 3 < Get2(d, pc) && Scanned(d, u, lo, Get2(d, pc)))))
  }

  ghost function FreeBytes(d: seq<byte>, u: nat, lo: nat, pc: nat): nat
    requires u <= |d| && Scanned(d, u, lo, pc)
    decreases u - pc
  {
    if pc == 0 then 0 else BlockSize(d, pc) + if Get2(d, pc) == 0 then 0 else FreeBytes(d, u, lo, Get2(d, pc))
  }

  /** The last part of btreeInitPage, on any bytes: it lets through exactly such lists, if there are not too many free bytes. */
  method InitFree(d: array<byte>, hdr: nat, u: nat, lo: nat) returns (rc: Rc, nFree: int)
    requires hdr + 8 <= lo <= u <= d.Length
    ensures var s := d[..]; var first, top := Get2(s, hdr + 1), Top(Get2(s, hdr + 5));
      if Scanned(s, u, lo, first) && d[hdr + 7] + top + FreeBytes(s, u, lo, first) <= u then
        rc == OK && nFree == d[hdr + 7] + top + FreeBytes(s, u, lo, first) - lo
      else rc == CORRUPT
  {
    ghost var s := d[..];
    var pc := Read2(d, hdr + 1);
    ghost var first := pc;
    nFree := d[hdr + 7] + Top(Read2(d, hdr + 5));
    while pc > 0
      invariant Scanned(s, u, lo, first) <==> Scanned(s, u, lo, pc)
      invariant Scanned(s, u, lo, pc) ==> nFree + FreeBytes(s, u, lo, pc) == d[hdr + 7] + Top(Get2(s, hdr + 5)) + FreeBytes(s, u, lo, first)
      decreases pc != 0, u - pc
    {
      if pc < lo || pc > u - 4 { return CORRUPT, 0; }
      var next, size := Read2(d, pc), Read2(d, pc + 2);
      if (next > 0 && next <= pc + size + 3) || pc + size > u { return CORRUPT, 0; }
      nFree := nFree + size;
      pc := next;
    }
    if nFree > u { return CORRUPT, 0; }
    return OK, nFree - lo;
  }

  /** The content offset 0 stands for 65536. */
  function Top(field: nat): nat { if field == 0 then 65536 else field }

  /** No freeblock from pc on overlaps the n bytes at x. */
  ghost predicate Disjoint(d: seq<byte>, u: nat, lo: nat, pc: nat, x: nat, n: nat)
    requires u <= |d| && Scanned(d, u, lo, pc)
    decreases u - pc
  {
    pc == 0 || ((if pc < x then pc + BlockSize(d, pc) <= x else x + n <= pc) && (Get2(d, pc) == 0 || Disjoint(d, u, lo, Get2(d, pc), x, n)))
  }

  /** The last freeblock before x, of those from pc on; if none, at. */
  ghost function LastBefore(d: seq<byte>, u: nat, lo: nat, at: nat, pc: nat, x: nat): nat
    requires u <= |d| && Scanned(d, u, lo, pc)
    decreases u - pc
  {
    if pc == 0 || pc >= x then at else if Get2(d, pc) == 0 then pc else LastBefore(d, u, lo, pc, Get2(d, pc), x)
  }

  /** The first freeblock from x on, of those from pc on; if none, 0. */
  ghost function FirstFrom(d: seq<byte>, u: nat, lo: nat, pc: nat, x: nat): nat
    requires u <= |d| && Scanned(d, u, lo, pc)
    decreases u - pc
  {
    if pc == 0 || pc >= x then pc else if Get2(d, pc) == 0 then 0 else FirstFrom(d, u, lo, Get2(d, pc), x)
  }

  /** The freeblock at p ends so near to x that what is freed at x is joined to it. */
  ghost predicate JoinsBlock(d: seq<byte>, hdr: nat, x: nat, p: nat)
    requires p + 4 <= |d|
  {
    p > hdr + 1 && p + BlockSize(d, p) + 3 >= x
  }

  /** More bytes between the cell and the freeblocks it is joined to than are recorded as fragments; or a freeblock before the
      cell, and what is freed begins the content area. */
  ghost predicate Refused(d: seq<byte>, hdr: nat, x: nat, n: nat, p: nat, q: nat)
    requires hdr + 8 <= |d| && p + 4 <= |d|
  {
    || (if q != 0 && x + n + 3 >= q then q - (x + n) else 0)
         + (if JoinsBlock(d, hdr, x, p) then x - (p + BlockSize(d, p)) else 0) > d[hdr + 7]
    || (p != hdr + 1 && Get2(d, hdr + 5) == if JoinsBlock(d, hdr, x, p) then p else x)
  }

  /** The neighbours of a cell that overlaps no freeblock. */
  lemma {:induction false} Neighbours(d: seq<byte>, u: nat, lo: nat, at: nat, pc: nat, x: nat, n: nat)
    requires u <= |d| && Scanned(d, u, lo, pc) && Disjoint(d, u, lo, pc, x, n) && 0 < n && x + n <= u && at + 4 <= u
    ensures LastBefore(d, u, lo, at, pc, x) + 4 <= u
    ensures var q := FirstFrom(d, u, lo, pc, x); q != 0 ==> x + n <= q && q + 4 <= u && q + BlockSize(d, q) <= u
    decreases u - pc
  {
    if pc != 0 && pc < x && Get2(d, pc) != 0 { Neighbours(d, u, lo, pc, Get2(d, pc), x, n); }
  }

  /** freeSpace as far as its last exit: of the pages let through it refuses those, and only those. */
  method CanFree(d: array<byte>, hdr: nat, u: nat, lo: nat, iStart0: nat, iSize0: nat) returns (rc: Rc)
    requires hdr + 8 <= lo <= iStart0 && iStart0 + iSize0 <= u <= d.Length && 4 <= iSize0
    requires Scanned(d[..], u, lo, Get2(d[..], hdr + 1)) && Disjoint(d[..], u, lo, Get2(d[..], hdr + 1), iStart0, iSize0)
    ensures LastBefore(d[..], u, lo, hdr + 1, Get2(d[..], hdr + 1), iStart0) + 4 <= u
    ensures rc == if Refused(d[..], hdr, iStart0, iSize0, LastBefore(d[..], u, lo, hdr + 1, Get2(d[..], hdr + 1), iStart0),
                             FirstFrom(d[..], u, lo, Get2(d[..], hdr + 1), iStart0)) then CORRUPT else OK
  {
    ghost var s, first := d[..], Get2(d[..], hdr + 1);
    Neighbours(s, u, lo, hdr + 1, first, iStart0, iSize0);
    var iPtr, iFreeBlk, nFrag, iStart, iEnd := hdr + 1, 0, 0, iStart0, iStart0 + iSize0;
    if d[iPtr + 1] != 0 || d[iPtr] != 0 {
      iFreeBlk := Read2(d, iPtr);
      while iFreeBlk > 0 && iFreeBlk < iStart
        invariant iPtr < iStart && iPtr + 4 <= u && iFreeBlk == Get2(s, iPtr)
        invariant Scanned(s, u, lo, iFreeBlk) && Disjoint(s, u, lo, iFreeBlk, iStart, iSize0)
        invariant LastBefore(s, u, lo, iPtr, iFreeBlk, iStart) == LastBefore(s, u, lo, hdr + 1, first, iStart)
        invariant FirstFrom(s, u, lo, iFreeBlk, iStart) == FirstFrom(s, u, lo, first, iStart)
        invariant if iPtr == hdr + 1 then true else lo <= iPtr && iPtr + BlockSize(s, iPtr) <= iStart
        invariant iFreeBlk > 0 ==> iFreeBlk >= if iPtr == hdr + 1 then lo else iPtr + BlockSize(s, iPtr) + 4
        decreases iStart - iPtr
      {
        if iFreeBlk < iPtr + 4 { return CORRUPT; }
        iPtr := iFreeBlk;
        iFreeBlk := Read2(d, iPtr);
      }
      if iFreeBlk > u - 4 { return CORRUPT; }
      if iFreeBlk != 0 && iEnd + 3 >= iFreeBlk {
        nFrag := iFreeBlk - iEnd;
        if iEnd > iFreeBlk { return CORRUPT; }
        iEnd := iFreeBlk + Read2(d, iFreeBlk + 2);
        if iEnd > u { return CORRUPT; }
      }
      if iPtr > hdr + 1 {
        var iPtrEnd := iPtr + Read2(d, iPtr + 2);
        if iPtrEnd + 3 >= iStart {
          if iPtrEnd > iStart { return CORRUPT; }
          nFrag := nFrag + (iStart - iPtrEnd);
          iStart := iPtr;
        }
      }
      if nFrag > d[hdr + 7] { return CORRUPT; }
    }
    if iStart == Read2(d, hdr + 5) && iPtr != hdr + 1 { return CORRUPT; }
    rc := OK;
  }

  function Read2(d: array<byte>, i: nat): (r: nat)
    requires i + 2 <= d.Length
    reads d
    ensures r == Get2(d[..], i)
  {
    (d[i] as int) * 256 + d[i + 1]
  }

  /** A page of 512 bytes with one cell of 12 bytes at its end and a freeblock of 4 bytes before that, at the content start:
      the scan lets it through, its free bytes are counted right, and the cell cannot be freed. */
  function FreeblockFirst(): (d: seq<byte>)
    ensures |d| == 512
  {
    seq(512, i requires 0 <= i < 512 => ByteAt(i))
  }

  function ByteAt(i: nat): byte {
    match i
    case 0 => 13 case 1 => 1 case 2 => 240 case 4 => 1 case 5 => 1 case 6 => 240 case 8 => 1 case 9 => 244 case 499 => 4
    case _ => 0
  }

  lemma FreeblockFirstRefused()
    ensures var d := FreeblockFirst(); var first := Get2(d, 1);
      first == Get2(d, 5) == 496 && Scanned(d, 512, 10, first) && Disjoint(d, 512, 10, first, 500, 12)
      && FreeBytes(d, 512, 10, first) == 4 && d[7] == 0
      && LastBefore(d, 512, 10, 1, first, 500) == 496 && Refused(d, 0, 500, 12, 496, FirstFrom(d, 512, 10, first, 500))
  {
    var d := FreeblockFirst();
    assert Get2(d, 1) == 496 && Get2(d, 5) == 496 && Get2(d, 496) == 0 && BlockSize(d, 496) == 4;
  }
}
