/** Online backup: pages are copied step by step while the source is in use. */
module Backups {
  import opened Facts
  import opened Bytes

  datatype Rc = OK | BUSY | DONE | READONLY

  /** As many bytes as the smaller of the two page sizes. */
  type Block = seq<byte>

  /** Page sizes and the place of the locking bytes, in blocks: m bytes a block, a blocks a source page, d a destination page. */
  datatype Sizes = Sizes(m: nat, a: nat, d: nat, pend: nat) {
    predicate Ok() {
      512 <= m && (a == 1 || d == 1) && 0 < a && 0 < d && pend > 0 && pend % a == 0 && pend % d == 0
    }
    /** PENDING_BYTE_PAGE of the source and of the destination. */
    function PendSrc(): nat requires Ok() { pend / a + 1 }
    function PendDest(): nat requires Ok() { pend / d + 1 }
  }

  /** A block with the bytes from i to j put to zero. */
  function Blank(b: Block, i: nat, j: nat): (r: Block)
    requires i <= j <= |b|
    ensures |r| == |b| && forall k | 0 <= k < |b| :: r[k] == if i <= k < j then 0 else b[k]
  {
    b[..i] + seq(j - i, _ => 0) + b[j..]
  }

  /** The first block without the header fields that a backup sets itself: format versions, size and schema cookie. */
  function Mask(b: Block): Block
    requires |b| >= 512
  {
    Blank(Blank(Blank(b, 18, 20), 28, 32), 40, 44)
  }

  ghost predicate Same(x: Block, y: Block, o: nat) {
    |x| == |y| && if o == 0 && |x| >= 512 then Mask(x) == Mask(y) else x == y
  }

  type Page = seq<Block>

  ghost predicate IsPage(z: Sizes, p: Page) { |p| == z.a && forall k | 0 <= k < |p| :: |p[k]| == z.m }

  /** The destination holds source page p, counted from 0, but for blocks of the destination's own locking page. */
  ghost predicate Holds(z: Sizes, dest: nat -> Block, p: nat, data: Page) {
    forall k | 0 <= k < |data| && !(z.pend <= p * z.a + k < z.pend + z.d) :: Same(dest(p * z.a + k), data[k], p * z.a + k)
  }

  lemma Apart(p: nat, q: nat, a: nat)
    requires p != q
    ensures p * a + a <= q * a || q * a + a <= p * a
  {
    if p < q { assert (p + 1) * a <= q * a; } else { assert (q + 1) * a <= p * a; }
  }

  /** Writing to one page does not touch the others. */
  lemma HoldsElsewhere(z: Sizes, dest: nat -> Block, dest2: nat -> Block, p: nat, q: nat, data: Page)
    requires p != q && |data| == z.a && Holds(z, dest, q, data)
    requires forall o: nat | !(p * z.a <= o < p * z.a + z.a) :: dest2(o) == dest(o)
    ensures Holds(z, dest2, q, data)
  {
    hide Same;
    Apart(p, q, z.a);
  }

  lemma MaskPut(b: Block, i: nat, v: nat)
    requires |b| >= 512 && (i == 28 || i == 40)
    ensures Mask(Put4(b, i, v)) == Mask(b)
  {
    hide Put4;
  }

  lemma CookieStays(b: Block, v: byte)
    requires |b| >= 512
    ensures Get4(b[18 := v][19 := v], 40) == Get4(b, 40)
  {
  }

  lemma MaskVersion(b: Block, v: byte)
    requires |b| >= 512
    ensures Mask(b[18 := v][19 := v]) == Mask(b)
  {
  }

  class Backup {
    const z: Sizes
    /** The destination is in memory, so that its page size cannot change. */
    const destMem: bool
    var src: seq<Page>
    var dest: nat -> Block
    /** Size of the destination file in blocks, once the backup is done. */
    var destSize: nat
    var iNext: nat
    var rc: Rc
    var isAttached: bool
    var bDestLocked: bool
    var iDestSchema: nat

    ghost predicate Shape()
      reads this
    {
      z.Ok() && 1 <= iNext && (forall p | 0 <= p < |src| :: IsPage(z, src[p])) && forall o :: |dest(o)| == z.m
    }

    ghost predicate Valid()
      reads this
    {
      Shape() && (rc == OK || rc == BUSY ==> Copied(iNext) && (iNext > 1 ==> isAttached) && (isAttached ==> bDestLocked))
    }

    /** Every source page before page number n is in the destination. */
    ghost predicate Copied(n: nat)
      reads this
      requires z.Ok()
    {
      forall p | 0 <= p < n - 1 && p < |src| && p + 1 != z.PendSrc() :: Holds(z, dest, p, src[p])
    }

    constructor (sizes: Sizes, mem: bool, source: seq<Page>, old0: nat -> Block)
      requires sizes.Ok() && (forall p | 0 <= p < |source| :: IsPage(sizes, source[p])) && forall o :: |old0(o)| == sizes.m
      ensures Valid() && rc == OK && iNext == 1 && src == source
    {
      z, destMem, src, dest, destSize := sizes, mem, source, old0, 0;
      iNext, rc, isAttached, bDestLocked, iDestSchema := 1, OK, false, false, 0;
    }

    /** backupOnePage */
    method BackupOnePage(iSrcPg: nat, data: Page, bUpdate: bool) returns (r: Rc)
      requires Shape() && |data| == z.a && IsPage(z, data) && iSrcPg >= 1 && iSrcPg != z.PendSrc() && bDestLocked
      modifies this`dest
      ensures Shape() && r == if z.a != z.d && destMem then READONLY else OK
      ensures r == READONLY ==> dest == old(dest)
      ensures forall o: nat | !((iSrcPg - 1) * z.a <= o < (iSrcPg - 1) * z.a + z.a) :: dest(o) == old(dest)(o)
      ensures r == OK ==> Holds(z, dest, iSrcPg - 1, data)
    {
      hide Same, Mask, IsPage;
      if z.a != z.d && destMem { return READONLY; }
      var iEnd := iSrcPg * z.a;
      CopyBlocks(iSrcPg - 1, iEnd - z.a, iEnd, data, bUpdate);
      r := OK;
    }

    /** The loop of backupOnePage: one turn for each destination page that the source page spans. */
    method CopyBlocks(ghost p: nat, base: nat, iEnd: nat, data: Page, bUpdate: bool)
      requires Shape() && |data| == z.a && IsPage(z, data) && base == p * z.a && iEnd == base + z.a
      modifies this`dest
      ensures Shape() && forall o: nat | !(base <= o < iEnd) :: dest(o) == old(dest)(o)
      ensures forall k | 0 <= k < z.a && !(z.pend <= base + k < z.pend + z.d) :: Same(dest(base + k), data[k], base + k)
    {
      hide Same, Mask, IsPage;
      var iOff := base;
      while iOff < iEnd
        invariant base <= iOff && (z.d > 1 ==> iOff == base || iOff >= iEnd) && Shape()
        invariant forall o: nat | !(base <= o < iEnd) :: dest(o) == old(dest)(o)
        invariant forall k | 0 <= k < z.a && base + k < iOff && !(z.pend <= base + k < z.pend + z.d) :: Same(dest(base + k), data[k], base + k)
      {
        CopyBlock(p, base, iOff, data, bUpdate);
        iOff := iOff + z.d;
      }
    }

    /** One block, unless it belongs to the destination's locking page. */
    method CopyBlock(ghost p: nat, ghost base: nat, iOff: nat, data: Page, bUpdate: bool)
      requires Shape() && |data| == z.a && IsPage(z, data) && base == p * z.a && base <= iOff < base + z.a
      modifies this`dest
      ensures Shape() && forall o: nat | o != iOff :: dest(o) == old(dest)(o)
      ensures !(z.pend <= iOff < z.pend + z.d) ==> Same(dest(iOff), data[iOff - base], iOff)
    {
      hide Same, Mask;
      var iDest := iOff / z.d + 1;
      Places(z, p, iOff);
      if iDest != z.PendDest() {
        var zIn := data[iOff % z.a];
        var zOut := zIn;
        if iOff == 0 && !bUpdate { zOut := Put4(zOut, 28, |src|); }
        Written(zIn, zOut, iOff, |src|);
        SetBlock(iOff, zOut);
      }
    }

    /** A page before iNext that was copied holds again, and so do all the others. */
    lemma StillCopied(dest0: nat -> Block, src0: seq<Page>, n: nat, pg: nat, data: Page)
      requires Shape() && pg >= 1 && pg != z.PendSrc() && |data| == z.a && |src0| == |src|
      requires forall o: nat | !((pg - 1) * z.a <= o < (pg - 1) * z.a + z.a) :: dest(o) == dest0(o)
      requires Holds(z, dest, pg - 1, data) && pg <= |src| && src[pg - 1] == data
      requires forall p | 0 <= p < |src| && p != pg - 1 :: src[p] == src0[p]
      requires forall p | 0 <= p < n - 1 && p < |src0| && p + 1 != z.PendSrc() && p != pg - 1 :: Holds(z, dest0, p, src0[p])
      ensures Copied(n) && (n == pg ==> Copied(n + 1))
    {
      hide Same, Holds;
      forall p | 0 <= p < n && p < |src| && p + 1 != z.PendSrc() && (p < n - 1 || n == pg) ensures Holds(z, dest, p, src[p]) {
        if p != pg - 1 { HoldsElsewhere(z, dest0, dest, pg - 1, p, src[p]); }
      }
    }

    /** Among the next nPage pages of the source, or all that are left, is one to be copied. */
    ghost predicate SomeToCopy(nPage: int)
      reads this
      requires z.Ok()
    {
      var e := NextPage(iNext, nPage, |src|);
      iNext < e && (iNext + 1 < e || iNext != z.PendSrc())
    }

    /** The copying loop of sqlite3_backup_step: nPage pages, or all if it is negative. */
    method CopyPages(nPage: int) returns (r: Rc)
      requires Shape() && bDestLocked && Copied(iNext)
      modifies this`dest, this`iNext
      ensures Shape() && iNext >= old(iNext) && (r == OK ==> Copied(iNext))
      ensures r == if z.a != z.d && destMem && old(SomeToCopy(nPage)) then READONLY else OK
      ensures r == OK ==> iNext == NextPage(old(iNext), nPage, |src|)
    {
      hide Same, Mask, Holds, IsPage;
      r := OK;
      var ii := 0;
      while (nPage < 0 || ii < nPage) && iNext <= |src| && r == OK
        invariant Shape() && iNext == old(iNext) + ii && (r == OK ==> Copied(iNext))
        invariant (nPage >= 0 ==> ii <= nPage) && (ii > 0 ==> iNext <= |src| + 1)
        invariant r == OK || (r == READONLY && z.a != z.d && destMem && old(SomeToCopy(nPage)))
        invariant r == OK && z.a != z.d && destMem ==> ii == 0 || (ii == 1 && old(iNext) == z.PendSrc())
        decreases |src| + 1 - iNext
      {
        if iNext != z.PendSrc() {
          ghost var dest0 := dest;
          PageAt(iNext - 1);
          r := BackupOnePage(iNext, src[iNext - 1], false);
          if r == OK { StillCopied(dest0, src, iNext, iNext, src[iNext - 1]); }
        }
        iNext := iNext + 1;
        ii := ii + 1;
      }
    }

    lemma PageAt(p: nat)
      requires Shape() && p < |src|
      ensures |src[p]| == z.a && IsPage(z, src[p])
    {
    }

    /** What a finished backup is: the source, but for the locking page and header fields that it sets itself. */
    ghost predicate Equal()
      reads this`dest, this`src, this`destSize
      requires z.Ok()
    {
      && destSize == |src| * z.a
      && forall p, k | 0 <= p < |src| && 0 <= k < |src[p]| && p + 1 != z.PendSrc() :: Same(dest(p * z.a + k), src[p][k], p * z.a + k)
    }

    /** Page sizes differ, and the destination cannot take the source's. */
    ghost predicate Refused(nPage: int, wal: bool)
      reads this
      requires z.Ok()
    {
      z.a != z.d && (wal || (destMem && SomeToCopy(nPage)))
    }

    /** The header fields that a finished backup has set: a schema cookie one greater than the destination's was, and in WAL
        mode the format versions. */
    ghost predicate OwnHeader(wal: bool)
      reads this`dest, this`iDestSchema
      requires |dest(0)| >= 512
    {
      Get4(dest(0), 40) == (iDestSchema + 1) % 0x1_0000_0000 && (wal ==> dest(0)[18] == 2 && dest(0)[19] == 2)
    }

    /** sqlite3_backup_step. writing: the source is in a write transaction; wal: the destination is in WAL mode. */
    method Step(nPage: int, writing: bool, wal: bool) returns (r: Rc)
      requires Valid()
      modifies this`dest, this`iNext, this`rc, this`isAttached, this`bDestLocked, this`destSize, this`iDestSchema
      ensures Valid() && src == old(src) && rc == r
      ensures old(rc) == DONE || old(rc) == READONLY ==> r == old(rc)
      ensures (old(rc) == OK || old(rc) == BUSY) && writing ==> r == BUSY
      ensures (old(rc) == OK || old(rc) == BUSY) && !writing && old(Refused(nPage, wal)) ==> r == READONLY
      ensures (old(rc) == OK || old(rc) == BUSY) && !writing && !old(Refused(nPage, wal)) ==>
                r == if nPage < 0 || old(iNext) + nPage > |src| then DONE else OK
      ensures r == BUSY ==> iNext == old(iNext) && dest == old(dest)
      ensures r == OK || (r == DONE && old(rc) != DONE) ==> iNext == NextPage(old(iNext), nPage, |src|)
      ensures r == DONE && old(rc) != DONE && |src| > 0 ==> Equal() && OwnHeader(wal)
      ensures iDestSchema == if bDestLocked && !old(bDestLocked) then Get4(old(dest)(0), 40) else old(iDestSchema)
      ensures r == OK ==> isAttached
    {
      hide Same, Mask, Holds, IsPage, OwnHeader, Equal, Get4;
      r := rc;
      if r == DONE || r == READONLY { return; }
      if writing { r := BUSY; rc := BUSY; return; }
      if !bDestLocked {
        bDestLocked := true;
        iDestSchema := Get4(dest(0), 40);
      }
      if wal && z.a != z.d { r := READONLY; rc := r; return; }
      r := CopyPages(nPage);
      if r == OK {
        if iNext > |src| {
          Finish(wal);
          r := DONE;
        } else if !isAttached {
          isAttached := true;
        }
      }
      rc := r;
    }

    /** The end of a backup: schema cookie, file format and size of the destination. */
    method Finish(wal: bool)
      requires Shape() && Copied(iNext) && iNext > |src|
      modifies this`dest, this`destSize
      ensures Shape() && (|src| > 0 ==> Equal() && OwnHeader(wal))
    {
      hide Mask, IsPage, Holds, Same;
      if |src| == 0 {
        destSize := z.a;
        return;
      }
      Rewrite(wal);
      if z.a < z.d {
        ExtraPages();
      } else {
        AllHold();
      }
      destSize := |src| * z.a;
    }

    /** Header fields of the destination that are its own. */
    method Rewrite(wal: bool)
      requires Shape() && Copied(iNext)
      modifies this`dest
      ensures Shape() && Copied(iNext) && OwnHeader(wal)
    {
      hide Mask, IsPage;
      var cookie := (iDestSchema + 1) % 0x1_0000_0000;
      var b := Put4(dest(0), 40, cookie);
      MaskPut(dest(0), 40, cookie);
      if wal {
        MaskVersion(b, 2);
        CookieStays(b, 2);
        b := b[18 := 2][19 := 2];
      }
      ghost var dest0 := dest;
      SetBlock(0, b);
      RewrittenCopied(dest0);
    }

    lemma RewrittenCopied(dest0: nat -> Block)
      requires Shape() && (forall o | o != 0 :: dest(o) == dest0(o)) && |dest(0)| == |dest0(0)| && Mask(dest(0)) == Mask(dest0(0))
      requires forall p | 0 <= p < iNext - 1 && p < |src| && p + 1 != z.PendSrc() :: Holds(z, dest0, p, src[p])
      ensures Copied(iNext)
    {
      hide Mask;
    }

    /** Everything is copied, and the destination's locking page lies within the source's. */
    lemma AllHold()
      requires Shape() && Copied(iNext) && iNext > |src| && z.d == 1
      ensures forall p, k | 0 <= p < |src| && 0 <= k < |src[p]| && p + 1 != z.PendSrc() :: Same(dest(p * z.a + k), src[p][k], p * z.a + k)
    {
      hide Same, Mask;
      forall p, k | 0 <= p < |src| && 0 <= k < |src[p]| && p + 1 != z.PendSrc()
        ensures Same(dest(p * z.a + k), src[p][k], p * z.a + k)
      {
        PageAt(p);
        assert Holds(z, dest, p, src[p]);
        if p * z.a + k == z.pend { DivMod(z.pend, p, z.a); }
      }
    }

    /** The source pages that share the destination's locking page, but are not the source's own, are written past the pager. */
    method ExtraPages()
      requires Shape() && Copied(iNext) && iNext > |src| && z.a == 1
      modifies this`dest
      ensures Shape() && dest(0) == old(dest)(0)
      ensures forall p, k | 0 <= p < |src| && 0 <= k < |src[p]| && p + 1 != z.PendSrc() :: Same(dest(p * z.a + k), src[p][k], p * z.a + k)
    {
      hide Same, Mask;
      ghost var dest0 := dest;
      var iEnd := if z.pend + z.d < |src| then z.pend + z.d else |src|;
      var iOff := z.pend + z.a;
      while iOff < iEnd
        invariant z.pend + 1 <= iOff && Shape()
        invariant forall o: nat | !(z.pend + 1 <= o < iOff && o < iEnd) :: dest(o) == dest0(o)
        invariant forall o | z.pend + 1 <= o < iOff && o < iEnd :: dest(o) == src[o][0]
      {
        PageAt(iOff);
        SetBlock(iOff, src[iOff / z.a][0]);
        iOff := iOff + z.a;
      }
      forall p, k | 0 <= p < |src| && 0 <= k < |src[p]| && p + 1 != z.PendSrc()
        ensures Same(dest(p * z.a + k), src[p][k], p * z.a + k)
      {
        PageAt(p);
        assert Holds(z, dest0, p, src[p]);
        SameSelf(src[p][k], p * z.a + k);
      }
    }

    method SetBlock(o: nat, b: Block)
      requires |b| == z.m
      modifies this`dest
      ensures dest(o) == b && forall q | q != o :: dest(q) == old(dest)(q)
    {
      var d := dest;
      dest := q => if q == o then b else d(q);
    }

    // ---- the source changes ----

    /** backupUpdate: a page that was copied already is copied again. */
    method Update(iPage: nat, data: Page)
      requires Shape() && |data| == z.a && IsPage(z, data) && iPage >= 1 && iPage != z.PendSrc() && (rc == OK || rc == BUSY ==> bDestLocked)
      modifies this`dest, this`rc
      ensures Shape() && rc == if (old(rc) == OK || old(rc) == BUSY) && iPage < iNext && z.a != z.d && destMem then READONLY else old(rc)
      ensures forall o: nat | !((iPage - 1) * z.a <= o < (iPage - 1) * z.a + z.a) :: dest(o) == old(dest)(o)
      ensures rc == OK || rc == BUSY ==> if iPage < iNext then Holds(z, dest, iPage - 1, data) else dest == old(dest)
    {
      if (rc == OK || rc == BUSY) && iPage < iNext {
        var r := BackupOnePage(iPage, data, true);
        if r != OK { rc := r; }
      }
    }

    /** A page of the source is written, or added at its end, past the locking page if that comes next; the pager reports it
        to the backup. */
    method SourceWrite(iPage: nat, data: Page)
      requires Valid() && |data| == z.a && IsPage(z, data) && MayWrite(z, |src|, iPage)
      modifies this`src, this`dest, this`rc
      ensures Valid() && src == WithPage(z, old(src), iPage, data)
      ensures rc == if isAttached && (old(rc) == OK || old(rc) == BUSY) && iPage < iNext && z.a != z.d && destMem then READONLY else old(rc)
    {
      hide Same, Mask, Holds, IsPage;
      ghost var src0, dest0 := src, dest;
      NewSource(z, src, iPage, data);
      src := WithPage(z, src, iPage, data);
      if isAttached {
        Update(iPage, data);
      }
      if rc == OK || rc == BUSY { WrittenCopied(dest0, src0, iPage, data); }
    }

    lemma WrittenCopied(dest0: nat -> Block, src0: seq<Page>, pg: nat, data: Page)
      requires Shape() && MayWrite(z, |src0|, pg) && |data| == z.a && src == WithPage(z, src0, pg, data)
      requires forall o: nat | !((pg - 1) * z.a <= o < (pg - 1) * z.a + z.a) :: dest(o) == dest0(o)
      requires if pg < iNext then Holds(z, dest, pg - 1, data) else dest == dest0
      requires forall p | 0 <= p < iNext - 1 && p < |src0| && p + 1 != z.PendSrc() :: Holds(z, dest0, p, src0[p])
      ensures Copied(iNext)
    {
      hide Same, Mask, Holds;
      forall p | 0 <= p < iNext - 1 && p < |src| && p + 1 != z.PendSrc() ensures Holds(z, dest, p, src[p]) {
        if p != pg - 1 { PageAt(p); assert src[p] == src0[p]; HoldsElsewhere(z, dest0, dest, pg - 1, p, src[p]); }
      }
    }

    /** The source gets shorter. */
    method SourceTruncate(n: nat)
      requires Valid() && n <= |src|
      modifies this`src
      ensures Valid() && src == old(src)[..n]
    {
      hide Same, Mask, Holds, IsPage;
      src := src[..n];
    }

    /** Another process changes the source in any way: sqlite3BackupRestart begins again. */
    method SourceReplaced(source: seq<Page>)
      requires Valid() && forall p | 0 <= p < |source| :: IsPage(z, source[p])
      modifies this`src, this`iNext
      ensures Valid() && src == source && iNext == 1
    {
      hide Same, Mask, Holds;
      src := source;
      iNext := 1;
    }
  }

  /** The next page to copy after nPage pages, or after all. */
  function NextPage(iNext: nat, nPage: int, n: nat): nat {
    if iNext > n then iNext else if nPage < 0 || iNext + nPage > n then n + 1 else iNext + nPage
  }

  /** A page of the source, or the next one; the locking page is never written. */
  predicate MayWrite(z: Sizes, n: nat, iPage: nat)
    requires z.Ok()
  {
    1 <= iPage != z.PendSrc() && (iPage <= n + 1 || (iPage == n + 2 && n + 1 == z.PendSrc()))
  }

  /** The source with this page; what stands for the locking page does not matter. */
  function WithPage(z: Sizes, src: seq<Page>, iPage: nat, data: Page): seq<Page>
    requires iPage >= 1
  {
    if iPage <= |src| then src[iPage - 1 := data]
    else if iPage == |src| + 1 then src + [data]
    else src + [seq(z.a, _ => seq(z.m, _ => 0)), data]
  }

  lemma NewSource(z: Sizes, src: seq<Page>, iPage: nat, data: Page)
    requires iPage >= 1 && IsPage(z, data) && forall p | 0 <= p < |src| :: IsPage(z, src[p])
    ensures forall p | 0 <= p < |WithPage(z, src, iPage, data)| :: IsPage(z, WithPage(z, src, iPage, data)[p])
  {
  }

  lemma SameSelf(b: Block, o: nat)
    ensures Same(b, b, o)
  {
  }

  lemma Written(zIn: Block, zOut: Block, o: nat, n: nat)
    requires |zIn| >= 512 && (zOut == zIn || (o == 0 && zOut == Put4(zIn, 28, n)))
    ensures Same(zOut, zIn, o)
  {
    hide Put4, Mask;
    MaskPut(zIn, 28, n);
  }

  /** Where block o of source page p lies. */
  lemma Places(z: Sizes, p: nat, o: nat)
    requires z.Ok() && p * z.a <= o < p * z.a + z.a
    ensures o % z.a == o - p * z.a
    ensures o / z.d + 1 == z.PendDest() <==> z.pend <= o < z.pend + z.d
  {
    DivMod(o, p, z.a);
    var q := z.pend / z.d;
    assert z.pend == q * z.d;
    if z.pend <= o < z.pend + z.d { DivMod(o, q, z.d); }
    assert o / z.d * z.d <= o < o / z.d * z.d + z.d;
  }

  lemma DivMod(o: nat, p: nat, a: nat)
    requires p * a <= o < p * a + a
    ensures o / a == p && o % a == o - p * a
  {
    var q := o / a;
    assert o == q * a + o % a;
    MulLe(q + 1, p, a);
    MulLe(p + 1, q, a);
  }

  // ---- any interleaving ----

  datatype Event = StepEvent(nPage: int, writing: bool, wal: bool) | WriteEvent(iPage: nat, data: Page)
    | TruncateEvent(n: nat) | ReplaceEvent(source: seq<Page>)

  /** Steps of the backup and changes of the source come in any order; a step that finishes leaves a copy of the source as it is then. */
  method Run(b: Backup, events: seq<Event>)
    requires b.Valid()
    modifies b
    ensures b.Valid()
  {
    hide Backup.Valid, Backup.Equal, IsPage;
    for i := 0 to |events|
      invariant b.Valid()
    {
      match events[i]
      case StepEvent(n, w, wal) =>
        ghost var before := b.rc;
        var r := b.Step(n, w, wal);
        assert r == DONE && before != DONE && |b.src| > 0 ==> b.z.Ok() && b.Equal() by { OkSizes(b); }
      case WriteEvent(p, data) =>
        OkSizes(b);
        if |data| == b.z.a && (forall k | 0 <= k < |data| :: |data[k]| == b.z.m) && MayWrite(b.z, |b.src|, p) {
          IsPageHere(b.z, data);
          b.SourceWrite(p, data);
        }
      case TruncateEvent(n) => if n <= |b.src| { b.SourceTruncate(n); }
      case ReplaceEvent(s) =>
        if forall p | 0 <= p < |s| :: |s[p]| == b.z.a && forall k | 0 <= k < |s[p]| :: |s[p][k]| == b.z.m {
          forall p | 0 <= p < |s| ensures IsPage(b.z, s[p]) { IsPageHere(b.z, s[p]); }
          b.SourceReplaced(s);
        }
    }
  }

  lemma OkSizes(b: Backup)
    requires b.Valid()
    ensures b.z.Ok()
  {
  }

  lemma IsPageHere(z: Sizes, data: Page)
    requires |data| == z.a && forall k | 0 <= k < |data| :: |data[k]| == z.m
    ensures IsPage(z, data)
  {
  }
}
