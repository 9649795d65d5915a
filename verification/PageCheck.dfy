/** The coverage check of checkTreePage on a page in memory: it finds nothing wrong with a well-formed page. */
module PageCheck {
  import opened Bytes
  import opened Layout
  import opened Page
  import opened PageAlloc
  import opened PageCells
  import opened MemPages
  import opened PageInit
  import C = Coverage

  /** The ranges rs are those of the blocks in m, each once. */
  ghost predicate Spell(m: map<nat, nat>, rs: seq<C.Range>) {
    && (forall i | 0 <= i < |rs| :: rs[i].lo in m && rs[i].hi + 1 == rs[i].lo + m[rs[i].lo])
    && (forall i, j | 0 <= i < j < |rs| :: rs[i].lo != rs[j].lo)
    && (forall s | s in m :: HasRange(rs, s))
  }

  ghost predicate HasRange(rs: seq<C.Range>, s: nat) { exists i :: 0 <= i < |rs| && rs[i].lo == s }

  lemma SpellCovers(m: map<nat, nat>, rs: seq<C.Range>, b: nat)
    requires Spell(m, rs)
    ensures C.Covered(rs, b) <==> Covered(b, m)
  {
    if Covered(b, m) {
      var s :| s in m && Has(s, m[s], b);
      assert HasRange(rs, s);
      var i :| 0 <= i < |rs| && rs[i].lo == s;
      assert rs[i].lo <= b <= rs[i].hi;
    }
    if C.Covered(rs, b) {
      var i :| 0 <= i < |rs| && rs[i].lo <= b <= rs[i].hi;
      assert Has(rs[i].lo, m[rs[i].lo], b);
    }
  }

  lemma BothCover(cs: seq<C.Range>, fs: seq<C.Range>, b: nat)
    ensures C.Covered(cs + fs, b) <==> C.Covered(cs, b) || C.Covered(fs, b)
  {
    var rs := cs + fs;
    if C.Covered(cs, b) { var i :| 0 <= i < |cs| && cs[i].lo <= b <= cs[i].hi; assert rs[i] == cs[i]; }
    if C.Covered(fs, b) { var i :| 0 <= i < |fs| && fs[i].lo <= b <= fs[i].hi; assert rs[|cs| + i] == fs[i]; }
  }

  /** Nothing overlaps, and nothing lies before the content area. */
  ghost predicate NoOverlap(L: Layout) {
    && (forall s | s in L.used :: L.top <= s) && (forall s | s in L.free :: L.top <= s)
    && (forall s, t | s in L.used && t in L.used && s < t :: s + L.used[s] <= t)
    && (forall s, t | s in L.free && t in L.free && s < t :: s + L.free[s] <= t)
    && Apart(L.free, L.used)
  }

  lemma RangesApart(L: Layout, cs: seq<C.Range>, fs: seq<C.Range>)
    requires NoOverlap(L) && Spell(L.used, cs) && Spell(L.free, fs)
    ensures C.Disjoint(cs + fs, L.top)
  {
    var rs := cs + fs;
    forall i, j | 0 <= i < j < |rs| ensures !C.Overlap(rs[i], rs[j]) {
      if j < |cs| {
        assert cs[i].lo != cs[j].lo;
      } else if i < |cs| {
        assert rs[j] == fs[j - |cs|];
      } else {
        assert fs[i - |cs|].lo != fs[j - |cs|].lo;
      }
    }
  }

  lemma SameList(m: map<nat, nat>, rs: seq<C.Range>, all: seq<C.Range>, from: nat, content: nat)
    requires Spell(m, rs) && (forall i | 0 <= i < |rs| :: rs[i].lo <= rs[i].hi) && C.Disjoint(all, content)
    requires from + |rs| <= |all| && all[from..from + |rs|] == rs
    ensures (forall s | s in m :: content <= s) && forall s, t | s in m && t in m && s < t :: s + m[s] <= t
  {
    forall i | 0 <= i < |rs| ensures all[from + i] == rs[i] { assert all[from..from + |rs|][i] == rs[i]; }
    forall s | s in m ensures content <= s { assert HasRange(rs, s); }
    forall s, t | s in m && t in m && s < t ensures s + m[s] <= t {
      assert HasRange(rs, s) && HasRange(rs, t);
      var i :| 0 <= i < |rs| && rs[i].lo == s;
      var j :| 0 <= j < |rs| && rs[j].lo == t;
      if i < j { assert !C.Overlap(all[from + i], all[from + j]); } else { assert !C.Overlap(all[from + j], all[from + i]); }
    }
  }

  /** Where the check finds no byte used twice, none is. */
  lemma ApartRanges(L: Layout, cs: seq<C.Range>, fs: seq<C.Range>)
    requires Spell(L.used, cs) && Spell(L.free, fs) && C.Disjoint(cs + fs, L.top)
    requires (forall i | 0 <= i < |cs| :: cs[i].lo <= cs[i].hi) && forall i | 0 <= i < |fs| :: fs[i].lo <= fs[i].hi
    ensures NoOverlap(L)
  {
    hide Spell, C.Disjoint;
    SameList(L.used, cs, cs + fs, 0, L.top);
    SameList(L.free, fs, cs + fs, |cs|, L.top);
    forall s, t | s in L.used && t in L.free ensures s + L.used[s] <= t || t + L.free[t] <= s {
      var i := PlaceOf(L.used, cs, s);
      var j := PlaceOf(L.free, fs, t);
      TwoApart(cs, fs, L.top, i, j);
    }
  }

  lemma PlaceOf(m: map<nat, nat>, rs: seq<C.Range>, s: nat) returns (i: nat)
    requires Spell(m, rs) && s in m
    ensures i < |rs| && rs[i].lo == s && rs[i].hi + 1 == s + m[s]
  {
    assert HasRange(rs, s);
    i :| 0 <= i < |rs| && rs[i].lo == s;
  }

  lemma TwoApart(cs: seq<C.Range>, fs: seq<C.Range>, content: nat, i: nat, j: nat)
    requires C.Disjoint(cs + fs, content) && i < |cs| && j < |fs|
    ensures !C.Overlap(cs[i], fs[j])
  {
    assert (cs + fs)[i] == cs[i] && (cs + fs)[|cs| + j] == fs[j];
  }

  /** What the check of a page decides, if the lists spell its cells and freeblocks: no byte is used twice, and the recorded
      number of fragment bytes is right. */
  lemma CheckDecides(u: nat, L: Layout, cs: seq<C.Range>, fs: seq<C.Range>, nFrag: nat)
    requires u <= 65536 && Spell(L.used, cs) && Spell(L.free, fs)
    requires (forall s | s in L.used :: 0 < L.used[s] && s + L.used[s] <= u) && forall s | s in L.free :: 0 < L.free[s] && s + L.free[s] <= u
    ensures forall i | 0 <= i < |cs + fs| :: C.Ok((cs + fs)[i], u)
    ensures C.Disjoint(cs + fs, L.top) && |C.Uncovered(cs + fs, L.top, u)| == nFrag <==> NoOverlap(L) && |FragSet(u, L)| == nFrag
  {
    hide NoOverlap, C.Disjoint, FragSet, C.Uncovered;
    FragmentsLeft(u, L, cs, fs);
    if NoOverlap(L) { RangesApart(L, cs, fs); }
    if C.Disjoint(cs + fs, L.top) { ApartRanges(L, cs, fs); }
  }

  lemma FragmentsLeft(u: nat, L: Layout, cs: seq<C.Range>, fs: seq<C.Range>)
    requires Spell(L.used, cs) && Spell(L.free, fs)
    ensures |C.Uncovered(cs + fs, L.top, u)| == |FragSet(u, L)|
  {
    hide Spell, Covered, C.Covered;
    var a: set<int> := C.Uncovered(cs + fs, L.top, u);
    forall b: int ensures b in a <==> b in FragSet(u, L) {
      if b >= 0 {
        SpellCovers(L.used, cs, b);
        SpellCovers(L.free, fs, b);
        BothCover(cs, fs, b);
      }
    }
    assert a == FragSet(u, L);
  }

  /** The cells from number i on are spelt. */
  ghost predicate CellsFrom(used: map<nat, nat>, ps: seq<nat>, i: nat, cs: seq<C.Range>)
    requires i <= |ps|
  {
    |cs| == |ps| - i && forall k | i <= k < |ps| ::
      cs[|ps| - 1 - k].lo == ps[k] && ps[k] in used && cs[|ps| - 1 - k].hi + 1 == ps[k] + used[ps[k]]
  }

  lemma CellsSpelt(used: map<nat, nat>, ps: seq<nat>, cs: seq<C.Range>)
    requires Names(used, ps) && CellsFrom(used, ps, 0, cs)
    ensures Spell(used, cs)
  {
    forall j | 0 <= j < |cs| ensures cs[j].lo == ps[|ps| - 1 - j] && cs[j].hi + 1 == cs[j].lo + used[cs[j].lo] {
      assert cs[|ps| - 1 - (|ps| - 1 - j)] == cs[j];
    }
    forall s | s in used ensures HasRange(cs, s) {
      var k :| 0 <= k < |ps| && ps[k] == s;
      assert cs[|ps| - 1 - k].lo == s;
    }
  }

  lemma NoCells(used: map<nat, nat>, ps: seq<nat>)
    ensures CellsFrom(used, ps, |ps|, [])
  {
  }

  lemma OneCell(used: map<nat, nat>, ps: seq<nat>, i: nat, cs: seq<C.Range>, size: nat)
    requires i < |ps| && CellsFrom(used, ps, i + 1, cs) && ps[i] in used && used[ps[i]] == size > 0
    ensures CellsFrom(used, ps, i, cs + [C.Range(ps[i], ps[i] + size - 1)])
  {
  }

  /** The freeblocks before pc are spelt, in order. */
  ghost predicate FreeTo(free: map<nat, nat>, pc: nat, fs: seq<C.Range>) {
    && (forall i | 0 <= i < |fs| :: fs[i].lo in free && fs[i].hi + 1 == fs[i].lo + free[fs[i].lo] && (pc == 0 || fs[i].lo < pc))
    && (forall i, j | 0 <= i < j < |fs| :: fs[i].lo < fs[j].lo)
    && (forall s | s in free && (pc == 0 || s < pc) :: HasRange(fs, s))
  }

  lemma FreeSpelt(free: map<nat, nat>, fs: seq<C.Range>)
    requires FreeTo(free, 0, fs)
    ensures Spell(free, fs)
  {
  }

  lemma NoneBefore(free: map<nat, nat>, pc: nat)
    requires forall s | s in free :: pc != 0 && pc <= s
    ensures FreeTo(free, pc, [])
  {
  }

  lemma OneFree(free: map<nat, nat>, pc: nat, next: nat, fs: seq<C.Range>)
    requires pc in free && pc > 0 && free[pc] > 0 && FreeTo(free, pc, fs) && (next == 0 || pc < next)
    requires forall s | s in free && pc < s :: next != 0 && next <= s
    ensures FreeTo(free, next, fs + [C.Range(pc, pc + free[pc] - 1)])
  {
    var gs := fs + [C.Range(pc, pc + free[pc] - 1)];
    forall s | s in free && (next == 0 || s < next) ensures HasRange(gs, s) {
      if s < pc {
        assert HasRange(fs, s);
        var i :| 0 <= i < |fs| && fs[i].lo == s;
        assert gs[i].lo == s;
      } else {
        assert s == pc && gs[|fs|].lo == s;
      }
    }
  }

  lemma FourBytes(g: Geo, d: seq<byte>, n: nat, nFree: int, L: Layout, p: nat, pc: nat)
    requires Slot(g, d, n, nFree, L, p, pc)
    ensures L.free[pc] >= 4
  {
    hide ChainOk, Counts, HeaderOk;
  }

  lemma SoundApart(u: nat, L: Layout)
    requires Sound(u, L)
    ensures NoOverlap(L)
  {
  }

  lemma SomeBytes(u: nat, L: Layout, s: nat)
    requires Sound(u, L) && s in L.used
    ensures L.used[s] >= 4
  {
  }

  /** What the sweep needs to know of a well-formed page. */
  lemma PageFacts(g: Geo, d: seq<byte>, n: nat, nFree: int, L: Layout, ps: seq<nat>, cs: seq<seq<byte>>)
    requires Core(g, d, n, nFree, L) && g.CellOffset() + 2 * |ps| <= |d| && Cells(g, d, L.used, ps, cs)
    ensures Sound(g.u, L) && g.u <= 65536 && 1 <= L.top <= g.u && g.hdr + 8 <= |d| && |FragSet(g.u, L)| == d[g.hdr + 7]
    ensures Get2(d, g.hdr + 5) == TopField(L.top) && Names(L.used, ps)
  {
    hide ChainOk;
  }

  /** The part of checkTreePage that checks how the bytes of a page are used. */
  method CheckPage(page: MemPage) returns (silent: bool)
    requires page.Valid() && page.ovfl == []
    ensures silent
  {
    hide Core, Slot, Counts, PtrsOk, SizesOk, Cells, SizeIsLocal, Spell, CellsFrom, FreeTo, C.Disjoint, C.Uncovered;
    var g, d := page.g, page.data;
    ghost var L, D := page.lay, d[..];
    RepOk(g, D, page.nCell, page.nFree, L);
    PageFacts(g, D, page.nCell, page.nFree, L, page.ps, page.cells);
    var contentOffset := page.Read2(g.hdr + 5);
    if contentOffset == 0 { contentOffset := 65536; }
    var cells := CellRanges(page);
    var frees := FreeRanges(page);
    CheckDecides(g.u, L, cells, frees, d[g.hdr + 7]);
    SoundApart(g.u, L);
    silent := C.CoverageCheck(cells, frees, contentOffset, g.u, d[g.hdr + 7]);
  }

  /** The cells, from the last to the first. */
  method CellRanges(page: MemPage) returns (cells: seq<C.Range>)
    requires page.Valid() && page.ovfl == []
    ensures Spell(page.lay.used, cells)
  {
    hide Core, PtrsOk, SizesOk, SizeIsLocal, Spell, CellsFrom, Cells, Names, Sound;
    ghost var L, ps := page.lay, page.ps;
    RepOk(page.g, page.data[..], page.nCell, page.nFree, L);
    PageFacts(page.g, page.data[..], page.nCell, page.nFree, L, ps, page.cells);
    cells := [];
    NoCells(L.used, ps);
    var i := page.nCell;
    while i > 0
      invariant 0 <= i <= page.nCell == |ps| && CellsFrom(L.used, ps, i, cells)
    {
      i := i - 1;
      CellAt(page.g, page.data[..], page.nCell, page.nFree, L, ps, page.cells, i);
      var pc := page.Read2(page.g.CellOffset() + 2 * i);
      var size := page.CellSize(i);
      SomeBytes(page.g.u, L, ps[i]);
      OneCell(L.used, ps, i, cells, size);
      cells := cells + [C.Range(pc, pc + size - 1)];
    }
    CellsSpelt(L.used, ps, cells);
  }

  /** The freeblocks, along the list. */
  method FreeRanges(page: MemPage) returns (frees: seq<C.Range>)
    requires page.Valid()
    ensures Spell(page.lay.free, frees)
  {
    hide Core, Slot, Counts, PtrsOk, SizesOk, Cells, SizeIsLocal, Spell, FreeTo;
    var g := page.g;
    ghost var L, D := page.lay, page.data[..];
    RepOk(g, D, page.nCell, page.nFree, L);
    SlotFirst(g, D, page.nCell, page.nFree, L);
    frees := [];
    var i: nat := page.Read2(g.hdr + 1);
    NoneBefore(L.free, i);
    ghost var p: nat := g.hdr + 1;
    if i != 0 { FreeFits(g, D, page.nCell, page.nFree, L, p, i); }
    while i > 0
      invariant i > 0 ==> Slot(g, D, page.nCell, page.nFree, L, p, i) && i <= g.u
      invariant FreeTo(L.free, i, frees)
      decreases if i == 0 then 0 else g.u + 1 - i
    {
      FreeFits(g, D, page.nCell, page.nFree, L, p, i);
      SlotStep(g, D, page.nCell, page.nFree, L, p, i);
      FourBytes(g, D, page.nCell, page.nFree, L, p, i);
      var size := page.Read2(i + 2);
      var j := page.Read2(i);
      OneFree(L.free, i, j, frees);
      frees := frees + [C.Range(i, i + size - 1)];
      if j != 0 { FreeFits(g, D, page.nCell, page.nFree, L, i, j); }
      p, i := i, j;
    }
    FreeSpelt(L.free, frees);
  }
}
