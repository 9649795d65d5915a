/** Payload that does not fit on its page: the chain of overflow pages, and reading through it. */
module Overflow {
  import opened Results
  import opened Facts
  import opened Bytes

  type Pages = map<nat, seq<byte>>

  function Nth(pgs: seq<nat>, i: nat): nat { if i < |pgs| then pgs[i] else 0 }

  /** The pages pgs, each linked to the next by its first four bytes, hold rest, o bytes a page. */
  ghost predicate Chain(pages: Pages, pgs: seq<nat>, rest: seq<byte>, o: nat) {
    && 0 < o && |rest| <= |pgs| * o && (pgs != [] ==> (|pgs| - 1) * o < |rest|)
    && forall i | 0 <= i < |pgs| :: PageOk(pages, pgs, rest, o, i)
  }

  ghost predicate PageOk(pages: Pages, pgs: seq<nat>, rest: seq<byte>, o: nat, i: nat)
    requires i < |pgs|
  {
    && pgs[i] in pages && pgs[i] >= 2 && |pages[pgs[i]]| == o + 4
    && Get4(pages[pgs[i]], 0) == Nth(pgs, i + 1) && PageHolds(pages[pgs[i]], rest, i * o, o)
  }

  /** How many of the bytes from b on go on one page. */
  function Part(rest: seq<byte>, b: nat, o: nat): nat { if b > |rest| then 0 else if |rest| - b < o then |rest| - b else o }

  /** A page holds the bytes of rest from b on, as many as fit. */
  ghost predicate PageHolds(page: seq<byte>, rest: seq<byte>, b: nat, o: nat) {
    |page| == o + 4 && b <= |rest| && page[4..4 + Part(rest, b, o)] == rest[b..b + Part(rest, b, o)]
  }

  /** Page i of the chain. */
  lemma Link(pages: Pages, pgs: seq<nat>, rest: seq<byte>, o: nat, i: nat)
    requires Chain(pages, pgs, rest, o) && i < |pgs|
    ensures pgs[i] in pages && pgs[i] >= 2 && |pages[pgs[i]]| == o + 4 && Nth(pgs, i) == pgs[i]
    ensures Get4(pages[pgs[i]], 0) == Nth(pgs, i + 1) && PageHolds(pages[pgs[i]], rest, i * o, o)
  {
    assert PageOk(pages, pgs, rest, o, i);
  }

  /** The page that a byte of rest is on. */
  lemma PageOf(pages: Pages, pgs: seq<nat>, rest: seq<byte>, o: nat, i: nat, offset: nat)
    requires Chain(pages, pgs, rest, o) && i * o + offset < |rest|
    ensures i < |pgs| && (offset >= o ==> i + 1 < |pgs| && (i + 1) * o == i * o + o)
  {
    MulLe(|pgs|, i, o);
    MulLe(|pgs|, i + 1, o);
  }

  /** As many pages as the payload needs. */
  lemma PageCount(pages: Pages, pgs: seq<nat>, rest: seq<byte>, o: nat)
    requires Chain(pages, pgs, rest, o)
    ensures (|rest| + o - 1) / o == |pgs|
  {
    if pgs == [] {
      DivIs(|rest| + o - 1, 0, o - 1, o);
    } else {
      assert (|pgs| - 1) * o + o == |pgs| * o;
      DivIs(|rest| + o - 1, |pgs|, |rest| - 1 - (|pgs| - 1) * o, o);
    }
  }

  /** The cursor's list of overflow pages, filled in as they are met: 0 stands for a page not known yet. */
  ghost predicate CacheOk(aOverflow: seq<nat>, pgs: seq<nat>) {
    |aOverflow| >= |pgs| && forall i | 0 <= i < |pgs| :: aOverflow[i] == 0 || aOverflow[i] == pgs[i]
  }

  /** A cursor at an entry: its payload's local part, the first overflow page, and what the chain is. */
  class PayloadCursor {
    var pages: Pages
    var nPayload: nat
    var local: seq<byte>
    var firstOvfl: nat
    const ovflSize: nat
    var validOvfl: bool
    var aOverflow: seq<nat>
    ghost var payload: seq<byte>
    ghost var pgs: seq<nat>

    ghost predicate Valid()
      reads this
    {
      && nPayload == |payload| && |local| <= |payload| && local == payload[..|local|] && firstOvfl == Nth(pgs, 0)
      && Chain(pages, pgs, payload[|local|..], ovflSize)
      && (validOvfl ==> CacheOk(aOverflow, pgs))
    }

    constructor (p: Pages, loc: seq<byte>, first: nat, n: nat, o: nat, ghost whole: seq<byte>, ghost chain: seq<nat>)
      requires n == |whole| && |loc| <= |whole| && loc == whole[..|loc|] && first == Nth(chain, 0) && Chain(p, chain, whole[|loc|..], o)
      ensures Valid() && payload == whole && !validOvfl
    {
      pages, local, firstOvfl, nPayload, ovflSize := p, loc, first, n, o;
      validOvfl, aOverflow := false, [];
      payload, pgs := whole, chain;
    }

    /** accessPayload, reading: amt bytes from offset on. */
    method AccessPayload(offset0: nat, amt0: nat) returns (rc: Rc, buf: seq<byte>)
      requires Valid() && offset0 + amt0 <= nPayload
      modifies this`validOvfl, this`aOverflow
      ensures Valid() && rc == OK && buf == payload[offset0..offset0 + amt0]
    {
      hide Chain, CacheOk;
      rc, buf := OK, [];
      var offset, amt := offset0, amt0;
      if offset < |local| {
        var a := if amt + offset > |local| then |local| - offset else amt;
        buf := local[offset..offset + a];
        offset, amt := 0, amt - a;
      } else {
        offset := offset - |local|;
      }
      if amt > 0 {
        var more;
        rc, more := ReadChain(offset, amt);
        Pieces(payload, |local|, offset0, amt0, offset, amt, buf, more);
        buf := buf + more;
      }
    }

    /** Where to begin: at the first page, or at the page of the offset if the list has it. The list is set up if there is none. */
    method Begin(offset0: nat) returns (iIdx: nat, nextPage: nat, offset: nat)
      requires Valid() && offset0 < |payload| - |local|
      modifies this`validOvfl, this`aOverflow
      ensures Valid() && validOvfl && nextPage == Nth(pgs, iIdx) && iIdx * ovflSize + offset == offset0
    {
      hide Chain, CacheOk;
      iIdx, nextPage, offset := 0, firstOvfl, offset0;
      if !validOvfl {
        PageCount(pages, pgs, payload[|local|..], ovflSize);
        NotEmpty(pages, pgs, payload[|local|..], ovflSize);
        var nOvfl := (nPayload - |local| + ovflSize - 1) / ovflSize;
        aOverflow := seq(nOvfl, _ => 0);
        validOvfl := true;
        BlankCache(aOverflow, pgs);
      }
      Jump(pages, pgs, payload[|local|..], ovflSize, offset, aOverflow);
      if aOverflow[offset / ovflSize] != 0 {
        iIdx := offset / ovflSize;
        nextPage := aOverflow[iIdx];
        offset := offset % ovflSize;
      }
    }

    /** The part of accessPayload that follows the chain. */
    method ReadChain(offset0: nat, amt0: nat) returns (rc: Rc, buf: seq<byte>)
      requires Valid() && amt0 > 0 && |local| <= |payload| && offset0 + amt0 <= |payload| - |local|
      modifies this`validOvfl, this`aOverflow
      ensures Valid() && rc == OK && buf == payload[|local|..][offset0..offset0 + amt0]
    {
      hide PayloadCursor.Valid;
      ghost var rest := payload[|local|..];
      var iIdx: nat, nextPage: nat, offset: nat := Begin(offset0);
      var amt: nat := amt0;
      rc, buf := OK, [];
      ghost var base := iIdx * ovflSize;
      while amt > 0 && nextPage != 0
        invariant amt <= amt0 && Valid() && validOvfl && base == iIdx * ovflSize
        invariant amt > 0 ==> nextPage == Nth(pgs, iIdx) && base + offset + amt == offset0 + amt0
        invariant buf == rest[offset0..offset0 + amt0 - amt]
        decreases amt, offset
      {
        var more;
        ghost var at := offset0 + amt0 - amt;
        nextPage, offset, amt, more := Turn(nextPage, iIdx, base, offset, amt);
        Slices(rest, offset0, at, at + |more|);
        buf := buf + more;
        NextStart(iIdx, ovflSize);
        iIdx, base := iIdx + 1, base + ovflSize;
      }
      if amt > 0 { Here(iIdx, base, offset); }
    }

    /** One page of the chain: skipped, if the offset is past it, or read. The page holds the bytes from base on. */
    method Turn(nextPage: nat, iIdx: nat, ghost base: nat, offset: nat, amt: nat) returns (next2: nat, offset2: nat, amt2: nat, more: seq<byte>)
      requires Valid() && validOvfl && amt > 0 && nextPage == Nth(pgs, iIdx) && base == iIdx * ovflSize
      requires base + offset + amt <= |payload| - |local|
      modifies this`aOverflow
      ensures Valid() && amt2 + |more| == amt && (amt2 < amt || (amt2 == amt && offset2 < offset))
      ensures more == payload[|local|..][base + offset..base + offset + |more|]
      ensures amt2 > 0 ==> next2 == Nth(pgs, iIdx + 1) && base + ovflSize + offset2 == base + offset + |more|
    {
      hide Chain, CacheOk, PageHolds;
      Here(iIdx, base, offset);
      CacheAt(aOverflow, pgs, iIdx);
      aOverflow := aOverflow[iIdx := nextPage];
      if offset >= ovflSize {
        CacheAt(aOverflow, pgs, iIdx + 1);
        next2 := if aOverflow[iIdx + 1] != 0 then aOverflow[iIdx + 1] else Get4(pages[nextPage], 0);
        offset2, amt2, more := offset - ovflSize, amt, [];
      } else {
        var a := if amt + offset > ovflSize then ovflSize - offset else amt;
        var page := pages[nextPage];
        next2 := Get4(page, 0);
        ReadPage(page, payload[|local|..], base, ovflSize, offset, a, base + offset);
        more := page[offset + 4..offset + 4 + a];
        offset2, amt2 := 0, amt - a;
      }
    }

    lemma Here(iIdx: nat, base: nat, offset: nat)
      requires Valid() && base == iIdx * ovflSize && base + offset < |payload| - |local|
      ensures ovflSize > 0 && iIdx < |pgs| && (offset >= ovflSize ==> iIdx + 1 < |pgs| && Nth(pgs, iIdx + 1) == pgs[iIdx + 1] != 0)
      ensures pgs[iIdx] in pages && |pages[pgs[iIdx]]| == ovflSize + 4 && Nth(pgs, iIdx) == pgs[iIdx] && pgs[iIdx] != 0
      ensures Get4(pages[pgs[iIdx]], 0) == Nth(pgs, iIdx + 1) && PageHolds(pages[pgs[iIdx]], payload[|local|..], base, ovflSize)
    {
      hide Chain, CacheOk, PageHolds;
      var rest := payload[|local|..];
      PageOf(pages, pgs, rest, ovflSize, iIdx, offset);
      Link(pages, pgs, rest, ovflSize, iIdx);
      NotEmpty(pages, pgs, rest, ovflSize);
      if offset >= ovflSize { Link(pages, pgs, rest, ovflSize, iIdx + 1); }
    }
  }

  lemma NextStart(i: nat, o: nat)
    ensures (i + 1) * o == i * o + o
  {
  }

  lemma Pieces(payload: seq<byte>, l: nat, offset0: nat, amt0: nat, offset: nat, amt: nat, buf: seq<byte>, more: seq<byte>)
    requires l <= |payload| && offset0 + amt0 <= |payload| && amt > 0
    requires offset0 < l ==> offset == 0 && amt0 == amt + (l - offset0) && buf == payload[offset0..l]
    requires offset0 >= l ==> offset == offset0 - l && amt == amt0 && buf == []
    requires offset + amt <= |payload| - l && more == payload[l..][offset..offset + amt]
    ensures buf + more == payload[offset0..offset0 + amt0]
  {
    assert more == payload[l + offset..l + offset + amt];
  }

  lemma Slices(s: seq<byte>, a: nat, b: nat, c: nat)
    requires a <= b <= c <= |s|
    ensures s[a..b] + s[b..c] == s[a..c]
  {
  }

  lemma SubSlice(s: seq<byte>, i: nat, n: nat, x: nat, y: nat)
    requires i + n <= |s| && x <= y <= n
    ensures s[i..i + n][x..y] == s[i + x..i + y]
  {
    var t, u, v := s[i..i + n], s[i..i + n][x..y], s[i + x..i + y];
    forall k | 0 <= k < y - x ensures u[k] == v[k] { assert u[k] == t[x + k] == s[i + (x + k)]; }
    assert |u| == |v|;
  }

  lemma NotEmpty(pages: Pages, pgs: seq<nat>, rest: seq<byte>, o: nat)
    requires Chain(pages, pgs, rest, o)
    ensures o > 0
  {
  }

  lemma BlankCache(a: seq<nat>, pgs: seq<nat>)
    requires |a| == |pgs| && forall i | 0 <= i < |a| :: a[i] == 0
    ensures CacheOk(a, pgs)
  {
  }

  lemma CacheAt(a: seq<nat>, pgs: seq<nat>, i: nat)
    requires CacheOk(a, pgs) && i < |pgs|
    ensures i < |a| && (a[i] == 0 || a[i] == pgs[i]) && CacheOk(a[i := pgs[i]], pgs)
  {
  }

  /** Where in the chain a byte is. */
  lemma Jump(pages: Pages, pgs: seq<nat>, rest: seq<byte>, o: nat, offset: nat, a: seq<nat>)
    requires Chain(pages, pgs, rest, o) && offset < |rest| && CacheOk(a, pgs)
    ensures o > 0 && offset / o < |pgs| <= |a| && offset / o * o + offset % o == offset
    ensures a[offset / o] != 0 ==> a[offset / o] == Nth(pgs, offset / o)
  {
    PageOf(pages, pgs, rest, o, offset / o, offset % o);
  }

  lemma ReadPage(page: seq<byte>, rest: seq<byte>, b: nat, o: nat, offset: nat, a: nat, from: nat)
    requires PageHolds(page, rest, b, o) && offset + a <= o && b + offset + a <= |rest| && from == b + offset
    ensures page[offset + 4..offset + 4 + a] == rest[from..from + a]
  {
    var n := Part(rest, b, o);
    assert offset + a <= n;
    SubSlice(page, 4, n, offset, offset + a);
    SubSlice(rest, b, n, offset, offset + a);
  }

  /** clearCell: the overflow pages of a cell are freed, from the first to the last. */
  method ClearCell(pages: Pages, nPayload: nat, nLocal: nat, first: nat, o: nat, nPage: nat, ghost pgs: seq<nat>, ghost rest: seq<byte>)
    returns (rc: Rc, freed: seq<nat>)
    requires Chain(pages, pgs, rest, o) && nLocal <= nPayload && |rest| == nPayload - nLocal && first == Nth(pgs, 0)
    requires forall i | 0 <= i < |pgs| :: pgs[i] <= nPage
    ensures rc == OK && freed == pgs
  {
    hide Chain;
    rc, freed := OK, [];
    NotEmpty(pages, pgs, rest, o);
    PageCount(pages, pgs, rest, o);
    if nLocal == nPayload { DivIs(o - 1, 0, o - 1, o); return; }
    var ovflPgno := first;
    var nOvfl: nat := (nPayload - nLocal + o - 1) / o;
    while nOvfl > 0
      invariant nOvfl <= |pgs| && freed == pgs[..|pgs| - nOvfl] && (nOvfl > 0 ==> ovflPgno == Nth(pgs, |pgs| - nOvfl))
    {
      Link(pages, pgs, rest, o, |pgs| - nOvfl);
      nOvfl := nOvfl - 1;
      var iNext := 0;
      if ovflPgno < 2 || ovflPgno > nPage { rc := CORRUPT; return; }
      if nOvfl > 0 { iNext := Get4(pages[ovflPgno], 0); }
      freed := freed + [ovflPgno];
      ovflPgno := iNext;
    }
  }
}
