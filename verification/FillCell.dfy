/** fillInCell: a cell and its overflow pages from a key and its data. */
module FillCell {
  import opened Results
  import opened Facts
  import opened Bytes
  import opened Varint
  import opened Overflow
  import opened Cells
  import opened Page
  import opened PageCells

  /** Pages the allocator will hand out: none of them in use, none twice. */
  ghost predicate Fresh(pages: Pages, alloc: seq<nat>) {
    && (forall i | 0 <= i < |alloc| :: 2 <= alloc[i] < P32 && alloc[i] !in pages)
    && forall i, j | 0 <= i < j < |alloc| :: alloc[i] != alloc[j]
  }

  /** The pages pgs are added, and all others are as before. */
  ghost predicate Added(pages: Pages, pages2: Pages, pgs: seq<nat>) {
    && (forall p :: p in pages2 <==> p in pages || p in pgs)
    && (forall p | p in pages && p !in pgs :: pages2[p] == pages[p])
  }

  lemma Pasted(page: seq<byte>, at: nat, chunk: seq<byte>)
    requires at + |chunk| <= |page|
    ensures Splice(page, at, chunk)[at..at + |chunk|] == chunk && Splice(page, at, chunk)[..at] == page[..at]
    ensures at >= 4 ==> Get4(Splice(page, at, chunk), 0) == Get4(page, 0)
  {
  }

  ghost predicate Apart(pgs: seq<nat>) { forall i, j | 0 <= i < j < |pgs| :: pgs[i] != pgs[j] }

  lemma MulStep(i: nat, n: nat, o: nat)
    requires i < n
    ensures i * o + o <= n * o
  {
    assert (i + 1) * o <= n * o by { MulLe(i + 1, n, o); }
  }

  /** A page that is full stays as it is when more bytes come. */
  lemma FullPage(page: seq<byte>, rest: seq<byte>, done: nat, more: nat, b: nat, o: nat)
    requires done <= more <= |rest| && b + o <= done && PageHolds(page, rest[..done], b, o)
    ensures PageHolds(page, rest[..more], b, o)
  {
    assert rest[..done][b..b + o] == rest[..more][b..b + o];
  }

  /** The last page, with a chunk more. */
  lemma LastPage(page: seq<byte>, rest: seq<byte>, done: nat, n: nat, b: nat, o: nat, off: nat)
    requires done + n <= |rest| && done == b + off && off + n <= o && PageHolds(page, rest[..done], b, o)
    ensures PageHolds(Splice(page, 4 + off, rest[done..done + n]), rest[..done + n], b, o)
  {
    var chunk := rest[done..done + n];
    var p2 := Splice(page, 4 + off, chunk);
    assert Part(rest[..done], b, o) == off && Part(rest[..done + n], b, o) == off + n;
    assert p2[4..4 + off] == page[4..4 + off];
    assert p2[4..4 + (off + n)] == p2[4..4 + off] + chunk;
    assert rest[..done + n][b..b + (off + n)] == rest[..done][b..b + off] + chunk;
  }

  /** Bytes from done on go on the last page of the chain. */
  lemma Extend(pages: Pages, pgs: seq<nat>, rest: seq<byte>, done: nat, n: nat, o: nat, off: nat)
    requires pgs != [] && done + n <= |rest| && Chain(pages, pgs, rest[..done], o) && done == (|pgs| - 1) * o + off && off + n <= o
    requires Apart(pgs)
    ensures var last := pgs[|pgs| - 1];
      last in pages && 4 + off + n <= |pages[last]|
      && Chain(pages[last := Splice(pages[last], 4 + off, rest[done..done + n])], pgs, rest[..done + n], o)
  {
    hide PageHolds, Splice;
    var t := |pgs| - 1;
    var last := pgs[t];
    assert PageOk(pages, pgs, rest[..done], o, t);
    var pages2 := pages[last := Splice(pages[last], 4 + off, rest[done..done + n])];
    NextStart(t, o);
    var r2 := rest[..done + n];
    forall i | 0 <= i < |pgs| ensures PageOk(pages2, pgs, r2, o, i) {
      assert PageOk(pages, pgs, rest[..done], o, i);
      if i < t {
        MulStep(i, t, o);
        FullPage(pages[pgs[i]], rest, done, done + n, i * o, o);
      } else {
        LastPage(pages[last], rest, done, n, t * o, o, off);
        Pasted(pages[last], 4 + off, rest[done..done + n]);
      }
    }
  }

  /** A full chain goes on with a new page. */
  lemma NewPage(pages: Pages, pgs: seq<nat>, rest: seq<byte>, done: nat, n: nat, o: nat, pgno: nat, page: seq<byte>, pages2: Pages)
    requires done + n <= |rest| && 0 < n <= o && Chain(pages, pgs, rest[..done], o) && done == |pgs| * o
    requires 2 <= pgno < P32 && pgno !in pgs && Apart(pgs)
    requires |page| == o + 4 && Get4(page, 0) == 0 && PageHolds(page, rest[..done + n], done, o)
    requires pgno in pages2 && pages2[pgno] == page
    requires forall i | 0 <= i < |pgs| :: pgs[i] in pages2 && (pgs[i] in pages ==>
      pages2[pgs[i]] == if i == |pgs| - 1 then (if |pages[pgs[i]]| >= 4 then Put4(pages[pgs[i]], 0, pgno) else pages[pgs[i]]) else pages[pgs[i]])
    ensures Chain(pages2, pgs + [pgno], rest[..done + n], o)
  {
    hide PageHolds, Put4, Get4;
    var pgs2 := pgs + [pgno];
    NextStart(|pgs|, o);
    var r2 := rest[..done + n];
    forall i | 0 <= i < |pgs2| ensures PageOk(pages2, pgs2, r2, o, i) {
      if i < |pgs| {
        assert PageOk(pages, pgs, rest[..done], o, i);
        MulStep(i, |pgs|, o);
        FullPage(pages[pgs[i]], rest, done, done + n, i * o, o);
        if i == |pgs| - 1 { Relinked(pages[pgs[i]], pgno, rest[..done + n], i * o, o); }
      }
    }
  }

  lemma Relinked(page: seq<byte>, pgno: nat, rest: seq<byte>, b: nat, o: nat)
    requires |page| == o + 4 && pgno < P32 && PageHolds(page, rest, b, o)
    ensures Get4(Put4(page, 0, pgno), 0) == pgno && PageHolds(Put4(page, 0, pgno), rest, b, o)
  {
    assert Put4(page, 0, pgno)[4..] == page[4..];
    var n := Part(rest, b, o);
    assert Put4(page, 0, pgno)[4..4 + n] == Put4(page, 0, pgno)[4..][..n] && page[4..4 + n] == page[4..][..n];
  }

  /** A new overflow page after those of the chain, with the first bytes to go on it. */
  method StartPage(pages: Pages, last: nat, ghost pgs: seq<nat>, pgno: nat, chunk: seq<byte>, o: nat, ghost rest: seq<byte>, ghost done: nat) returns (pages2: Pages)
    requires 0 < |chunk| <= o && done + |chunk| <= |rest| && chunk == rest[done..done + |chunk|]
    requires Chain(pages, pgs, rest[..done], o) && done == |pgs| * o && 2 <= pgno < P32 && pgno !in pgs && Apart(pgs)
    requires last == if pgs == [] then 0 else pgs[|pgs| - 1]
    ensures Chain(pages2, pgs + [pgno], rest[..done + |chunk|], o) && pages2.Keys == pages.Keys + {pgno}
    ensures forall p | p in pages && p != pgno && p !in pgs :: pages2[p] == pages[p]
  {
    hide Chain, PageHolds, Put4, Get4, Splice;
    pages2 := pages;
    if pgs != [] { Link(pages, pgs, rest[..done], o, |pgs| - 1); }
    if last != 0 {
      pages2 := pages2[last := Put4(pages2[last], 0, pgno)];
    }
    var page := Splice(Put4(Zero(o + 4), 0, 0), 4, chunk);
    BlankPage(o, chunk, rest, done);
    pages2 := pages2[pgno := page];
    AllLinks(pages, pgs, rest[..done], o);
    NewPage(pages, pgs, rest, done, |chunk|, o, pgno, page, pages2);
  }

  lemma AllLinks(pages: Pages, pgs: seq<nat>, rest: seq<byte>, o: nat)
    requires Chain(pages, pgs, rest, o)
    ensures forall i | 0 <= i < |pgs| :: pgs[i] in pages && |pages[pgs[i]]| >= 4
  {
    forall i | 0 <= i < |pgs| ensures pgs[i] in pages && |pages[pgs[i]]| >= 4 { Link(pages, pgs, rest, o, i); }
  }

  lemma BlankPage(o: nat, chunk: seq<byte>, rest: seq<byte>, done: nat)
    requires 0 < |chunk| <= o && done + |chunk| <= |rest| && chunk == rest[done..done + |chunk|]
    ensures var page := Splice(Put4(Zero(o + 4), 0, 0), 4, chunk);
      |page| == o + 4 && Get4(page, 0) == 0 && PageHolds(page, rest[..done + |chunk|], done, o)
  {
    var z := Put4(Zero(o + 4), 0, 0);
    Pasted(z, 4, chunk);
    assert Part(rest[..done + |chunk|], done, o) == |chunk|;
  }

  /** The bytes to write next: of the data, or zeros after it. */
  method NextChunk(data: seq<byte>, nZero: nat, pos: nat, room: nat) returns (chunk: seq<byte>)
    requires pos < |data| + nZero && 0 < room
    ensures 0 < |chunk| <= room && pos + |chunk| <= |data| + nZero && chunk == (data + Zero(nZero))[pos..pos + |chunk|]
  {
    var n := |data| + nZero - pos;
    if n > room { n := room; }
    if pos < |data| {
      if n > |data| - pos { n := |data| - pos; }
      chunk := data[pos..pos + n];
    } else {
      chunk := Zero(n);
    }
  }

  /** The overflow pages of a payload: the bytes from pos = nLocal on are written to pages as they are allocated. */
  method FillChain(data: seq<byte>, nZero: nat, nLocal: nat, o: nat, alloc: seq<nat>, pages: Pages) returns (pages2: Pages, pgs: seq<nat>, first: nat)
    requires 0 < o && nLocal < |data| + nZero && Fresh(pages, alloc) && |alloc| >= |data| + nZero
    ensures Chain(pages2, pgs, (data + Zero(nZero))[nLocal..], o) && first == Nth(pgs, 0) && Added(pages, pages2, pgs)
    ensures pgs <= alloc && pgs != []
  {
    hide Chain, Added, Fresh, Apart, Splice;
    ghost var rest := (data + Zero(nZero))[nLocal..];
    pages2, pgs, first := pages, [], 0;
    var pos: nat, spaceLeft: nat, last: nat, t: nat := nLocal, 0, 0, 0;
    EmptyChain(pages, rest, o);
    AddedAll(pages);
    while pos < |data| + nZero
      invariant nLocal <= pos <= |data| + nZero && spaceLeft <= o && t == |pgs| <= pos - nLocal
      invariant Chain(pages2, pgs, rest[..pos - nLocal], o) && |pgs| * o == pos - nLocal + spaceLeft
      invariant pgs == alloc[..|pgs|] && last == (if pgs == [] then 0 else pgs[|pgs| - 1]) && first == Nth(pgs, 0)
      invariant Added(pages, pages2, pgs) && (pos > nLocal ==> pgs != [])
    {
      ghost var done := pos - nLocal;
      AllocApart(pages, alloc, t);
      if spaceLeft == 0 {
        var chunk := NextChunk(data, nZero, pos, o);
        ChunkOf(data, nZero, nLocal, pos, chunk);
        var pgno := alloc[t];
        ghost var was := pages2;
        pages2 := StartPage(pages2, last, pgs, pgno, chunk, o, rest, done);
        AddedNew(pages, was, pages2, pgs, pgno);
        NextStart(|pgs|, o);
        pgs := pgs + [pgno];
        if t == 0 { first := pgno; }
        last, t := pgno, t + 1;
        pos, spaceLeft := pos + |chunk|, o - |chunk|;
      } else {
        var chunk := NextChunk(data, nZero, pos, spaceLeft);
        ChunkOf(data, nZero, nLocal, pos, chunk);
        NextStart(|pgs| - 1, o);
        Extend(pages2, pgs, rest, done, |chunk|, o, o - spaceLeft);
        ghost var was := pages2;
        pages2 := pages2[last := Splice(pages2[last], 4 + (o - spaceLeft), chunk)];
        AddedLast(pages, was, pages2, pgs, last);
        pos, spaceLeft := pos + |chunk|, spaceLeft - |chunk|;
      }
    }
    assert rest[..|rest|] == rest;
  }

  lemma EmptyChain(pages: Pages, rest: seq<byte>, o: nat)
    requires 0 < o
    ensures Chain(pages, [], rest[..0], o)
  {
  }

  lemma AddedAll(pages: Pages)
    ensures Added(pages, pages, [])
  {
  }

  lemma AllocApart(pages: Pages, alloc: seq<nat>, t: nat)
    requires Fresh(pages, alloc) && t < |alloc|
    ensures 2 <= alloc[t] < P32 && alloc[t] !in alloc[..t] && Apart(alloc[..t]) && alloc[..t + 1] == alloc[..t] + [alloc[t]]
  {
  }

  lemma ChunkOf(data: seq<byte>, nZero: nat, nLocal: nat, pos: nat, chunk: seq<byte>)
    requires nLocal <= pos && pos + |chunk| <= |data| + nZero && chunk == (data + Zero(nZero))[pos..pos + |chunk|]
    ensures var rest := (data + Zero(nZero))[nLocal..]; chunk == rest[pos - nLocal..pos - nLocal + |chunk|]
  {
  }

  lemma AddedNew(pages: Pages, was: Pages, pages2: Pages, pgs: seq<nat>, pgno: nat)
    requires Added(pages, was, pgs) && pages2.Keys == was.Keys + {pgno} && forall p | p in was && p != pgno && p !in pgs :: pages2[p] == was[p]
    ensures Added(pages, pages2, pgs + [pgno])
  {
  }

  lemma AddedLast(pages: Pages, was: Pages, pages2: Pages, pgs: seq<nat>, last: nat)
    requires Added(pages, was, pgs) && last in pgs && pages2.Keys == was.Keys + {last} && forall p | p in was && p != last :: pages2[p] == was[p]
    ensures Added(pages, pages2, pgs)
  {
  }

  /** fillInCell */
  method FillInCell(k: Kind, nKey: nat, data: seq<byte>, nZero: nat, alloc: seq<nat>, pages: Pages)
    returns (cell: seq<byte>, nSize: nat, pages2: Pages, pgs: seq<nat>)
    requires k.Ok() && nKey < P64 && |data| + nZero < P32 && (!k.intKey ==> nZero == 0 && nKey == |data|)
    requires Fresh(pages, alloc) && |alloc| >= |data| + nZero
    ensures var payload := data + Zero(nZero);
      && cell == CellBytes(k, nKey, payload, Nth(pgs, 0)) && nSize == |cell|
      && Chain(pages2, pgs, payload[LocalSize(k, |payload|)..], k.usable - 4) && Added(pages, pages2, pgs) && pgs <= alloc
  {
    hide PutVarint, Chain, Added, Fresh, Big4, LocalSize;
    ghost var payload := data + Zero(nZero);
    var nPayload := |data| + nZero;
    cell := Zero(k.Ptr()) + (PutVarint(nPayload) + if k.intKey then PutVarint(nKey) else []);
    var nLocal := nPayload;
    if nPayload <= k.maxLocal {
      LocalIs(k, nPayload, nLocal);
    } else {
      nLocal := k.minLocal + (nPayload - k.minLocal) % (k.usable - 4);
      if nLocal > k.maxLocal { nLocal := k.minLocal; }
      LocalIs(k, nPayload, nLocal);
    }
    var part := LocalPart(data, nZero, nLocal);
    pages2, pgs := pages, [];
    var link := [];
    if nLocal < nPayload {
      var first;
      pages2, pgs, first := FillChain(data, nZero, nLocal, k.usable - 4, alloc, pages);
      link := Big4(first);
    } else {
      assert payload[nLocal..] == [][..0];
      EmptyChain(pages, [], k.usable - 4);
      AddedAll(pages);
    }
    cell := cell + (part + link);
    if |cell| < 4 { cell := cell + Zero(4 - |cell|); }
    nSize := |cell|;
  }

  /** The bytes of the payload that stay on the page. */
  method LocalPart(data: seq<byte>, nZero: nat, nLocal: nat) returns (part: seq<byte>)
    requires nLocal <= |data| + nZero
    ensures part == (data + Zero(nZero))[..nLocal]
  {
    part := [];
    while |part| < nLocal
      invariant |part| <= nLocal && part == (data + Zero(nZero))[..|part|]
      decreases nLocal - |part|
    {
      var chunk := NextChunk(data, nZero, |part|, nLocal - |part|);
      Joined(data + Zero(nZero), |part|, chunk);
      part := part + chunk;
    }
  }

  lemma Joined(s: seq<byte>, i: nat, chunk: seq<byte>)
    requires i + |chunk| <= |s| && chunk == s[i..i + |chunk|]
    ensures s[..i] + chunk == s[..i + |chunk|]
  {
  }

  /** A cell that was written is read back whole, from any place to any other, and clearing it frees just the pages that were added. */
  method RoundTrip(k: Kind, nKey: nat, data: seq<byte>, nZero: nat, alloc: seq<nat>, pages: Pages, offset: nat, amt: nat, nPage: nat)
    returns (info: CellInfo, size: nat, rc: Rc, buf: seq<byte>, freed: seq<nat>, pages2: Pages)
    requires k.Ok() && nKey < P64 && |data| + nZero < P32 && (!k.intKey ==> nZero == 0 && nKey == |data|)
    requires Fresh(pages, alloc) && |alloc| >= |data| + nZero && offset + amt <= |data| + nZero
    requires forall i | 0 <= i < |alloc| :: alloc[i] <= nPage
    ensures info.nKey == nKey && info.nPayload == |data| + nZero && size == info.nSize
    ensures rc == OK && buf == (data + Zero(nZero))[offset..offset + amt]
    ensures freed <= alloc && Added(pages, pages2, freed)
  {
    hide PutVarint, Chain, Added, Big4, LocalSize, CellBytes, Fresh;
    ghost var payload := data + Zero(nZero);
    var cell, nSize, pgs;
    cell, nSize, pages2, pgs := FillInCell(k, nKey, data, nZero, alloc, pages);
    ghost var rest := payload[LocalSize(k, |payload|)..];
    FirstPage(pages, pgs, alloc);
    assert cell[0..|cell|] == cell;
    info := ParseCell(k, cell, nKey, payload, Nth(pgs, 0));
    size := CellSize(k, cell, nKey, payload, Nth(pgs, 0));
    var first := 0;
    if info.nLocal < info.nPayload { first := Get4(cell, info.nSize - 4); } else { NoPages(pages2, pgs, rest, k.usable - 4); }
    var cur := new PayloadCursor(pages2, cell[info.at..info.at + info.nLocal], first, info.nPayload, k.usable - 4, payload, pgs);
    rc, buf := cur.AccessPayload(0, info.nPayload);
    rc, buf := cur.AccessPayload(offset, amt);
    rc, freed := ClearCell(pages2, info.nPayload, info.nLocal, first, k.usable - 4, nPage, pgs, rest);
  }

  lemma FirstPage(pages: Pages, pgs: seq<nat>, alloc: seq<nat>)
    requires pgs <= alloc && Fresh(pages, alloc)
    ensures Nth(pgs, 0) < P32 && forall i | 0 <= i < |pgs| :: pgs[i] == alloc[i]
  {
  }

  lemma NoPages(pages: Pages, pgs: seq<nat>, rest: seq<byte>, o: nat)
    requires Chain(pages, pgs, rest, o) && rest == []
    ensures pgs == []
  {
    PageCount(pages, pgs, rest, o);
    DivIs(o - 1, 0, o - 1, o);
  }

  /** A page that measures cells by scanning them takes each cell at its size. */
  lemma FitsPage(g: Geo, k: Kind, nKey: nat, payload: seq<byte>, first: nat)
    requires k.Ok() && nKey < P64 && |payload| < P32 && g.sizeOf == Sizer(k)
    ensures SizeIsLocal(g.sizeOf) && CellSized(g, CellBytes(k, nKey, payload, first))
  {
    hide CellBytes, SizeOf;
    var c := CellBytes(k, nKey, payload, first);
    SizeLocal(k);
    assert c[0..|c|] == c;
    SizeOfCell(k, c, nKey, payload, first);
    AtLeastFour(k, nKey, payload, first);
  }

  lemma AtLeastFour(k: Kind, nKey: nat, payload: seq<byte>, first: nat)
    requires k.Ok() && nKey < P64 && |payload| < P32
    ensures |CellBytes(k, nKey, payload, first)| >= 4
  {
    hide Local;
  }
}
