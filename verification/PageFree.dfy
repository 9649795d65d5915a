/** The bytes freeSpace writes, and why they encode the freed layout. */
module PageFree {
  import opened Bytes
  import opened Layout
  import opened FreeList
  import opened Page

  /** The list link at p made to point at a freeblock at s of the given size, which links on to next. */
  function ListBytes(d: seq<byte>, p: nat, s: nat, next: nat, size: nat): (r: seq<byte>)
    requires p + 2 <= |d| && s + 4 <= |d|
    ensures |r| == |d|
  {
    Put2(Put2(Put2(d, p, s), s, next), s + 2, size)
  }

  /** The list head and the content offset field. */
  function TopBytes(d: seq<byte>, hdr: nat, next: nat, top: nat): (r: seq<byte>)
    requires hdr + 8 <= |d|
    ensures |r| == |d|
  {
    Put2(Put2(d, hdr + 1, next), hdr + 5, TopField(top))
  }

  lemma ListBytesGet(d: seq<byte>, p: nat, s: nat, next: nat, size: nat, at: nat)
    requires p + 2 <= |d| && s + 4 <= |d| && at + 2 <= |d|
    requires p == s || p + 2 <= s
    requires s < 65536 && next < 65536 && size < 65536
    ensures Get2(ListBytes(d, p, s, next, size), s) == next
    ensures Get2(ListBytes(d, p, s, next, size), s + 2) == size
    ensures p != s ==> Get2(ListBytes(d, p, s, next, size), p) == s
    ensures (at + 2 <= p || p + 2 <= at) && (at + 2 <= s || s + 4 <= at) ==>
              Get2(ListBytes(d, p, s, next, size), at) == Get2(d, at)
  {
  }

  lemma TopBytesGet(d: seq<byte>, hdr: nat, next: nat, top: nat, at: nat)
    requires hdr + 8 <= |d| && at + 2 <= |d| && next < 65536 && top <= 65536
    ensures Get2(TopBytes(d, hdr, next, top), hdr + 1) == next
    ensures Get2(TopBytes(d, hdr, next, top), hdr + 5) == TopField(top)
    ensures Get2(TopBytes(d, hdr, next, top), hdr + 3) == Get2(d, hdr + 3)
    ensures hdr + 7 <= at ==> Get2(TopBytes(d, hdr, next, top), at) == Get2(d, at)
  {
  }

  /** The parts of Core that the freeblock list needs. */
  ghost predicate Freeing(g: Geo, d: seq<byte>, L: Layout, x: nat, p: nat, n: nat) {
    && g.Ok() && g.u <= |d|
    && Sound(g.u, L) && Ready(L, g.hdr + 1, p, x, n)
    && g.hdr + 8 <= L.gap
    && ChainOk(g, d, L.free)
  }

  /** The value of the link that follows the joined block. */
  ghost function After(d: seq<byte>, L: Layout, x: nat, n: nat): nat
    requires x in L.used && n + 2 <= |d|
  {
    if JoinsNext(L, x, n) then Get2(d, n) else n
  }

  lemma FreeingOk(g: Geo, d: seq<byte>, L: Layout, x: nat, p: nat, n: nat)
    requires Freeing(g, d, L, x, p, n)
    ensures FreeingBounds(g, d, L, x, p, n)
    ensures After(d, L, x, n) < 65536
  {
    Order(g.u, L, g.hdr + 1, p, x, n);
  }

  lemma LinkApart(g: Geo, d: seq<byte>, L: Layout, x: nat, p: nat, n: nat, at: nat)
    requires Freeing(g, d, L, x, p, n)
    requires at in Rest(L, x, n, p)
    ensures n == 0 || n in L.free
    ensures at in L.free && at + 4 <= |d| && g.hdr + 8 <= at
    ensures at == p || at + 4 <= p || p + 4 <= at
    ensures at + 4 <= NewStart(L, x, p) || NewEnd(L, x, n) + 4 <= at
  {
    Order(g.u, L, g.hdr + 1, p, x, n);
    RestFar(g.u, L, g.hdr + 1, p, x, n, at);
  }

  /** Case one: the joined block goes on the list. */
  lemma ListLink(g: Geo, d: seq<byte>, L: Layout, x: nat, p: nat, n: nat, at: nat)
    requires Freeing(g, d, L, x, p, n)
    requires NewStart(L, x, p) != L.top
    requires n + 2 <= |d| && (n == 0 || n in L.free) && NewStart(L, x, p) + 4 <= NewEnd(L, x, n) <= g.u
    requires at == g.hdr + 1 || at in Rest(L, x, n, p) || at == NewStart(L, x, p)
    ensures p + 2 <= |d|
    ensures LinkOk(ListBytes(d, p, NewStart(L, x, p), After(d, L, x, n), NewEnd(L, x, n) - NewStart(L, x, p)),
                   Freed(L, x, n, p).free, at)
  {
    hide ListBytes, Freed, Sound, IsNext, NewStart, NewEnd, Rest;
    FreeingOk(g, d, L, x, p, n);
    var s, e, a := NewStart(L, x, p), NewEnd(L, x, n), After(d, L, x, n);
    var from := if at == s && at != p then p else at;
    if at in Rest(L, x, n, p) { LinkApart(g, d, L, x, p, n, at); }
    assert LinkOk(d, L.free, from) && (n != 0 ==> LinkOk(d, L.free, n));
    LinkFreed(g.u, L, g.hdr + 1, p, x, n, if n == 0 then 0 else Get2(d, n), from, Get2(d, from));
    ListBytesGet(d, p, s, a, e - s, at);
  }

  lemma ListSize(g: Geo, d: seq<byte>, L: Layout, x: nat, p: nat, n: nat, at: nat)
    requires Freeing(g, d, L, x, p, n)
    requires NewStart(L, x, p) != L.top
    requires n + 2 <= |d| && (n == 0 || n in L.free) && NewStart(L, x, p) + 4 <= NewEnd(L, x, n) <= g.u
    requires at in Freed(L, x, n, p).free
    ensures p + 2 <= |d| && at + 4 <= |d|
    ensures Get2(ListBytes(d, p, NewStart(L, x, p), After(d, L, x, n), NewEnd(L, x, n) - NewStart(L, x, p)), at + 2)
         == Freed(L, x, n, p).free[at]
  {
    hide ListBytes, Sound, IsNext, NewStart, NewEnd, Rest, JoinsNext, Freed;
    FreedKeys(L, x, n, p, at);
    FreeingOk(g, d, L, x, p, n);
    var s, e, a := NewStart(L, x, p), NewEnd(L, x, n), After(d, L, x, n);
    if at != s {
      assert at in L.free ==> SizeFieldOk(d, L.free, at);
      LinkApart(g, d, L, x, p, n, at);
      ListBytesGet(d, p, s, a, e - s, at + 2);
    } else {
      ListBytesGet(d, p, s, a, e - s, at);
    }
  }

  /** Case two: the joined block starts the content area, which shrinks to exclude it. */
  lemma TopLink(g: Geo, d: seq<byte>, L: Layout, x: nat, p: nat, n: nat, at: nat)
    requires Freeing(g, d, L, x, p, n)
    requires NewStart(L, x, p) == L.top
    requires n + 2 <= |d| && (n == 0 || n in L.free) && NewStart(L, x, p) + 4 <= NewEnd(L, x, n) <= g.u
    requires at == g.hdr + 1 || at in Freed(L, x, n, p).free
    ensures var r := TopBytes(d, g.hdr, After(d, L, x, n), NewEnd(L, x, n));
            LinkOk(r, Freed(L, x, n, p).free, at)
            && (at in Freed(L, x, n, p).free ==> at + 4 <= |d| && Get2(r, at + 2) == Freed(L, x, n, p).free[at])
  {
    FreedKeys(L, x, n, p, at);
    hide TopBytes, Freed, Sound, IsNext, NewStart, NewEnd, JoinsNext;
    FreeingOk(g, d, L, x, p, n);
    if at != g.hdr + 1 {
      LinkApart(g, d, L, x, p, n, at);
      TopBytesGet(d, g.hdr, After(d, L, x, n), NewEnd(L, x, n), at + 2);
      assert SizeFieldOk(d, L.free, at);
    }
    assert LinkOk(d, L.free, at) && (n != 0 ==> LinkOk(d, L.free, n));
    LinkFreed(g.u, L, g.hdr + 1, p, x, n, if n == 0 then 0 else Get2(d, n), at, Get2(d, at));
    TopBytesGet(d, g.hdr, After(d, L, x, n), NewEnd(L, x, n), at);
  }

  lemma FreeAbove(u: nat, L: Layout, h: nat)
    requires Sound(u, L) && h <= L.gap
    ensures forall s | s in L.free :: h <= s
  {
  }

  /** Lowering the fragment count disturbs no link. */
  lemma FragByte(g: Geo, d: seq<byte>, L: Layout, v: byte)
    requires g.Ok() && g.u <= |d| && Sound(g.u, L) && g.hdr + 8 <= L.gap && ChainOk(g, d, L.free)
    ensures ChainOk(g, d[g.hdr + 7 := v], L.free)
  {
    hide IsNext;
    var r := d[g.hdr + 7 := v];
    FreeAbove(g.u, L, g.hdr + 8);
    hide Sound;
    forall s | s in L.free ensures LinkOk(r, L.free, s) && SizeFieldOk(r, L.free, s) {
      assert LinkOk(d, L.free, s) && SizeFieldOk(d, L.free, s);
      assert Get2(r, s) == Get2(d, s) && Get2(r, s + 2) == Get2(d, s + 2);
    }
    assert Get2(r, g.hdr + 1) == Get2(d, g.hdr + 1);
  }

  ghost function FreedBytes(g: Geo, d: seq<byte>, L: Layout, x: nat, p: nat, n: nat): (r: seq<byte>)
    requires g.hdr + 8 <= |d| && x in L.used && n + 2 <= |d| && p + 2 <= |d| && (n == 0 || n in L.free)
    requires NewStart(L, x, p) + 4 <= NewEnd(L, x, n) <= |d|
    ensures |r| == |d|
  {
    var s, e := NewStart(L, x, p), NewEnd(L, x, n);
    if s == L.top then TopBytes(d, g.hdr, After(d, L, x, n), e)
    else ListBytes(d, p, s, After(d, L, x, n), e - s)
  }

  lemma FreedChain(g: Geo, d: seq<byte>, L: Layout, x: nat, p: nat, n: nat)
    requires Freeing(g, d, L, x, p, n)
    requires FreeingBounds(g, d, L, x, p, n)
    ensures ChainOk(g, FreedBytes(g, d, L, x, p, n), Freed(L, x, n, p).free)
  {
    hide IsNext, Sound, NewStart, NewEnd, Freed, LinkOk, ListBytes, TopBytes, After;
    var F, r := Freed(L, x, n, p).free, FreedBytes(g, d, L, x, p, n);
    forall t | t in F || t == g.hdr + 1
      ensures LinkOk(r, F, t) && (t in F ==> SizeFieldOk(r, F, t))
    {
      FreedChainAt(g, d, L, x, p, n, t);
    }
  }

  lemma FreedChainAt(g: Geo, d: seq<byte>, L: Layout, x: nat, p: nat, n: nat, t: nat)
    requires Freeing(g, d, L, x, p, n)
    requires FreeingBounds(g, d, L, x, p, n)
    requires t in Freed(L, x, n, p).free || t == g.hdr + 1
    ensures var F, r := Freed(L, x, n, p).free, FreedBytes(g, d, L, x, p, n);
      LinkOk(r, F, t) && (t in F ==> SizeFieldOk(r, F, t))
  {
    FreedKeys(L, x, n, p, t);
    hide IsNext, Sound, NewStart, NewEnd, Freed, LinkOk, ListBytes, TopBytes, After;
    if NewStart(L, x, p) == L.top {
      TopLink(g, d, L, x, p, n, t);
    } else {
      ListLink(g, d, L, x, p, n, t);
      if t in Freed(L, x, n, p).free { ListSize(g, d, L, x, p, n, t); }
    }
  }

  ghost predicate FreeingBounds(g: Geo, d: seq<byte>, L: Layout, x: nat, p: nat, n: nat) {
    && g.u <= |d| && g.Ok() && x in L.used && (n == 0 || n in L.free) && n + 2 <= |d| && p + 4 <= |d|
    && L.top <= NewStart(L, x, p) && NewStart(L, x, p) + 4 <= NewEnd(L, x, n) <= g.u
    && g.hdr + 8 <= NewStart(L, x, p)
    && (NewStart(L, x, p) == L.top ==> p == g.hdr + 1)
    && (p == g.hdr + 1 || (p in L.free && g.hdr + 8 < p))
    && (p == NewStart(L, x, p) || p + 2 <= NewStart(L, x, p))
  }

  lemma FreedHeader(g: Geo, d: seq<byte>, c: nat, L: Layout, x: nat, p: nat, n: nat)
    requires FreeingBounds(g, d, L, x, p, n)
    requires After(d, L, x, n) < 65536
    requires HeaderOk(g, d, c, L)
    ensures HeaderOk(g, FreedBytes(g, d, L, x, p, n), c, Freed(L, x, n, p))
    ensures FreedBytes(g, d, L, x, p, n)[g.hdr + 7] == d[g.hdr + 7]
  {
    hide NewStart, NewEnd, After;
    var s, e := NewStart(L, x, p), NewEnd(L, x, n);
    if s == L.top {
      TopBytesGet(d, g.hdr, After(d, L, x, n), e, g.hdr + 7);
    } else {
      ListBytesGet(d, p, s, After(d, L, x, n), e - s, g.hdr + 3);
      ListBytesGet(d, p, s, After(d, L, x, n), e - s, g.hdr + 5);
    }
  }

  /** Only header fields and bytes of the joined block or of the previous freeblock are written. */
  lemma FreedKept(g: Geo, d: seq<byte>, L: Layout, x: nat, p: nat, n: nat)
    requires Freeing(g, d, L, x, p, n) && FreeingBounds(g, d, L, x, p, n)
    ensures Kept(g, d, FreedBytes(g, d, L, x, p, n), Freed(L, x, n, p))
  {
    var r := FreedBytes(g, d, L, x, p, n);
    forall b | 0 <= b < |d| && Fixed(g, Freed(L, x, n, p), b) ensures r[b] == d[b] {
      FreedKeptAt(g, d, L, x, p, n, b);
    }
  }

  lemma FreedKeptAt(g: Geo, d: seq<byte>, L: Layout, x: nat, p: nat, n: nat, b: nat)
    requires Freeing(g, d, L, x, p, n) && FreeingBounds(g, d, L, x, p, n)
    requires b < |d| && Fixed(g, Freed(L, x, n, p), b)
    ensures FreedBytes(g, d, L, x, p, n)[b] == d[b]
  {
    hide IsNext, Sound, Fixed, Freed, After, Freeing, NewStart, NewEnd, TopField;
    FixedFar(g, d, L, x, p, n, b);
  }

  lemma FixedFar(g: Geo, d: seq<byte>, L: Layout, x: nat, p: nat, n: nat, b: nat)
    requires Freeing(g, d, L, x, p, n) && FreeingBounds(g, d, L, x, p, n)
    requires Fixed(g, Freed(L, x, n, p), b)
    ensures b < NewStart(L, x, p) || NewEnd(L, x, n) <= b
    ensures p == g.hdr + 1 || b < p || p + 2 <= b
    ensures !(g.hdr + 1 <= b <= g.hdr + 2) && !(g.hdr + 5 <= b <= g.hdr + 7)
  {
    if Covered(b, Freed(L, x, n, p).used) {
      var t :| t in Freed(L, x, n, p).used && Has(t, Freed(L, x, n, p).used[t], b);
      UsedFar(g.u, L, g.hdr + 1, p, x, n, t);
    }
  }

  ghost predicate CanFree(g: Geo, d: seq<byte>, c: nat, nFree: int, L: Layout, x: nat, p: nat, n: nat) {
    Core(g, d, c, nFree, L) && Ready(L, g.hdr + 1, p, x, n)
  }

  lemma CanFreeOk(g: Geo, d: seq<byte>, c: nat, nFree: int, L: Layout, x: nat, p: nat, n: nat)
    requires CanFree(g, d, c, nFree, L, x, p, n)
    ensures Freeing(g, d, L, x, p, n) && FreeingBounds(g, d, L, x, p, n) && After(d, L, x, n) < 65536
    ensures 0 <= Lost(L, x, n, p) <= d[g.hdr + 7]
    ensures var d1 := d[g.hdr + 7 := d[g.hdr + 7] - Lost(L, x, n, p)];
            Freeing(g, d1, L, x, p, n) && After(d1, L, x, n) == After(d, L, x, n)
  {
    hide IsNext, ChainOk, Between, NewStart, NewEnd, Lost, Sound, Counts, Freed;
    FreeingOk(g, d, L, x, p, n);
    FreedSound(g.u, L, g.hdr + 1, p, x, n, d[g.hdr + 7], nFree);
    FreeAbove(g.u, L, g.hdr + 8);
    FragByte(g, d, L, d[g.hdr + 7] - Lost(L, x, n, p));
  }

  ghost function FreedPage(g: Geo, d: seq<byte>, L: Layout, x: nat, p: nat, n: nat): seq<byte>
    requires FreeingBounds(g, d, L, x, p, n)
    requires 0 <= Lost(L, x, n, p) <= d[g.hdr + 7]
  {
    FreedBytes(g, d[g.hdr + 7 := d[g.hdr + 7] - Lost(L, x, n, p)], L, x, p, n)
  }

  /** One freeSpace call, from the page it finds to the page it leaves. */
  lemma FreedCore(g: Geo, d: seq<byte>, c: nat, nFree: int, L: Layout, x: nat, p: nat, n: nat)
    requires CanFree(g, d, c, nFree, L, x, p, n)
    ensures FreeingBounds(g, d, L, x, p, n)
    ensures 0 <= Lost(L, x, n, p) <= d[g.hdr + 7]
    ensures Core(g, FreedPage(g, d, L, x, p, n), c, nFree + L.used[x], Freed(L, x, n, p))
    ensures Kept(g, d, FreedPage(g, d, L, x, p, n), Freed(L, x, n, p))
  {
    FreedCounts(g, d, c, nFree, L, x, p, n);
    FreedRest(g, d, c, nFree, L, x, p, n);
    hide IsNext, Sound, Freed, FreedPage, ChainOk, NewStart, NewEnd, Lost, Ready;
  }

  lemma FreedCounts(g: Geo, d: seq<byte>, c: nat, nFree: int, L: Layout, x: nat, p: nat, n: nat)
    requires CanFree(g, d, c, nFree, L, x, p, n)
    ensures n == 0 || n in L.free
    ensures NewStart(L, x, p) <= NewEnd(L, x, n)
    ensures 0 <= Lost(L, x, n, p) <= d[g.hdr + 7] <= 60
    ensures Sound(g.u, Freed(L, x, n, p))
    ensures Counts(g.u, Freed(L, x, n, p), d[g.hdr + 7] - Lost(L, x, n, p), nFree + L.used[x])
  {
    FreedSound(g.u, L, g.hdr + 1, p, x, n, d[g.hdr + 7], nFree);
  }

  lemma FreedRest(g: Geo, d: seq<byte>, c: nat, nFree: int, L: Layout, x: nat, p: nat, n: nat)
    requires CanFree(g, d, c, nFree, L, x, p, n)
    ensures FreeingBounds(g, d, L, x, p, n)
    ensures 0 <= Lost(L, x, n, p) <= d[g.hdr + 7]
    ensures var r, R := FreedPage(g, d, L, x, p, n), Freed(L, x, n, p);
      && |r| == |d| && ChainOk(g, r, R.free) && HeaderOk(g, r, c, R) && Kept(g, d, r, R)
      && r[g.hdr + 7] == d[g.hdr + 7] - Lost(L, x, n, p)
  {
    hide IsNext, Sound, Freed, FreedBytes, ChainOk, NewStart, NewEnd, Lost, Ready, Freeing, Kept, HeaderOk, Core, Between;
    CanFreeOk(g, d, c, nFree, L, x, p, n);
    FragKept(g, d, L, x, p, n, d[g.hdr + 7] - Lost(L, x, n, p));
    FragHeader(g, d, c, nFree, L, d[g.hdr + 7] - Lost(L, x, n, p));
    var d1 := d[g.hdr + 7 := d[g.hdr + 7] - Lost(L, x, n, p)];
    CanFreeOk2(g, d1, L, x, p, n);
    FreedChain(g, d1, L, x, p, n);
    FreedHeader(g, d1, c, L, x, p, n);
    FreedKept(g, d1, L, x, p, n);
    KeptTrans(g, d, d1, FreedPage(g, d, L, x, p, n), Freed(L, x, n, p));
  }

  lemma KeptTrans(g: Geo, d: seq<byte>, d1: seq<byte>, d2: seq<byte>, L: Layout)
    requires Kept(g, d, d1, L) && Kept(g, d1, d2, L)
    ensures Kept(g, d, d2, L)
  {
    hide Fixed;
  }

  lemma FragHeader(g: Geo, d: seq<byte>, c: nat, nFree: int, L: Layout, v: byte)
    requires Core(g, d, c, nFree, L)
    ensures HeaderOk(g, d[g.hdr + 7 := v], c, L)
  {
    hide Sound, ChainOk, Counts;
  }

  lemma FragKept(g: Geo, d: seq<byte>, L: Layout, x: nat, p: nat, n: nat, v: byte)
    requires Freeing(g, d, L, x, p, n) && FreeingBounds(g, d, L, x, p, n)
    ensures Kept(g, d, d[g.hdr + 7 := v], Freed(L, x, n, p))
  {
    forall b | 0 <= b < |d| && Fixed(g, Freed(L, x, n, p), b) ensures d[g.hdr + 7 := v][b] == d[b] {
      FixedFar(g, d, L, x, p, n, b);
    }
  }

  lemma CanFreeOk2(g: Geo, d: seq<byte>, L: Layout, x: nat, p: nat, n: nat)
    requires Freeing(g, d, L, x, p, n)
    ensures FreeingBounds(g, d, L, x, p, n) && After(d, L, x, n) < 65536
  {
    FreeingOk(g, d, L, x, p, n);
  }

  lemma PutTop(d: seq<byte>, i: nat, e: nat)
    requires i + 2 <= |d|
    ensures Put2(d, i, TopField(e)) == Put2(d, i, e)
  {
  }

  /** The bytes freeSpace writes, as the writes it makes. */
  lemma FreedWrites(g: Geo, d: seq<byte>, c: nat, nFree: int, L: Layout, x: nat, p: nat, n: nat)
    requires CanFree(g, d, c, nFree, L, x, p, n)
    ensures FreeingBounds(g, d, L, x, p, n) && 0 <= Lost(L, x, n, p) <= d[g.hdr + 7]
    ensures Get2(d, g.hdr + 5) == NewStart(L, x, p) ==> p == g.hdr + 1
    ensures var d1 := d[g.hdr + 7 := d[g.hdr + 7] - Lost(L, x, n, p)];
      var s, e, a := NewStart(L, x, p), NewEnd(L, x, n), After(d, L, x, n);
      FreedPage(g, d, L, x, p, n) ==
        if s == Get2(d, g.hdr + 5) then Put2(Put2(d1, g.hdr + 1, a), g.hdr + 5, e)
        else Put2(Put2(Put2(d1, p, s), s, a), s + 2, e - s)
  {
    hide IsNext, Sound, ChainOk, NewStart, NewEnd, Lost, Ready, Freeing, Kept, Between, After, Counts, Put2;
    CanFreeOk(g, d, c, nFree, L, x, p, n);
    var d1 := d[g.hdr + 7 := d[g.hdr + 7] - Lost(L, x, n, p)];
    PutTop(Put2(d1, g.hdr + 1, After(d, L, x, n)), g.hdr + 5, NewEnd(L, x, n));
  }
}
