/** The three ways allocateSpace finds room: a whole freeblock, the tail of a freeblock, the gap. */
module PageAlloc {
  import opened Bytes
  import opened Layout
  import opened FreeList
  import opened Page

  // ---- a freeblock less than 4 bytes too big is taken whole ----

  ghost function Taken(L: Layout, pc: nat, n: nat): Layout
    requires pc in L.free && n <= L.free[pc]
  {
    L.(free := L.free - {pc}, used := L.used[pc + L.free[pc] - n := n])
  }

  lemma TakenSound(u: nat, L: Layout, pc: nat, n: nat, frag: int, spare: int)
    requires Sound(u, L) && pc in L.free && 4 <= n <= L.free[pc] && Counts(u, L, frag, spare)
    ensures Sound(u, Taken(L, pc, n)) && Counts(u, Taken(L, pc, n), frag + L.free[pc] - n, spare - n)
    ensures pc + L.free[pc] - n !in L.used
  {
    hide Sound, Clear, Counts;
    var at := pc + L.free[pc] - n;
    DropFree(u, L, pc, frag, spare);
    var A := L.(free := L.free - {pc});
    TakenClear(u, L, pc, n);
    AddUsed(u, A, at, n, frag + L.free[pc], spare);
  }

  lemma TakenClear(u: nat, L: Layout, pc: nat, n: nat)
    requires Sound(u, L) && pc in L.free && 4 <= n <= L.free[pc]
    ensures L.top < pc && pc + L.free[pc] <= u
    ensures Clear(L.(free := L.free - {pc}), pc + L.free[pc] - n, pc + L.free[pc])
  {
  }

  // ---- the tail of a bigger freeblock ----

  ghost function Shrunk(L: Layout, pc: nat, n: nat): Layout
    requires pc in L.free && n <= L.free[pc]
  {
    L.(free := L.free[pc := L.free[pc] - n], used := L.used[pc + L.free[pc] - n := n])
  }

  lemma ShrunkSound(u: nat, L: Layout, pc: nat, n: nat, frag: int, spare: int)
    requires Sound(u, L) && pc in L.free && 4 <= n && n + 4 <= L.free[pc] && Counts(u, L, frag, spare)
    ensures Sound(u, Shrunk(L, pc, n)) && Counts(u, Shrunk(L, pc, n), frag, spare - n)
    ensures pc + L.free[pc] - n !in L.used
  {
    hide Sound, Clear, Counts;
    var at := pc + L.free[pc] - n;
    DropFree(u, L, pc, frag, spare);
    var A := L.(free := L.free - {pc});
    ShrunkClear(u, L, pc, n);
    AddFree(u, A, pc, L.free[pc] - n, frag + L.free[pc], spare);
    var B := A.(free := A.free[pc := L.free[pc] - n]);
    AddUsed(u, B, at, n, frag + n, spare);
    assert Shrunk(L, pc, n) == B.(used := B.used[at := n]);
  }

  lemma ShrunkClear(u: nat, L: Layout, pc: nat, n: nat)
    requires Sound(u, L) && pc in L.free && 4 <= n && n + 4 <= L.free[pc]
    ensures var A := L.(free := L.free - {pc}); var k := L.free[pc] - n;
      && Clear(A, pc, pc + k) && L.top < pc && pc + L.free[pc] <= u
      && (forall t | t in A.free :: t + A.free[t] + 4 <= pc || pc + k + 4 <= t)
      && Clear(A.(free := A.free[pc := k]), pc + k, pc + k + n)
  {
  }

  // ---- the gap ----

  ghost function Bumped(L: Layout, n: nat): Layout
    requires n <= L.top
  {
    L.(top := L.top - n, used := L.used[L.top - n := n])
  }

  lemma BumpedSound(u: nat, L: Layout, n: nat, frag: int, spare: int)
    requires Sound(u, L) && 4 <= n && L.gap + n <= L.top && Counts(u, L, frag, spare)
    ensures Sound(u, Bumped(L, n)) && Counts(u, Bumped(L, n), frag, spare - n)
    ensures L.top - n !in L.used
  {
    LowerTop(u, L, L.top - n, frag, spare);
    AddUsed(u, L.(top := L.top - n), L.top - n, n, frag + n, spare);
  }

  // ---- the bytes ----

  function TakenBytes(g: Geo, d: seq<byte>, p: nat, pc: nat, x: nat): (r: seq<byte>)
    requires p + 2 <= |d| && pc + 2 <= |d| && g.hdr + 8 <= |d| && d[g.hdr + 7] + x < 256
    ensures |r| == |d|
  {
    var r := Put2(d, p, Get2(d, pc));
    r[g.hdr + 7 := d[g.hdr + 7] + x]
  }

  ghost predicate Slot(g: Geo, d: seq<byte>, c: nat, nFree: int, L: Layout, p: nat, pc: nat) {
    && Core(g, d, c, nFree, L)
    && pc in L.free && p < pc && (p == g.hdr + 1 || p in L.free) && IsNext(L.free, p, pc)
  }

  ghost predicate SlotBounds(g: Geo, d: seq<byte>, L: Layout, p: nat, pc: nat) {
    && g.Ok() && g.u <= |d| && g.u <= 65536 && g.hdr + 8 <= L.gap <= L.top
    && pc in L.free && (p == g.hdr + 1 || (p in L.free && g.hdr + 8 <= p))
    && p + 4 <= pc && L.top < pc && pc + L.free[pc] <= g.u && 4 <= L.free[pc]
    && Get2(d, p) == pc && Get2(d, pc + 2) == L.free[pc]
  }

  lemma SlotOk(g: Geo, d: seq<byte>, c: nat, nFree: int, L: Layout, p: nat, pc: nat)
    requires Slot(g, d, c, nFree, L, p, pc)
    requires p + 2 <= |d| && Get2(d, p) == pc
    ensures SlotBounds(g, d, L, p, pc)
  {
    assert SizeFieldOk(d, L.free, pc);
  }

  lemma BlocksApart(u: nat, L: Layout, s: nat, t: nat)
    requires Sound(u, L) && s in L.free && t in L.free && s != t
    ensures s + 4 <= t || t + 4 <= s
  {
  }

  lemma TakenLink(g: Geo, d: seq<byte>, c: nat, nFree: int, L: Layout, p: nat, pc: nat, x: nat, at: nat)
    requires Slot(g, d, c, nFree, L, p, pc) && SlotBounds(g, d, L, p, pc)
    requires x <= L.free[pc] && d[g.hdr + 7] + x < 256
    requires at == g.hdr + 1 || at in L.free - {pc}
    ensures var r := TakenBytes(g, d, p, pc, x);
      LinkOk(r, L.free - {pc}, at) && (at in L.free - {pc} ==> at + 4 <= |r| && Get2(r, at + 2) == L.free[at])
  {
    hide IsNext, Sound, Slot;
    TakenLinks(g, d, c, nFree, L, p, pc, at);
    var r := TakenBytes(g, d, p, pc, x);
    if at != p {
      assert Get2(r, at) == Get2(d, at);
    }
  }

  lemma TakenLinks(g: Geo, d: seq<byte>, c: nat, nFree: int, L: Layout, p: nat, pc: nat, at: nat)
    requires Slot(g, d, c, nFree, L, p, pc) && SlotBounds(g, d, L, p, pc)
    requires at == g.hdr + 1 || at in L.free - {pc}
    ensures at + 2 <= |d| && pc + 2 <= |d|
    ensures IsNext(L.free - {pc}, at, if at == p then Get2(d, pc) else Get2(d, at))
    ensures at in L.free - {pc} ==> at + 4 <= |d| && Get2(d, at + 2) == L.free[at] && g.hdr + 8 <= at
    ensures at == p || at + 4 <= p || p + 4 <= at || at == g.hdr + 1
  {
    hide Counts, FragSet, SpareSet, HeaderOk;
    assert LinkOk(d, L.free, at) && LinkOk(d, L.free, pc);
    assert at != g.hdr + 1 ==> SizeFieldOk(d, L.free, at);
    if at in L.free && at != p && p in L.free { BlocksApart(g.u, L, at, p); }
    LinkUnlinked(L.free, g.hdr + 1, p, pc, Get2(d, pc), at, Get2(d, at));
  }

  lemma TakenChain(g: Geo, d: seq<byte>, c: nat, nFree: int, L: Layout, p: nat, pc: nat, x: nat)
    requires Slot(g, d, c, nFree, L, p, pc) && SlotBounds(g, d, L, p, pc)
    requires x <= L.free[pc] && d[g.hdr + 7] + x < 256
    ensures ChainOk(g, TakenBytes(g, d, p, pc, x), L.free - {pc})
  {
    hide IsNext, Sound, Slot, Get2, TakenBytes, Put2;
    var r, F := TakenBytes(g, d, p, pc, x), L.free - {pc};
    TakenLink(g, d, c, nFree, L, p, pc, x, g.hdr + 1);
    forall s | s in F ensures LinkOk(r, F, s) && SizeFieldOk(r, F, s) {
      TakenLink(g, d, c, nFree, L, p, pc, x, s);
    }
  }

  lemma SlotFar(g: Geo, L: Layout, p: nat, pc: nat, b: nat)
    requires g.hdr + 8 <= L.gap && Sound(g.u, L) && pc in L.free && (p == g.hdr + 1 || p in L.free) && Fixed(g, L, b)
    ensures b < p || p + 2 <= b
    ensures b < pc || pc + L.free[pc] <= b
    ensures b != g.hdr + 7 && b != g.hdr + 5 && b != g.hdr + 6
  {
  }

  lemma TakenKept(g: Geo, d: seq<byte>, c: nat, nFree: int, L: Layout, p: nat, pc: nat, x: nat)
    requires Slot(g, d, c, nFree, L, p, pc) && SlotBounds(g, d, L, p, pc)
    requires x <= L.free[pc] && d[g.hdr + 7] + x < 256
    ensures Kept(g, d, TakenBytes(g, d, p, pc, x), L)
  {
    hide IsNext, Sound, Get2, ChainOk, Counts, Fixed;
    var r := TakenBytes(g, d, p, pc, x);
    forall b | 0 <= b < |d| && Fixed(g, L, b) ensures r[b] == d[b] {
      SlotFar(g, L, p, pc, b);
    }
  }

  lemma TakenHeader(g: Geo, d: seq<byte>, c: nat, L: Layout, p: nat, pc: nat, x: nat, n: nat)
    requires SlotBounds(g, d, L, p, pc) && HeaderOk(g, d, c, L)
    requires x <= L.free[pc] && d[g.hdr + 7] + x < 256 && n <= L.free[pc]
    ensures var r := TakenBytes(g, d, p, pc, x);
      HeaderOk(g, r, c, Taken(L, pc, n)) && r[g.hdr + 7] == d[g.hdr + 7] + x
  {
    var r := TakenBytes(g, d, p, pc, x);
    assert Get2(r, g.hdr + 3) == Get2(d, g.hdr + 3) && Get2(r, g.hdr + 5) == Get2(d, g.hdr + 5);
  }

  lemma TakenCore(g: Geo, d: seq<byte>, c: nat, nFree: int, L: Layout, p: nat, pc: nat, n: nat)
    requires Slot(g, d, c, nFree, L, p, pc) && SlotBounds(g, d, L, p, pc)
    requires 4 <= n <= L.free[pc] < n + 4 && d[g.hdr + 7] <= 57
    ensures pc + L.free[pc] - n !in L.used
    ensures var r := TakenBytes(g, d, p, pc, L.free[pc] - n);
      Core(g, r, c, nFree - n, Taken(L, pc, n)) && Kept(g, d, r, L)
  {
    hide IsNext, Sound, ChainOk, Counts, Fixed, TakenBytes, HeaderOk, Kept;
    TakenSound(g.u, L, pc, n, d[g.hdr + 7], nFree);
    TakenChain(g, d, c, nFree, L, p, pc, L.free[pc] - n);
    TakenKept(g, d, c, nFree, L, p, pc, L.free[pc] - n);
    TakenHeader(g, d, c, L, p, pc, L.free[pc] - n, n);
  }

  lemma ShrunkChain(g: Geo, d: seq<byte>, L: Layout, p: nat, pc: nat, k: nat)
    requires SlotBounds(g, d, L, p, pc) && ChainOk(g, d, L.free) && Sound(g.u, L)
    requires k <= L.free[pc]
    ensures ChainOk(g, Put2(d, pc + 2, k), L.free[pc := k])
  {
    hide FragSet, SpareSet, Get2;
    var r, F := Put2(d, pc + 2, k), L.free[pc := k];
    forall s | s in F || s == g.hdr + 1 ensures LinkOk(r, F, s) && (s in F ==> SizeFieldOk(r, F, s)) {
      ShrunkLink(g, d, L, p, pc, k, s);
    }
  }

  lemma ShrunkLink(g: Geo, d: seq<byte>, L: Layout, p: nat, pc: nat, k: nat, s: nat)
    requires SlotBounds(g, d, L, p, pc) && ChainOk(g, d, L.free) && Sound(g.u, L)
    requires k <= L.free[pc]
    requires s in L.free || s == g.hdr + 1
    ensures var r, F := Put2(d, pc + 2, k), L.free[pc := k];
      LinkOk(r, F, s) && (s in F ==> SizeFieldOk(r, F, s))
  {
    var r, F := Put2(d, pc + 2, k), L.free[pc := k];
    if s in L.free && s != pc { BlocksApart(g.u, L, s, pc); }
    hide Sound;
    assert LinkOk(d, L.free, s) && (s in L.free ==> SizeFieldOk(d, L.free, s));
    assert Get2(r, s) == Get2(d, s);
    assert s in L.free && s != pc ==> Get2(r, s + 2) == Get2(d, s + 2);
  }

  lemma ShrunkKept(g: Geo, d: seq<byte>, L: Layout, p: nat, pc: nat, k: nat)
    requires SlotBounds(g, d, L, p, pc) && Sound(g.u, L)
    ensures Kept(g, d, Put2(d, pc + 2, k), L)
  {
    hide IsNext, Sound, Get2, Fixed;
    var r := Put2(d, pc + 2, k);
    forall b | 0 <= b < |d| && Fixed(g, L, b) ensures r[b] == d[b] {
      SlotFar(g, L, p, pc, b);
    }
  }

  lemma ShrunkHeader(g: Geo, d: seq<byte>, c: nat, L: Layout, p: nat, pc: nat, n: nat)
    requires SlotBounds(g, d, L, p, pc) && HeaderOk(g, d, c, L) && n <= L.free[pc]
    ensures var r := Put2(d, pc + 2, L.free[pc] - n);
      HeaderOk(g, r, c, Shrunk(L, pc, n)) && r[g.hdr + 7] == d[g.hdr + 7]
  {
    var r := Put2(d, pc + 2, L.free[pc] - n);
    assert Get2(r, g.hdr + 3) == Get2(d, g.hdr + 3) && Get2(r, g.hdr + 5) == Get2(d, g.hdr + 5);
  }

  lemma ShrunkCore(g: Geo, d: seq<byte>, c: nat, nFree: int, L: Layout, p: nat, pc: nat, n: nat)
    requires Slot(g, d, c, nFree, L, p, pc) && SlotBounds(g, d, L, p, pc)
    requires 4 <= n && n + 4 <= L.free[pc]
    ensures pc + L.free[pc] - n !in L.used
    ensures var r := Put2(d, pc + 2, L.free[pc] - n);
      Core(g, r, c, nFree - n, Shrunk(L, pc, n)) && Kept(g, d, r, L)
  {
    hide IsNext, Sound, ChainOk, Counts, Fixed, HeaderOk, Put2, Kept;
    ShrunkSound(g.u, L, pc, n, d[g.hdr + 7], nFree);
    ShrunkChain(g, d, L, p, pc, L.free[pc] - n);
    ShrunkKept(g, d, L, p, pc, L.free[pc] - n);
    ShrunkHeader(g, d, c, L, p, pc, n);
  }

  // ---- allocation from the gap ----

  lemma UsedAbove(u: nat, L: Layout, h: nat)
    requires Sound(u, L) && h <= L.gap
    ensures h <= L.top
    ensures forall s | s in L.free :: h <= s
    ensures forall b | Covered(b, L.used) :: h <= b
  {
  }

  lemma BumpedChain(g: Geo, d: seq<byte>, c: nat, L: Layout, t: nat)
    requires g.Ok() && g.u <= |d| && HeaderOk(g, d, c, L) && Sound(g.u, L) && ChainOk(g, d, L.free)
    ensures ChainOk(g, Put2(d, g.hdr + 5, t), L.free)
    ensures Kept(g, d, Put2(d, g.hdr + 5, t), L)
  {
    hide IsNext, Sound, Covered;
    var r := Put2(d, g.hdr + 5, t);
    UsedAbove(g.u, L, g.hdr + 8);
    forall s | s in L.free ensures LinkOk(r, L.free, s) && SizeFieldOk(r, L.free, s) {
      assert LinkOk(d, L.free, s) && SizeFieldOk(d, L.free, s);
      assert Get2(r, s) == Get2(d, s) && Get2(r, s + 2) == Get2(d, s + 2);
    }
    assert Get2(r, g.hdr + 1) == Get2(d, g.hdr + 1);
  }

  lemma BumpedCore(g: Geo, d: seq<byte>, c: nat, nFree: int, L: Layout, n: nat)
    requires Core(g, d, c, nFree, L) && 4 <= n && L.gap + n <= L.top
    ensures L.top - n !in L.used
    ensures var r := Put2(d, g.hdr + 5, L.top - n);
      Core(g, r, c, nFree - n, Bumped(L, n)) && Kept(g, d, r, L)
  {
    hide IsNext, Sound, ChainOk, Counts, Fixed, HeaderOk, Put2, Kept;
    BumpedSound(g.u, L, n, d[g.hdr + 7], nFree);
    BumpedHeader(g, d, c, L, n);
    BumpedChain(g, d, c, L, L.top - n);
  }

  lemma BumpedHeader(g: Geo, d: seq<byte>, c: nat, L: Layout, n: nat)
    requires g.Ok() && g.u <= |d| && HeaderOk(g, d, c, L) && 4 <= n <= L.top
    ensures var r := Put2(d, g.hdr + 5, L.top - n);
      HeaderOk(g, r, c, Bumped(L, n)) && r[g.hdr + 7] == d[g.hdr + 7]
  {
  }

  /** Following a link reaches the next freeblock, and none in between. */
  lemma SlotStep(g: Geo, d: seq<byte>, c: nat, nFree: int, L: Layout, p: nat, pc: nat)
    requires Slot(g, d, c, nFree, L, p, pc)
    ensures pc + 2 <= |d|
    ensures Get2(d, pc) != 0 ==> pc < Get2(d, pc) && Slot(g, d, c, nFree, L, pc, Get2(d, pc))
    ensures forall s | s in L.free && pc < s :: Get2(d, pc) != 0 && Get2(d, pc) <= s
  {
    hide Sound, Counts, HeaderOk;
    assert LinkOk(d, L.free, pc);
  }

  lemma SlotFirst(g: Geo, d: seq<byte>, c: nat, nFree: int, L: Layout)
    requires Core(g, d, c, nFree, L)
    ensures Get2(d, g.hdr + 1) != 0 ==> Slot(g, d, c, nFree, L, g.hdr + 1, Get2(d, g.hdr + 1))
    ensures forall s | s in L.free :: Get2(d, g.hdr + 1) != 0 && Get2(d, g.hdr + 1) <= s
  {
    hide Counts;
    assert LinkOk(d, L.free, g.hdr + 1);
    FirstAbove(g.u, L, g.hdr + 1);
  }

  lemma FirstAbove(u: nat, L: Layout, h: nat)
    requires Sound(u, L) && h < L.gap
    ensures forall s | s in L.free :: h < s
  {
  }
}
