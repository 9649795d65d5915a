/** The freeblock list as a chain of addresses, and the layout change of one freeSpace call. */
module FreeList {
  import opened Layout

  /** n is the first freeblock above an address; 0 stands for none. */
  ghost predicate IsNext(free: map<nat, nat>, at: nat, n: nat) {
    if n == 0 then forall y | y in free :: y <= at
    else n in free && at < n && forall y | y in free :: y <= at || n <= y
  }

  /** p is the list head (below every freeblock) or a freeblock, and x lies between p and the next one, n. */
  ghost predicate Between(free: map<nat, nat>, head: nat, p: nat, x: nat, n: nat) {
    && (forall y | y in free :: head < y)
    && (p == head || p in free)
    && p < x && (n == 0 || x < n) && IsNext(free, p, n)
  }

  lemma LinkUnlinked(free: map<nat, nat>, head: nat, p: nat, n: nat, n2: nat, at: nat, v: nat)
    requires forall y | y in free :: head < y
    requires p == head || p in free
    requires at == head || at in free
    requires n in free && at != n && IsNext(free, p, n) && IsNext(free, n, n2) && IsNext(free, at, v)
    ensures IsNext(free - {n}, at, if at == p then n2 else v)
  {
  }

  lemma LinkInserted(free: map<nat, nat>, head: nat, p: nat, x: nat, n: nat, size: nat, at: nat, v: nat)
    requires Between(free, head, p, x, n)
    requires at == head || at in free
    requires IsNext(free, at, v)
    ensures IsNext(free[x := size], at, if at == p then x else v)
    ensures IsNext(free[x := size], x, n)
  {
  }

  ghost predicate Ready(L: Layout, head: nat, p: nat, x: nat, n: nat) {
    x in L.used && head < x && head < L.top && Between(L.free, head, p, x, n)
  }

  ghost predicate JoinsNext(L: Layout, x: nat, n: nat) requires x in L.used {
    n != 0 && x + L.used[x] + 3 >= n
  }
  ghost predicate JoinsPrev(L: Layout, x: nat, p: nat) requires x in L.used {
    p in L.free && p + L.free[p] + 3 >= x
  }
  ghost function NewEnd(L: Layout, x: nat, n: nat): nat requires x in L.used && (n == 0 || n in L.free) {
    if JoinsNext(L, x, n) then n + L.free[n] else x + L.used[x]
  }
  ghost function NewStart(L: Layout, x: nat, p: nat): nat requires x in L.used {
    if JoinsPrev(L, x, p) then p else x
  }
  /** Fragment bytes that end up inside the joined block. */
  ghost function Lost(L: Layout, x: nat, n: nat, p: nat): int requires x in L.used && (n == 0 || n in L.free) {
    (if JoinsNext(L, x, n) then n - (x + L.used[x]) else 0) +
    (if JoinsPrev(L, x, p) then x - (p + L.free[p]) else 0)
  }

  /** The freeblocks left after the neighbours that join are taken off the list. */
  ghost function Rest(L: Layout, x: nat, n: nat, p: nat): map<nat, nat> requires x in L.used {
    var r := if JoinsNext(L, x, n) then L.free - {n} else L.free;
    if JoinsPrev(L, x, p) then r - {p} else r
  }

  /** The layout after the cell at x is returned to the free list between p and n. */
  ghost function Freed(L: Layout, x: nat, n: nat, p: nat): Layout
    requires x in L.used && (n == 0 || n in L.free) && NewStart(L, x, p) <= NewEnd(L, x, n)
  {
    var s, e := NewStart(L, x, p), NewEnd(L, x, n);
    var R := L.(used := L.used - {x}, free := Rest(L, x, n, p));
    if s == L.top then R.(top := e) else R.(free := R.free[s := e - s])
  }

  lemma FreedKeys(L: Layout, x: nat, n: nat, p: nat, t: nat)
    requires x in L.used && (n == 0 || n in L.free) && NewStart(L, x, p) <= NewEnd(L, x, n)
    ensures t in Freed(L, x, n, p).free <==> t in Rest(L, x, n, p) || (t == NewStart(L, x, p) != L.top)
    ensures t in Rest(L, x, n, p) && t != NewStart(L, x, p) ==> Freed(L, x, n, p).free[t] == L.free[t]
    ensures t == NewStart(L, x, p) != L.top ==> Freed(L, x, n, p).free[t] == NewEnd(L, x, n) - t
  {
  }

  lemma Order(u: nat, L: Layout, head: nat, p: nat, x: nat, n: nat)
    requires Sound(u, L) && Ready(L, head, p, x, n)
    ensures p in L.free ==> p + L.free[p] <= x
    ensures n != 0 ==> n in L.free && x + L.used[x] <= n
    ensures L.top <= NewStart(L, x, p) <= x && NewStart(L, x, p) + 4 <= NewEnd(L, x, n) <= u && x < NewEnd(L, x, n)
    ensures x !in L.free && forall y | y in L.free :: L.top < y
  {
  }

  /** The layout with the cell and the joining freeblocks taken out, and how the counts move. */
  lemma RestCounts(u: nat, L: Layout, head: nat, p: nat, x: nat, n: nat, frag: int, spare: int)
    requires Sound(u, L) && Ready(L, head, p, x, n) && Counts(u, L, frag, spare)
    ensures n == 0 || n in L.free
    ensures var R := L.(used := L.used - {x}, free := Rest(L, x, n, p));
      var s, e := NewStart(L, x, p), NewEnd(L, x, n);
      Sound(u, R) && s <= e && Counts(u, R, frag + (e - s) - Lost(L, x, n, p), spare + L.used[x])
  {
    Order(u, L, head, p, x, n);
    DropUsed(u, L, x, frag, spare);
    var A := L.(used := L.used - {x});
    var f, sp := frag + L.used[x], spare + L.used[x];
    if JoinsNext(L, x, n) {
      DropFree(u, A, n, f, sp);
      A := A.(free := A.free - {n});
      f := f + L.free[n];
    }
    if JoinsPrev(L, x, p) {
      DropFree(u, A, p, f, sp);
    }
  }

  /** Nothing else lies in the joined block, and what is left of the list keeps its distance. */
  lemma RestClear(u: nat, L: Layout, head: nat, p: nat, x: nat, n: nat)
    requires Sound(u, L) && Ready(L, head, p, x, n)
    ensures n == 0 || n in L.free
    ensures var R := L.(used := L.used - {x}, free := Rest(L, x, n, p));
      var s, e := NewStart(L, x, p), NewEnd(L, x, n);
      Clear(R, s, e) && forall t | t in R.free :: t + R.free[t] + 4 <= s || e + 4 <= t
  {
    Order(u, L, head, p, x, n);
    var s, e := NewStart(L, x, p), NewEnd(L, x, n);
    var R := L.(used := L.used - {x}, free := Rest(L, x, n, p));
    forall t | t in R.free ensures t + R.free[t] + 4 <= s || e + 4 <= t { RestFar(u, L, head, p, x, n, t); }
    forall t | t in R.used ensures t + R.used[t] <= s || e <= t { UsedFar(u, L, head, p, x, n, t); }
  }

  lemma RestFar(u: nat, L: Layout, head: nat, p: nat, x: nat, n: nat, t: nat)
    requires Sound(u, L) && Ready(L, head, p, x, n) && t in Rest(L, x, n, p)
    ensures n == 0 || n in L.free
    ensures t + L.free[t] + 4 <= NewStart(L, x, p) || NewEnd(L, x, n) + 4 <= t
  {
    Order(u, L, head, p, x, n);
    if t <= p {
    } else {
      assert n != 0 && n <= t;
    }
  }

  lemma UsedFar(u: nat, L: Layout, head: nat, p: nat, x: nat, n: nat, t: nat)
    requires Sound(u, L) && Ready(L, head, p, x, n) && t in L.used && t != x
    ensures n == 0 || n in L.free
    ensures t + L.used[t] <= NewStart(L, x, p) || NewEnd(L, x, n) <= t
  {
    Order(u, L, head, p, x, n);
  }

  /** Freeing keeps the layout sound, gives back exactly the cell's bytes and absorbs the fragments beside it. */
  lemma FreedSound(u: nat, L: Layout, head: nat, p: nat, x: nat, n: nat, frag: int, spare: int)
    requires Sound(u, L) && Ready(L, head, p, x, n) && Counts(u, L, frag, spare)
    ensures n == 0 || n in L.free
    ensures NewStart(L, x, p) <= NewEnd(L, x, n)
    ensures 0 <= Lost(L, x, n, p) <= frag
    ensures Sound(u, Freed(L, x, n, p))
    ensures Counts(u, Freed(L, x, n, p), frag - Lost(L, x, n, p), spare + L.used[x])
  {
    hide Sound, Between, Clear, FragSet, SpareSet, NewStart, NewEnd, Rest;
    Order(u, L, head, p, x, n);
    RestCounts(u, L, head, p, x, n, frag, spare);
    RestClear(u, L, head, p, x, n);
    var R := L.(used := L.used - {x}, free := Rest(L, x, n, p));
    var s, e := NewStart(L, x, p), NewEnd(L, x, n);
    var f, sp := frag + (e - s) - Lost(L, x, n, p), spare + L.used[x];
    if s == L.top {
      RaiseTop(u, R, e, f, sp);
    } else {
      AddFree(u, R, s, e - s, f, sp);
    }
  }

  /** What the list link at an address must hold once the joined block starting at s is on the list. */
  ghost function NewLink(L: Layout, x: nat, p: nat, n: nat, n2: nat, at: nat, v: nat): nat
    requires x in L.used
  {
    var s := NewStart(L, x, p);
    var after := if JoinsNext(L, x, n) then n2 else n;
    if at == s then after
    else if at == p then (if s == L.top then after else s)
    else v
  }

  lemma LinkFreed(u: nat, L: Layout, head: nat, p: nat, x: nat, n: nat, n2: nat, at: nat, v: nat)
    requires Sound(u, L) && Ready(L, head, p, x, n)
    requires n != 0 ==> IsNext(L.free, n, n2)
    requires at == head || at in L.free
    requires IsNext(L.free, at, v)
    requires NewStart(L, x, p) == L.top ==> p == head
    ensures (n == 0 || n in L.free) && NewStart(L, x, p) <= NewEnd(L, x, n)
    ensures at == head || at in Rest(L, x, n, p) ==>
              IsNext(Freed(L, x, n, p).free, at, NewLink(L, x, p, n, n2, at, v))
    ensures NewStart(L, x, p) != L.top ==>
              NewStart(L, x, p) in Freed(L, x, n, p).free && IsNext(Freed(L, x, n, p).free, NewStart(L, x, p), NewLink(L, x, p, n, n2, NewStart(L, x, p), v))
  {
    hide Sound, Between, IsNext, NewEnd;
    Order(u, L, head, p, x, n);
    LinkRest(u, L, head, p, x, n, n2, at, v);
    var A := if JoinsNext(L, x, n) then L.free - {n} else L.free;
    var n' := if JoinsNext(L, x, n) then n2 else n;
    LinkFreed2(L, head, p, x, n, n', at, if at == p then n' else v, A);
  }

  lemma LinkRest(u: nat, L: Layout, head: nat, p: nat, x: nat, n: nat, n2: nat, at: nat, v: nat)
    requires Sound(u, L) && Ready(L, head, p, x, n)
    requires n != 0 ==> IsNext(L.free, n, n2)
    requires at == head || at in L.free
    requires IsNext(L.free, at, v)
    ensures var A := if JoinsNext(L, x, n) then L.free - {n} else L.free;
      var n' := if JoinsNext(L, x, n) then n2 else n;
      && Between(A, head, p, x, n')
      && (n' == 0 || x < n')
      && (at == head || at in A ==> IsNext(A, at, if at == p then n' else v))
  {
    if JoinsNext(L, x, n) {
      if at != n { LinkUnlinked(L.free, head, p, n, n2, at, v); }
      LinkUnlinked(L.free, head, p, n, n2, p, n);
    }
  }

  lemma LinkFreed2(L: Layout, head: nat, p: nat, x: nat, n: nat, n': nat, at: nat, v: nat, A: map<nat, nat>)
    requires x in L.used && (n == 0 || n in L.free)
    requires NewStart(L, x, p) <= NewEnd(L, x, n)
    requires A == if JoinsNext(L, x, n) then L.free - {n} else L.free
    requires Between(A, head, p, x, n')
    requires n' == 0 || x < n'
    requires at == head || at in A ==> IsNext(A, at, v)
    requires at == p ==> v == n'
    requires x !in L.free && head < L.top
    requires NewStart(L, x, p) == L.top ==> p == head
    requires forall y | y in L.free :: L.top < y
    ensures var F := Freed(L, x, n, p).free; var s := NewStart(L, x, p);
      && (at == head || at in Rest(L, x, n, p) ==> IsNext(F, at, if at == s then n' else if at == p then (if s == L.top then n' else s) else v))
      && (s != L.top ==> s in F && IsNext(F, s, n'))
  {
    var s := NewStart(L, x, p);
    var F := Freed(L, x, n, p).free;
    if s == L.top {
      assert !JoinsPrev(L, x, p);
      assert F == A;
    } else if JoinsPrev(L, x, p) {
      assert F.Keys == A.Keys;
      assert forall a, w | IsNext(A, a, w) :: IsNext(F, a, w);
    } else {
      assert F == A[x := NewEnd(L, x, n) - s];
      if at == head || at in A {
        LinkInserted(A, head, p, x, n', NewEnd(L, x, n) - s, at, v);
      } 
      LinkInserted(A, head, p, x, n', NewEnd(L, x, n) - s, p, n');
    }
  }
}
