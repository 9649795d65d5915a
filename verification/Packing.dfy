/** Cells packed against the end of the page, in cell order: where defragmentPage puts them. */
module Packing {
  import opened Layout
  import opened PageAlloc

  ghost function Sum(sz: seq<nat>, k: nat): nat
    requires k <= |sz|
  {
    if k == 0 then 0 else Sum(sz, k - 1) + sz[k - 1]
  }

  lemma {:induction false} SumGrows(sz: seq<nat>, i: nat, j: nat)
    requires i <= j <= |sz|
    ensures Sum(sz, i) <= Sum(sz, j)
  {
    if i < j { SumGrows(sz, i, j - 1); }
  }

  lemma {:induction false} SumStrict(sz: seq<nat>, i: nat, j: nat)
    requires i < j <= |sz| && forall k | 0 <= k < |sz| :: 4 <= sz[k]
    ensures Sum(sz, i) + 4 <= Sum(sz, j)
  {
    if i + 1 < j { SumStrict(sz, i, j - 1); }
  }

  /** The layout with the first k cells packed and nothing else on the page. */
  ghost function Pack(gap: nat, u: nat, sz: seq<nat>, k: nat): Layout
    requires k <= |sz| && gap + Sum(sz, k) <= u
    ensures Pack(gap, u, sz, k).top == u - Sum(sz, k)
    ensures Pack(gap, u, sz, k).gap == gap
  {
    if k == 0 then Layout(gap, u, map[], map[]) else Bumped(Pack(gap, u, sz, k - 1), sz[k - 1])
  }

  lemma {:induction false} PackSound(gap: nat, u: nat, sz: seq<nat>, k: nat)
    requires k <= |sz| && gap + Sum(sz, k) <= u
    requires forall i | 0 <= i < |sz| :: 4 <= sz[i]
    ensures Sound(u, Pack(gap, u, sz, k))
    ensures Counts(u, Pack(gap, u, sz, k), 0, u - gap - Sum(sz, k))
    ensures Pack(gap, u, sz, k).free == map[]
  {
    if k == 0 {
      SpanSize(gap, u);
      var L := Pack(gap, u, sz, 0);
      assert FragSet(u, L) == {};
      assert SpareSet(u, L) == Span(gap, u);
    } else {
      hide Sound, Counts, Sum;
      assert Sum(sz, k) == Sum(sz, k - 1) + sz[k - 1] by { SumStep(sz, k); }
      PackSound(gap, u, sz, k - 1);
      BumpedSound(u, Pack(gap, u, sz, k - 1), sz[k - 1], 0, u - gap - Sum(sz, k - 1));
    }
  }

  lemma SumStep(sz: seq<nat>, k: nat)
    requires 0 < k <= |sz|
    ensures Sum(sz, k) == Sum(sz, k - 1) + sz[k - 1]
  {
  }

  /** Cell j of the packed layout starts where the first j+1 sizes end, counted from the end of the page. */
  lemma {:induction false} PackHas(gap: nat, u: nat, sz: seq<nat>, k: nat, j: nat)
    requires j < k <= |sz| && gap + Sum(sz, k) <= u
    requires forall i | 0 <= i < |sz| :: 4 <= sz[i]
    ensures Sum(sz, j + 1) <= u
    ensures u - Sum(sz, j + 1) in Pack(gap, u, sz, k).used && Pack(gap, u, sz, k).used[u - Sum(sz, j + 1)] == sz[j]
  {
    SumGrows(sz, j + 1, k);
    SumStep(sz, k);
    if j + 1 < k {
      SumStrict(sz, j + 1, k);
      hide Sum;
      PackHas(gap, u, sz, k - 1, j);
    }
  }

  lemma {:induction false} PackOnly(gap: nat, u: nat, sz: seq<nat>, k: nat, s: nat) returns (j: nat)
    requires k <= |sz| && gap + Sum(sz, k) <= u
    requires s in Pack(gap, u, sz, k).used
    ensures j < k && Sum(sz, j + 1) <= u && s == u - Sum(sz, j + 1)
  {
    if s == u - Sum(sz, k) { return k - 1; }
    j := PackOnly(gap, u, sz, k - 1, s);
  }

  // ---- the cells of a page account for every byte that is not spare ----

  ghost function Stripped(used: map<nat, nat>, ps: seq<nat>, k: nat): map<nat, nat>
    requires k <= |ps|
  {
    used - (set i | 0 <= i < k :: ps[i])
  }

  ghost predicate Lists(used: map<nat, nat>, ps: seq<nat>, sz: seq<nat>) {
    && |ps| == |sz|
    && (forall i | 0 <= i < |ps| :: ps[i] in used && used[ps[i]] == sz[i])
    && (forall i, j | 0 <= i < j < |ps| :: ps[i] != ps[j])
    && (forall s | s in used :: exists i :: 0 <= i < |ps| && ps[i] == s)
  }

  lemma {:induction false} StripCounts(u: nat, L: Layout, ps: seq<nat>, sz: seq<nat>, k: nat, frag: int, spare: int)
    requires Sound(u, L) && Lists(L.used, ps, sz) && k <= |ps| && Counts(u, L, frag, spare)
    ensures var R := L.(used := Stripped(L.used, ps, k));
            Sound(u, R) && Counts(u, R, frag + Sum(sz, k), spare + Sum(sz, k))
  {
    hide Sound, Counts;
    if k == 0 {
      assert L.(used := Stripped(L.used, ps, 0)) == L;
    } else {
      StripCounts(u, L, ps, sz, k - 1, frag, spare);
      var A := L.(used := Stripped(L.used, ps, k - 1));
      assert ps[k - 1] in A.used;
      DropUsed(u, A, ps[k - 1], frag + Sum(sz, k - 1), spare + Sum(sz, k - 1));
      assert L.(used := Stripped(L.used, ps, k)) == A.(used := A.used - {ps[k - 1]});
    }
  }

  lemma SpareIs(u: nat, L: Layout, ps: seq<nat>, sz: seq<nat>, frag: int, spare: int)
    requires Sound(u, L) && Lists(L.used, ps, sz) && Counts(u, L, frag, spare)
    ensures L.gap + spare + Sum(sz, |sz|) == u
  {
    hide Sum, Sound;
    StripCounts(u, L, ps, sz, |ps|, frag, spare);
    StripAll(L.used, ps, sz);
    NoneUsed(u, L.(used := map[]), frag + Sum(sz, |sz|), spare + Sum(sz, |sz|));
  }

  lemma StripAll(used: map<nat, nat>, ps: seq<nat>, sz: seq<nat>)
    requires Lists(used, ps, sz)
    ensures Stripped(used, ps, |ps|) == map[]
  {
  }

  lemma NoneUsed(u: nat, L: Layout, frag: int, spare: int)
    requires Sound(u, L) && Counts(u, L, frag, spare) && L.used == map[]
    ensures L.gap + spare == u
  {
    SpanSize(L.gap, u);
    assert SpareSet(u, L) == Span(L.gap, u);
  }
}
