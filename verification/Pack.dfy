/** How balance_nonroot divides the cells of up to three siblings over at most five pages. */
module Pack {
  import opened Results

  /** w holds the bytes each cell takes with its pointer; u is the room on a page; in a tree that is not a
      leaf-data tree one cell between two pages becomes their divider. */
  datatype Job = Job(w: seq<nat>, u: nat, leafData: bool) {
    function N(): nat { |w| }
    function Gap(): nat { if leafData then 0 else 1 }
  }

  const MAX_PAGES: nat := 5

  /** Bytes of the first x cells. */
  function P(w: seq<nat>, x: nat): (r: nat)
    requires x <= |w| + 1
  {
    if x == 0 then 0 else if x == |w| + 1 then P(w, x - 1) else P(w, x - 1) + w[x - 1]
  }

  lemma {:induction false} PGrows(w: seq<nat>, x: nat, y: nat)
    requires x <= y <= |w| + 1
    ensures P(w, x) <= P(w, y)
  {
    if x < y { PGrows(w, x, y - 1); }
  }

  ghost predicate InRange(j: Job, c: seq<nat>) { forall t | 0 <= t < |c| :: c[t] <= j.N() }

  /** First cell of page i under the cuts c: c[i] is the cell after the last one of page i. */
  function Start(j: Job, c: seq<nat>, i: nat): nat
    requires i <= |c|
  {
    if i == 0 then 0 else c[i - 1] + j.Gap()
  }

  /** Bytes on page i, as the signed difference of two prefix sums. */
  ghost function Size(j: Job, c: seq<nat>, i: nat): int
    requires i < |c| && InRange(j, c)
  {
    P(j.w, c[i]) - P(j.w, Start(j, c, i))
  }

  ghost predicate Cuts(j: Job, c: seq<nat>) {
    && 0 < |c| && c[|c| - 1] == j.N()
    && InRange(j, c)
  }

  /** A legal division: every page has a cell, and none overflows. */
  ghost predicate Legal(j: Job, c: seq<nat>) {
    && Cuts(j, c)
    && (forall i | 0 <= i < |c| :: Start(j, c, i) < c[i] && Size(j, c, i) <= j.u)
  }

  /** As Legal, but empty pages are allowed. */
  ghost predicate Fits(j: Job, c: seq<nat>) {
    && Cuts(j, c)
    && (forall i | 0 <= i < |c| :: Size(j, c, i) <= j.u)
  }

  /** Page i could not take one more cell. */
  ghost predicate FullAt(j: Job, c: seq<nat>, i: nat)
    requires i < |c| && InRange(j, c)
  {
    c[i] < j.N() && Start(j, c, i) < c[i] && Size(j, c, i) <= j.u < Size(j, c, i) + j.w[c[i]]
  }

  /** Greedy from the left: every page but the last is as full as it can be. */
  ghost predicate Greedy(j: Job, c: seq<nat>) {
    && Cuts(j, c)
    && (forall i | 0 <= i < |c| - 1 :: FullAt(j, c, i))
    && Size(j, c, |c| - 1) <= j.u
  }

  ghost predicate Sizes(j: Job, c: seq<nat>, s: seq<int>) {
    |s| == |c| && InRange(j, c) && forall t | 0 <= t < |c| :: s[t] == Size(j, c, t)
  }

  lemma PStep(w: seq<nat>, x: nat)
    requires x < |w|
    ensures P(w, x + 1) == P(w, x) + w[x]
    ensures P(w, |w| + 1) == P(w, |w|)
  {
  }

  /** What moving the last cell of page i to the right adds to page i+1. */
  function Passed(j: Job, x: nat): nat
    requires 0 < x <= j.N()
  {
    if j.leafData then j.w[x - 1] else if x < j.N() then j.w[x] else 0
  }

  /** The cut after page i moves one cell to the left. */
  lemma CutLeft(j: Job, c: seq<nat>, s: seq<int>, i: nat)
    requires Sizes(j, c, s) && i + 1 < |c| && 0 < c[i]
    ensures Sizes(j, c[i := c[i] - 1], s[i := s[i] - j.w[c[i] - 1]][i + 1 := s[i + 1] + Passed(j, c[i])])
  {
    var c2 := c[i := c[i] - 1];
    PStep(j.w, c[i] - 1);
    if c[i] < j.N() { PStep(j.w, c[i]); }
    hide P;
    forall t | 0 <= t < |c|
      ensures Size(j, c2, t) == s[i := s[i] - j.w[c[i] - 1]][i + 1 := s[i + 1] + Passed(j, c[i])][t]
    {
      assert s[t] == Size(j, c, t);
    }
  }

  /** The cut after page i moves one cell to the right. */
  lemma CutRight(j: Job, c: seq<nat>, s: seq<int>, i: nat)
    requires Sizes(j, c, s) && i + 1 < |c| && c[i] < j.N()
    ensures Sizes(j, c[i := c[i] + 1], s[i := s[i] + j.w[c[i]]][i + 1 := s[i + 1] - Passed(j, c[i] + 1)])
  {
    var c2 := c[i := c[i] + 1];
    PStep(j.w, c[i]);
    if c[i] + 1 < j.N() { PStep(j.w, c[i] + 1); }
    hide P;
    forall t | 0 <= t < |c|
      ensures Size(j, c2, t) == s[i := s[i] + j.w[c[i]]][i + 1 := s[i + 1] - Passed(j, c[i] + 1)][t]
    {
      assert s[t] == Size(j, c, t);
    }
  }

  /** One more page, still empty, at the right end. */
  lemma AddPage(j: Job, c: seq<nat>, s: seq<int>)
    requires Cuts(j, c) && Sizes(j, c, s)
    ensures Cuts(j, c + [j.N()]) && Sizes(j, c + [j.N()], s + [0])
  {
    var c2 := c + [j.N()];
    PGrows(j.w, j.N(), j.N() + j.Gap());
    forall t | 0 <= t < |c2| ensures Size(j, c2, t) == (s + [0])[t] {
      if t < |c| { assert Size(j, c2, t) == Size(j, c, t); }
    }
  }

  /** Each cell fits on a page by itself. */
  ghost predicate Small(j: Job) { forall t | 0 <= t < |j.w| :: 0 < j.w[t] <= j.u }

  ghost predicate FullBefore(j: Job, c: seq<nat>, i: nat)
    requires i <= |c| && InRange(j, c)
  {
    forall t | 0 <= t < i :: FullAt(j, c, t)
  }

  /** Greedy cuts are never to the left of the cuts of any division that fits. */
  lemma {:induction false} Ahead(j: Job, c: seq<nat>, d: seq<nat>, i: nat)
    requires i < |c| && i < |d| && InRange(j, c) && Fits(j, d) && FullBefore(j, c, i + 1)
    ensures d[i] <= c[i]
  {
    if i > 0 { Ahead(j, c, d, i - 1); }
    assert FullAt(j, c, i) && Size(j, d, i) <= j.u;
    if d[i] > c[i] {
      PGrows(j.w, c[i] + 1, d[i]);
      PGrows(j.w, Start(j, d, i), Start(j, c, i));
      PStep(j.w, c[i]);
    }
  }

  /** Greedy division uses the least number of pages. */
  lemma GreedyLeast(j: Job, c: seq<nat>, d: seq<nat>)
    requires Greedy(j, c) && Fits(j, d)
    ensures |c| <= |d|
  {
    if |d| < |c| {
      assert FullBefore(j, c, |d|) && FullAt(j, c, |d| - 1);
      Ahead(j, c, d, |d| - 1);
    }
  }

  /** When the greedy pages are full and the rest overflows one more page, no division of that many pages fits. */
  lemma NoRoom(j: Job, c: seq<nat>, d: seq<nat>)
    requires Cuts(j, c) && FullBefore(j, c, |c| - 1) && Size(j, c, |c| - 1) > j.u
    requires Fits(j, d)
    ensures |c| < |d|
  {
    if |d| <= |c| {
      var n := |d| - 1;
      if n < |c| - 1 {
        assert FullAt(j, c, n);
        Ahead(j, c, d, n);
      } else {
        assert Size(j, d, n) <= j.u;
        if n > 0 { Ahead(j, c, d, n - 1); }
        PGrows(j.w, Start(j, d, n), Start(j, c, n));
      }
    }
  }

  // ---- the left pass ----

  ghost predicate State(j: Job, cnt: array<nat>, sz: array<int>, k: nat)
    reads cnt, sz
  {
    && 0 < k <= MAX_PAGES == cnt.Length == sz.Length
    && Cuts(j, cnt[..k]) && Sizes(j, cnt[..k], sz[..k])
  }

  /** One more page at the right end, with nothing on it. */
  method OpenPage(j: Job, cnt: array<nat>, sz: array<int>, k: nat)
    requires State(j, cnt, sz, k) && k < MAX_PAGES
    modifies cnt, sz
    ensures State(j, cnt, sz, k + 1) && cnt[..k] == old(cnt[..k]) && sz[..k] == old(sz[..k])
  {
    hide P, Size, Start;
    AddPage(j, cnt[..k], sz[..k]);
    sz[k], cnt[k] := 0, j.N();
    assert cnt[..k + 1] == cnt[..k] + [j.N()] && sz[..k + 1] == sz[..k] + [0];
  }

  /** The last cell of page i goes over to page i+1, or becomes the divider in place of the one that goes over. */
  method PassRight(j: Job, cnt: array<nat>, sz: array<int>, k: nat, i: nat)
    requires State(j, cnt, sz, k) && i + 1 < k && 0 < cnt[i]
    modifies cnt, sz
    ensures State(j, cnt, sz, k) && cnt[..k] == old(cnt[..k][i := cnt[i] - 1])
  {
    hide P, Size, Start;
    CutLeft(j, cnt[..k], sz[..k], i);
    ghost var c, s := cnt[..k], sz[..k];
    var moved := j.w[cnt[i] - 1];
    sz[i] := sz[i] - moved;
    if !j.leafData { moved := if cnt[i] < j.N() then j.w[cnt[i]] else 0; }
    sz[i + 1] := sz[i + 1] + moved;
    cnt[i] := cnt[i] - 1;
    assert cnt[..k] == c[i := c[i] - 1];
    assert sz[..k] == s[i := s[i] - j.w[c[i] - 1]][i + 1 := s[i + 1] + Passed(j, c[i])];
  }

  /** Moves cells of page i to the right until it no longer overflows, opening a page if there is none. */
  method SpillRight(j: Job, cnt: array<nat>, sz: array<int>, k0: nat, i: nat) returns (rc: Rc, k: nat)
    requires State(j, cnt, sz, k0) && i < k0
    modifies cnt, sz
    ensures k0 <= k && (rc == OK ==> State(j, cnt, sz, k) && sz[i] <= j.u)
    ensures rc != OK ==> k0 == MAX_PAGES == i + 1 && cnt[..] == old(cnt[..]) && old(sz[i]) > j.u
    ensures forall t | 0 <= t < i :: cnt[t] == old(cnt[t])
  {
    hide P, Size, Start, Cuts, Sizes;
    rc, k := OK, k0;
    while sz[i] > j.u
      invariant rc == OK && k0 <= k && i < k && State(j, cnt, sz, k)
      invariant forall t | 0 <= t < i :: cnt[t] == old(cnt[t])
      invariant i + 1 == k0 == MAX_PAGES ==> cnt[..] == old(cnt[..]) && sz[i] == old(sz[i])
      decreases cnt[i]
    {
      ghost var c := cnt[..k];
      Overfull(j, c, sz[..k], i);
      if i + 1 >= k {
        k := i + 2;
        if k > MAX_PAGES { rc := CORRUPT; return; }
        OpenPage(j, cnt, sz, k - 1);
        assert cnt[..i + 1] == c;
      }
      assert cnt[i] == c[i] && i + 1 < MAX_PAGES;
      PassRight(j, cnt, sz, k, i);
    }
  }

  lemma Overfull(j: Job, c: seq<nat>, s: seq<int>, i: nat)
    requires Sizes(j, c, s) && i < |c| && s[i] > j.u
    ensures Start(j, c, i) < c[i] && 0 < c[i]
  {
    if c[i] <= Start(j, c, i) { PGrows(j.w, c[i], Start(j, c, i)); }
  }

  /** Takes cells from the right into page i while they fit. */
  method FillUp(j: Job, cnt: array<nat>, sz: array<int>, k: nat, i: nat)
    requires State(j, cnt, sz, k) && i < k && sz[i] <= j.u
    modifies cnt, sz
    ensures State(j, cnt, sz, k) && sz[i] <= j.u
    ensures cnt[i] < j.N() ==> sz[i] + j.w[cnt[i]] > j.u
    ensures forall t | 0 <= t < i :: cnt[t] == old(cnt[t])
  {
    hide P, Size, Start;
    while cnt[i] < j.N()
      invariant State(j, cnt, sz, k) && sz[i] <= j.u
      invariant forall t | 0 <= t < i :: cnt[t] == old(cnt[t])
      decreases j.N() - cnt[i]
    {
      var taken := j.w[cnt[i]];
      if sz[i] + taken > j.u { break; }
      CutRight(j, cnt[..k], sz[..k], i);
      ghost var c, s := cnt[..k], sz[..k];
      sz[i] := sz[i] + taken;
      cnt[i] := cnt[i] + 1;
      if !j.leafData { taken := if cnt[i] < j.N() then j.w[cnt[i]] else 0; }
      sz[i + 1] := sz[i + 1] - taken;
      assert cnt[..k] == c[i := c[i] + 1];
      assert sz[..k] == s[i := s[i] + j.w[c[i]]][i + 1 := s[i + 1] - Passed(j, c[i] + 1)];
    }
  }

  /** A page that is as full as it can be holds a cell, when every cell fits on a page. */
  lemma FullPage(j: Job, c: seq<nat>, s: seq<int>, i: nat)
    requires Small(j) && Sizes(j, c, s) && i < |c| && c[i] < j.N()
    requires s[i] <= j.u < s[i] + j.w[c[i]]
    ensures FullAt(j, c, i) && c[i] > if i > 0 then c[i - 1] else 0
  {
    if c[i] <= Start(j, c, i) { PGrows(j.w, c[i], Start(j, c, i)); }
  }

  lemma FullKept(j: Job, c: seq<nat>, c2: seq<nat>, i: nat)
    requires i <= |c| && i <= |c2| && InRange(j, c) && InRange(j, c2) && FullBefore(j, c, i)
    requires forall t | 0 <= t < i :: c2[t] == c[t]
    ensures FullBefore(j, c2, i)
  {
    hide P;
    forall t | 0 <= t < i ensures FullAt(j, c2, t) {
      assert FullAt(j, c, t);
    }
  }

  lemma Truncated(j: Job, c: seq<nat>, s: seq<int>, k: nat)
    requires 0 < k <= |c| && Sizes(j, c, s) && c[k - 1] == j.N()
    ensures Cuts(j, c[..k]) && Sizes(j, c[..k], s[..k])
  {
    hide P;
    forall t | 0 <= t < k ensures s[..k][t] == Size(j, c[..k], t) {
      assert s[t] == Size(j, c, t);
    }
  }

  /** No division over at most five pages fits. */
  ghost predicate Hopeless(j: Job) { forall d | Fits(j, d) :: MAX_PAGES < |d| }

  /** Page i is made as full as it can be, with the cells of the pages after it. */
  method PackPage(j: Job, cnt: array<nat>, sz: array<int>, k0: nat, i: nat) returns (rc: Rc, k: nat)
    requires State(j, cnt, sz, k0) && Small(j) && i < k0 && FullBefore(j, cnt[..k0], i)
    modifies cnt, sz
    ensures rc != OK ==> Hopeless(j)
    ensures rc == OK ==> i < k && State(j, cnt, sz, k) && sz[i] <= j.u && FullBefore(j, cnt[..k], i)
    ensures rc == OK && cnt[i] < j.N() ==> FullAt(j, cnt[..k], i) && cnt[i] > if i > 0 then cnt[i - 1] else 0
  {
    hide P, Size, FullAt, Start, Small, Sizes, FullBefore, Hopeless;
    ghost var c0 := cnt[..k0];
    SizeIs(j, c0, sz[..k0], i);
    rc, k := SpillRight(j, cnt, sz, k0, i);
    if rc != OK {
      assert cnt[..k0] == c0;
      GivesUp(j, c0, i);
      return;
    }
    FillUp(j, cnt, sz, k, i);
    FullKept(j, c0, cnt[..k], i);
    if cnt[i] < j.N() { FullPage(j, cnt[..k], sz[..k], i); }
  }

  /** The left pass packs each page as full as it can be. It gives up exactly when no division over five pages fits. */
  method LeftPass(j: Job, cnt: array<nat>, sz: array<int>, nOld: nat) returns (rc: Rc, k: nat)
    requires State(j, cnt, sz, nOld) && Small(j)
    modifies cnt, sz
    ensures rc == OK ==> State(j, cnt, sz, k) && Greedy(j, cnt[..k])
    ensures rc != OK <==> Hopeless(j)
  {
    hide P, Size, FullAt, Start, Small, Sizes, Hopeless, Greedy, Fits;
    rc, k := OK, nOld;
    var i := 0;
    while i < k
      invariant rc == OK && i <= k && State(j, cnt, sz, k)
      invariant FullBefore(j, cnt[..k], if i == k then k - 1 else i)
      invariant i == k ==> sz[k - 1] <= j.u
      decreases MAX_PAGES - i
    {
      rc, k := PackPage(j, cnt, sz, k, i);
      if rc != OK { return; }
      if cnt[i] >= j.N() {
        ghost var c1 := cnt[..k];
        Truncated(j, c1, sz[..k], i + 1);
        assert cnt[..i + 1] == c1[..i + 1] && sz[..i + 1] == sz[..k][..i + 1];
        FullKept(j, c1, cnt[..i + 1], i);
        k := i + 1;
      } else if cnt[i] <= (if i > 0 then cnt[i - 1] else 0) {
        rc := CORRUPT;
        return;
      }
      i := i + 1;
    }
    LastSize(j, cnt[..k], sz[..k]);
    IsGreedy(j, cnt[..k]);
  }

  lemma GivesUp(j: Job, c: seq<nat>, i: nat)
    requires Cuts(j, c) && |c| == MAX_PAGES == i + 1 && FullBefore(j, c, i) && Size(j, c, i) > j.u
    ensures Hopeless(j)
  {
    forall d | Fits(j, d) ensures MAX_PAGES < |d| {
      NoRoom(j, c, d);
    }
  }

  lemma SizeIs(j: Job, c: seq<nat>, s: seq<int>, i: nat)
    requires Sizes(j, c, s) && i < |c|
    ensures s[i] == Size(j, c, i)
  {
    hide P, Size;
  }

  lemma LastSize(j: Job, c: seq<nat>, s: seq<int>)
    requires Cuts(j, c) && Sizes(j, c, s) && s[|c| - 1] <= j.u
    ensures Size(j, c, |c| - 1) <= j.u
  {
  }

  /** A greedy division over at most five pages is itself a division that fits. */
  lemma IsGreedy(j: Job, c: seq<nat>)
    requires Cuts(j, c) && FullBefore(j, c, |c| - 1) && Size(j, c, |c| - 1) <= j.u && |c| <= MAX_PAGES
    ensures Greedy(j, c) && Fits(j, c) && !Hopeless(j)
  {
    hide P, Size;
    forall i | 0 <= i < |c| ensures Size(j, c, i) <= j.u {
      if i < |c| - 1 { assert FullAt(j, c, i); }
    }
    assert Fits(j, c);
  }

  // ---- the right pass ----

  /** Where cells become dividers, any two neighbours fit on a page. */
  ghost predicate Pairs(j: Job) { j.leafData || forall t | 0 < t < |j.w| :: j.w[t - 1] + j.w[t] <= j.u }

  /** Pages from i on are legal; the pages before are as the left pass left them; page i itself may still be empty. */
  ghost predicate Legal2(j: Job, c: seq<nat>, i: nat) {
    && Cuts(j, c) && i < |c|
    && (forall t | 0 <= t < |c| :: Size(j, c, t) <= j.u)
    && (forall t | 0 <= t < |c| && t != i :: Start(j, c, t) < c[t])
    && (Start(j, c, i) < c[i] || (i == |c| - 1 > 0 && !j.leafData && Start(j, c, i) == c[i] && FullAt(j, c, i - 1)))
  }

  lemma GreedyLegal2(j: Job, c: seq<nat>)
    requires Small(j) && Greedy(j, c) && 0 < j.N()
    ensures Legal2(j, c, |c| - 1)
  {
    hide P, Size;
    forall t | 0 <= t < |c| - 1 ensures Start(j, c, t) < c[t] && Size(j, c, t) <= j.u {
      assert FullAt(j, c, t);
    }
    if |c| > 1 { assert FullAt(j, c, |c| - 2); }
  }

  lemma Positive(j: Job, c: seq<nat>, i: nat)
    requires Small(j) && InRange(j, c) && i < |c|
    ensures Size(j, c, i) > 0 <==> Start(j, c, i) < c[i]
    ensures Start(j, c, i) == c[i] ==> Size(j, c, i) == 0
  {
    if Start(j, c, i) < c[i] {
      PStep(j.w, c[i] - 1);
      PGrows(j.w, Start(j, c, i), c[i] - 1);
    } else {
      PGrows(j.w, c[i], Start(j, c, i));
    }
  }

  /** What one move across the cut between pages i-1 and i does. */
  lemma Shifted(j: Job, c: seq<nat>, i: nat)
    requires Small(j) && Pairs(j) && Legal2(j, c, i) && 0 < i
    requires var r := c[i - 1] - 1; var d := r + 1 - (if j.leafData then 1 else 0);
      0 <= d < j.N() && (Size(j, c, i) == 0 || Size(j, c, i) + j.w[d] <= Size(j, c, i - 1) - j.w[r])
    ensures Legal2(j, c[i - 1 := c[i - 1] - 1], i) && Size(j, c[i - 1 := c[i - 1] - 1], i) > 0
  {
    hide P, Size, FullAt, Small, Pairs, Passed, Start;
    var c2 := c[i - 1 := c[i - 1] - 1];
    ShiftRoom(j, c, i);
    CutMoved(j, c, i - 1);
    Positive(j, c2, i);
    Positive(j, c2, i - 1);
    assert InRange(j, c2) && Cuts(j, c2);
    forall t | 0 <= t < |c2| ensures Start(j, c2, t) < c2[t] && Size(j, c2, t) <= j.u {
      if t != i && t != i - 1 {
        assert Size(j, c2, t) == Size(j, c, t) && Start(j, c2, t) == Start(j, c, t) && c2[t] == c[t];
      }
    }
  }

  lemma CutMoved(j: Job, c: seq<nat>, i: nat)
    requires InRange(j, c) && i + 1 < |c| && 0 < c[i]
    ensures var c2 := c[i := c[i] - 1];
      && Size(j, c2, i) == Size(j, c, i) - j.w[c[i] - 1]
      && Size(j, c2, i + 1) == Size(j, c, i + 1) + Passed(j, c[i])
      && forall t | 0 <= t < |c| && t != i && t != i + 1 :: Size(j, c2, t) == Size(j, c, t) && Start(j, c2, t) == Start(j, c, t)
  {
    PStep(j.w, c[i] - 1);
    if c[i] < j.N() { PStep(j.w, c[i]); }
    hide P;
  }

  /** After the move the right page fits and the left page still has a cell. */
  lemma ShiftRoom(j: Job, c: seq<nat>, i: nat)
    requires Small(j) && Pairs(j) && Legal2(j, c, i) && 0 < i
    requires var r := c[i - 1] - 1; var d := r + 1 - (if j.leafData then 1 else 0);
      0 <= d < j.N() && (Size(j, c, i) == 0 || Size(j, c, i) + j.w[d] <= Size(j, c, i - 1) - j.w[r])
    ensures Passed(j, c[i - 1]) == j.w[c[i - 1] - (if j.leafData then 1 else 0)]
    ensures 0 < Size(j, c, i) + Passed(j, c[i - 1]) <= j.u
    ensures 0 < Size(j, c, i - 1) - j.w[c[i - 1] - 1]
  {
    Positive(j, c, i);
    hide P, Size;
    if Size(j, c, i) == 0 {
      assert FullAt(j, c, i - 1);
      assert j.w[c[i - 1] - 1] + j.w[c[i - 1]] <= j.u;
    }
  }

  /** Pages i-1 and i are left as they are: there is a cell on the right, and one cell more would make that page the
      bigger one. A bulk load only sees to it that there is a cell. */
  ghost predicate Stops(j: Job, c: seq<nat>, i: nat, bBulk: bool)
    requires 0 < i < |c| && InRange(j, c)
  {
    && Size(j, c, i) != 0 && 0 < c[i - 1] && c[i - 1] - 1 + j.Gap() < j.N()
    && (bBulk || Size(j, c, i) + j.w[c[i - 1] - 1 + j.Gap()] > Size(j, c, i - 1) - j.w[c[i - 1] - 1])
  }

  /** The cut before page i has moved from its place in g to the left, to where it first could stop. */
  ghost predicate Evened(j: Job, g: seq<nat>, c: seq<nat>, i: nat, bBulk: bool)
    requires 0 < i < |c| == |g| && InRange(j, g) && InRange(j, c)
  {
    && c[i - 1] <= g[i - 1] && Stops(j, Moved(g, c, i, c[i - 1]), i, bBulk)
    && forall x | c[i - 1] < x <= g[i - 1] :: !Stops(j, Moved(g, c, i, x), i, bBulk)
  }

  /** The cuts while the one before page i moves: those before it are still in their first place. */
  ghost function Moved(g: seq<nat>, c: seq<nat>, i: nat, x: nat): (m: seq<nat>)
    requires 0 < i < |c| == |g|
    ensures |m| == |c| && m[i - 1] == x && forall t | 0 <= t < |m| && t != i - 1 :: m[t] == if t < i then g[t] else c[t]
  {
    g[..i - 1] + [x] + c[i..]
  }

  /** Evens out pages i-1 and i: cells move right until one more would make the right page the bigger one. */
  method ShiftPair(j: Job, cnt: array<nat>, sz: array<int>, k: nat, i: nat, bBulk: bool) returns (rc: Rc)
    requires State(j, cnt, sz, k) && Small(j) && Pairs(j) && 0 < i < k && Legal2(j, cnt[..k], i)
    modifies cnt, sz
    ensures rc == OK && State(j, cnt, sz, k) && Legal2(j, cnt[..k], i - 1)
    ensures forall t | 0 <= t < k && t != i - 1 :: cnt[t] == old(cnt[t])
    ensures cnt[i - 1] <= old(cnt[i - 1])
    ensures Evened(j, old(cnt[..k]), cnt[..k], i, bBulk)
  {
    hide P, Size, Start, FullAt, Small, Pairs, Legal2, Others, Sizes, Passed, Stops, Moved, NoneBefore, Evened;
    rc := OK;
    var szRight, szLeft := sz[i], sz[i - 1];
    ghost var c0, s0 := cnt[..k], sz[..k];
    LeftHasCell(j, c0, i);
    NoneYet(j, c0, i, bBulk);
    OthersStart(j, c0, s0, i);
    var r: int := cnt[i - 1] - 1;
    var d: int := r + 1 - (if j.leafData then 1 else 0);
    while true
      invariant 0 <= r < cnt[i - 1] == r + 1 && d == r + j.Gap() < j.N() && Cuts(j, cnt[..k])
      invariant Legal2(j, cnt[..k], i) && szRight == Size(j, cnt[..k], i) && szLeft == Size(j, cnt[..k], i - 1)
      invariant sz[..k] == s0 && Others(j, cnt[..k], c0, i)
      invariant NoneBefore(j, c0, cnt[..k], i, bBulk)
      decreases r
    {
      if szRight != 0 && (bBulk || szRight + j.w[d] > szLeft - j.w[r]) { break; }
      ghost var c := cnt[..k];
      ShiftStep(j, c, c0, i);
      NoneHere(j, c0, c, i, bBulk);
      szRight := szRight + j.w[d];
      szLeft := szLeft - j.w[r];
      cnt[i - 1] := r;
      assert cnt[..k] == c[i - 1 := c[i - 1] - 1];
      r := r - 1;
      d := d - 1;
      if r < 0 { break; }
    }
    LeftHasCell(j, cnt[..k], i);
    EvenedHere(j, c0, cnt[..k], i, bBulk);
    OthersCuts(j, cnt[..k], c0, i);
    RightHasCell(j, cnt[..k], i, szRight);
    sz[i] := szRight;
    sz[i - 1] := szLeft;
    SizesBack(j, c0, s0, cnt[..k], sz[..k], i);
    if cnt[i - 1] <= (if i > 1 then cnt[i - 2] else 0) { rc := CORRUPT; }
  }

  lemma StopsHere(j: Job, c: seq<nat>, i: nat, bBulk: bool)
    requires 0 < i < |c| && InRange(j, c) && 0 < c[i - 1] && c[i - 1] - 1 + j.Gap() < j.N()
    ensures Stops(j, c, i, bBulk) <==>
      Size(j, c, i) != 0 && (bBulk || Size(j, c, i) + j.w[c[i - 1] - 1 + j.Gap()] > Size(j, c, i - 1) - j.w[c[i - 1] - 1])
  {
  }

  /** The cut before page i has come from its place in c0 without a place to stop. */
  ghost predicate NoneBefore(j: Job, c0: seq<nat>, c: seq<nat>, i: nat, bBulk: bool) {
    && 0 < i < |c| == |c0| && InRange(j, c0) && c[i - 1] <= c0[i - 1] && c == c0[i - 1 := c[i - 1]]
    && forall x | c[i - 1] < x <= c0[i - 1] :: !Stops(j, Moved(c0, c0, i, x), i, bBulk)
  }

  lemma NoneYet(j: Job, c0: seq<nat>, i: nat, bBulk: bool)
    requires 0 < i < |c0| && InRange(j, c0)
    ensures NoneBefore(j, c0, c0, i, bBulk)
  {
  }

  lemma NoneHere(j: Job, c0: seq<nat>, c: seq<nat>, i: nat, bBulk: bool)
    requires NoneBefore(j, c0, c, i, bBulk) && InRange(j, c) && 0 < c[i - 1] && c[i - 1] - 1 + j.Gap() < j.N()
    requires !(Size(j, c, i) != 0 && (bBulk || Size(j, c, i) + j.w[c[i - 1] - 1 + j.Gap()] > Size(j, c, i - 1) - j.w[c[i - 1] - 1]))
    ensures NoneBefore(j, c0, c[i - 1 := c[i - 1] - 1], i, bBulk)
  {
    hide Size;
    StopsHere(j, c, i, bBulk);
    assert Moved(c0, c0, i, c[i - 1]) == c;
  }

  lemma EvenedHere(j: Job, c0: seq<nat>, c: seq<nat>, i: nat, bBulk: bool)
    requires NoneBefore(j, c0, c, i, bBulk) && InRange(j, c) && 0 < c[i - 1] && c[i - 1] - 1 + j.Gap() < j.N()
    requires Size(j, c, i) != 0 && (bBulk || Size(j, c, i) + j.w[c[i - 1] - 1 + j.Gap()] > Size(j, c, i - 1) - j.w[c[i - 1] - 1])
    ensures Evened(j, c0, c, i, bBulk)
  {
    StopsHere(j, c, i, bBulk);
    hide Stops;
    assert Moved(c0, c, i, c[i - 1]) == c;
    forall x: nat ensures Moved(c0, c, i, x) == Moved(c0, c0, i, x) {}
  }

  /** What the later cuts do does not touch it. */
  lemma StillEvened(j: Job, g: seq<nat>, c: seq<nat>, c2: seq<nat>, i: nat, bBulk: bool)
    requires 0 < i < |c| == |g| == |c2| && InRange(j, g) && InRange(j, c) && InRange(j, c2)
    requires c[i - 1..] == c2[i - 1..] && Evened(j, g, c, i, bBulk)
    ensures Evened(j, g, c2, i, bBulk)
  {
    hide Stops;
    assert c[i - 1] == c[i - 1..][0] == c2[i - 1..][0] == c2[i - 1];
    assert c[i..] == c[i - 1..][1..] == c2[i - 1..][1..] == c2[i..];
    forall x: nat ensures Moved(g, c, i, x) == Moved(g, c2, i, x) {}
  }

  /** The next pair starts from the first cuts. */
  lemma NextEvened(j: Job, g: seq<nat>, c: seq<nat>, c2: seq<nat>, i: nat, bBulk: bool)
    requires 0 < i < |c| == |g| == |c2| && InRange(j, g) && InRange(j, c) && InRange(j, c2)
    requires c[..i] == g[..i] && (forall t | 0 <= t < |c| && t != i - 1 :: c2[t] == c[t]) && Evened(j, c, c2, i, bBulk)
    ensures Evened(j, g, c2, i, bBulk)
  {
    hide Stops;
    assert c[i - 1] == c[..i][i - 1] == g[i - 1];
    forall x: nat ensures Moved(g, c2, i, x) == Moved(c, c2, i, x) {
      forall t | 0 <= t < i ensures c[t] == g[t] { assert c[..i][t] == g[..i][t]; }
    }
  }

  ghost predicate EvenedFrom(j: Job, g: seq<nat>, c: seq<nat>, i: nat, bBulk: bool) {
    |c| == |g| && InRange(j, g) && InRange(j, c) && forall t | i < t < |c| && 0 < t :: Evened(j, g, c, t, bBulk)
  }

  lemma MoreEvened(j: Job, g: seq<nat>, c: seq<nat>, c2: seq<nat>, i: nat, bBulk: bool)
    requires EvenedFrom(j, g, c, i, bBulk) && 0 < i < |c| == |c2| && InRange(j, c2) && c[..i] == g[..i]
    requires (forall t | 0 <= t < |c| && t != i - 1 :: c2[t] == c[t]) && Evened(j, c, c2, i, bBulk)
    ensures EvenedFrom(j, g, c2, i - 1, bBulk) && c2[..i - 1] == g[..i - 1]
  {
    hide Evened;
    NextEvened(j, g, c, c2, i, bBulk);
    forall t | i < t < |c| ensures Evened(j, g, c2, t, bBulk) { StillEvened(j, g, c, c2, t, bBulk); }
    forall t | 0 <= t < i - 1 ensures c2[t] == g[t] { assert c[..i][t] == g[..i][t]; }
  }

  lemma ShiftStep(j: Job, c: seq<nat>, c0: seq<nat>, i: nat)
    requires Small(j) && Pairs(j) && 0 < i < |c| == |c0| && Legal2(j, c, i) && Cuts(j, c) && InRange(j, c0) && Others(j, c, c0, i)
    requires 0 < c[i - 1] && c[i - 1] - 1 + j.Gap() < j.N()
    requires Size(j, c, i) == 0 || Size(j, c, i) + j.w[c[i - 1] - 1 + j.Gap()] <= Size(j, c, i - 1) - j.w[c[i - 1] - 1]
    ensures var c2 := c[i - 1 := c[i - 1] - 1];
      && Cuts(j, c2) && Legal2(j, c2, i) && Others(j, c2, c0, i)
      && Size(j, c2, i) == Size(j, c, i) + j.w[c[i - 1] - 1 + j.Gap()] != 0
      && Size(j, c2, i - 1) == Size(j, c, i - 1) - j.w[c[i - 1] - 1]
      && c2[i - 1] > 0
  {
    hide P, Size, Start, FullAt, Small, Pairs, Legal2, Passed;
    Shifted(j, c, i);
    ShiftRoom(j, c, i);
    CutMoved(j, c, i - 1);
    LeftHasCell(j, c[i - 1 := c[i - 1] - 1], i);
  }

  lemma OthersCuts(j: Job, c: seq<nat>, c0: seq<nat>, i: nat)
    requires 0 < i < |c| == |c0| && InRange(j, c) && InRange(j, c0) && Others(j, c, c0, i)
    ensures forall t | 0 <= t < |c| && t != i - 1 :: c[t] == c0[t]
  {
    hide Size;
  }

  lemma OthersStart(j: Job, c: seq<nat>, s: seq<int>, i: nat)
    requires 0 < i < |c| && Sizes(j, c, s)
    ensures s[i] == Size(j, c, i) && s[i - 1] == Size(j, c, i - 1) && Others(j, c, c, i)
  {
    hide P, Size;
  }

  ghost predicate Others(j: Job, c: seq<nat>, c0: seq<nat>, i: nat)
    requires 0 < i < |c| == |c0| && InRange(j, c) && InRange(j, c0)
  {
    && (forall t | 0 <= t < |c| && t != i - 1 :: c[t] == c0[t])
    && (forall t | 0 <= t < |c| && t != i && t != i - 1 :: Size(j, c, t) == Size(j, c0, t))
  }

  lemma LeftHasCell(j: Job, c: seq<nat>, i: nat)
    requires Legal2(j, c, i) && 0 < i < |c|
    ensures c[i - 1] > (if i > 1 then c[i - 2] else 0)
    ensures c[i - 1] - 1 + j.Gap() < j.N()
  {
    hide Legal2;
    LegalStep(j, c, i, i - 1);
    CutsBelow(j, c, i, |c| - 1);
  }

  lemma LegalStep(j: Job, c: seq<nat>, i: nat, t: nat)
    requires Legal2(j, c, i) && t < |c|
    ensures |c| > 0 && c[|c| - 1] == j.N()
    ensures t > 0 ==> c[t - 1] + j.Gap() <= c[t]
    ensures t != i ==> c[t] > if t > 0 then c[t - 1] else 0
  {
    hide P, Size, FullAt;
    assert Start(j, c, t) <= c[t];
  }

  lemma {:induction false} CutsBelow(j: Job, c: seq<nat>, i: nat, n: nat)
    requires Legal2(j, c, i) && 0 < i <= n < |c|
    ensures c[i - 1] + j.Gap() <= c[n] && c[|c| - 1] == j.N()
  {
    hide Legal2;
    LegalStep(j, c, i, n);
    if n > i { CutsBelow(j, c, i, n - 1); }
  }

  lemma RightHasCell(j: Job, c: seq<nat>, i: nat, szRight: int)
    requires Small(j) && Legal2(j, c, i) && 0 < i && szRight == Size(j, c, i) != 0
    ensures Legal2(j, c, i - 1)
  {
    Positive(j, c, i);
    hide P, Size, FullAt, Small;
  }

  lemma SizesBack(j: Job, c0: seq<nat>, s0: seq<int>, c: seq<nat>, s: seq<int>, i: nat)
    requires 0 < i < |c| == |c0| == |s0| == |s| && Sizes(j, c0, s0) && InRange(j, c) && Others(j, c, c0, i)
    requires s == s0[i := Size(j, c, i)][i - 1 := Size(j, c, i - 1)]
    ensures Sizes(j, c, s)
  {
    hide P, Size, Start;
  }

  lemma FirstFull(j: Job, c: seq<nat>)
    requires Greedy(j, c)
    ensures |c| > 1 ==> 0 < j.N()
  {
    if |c| > 1 { assert FullAt(j, c, 0); }
  }

  lemma NoCells(j: Job, c: seq<nat>)
    requires Greedy(j, c) && j.N() == 0
    ensures c == [0]
  {
    FirstFull(j, c);
  }

  /** Both passes: the packing is legal and uses as few pages as any division can. */
  method Divide(j: Job, cnt: array<nat>, sz: array<int>, nOld: nat, bBulk: bool) returns (rc: Rc, k: nat, ghost greedy: seq<nat>)
    requires State(j, cnt, sz, nOld) && Small(j) && Pairs(j)
    modifies cnt, sz
    ensures rc == OK ==> 0 < k <= MAX_PAGES == cnt.Length
    ensures rc == OK ==> State(j, cnt, sz, k) && if j.N() == 0 then cnt[..k] == [0] else Legal(j, cnt[..k])
    ensures rc == OK ==> forall d | Fits(j, d) :: k <= |d|
    ensures rc == OK ==> Greedy(j, greedy) && |greedy| == k && EvenedFrom(j, greedy, cnt[..k], 0, bBulk)
    ensures rc != OK <==> Hopeless(j)
  {
    hide P, Size, Start, FullAt, Small, Pairs, Evened, Hopeless, Greedy, Fits;
    greedy := [];
    rc, k := LeftPass(j, cnt, sz, nOld);
    if rc != OK { return; }
    greedy := cnt[..k];
    forall d | Fits(j, d) ensures k <= |d| { GreedyLeast(j, cnt[..k], d); }
    if j.N() == 0 { NoCells(j, cnt[..k]); } else { GreedyLegal2(j, cnt[..k]); }
    var i := k - 1;
    while i > 0
      invariant 0 <= i < k && rc == OK && State(j, cnt, sz, k)
      invariant if j.N() == 0 then cnt[..k] == [0] && i == 0 else Legal2(j, cnt[..k], i)
      invariant EvenedFrom(j, greedy, cnt[..k], i, bBulk) && cnt[..i] == greedy[..i]
    {
      ghost var c := cnt[..k];
      rc := ShiftPair(j, cnt, sz, k, i, bBulk);
      if rc != OK { return; }
      MoreEvened(j, greedy, c, cnt[..k], i, bBulk);
      i := i - 1;
    }
  }

  // ---- five pages are enough ----

  /** In a leaf-data tree: pages that fit, but for one overflow cell x on page p. */
  lemma LeafDataFits(j: Job, was: seq<nat>, p: nat, x: nat)
    requires j.leafData && Cuts(j, was) && p < |was| <= 3
    requires forall t | 0 <= t < |was| && t != p :: Size(j, was, t) <= j.u
    requires Start(j, was, p) <= x < was[p] && j.w[x] <= j.u
    requires Size(j, was, p) - j.w[x] <= j.u
    ensures !Hopeless(j)
  {
    var d := was[..p] + [x, x + 1] + was[p..];
    PStep(j.w, x);
    PGrows(j.w, Start(j, was, p), x);
    PGrows(j.w, x + 1, was[p]);
    hide P;
    forall t | 0 <= t < |d| ensures Size(j, d, t) <= j.u {
      if t < p {
        assert Size(j, d, t) == Size(j, was, t);
      } else if t > p + 2 {
        assert Size(j, d, t) == Size(j, was, t - 2);
      }
    }
    assert Fits(j, d);
  }

  /** The last cut at which a page beginning at start still fits. */
  lemma {:induction false} LastCut(j: Job, start: nat, from: nat) returns (c: nat)
    requires start <= from < j.N() && P(j.w, from) - P(j.w, start) <= j.u < P(j.w, j.N()) - P(j.w, start)
    ensures from <= c < j.N() && P(j.w, c) - P(j.w, start) <= j.u < P(j.w, c + 1) - P(j.w, start)
    decreases j.N() - from
  {
    if P(j.w, from + 1) - P(j.w, start) > j.u { return from; }
    c := LastCut(j, start, from + 1);
  }

  /** The cells from start on, which take at most m pages' room, divided over at most m pages with dividers between. */
  lemma {:induction false} CutsFrom(j: Job, start: nat, m: nat) returns (d: seq<nat>)
    requires !j.leafData && 0 < m && start <= j.N() && P(j.w, j.N()) - P(j.w, start) <= m * j.u
    ensures Cuts(j, d) && |d| <= m
    ensures P(j.w, d[0]) - P(j.w, start) <= j.u
    ensures forall i | 0 < i < |d| :: Size(j, d, i) <= j.u
    decreases m
  {
    if P(j.w, j.N()) - P(j.w, start) <= j.u { return [j.N()]; }
    assert m > 1;
    var c := LastCut(j, start, start);
    PStep(j.w, c);
    assert (m - 1) * j.u == m * j.u - j.u;
    var e := CutsFrom(j, c + 1, m - 1);
    d := [c] + e;
    hide P;
    forall i | 0 < i < |d| ensures Size(j, d, i) <= j.u {
      if i > 1 { assert Size(j, d, i) == Size(j, e, i - 1); }
    }
  }

  /** In any other tree: three full pages, and up to six more cells of at most a third of a page each. */
  lemma ThirdFits(j: Job, stored: nat, loose: nat)
    requires !j.leafData && (forall t | 0 <= t < |j.w| :: 0 < 3 * j.w[t] <= j.u)
    requires P(j.w, j.N()) == stored + loose && stored <= 3 * j.u && loose <= 6 * (j.u / 3)
    ensures Small(j) && Pairs(j) && !Hopeless(j)
  {
    var d := CutsFrom(j, 0, MAX_PAGES);
    hide P;
    forall i | 0 <= i < |d| ensures Size(j, d, i) <= j.u {
      if i == 0 { assert P(j.w, 0) == 0 by { PZero(j.w); } }
    }
    assert Fits(j, d);
  }

  lemma PZero(w: seq<nat>)
    ensures P(w, 0) == 0
  {
  }
}
