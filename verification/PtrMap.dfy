/** Where pointer-map pages lie, and how big an auto-vacuum database becomes. */
module PtrMap {
  import opened Facts

  /** usable: bytes of a page in use; pending: number of the page that holds the locking bytes. */
  datatype Geometry = Geometry(usable: nat, pending: nat) {
    predicate Ok() { 480 <= usable <= 65536 && 3 <= pending }
    function Entries(): (r: nat)
      ensures Ok() ==> r > 0
    {
      usable / 5
    }
    function Group(): nat { Entries() + 1 }
  }

  /** Page of the pointer map that holds the entry for a page; 0 if there is none. */
  function Pageno(g: Geometry, pgno: nat): nat {
    if pgno < 2 then 0
    else
      var ret := (pgno - 2) / g.Group() * g.Group() + 2;
      if ret == g.pending then ret + 1 else ret
  }

  predicate IsMap(g: Geometry, p: nat) { Pageno(g, p) == p }

  /** Page 1 or later, neither a pointer-map page nor the pending page. */
  predicate Content(g: Geometry, p: nat) { p >= 1 && !IsMap(g, p) && p != g.pending }

  function Offset(mapPage: nat, key: nat): int { 5 * (key - mapPage - 1) }

  // ---- entries ----

  lemma GroupBounds(g: Geometry, p: nat)
    requires g.Ok() && p >= 2
    ensures var k := (p - 2) / g.Group(); k * g.Group() <= p - 2 < k * g.Group() + g.Group()
  {
  }

  /** The entry of a page that has one lies within its map page. */
  lemma EntryInPage(g: Geometry, key: nat)
    requires g.Ok() && key >= 2 && Content(g, key)
    ensures 0 <= Offset(Pageno(g, key), key) <= g.usable - 5
  {
    GroupBounds(g, key);
    var k := (key - 2) / g.Group();
    assert k * g.Group() + 2 == g.pending && key == g.pending + 1 ==> IsMap(g, key);
  }

  /** The map has no entry for exactly its own pages and a pending page that would have been one. */
  lemma NoEntry(g: Geometry, key: nat)
    requires g.Ok() && key >= 2
    ensures Offset(Pageno(g, key), key) < 0 <==> IsMap(g, key) || (key == g.pending && Pageno(g, key) == key + 1)
  {
    GroupBounds(g, key);
  }

  /** Distinct pages have distinct entries. */
  lemma EntriesApart(g: Geometry, a: nat, b: nat)
    requires Pageno(g, a) == Pageno(g, b) && Offset(Pageno(g, a), a) == Offset(Pageno(g, b), b)
    ensures a == b
  {
  }

  lemma MapPageIsMap(g: Geometry, key: nat)
    requires g.Ok() && key >= 2
    ensures IsMap(g, Pageno(g, key)) && Pageno(g, key) != g.pending
  {
    var k := (key - 2) / g.Group();
    GroupBounds(g, key);
    GroupOf(g, 2 + k * g.Group(), k);
    GroupOf(g, 3 + k * g.Group(), k);
  }

  lemma GroupOf(g: Geometry, p: nat, k: nat)
    requires g.Ok() && 2 + k * g.Group() <= p < 2 + k * g.Group() + g.Group()
    ensures (p - 2) / g.Group() == k
  {
    var q, n := (p - 2) / g.Group(), g.Group();
    GroupBounds(g, p);
    if q < k { MulLe(q + 1, k, n); }
    if q > k { MulLe(k + 1, q, n); }
  }

  /** A map page comes first in its group, or second if the pending page comes first. */
  lemma GroupBase(g: Geometry, m: nat)
    requires g.Ok() && m >= 2 && IsMap(g, m)
    ensures 2 + (m - 2) / g.Group() * g.Group() == if Pageno(g, m - 1) == m then m - 1 else m
  {
    var k := (m - 2) / g.Group();
    GroupBounds(g, m);
    if m > 2 {
      var l := (m - 3) / g.Group();
      if 2 + k * g.Group() == m {
        PreviousGroup(g, m, k);
        MulLe(l + 1, k, g.Group());
      } else {
        GroupOf(g, m - 1, k);
      }
    }
  }

  /** A map page is for the pages after it as long as it has room for their entries; one that the pending page put off
      is for one page less. */
  lemma EntriesFill(g: Geometry, m: nat, key: nat)
    requires g.Ok() && m >= 2 && IsMap(g, m) && key > m
    ensures Pageno(g, key) == m <==> Offset(m, key) + (if Pageno(g, m - 1) == m then 5 else 0) <= g.usable - 5
  {
    var n, k, q := g.Group(), (m - 2) / g.Group(), (key - 2) / g.Group();
    var base := 2 + k * n;
    GroupBase(g, m);
    GroupBounds(g, key);
    if key < base + n {
      GroupOf(g, key, k);
    } else {
      if q <= k { MulLe(q, k, n); }
      MulLe(k + 1, q, n);
    }
    assert Pageno(g, key) == m <==> key < base + n;
  }

  // ---- counting ----

  /** Number of content pages from 1 to n. */
  ghost function Count(g: Geometry, n: nat): nat {
    if n == 0 then 0 else Count(g, n - 1) + if Content(g, n) then 1 else 0
  }

  /** Number of groups begun by page n. */
  function Groups(g: Geometry, n: nat): nat { if n < 2 then 0 else (n - 2) / g.Group() + 1 }

  lemma GroupsStep(g: Geometry, n: nat)
    requires g.Ok() && n >= 2
    ensures Groups(g, n) == Groups(g, n - 1) + if n == 2 + (n - 2) / g.Group() * g.Group() then 1 else 0
  {
    var k := (n - 2) / g.Group();
    GroupBounds(g, n);
    if n > 2 { PreviousGroup(g, n, k); }
  }

  lemma PreviousGroup(g: Geometry, n: nat, k: nat)
    requires g.Ok() && n > 2 && 2 + k * g.Group() <= n < 2 + k * g.Group() + g.Group()
    ensures (n - 3) / g.Group() + 1 == if n == 2 + k * g.Group() then k else k + 1
  {
    if n == 2 + k * g.Group() {
      assert k > 0;
      assert (k - 1) * g.Group() == k * g.Group() - g.Group();
      GroupOf(g, n - 1, k - 1);
    } else {
      GroupOf(g, n - 1, k);
    }
  }

  /** One page of each group begun is a map page; the pending page counts once it is passed. */
  lemma {:induction false} CountIs(g: Geometry, n: nat)
    requires g.Ok() && n >= 1
    ensures n != g.pending ==> Count(g, n) == n - Groups(g, n) - if n > g.pending then 1 else 0
    ensures n == g.pending ==> Count(g, n) == n - 1 - Groups(g, n - 1)
  {
    if n >= 2 {
      CountIs(g, n - 1);
      GroupsStep(g, n);
      GroupBounds(g, n);
      if n == g.pending + 1 { GroupsStep(g, n - 1); GroupBounds(g, n - 1); PendingGroup(g); }
    }
  }

  lemma PendingGroup(g: Geometry)
    requires g.Ok()
    ensures var k := (g.pending - 2) / g.Group(); 2 + k * g.Group() == g.pending ==> (g.pending - 1) / g.Group() == k
    ensures (g.pending - 1) / g.Group() * g.Group() + 2 == g.pending ==> (g.pending - 2) / g.Group() * g.Group() + 2 == g.pending
  {
    var k := (g.pending - 2) / g.Group();
    GroupBounds(g, g.pending);
    if 2 + k * g.Group() == g.pending { GroupOf(g, g.pending + 1, k); }
    var m := (g.pending - 1) / g.Group();
    GroupBounds(g, g.pending + 1);
    if m * g.Group() + 2 == g.pending { GroupOf(g, g.pending, m); }
  }

  // ---- finalDbSize ----

  const U32: nat := 0x1_0000_0000

  /** Map pages to go, in unsigned 32-bit arithmetic. */
  function MapsToGo(g: Geometry, nOrig: nat, nFree: nat): nat
    requires g.Ok()
  {
    ((nFree - nOrig + Pageno(g, nOrig) + g.Entries()) % U32) / g.Entries()
  }

  lemma Quotient(f: nat, d: nat, e: nat) returns (q: nat, r: nat)
    requires 0 < e && d <= e && f >= d
    ensures r < e && f == d + q * e + r && (f - d + e) / e == q + 1
  {
    q, r := (f - d) / e, (f - d) % e;
    assert f - d + e == (q + 1) * e + r;
    DivIs(f - d + e, q + 1, r, e);
  }

  /** Whether map pages lie above the pending page's place or not, x is d pages after the map page of its group. */
  lemma Place(g: Geometry, x: nat) returns (u: nat, d: nat)
    requires g.Ok() && x >= 2 && Content(g, x)
    ensures Groups(g, x) == u + 1 && x == Pageno(g, x) + d && 0 < d <= g.Entries()
    ensures 2 + u * g.Group() <= x < 2 + u * g.Group() + g.Group()
    ensures Pageno(g, x) == 2 + u * g.Group() + if 2 + u * g.Group() == g.pending then 1 else 0
  {
    u := (x - 2) / g.Group();
    GroupBounds(g, x);
    assert 2 + u * g.Group() == g.pending && x == g.pending + 1 ==> IsMap(g, x);
    d := x - Pageno(g, x);
  }

  lemma MapsToGoIs(g: Geometry, x: nat, f: nat, d: nat)
    requires g.Ok() && x == Pageno(g, x) + d && d <= g.Entries() && f + g.Entries() < U32
    ensures MapsToGo(g, x, f) == (f - d + g.Entries()) / g.Entries()
  {
  }

  /** n lies below the q+1 last of u groups and not on the first page of the group it is in. */
  lemma GroupsBelow(g: Geometry, u: nat, q: nat, r: nat, n: int)
    requires g.Ok() && r < g.Entries() && n == 1 + u * g.Group() - q * g.Group() - r
    requires q < u || (q == u && r == 0)
    ensures 1 <= n && Groups(g, n) == u - q && (n >= 2 ==> Groups(g, n - 1) == Groups(g, n))
  {
    if q < u {
      var k: nat := u - q - 1;
      assert u * g.Group() - q * g.Group() == k * g.Group() + g.Group();
      GroupOf(g, n, k);
      if n > 2 + k * g.Group() { GroupOf(g, n - 1, k); }
    }
  }

  /** How many content pages lie up to x. */
  lemma CountAt(g: Geometry, x: nat, u: nat, d: nat)
    requires g.Ok() && x != g.pending && x >= 2 && Groups(g, x) == u + 1
    ensures Count(g, x) == x - u - 1 - if x > g.pending then 1 else 0
  {
    CountIs(g, x);
  }

  /** The free pages leave q whole groups and r pages of another. */
  lemma Enough(g: Geometry, x: nat, f: nat, u: nat, d: nat, q: nat, r: nat)
    requires g.Ok() && x >= 2 && x != g.pending && f < Count(g, x) && Groups(g, x) == u + 1
    requires x <= 2 + u * g.Group() + d + (if x > g.pending then 1 else 0) && f == d + q * g.Entries() + r
    ensures q < u || (q == u && r == 0)
  {
    hide Groups, Count;
    CountAt(g, x, u, d);
    assert u * g.Group() == u * g.Entries() + u;
    Few(g, u, q, r);
  }

  /** The size before skipping non-content pages, when the group of x has its map page at its start. */
  lemma Lands(g: Geometry, x: nat, f: nat, u: nat, d: nat)
    requires g.Ok() && x >= 2 && Content(g, x) && f < Count(g, x) && x + g.Entries() < U32
    requires Groups(g, x) == u + 1 && Pageno(g, x) == 2 + u * g.Group() != g.pending
    requires x == Pageno(g, x) + d && 0 < d <= g.Entries()
    ensures var y := x - f - MapsToGo(g, x, f);
      1 <= y && Groups(g, y) == Groups(g, x) - MapsToGo(g, x, f) && (y >= 2 ==> Groups(g, y - 1) == Groups(g, y))
  {
    hide Groups, Count, Pageno, MapsToGo;
    AtMost(g, x);
    MapsToGoIs(g, x, f, d);
    if f < d {
      NoMaps(g, f, d);
      GroupOfGroups(g, x - f, u);
      if x - f > 2 + u * g.Group() { GroupOfGroups(g, x - f - 1, u); }
    } else {
      var q, r := Quotient(f, d, g.Entries());
      Enough(g, x, f, u, d, q, r);
      Product(g, q);
      GroupsBelow(g, u, q, r, x - f - (q + 1));
    }
  }

  lemma Product(g: Geometry, q: nat)
    ensures q * g.Group() == q * g.Entries() + q
  {
  }

  lemma {:induction false} AtMost(g: Geometry, n: nat)
    ensures Count(g, n) <= n
  {
    if n > 0 { AtMost(g, n - 1); }
  }

  /** The same when the pending page has pushed the map page of the group one page up. */
  lemma LandsShifted(g: Geometry, x: nat, f: nat, u: nat, d: nat)
    requires g.Ok() && x >= 2 && Content(g, x) && f < Count(g, x) && x + g.Entries() < U32
    requires Groups(g, x) == u + 1 && 2 + u * g.Group() == g.pending && Pageno(g, x) == g.pending + 1
    requires x == Pageno(g, x) + d && 0 < d <= g.Entries() && x < g.pending + g.Group()
    ensures var y := x - f - MapsToGo(g, x, f);
      && 1 <= y
      && (y > g.pending ==> Groups(g, y) == u + 1 && MapsToGo(g, x, f) == 0)
      && (y <= g.pending ==> 2 <= y && Groups(g, y - 1) == Groups(g, x) - MapsToGo(g, x, f))
  {
    hide Groups, Count, Pageno, MapsToGo;
    AtMost(g, x);
    MapsToGoIs(g, x, f, d);
    if f < d {
      NoMaps(g, f, d);
      GroupOfGroups(g, x - f, u);
    } else {
      var q, r := Quotient(f, d, g.Entries());
      Enough(g, x, f, u, d, q, r);
      Product(g, q);
      GroupsBelow(g, u, q, r, x - f - (q + 1) - 1);
    }
  }

  lemma NoMaps(g: Geometry, f: nat, d: nat)
    requires g.Ok() && f < d <= g.Entries()
    ensures (f - d + g.Entries()) / g.Entries() == 0
  {
  }

  lemma GroupOfGroups(g: Geometry, p: nat, k: nat)
    requires g.Ok() && 2 + k * g.Group() <= p < 2 + k * g.Group() + g.Group()
    ensures Groups(g, p) == k + 1
  {
    GroupOf(g, p, k);
  }

  lemma Few(g: Geometry, u: nat, q: nat, r: nat)
    requires g.Ok() && q * g.Entries() + r <= u * g.Entries()
    ensures q < u || (q == u && r == 0)
  {
    if q > u { MulLe(u + 1, q, g.Entries()); }
  }

  /** Where the loop of finalDbSize starts. */
  function Candidate(g: Geometry, nOrig: nat, nFree: nat): int
    requires g.Ok()
  {
    var nFin := nOrig - nFree - MapsToGo(g, nOrig, nFree);
    if nOrig > g.pending && nFin < g.pending then nFin - 1 else nFin
  }

  /** The pages counted up to the candidate are as many as are in use. */
  lemma CandidateCount(g: Geometry, x: nat, f: nat)
    requires g.Ok() && Content(g, x) && f < Count(g, x) && x + g.Entries() < U32
    ensures 1 <= Candidate(g, x, f) <= x && Count(g, Candidate(g, x, f)) == Count(g, x) - f
  {
    hide Count, Groups, Pageno;
    if x == 1 {
      OnePage(g, f);
    } else {
      var u, d := Place(g, x);
      CountIs(g, x);
      if 2 + u * g.Group() == g.pending {
        LandsShifted(g, x, f, u, d);
      } else {
        Lands(g, x, f, u, d);
      }
      CountIs(g, Candidate(g, x, f));
    }
  }

  lemma OnePage(g: Geometry, f: nat)
    requires g.Ok() && f < Count(g, 1)
    ensures f == 0 && Candidate(g, 1, f) == 1
  {
    assert Count(g, 0) == 0;
  }

  /** finalDbSize: the pages left are exactly those in use, and the last of them is a content page. */
  method FinalDbSize(g: Geometry, nOrig: nat, nFree: nat) returns (nFin: nat)
    requires g.Ok() && Content(g, nOrig) && nFree < Count(g, nOrig) && nOrig + g.Entries() < U32
    ensures Content(g, nFin) && nFin <= nOrig
    ensures Count(g, nFin) == Count(g, nOrig) - nFree
  {
    hide Count, Pageno, MapsToGo;
    CandidateCount(g, nOrig, nFree);
    var nPtrmap := MapsToGo(g, nOrig, nFree);
    var n: int := nOrig - nFree - nPtrmap;
    if nOrig > g.pending && n < g.pending { n := n - 1; }
    nFin := n;
    while IsMap(g, nFin) || nFin == g.pending
      invariant 1 <= nFin <= nOrig && Count(g, nFin) == Count(g, nOrig) - nFree
      decreases nFin
    {
      CountSkips(g, nFin);
      nFin := nFin - 1;
    }
  }

  lemma CountSkips(g: Geometry, n: nat)
    requires n >= 1 && !Content(g, n) && Count(g, n) > 0
    ensures n > 1 && Count(g, n - 1) == Count(g, n)
  {
    assert Count(g, 0) == 0;
  }
}
