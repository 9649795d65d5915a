/** The coverage check of a b-tree page: every byte of the cell content area is used once, but for the fragments. */
module Coverage {
  import opened Facts
  import opened MinHeap

  /** First and last byte of a cell or freeblock. */
  datatype Range = Range(lo: nat, hi: nat)

  function Code(r: Range): nat { r.lo * 65536 + r.hi }
  function Lo(x: nat): nat { x / 65536 }
  function Hi(x: nat): nat { x % 65536 }

  ghost predicate Ok(r: Range, usable: nat) { r.lo <= r.hi < usable <= 65536 }

  lemma Decode(r: Range, usable: nat)
    requires Ok(r, usable)
    ensures Lo(Code(r)) == r.lo && Hi(Code(r)) == r.hi && Code(r) <= SENTINEL
  {
  }

  lemma Order(x: nat, y: nat)
    requires x <= y
    ensures Lo(x) <= Lo(y)
  {
  }

  // ---- what the check is for ----

  ghost predicate Overlap(a: Range, b: Range) { a.lo <= b.hi && b.lo <= a.hi }

  /** No byte is used twice, and none before the content area. */
  ghost predicate Disjoint(rs: seq<Range>, content: nat) {
    && (forall i | 0 <= i < |rs| :: content <= rs[i].lo)
    && (forall i, j | 0 <= i < j < |rs| :: !Overlap(rs[i], rs[j]))
  }

  ghost predicate Covered(rs: seq<Range>, b: nat) { exists i :: 0 <= i < |rs| && rs[i].lo <= b <= rs[i].hi }

  /** The bytes of the content area that no range covers. */
  ghost function Uncovered(rs: seq<Range>, content: nat, usable: nat): set<nat> {
    set b: nat | content <= b < usable && !Covered(rs, b)
  }

  // ---- the same of coded ranges, without their order ----

  ghost predicate Spans(m: multiset<nat>, usable: nat) { forall x | x in m :: Lo(x) <= Hi(x) < usable <= 65536 }

  ghost predicate Clear(m: multiset<nat>, content: nat) {
    && (forall x | x in m :: content <= Lo(x) && m[x] == 1)
    && (forall x, y | x in m && y in m && x != y :: Hi(x) < Lo(y) || Hi(y) < Lo(x))
  }

  ghost predicate Hit(m: multiset<nat>, b: nat) { exists x :: x in m && Lo(x) <= b <= Hi(x) }

  /** Bytes from the content area's start up to and not including end that are not hit. */
  ghost function Free(m: multiset<nat>, content: nat, end: nat): set<nat> { set b: nat | content <= b < end && !Hit(m, b) }

  function Codes(rs: seq<Range>): (r: seq<nat>)
    ensures |r| == |rs| && forall i | 0 <= i < |r| :: r[i] == Code(rs[i])
  {
    seq(|rs|, i requires 0 <= i < |rs| => Code(rs[i]))
  }

  lemma {:induction false} FindTwice(s: seq<nat>, x: nat) returns (i: nat, j: nat)
    requires multiset(s)[x] >= 2
    ensures i < j < |s| && s[i] == x && s[j] == x
  {
    var t := s[1..];
    assert s == [s[0]] + t;
    if s[0] == x {
      assert x in multiset(t);
      var k :| 0 <= k < |t| && t[k] == x;
      i, j := 0, k + 1;
    } else {
      var a, b := FindTwice(t, x);
      i, j := a + 1, b + 1;
    }
  }

  lemma DisjointIsClear(rs: seq<Range>, content: nat, usable: nat)
    requires forall i | 0 <= i < |rs| :: Ok(rs[i], usable)
    ensures Spans(multiset(Codes(rs)), usable)
    ensures Disjoint(rs, content) <==> Clear(multiset(Codes(rs)), content)
  {
    hide Lo, Hi, Code;
    var s := Codes(rs);
    forall i | 0 <= i < |rs| ensures s[i] in multiset(s) && Lo(s[i]) == rs[i].lo && Hi(s[i]) == rs[i].hi { Decode(rs[i], usable); }
    forall x | x in multiset(s) ensures exists i :: 0 <= i < |s| && s[i] == x {}
    if Disjoint(rs, content) { DisjointClear(rs, content, usable); }
    if Clear(multiset(s), content) {
      forall i, j | 0 <= i < j < |rs| ensures !Overlap(rs[i], rs[j]) {
        if s[i] == s[j] { Twice(s, i, j); }
      }
    }
  }

  lemma DisjointClear(rs: seq<Range>, content: nat, usable: nat)
    requires (forall i | 0 <= i < |rs| :: Ok(rs[i], usable)) && Disjoint(rs, content)
    ensures Clear(multiset(Codes(rs)), content)
  {
    hide Lo, Hi, Code;
    var s := Codes(rs);
    forall i | 0 <= i < |rs| ensures Lo(s[i]) == rs[i].lo && Hi(s[i]) == rs[i].hi { Decode(rs[i], usable); }
    forall x | x in multiset(s) ensures content <= Lo(x) && multiset(s)[x] == 1 {
      if multiset(s)[x] >= 2 { var i, j := FindTwice(s, x); }
    }
    forall x, y | x in multiset(s) && y in multiset(s) && x != y ensures Hi(x) < Lo(y) || Hi(y) < Lo(x) {
      var i :| 0 <= i < |s| && s[i] == x;
      var j :| 0 <= j < |s| && s[j] == y;
      if i < j { assert !Overlap(rs[i], rs[j]); } else { assert !Overlap(rs[j], rs[i]); }
    }
  }

  lemma UncoveredIsFree(rs: seq<Range>, content: nat, usable: nat)
    requires forall i | 0 <= i < |rs| :: Ok(rs[i], usable)
    ensures Uncovered(rs, content, usable) == Free(multiset(Codes(rs)), content, usable)
  {
    hide Lo, Hi, Code;
    var s := Codes(rs);
    forall i | 0 <= i < |rs| ensures s[i] in multiset(s) && Lo(s[i]) == rs[i].lo && Hi(s[i]) == rs[i].hi { Decode(rs[i], usable); }
    forall b: nat ensures Hit(multiset(s), b) <==> Covered(rs, b) {
      if Hit(multiset(s), b) {
        var x :| x in multiset(s) && Lo(x) <= b <= Hi(x);
        var i :| 0 <= i < |s| && s[i] == x;
      }
    }
  }

  // ---- the sweep ----

  /** The ranges in done have been swept, the last of them, prev, ends before end. */
  ghost predicate Swept(done: multiset<nat>, content: nat, end: nat, prev: nat, nFrag: nat) {
    && content <= end && Clear(done, content) && (forall x | x in done :: Hi(x) < end && x <= prev)
    && (if done == multiset{} then end == content else prev in done && Hi(prev) + 1 == end)
    && nFrag == |Free(done, content, end)|
  }

  /** No byte from end to to is hit: as many free bytes come along. */
  lemma FreeGrows(done: multiset<nat>, done2: multiset<nat>, content: nat, end: nat, to: nat, end2: nat)
    requires content <= end <= to <= end2 && (forall x | x in done :: Hi(x) < end)
    requires forall b | content <= b < end2 :: Hit(done2, b) <==> Hit(done, b) || to <= b
    ensures |Free(done2, content, end2)| == |Free(done, content, end)| + (to - end)
  {
    var gap := Free(done, end, to);
    RangeSize(gap, end, to);
    assert Free(done2, content, end2) == Free(done, content, end) + gap;
  }

  lemma SweepStep(done: multiset<nat>, content: nat, end: nat, prev: nat, nFrag: nat, x: nat, usable: nat)
    requires Swept(done, content, end, prev, nFrag) && end <= Lo(x) <= Hi(x) < usable && (done == multiset{} || prev <= x)
    ensures Swept(done + multiset{x}, content, Hi(x) + 1, x, nFrag + (Lo(x) - end))
  {
    hide Lo, Hi;
    var done2 := done + multiset{x};
    forall y ensures y in done2 <==> y in done || y == x {}
    forall b | content <= b < Hi(x) + 1 ensures Hit(done2, b) <==> Hit(done, b) || Lo(x) <= b {
      if Lo(x) <= b { assert x in done2 && Lo(x) <= b <= Hi(x); }
      if Hit(done, b) { var y :| y in done && Lo(y) <= b <= Hi(y); assert y in done2; }
    }
    FreeGrows(done, done2, content, end, Lo(x), Hi(x) + 1);
    assert x !in done;
  }

  lemma SweepStop(all: multiset<nat>, done: multiset<nat>, content: nat, end: nat, prev: nat, nFrag: nat, x: nat)
    requires Swept(done, content, end, prev, nFrag) && done + multiset{x} <= all && Lo(x) < end && Lo(x) <= Hi(x)
    requires done == multiset{} || prev <= x
    ensures !Clear(all, content)
  {
    assert x in all;
    if done != multiset{} {
      assert prev in all;
      if x == prev { assert all[x] >= (done + multiset{x})[x] >= 2; } else { Order(prev, x); }
    }
  }

  lemma SweepEnd(done: multiset<nat>, content: nat, end: nat, prev: nat, nFrag: nat, usable: nat)
    requires Swept(done, content, end, prev, nFrag) && end <= usable
    ensures nFrag + (usable - end) == |Free(done, content, usable)|
  {
    FreeGrows(done, done, content, end, usable, usable);
  }

  /** The heap filled with cells and freeblocks. */
  method Fill(cells: seq<Range>, frees: seq<Range>, usable: nat) returns (h: IntHeap)
    requires forall i | 0 <= i < |cells + frees| :: Ok((cells + frees)[i], usable)
    ensures h.Valid() && h.Entries() == multiset(Codes(cells + frees)) && fresh(h) && fresh(h.aHeap)
  {
    hide IntHeap.Valid, Code, IntHeap.Entries;
    var rs := cells + frees;
    h := new IntHeap(|cells| + |frees|);
    assert rs[..0] == [];
    for i := 0 to |rs|
      invariant h.Valid() && fresh(h) && fresh(h.aHeap) && h.aHeap.Length == |rs| + 1 && h.aHeap[0] == i
      invariant h.Entries() == multiset(Codes(rs[..i]))
    {
      Decode(rs[i], usable);
      assert Codes(rs[..i + 1]) == Codes(rs[..i]) + [Code(rs[i])];
      h.Insert(Code(rs[i]));
    }
    assert rs[..|rs|] == rs;
  }

  /** What holds between two pulls: all ranges are swept, in hand, or in the heap, in this order. */
  ghost predicate Midway(all: multiset<nat>, done: multiset<nat>, left: multiset<nat>, x: nat, content: nat, prev: nat, nFrag: nat, usable: nat) {
    && all == done + multiset{x} + left && (forall y | y in left :: x <= y)
    && Swept(done, content, Hi(prev) + 1, prev, nFrag) && Hi(prev) < usable && (done != multiset{} ==> prev <= x)
  }

  lemma Start(all: multiset<nat>, left: multiset<nat>, x: nat, content: nat, usable: nat)
    requires 1 <= content <= usable <= 65536 && all == left + multiset{x} && forall y | y in left :: x <= y
    ensures Midway(all, multiset{}, left, x, content, content - 1, 0, usable)
  {
    NothingSwept(content, content - 1);
  }

  lemma Onward(all: multiset<nat>, done: multiset<nat>, left: multiset<nat>, x: nat, content: nat, prev: nat, nFrag: nat, usable: nat,
               left2: multiset<nat>, x2: nat)
    requires Midway(all, done, left, x, content, prev, nFrag, usable) && Hi(prev) < Lo(x) <= Hi(x) < usable
    requires left == left2 + multiset{x2} && forall y | y in left2 :: x2 <= y
    ensures Midway(all, done + multiset{x}, left2, x2, content, x, nFrag + (Lo(x) - Hi(prev) - 1), usable)
  {
    hide Lo, Hi, Swept;
    SweepStep(done, content, Hi(prev) + 1, prev, nFrag, x, usable);
    assert x2 in left;
  }

  /** The coverage check is silent just if no byte is used twice and the other bytes are as many as the fragments. */
  method CoverageCheck(cells: seq<Range>, frees: seq<Range>, contentOffset: nat, usableSize: nat, nFragHeader: nat) returns (silent: bool)
    requires 1 <= contentOffset <= usableSize <= 65536
    requires forall i | 0 <= i < |cells + frees| :: Ok((cells + frees)[i], usableSize)
    ensures silent <==> Disjoint(cells + frees, contentOffset) && |Uncovered(cells + frees, contentOffset, usableSize)| == nFragHeader
  {
    hide Disjoint, Codes, Uncovered, Free, Spans, Clear;
    var heap := Fill(cells, frees, usableSize);
    DisjointIsClear(cells + frees, contentOffset, usableSize);
    UncoveredIsFree(cells + frees, contentOffset, usableSize);
    silent := Sweep(heap, multiset(Codes(cells + frees)), contentOffset, usableSize, nFragHeader);
  }

  method Sweep(heap: IntHeap, ghost all: multiset<nat>, contentOffset: nat, usableSize: nat, nFragHeader: nat) returns (silent: bool)
    requires heap.Valid() && heap.Entries() == all && 1 <= contentOffset <= usableSize <= 65536 && Spans(all, usableSize)
    modifies heap.aHeap
    ensures silent <==> Clear(all, contentOffset) && |Free(all, contentOffset, usableSize)| == nFragHeader
  {
    hide IntHeap.Valid, IntHeap.Entries, Clear, Swept, Free, Spans, Midway, Lo, Hi;
    SpansAll(all, usableSize);
    HasCount(heap);
    var nFrag: nat, prev: nat := 0, contentOffset - 1;
    ghost var done := multiset{};
    var ok, x := heap.Pull();
    if ok { Start(all, heap.Entries(), x, contentOffset, usableSize); } else { NothingSwept(contentOffset, prev); }
    while ok
      invariant heap.Valid()
      invariant ok ==> Midway(all, done, heap.Entries(), x, contentOffset, prev, nFrag, usableSize) && x in all
      invariant !ok ==> all == done && Swept(done, contentOffset, Hi(prev) + 1, prev, nFrag) && Hi(prev) < usableSize
      decreases ok, heap.aHeap[0]
    {
      ghost var left := heap.Entries();
      if Hi(prev) >= Lo(x) {
        Stopped(all, done, left, x, contentOffset, prev, nFrag, usableSize);
        return false;
      }
      var x2;
      ok, x2 := heap.Pull();
      if ok { Onward(all, done, left, x, contentOffset, prev, nFrag, usableSize, heap.Entries(), x2); Left(all, done, left, x, contentOffset, prev, nFrag, usableSize, x2); }
      else { LastOne(all, done, left, x, contentOffset, prev, nFrag, usableSize); }
      nFrag := nFrag + (Lo(x) - Hi(prev) - 1);
      done := done + multiset{x};
      prev := x;
      x := x2;
    }
    SweepEnd(done, contentOffset, Hi(prev) + 1, prev, nFrag, usableSize);
    SweptClear(done, contentOffset, Hi(prev) + 1, prev, nFrag);
    nFrag := nFrag + usableSize - Hi(prev) - 1;
    silent := nFrag == nFragHeader;
  }

  lemma HasCount(heap: IntHeap)
    requires heap.Valid()
    ensures heap.aHeap.Length > 0
  {
  }

  lemma Left(all: multiset<nat>, done: multiset<nat>, left: multiset<nat>, x: nat, content: nat, prev: nat, nFrag: nat, usable: nat, y: nat)
    requires Midway(all, done, left, x, content, prev, nFrag, usable) && y in left
    ensures y in all
  {
  }

  lemma Stopped(all: multiset<nat>, done: multiset<nat>, left: multiset<nat>, x: nat, content: nat, prev: nat, nFrag: nat, usable: nat)
    requires Midway(all, done, left, x, content, prev, nFrag, usable) && Lo(x) <= Hi(x) && Hi(prev) >= Lo(x)
    ensures !Clear(all, content)
  {
    hide Lo, Hi, Swept, Clear;
    SweepStop(all, done, content, Hi(prev) + 1, prev, nFrag, x);
  }

  lemma LastOne(all: multiset<nat>, done: multiset<nat>, left: multiset<nat>, x: nat, content: nat, prev: nat, nFrag: nat, usable: nat)
    requires Midway(all, done, left, x, content, prev, nFrag, usable) && Hi(prev) < Lo(x) <= Hi(x) < usable && left == multiset{}
    ensures all == done + multiset{x} && Swept(done + multiset{x}, content, Hi(x) + 1, x, nFrag + (Lo(x) - Hi(prev) - 1))
  {
    hide Lo, Hi, Swept;
    SweepStep(done, content, Hi(prev) + 1, prev, nFrag, x, usable);
  }

  lemma SpansAll(m: multiset<nat>, usable: nat)
    requires Spans(m, usable)
    ensures forall x | x in m :: Lo(x) <= Hi(x) < usable <= 65536
  {
  }

  lemma NothingSwept(content: nat, prev: nat)
    requires 1 <= content <= 65536 && prev == content - 1
    ensures Hi(prev) == content - 1 && Swept(multiset{}, content, content, prev, 0)
  {
    assert Free(multiset{}, content, content) == {};
  }

  lemma SweptClear(done: multiset<nat>, content: nat, end: nat, prev: nat, nFrag: nat)
    requires Swept(done, content, end, prev, nFrag)
    ensures Clear(done, content)
  {
  }
}
