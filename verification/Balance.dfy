/** balance_nonroot: the cells of up to three siblings spread over up to five pages. */
module Balance {
  import opened Results
  import opened Pack
  import opened Schedule
  import opened Siblings

  /** leaf: the siblings are leaves; leafData: they hold all the data, dividers being keys; u: room on a page. */
  datatype Kind = Kind(leaf: bool, leafData: bool, u: nat, divider: Body -> Body) {
    predicate Ok() { leafData ==> leaf }
    function Gap(): nat { if leafData then 0 else 1 }
  }

  /** Bytes a cell takes on a sibling page, with its pointer and, on an interior page, its child pointer. */
  function W(k: Kind, b: Body): nat {
    2 + if !k.leaf then 4 + |b| else if |b| < 4 then 4 else |b|
  }

  function Weight<C>(k: Kind, cs: seq<Cell<C>>): nat {
    if cs == [] then 0 else W(k, cs[0].body) + Weight(k, cs[1..])
  }

  lemma {:induction false} WeightConcat<C>(k: Kind, a: seq<Cell<C>>, b: seq<Cell<C>>)
    ensures Weight(k, a + b) == Weight(k, a) + Weight(k, b)
  {
    if a == [] {
      assert a + b == b;
    } else {
      WeightConcat(k, a[1..], b);
      assert (a + b)[1..] == a[1..] + b;
    }
  }

  lemma LoadedWeight<C>(k: Kind, p: Page<C>)
    requires p.Ok()
    ensures Weight(k, Loaded(p)) == Weight(k, p.cells) + Weight(k, p.ovfl)
  {
    WeightConcat(k, p.cells[..p.at] + p.ovfl, p.cells[p.at..]);
    WeightConcat(k, p.cells[..p.at], p.ovfl);
    WeightConcat(k, p.cells[..p.at], p.cells[p.at..]);
    assert p.cells == p.cells[..p.at] + p.cells[p.at..];
  }

  /** w lists what the cells take. */
  ghost predicate Weighs<C>(k: Kind, cells: seq<Cell<C>>, w: seq<nat>) {
    |w| == |cells| && forall c | 0 <= c < |w| :: w[c] == W(k, cells[c].body)
  }

  lemma {:induction false} SegmentWeight<C>(k: Kind, cells: seq<Cell<C>>, w: seq<nat>, a: nat, b: nat)
    requires Weighs(k, cells, w) && a <= b <= |w|
    ensures P(w, b) - P(w, a) == Weight(k, cells[a..b])
    decreases b - a
  {
    if a < b {
      SegmentWeight(k, cells, w, a, b - 1);
      PStep(w, b - 1);
      assert cells[a..b] == cells[a..b - 1] + [cells[b - 1]];
      WeightConcat(k, cells[a..b - 1], [cells[b - 1]]);
      OneWeight(k, cells[b - 1]);
    } else {
      assert cells[a..b] == [];
    }
  }

  lemma OneWeight<C>(k: Kind, c: Cell<C>)
    ensures Weight(k, [c]) == W(k, c.body)
  {
    assert [c][1..] == [];
  }

  // ---- the cells of the siblings, in order ----

  ghost predicate Input(k: Kind, sibs: seq<Page<nat>>, divs: seq<Cell<nat>>) {
    && k.Ok() && 0 < |sibs| <= 3 && |divs| == |sibs| - 1
    && (forall i | 0 <= i < |sibs| :: sibs[i].Ok() && Weight(k, sibs[i].cells) <= k.u)
  }

  /** The cells gathered from the first i siblings and the dividers after them. */
  ghost function GatherTo(k: Kind, sibs: seq<Page<nat>>, divs: seq<Cell<nat>>, i: nat): seq<Cell<nat>>
    requires Input(k, sibs, divs) && i <= |sibs|
  {
    if i == 0 then [] else GatherTo(k, sibs, divs, i - 1) + Loaded(sibs[i - 1]) + DivAfter(k, sibs, divs, i - 1)
  }

  /** The divider after page i, as a cell among the others. */
  function DivAfter(k: Kind, sibs: seq<Page<nat>>, divs: seq<Cell<nat>>, i: nat): (r: seq<Cell<nat>>)
    requires i < |sibs| && |divs| == |sibs| - 1
  {
    if i < |divs| && !k.leafData then [AsCell(k.leaf, sibs[i], divs[i])] else []
  }

  ghost function All(k: Kind, sibs: seq<Page<nat>>, divs: seq<Cell<nat>>): seq<Cell<nat>>
    requires Input(k, sibs, divs)
  {
    GatherTo(k, sibs, divs, |sibs|)
  }

  /** Index of the cell after the last one of old page i. */
  ghost function OldEnd(k: Kind, sibs: seq<Page<nat>>, divs: seq<Cell<nat>>, i: nat): nat
    requires Input(k, sibs, divs) && i < |sibs|
  {
    |GatherTo(k, sibs, divs, i)| + |Loaded(sibs[i])|
  }

  lemma {:induction false} AllJoined(k: Kind, sibs: seq<Page<nat>>, divs: seq<Cell<nat>>, i: nat)
    requires Input(k, sibs, divs) && k.leafData && i <= |sibs|
    ensures forall t | 0 <= t < |sibs[i..]| :: sibs[i..][t].Ok()
    ensures GatherTo(k, sibs, divs, i) + Joined(sibs[i..]) == All(k, sibs, divs)
    decreases |sibs| - i
  {
    hide Loaded;
    forall t | 0 <= t < |sibs[i..]| ensures sibs[i..][t].Ok() { assert sibs[i..][t] == sibs[i + t]; }
    if i < |sibs| {
      AllJoined(k, sibs, divs, i + 1);
      assert sibs[i..][1..] == sibs[i + 1..];
    } else {
      assert sibs[i..] == [];
    }
  }

  lemma {:induction false} AllGathered(k: Kind, sibs: seq<Page<nat>>, divs: seq<Cell<nat>>, i: nat)
    requires Input(k, sibs, divs) && !k.leafData && i < |sibs|
    ensures (forall t | 0 <= t < |sibs[i..]| :: sibs[i..][t].Ok()) && |divs[i..]| + 1 == |sibs[i..]|
    ensures GatherTo(k, sibs, divs, i) + Gather(k.leaf, sibs[i..], divs[i..]) == All(k, sibs, divs)
    decreases |sibs| - i
  {
    hide Loaded;
    forall t | 0 <= t < |sibs[i..]| ensures sibs[i..][t].Ok() { assert sibs[i..][t] == sibs[i + t]; }
    if i + 1 < |sibs| {
      AllGathered(k, sibs, divs, i + 1);
      assert sibs[i..][1..] == sibs[i + 1..] && divs[i..][1..] == divs[i + 1..];
    }
  }

  // ---- loading apCell[] ----

  /** The references r, made on page i, lead to the cells cs. */
  ghost predicate Leads(r: seq<Ref<Cell<nat>>>, bodies: seq<seq<Cell<nat>>>, cs: seq<Cell<nat>>, i: nat) {
    && |r| == |cs|
    && (forall t | 0 <= t < |r| :: Reads(r[t], bodies, cs[t]))
    && (forall t | 0 <= t < |r| && r[t].OnPage? :: r[t].page == i)
  }

  method LoadPage(sib: Page<nat>, i: nat, ghost bodies: seq<seq<Cell<nat>>>) returns (r: seq<Ref<Cell<nat>>>)
    requires sib.Ok() && i < |bodies| && bodies[i] == sib.cells
    ensures Leads(r, bodies, Loaded(sib), i)
  {
    r := [];
    var piCell := 0;
    if |sib.ovfl| > 0 {
      var limit := sib.at;
      for j := 0 to limit
        invariant Leads(r, bodies, sib.cells[..j], i) && piCell == j
      {
        r := r + [OnPage(i, piCell)];
        piCell := piCell + 1;
      }
      for k := 0 to |sib.ovfl|
        invariant Leads(r, bodies, sib.cells[..limit] + sib.ovfl[..k], i)
      {
        r := r + [Aside(sib.ovfl[k])];
      }
    }
    ghost var head := if |sib.ovfl| > 0 then sib.cells[..sib.at] + sib.ovfl else [];
    ghost var from := piCell;
    while piCell < |sib.cells|
      invariant from <= piCell <= |sib.cells| && Leads(r, bodies, head + sib.cells[from..piCell], i)
    {
      r := r + [OnPage(i, piCell)];
      piCell := piCell + 1;
    }
    assert head + sib.cells[from..] == Loaded(sib);
  }

  ghost predicate LoadedTo(k: Kind, sibs: seq<Page<nat>>, divs: seq<Cell<nat>>, bodies: seq<seq<Cell<nat>>>, i: nat,
                           ref: seq<Ref<Cell<nat>>>, cntOld: seq<nat>)
    requires Input(k, sibs, divs) && i <= |sibs|
  {
    var cells := GatherTo(k, sibs, divs, i);
    && |ref| == |cells| && (forall c | 0 <= c < |ref| :: Reads(ref[c], bodies, cells[c]))
    && |cntOld| == i && (forall t | 0 <= t < i :: cntOld[t] == OldEnd(k, sibs, divs, t))
    && (forall c | 0 <= c < |ref| && ref[c].OnPage? :: ref[c].page < i && OldBegin(k, sibs, divs, ref[c].page) <= c < OldEnd(k, sibs, divs, ref[c].page))
  }

  ghost function OldBegin(k: Kind, sibs: seq<Page<nat>>, divs: seq<Cell<nat>>, i: nat): nat
    requires Input(k, sibs, divs) && i <= |sibs|
  {
    |GatherTo(k, sibs, divs, i)|
  }

  lemma LoadedMore(k: Kind, sibs: seq<Page<nat>>, divs: seq<Cell<nat>>, bodies: seq<seq<Cell<nat>>>, i: nat,
                   ref: seq<Ref<Cell<nat>>>, cntOld: seq<nat>, r: seq<Ref<Cell<nat>>>, d: seq<Ref<Cell<nat>>>)
    requires Input(k, sibs, divs) && i < |sibs| && LoadedTo(k, sibs, divs, bodies, i, ref, cntOld)
    requires Leads(r, bodies, Loaded(sibs[i]), i)
    requires |d| == |DivAfter(k, sibs, divs, i)| && forall t | 0 <= t < |d| :: d[t] == Aside(DivAfter(k, sibs, divs, i)[t])
    ensures LoadedTo(k, sibs, divs, bodies, i + 1, ref + r + d, cntOld + [|ref + r|])
  {
    hide Loaded, DivAfter;
    var cells := GatherTo(k, sibs, divs, i);
    var all := GatherTo(k, sibs, divs, i + 1);
    assert all == cells + Loaded(sibs[i]) + DivAfter(k, sibs, divs, i);
    var q := ref + r + d;
    hide GatherTo;
    forall c | 0 <= c < |q| ensures Reads(q[c], bodies, all[c]) {
      if c < |ref| { assert q[c] == ref[c] && all[c] == cells[c]; }
      else if c < |ref| + |r| { assert q[c] == r[c - |ref|] && all[c] == Loaded(sibs[i])[c - |ref|]; }
      else { assert q[c] == d[c - |ref| - |r|] && all[c] == DivAfter(k, sibs, divs, i)[c - |ref| - |r|]; }
    }
    assert forall c | |ref| + |r| <= c < |q| :: q[c] == d[c - |ref| - |r|] && q[c].Aside?;
    forall c | 0 <= c < |q| && q[c].OnPage?
      ensures q[c].page < i + 1 && OldBegin(k, sibs, divs, q[c].page) <= c < OldEnd(k, sibs, divs, q[c].page)
    {
      if c < |ref| { assert q[c] == ref[c]; }
      else if c < |ref| + |r| { assert q[c] == r[c - |ref|]; }
    }
  }

  /** apCell[], szCell[] and cntOld[]. */
  method LoadCells(k: Kind, sibs: seq<Page<nat>>, divs: seq<Cell<nat>>, ghost bodies: seq<seq<Cell<nat>>>)
    returns (ref: seq<Ref<Cell<nat>>>, cntOld: seq<nat>)
    requires Input(k, sibs, divs) && |sibs| <= |bodies| && forall i | 0 <= i < |sibs| :: bodies[i] == sibs[i].cells
    ensures LoadedTo(k, sibs, divs, bodies, |sibs|, ref, cntOld)
  {
    hide Loaded, DivAfter;
    ref, cntOld := [], [];
    for i := 0 to |sibs|
      invariant LoadedTo(k, sibs, divs, bodies, i, ref, cntOld)
    {
      var r := LoadPage(sibs[i], i, bodies);
      var d: seq<Ref<Cell<nat>>> := [];
      if i < |sibs| - 1 && !k.leafData { d := [Aside(AsCell(k.leaf, sibs[i], divs[i]))]; }
      OneDiv(k, sibs, divs, i);
      LoadedMore(k, sibs, divs, bodies, i, ref, cntOld, r, d);
      cntOld := cntOld + [|ref + r|];
      ref := ref + r + d;
    }
  }

  lemma OneDiv(k: Kind, sibs: seq<Page<nat>>, divs: seq<Cell<nat>>, i: nat)
    requires i < |sibs| && |divs| == |sibs| - 1
    ensures DivAfter(k, sibs, divs, i) == if i < |sibs| - 1 && !k.leafData then [AsCell(k.leaf, sibs[i], divs[i])] else []
  {
  }

  // ---- from the loaded cells to the packing job ----

  lemma {:induction false} GatherPrefix(k: Kind, sibs: seq<Page<nat>>, divs: seq<Cell<nat>>, i: nat, j: nat)
    requires Input(k, sibs, divs) && i <= j <= |sibs|
    ensures GatherTo(k, sibs, divs, i) <= GatherTo(k, sibs, divs, j)
  {
    hide Loaded, DivAfter;
    if i < j {
      GatherPrefix(k, sibs, divs, i, j - 1);
      assert GatherTo(k, sibs, divs, j)
          == GatherTo(k, sibs, divs, j - 1) + Loaded(sibs[j - 1]) + DivAfter(k, sibs, divs, j - 1);
    }
  }

  /** Old page t holds a run of the cells. */
  lemma OldRun(k: Kind, sibs: seq<Page<nat>>, divs: seq<Cell<nat>>, t: nat)
    requires Input(k, sibs, divs) && t < |sibs|
    ensures OldBegin(k, sibs, divs, t) <= OldEnd(k, sibs, divs, t) <= |All(k, sibs, divs)|
    ensures All(k, sibs, divs)[OldBegin(k, sibs, divs, t)..OldEnd(k, sibs, divs, t)] == Loaded(sibs[t])
    ensures t == 0 ==> OldBegin(k, sibs, divs, t) == 0
    ensures t > 0 ==> OldBegin(k, sibs, divs, t) == OldEnd(k, sibs, divs, t - 1) + k.Gap()
    ensures t == |sibs| - 1 ==> OldEnd(k, sibs, divs, t) == |All(k, sibs, divs)|
  {
    hide Loaded;
    GatherPrefix(k, sibs, divs, t + 1, |sibs|);
    var a, b := GatherTo(k, sibs, divs, t), GatherTo(k, sibs, divs, t + 1);
    assert b == a + Loaded(sibs[t]) + DivAfter(k, sibs, divs, t);
    assert b[|a|..|a| + |Loaded(sibs[t])|] == Loaded(sibs[t]);
  }

  ghost function OldCuts(k: Kind, sibs: seq<Page<nat>>, divs: seq<Cell<nat>>): (r: seq<nat>)
    requires Input(k, sibs, divs)
    ensures |r| == |sibs| && forall t | 0 <= t < |sibs| :: r[t] == OldEnd(k, sibs, divs, t)
  {
    seq(|sibs|, t requires 0 <= t < |sibs| => OldEnd(k, sibs, divs, t))
  }

  /** The old pages are one division of the cells; what each takes is what it stores and its overflow cells. */
  lemma OldSizes(k: Kind, sibs: seq<Page<nat>>, divs: seq<Cell<nat>>, w: seq<nat>)
    requires Input(k, sibs, divs) && Weighs(k, All(k, sibs, divs), w)
    ensures var j := Job(w, k.u, k.leafData); var c := OldCuts(k, sibs, divs);
      && Cuts(j, c)
      && forall t | 0 <= t < |c| :: Size(j, c, t) == Weight(k, sibs[t].cells) + Weight(k, sibs[t].ovfl)
                                    && Start(j, c, t) == OldBegin(k, sibs, divs, t)
  {
    hide P, Loaded, GatherTo, Weight, All, OldEnd, OldBegin, Size, Start, Weighs;
    var j, c := Job(w, k.u, k.leafData), OldCuts(k, sibs, divs);
    forall t | 0 <= t < |c| ensures c[t] <= j.N() { OldSize(k, sibs, divs, w, t); }
    OldSize(k, sibs, divs, w, |sibs| - 1);
    forall t | 0 <= t < |c|
      ensures Size(j, c, t) == Weight(k, sibs[t].cells) + Weight(k, sibs[t].ovfl) && Start(j, c, t) == OldBegin(k, sibs, divs, t)
    {
      OldSize(k, sibs, divs, w, t);
      SizeOf(j, c, t, OldBegin(k, sibs, divs, t), OldEnd(k, sibs, divs, t));
    }
  }

  lemma SizeOf(j: Job, c: seq<nat>, t: nat, a: nat, b: nat)
    requires t < |c| && InRange(j, c) && c[t] == b && a == if t == 0 then 0 else c[t - 1] + j.Gap()
    ensures Start(j, c, t) == a && a <= |j.w| + 1 && b <= |j.w| && Size(j, c, t) == P(j.w, b) - P(j.w, a)
  {
    hide P;
  }

  lemma OldSize(k: Kind, sibs: seq<Page<nat>>, divs: seq<Cell<nat>>, w: seq<nat>, t: nat)
    requires Input(k, sibs, divs) && Weighs(k, All(k, sibs, divs), w) && t < |sibs|
    ensures OldBegin(k, sibs, divs, t) <= OldEnd(k, sibs, divs, t) <= |w|
    ensures t == |sibs| - 1 ==> OldEnd(k, sibs, divs, t) == |w|
    ensures OldBegin(k, sibs, divs, t) == if t == 0 then 0 else OldEnd(k, sibs, divs, t - 1) + k.Gap()
    ensures P(w, OldEnd(k, sibs, divs, t)) - P(w, OldBegin(k, sibs, divs, t))
         == Weight(k, sibs[t].cells) + Weight(k, sibs[t].ovfl)
  {
    hide P, Loaded, GatherTo, Weight, All, OldEnd, OldBegin;
    OldRun(k, sibs, divs, t);
    SegmentWeight(k, All(k, sibs, divs), w, OldBegin(k, sibs, divs, t), OldEnd(k, sibs, divs, t));
    LoadedWeight(k, sibs[t]);
  }

  // ---- room for everything ----

  /** The overflow cells of the first i siblings, and the dividers after them. */
  ghost function Loose(k: Kind, sibs: seq<Page<nat>>, divs: seq<Cell<nat>>, i: nat): seq<Cell<nat>>
    requires Input(k, sibs, divs) && i <= |sibs|
  {
    if i == 0 then [] else Loose(k, sibs, divs, i - 1) + sibs[i - 1].ovfl + DivAfter(k, sibs, divs, i - 1)
  }

  ghost function Stored(k: Kind, sibs: seq<Page<nat>>, i: nat): nat
    requires i <= |sibs|
  {
    if i == 0 then 0 else Stored(k, sibs, i - 1) + Weight(k, sibs[i - 1].cells)
  }

  /** What holds when balance_nonroot is called: in a leaf-data tree at most one cell has overflowed; elsewhere a cell
      takes at most a third of a page, and at most six are overflow cells (four dividers inserted below) or dividers (two). */
  ghost predicate Bounded(k: Kind, sibs: seq<Page<nat>>, divs: seq<Cell<nat>>)
    requires Input(k, sibs, divs)
  {
    if k.leafData then
      (forall c | c in All(k, sibs, divs) :: W(k, c.body) <= k.u)
      && (exists p :: 0 <= p < |sibs| && |sibs[p].ovfl| <= 1 && forall t | 0 <= t < |sibs| && t != p :: sibs[t].ovfl == [])
    else
      (forall c | c in All(k, sibs, divs) :: 3 * W(k, c.body) <= k.u)
      && |Loose(k, sibs, divs, |sibs|)| <= 6
  }

  lemma {:induction false} GatherWeight(k: Kind, sibs: seq<Page<nat>>, divs: seq<Cell<nat>>, i: nat)
    requires Input(k, sibs, divs) && i <= |sibs|
    ensures Weight(k, GatherTo(k, sibs, divs, i)) == Stored(k, sibs, i) + Weight(k, Loose(k, sibs, divs, i))
    ensures Stored(k, sibs, i) <= i * k.u
    ensures forall c | c in Loose(k, sibs, divs, i) :: c in GatherTo(k, sibs, divs, i)
  {
    hide Weight, DivAfter, Loaded;
    if i == 0 {
      NoWeight<nat>(k);
    } else {
      var s, d := sibs[i - 1], DivAfter(k, sibs, divs, i - 1);
      var g, l := GatherTo(k, sibs, divs, i - 1), Loose(k, sibs, divs, i - 1);
      GatherWeight(k, sibs, divs, i - 1);
      WeightConcat(k, g + Loaded(s), d);
      WeightConcat(k, g, Loaded(s));
      LoadedWeight(k, s);
      WeightConcat(k, l + s.ovfl, d);
      WeightConcat(k, l, s.ovfl);
      assert (i - 1) * k.u + k.u == i * k.u;
      forall c | c in s.ovfl ensures c in Loaded(s) { OvflLoaded(s, c); }
    }
  }

  lemma NoWeight<C>(k: Kind)
    ensures Weight<C>(k, []) == 0
  {
  }

  lemma OvflLoaded<C>(p: Page<C>, c: Cell<C>)
    requires p.Ok() && c in p.ovfl
    ensures c in Loaded(p)
  {
  }

  lemma {:induction false} WeightBound<C>(k: Kind, cs: seq<Cell<C>>, q: nat)
    requires forall c | c in cs :: W(k, c.body) <= q
    ensures Weight(k, cs) <= |cs| * q
  {
    if cs != [] {
      WeightBound(k, cs[1..], q);
      assert (|cs| - 1) * q + q == |cs| * q;
    }
  }

  lemma AllWeight(k: Kind, sibs: seq<Page<nat>>, divs: seq<Cell<nat>>, w: seq<nat>)
    requires Input(k, sibs, divs) && Weighs(k, All(k, sibs, divs), w)
    ensures P(w, |w|) == Stored(k, sibs, |sibs|) + Weight(k, Loose(k, sibs, divs, |sibs|))
    ensures Stored(k, sibs, |sibs|) <= |sibs| * k.u
  {
    hide Weight, GatherTo, Loose, Stored, P;
    SegmentWeight(k, All(k, sibs, divs), w, 0, |w|);
    PZero(w);
    assert All(k, sibs, divs)[0..|w|] == All(k, sibs, divs);
    GatherWeight(k, sibs, divs, |sibs|);
  }

  lemma ThirdCase(k: Kind, sibs: seq<Page<nat>>, divs: seq<Cell<nat>>, w: seq<nat>)
    requires Input(k, sibs, divs) && Weighs(k, All(k, sibs, divs), w) && Bounded(k, sibs, divs) && !k.leafData
    ensures var j := Job(w, k.u, k.leafData); Small(j) && Pairs(j) && !Hopeless(j)
  {
    hide Weight, GatherTo, Loose, Stored, P, Hopeless, Pairs, Small, W;
    var cells, l := All(k, sibs, divs), Loose(k, sibs, divs, |sibs|);
    AllWeight(k, sibs, divs, w);
    GatherWeight(k, sibs, divs, |sibs|);
    WeightBound(k, l, k.u / 3);
    assert |l| * (k.u / 3) <= 6 * (k.u / 3);
    forall t | 0 <= t < |w| ensures 0 < 3 * w[t] <= k.u {
      assert cells[t] in cells;
      WPositive(k, cells[t].body);
    }
    assert |sibs| * k.u <= 3 * k.u;
    ThirdFits(Job(w, k.u, k.leafData), Stored(k, sibs, |sibs|), Weight(k, l));
  }

  lemma WPositive(k: Kind, b: Body)
    ensures W(k, b) > 0
  {
  }

  lemma LeafDataCase(k: Kind, sibs: seq<Page<nat>>, divs: seq<Cell<nat>>, w: seq<nat>)
    requires Input(k, sibs, divs) && Weighs(k, All(k, sibs, divs), w) && Bounded(k, sibs, divs) && k.leafData
    ensures var j := Job(w, k.u, k.leafData); Small(j) && Pairs(j) && !Hopeless(j)
  {
    hide Weight, GatherTo, P, W, Size, Start, Loaded, OldEnd, OldBegin;
    var cells, j, c := All(k, sibs, divs), Job(w, k.u, k.leafData), OldCuts(k, sibs, divs);
    forall t | 0 <= t < |w| ensures 0 < w[t] <= k.u {
      assert cells[t] in cells;
      WPositive(k, cells[t].body);
    }
    OldSizes(k, sibs, divs, w);
    NoWeight<nat>(k);
    var p :| 0 <= p < |sibs| && |sibs[p].ovfl| <= 1 && forall t | 0 <= t < |sibs| && t != p :: sibs[t].ovfl == [];
    forall t | 0 <= t < |c| && t != p ensures Size(j, c, t) <= j.u {
      assert sibs[t].ovfl == [];
    }
    if sibs[p].ovfl == [] {
      assert Fits(j, c);
    } else {
      OverflowCell(k, sibs, divs, w, p);
      LeafDataFits(j, c, p, OldBegin(k, sibs, divs, p) + sibs[p].at);
    }
  }

  lemma OverflowCell(k: Kind, sibs: seq<Page<nat>>, divs: seq<Cell<nat>>, w: seq<nat>, p: nat)
    requires Input(k, sibs, divs) && Weighs(k, All(k, sibs, divs), w) && p < |sibs| && |sibs[p].ovfl| == 1
    ensures var x := OldBegin(k, sibs, divs, p) + sibs[p].at;
      OldBegin(k, sibs, divs, p) <= x < OldEnd(k, sibs, divs, p) <= |w| && w[x] == Weight(k, sibs[p].ovfl)
  {
    hide Weight, GatherTo, P, W, All;
    OldRun(k, sibs, divs, p);
    var s, b, cells := sibs[p], OldBegin(k, sibs, divs, p), All(k, sibs, divs);
    assert cells[b + s.at] == cells[b..OldEnd(k, sibs, divs, p)][s.at] == Loaded(s)[s.at] == s.ovfl[0];
    assert s.ovfl == [s.ovfl[0]];
    OneWeight(k, s.ovfl[0]);
  }

  /** Whatever the siblings hold, their cells can be packed. */
  lemma CanPack(k: Kind, sibs: seq<Page<nat>>, divs: seq<Cell<nat>>, w: seq<nat>)
    requires Input(k, sibs, divs) && Weighs(k, All(k, sibs, divs), w) && Bounded(k, sibs, divs)
    ensures var j := Job(w, k.u, k.leafData); Small(j) && Pairs(j) && !Hopeless(j)
  {
    hide Bounded, Weighs, Small, Pairs, Hopeless;
    if k.leafData { LeafDataCase(k, sibs, divs, w); } else { ThirdCase(k, sibs, divs, w); }
  }

  // ---- the method ----

  /** The cell a reference leads to, read off the pages. */
  method Fetch(ref: Ref<Cell<nat>>, body: array<seq<Cell<nat>>>, ghost cell: Cell<nat>) returns (c: Cell<nat>)
    requires Reads(ref, body[..], cell)
    ensures c == cell
  {
    match ref
    case OnPage(q, at) => c := body[q][at];
    case Aside(x) => c := x;
  }

  method Weigh(k: Kind, ref: seq<Ref<Cell<nat>>>, body: array<seq<Cell<nat>>>, ghost cells: seq<Cell<nat>>) returns (w: seq<nat>)
    requires |ref| == |cells| && forall c | 0 <= c < |ref| :: Reads(ref[c], body[..], cells[c])
    ensures Weighs(k, cells, w)
  {
    w := [];
    for c := 0 to |ref|
      invariant Weighs(k, cells[..c], w)
    {
      var x := Fetch(ref[c], body, cells[c]);
      w := w + [W(k, x.body)];
    }
    assert cells[..|ref|] == cells;
  }

  method OverflowWeight(k: Kind, ovfl: seq<Cell<nat>>) returns (n: nat)
    ensures n == Weight(k, ovfl)
  {
    n := 0;
    NoWeight<nat>(k);
    for t := 0 to |ovfl|
      invariant n == Weight(k, ovfl[..t])
    {
      assert ovfl[..t + 1] == ovfl[..t] + [ovfl[t]];
      WeightConcat(k, ovfl[..t], [ovfl[t]]);
      OneWeight(k, ovfl[t]);
      n := n + W(k, ovfl[t].body);
    }
    assert ovfl[..|ovfl|] == ovfl;
  }

  /** The old pages as the packing starts from them. */
  method InitSizes(k: Kind, sibs: seq<Page<nat>>, divs: seq<Cell<nat>>, nFree: seq<int>, cntOld: seq<nat>, w: seq<nat>,
                   cnt: array<nat>, sz: array<int>) returns (rc: Rc)
    requires Input(k, sibs, divs) && Weighs(k, All(k, sibs, divs), w) && cnt.Length == sz.Length == MAX_PAGES
    requires |nFree| == |sibs| && forall i | 0 <= i < |sibs| :: nFree[i] == k.u - Weight(k, sibs[i].cells)
    requires cntOld == OldCuts(k, sibs, divs)
    modifies cnt, sz
    ensures rc == OK && State(Job(w, k.u, k.leafData), cnt, sz, |sibs|)
  {
    hide Weight, GatherTo, Size, P, All, Loaded, Weighs, Start, OldEnd, OldBegin;
    rc := OK;
    for i := 0 to |sibs|
      invariant rc == OK
      invariant forall t | 0 <= t < i :: cnt[t] == cntOld[t] && sz[t] == Weight(k, sibs[t].cells) + Weight(k, sibs[t].ovfl)
    {
      sz[i] := k.u - nFree[i];
      if sz[i] < 0 { rc := CORRUPT; return; }
      var n := OverflowWeight(k, sibs[i].ovfl);
      sz[i] := sz[i] + n;
      cnt[i] := cntOld[i];
    }
    OldSizes(k, sibs, divs, w);
    assert cnt[..|sibs|] == cntOld;
  }

  /** The cuts as a writing plan. */
  lemma PlanOk(k: Kind, sibs: seq<Page<nat>>, divs: seq<Cell<nat>>, w: seq<nat>, c: seq<nat>, ref: seq<Ref<Cell<nat>>>,
               bodies: seq<seq<Cell<nat>>>, cntOld: seq<nat>, padded: seq<nat>)
    requires Input(k, sibs, divs) && |w| == |All(k, sibs, divs)| && |c| <= MAX_PAGES
    requires LoadedTo(k, sibs, divs, bodies, |sibs|, ref, cntOld)
    requires if |w| == 0 then c == [0] else Legal(Job(w, k.u, k.leafData), c)
    requires |padded| == MAX_PAGES && padded[..|sibs|] == cntOld && forall i | |sibs| <= i < MAX_PAGES :: padded[i] == |w|
    ensures var p := Plan(padded, c, |sibs|, k.Gap(), |w|);
      p.Ok() && |ref| == p.n && Home(p, ref) && CutsOk(c, k.Gap(), |w|)
  {
    hide P, Size, Loaded, LoadedTo, All, Legal, Home, From, Plan.NewStart, Plan.OldStart;
    var p := Plan(padded, c, |sibs|, k.Gap(), |w|);
    CutsStrict(Job(w, k.u, k.leafData), c);
    LoadedCuts(k, sibs, divs, bodies, ref, cntOld);
    OldStrict(k, sibs, divs, cntOld, padded, |w|);
    forall i | 0 <= i < |c| ensures p.NewStart(i) == From(c, k.Gap(), i) { SameStart(p, i); }
    PlanHome(k, sibs, divs, c, ref, bodies, cntOld, padded, |w|);
  }

  lemma SameStart(p: Plan, i: nat)
    requires i < |p.cntNew|
    ensures p.NewStart(i) == From(p.cntNew, p.gap, i)
  {
  }

  lemma LoadedCuts(k: Kind, sibs: seq<Page<nat>>, divs: seq<Cell<nat>>, bodies: seq<seq<Cell<nat>>>, ref: seq<Ref<Cell<nat>>>, cntOld: seq<nat>)
    requires Input(k, sibs, divs) && LoadedTo(k, sibs, divs, bodies, |sibs|, ref, cntOld)
    ensures cntOld == OldCuts(k, sibs, divs) && |ref| == |All(k, sibs, divs)|
    ensures forall c | 0 <= c < |ref| :: Reads(ref[c], bodies, All(k, sibs, divs)[c])
  {
    hide GatherTo, OldEnd;
  }

  lemma CutsStrict(j: Job, c: seq<nat>)
    requires if j.N() == 0 then c == [0] else Legal(j, c)
    ensures 0 < |c| && c[|c| - 1] == j.N()
    ensures forall i, t | 0 <= i < t < |c| :: c[i] < c[t]
    ensures forall i | 0 <= i < |c| :: From(c, j.Gap(), i) <= c[i] <= j.N()
    ensures forall i | 0 <= i < |c| - 1 :: c[i] + j.Gap() <= j.N() && 0 < c[i]
    ensures j.N() > 0 ==> forall i | 0 <= i < |c| :: From(c, j.Gap(), i) < c[i]
  {
    hide P, Size;
    if j.N() > 0 {
      forall i | 0 <= i < |c| ensures From(c, j.Gap(), i) < c[i] <= j.N() { CutStep(j, c, i); }
      forall i, t | 0 <= i < t < |c| ensures c[i] + j.Gap() <= c[t] && c[i] < c[t] { CutChain(j, c, i, t); }
    }
  }

  lemma CutStep(j: Job, c: seq<nat>, i: nat)
    requires Legal(j, c) && i < |c|
    ensures From(c, j.Gap(), i) == Start(j, c, i) < c[i] <= j.N()
  {
    hide P, Size;
  }

  lemma {:induction false} CutChain(j: Job, c: seq<nat>, i: nat, t: nat)
    requires Legal(j, c) && i < t < |c|
    ensures c[i] < c[t] && c[i] + j.Gap() <= c[t]
  {
    hide Legal;
    CutStep(j, c, t);
    if i < t - 1 { CutChain(j, c, i, t - 1); }
  }

  lemma OldStrict(k: Kind, sibs: seq<Page<nat>>, divs: seq<Cell<nat>>, cntOld: seq<nat>, padded: seq<nat>, n: nat)
    requires Input(k, sibs, divs) && n == |All(k, sibs, divs)| && cntOld == OldCuts(k, sibs, divs)
    requires |padded| == MAX_PAGES && padded[..|sibs|] == cntOld && forall i | |sibs| <= i < MAX_PAGES :: padded[i] == n
    ensures forall i, j | 0 <= i <= j < |padded| :: padded[i] <= padded[j] <= n
    ensures forall i | |sibs| - 1 <= i < |padded| :: padded[i] == n
  {
    hide GatherTo, Loaded, OldEnd, OldBegin;
    forall i | 0 <= i < |sibs| ensures padded[i] == OldEnd(k, sibs, divs, i) { assert padded[i] == cntOld[i]; }
    OldRun(k, sibs, divs, |sibs| - 1);
    forall i, j | 0 <= i <= j < |sibs| ensures OldEnd(k, sibs, divs, i) <= OldEnd(k, sibs, divs, j) <= n { OldGrows(k, sibs, divs, i, j); }
  }

  lemma {:induction false} OldGrows(k: Kind, sibs: seq<Page<nat>>, divs: seq<Cell<nat>>, i: nat, j: nat)
    requires Input(k, sibs, divs) && i <= j < |sibs|
    ensures OldEnd(k, sibs, divs, i) <= OldEnd(k, sibs, divs, j) <= |All(k, sibs, divs)|
  {
    hide GatherTo, Loaded, OldEnd, OldBegin;
    OldRun(k, sibs, divs, j);
    if i < j { OldGrows(k, sibs, divs, i, j - 1); }
  }

  lemma PlanHome(k: Kind, sibs: seq<Page<nat>>, divs: seq<Cell<nat>>, c: seq<nat>, ref: seq<Ref<Cell<nat>>>,
                 bodies: seq<seq<Cell<nat>>>, cntOld: seq<nat>, padded: seq<nat>, n: nat)
    requires Input(k, sibs, divs) && n == |All(k, sibs, divs)|
    requires LoadedTo(k, sibs, divs, bodies, |sibs|, ref, cntOld)
    requires |padded| == MAX_PAGES && padded[..|sibs|] == cntOld
    requires Plan(padded, c, |sibs|, k.Gap(), n).Ok()
    ensures |ref| == n && Home(Plan(padded, c, |sibs|, k.Gap(), n), ref)
  {
    hide GatherTo, Loaded, OldEnd, OldBegin;
    var p := Plan(padded, c, |sibs|, k.Gap(), n);
    forall t | 0 <= t < |sibs| ensures p.cntOld[t] == OldEnd(k, sibs, divs, t) && p.OldStart(t) == OldBegin(k, sibs, divs, t) {
      OldRun(k, sibs, divs, t);
      assert padded[t] == cntOld[t] && (t > 0 ==> padded[t - 1] == cntOld[t - 1]);
    }
  }

  /** The right children: the last page keeps that of the last old page, each other page gets its divider's child. */
  ghost predicate RightsOk(k: Kind, cells: seq<Cell<nat>>, c: seq<nat>, last: nat, right: seq<nat>)
    requires CutsOk(c, k.Gap(), |cells|)
  {
    |right| == |c| && (!k.leaf ==>
      right[|c| - 1] == last && forall i | 0 <= i < |c| - 1 :: c[i] < |cells| && right[i] == cells[c[i]].child)
  }

  ghost predicate DivsOk(k: Kind, cells: seq<Cell<nat>>, c: seq<nat>, divs: seq<Body>)
    requires CutsOk(c, k.Gap(), |cells|)
  {
    |divs| == |c| - 1 && forall i | 0 <= i < |divs| ::
      if k.leafData then 0 < c[i] && divs[i] == k.divider(cells[c[i] - 1].body)
      else c[i] < |cells| && divs[i] == cells[c[i]].body
  }

  /** Right children and dividers, read before any page is overwritten. */
  method MakeDividers(k: Kind, sibs: seq<Page<nat>>, ref: seq<Ref<Cell<nat>>>, body: array<seq<Cell<nat>>>, c: seq<nat>,
                      ghost cells: seq<Cell<nat>>) returns (right: seq<nat>, divs: seq<Body>)
    requires k.Ok() && 0 < |sibs| <= MAX_PAGES && 0 < |c| <= MAX_PAGES && CutsOk(c, k.Gap(), |cells|)
    requires forall i | 0 <= i < |c| - 1 :: 0 < c[i]
    requires |ref| == |cells| && forall x | 0 <= x < |ref| :: Reads(ref[x], body[..], cells[x])
    ensures RightsOk(k, cells, c, sibs[|sibs| - 1].right, right)
    ensures DivsOk(k, cells, c, divs)
  {
    hide Reads, From;
    var nOld, nNew := |sibs|, |c|;
    var r: seq<nat> := seq(MAX_PAGES, i requires 0 <= i < MAX_PAGES => if i < nOld then sibs[i].right else 0);
    if !k.leaf && nOld != nNew {
      r := r[nNew - 1 := r[nOld - 1]];
    }
    divs := [];
    for i := 0 to nNew - 1
      invariant |divs| == i && |r| == MAX_PAGES
      invariant !k.leaf ==> r[nNew - 1] == sibs[nOld - 1].right
      invariant !k.leaf ==> forall t | 0 <= t < i :: c[t] < |cells| && r[t] == cells[c[t]].child
      invariant forall t | 0 <= t < i ::
        if k.leafData then divs[t] == k.divider(cells[c[t] - 1].body) else c[t] < |cells| && divs[t] == cells[c[t]].body
    {
      var j := c[i];
      if k.leafData {
        var x := Fetch(ref[j - 1], body, cells[j - 1]);
        divs := divs + [k.divider(x.body)];
      } else {
        var x := Fetch(ref[j], body, cells[j]);
        if !k.leaf { r := r[i := x.child]; }
        divs := divs + [x.body];
      }
    }
    right := r[..nNew];
  }

  /** What balance_nonroot makes of the siblings: the same cells, divided by the cuts c. */
  ghost predicate Rebalanced(k: Kind, sibs: seq<Page<nat>>, divs: seq<Cell<nat>>, pages: seq<Page<nat>>, newDivs: seq<Body>)
    requires Input(k, sibs, divs)
  {
    && 0 < |pages| <= MAX_PAGES
    && (forall i | 0 <= i < |pages| :: pages[i].Ok() && pages[i].ovfl == [] && Weight(k, pages[i].cells) <= k.u)
    && (All(k, sibs, divs) != [] ==> forall i | 0 <= i < |pages| :: pages[i].cells != [])
    && if k.leafData then
         Joined(pages) == Joined(sibs) && LeafDivs(k, pages, newDivs)
       else
         Row(sibs, Bodies(divs)) && Row(pages, newDivs)
         && RowItems(k.leaf, pages, newDivs) == RowItems(k.leaf, sibs, Bodies(divs))
  }

  /** Each divider is made from the last cell of the page on its left. */
  ghost predicate LeafDivs(k: Kind, pages: seq<Page<nat>>, divs: seq<Body>) {
    |divs| == |pages| - 1 && forall i | 0 <= i < |divs| ::
      pages[i].cells != [] && divs[i] == k.divider(pages[i].cells[|pages[i].cells| - 1].body)
  }

  /** Of the ways to divide the siblings' cells so that no page overflows none has fewer than n pages. */
  ghost predicate LeastPages(k: Kind, sibs: seq<Page<nat>>, divs: seq<Cell<nat>>, n: nat)
    requires Input(k, sibs, divs)
  {
    forall w, d | Weighs(k, All(k, sibs, divs), w) && Fits(Job(w, k.u, k.leafData), d) :: n <= |d|
  }

  /** The pages hold the runs of cells between the cuts c. */
  ghost predicate Between(k: Kind, cells: seq<Cell<nat>>, c: seq<nat>, pages: seq<Page<nat>>) {
    |pages| == |c| && CutsOk(c, k.Gap(), |cells|) && forall i | 0 <= i < |c| ::
      From(c, k.Gap(), i) <= c[i] <= |cells| && pages[i].cells == cells[From(c, k.Gap(), i)..c[i]]
  }

  /** The pages are divided as from greedy cuts, each pair evened out from the right. */
  ghost predicate Divided(k: Kind, sibs: seq<Page<nat>>, divs: seq<Cell<nat>>, bBulk: bool, pages: seq<Page<nat>>)
    requires Input(k, sibs, divs)
  {
    exists w, g, c :: DividedBy(k, All(k, sibs, divs), bBulk, pages, w, g, c)
  }

  ghost predicate DividedBy(k: Kind, cells: seq<Cell<nat>>, bBulk: bool, pages: seq<Page<nat>>, w: seq<nat>, g: seq<nat>, c: seq<nat>) {
    && Weighs(k, cells, w) && Greedy(Job(w, k.u, k.leafData), g) && EvenedFrom(Job(w, k.u, k.leafData), g, c, 0, bBulk)
    && Between(k, cells, c, pages)
  }

  lemma IsDivided(k: Kind, sibs: seq<Page<nat>>, divs: seq<Cell<nat>>, bBulk: bool, pages: seq<Page<nat>>, w: seq<nat>, g: seq<nat>, c: seq<nat>)
    requires Input(k, sibs, divs) && DividedBy(k, All(k, sibs, divs), bBulk, pages, w, g, c)
    ensures Divided(k, sibs, divs, bBulk, pages)
  {
    hide DividedBy, All;
  }

  lemma IsLeast(k: Kind, sibs: seq<Page<nat>>, divs: seq<Cell<nat>>, w: seq<nat>, n: nat)
    requires Input(k, sibs, divs) && Weighs(k, All(k, sibs, divs), w) && forall d | Fits(Job(w, k.u, k.leafData), d) :: n <= |d|
    ensures LeastPages(k, sibs, divs, n)
  {
    hide All, Fits;
    forall w2, d | Weighs(k, All(k, sibs, divs), w2) && Fits(Job(w2, k.u, k.leafData), d) ensures n <= |d| {
      assert w2 == w;
    }
  }

  /** The method: load, divide, make the dividers, write the pages in a safe order. */
  method BalanceSiblings(k: Kind, sibs: seq<Page<nat>>, divs: seq<Cell<nat>>, nFree: seq<int>, bBulk: bool)
    returns (rc: Rc, pages: seq<Page<nat>>, newDivs: seq<Body>)
    requires Input(k, sibs, divs) && Bounded(k, sibs, divs)
    requires |nFree| == |sibs| && forall i | 0 <= i < |sibs| :: nFree[i] == k.u - Weight(k, sibs[i].cells)
    ensures rc == OK && Rebalanced(k, sibs, divs, pages, newDivs) && LeastPages(k, sibs, divs, |pages|)
    ensures Divided(k, sibs, divs, bBulk, pages)
  {
    hide Between, Divided, Bounded, Weight, Loaded, LoadedTo, All, Weighs, Small, Pairs, Hopeless, Legal, Plan.Ok, Home, Reads, Rebalanced, CutsOk, RightsOk, DivsOk, State, LeastPages, Fits, Greedy, EvenedFrom;
    pages, newDivs := [], [];
    var body := new seq<Cell<nat>>[MAX_PAGES](i requires 0 <= i < MAX_PAGES => if i < |sibs| then sibs[i].cells else []);
    var ref, cntOld := LoadCells(k, sibs, divs, body[..]);
    LoadedCuts(k, sibs, divs, body[..], ref, cntOld);
    ghost var cells := All(k, sibs, divs);
    var w := Weigh(k, ref, body, cells);
    var j := Job(w, k.u, k.leafData);
    var cnt, sz := new nat[MAX_PAGES](_ => 0), new int[MAX_PAGES](_ => 0);
    rc := InitSizes(k, sibs, divs, nFree, cntOld, w, cnt, sz);
    if rc != OK { return; }
    CanPack(k, sibs, divs, w);
    var nNew;
    ghost var greedy;
    rc, nNew, greedy := Divide(j, cnt, sz, |sibs|, bBulk);
    if rc != OK { return; }
    IsLeast(k, sibs, divs, w, nNew);
    pages, newDivs := Rewrite(k, sibs, divs, ref, w, cntOld, cnt[..nNew], body);
    IsDivided(k, sibs, divs, bBulk, pages, w, greedy, cnt[..nNew]);
  }

  /** The pages written by the plan, with their right children. */
  method Rewrite(k: Kind, sibs: seq<Page<nat>>, divs: seq<Cell<nat>>, ref: seq<Ref<Cell<nat>>>, w: seq<nat>,
                 cntOld: seq<nat>, c: seq<nat>, body: array<seq<Cell<nat>>>)
    returns (pages: seq<Page<nat>>, newDivs: seq<Body>)
    requires Input(k, sibs, divs) && body.Length == MAX_PAGES && Weighs(k, All(k, sibs, divs), w)
    requires LoadedTo(k, sibs, divs, body[..], |sibs|, ref, cntOld) && 0 < |c| <= MAX_PAGES
    requires if |w| == 0 then c == [0] else Legal(Job(w, k.u, k.leafData), c)
    modifies body
    ensures Rebalanced(k, sibs, divs, pages, newDivs) && |pages| == |c| && Between(k, All(k, sibs, divs), c, pages)
  {
    hide Between, Weight, Loaded, LoadedTo, All, Weighs, Legal, Plan.Ok, Home, Reads, Rebalanced, CutsOk, RightsOk, DivsOk, From;
    ghost var cells := All(k, sibs, divs);
    LoadedCuts(k, sibs, divs, body[..], ref, cntOld);
    SameSize(k, cells, w);
    var padded := cntOld + seq(MAX_PAGES - |cntOld|, _ => |w|);
    PlanOk(k, sibs, divs, w, c, ref, body[..], cntOld, padded);
    CutsStrict(Job(w, k.u, k.leafData), c);
    var right;
    right, newDivs := MakeDividers(k, sibs, ref, body, c, cells);
    var p := Plan(padded, c, |sibs|, k.Gap(), |w|);
    var edits := WritePages(p, ref, cells, body);
    RightSize(k, cells, c, sibs[|sibs| - 1].right, right);
    pages := Assemble(body, right, |c|);
    forall i | 0 <= i < |c| ensures p.NewStart(i) == From(c, k.Gap(), i) { SameStart(p, i); }
    Done(k, sibs, divs, w, c, right, pages, newDivs);
    RunsBetween(k, cells, c, right, pages);
  }

  lemma RunsBetween(k: Kind, cells: seq<Cell<nat>>, c: seq<nat>, right: seq<nat>, pages: seq<Page<nat>>)
    requires CutsOk(c, k.Gap(), |cells|) && |right| == |c| && Runs(k, cells, c, right, pages)
    ensures Between(k, cells, c, pages)
  {
  }

  method Assemble(body: array<seq<Cell<nat>>>, right: seq<nat>, n: nat) returns (pages: seq<Page<nat>>)
    requires n <= body.Length && n <= |right|
    ensures |pages| == n && forall t | 0 <= t < n :: pages[t] == Page(body[t], right[t], 0, [])
  {
    pages := [];
    for i := 0 to n
      invariant |pages| == i && forall t | 0 <= t < i :: pages[t] == Page(body[t], right[t], 0, [])
    {
      pages := pages + [Page(body[i], right[i], 0, [])];
    }
  }

  lemma SameSize<C>(k: Kind, cells: seq<Cell<C>>, w: seq<nat>)
    requires Weighs(k, cells, w)
    ensures |w| == |cells|
  {
  }

  lemma RightSize(k: Kind, cells: seq<Cell<nat>>, c: seq<nat>, last: nat, right: seq<nat>)
    requires CutsOk(c, k.Gap(), |cells|) && RightsOk(k, cells, c, last, right)
    ensures |right| == |c|
  {
  }

  /** The new pages hold the runs of cells that the cuts make. */
  ghost predicate Runs(k: Kind, cells: seq<Cell<nat>>, c: seq<nat>, right: seq<nat>, pages: seq<Page<nat>>)
    requires CutsOk(c, k.Gap(), |cells|) && |right| == |c|
  {
    |pages| == |c| && forall i | 0 <= i < |c| ::
      From(c, k.Gap(), i) <= c[i] <= |cells| && pages[i] == Page(cells[From(c, k.Gap(), i)..c[i]], right[i], 0, [])
  }

  lemma Done(k: Kind, sibs: seq<Page<nat>>, divs: seq<Cell<nat>>, w: seq<nat>, c: seq<nat>, right: seq<nat>,
             pages: seq<Page<nat>>, newDivs: seq<Body>)
    requires Input(k, sibs, divs) && Weighs(k, All(k, sibs, divs), w) && 0 < |c| <= MAX_PAGES
    requires if |w| == 0 then c == [0] else Legal(Job(w, k.u, k.leafData), c)
    requires CutsOk(c, k.Gap(), |All(k, sibs, divs)|) && RightsOk(k, All(k, sibs, divs), c, sibs[|sibs| - 1].right, right)
    requires |right| == |c| && Runs(k, All(k, sibs, divs), c, right, pages) && DivsOk(k, All(k, sibs, divs), c, newDivs)
    ensures Rebalanced(k, sibs, divs, pages, newDivs)
  {
    hide Weight, All, Weighs, Legal, CutsOk, RightsOk, DivsOk, From, Joined, RowItems, LeafDivs, Runs, Row, Loaded;
    RunsSize(k, All(k, sibs, divs), c, right, pages);
    forall i | 0 <= i < |c|
      ensures pages[i].Ok() && pages[i].ovfl == [] && Weight(k, pages[i].cells) <= k.u
      ensures All(k, sibs, divs) != [] ==> pages[i].cells != []
    {
      PageFits(k, sibs, divs, w, c, right, pages, i);
    }
    if k.leafData { LeafDone(k, sibs, divs, w, c, right, pages, newDivs); } else { RowDone(k, sibs, divs, c, right, pages, newDivs); }
  }

  lemma RunsSize(k: Kind, cells: seq<Cell<nat>>, c: seq<nat>, right: seq<nat>, pages: seq<Page<nat>>)
    requires CutsOk(c, k.Gap(), |cells|) && |right| == |c| && Runs(k, cells, c, right, pages)
    ensures |pages| == |c|
  {
  }

  lemma PageFits(k: Kind, sibs: seq<Page<nat>>, divs: seq<Cell<nat>>, w: seq<nat>, c: seq<nat>, right: seq<nat>,
                 pages: seq<Page<nat>>, i: nat)
    requires Input(k, sibs, divs) && Weighs(k, All(k, sibs, divs), w) && i < |c|
    requires if |w| == 0 then c == [0] else Legal(Job(w, k.u, k.leafData), c)
    requires CutsOk(c, k.Gap(), |All(k, sibs, divs)|) && |right| == |c| && Runs(k, All(k, sibs, divs), c, right, pages)
    ensures |pages| == |c| && pages[i].Ok() && pages[i].ovfl == [] && Weight(k, pages[i].cells) <= k.u
    ensures All(k, sibs, divs) != [] ==> pages[i].cells != []
  {
    hide Weight, All, P, Size, CutsOk;
    var cells, j := All(k, sibs, divs), Job(w, k.u, k.leafData);
    RunAt(k, cells, c, right, pages, i);
    SegmentWeight(k, cells, w, From(c, k.Gap(), i), c[i]);
    if |w| == 0 {
      assert cells[From(c, k.Gap(), i)..c[i]] == [];
      NoWeight<nat>(k);
    } else {
      CutStep(j, c, i);
      CutSize(j, c, i);
    }
  }

  lemma RunAt(k: Kind, cells: seq<Cell<nat>>, c: seq<nat>, right: seq<nat>, pages: seq<Page<nat>>, i: nat)
    requires CutsOk(c, k.Gap(), |cells|) && |right| == |c| && Runs(k, cells, c, right, pages) && i < |c|
    ensures |pages| == |c| && From(c, k.Gap(), i) <= c[i] <= |cells|
    ensures pages[i] == Page(cells[From(c, k.Gap(), i)..c[i]], right[i], 0, [])
  {
  }

  lemma CutSize(j: Job, c: seq<nat>, i: nat)
    requires Legal(j, c) && i < |c|
    ensures Start(j, c, i) <= |j.w| && c[i] <= |j.w| && P(j.w, c[i]) - P(j.w, Start(j, c, i)) <= j.u
  {
    hide P;
    assert Size(j, c, i) <= j.u;
  }

  lemma PlainLoaded<C>(p: Page<C>)
    requires p.at == 0 && p.ovfl == []
    ensures p.Ok() && Loaded(p) == p.cells
  {
  }

  lemma LeafDone(k: Kind, sibs: seq<Page<nat>>, divs: seq<Cell<nat>>, w: seq<nat>, c: seq<nat>, right: seq<nat>,
                 pages: seq<Page<nat>>, newDivs: seq<Body>)
    requires Input(k, sibs, divs) && k.leafData && Weighs(k, All(k, sibs, divs), w)
    requires if |w| == 0 then c == [0] else Legal(Job(w, k.u, k.leafData), c)
    requires CutsOk(c, k.Gap(), |All(k, sibs, divs)|) && |right| == |c|
    requires Runs(k, All(k, sibs, divs), c, right, pages) && DivsOk(k, All(k, sibs, divs), c, newDivs)
    ensures forall i | 0 <= i < |pages| :: pages[i].Ok()
    ensures Joined(pages) == Joined(sibs) && LeafDivs(k, pages, newDivs)
  {
    hide Weight, All, P, Size, CutsOk, From, Loaded, Joined, Runs, Legal, Weighs;
    var cells := All(k, sibs, divs);
    RunsSize(k, cells, c, right, pages);
    forall i | 0 <= i < |pages| ensures pages[i].Ok() && From(c, 0, i) <= c[i] <= |cells| && Loaded(pages[i]) == cells[From(c, 0, i)..c[i]] {
      RunAt(k, cells, c, right, pages, i);
      PlainLoaded(pages[i]);
    }
    LeafSplitJoined(pages, newDivs, cells, c, k.divider, 0);
    FromZero(c, 0);
    AllJoined(k, sibs, divs, 0);
    assert pages[0..] == pages && sibs[0..] == sibs && cells[0..] == cells;
    GatherZero(k, sibs, divs);
    assert [] + Joined(sibs) == Joined(sibs);
    LeafDivsDone(k, cells, w, c, right, pages, newDivs);
  }

  lemma LeafDivsDone(k: Kind, cells: seq<Cell<nat>>, w: seq<nat>, c: seq<nat>, right: seq<nat>,
                     pages: seq<Page<nat>>, newDivs: seq<Body>)
    requires k.leafData && Weighs(k, cells, w)
    requires if |w| == 0 then c == [0] else Legal(Job(w, k.u, k.leafData), c)
    requires CutsOk(c, k.Gap(), |cells|) && |right| == |c|
    requires Runs(k, cells, c, right, pages) && DivsOk(k, cells, c, newDivs)
    ensures LeafDivs(k, pages, newDivs)
  {
    hide P, Size, CutsOk, From, Runs, Legal, Weighs;
    RunsSize(k, cells, c, right, pages);
    SameSize(k, cells, w);
    forall i | 0 <= i < |newDivs|
      ensures pages[i].cells != [] && newDivs[i] == k.divider(pages[i].cells[|pages[i].cells| - 1].body)
    {
      RunAt(k, cells, c, right, pages, i);
      if |w| > 0 { CutStep(Job(w, k.u, k.leafData), c, i); }
    }
  }

  lemma FromZero(c: seq<nat>, gap: nat)
    ensures From(c, gap, 0) == 0
  {
  }

  lemma GatherZero(k: Kind, sibs: seq<Page<nat>>, divs: seq<Cell<nat>>)
    requires Input(k, sibs, divs)
    ensures GatherTo(k, sibs, divs, 0) == []
  {
  }

  lemma RowDone(k: Kind, sibs: seq<Page<nat>>, divs: seq<Cell<nat>>, c: seq<nat>, right: seq<nat>,
                pages: seq<Page<nat>>, newDivs: seq<Body>)
    requires Input(k, sibs, divs) && !k.leafData
    requires CutsOk(c, k.Gap(), |All(k, sibs, divs)|) && |right| == |c|
    requires RightsOk(k, All(k, sibs, divs), c, sibs[|sibs| - 1].right, right)
    requires Runs(k, All(k, sibs, divs), c, right, pages) && DivsOk(k, All(k, sibs, divs), c, newDivs)
    ensures Row(sibs, Bodies(divs)) && Row(pages, newDivs)
    ensures RowItems(k.leaf, pages, newDivs) == RowItems(k.leaf, sibs, Bodies(divs))
  {
    hide All, CutsOk, From, Loaded, RowItems, Gather, Runs;
    var cells := All(k, sibs, divs);
    RunsSize(k, cells, c, right, pages);
    forall i | 0 <= i < |pages|
      ensures pages[i].Ok() && From(c, 1, i) <= c[i] <= |cells| && Loaded(pages[i]) == cells[From(c, 1, i)..c[i]] && pages[i].right == right[i]
    {
      RunAt(k, cells, c, right, pages, i);
      PlainLoaded(pages[i]);
    }
    AllGathered(k, sibs, divs, 0);
    GatherZero(k, sibs, divs);
    assert sibs[0..] == sibs && divs[0..] == divs;
    assert [] + Gather(k.leaf, sibs, divs) == Gather(k.leaf, sibs, divs);
    SameItems(k.leaf, sibs, divs, pages, newDivs, c);
  }
}
