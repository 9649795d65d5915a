/** The accumulator of sqlite_stat4: one pass over a sorted index, a bounded number of samples. */
module Stat4 {
  import opened StatRows

  datatype Sample = Sample(anEq: seq<nat>, anLt: seq<nat>, anDLt: seq<nat>, rowid: int, isPSample: bool, iCol: nat, iHash: nat)

  ghost predicate Shape(s: Sample, nCol: nat) {
    |s.anEq| == nCol && |s.anLt| == nCol && |s.anDLt| == nCol && s.iCol < nCol
  }

  /** The row a sample was taken from: so many rows come before it. */
  function Row(s: Sample, nCol: nat): nat { if 0 < nCol <= |s.anLt| then s.anLt[nCol - 1] else 0 }

  // ---- which sample is better ----

  /** Of two samples chosen for the same column, the one with more equal rows in the columns after it. */
  ghost predicate BetterFrom(nCol: nat, i: nat, a: Sample, b: Sample)
    requires Shape(a, nCol) && Shape(b, nCol)
    decreases nCol - i
  {
    if i >= nCol then a.iHash > b.iHash
    else a.anEq[i] > b.anEq[i] || (a.anEq[i] == b.anEq[i] && BetterFrom(nCol, i + 1, a, b))
  }

  ghost predicate Better(nCol: nat, a: Sample, b: Sample)
    requires Shape(a, nCol) && Shape(b, nCol)
  {
    a.anEq[a.iCol] > b.anEq[b.iCol]
    || (a.anEq[a.iCol] == b.anEq[b.iCol] && (a.iCol < b.iCol || (a.iCol == b.iCol && BetterFrom(nCol, a.iCol + 1, a, b))))
  }

  method SampleIsBetterPost(nCol: nat, pNew: Sample, pOld: Sample) returns (b: bool)
    requires Shape(pNew, nCol) && Shape(pOld, nCol)
    ensures b <==> BetterFrom(nCol, pNew.iCol + 1, pNew, pOld)
  {
    var i := pNew.iCol + 1;
    while i < nCol
      invariant i <= nCol
      invariant BetterFrom(nCol, pNew.iCol + 1, pNew, pOld) == BetterFrom(nCol, i, pNew, pOld)
    {
      if pNew.anEq[i] > pOld.anEq[i] { return true; }
      if pNew.anEq[i] < pOld.anEq[i] { return false; }
      i := i + 1;
    }
    return pNew.iHash > pOld.iHash;
  }

  method SampleIsBetter(nCol: nat, pNew: Sample, pOld: Sample) returns (b: bool)
    requires Shape(pNew, nCol) && Shape(pOld, nCol)
    ensures b <==> Better(nCol, pNew, pOld)
  {
    var nEqNew, nEqOld := pNew.anEq[pNew.iCol], pOld.anEq[pOld.iCol];
    if nEqNew > nEqOld { return true; }
    if nEqNew == nEqOld {
      if pNew.iCol < pOld.iCol { return true; }
      if pNew.iCol == pOld.iCol { b := SampleIsBetterPost(nCol, pNew, pOld); return; }
    }
    return false;
  }

  lemma {:induction false} BetterFromTransitive(nCol: nat, i: nat, a: Sample, b: Sample, c: Sample)
    requires Shape(a, nCol) && Shape(b, nCol) && Shape(c, nCol)
    ensures BetterFrom(nCol, i, a, b) && BetterFrom(nCol, i, b, c) ==> BetterFrom(nCol, i, a, c)
    ensures !BetterFrom(nCol, i, a, a)
    decreases nCol - i
  {
    if i < nCol { BetterFromTransitive(nCol, i + 1, a, b, c); }
  }

  lemma BetterTransitive(nCol: nat, a: Sample, b: Sample, c: Sample)
    requires Shape(a, nCol) && Shape(b, nCol) && Shape(c, nCol)
    ensures Better(nCol, a, b) && Better(nCol, b, c) ==> Better(nCol, a, c)
    ensures !Better(nCol, a, a)
  {
    BetterFromTransitive(nCol, a.iCol + 1, a, b, c);
  }

  // ---- what is known of a sample ----

  /** A count of equal rows: 0 while it is unknown and rows equal to the sample's may still come; else it is final. */
  ghost predicate EqOk(chng: seq<nat>, lim: nat, r: nat, j: nat, eq: nat)
    requires r < |chng|
  {
    if eq == 0 then Open(chng, r, j)
    else eq == End(chng, r, j) - Start(chng, r, j) && (j >= lim || !Open(chng, r, j))
  }

  /** The counts of a sample are those of its row; lim: groups by columns from lim on end with the last row. */
  ghost predicate Known(s: Sample, chng: seq<nat>, nCol: nat, lim: nat) {
    && Shape(s, nCol) && 0 < nCol && Row(s, nCol) < |chng|
    && (forall j | 0 <= j < nCol :: s.anLt[j] == Start(chng, Row(s, nCol), j))
    && (forall j | 0 <= j < nCol :: s.anDLt[j] == Distinct(chng, Row(s, nCol), j))
    && (forall j | 0 <= j < nCol :: EqOk(chng, lim, Row(s, nCol), j, s.anEq[j]))
  }

  /** A sample of the current row, before it is known how its groups go on. */
  ghost predicate Current(s: Sample, chng: seq<nat>, nCol: nat) {
    && Shape(s, nCol) && 0 < |chng|
    && (forall j | 0 <= j < nCol :: s.anLt[j] == Start(chng, |chng| - 1, j))
    && (forall j | 0 <= j < nCol :: s.anDLt[j] == Distinct(chng, |chng| - 1, j))
    && (forall j | 0 <= j < nCol :: s.anEq[j] == |chng| - Start(chng, |chng| - 1, j))
  }

  /** The best sample for column i: its group by the columns up to i is the current one, those by more columns end with it. */
  ghost predicate Best(s: Sample, chng: seq<nat>, nCol: nat, i: nat) {
    && Shape(s, nCol) && 0 < nCol && Row(s, nCol) < |chng| && !s.isPSample && s.iCol == i && Open(chng, Row(s, nCol), i)
    && (Row(s, nCol) + 1 < |chng| ==> chng[Row(s, nCol) + 1] <= i + 1)
    && (forall j | 0 <= j < nCol :: s.anLt[j] == Start(chng, Row(s, nCol), j))
    && (forall j | 0 <= j < nCol :: s.anDLt[j] == Distinct(chng, Row(s, nCol), j))
    && (forall j | i < j < nCol :: s.anEq[j] == Row(s, nCol) + 1 - Start(chng, Row(s, nCol), j))
  }

  /** What the current row was at each row: only the counts so far, and the hash. */
  ghost predicate SeenOk(seen: seq<Sample>, chng: seq<nat>, nCol: nat) {
    |seen| == |chng| && forall r | 0 <= r < |seen| ::
      Shape(seen[r], nCol) && forall j | 0 <= j < nCol :: seen[r].anEq[j] == r + 1 - Start(chng, r, j)
  }

  /** No row of the current group by the columns up to i was better than s. */
  ghost predicate Top(s: Sample, seen: seq<Sample>, chng: seq<nat>, nCol: nat, i: nat) {
    Shape(s, nCol) && forall r | 0 <= r < |seen| && Open(chng, r, i) :: Shape(seen[r], nCol) && !BetterFrom(nCol, i + 1, seen[r], s)
  }

  /** A sample carries the rowid and the hash of the row it was taken from. */
  ghost predicate Traced(s: Sample, seen: seq<Sample>, nCol: nat) {
    Row(s, nCol) < |seen| && s.rowid == seen[Row(s, nCol)].rowid && s.iHash == seen[Row(s, nCol)].iHash
  }

  ghost predicate AllTraced(a: seq<Sample>, seen: seq<Sample>, nCol: nat) {
    forall k | 0 <= k < |a| :: Traced(a[k], seen, nCol)
  }

  /** For each column but the last: the best sample of the current group. */
  ghost predicate Bests(best: seq<Sample>, seen: seq<Sample>, chng: seq<nat>, nCol: nat) {
    && |best| == nCol
    && forall i | 0 <= i < nCol - 1 ::
         Best(best[i], chng, nCol, i) && Top(best[i], seen, chng, nCol, i) && Traced(best[i], seen, nCol)
  }

  ghost predicate AllKnown(a: seq<Sample>, chng: seq<nat>, nCol: nat, lim: nat) {
    forall k | 0 <= k < |a| :: Known(a[k], chng, nCol, lim)
  }

  ghost predicate AllShape(a: seq<Sample>, nCol: nat) { forall k | 0 <= k < |a| :: Shape(a[k], nCol) }

  ghost predicate Ordered(a: seq<Sample>, nCol: nat) { forall k, l | 0 <= k < l < |a| :: Row(a[k], nCol) < Row(a[l], nCol) }

  /** A sample kept for a column has the count of that column, and those of the columns after it before column lim. */
  ghost predicate Chosen(s: Sample, lim: nat) {
    !s.isPSample ==> Pledged(s) && forall j | 0 <= j < |s.anEq| && j < lim :: s.anEq[j] == 0 ==> j < s.iCol
  }

  ghost predicate Pledged(s: Sample) { s.iCol < |s.anEq| && s.anEq[s.iCol] > 0 }

  /** The group s is kept for has more than n rows, or as many and is by no later column than i. */
  ghost predicate Heavy(s: Sample, n: nat, i: nat) {
    s.iCol < |s.anEq| && (s.anEq[s.iCol] > n || (s.anEq[s.iCol] == n && s.iCol <= i))
  }

  /** The better sample is kept for the bigger group, or for as big a one by no later column. */
  lemma BetterHeavy(nCol: nat, a: Sample, b: Sample)
    requires Shape(a, nCol) && Shape(b, nCol)
    ensures if Better(nCol, a, b) then Heavy(a, b.anEq[b.iCol], b.iCol) else Heavy(b, a.anEq[a.iCol], a.iCol)
  {
  }

  /** Of samples kept for groups of one size by one column the first later column in which they differ decides, else the hash. */
  lemma {:induction false} FirstDifference(nCol: nat, i: nat, j: nat, a: Sample, b: Sample)
    requires Shape(a, nCol) && Shape(b, nCol) && i <= j <= nCol && forall t | i <= t < j :: a.anEq[t] == b.anEq[t]
    ensures j < nCol && a.anEq[j] != b.anEq[j] ==> (BetterFrom(nCol, i, a, b) <==> a.anEq[j] > b.anEq[j])
    ensures j == nCol ==> (BetterFrom(nCol, i, a, b) <==> a.iHash > b.iHash)
    decreases j - i
  {
    if i < j { FirstDifference(nCol, i + 1, j, a, b); }
  }

  /** Sample k is kept for a group, and no other sample for a smaller one. */
  ghost predicate Lightest(a: seq<Sample>, k: nat) {
    k < |a| && !a[k].isPSample && Pledged(a[k]) && forall l | 0 <= l < |a| && !a[l].isPSample :: Heavy(a[l], a[k].anEq[a[k].iCol], a[k].iCol)
  }

  lemma WorstLightest(a: seq<Sample>, nCol: nat, k: nat, lim: nat)
    requires k < |a| && AllShape(a, nCol) && Worst(a, nCol, k) && AllChosen(a, lim)
    ensures Lightest(a, k)
  {
    hide Better;
    assert Chosen(a[k], lim);
    forall l | 0 <= l < |a| && !a[l].isPSample ensures Heavy(a[l], a[k].anEq[a[k].iCol], a[k].iCol) { BetterHeavy(nCol, a[k], a[l]); }
  }

  ghost predicate AllChosen(a: seq<Sample>, lim: nat) { forall k | 0 <= k < |a| :: Chosen(a[k], lim) }

  /** A periodic sample of row r is kept. */
  ghost predicate HasPeriodic(a: seq<Sample>, nCol: nat, r: nat) {
    exists k :: 0 <= k < |a| && a[k].isPSample && Row(a[k], nCol) == r
  }

  /** Rows that become periodic samples: the last one of each period. */
  predicate Due(r: nat, nPSample: nat) { nPSample > 0 && r / nPSample != (r + 1) / nPSample }

  /** The periodic samples are those of the rows that are due. */
  ghost predicate PeriodicOk(a: seq<Sample>, nCol: nat, nRow: nat, nPSample: nat) {
    forall r: nat :: HasPeriodic(a, nCol, r) <==> r < nRow && Due(r, nPSample)
  }

  ghost function Periodic(a: seq<Sample>): (n: nat)
    ensures n <= |a|
  {
    if a == [] then 0 else Periodic(a[..|a| - 1]) + if a[|a| - 1].isPSample then 1 else 0
  }

  lemma {:induction false} PeriodicConcat(a: seq<Sample>, b: seq<Sample>)
    ensures Periodic(a + b) == Periodic(a) + Periodic(b)
  {
    if b == [] {
      assert a + b == a;
    } else {
      PeriodicConcat(a, b[..|b| - 1]);
      assert (a + b)[..|a + b| - 1] == a + b[..|b| - 1];
    }
  }

  lemma PeriodicOne(s: Sample)
    ensures Periodic([s]) == if s.isPSample then 1 else 0
  {
    assert [s][..0] == [];
  }

  lemma {:induction false} AllPeriodic(a: seq<Sample>)
    requires forall k | 0 <= k < |a| :: a[k].isPSample
    ensures Periodic(a) == |a|
  {
    if a != [] { AllPeriodic(a[..|a| - 1]); }
  }

  // ---- insertion ----

  function Zeroed(s: Sample, z: nat): Sample {
    s.(anEq := seq(|s.anEq|, j requires 0 <= j < |s.anEq| => if j < z then 0 else s.anEq[j]))
  }

  function Upgraded(s: Sample, iCol: nat, eq: nat): Sample
    requires iCol < |s.anEq|
  {
    s.(iCol := iCol, anEq := s.anEq[iCol := eq])
  }

  /** The samples without the one to make room, if there is no room. */
  function Room(a: seq<Sample>, mx: nat, iMin: nat): seq<Sample>
    requires |a| >= mx ==> iMin < |a|
  {
    if |a| < mx then a else a[..iMin] + a[iMin + 1..]
  }

  /** The sample is in a group by the columns up to i that has not ended. */
  predicate Pending(s: Sample, i: nat) { i < |s.anEq| && s.anEq[i] == 0 }

  ghost predicate AnyPending(a: seq<Sample>, i: nat) { exists k :: 0 <= k < |a| && Pending(a[k], i) }

  ghost predicate PeriodicPending(a: seq<Sample>, i: nat) { exists k :: 0 <= k < |a| && a[k].isPSample && Pending(a[k], i) }

  /** No sample that is not periodic is better gone than sample k. */
  ghost predicate Worst(a: seq<Sample>, nCol: nat, k: nat)
    requires k < |a| && AllShape(a, nCol)
  {
    !a[k].isPSample && forall l | 0 <= l < |a| && !a[l].isPSample :: !Better(nCol, a[k], a[l])
  }

  /** No sample in the group is better than sample k. */
  ghost predicate BestPending(a: seq<Sample>, nCol: nat, k: nat, i: nat)
    requires k < |a| && AllShape(a, nCol)
  {
    Pending(a[k], i) && forall l | 0 <= l < |a| && Pending(a[l], i) :: !Better(nCol, a[l], a[k])
  }

  /** The outcome of sampleInsert. A group that has a periodic sample needs no other; one that has others has the best of
      them upgraded; else the new sample comes last, and the one at iMin makes room for it if there is none. */
  ghost predicate Inserted(nCol: nat, a: seq<Sample>, b: seq<Sample>, pNew: Sample, nEqZero: nat, mx: nat, iMin: nat)
    requires AllShape(a, nCol)
  {
    if !pNew.isPSample && PeriodicPending(a, pNew.iCol) then b == a
    else if !pNew.isPSample && AnyPending(a, pNew.iCol) then
      exists k :: 0 <= k < |a| && BestPending(a, nCol, k, pNew.iCol) && UpgradedAt(a, b, pNew, k)
    else (|a| >= mx ==> iMin < |a|) && b == Room(a, mx, iMin) + [Zeroed(pNew, nEqZero)]
  }

  /** A candidate is only inserted if there is room, or the worst sample is worse. */
  ghost predicate Offered(nCol: nat, a: seq<Sample>, b: seq<Sample>, s: Sample, i: nat, mx: nat, iMin: nat)
    requires AllShape(a, nCol) && Shape(s, nCol)
  {
    if |a| < mx || (iMin < |a| && Better(nCol, s, a[iMin])) then Inserted(nCol, a, b, s, i, mx, iMin) else b == a
  }

  ghost predicate UpgradedAt(a: seq<Sample>, b: seq<Sample>, pNew: Sample, k: nat)
    requires k < |a|
  {
    && pNew.iCol < |a[k].anEq| && pNew.iCol < |pNew.anEq| && !a[k].isPSample && a[k].anEq[pNew.iCol] == 0
    && b == a[k := Upgraded(a[k], pNew.iCol, pNew.anEq[pNew.iCol])]
  }

  /** A closed group of the current row, as a new sample or an upgrade. */
  lemma UpgradeKnown(s: Sample, chng: seq<nat>, nCol: nat, i: nat)
    requires Known(s, chng, nCol, i + 1) && i < nCol && s.anEq[i] == 0 && |chng| > 0
    ensures Known(Upgraded(s, i, |chng| - Start(chng, |chng| - 1, i)), chng, nCol, i)
    ensures Row(Upgraded(s, i, |chng| - Start(chng, |chng| - 1, i)), nCol) == Row(s, nCol)
  {
    hide End, Start, Distinct, Open;
    OpenEnd(chng, Row(s, nCol), i);
    KnownLess(s, chng, nCol, i + 1, i);
  }

  lemma KnownLess(s: Sample, chng: seq<nat>, nCol: nat, lim: nat, lim2: nat)
    requires Known(s, chng, nCol, lim) && lim2 <= lim
    ensures Known(s, chng, nCol, lim2)
  {
    hide End, Start, Distinct, Open;
  }

  /** A best sample, given the size of its group when this ends, is known. */
  lemma BestKnown(s: Sample, chng: seq<nat>, nCol: nat, i: nat, c: nat)
    requires Stream(chng, nCol) && Best(s, chng, nCol, i) && c <= i < nCol - 1
    ensures Known(Zeroed(s.(anEq := s.anEq[i := |chng| - Start(chng, |chng| - 1, i)]), i), chng, nCol, i)
    ensures Row(Zeroed(s.(anEq := s.anEq[i := |chng| - Start(chng, |chng| - 1, i)]), i), nCol) == Row(s, nCol)
  {
    hide Start, Distinct, Stream;
    var z := Zeroed(s.(anEq := s.anEq[i := |chng| - Start(chng, |chng| - 1, i)]), i);
    forall j | 0 <= j < nCol ensures EqOk(chng, i, Row(s, nCol), j, z.anEq[j]) {
      if j <= i {
        OpenEnd(chng, Row(s, nCol), j);
      } else {
        assert End(chng, Row(s, nCol), j) == Row(s, nCol) + 1;
      }
    }
  }

  /** A sample of the current row with only the last count known. */
  lemma CurrentKnown(s: Sample, chng: seq<nat>, nCol: nat)
    requires Stream(chng, nCol) && Current(s, chng, nCol)
    ensures Known(Zeroed(s, nCol - 1), chng, nCol, nCol - 1) && Row(Zeroed(s, nCol - 1), nCol) == |chng| - 1 == Row(s, nCol)
  {
    hide Start, Distinct, Stream;
    LastColumn(chng, nCol, |chng| - 1);
  }

  /** A sample in whose group by the columns up to i no more rows come is before one in whose group they may. */
  lemma ClosedBefore(chng: seq<nat>, r: nat, q: nat, i: nat)
    requires r < |chng| && q < |chng| && !Open(chng, r, i) && Open(chng, q, i)
    ensures r < q
  {
  }

  // ---- one candidate ----

  lemma {:induction false} RoomPeriodic(a: seq<Sample>, mx: nat, iMin: nat)
    requires |a| >= mx ==> iMin < |a| && !a[iMin].isPSample
    ensures Periodic(Room(a, mx, iMin)) == Periodic(a)
  {
    if |a| >= mx {
      assert a == a[..iMin] + ([a[iMin]] + a[iMin + 1..]);
      PeriodicConcat(a[..iMin], [a[iMin]] + a[iMin + 1..]);
      PeriodicConcat([a[iMin]], a[iMin + 1..]);
      PeriodicConcat(a[..iMin], a[iMin + 1..]);
      PeriodicOne(a[iMin]);
    }
  }

  lemma {:induction false} SamePeriodic(a: seq<Sample>, b: seq<Sample>)
    requires |a| == |b| && forall k | 0 <= k < |a| :: a[k].isPSample == b[k].isPSample
    ensures Periodic(a) == Periodic(b)
  {
    if a != [] { SamePeriodic(a[..|a| - 1], b[..|b| - 1]); }
  }

  lemma InsertedPeriodic(nCol: nat, a: seq<Sample>, b: seq<Sample>, pNew: Sample, nEqZero: nat, mx: nat, iMin: nat)
    requires AllShape(a, nCol) && Inserted(nCol, a, b, pNew, nEqZero, mx, iMin) && (|a| >= mx ==> iMin < |a| && !a[iMin].isPSample)
    ensures Periodic(b) == Periodic(a) + if pNew.isPSample then 1 else 0
  {
    hide Zeroed, Better, AllShape, PeriodicPending, AnyPending, BestPending;
    RoomPeriodic(a, mx, iMin);
    var z := Zeroed(pNew, nEqZero);
    ZeroedKeeps(pNew, nEqZero);
    PeriodicConcat(Room(a, mx, iMin), [z]);
    PeriodicOne(z);
    if !pNew.isPSample && !PeriodicPending(a, pNew.iCol) && AnyPending(a, pNew.iCol) { SamePeriodic(a, b); }
  }

  /** The periodic samples are those of before, and the new one if it is periodic. */
  lemma InsertedRows(nCol: nat, a: seq<Sample>, b: seq<Sample>, pNew: Sample, nEqZero: nat, mx: nat, iMin: nat, r: nat)
    requires AllShape(a, nCol) && Inserted(nCol, a, b, pNew, nEqZero, mx, iMin) && (|a| >= mx ==> iMin < |a| && !a[iMin].isPSample)
    ensures HasPeriodic(b, nCol, r) <==> HasPeriodic(a, nCol, r) || (pNew.isPSample && r == Row(pNew, nCol))
  {
    hide Better, AllShape, PeriodicPending, AnyPending, BestPending;
    var z := Zeroed(pNew, nEqZero);
    if !pNew.isPSample && PeriodicPending(a, pNew.iCol) {
    } else if !pNew.isPSample && AnyPending(a, pNew.iCol) {
      forall k | 0 <= k < |a| ensures b[k].isPSample == a[k].isPSample && Row(b[k], nCol) == Row(a[k], nCol) {}
      SameRows(a, b, nCol, r);
    } else {
      RoomRows(a, mx, iMin, nCol, r);
      AppendRows(Room(a, mx, iMin), z, nCol, r);
    }
  }

  lemma SameRows(a: seq<Sample>, b: seq<Sample>, nCol: nat, r: nat)
    requires |a| == |b| && forall k | 0 <= k < |a| :: b[k].isPSample == a[k].isPSample && Row(b[k], nCol) == Row(a[k], nCol)
    ensures HasPeriodic(b, nCol, r) <==> HasPeriodic(a, nCol, r)
  {
    hide Row;
    if HasPeriodic(a, nCol, r) { var k :| 0 <= k < |a| && a[k].isPSample && Row(a[k], nCol) == r; assert b[k].isPSample; }
    if HasPeriodic(b, nCol, r) { var k :| 0 <= k < |b| && b[k].isPSample && Row(b[k], nCol) == r; assert a[k].isPSample; }
  }

  lemma AppendRows(a: seq<Sample>, s: Sample, nCol: nat, r: nat)
    ensures HasPeriodic(a + [s], nCol, r) <==> HasPeriodic(a, nCol, r) || (s.isPSample && Row(s, nCol) == r)
  {
    hide Row;
    if HasPeriodic(a, nCol, r) { var k :| 0 <= k < |a| && a[k].isPSample && Row(a[k], nCol) == r; assert (a + [s])[k].isPSample; }
    if s.isPSample { assert (a + [s])[|a|].isPSample; }
  }

  lemma RoomRows(a: seq<Sample>, mx: nat, iMin: nat, nCol: nat, r: nat)
    requires |a| >= mx ==> iMin < |a| && !a[iMin].isPSample
    ensures HasPeriodic(Room(a, mx, iMin), nCol, r) <==> HasPeriodic(a, nCol, r)
  {
    hide Row;
    var b := Room(a, mx, iMin);
    if HasPeriodic(a, nCol, r) {
      var k :| 0 <= k < |a| && a[k].isPSample && Row(a[k], nCol) == r;
      assert b[if |a| >= mx && k > iMin then k - 1 else k].isPSample;
    }
    if HasPeriodic(b, nCol, r) {
      var k :| 0 <= k < |b| && b[k].isPSample && Row(b[k], nCol) == r;
      assert a[if |a| >= mx && k >= iMin then k + 1 else k].isPSample;
    }
  }

  /** Whatever becomes of a new sample, each sample carries the rowid of its row. */
  lemma InsertedTraced(nCol: nat, a: seq<Sample>, b: seq<Sample>, pNew: Sample, nEqZero: nat, mx: nat, iMin: nat, seen: seq<Sample>)
    requires AllShape(a, nCol) && Inserted(nCol, a, b, pNew, nEqZero, mx, iMin)
    requires AllTraced(a, seen, nCol) && Traced(pNew, seen, nCol)
    ensures AllTraced(b, seen, nCol)
  {
    hide Better, AllShape, PeriodicPending, AnyPending, BestPending;
    if !pNew.isPSample && PeriodicPending(a, pNew.iCol) {
    } else if !pNew.isPSample && AnyPending(a, pNew.iCol) {
      var k :| 0 <= k < |a| && BestPending(a, nCol, k, pNew.iCol) && UpgradedAt(a, b, pNew, k);
      assert Traced(a[k], seen, nCol);
      assert Row(b[k], nCol) == Row(a[k], nCol);
    } else {
      var room := Room(a, mx, iMin);
      forall k | 0 <= k < |b| ensures Traced(b[k], seen, nCol) {
        if k < |room| {
          assert b[k] == a[if |a| >= mx && k >= iMin then k + 1 else k];
        } else {
          assert b[k] == Zeroed(pNew, nEqZero) && Row(b[k], nCol) == Row(pNew, nCol);
        }
      }
    }
  }

  lemma FilledTraced(a: seq<Sample>, b: seq<Sample>, nCol: nat, c: nat, eq: seq<nat>, seen: seq<Sample>)
    requires AllTraced(a, seen, nCol) && |a| == |b|
    requires forall k | 0 <= k < |a| :: |a[k].anEq| == |eq| && b[k] == Filled(a[k], c, eq)
    ensures AllTraced(b, seen, nCol)
  {
    forall k | 0 <= k < |b| ensures Traced(b[k], seen, nCol) {
      assert Traced(a[k], seen, nCol);
      assert Row(b[k], nCol) == Row(a[k], nCol);
    }
  }

  lemma TracedGrows(a: seq<Sample>, seen: seq<Sample>, cur: Sample, nCol: nat)
    requires AllTraced(a, seen, nCol)
    ensures AllTraced(a, seen + [cur], nCol)
  {
    hide Row;
    forall k | 0 <= k < |a| ensures Traced(a[k], seen + [cur], nCol) { assert Traced(a[k], seen, nCol); }
  }

  lemma ZeroedKeeps(s: Sample, z: nat)
    ensures Zeroed(s, z).isPSample == s.isPSample && Zeroed(s, z).iCol == s.iCol && |Zeroed(s, z).anEq| == |s.anEq|
    ensures forall j | 0 <= j < |s.anEq| :: Zeroed(s, z).anEq[j] == if j < z then 0 else s.anEq[j]
  {
  }

  /** Samples of rows in ascending order, each with what is known of it. */
  ghost predicate Kept(a: seq<Sample>, chng: seq<nat>, nCol: nat, lim: nat, chosen: nat) {
    AllKnown(a, chng, nCol, lim) && Ordered(a, nCol) && AllChosen(a, chosen)
  }

  lemma RoomKept(a: seq<Sample>, chng: seq<nat>, nCol: nat, lim: nat, chosen: nat, mx: nat, iMin: nat)
    requires Kept(a, chng, nCol, lim, chosen) && (|a| >= mx ==> iMin < |a|)
    ensures Kept(Room(a, mx, iMin), chng, nCol, lim, chosen)
    ensures forall k | 0 <= k < |Room(a, mx, iMin)| :: Room(a, mx, iMin)[k] in a
  {
    hide Known, Chosen;
    var b := Room(a, mx, iMin);
    forall k | 0 <= k < |b| ensures b[k] in a && b[k] == a[if |a| >= mx && k >= iMin then k + 1 else k] {}
  }

  lemma AppendKept(a: seq<Sample>, chng: seq<nat>, nCol: nat, lim: nat, chosen: nat, s: Sample)
    requires Kept(a, chng, nCol, lim, chosen) && Known(s, chng, nCol, lim) && Chosen(s, chosen)
    requires forall k | 0 <= k < |a| :: Row(a[k], nCol) < Row(s, nCol)
    ensures Kept(a + [s], chng, nCol, lim, chosen)
  {
    hide Known, Chosen;
  }

  lemma LessKept(a: seq<Sample>, chng: seq<nat>, nCol: nat, i: nat)
    requires Kept(a, chng, nCol, i + 1, i + 1)
    ensures Kept(a, chng, nCol, i, i)
  {
    hide Known;
    forall k | 0 <= k < |a| ensures Known(a[k], chng, nCol, i) { KnownLess(a[k], chng, nCol, i + 1, i); }
  }

  lemma UpgradeKept(a: seq<Sample>, chng: seq<nat>, nCol: nat, i: nat, k: nat, s: Sample)
    requires Kept(a, chng, nCol, i, i) && k < |a| && Known(s, chng, nCol, i) && Row(s, nCol) == Row(a[k], nCol) && Chosen(s, i)
    ensures Kept(a[k := s], chng, nCol, i, i)
  {
    hide Known, Chosen;
  }

  lemma UpgradeChosen(s: Sample, i: nat, eq: nat)
    requires i < |s.anEq| && eq > 0
    ensures Chosen(Upgraded(s, i, eq), i)
  {
  }

  /** The candidate for column i, whose group has ended. */
  function Candidate(s: Sample, chng: seq<nat>, i: nat): Sample
    requires |chng| > 0 && i < |s.anEq|
  {
    s.(anEq := s.anEq[i := |chng| - Start(chng, |chng| - 1, i)])
  }

  lemma CandidateChosen(s: Sample, chng: seq<nat>, nCol: nat, i: nat)
    requires Best(s, chng, nCol, i) && i < nCol
    ensures Chosen(Zeroed(Candidate(s, chng, i), i), nCol) && Chosen(Zeroed(Candidate(s, chng, i), i), i)
  {
  }

  /** Whatever becomes of the candidate for column i, the samples kept stay right. */
  lemma CandidateInserted(a: seq<Sample>, b: seq<Sample>, s: Sample, chng: seq<nat>, nCol: nat, i: nat, c: nat, mx: nat, iMin: nat)
    requires Stream(chng, nCol) && Kept(a, chng, nCol, i + 1, i + 1) && Best(s, chng, nCol, i) && c <= i < nCol - 1
    requires |chng| > 0 && AllShape(a, nCol) && Inserted(nCol, a, b, Candidate(s, chng, i), i, mx, iMin)
    ensures Kept(b, chng, nCol, i, i)
  {
    hide Start, Distinct, Open, Known, Chosen, Stream, Ordered, Zeroed, Better, BestPending;
    LessKept(a, chng, nCol, i);
    var pNew := Candidate(s, chng, i);
    if PeriodicPending(a, i) {
    } else if AnyPending(a, i) {
      var k :| 0 <= k < |a| && BestPending(a, nCol, k, i) && UpgradedAt(a, b, pNew, k);
      UpgradeKnown(a[k], chng, nCol, i);
      UpgradeChosen(a[k], i, |chng| - Start(chng, |chng| - 1, i));
      UpgradeKept(a, chng, nCol, i, k, Upgraded(a[k], i, |chng| - Start(chng, |chng| - 1, i)));
    } else {
      AppendCandidate(a, s, chng, nCol, i, c, mx, iMin);
    }
  }

  lemma AppendCandidate(a: seq<Sample>, s: Sample, chng: seq<nat>, nCol: nat, i: nat, c: nat, mx: nat, iMin: nat)
    requires Stream(chng, nCol) && Kept(a, chng, nCol, i + 1, i + 1) && Best(s, chng, nCol, i) && c <= i < nCol - 1
    requires |chng| > 0 && (|a| >= mx ==> iMin < |a|) && forall k | 0 <= k < |a| :: i < |a[k].anEq| && a[k].anEq[i] != 0
    ensures Kept(Room(a, mx, iMin) + [Zeroed(Candidate(s, chng, i), i)], chng, nCol, i, i)
  {
    hide Start, Distinct, Open, Chosen, Stream, Ordered, Zeroed;
    var z := Zeroed(Candidate(s, chng, i), i);
    BestKnown(s, chng, nCol, i, c);
    CandidateChosen(s, chng, nCol, i);
    forall k | 0 <= k < |a| ensures Row(a[k], nCol) < Row(z, nCol) {
      assert EqOk(chng, i + 1, Row(a[k], nCol), i, a[k].anEq[i]);
      ClosedBefore(chng, Row(a[k], nCol), Row(s, nCol), i);
    }
    LessKept(a, chng, nCol, i);
    RoomKept(a, chng, nCol, i, i, mx, iMin);
    AppendKept(Room(a, mx, iMin), chng, nCol, i, i, z);
  }

  // ---- the end of the current groups ----

  /** The unknown counts from column c on are those of the groups that end. */
  function Filled(s: Sample, c: nat, eq: seq<nat>): Sample
    requires |eq| == |s.anEq|
  {
    s.(anEq := seq(|s.anEq|, j requires 0 <= j < |s.anEq| => if j >= c && s.anEq[j] == 0 then eq[j] else s.anEq[j]))
  }

  /** Every count from column c on is known. */
  ghost predicate Full(s: Sample, c: nat) { forall j | c <= j < |s.anEq| :: s.anEq[j] != 0 }

  lemma FilledKnown(s: Sample, chng: seq<nat>, nCol: nat, c: nat, cur: Sample)
    requires Known(s, chng, nCol, c) && Current(cur, chng, nCol) && Chosen(s, c)
    ensures var f := Filled(s, c, cur.anEq);
      Known(f, chng, nCol, c) && Full(f, c) && Chosen(f, nCol) && Row(f, nCol) == Row(s, nCol) && f.isPSample == s.isPSample
  {
    hide Start, End, Distinct, Open;
    forall j | 0 <= j < nCol { OpenEnd(chng, Row(s, nCol), j); }
  }

  lemma FilledKept(a: seq<Sample>, b: seq<Sample>, chng: seq<nat>, nCol: nat, c: nat, cur: Sample)
    requires Kept(a, chng, nCol, c, c) && Current(cur, chng, nCol) && |a| == |b|
    requires forall k | 0 <= k < |a| :: |a[k].anEq| == nCol && b[k] == Filled(a[k], c, cur.anEq)
    ensures Kept(b, chng, nCol, c, nCol) && Periodic(b) == Periodic(a) && forall k | 0 <= k < |b| :: Full(b[k], c)
    ensures forall k | 0 <= k < |b| :: b[k].isPSample == a[k].isPSample && Row(b[k], nCol) == Row(a[k], nCol)
  {
    hide Known, Current, Chosen, Filled, Full;
    forall k | 0 <= k < |a|
      ensures Known(b[k], chng, nCol, c) && Full(b[k], c) && Chosen(b[k], nCol) && Row(b[k], nCol) == Row(a[k], nCol) && b[k].isPSample == a[k].isPSample
    {
      FilledKnown(a[k], chng, nCol, c, cur);
    }
    SamePeriodic(a, b);
  }

  lemma ChosenLess(a: seq<Sample>, chng: seq<nat>, nCol: nat, lim: nat, x: nat, y: nat)
    requires Kept(a, chng, nCol, lim, x) && y <= x
    ensures Kept(a, chng, nCol, lim, y)
  {
    hide Known;
  }

  // ---- the next row ----

  lemma KnownGrows(s: Sample, chng: seq<nat>, nCol: nat, c: nat)
    requires Known(s, chng, nCol, c) && Full(s, c) && c < nCol
    ensures Known(s, chng + [c], nCol, nCol - 1)
  {
    hide Start, End, Distinct, Open;
    var r := Row(s, nCol);
    forall j | 0 <= j < nCol
      ensures s.anLt[j] == Start(chng + [c], r, j) && s.anDLt[j] == Distinct(chng + [c], r, j)
      ensures EqOk(chng + [c], nCol - 1, r, j, s.anEq[j])
    {
      StartGrows(chng, c, r, j);
      EndGrows(chng, c, r, j);
    }
  }

  lemma KeptGrows(a: seq<Sample>, chng: seq<nat>, nCol: nat, c: nat)
    requires Kept(a, chng, nCol, c, nCol) && c < nCol && forall k | 0 <= k < |a| :: Full(a[k], c)
    ensures Kept(a, chng + [c], nCol, nCol - 1, nCol)
  {
    hide Known, Full;
    forall k | 0 <= k < |a| ensures Known(a[k], chng + [c], nCol, nCol - 1) { KnownGrows(a[k], chng, nCol, c); }
  }

  /** The counts of the current row after one more row. */
  function Advanced(s: Sample, c: nat, rowid: int, iHash: nat): Sample
    requires |s.anLt| == |s.anEq| && |s.anDLt| == |s.anEq|
  {
    Sample(seq(|s.anEq|, j requires 0 <= j < |s.anEq| => if j < c then s.anEq[j] + 1 else 1),
           seq(|s.anEq|, j requires 0 <= j < |s.anEq| => if j < c then s.anLt[j] else s.anLt[j] + s.anEq[j]),
           seq(|s.anEq|, j requires 0 <= j < |s.anEq| => if j < c then s.anDLt[j] else s.anDLt[j] + 1),
           rowid, s.isPSample, s.iCol, iHash)
  }

  lemma CurrentAdvances(s: Sample, chng: seq<nat>, nCol: nat, c: nat, rowid: int, iHash: nat)
    requires Current(s, chng, nCol)
    ensures Current(Advanced(s, c, rowid, iHash), chng + [c], nCol)
  {
    hide End, Open;
    var n, d := |chng|, chng + [c];
    forall j | 0 <= j < nCol
      ensures Start(d, n, j) == (if c <= j then n else Start(chng, n - 1, j))
      ensures Distinct(d, n, j) == Distinct(chng, n - 1, j) + if c <= j then 1 else 0
    {
      StartGrows(chng, c, n - 1, j);
      assert d[n] == c;
    }
  }

  lemma FirstCurrent(s: Sample, nCol: nat)
    requires Shape(s, nCol) && forall j | 0 <= j < nCol :: s.anEq[j] == 1 && s.anLt[j] == 0 && s.anDLt[j] == 0
    ensures Current(s, [0], nCol)
  {
  }

  /** The current row is as good a best sample as any. */
  lemma CurrentBest(s: Sample, chng: seq<nat>, nCol: nat, i: nat)
    requires Stream(chng, nCol) && Current(s, chng, nCol) && i < nCol - 1 && !s.isPSample && s.iCol == i
    ensures Best(s, chng, nCol, i)
  {
    hide Start, End, Distinct;
    LastColumn(chng, nCol, |chng| - 1);
  }

  /** A best sample that the next row does not beat, and whose group goes on, stays one. */
  lemma BestGrows(s: Sample, chng: seq<nat>, nCol: nat, i: nat, c: nat, cur: Sample)
    requires Stream(chng, nCol) && Best(s, chng, nCol, i) && i < c < nCol && i < nCol - 1
    requires Current(cur, chng + [c], nCol) && cur.iCol == i && !BetterFrom(nCol, i + 1, cur, s)
    ensures Best(s, chng + [c], nCol, i)
  {
    hide Start, End, Distinct, BetterFrom;
    var r, d := Row(s, nCol), chng + [c];
    forall j | 0 <= j < nCol ensures Start(d, r, j) == Start(chng, r, j) && Distinct(d, r, j) == Distinct(chng, r, j) {
      StartGrows(chng, c, r, j);
    }
    EndGrows(chng, c, r, i);
    if r + 1 == |chng| && c > i + 1 { NextIsBetter(s, chng, nCol, i, c, cur); }
    assert r + 1 < |chng| ==> d[r + 1] == chng[r + 1];
  }

  lemma {:induction false} SameBetter(nCol: nat, i: nat, a: Sample, b: Sample, c: Sample)
    requires Shape(a, nCol) && Shape(b, nCol) && Shape(c, nCol)
    requires (forall j | i <= j < nCol :: a.anEq[j] == b.anEq[j]) && a.iHash == b.iHash
    ensures BetterFrom(nCol, i, a, c) == BetterFrom(nCol, i, b, c) && BetterFrom(nCol, i, c, a) == BetterFrom(nCol, i, c, b)
    decreases nCol - i
  {
    if i < nCol { SameBetter(nCol, i + 1, a, b, c); }
  }

  /** The current row starts a group: it is the best of it. */
  lemma TopStarts(cur: Sample, seen: seq<Sample>, chng: seq<nat>, nCol: nat, i: nat, c: nat)
    requires |seen| == |chng| + 1 && c <= i && Shape(cur, nCol) && Shape(seen[|chng|], nCol)
    requires seen[|chng|].anEq == cur.anEq && seen[|chng|].iHash == cur.iHash
    ensures Top(cur, seen, chng + [c], nCol, i)
  {
    hide BetterFrom, Shape;
    forall r | 0 <= r < |seen| && Open(chng + [c], r, i) ensures Shape(seen[r], nCol) && !BetterFrom(nCol, i + 1, seen[r], cur) {
      if r < |chng| {
        EndGrows(chng, c, r, i);
        assert false;
      } else {
        SameBetter(nCol, i + 1, seen[r], cur, cur);
        BetterFromTransitive(nCol, i + 1, cur, cur, cur);
      }
    }
  }

  /** It joins a group: the better of it and the best so far is the best. */
  lemma TopGrows(s: Sample, cur: Sample, seen: seq<Sample>, chng: seq<nat>, nCol: nat, i: nat, c: nat)
    requires |seen| == |chng| + 1 && i < c && Shape(cur, nCol) && Shape(seen[|chng|], nCol)
    requires seen[|chng|].anEq == cur.anEq && seen[|chng|].iHash == cur.iHash && Top(s, seen[..|chng|], chng, nCol, i)
    ensures Top(if BetterFrom(nCol, i + 1, cur, s) then cur else s, seen, chng + [c], nCol, i)
  {
    hide BetterFrom, Shape;
    var t := if BetterFrom(nCol, i + 1, cur, s) then cur else s;
    forall r | 0 <= r < |seen| && Open(chng + [c], r, i) ensures Shape(seen[r], nCol) && !BetterFrom(nCol, i + 1, seen[r], t) {
      BetterFromTransitive(nCol, i + 1, cur, cur, cur);
      if r < |chng| {
        EndGrows(chng, c, r, i);
        assert seen[..|chng|][r] == seen[r];
        BetterFromTransitive(nCol, i + 1, seen[r], cur, s);
      } else {
        SameBetter(nCol, i + 1, seen[r], cur, t);
      }
    }
  }

  /** The size of the group itself does not matter. */
  lemma TopCandidate(s: Sample, seen: seq<Sample>, chng: seq<nat>, nCol: nat, i: nat)
    requires Top(s, seen, chng, nCol, i) && i < nCol && |chng| > 0
    ensures Shape(s, nCol) && Top(Candidate(s, chng, i), seen, chng, nCol, i)
  {
    hide BetterFrom;
    forall r | 0 <= r < |seen| && Open(chng, r, i) ensures !BetterFrom(nCol, i + 1, seen[r], Candidate(s, chng, i)) {
      SameBetter(nCol, i + 1, s, Candidate(s, chng, i), seen[r]);
    }
  }

  lemma SeenGrows(seen: seq<Sample>, cur: Sample, chng: seq<nat>, nCol: nat, c: nat)
    requires SeenOk(seen, chng, nCol) && Current(cur, chng + [c], nCol)
    ensures SeenOk(seen + [cur], chng + [c], nCol)
  {
    forall r, j | 0 <= r < |chng| && 0 <= j < nCol ensures Start(chng + [c], r, j) == Start(chng, r, j) { StartGrows(chng, c, r, j); }
  }

  // ---- groups that have a sample ----

  ghost predicate InGroup(s: Sample, chng: seq<nat>, nCol: nat, r: nat, i: nat)
    requires r < |chng|
  {
    Row(s, nCol) < |chng| && Start(chng, Row(s, nCol), i) == Start(chng, r, i)
  }

  /** There is a sample of a row that agrees with row r in the columns up to i. */
  ghost predicate Sampled(a: seq<Sample>, chng: seq<nat>, nCol: nat, r: nat, i: nat)
    requires r < |chng|
  {
    exists k :: 0 <= k < |a| && InGroup(a[k], chng, nCol, r, i)
  }

  ghost function Size(chng: seq<nat>, r: nat, i: nat): nat
    requires r < |chng|
  {
    End(chng, r, i) - Start(chng, r, i)
  }

  /** Sample k is in the group of n rows, and is periodic or kept for a group at least as big. */
  ghost predicate Keeps(s: Sample, chng: seq<nat>, nCol: nat, r: nat, i: nat)
    requires r < |chng|
  {
    InGroup(s, chng, nCol, r, i) && (s.isPSample || Heavy(s, Size(chng, r, i), i))
  }

  /** A group has a sample that stays, or there is no room left and all that are not periodic are kept for bigger groups. */
  ghost predicate Served(a: seq<Sample>, chng: seq<nat>, nCol: nat, r: nat, i: nat, mx: nat)
    requires r < |chng|
  {
    || (exists k :: 0 <= k < |a| && Keeps(a[k], chng, nCol, r, i))
    || (|a| >= mx && AllHeavy(a, Size(chng, r, i), i))
  }

  ghost predicate AllHeavy(a: seq<Sample>, n: nat, i: nat) { forall k | 0 <= k < |a| && !a[k].isPSample :: Heavy(a[k], n, i) }

  /** All groups are served that are by column c or one after it, or that have ended. */
  ghost predicate AllServed(a: seq<Sample>, chng: seq<nat>, nCol: nat, c: nat, mx: nat) {
    forall r, i | 0 <= r < |chng| && 0 <= i < nCol - 1 && (i >= c || !Open(chng, r, i)) :: Served(a, chng, nCol, r, i, mx)
  }

  /** Samples of the same rows, kept for the same groups. */
  ghost predicate SameKept(a: seq<Sample>, b: seq<Sample>, nCol: nat) {
    |a| == |b| && forall k | 0 <= k < |a| ::
      && Row(b[k], nCol) == Row(a[k], nCol) && b[k].isPSample == a[k].isPSample && b[k].iCol == a[k].iCol
      && (!a[k].isPSample && Pledged(a[k]) ==> b[k].iCol < |b[k].anEq| && b[k].anEq[b[k].iCol] == a[k].anEq[a[k].iCol])
  }

  lemma SameHeavy(s: Sample, t: Sample, n: nat, i: nat)
    requires Heavy(s, n, i) && n > 0 && t.iCol == s.iCol
    requires Pledged(s) ==> t.iCol < |t.anEq| && t.anEq[t.iCol] == s.anEq[s.iCol]
    ensures Heavy(t, n, i)
  {
  }

  lemma SameLightest(a: seq<Sample>, b: seq<Sample>, nCol: nat, k: nat)
    requires SameKept(a, b, nCol) && Lightest(a, k)
    ensures Lightest(b, k)
  {
    hide Heavy, Row;
    forall l | 0 <= l < |b| && !b[l].isPSample ensures Heavy(b[l], b[k].anEq[b[k].iCol], b[k].iCol) {
      SameHeavy(a[l], b[l], a[k].anEq[a[k].iCol], a[k].iCol);
    }
  }

  lemma SameServed(a: seq<Sample>, b: seq<Sample>, chng: seq<nat>, nCol: nat, r: nat, i: nat, mx: nat)
    requires r < |chng| && SameKept(a, b, nCol) && Served(a, chng, nCol, r, i, mx)
    ensures Served(b, chng, nCol, r, i, mx)
  {
    hide Heavy, Row, Start, End, Pledged;
    var n := Size(chng, r, i);
    if k :| 0 <= k < |a| && Keeps(a[k], chng, nCol, r, i) {
      if !a[k].isPSample { SameHeavy(a[k], b[k], n, i); }
      assert Keeps(b[k], chng, nCol, r, i);
    } else {
      forall k | 0 <= k < |b| && !b[k].isPSample ensures Heavy(b[k], n, i) { SameHeavy(a[k], b[k], n, i); }
    }
  }

  lemma AllSame(a: seq<Sample>, b: seq<Sample>, chng: seq<nat>, nCol: nat, c: nat, mx: nat)
    requires SameKept(a, b, nCol) && AllServed(a, chng, nCol, c, mx)
    ensures AllServed(b, chng, nCol, c, mx)
  {
    hide SameKept, Served, Open;
    forall r, i | 0 <= r < |chng| && 0 <= i < nCol - 1 && (i >= c || !Open(chng, r, i)) ensures Served(b, chng, nCol, r, i, mx) {
      SameServed(a, b, chng, nCol, r, i, mx);
    }
  }

  // ---- a new sample ----

  /** Whoever gives way is the lightest, and lighter than the sample that takes its place. */
  ghost predicate Yields(a: seq<Sample>, pNew: Sample, mx: nat, iMin: nat) {
    |a| == mx ==> Lightest(a, iMin) && (!pNew.isPSample ==> Heavy(pNew, a[iMin].anEq[a[iMin].iCol], a[iMin].iCol))
  }

  lemma HeavyTransitive(s: Sample, t: Sample, n: nat, i: nat)
    requires t.iCol < |t.anEq| && Heavy(s, t.anEq[t.iCol], t.iCol) && Heavy(t, n, i)
    ensures Heavy(s, n, i)
  {
  }

  lemma RoomServed(a: seq<Sample>, z: Sample, chng: seq<nat>, nCol: nat, r: nat, i: nat, mx: nat, iMin: nat)
    requires r < |chng| && |a| <= mx && Yields(a, z, mx, iMin) && Served(a, chng, nCol, r, i, mx)
    ensures Served(Room(a, mx, iMin) + [z], chng, nCol, r, i, mx)
  {
    hide Heavy, InGroup, Size;
    var b, n := Room(a, mx, iMin) + [z], Size(chng, r, i);
    if |a| < mx {
      var k :| 0 <= k < |a| && Keeps(a[k], chng, nCol, r, i);
      assert b[k] == a[k];
    } else if k :| 0 <= k < |a| && k != iMin && Keeps(a[k], chng, nCol, r, i) {
      assert b[if k < iMin then k else k - 1] == a[k];
    } else {
      assert Heavy(a[iMin], n, i);
      forall k | 0 <= k < |b| && !b[k].isPSample ensures Heavy(b[k], n, i) {
        HeavyTransitive(b[k], a[iMin], n, i);
      }
    }
  }

  /** The sample at k is now kept for a bigger group. */
  lemma UpgradeServed(a: seq<Sample>, k: nat, t: Sample, chng: seq<nat>, nCol: nat, r: nat, i: nat, mx: nat)
    requires r < |chng| && k < |a| && Served(a, chng, nCol, r, i, mx)
    requires Row(t, nCol) == Row(a[k], nCol) && t.isPSample == a[k].isPSample
    requires Pledged(a[k]) && Heavy(t, a[k].anEq[a[k].iCol], a[k].iCol)
    ensures Served(a[k := t], chng, nCol, r, i, mx)
  {
    hide Heavy, Row, Start, End;
    var n := Size(chng, r, i);
    if Heavy(a[k], n, i) { HeavyTransitive(t, a[k], n, i); }
    if l :| 0 <= l < |a| && Keeps(a[l], chng, nCol, r, i) {
      assert Keeps(a[k := t][l], chng, nCol, r, i);
    }
  }

  /** Fewer columns, bigger groups. */
  lemma {:induction false} GroupWithin(chng: seq<nat>, r: nat, i: nat, j: nat)
    requires r < |chng| && i <= j
    ensures Start(chng, r, i) <= Start(chng, r, j) && End(chng, r, j) <= End(chng, r, i)
  {
    StartWithin(chng, r, i, j);
    EndWithin(chng, r, i, j);
  }

  lemma {:induction false} StartWithin(chng: seq<nat>, r: nat, i: nat, j: nat)
    requires r < |chng| && i <= j
    ensures Start(chng, r, i) <= Start(chng, r, j)
  {
    if r > 0 { StartWithin(chng, r - 1, i, j); }
  }

  lemma {:induction false} EndWithin(chng: seq<nat>, r: nat, i: nat, j: nat)
    requires r < |chng| && i <= j
    ensures End(chng, r, j) <= End(chng, r, i)
    decreases |chng| - r
  {
    if r + 1 < |chng| { EndWithin(chng, r + 1, i, j); }
  }

  lemma UpgradeHeavy(s: Sample, chng: seq<nat>, nCol: nat, i: nat, n: nat)
    requires Known(s, chng, nCol, i + 1) && Chosen(s, i + 1) && !s.isPSample && i < nCol && s.anEq[i] == 0
    requires |chng| > 0 && n == |chng| - Start(chng, |chng| - 1, i)
    ensures Pledged(s) && Heavy(Upgraded(s, i, n), s.anEq[s.iCol], s.iCol)
  {
    hide Start, End, Distinct, Open;
    assert i < s.iCol;
    assert EqOk(chng, i + 1, Row(s, nCol), i, s.anEq[i]);
    assert EqOk(chng, i + 1, Row(s, nCol), s.iCol, s.anEq[s.iCol]);
    OpenEnd(chng, Row(s, nCol), i);
    GroupWithin(chng, Row(s, nCol), i, s.iCol);
  }

  lemma CandidateServed(a: seq<Sample>, b: seq<Sample>, s: Sample, chng: seq<nat>, nCol: nat, i: nat, mx: nat, iMin: nat, r: nat, j: nat)
    requires Kept(a, chng, nCol, i + 1, i + 1) && Best(s, chng, nCol, i) && i < nCol - 1 && |chng| > 0 && |a| <= mx
    requires AllShape(a, nCol) && Inserted(nCol, a, b, Candidate(s, chng, i), i, mx, iMin) && Yields(a, Candidate(s, chng, i), mx, iMin)
    requires r < |chng| && Served(a, chng, nCol, r, j, mx)
    ensures Served(b, chng, nCol, r, j, mx)
  {
    hide Better, AllShape, BestPending, Start, Distinct, End, Open, Known, Chosen, Served, Zeroed, Heavy, Upgraded;
    var pNew := Candidate(s, chng, i);
    if PeriodicPending(a, i) {
    } else if AnyPending(a, i) {
      var k :| 0 <= k < |a| && BestPending(a, nCol, k, i) && UpgradedAt(a, b, pNew, k);
      var n := |chng| - Start(chng, |chng| - 1, i);
      UpgradeKnown(a[k], chng, nCol, i);
      assert Chosen(a[k], i + 1);
      UpgradeHeavy(a[k], chng, nCol, i, n);
      assert Upgraded(a[k], i, n).isPSample == a[k].isPSample by { UpgradedKeeps(a[k], i, n); }
      UpgradeServed(a, k, Upgraded(a[k], i, n), chng, nCol, r, j, mx);
    } else {
      ZeroedYields(a, pNew, i, mx, iMin);
      RoomServed(a, Zeroed(pNew, i), chng, nCol, r, j, mx, iMin);
    }
  }

  lemma UpgradedKeeps(s: Sample, i: nat, n: nat)
    requires i < |s.anEq|
    ensures Upgraded(s, i, n).isPSample == s.isPSample
  {
  }

  lemma ZeroedYields(a: seq<Sample>, pNew: Sample, z: nat, mx: nat, iMin: nat)
    requires Yields(a, pNew, mx, iMin) && (pNew.isPSample || z <= pNew.iCol)
    ensures Yields(a, Zeroed(pNew, z), mx, iMin)
  {
    hide Lightest;
  }

  /** The group of the candidate itself. */
  lemma GroupServed(a: seq<Sample>, b: seq<Sample>, s: Sample, chng: seq<nat>, nCol: nat, i: nat, mx: nat, iMin: nat, r: nat)
    requires Kept(a, chng, nCol, i + 1, i + 1) && Best(s, chng, nCol, i) && i < nCol - 1 && |chng| > 0
    requires AllShape(a, nCol) && Inserted(nCol, a, b, Candidate(s, chng, i), i, mx, iMin) && r < |chng| && Open(chng, r, i)
    ensures Served(b, chng, nCol, r, i, mx)
  {
    hide Better, AllShape, BestPending, Start, Distinct, End, Open;
    var pNew := Candidate(s, chng, i);
    OpenEnd(chng, r, i);
    if PeriodicPending(a, i) {
      var k :| 0 <= k < |a| && a[k].isPSample && Pending(a[k], i);
      PendingIn(a[k], chng, nCol, i, r);
      assert Keeps(b[k], chng, nCol, r, i);
    } else if AnyPending(a, i) {
      var k :| 0 <= k < |a| && BestPending(a, nCol, k, i) && UpgradedAt(a, b, pNew, k);
      PendingIn(a[k], chng, nCol, i, r);
      assert Keeps(b[k], chng, nCol, r, i);
    } else {
      OpenEnd(chng, Row(s, nCol), i);
      var z := b[|b| - 1];
      assert z == Zeroed(pNew, i) && Row(z, nCol) == Row(s, nCol);
      assert Keeps(z, chng, nCol, r, i);
    }
  }

  lemma PendingIn(s: Sample, chng: seq<nat>, nCol: nat, i: nat, r: nat)
    requires Known(s, chng, nCol, i + 1) && i < nCol && s.anEq[i] == 0 && r < |chng| && Open(chng, r, i)
    ensures InGroup(s, chng, nCol, r, i)
  {
    hide Start, End, Distinct, Open;
    assert EqOk(chng, i + 1, Row(s, nCol), i, s.anEq[i]);
    OpenEnd(chng, Row(s, nCol), i);
    OpenEnd(chng, r, i);
  }

  /** The candidate was offered and is in, or it is no better than the lightest sample. */
  lemma OfferServed(a: seq<Sample>, b: seq<Sample>, s: Sample, chng: seq<nat>, nCol: nat, i: nat, mx: nat, iMin: nat)
    requires Kept(a, chng, nCol, i + 1, i + 1) && Best(s, chng, nCol, i) && i < nCol - 1 && |chng| > 0 && |a| <= mx
    requires AllShape(a, nCol) && Shape(Candidate(s, chng, i), nCol) && Offered(nCol, a, b, Candidate(s, chng, i), i, mx, iMin)
    requires (|a| >= mx ==> Lightest(a, iMin)) && AllServed(a, chng, nCol, i + 1, mx)
    ensures AllServed(b, chng, nCol, i, mx)
  {
    hide Kept, Inserted, AllShape, Start, Open, Served, Lightest, Better, Heavy, Worst, End;
    var pNew := Candidate(s, chng, i);
    if |a| >= mx { ShapedHeavy(a, nCol, iMin, pNew); }
    forall r, j | 0 <= r < |chng| && 0 <= j < nCol - 1 && (j >= i || !Open(chng, r, j)) ensures Served(b, chng, nCol, r, j, mx) {
      if |a| >= mx && !Better(nCol, pNew, a[iMin]) {
        if j == i && Open(chng, r, i) { Unserved(a, chng, nCol, r, i, mx, iMin, |chng| - Start(chng, |chng| - 1, i)); }
      } else if j == i && Open(chng, r, i) {
        GroupServed(a, b, s, chng, nCol, i, mx, iMin, r);
      } else {
        CandidateServed(a, b, s, chng, nCol, i, mx, iMin, r, j);
      }
    }
  }

  lemma ShapedHeavy(a: seq<Sample>, nCol: nat, iMin: nat, pNew: Sample)
    requires AllShape(a, nCol) && Lightest(a, iMin) && Shape(pNew, nCol)
    ensures iMin < |a| && Shape(a[iMin], nCol) && a[iMin].iCol < |a[iMin].anEq| && pNew.iCol < |pNew.anEq|
    ensures if Better(nCol, pNew, a[iMin]) then Heavy(pNew, a[iMin].anEq[a[iMin].iCol], a[iMin].iCol)
            else Heavy(a[iMin], pNew.anEq[pNew.iCol], pNew.iCol)
  {
    hide Better, Heavy;
    BetterHeavy(nCol, pNew, a[iMin]);
  }

  lemma Unserved(a: seq<Sample>, chng: seq<nat>, nCol: nat, r: nat, i: nat, mx: nat, iMin: nat, n: nat)
    requires |a| >= mx && Lightest(a, iMin) && Heavy(a[iMin], n, i) && r < |chng| && Open(chng, r, i) && n == |chng| - Start(chng, |chng| - 1, i)
    ensures Served(a, chng, nCol, r, i, mx)
  {
    hide Heavy, Start, End, Open;
    OpenEnd(chng, r, i);
    forall k | 0 <= k < |a| && !a[k].isPSample ensures Heavy(a[k], n, i) { HeavyTransitive(a[k], a[iMin], n, i); }
  }

  /** A periodic sample takes the place of the lightest. */
  lemma PeriodicServed(a: seq<Sample>, b: seq<Sample>, s: Sample, chng: seq<nat>, nCol: nat, c: nat, mx: nat, iMin: nat, z: nat)
    requires AllShape(a, nCol) && Inserted(nCol, a, b, s, z, mx, iMin) && s.isPSample && |a| <= mx
    requires (|a| >= mx ==> Lightest(a, iMin)) && AllServed(a, chng, nCol, c, mx)
    ensures AllServed(b, chng, nCol, c, mx)
  {
    hide AllShape, Served, Open, Lightest, Zeroed, PeriodicPending, AnyPending;
    ZeroedKeeps(s, z);
    forall r, i | 0 <= r < |chng| && 0 <= i < nCol - 1 && (i >= c || !Open(chng, r, i)) ensures Served(b, chng, nCol, r, i, mx) {
      RoomServed(a, Zeroed(s, z), chng, nCol, r, i, mx, iMin);
    }
  }

  /** The next row ends the groups by its column and those after it. */
  lemma ServedGrows(a: seq<Sample>, chng: seq<nat>, nCol: nat, c: nat, mx: nat)
    requires nCol > 0 && AllServed(a, chng, nCol, c, mx)
    ensures AllServed(a, chng + [c], nCol, nCol - 1, mx)
  {
    hide Start, End, Open, Row, Heavy;
    var d := chng + [c];
    forall r, i | 0 <= r < |d| && 0 <= i < nCol - 1 && !Open(d, r, i) ensures Served(a, d, nCol, r, i, mx) {
      if r == |chng| { LastOpen(d, r, i); }
      EndGrows(chng, c, r, i);
      StartGrows(chng, c, r, i);
      if k :| 0 <= k < |a| && Keeps(a[k], chng, nCol, r, i) {
        StartGrows(chng, c, Row(a[k], nCol), i);
        assert Keeps(a[k], d, nCol, r, i);
      }
    }
  }

  lemma LastOpen(chng: seq<nat>, r: nat, i: nat)
    requires r + 1 == |chng|
    ensures Open(chng, r, i)
  {
  }

  /** When all groups have ended: a group without a sample is no bigger than any that a sample is kept for. */
  lemma ServedSampled(a: seq<Sample>, chng: seq<nat>, nCol: nat, r: nat, i: nat, mx: nat)
    requires r < |chng| && Served(a, chng, nCol, r, i, mx)
    ensures Sampled(a, chng, nCol, r, i) || (|a| >= mx && AllHeavy(a, Size(chng, r, i), i))
  {
    hide InGroup, Heavy, Size;
  }

  /** The row after a best sample that agrees with it in one more column beats it. */
  lemma NextIsBetter(s: Sample, chng: seq<nat>, nCol: nat, i: nat, c: nat, cur: Sample)
    requires Stream(chng, nCol) && Best(s, chng, nCol, i) && i + 1 < c < nCol && Row(s, nCol) + 1 == |chng|
    requires Current(cur, chng + [c], nCol)
    ensures BetterFrom(nCol, i + 1, cur, s)
  {
    var d := chng + [c];
    StartGrows(chng, c, |chng| - 1, i + 1);
    assert d[|chng|] == c;
    assert Start(d, |chng|, i + 1) == Start(d, |chng| - 1, i + 1);
  }
}
