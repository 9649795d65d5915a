/** stat_init, stat_push and the flush before stat_get. */
module Stat4Accums {
  import opened Facts
  import opened StatRows
  import opened Stat4

  const SQLITE_STAT4_SAMPLES: nat := 24
  const U32: nat := 0x1_0000_0000

  function Zeros(n: nat): seq<nat> { seq(n, _ => 0) }

  /** Exclusive or of the low 32 bits. */
  function Xor(x: nat, y: nat): nat { ((x % U32) as bv32 ^ (y % U32) as bv32) as nat }

  class Stat4Accum {
    const nCol: nat
    const mxSample: nat
    const nPSample: nat
    /** The number of rows there will be at most. */
    ghost const nEst: nat
    var nRow: nat
    var current: Sample
    var iPrn: nat
    var iMin: nat
    var nSample: nat
    /** The best sample for each column, and the samples kept. */
    const aBest: array<Sample>
    const a: array<Sample>
    /** The left-most column to differ, for each row so far. */
    ghost var chng: seq<nat>
    /** The current row as it was at each row so far. */
    ghost var seen: seq<Sample>

    ghost function Samples(): seq<Sample>
      reads this, a
      requires nSample <= a.Length
    {
      a[..nSample]
    }

    ghost predicate Frame()
      reads this, aBest, a
    {
      && 0 < nCol && a != aBest && mxSample == a.Length == SQLITE_STAT4_SAMPLES && aBest.Length == nCol
      && nPSample == nEst / (SQLITE_STAT4_SAMPLES / 3 + 1) + 1 && nRow <= nEst
      && nSample <= mxSample && nRow == |chng| && Stream(chng, nCol) && SeenOk(seen, chng, nCol)
      && (nSample >= mxSample ==> iMin < nSample && !a[iMin].isPSample && Lightest(Samples(), iMin)) && AllTraced(Samples(), seen, nCol)
      && Shape(current, nCol) && !current.isPSample && (forall i | 0 <= i < nCol :: Shape(aBest[i], nCol))
    }

    ghost predicate Base()
      reads this, aBest, a
    {
      && Frame()
      && (nRow > 0 ==> Current(current, chng, nCol) && SeenCurrent(seen, chng, current) && Bests(aBest[..], seen, chng, nCol))
      && (nRow == 0 ==> nSample == 0 && current.anLt == Zeros(nCol) && current.anDLt == Zeros(nCol))
    }

    ghost predicate Valid()
      reads this, aBest, a
    {
      && Base() && Kept(Samples(), chng, nCol, nCol - 1, nCol)
      && Periodic(Samples()) <= nRow / nPSample && PeriodicOk(Samples(), nCol, nRow, nPSample)
      && AllServed(Samples(), chng, nCol, nCol - 1, mxSample)
    }

    /** stat_init(N, K, C): C is the number of rows there will be. */
    constructor (n: nat, rows: nat)
      requires n > 0
      ensures Valid() && nRow == 0 && nCol == n && nEst == rows && fresh(a) && fresh(aBest)
      ensures iPrn == Xor(0x689e962d * n, 0xd0944565 * rows) && nPSample == rows / (SQLITE_STAT4_SAMPLES / 3 + 1) + 1
    {
      var blank := Sample(Zeros(n), Zeros(n), Zeros(n), 0, false, 0, 0);
      nCol, mxSample := n, SQLITE_STAT4_SAMPLES;
      nPSample := rows / (SQLITE_STAT4_SAMPLES / 3 + 1) + 1;
      nEst := rows;
      nRow, current, iPrn, iMin, nSample := 0, blank, Xor(0x689e962d * n, 0xd0944565 * rows), 0, 0;
      aBest := new Sample[n](i requires 0 <= i < n => blank.(iCol := i));
      a := new Sample[SQLITE_STAT4_SAMPLES](_ => blank);
      chng, seen := [], [];
    }

    /** The sample that no other sample kept for a column is worse than. */
    method FindNewMin()
      requires 0 < nCol && mxSample == a.Length && nSample <= a.Length && AllShape(Samples(), nCol)
      requires Periodic(Samples()) < mxSample
      modifies this`iMin
      ensures nSample >= mxSample ==> iMin < nSample && !a[iMin].isPSample && Worst(Samples(), nCol, iMin)
    {
      hide Better;
      if nSample >= mxSample {
        var m := -1;
        for i := 0 to mxSample
          invariant -1 <= m < i && (m == -1 ==> forall k | 0 <= k < i :: a[k].isPSample)
          invariant m >= 0 ==> !a[m].isPSample && forall k | 0 <= k < i && !a[k].isPSample :: !Better(nCol, a[m], a[k])
        {
          if !a[i].isPSample {
            ShapeAt(Samples(), nCol, i);
            var b := false;
            if m >= 0 { ShapeAt(Samples(), nCol, m); b := SampleIsBetter(nCol, a[m], a[i]); }
            if m < 0 || b {
              ghost var was := m;
              m := i;
              BetterThanAll(Samples(), nCol, was, m);
            }
          }
        }
        if m < 0 { AllPeriodic(Samples()); }
        iMin := m;
      }
    }

    /** Makes room for a sample, if need be by the one at iMin. */
    method MakeRoom()
      requires mxSample == a.Length && nSample <= mxSample && (nSample >= mxSample ==> iMin < nSample) && mxSample > 0
      modifies this`nSample, a
      ensures nSample < mxSample && Samples() == Room(old(Samples()), mxSample, iMin)
    {
      if nSample >= mxSample {
        var k := iMin;
        while k + 1 < nSample
          invariant iMin <= k < nSample == old(nSample)
          invariant forall t | 0 <= t < nSample :: a[t] == if iMin <= t < k then old(a[t + 1]) else old(a[t])
          decreases nSample - k
        {
          a[k] := a[k + 1];
          k := k + 1;
        }
        nSample := mxSample - 1;
        assert Samples() == Room(old(Samples()), mxSample, iMin);
      }
    }

    /** sampleInsert */
    method SampleInsert(pNew: Sample, nEqZero: nat)
      requires 0 < nCol && mxSample == a.Length && mxSample > 0 && nSample <= mxSample && AllShape(Samples(), nCol) && Shape(pNew, nCol)
      requires nSample >= mxSample ==> iMin < nSample && !a[iMin].isPSample
      requires Periodic(Samples()) + (if pNew.isPSample then 1 else 0) < mxSample
      modifies this`iMin, this`nSample, a
      ensures nSample <= mxSample && AllShape(Samples(), nCol)
      ensures nSample >= mxSample ==> (Samples() == old(Samples()) && iMin == old(iMin)) || (iMin < nSample && Worst(Samples(), nCol, iMin))
      ensures nSample >= mxSample ==> iMin < nSample && !a[iMin].isPSample
      ensures Inserted(nCol, old(Samples()), Samples(), pNew, nEqZero, mxSample, old(iMin))
    {
      hide Better, Zeroed, Worst, Periodic, PeriodicPending, AnyPending;
      ghost var was, wasMin := Samples(), iMin;
      if !pNew.isPSample {
        var stop, k := FindUpgrade(pNew);
        if stop { return; }
        if k >= 0 {
          a[k] := Upgraded(a[k], pNew.iCol, pNew.anEq[pNew.iCol]);
          assert BestPending(was, nCol, k, pNew.iCol) && UpgradedAt(was, Samples(), pNew, k);
          InsertedPeriodic(nCol, was, Samples(), pNew, nEqZero, mxSample, wasMin);
          InsertedShape(was, Samples(), nCol, pNew, nEqZero, mxSample, wasMin);
          FindNewMin();
          return;
        }
      }
      MakeRoom();
      ghost var room := Samples();
      a[nSample] := Zeroed(pNew, nEqZero);
      nSample := nSample + 1;
      assert Samples() == room + [Zeroed(pNew, nEqZero)];
      InsertedPeriodic(nCol, was, Samples(), pNew, nEqZero, mxSample, wasMin);
      InsertedShape(was, Samples(), nCol, pNew, nEqZero, mxSample, wasMin);
      FindNewMin();
    }

    /** The sample to upgrade, if one shares the prefix of the new sample; a periodic one makes the new one needless. */
    method FindUpgrade(pNew: Sample) returns (stop: bool, pUpgrade: int)
      requires 0 < nCol && nSample <= a.Length && AllShape(Samples(), nCol) && Shape(pNew, nCol)
      ensures stop <==> PeriodicPending(Samples(), pNew.iCol)
      ensures -1 <= pUpgrade < nSample && (!stop ==> (pUpgrade >= 0 <==> AnyPending(Samples(), pNew.iCol)))
      ensures !stop && pUpgrade >= 0 ==> !a[pUpgrade].isPSample && BestPending(Samples(), nCol, pUpgrade, pNew.iCol)
    {
      hide Better;
      stop, pUpgrade := false, -1;
      var i: int := nSample - 1;
      while i >= 0
        invariant -1 <= i < nSample && -1 <= pUpgrade < nSample && !stop
        invariant pUpgrade >= 0 ==> i < pUpgrade && Pending(a[pUpgrade], pNew.iCol)
        invariant forall k | i < k < nSample && Pending(a[k], pNew.iCol) :: !a[k].isPSample && pUpgrade >= 0 && !Better(nCol, a[k], a[pUpgrade])
      {
        ShapeAt(Samples(), nCol, i);
        if a[i].anEq[pNew.iCol] == 0 {
          if a[i].isPSample { assert Pending(Samples()[i], pNew.iCol); return true, pUpgrade; }
          var b := pUpgrade < 0;
          if !b { ShapeAt(Samples(), nCol, pUpgrade); b := SampleIsBetter(nCol, a[i], a[pUpgrade]); }
          if b {
            BetterPending(Samples(), nCol, pUpgrade, i, pNew.iCol);
            pUpgrade := i;
          }
        }
        i := i - 1;
      }
      if pUpgrade >= 0 { assert Pending(Samples()[pUpgrade], pNew.iCol); }
    }

    /** The best sample for column i is offered, now that its group has ended. */
    method Offer(i: nat, ghost c: nat)
      requires Base() && nRow > 0 && c <= i < nCol - 1 && Kept(Samples(), chng, nCol, i + 1, i + 1) && Periodic(Samples()) < mxSample
      requires PeriodicOk(Samples(), nCol, nRow, nPSample) && AllServed(Samples(), chng, nCol, i + 1, mxSample)
      modifies this`iMin, this`nSample, a, aBest
      ensures Base() && Kept(Samples(), chng, nCol, i, i) && Periodic(Samples()) == old(Periodic(Samples()))
      ensures PeriodicOk(Samples(), nCol, nRow, nPSample) && AllServed(Samples(), chng, nCol, i, mxSample)
      ensures AllShape(old(Samples()), nCol) && Shape(Candidate(old(aBest[i]), chng, i), nCol)
      ensures Offered(nCol, old(Samples()), Samples(), Candidate(old(aBest[i]), chng, i), i, mxSample, old(iMin))
    {
      hide Known, Better, Inserted, Chosen, Ordered, Stream, Open, Start, End, Distinct, Best, Top, SeenOk, PeriodicOk, AllServed, Lightest, Kept, Worst, AllTraced, Traced;
      ghost var was, wasMin, s := Samples(), iMin, aBest[i];
      KeptShape(was, chng, nCol, i + 1, i + 1);
      CurrentCount(current, chng, nCol, i);
      var pBest := aBest[i].(anEq := aBest[i].anEq[i := current.anEq[i]]);
      assert pBest == Candidate(s, chng, i);
      BestsStill(aBest[..], seen, chng, nCol, i);
      aBest[i] := pBest;
      var better := nSample < mxSample;
      if !better { ShapeAt(Samples(), nCol, iMin); better := SampleIsBetter(nCol, pBest, a[iMin]); }
      if better {
        SampleInsert(pBest, i);
        CandidateInserted(was, Samples(), s, chng, nCol, i, c, mxSample, wasMin);
        InsertedPeriodic(nCol, was, Samples(), pBest, i, mxSample, wasMin);
        InsertedTraced(nCol, was, Samples(), pBest, i, mxSample, wasMin, seen);
        SamePeriodicOk(nCol, was, Samples(), pBest, i, mxSample, wasMin, nRow, nPSample);
        if nSample >= mxSample { StillLightest(was, Samples(), nCol, wasMin, iMin, chng, i, i); }
      } else {
        LessKept(was, chng, nCol, i);
      }
      OfferServed(was, Samples(), s, chng, nCol, i, mxSample, wasMin);
    }

    /** The counts of the samples for the groups that end are filled in. */
    method Fill(c: nat)
      requires Base() && nRow > 0 && c < nCol && Kept(Samples(), chng, nCol, c, c)
      modifies a
      ensures Base() && Kept(Samples(), chng, nCol, c, nCol) && Periodic(Samples()) == old(Periodic(Samples()))
      ensures SameKept(old(Samples()), Samples(), nCol) && forall k | 0 <= k < nSample :: Full(a[k], c)
    {
      hide Known, Better, Chosen, Ordered, Stream, Open, Start, End, Distinct, Full, Best, Bests, SeenOk, SeenCurrent, AllTraced, SameKept, Lightest, Filled, Kept, Current;
      ghost var was := Samples();
      KeptShape(was, chng, nCol, c, c);
      var i := nSample;
      while i > 0
        invariant 0 <= i <= nSample
        invariant forall k | 0 <= k < nSample :: a[k] == if k < i then was[k] else Filled(was[k], c, current.anEq)
      {
        i := i - 1;
        ShapeAt(was, nCol, i);
        a[i] := FillCounts(a[i], c, current.anEq);
      }
      FilledKept(was, Samples(), chng, nCol, c, current);
      FilledTraced(was, Samples(), nCol, c, current.anEq, seen);
      FilledSame(was, Samples(), nCol, c, current.anEq);
      if nSample >= mxSample { SameLightest(was, Samples(), nCol, iMin); }
    }

    /** samplePushPrevious: the groups by columns from iChng on end with the current row. */
    method SamplePushPrevious(iChng: nat)
      requires Base() && nRow > 0 && iChng < nCol && Kept(Samples(), chng, nCol, nCol - 1, nCol) && Periodic(Samples()) < mxSample
      requires PeriodicOk(Samples(), nCol, nRow, nPSample) && AllServed(Samples(), chng, nCol, nCol - 1, mxSample)
      modifies this`iMin, this`nSample, a, aBest
      ensures Base() && Kept(Samples(), chng, nCol, iChng, nCol) && Periodic(Samples()) == old(Periodic(Samples()))
      ensures PeriodicOk(Samples(), nCol, nRow, nPSample) && AllServed(Samples(), chng, nCol, iChng, mxSample)
      ensures forall k | 0 <= k < nSample :: Full(a[k], iChng)
    {
      hide Kept, Full, PeriodicOk, AllServed, Lightest, Bests, SeenOk, SeenCurrent, Offered, Stream, Current, Row, AllTraced;
      ChosenLess(Samples(), chng, nCol, nCol - 1, nCol, nCol - 1);
      var i: int := nCol - 2;
      while i >= iChng
        invariant iChng - 1 <= i < nCol - 1 && Base() && Kept(Samples(), chng, nCol, i + 1, i + 1)
        invariant Periodic(Samples()) == old(Periodic(Samples())) && PeriodicOk(Samples(), nCol, nRow, nPSample)
        invariant AllServed(Samples(), chng, nCol, i + 1, mxSample)
      {
        Offer(i, iChng);
        i := i - 1;
      }
      if i + 1 > iChng { assert false; }
      ghost var was := Samples();
      Fill(iChng);
      SamePeriodicRows(was, Samples(), nCol, nRow, nPSample);
      AllSame(was, Samples(), chng, nCol, iChng, mxSample);
    }

    /** Each column's best sample gives way to the current row, if its group is new or the row is better. */
    method UpdateBest(iChng: nat)
      requires 0 < nCol && aBest.Length == nCol && Stream(chng, nCol) && |chng| > 0 && Current(current, chng, nCol) && !current.isPSample
      requires iChng == chng[|chng| - 1] && (|chng| == 1 ==> iChng == 0) && SeenCurrent(seen, chng, current)
      requires forall i | 0 <= i < nCol :: Shape(aBest[i], nCol)
      requires |chng| > 1 ==> Bests(aBest[..], seen[..|chng| - 1], chng[..|chng| - 1], nCol)
      modifies aBest, this`current
      ensures forall i | 0 <= i < nCol :: Shape(aBest[i], nCol)
      ensures Bests(aBest[..], seen, chng, nCol)
      ensures Current(current, chng, nCol) && Shape(current, nCol) && !current.isPSample && SeenCurrent(seen, chng, current)
    {
      hide Stream, Best, Top, BetterFrom, Current, Traced;
      ghost var prev, was := chng[..|chng| - 1], aBest[..];
      assert chng == prev + [iChng];
      StreamPrefix(chng, nCol);
      CurrentShape(current, chng, nCol);
      for i := 0 to nCol - 1
        invariant Current(current, chng, nCol) && !current.isPSample && Shape(current, nCol) && SeenCurrent(seen, chng, current)
        invariant forall t | 0 <= t < nCol :: Shape(aBest[t], nCol)
        invariant forall t | i <= t < nCol :: aBest[t] == was[t]
        invariant forall t | 0 <= t < i ::
          Best(aBest[t], chng, nCol, t) && Top(aBest[t], seen, chng, nCol, t) && Traced(aBest[t], seen, nCol)
      {
        Recolumn(current, chng, nCol, i);
        current := current.(iCol := i);
        var b := i >= iChng;
        if !b { b := SampleIsBetterPost(nCol, current, aBest[i]); }
        if i >= iChng {
          TopStarts(current, seen, prev, nCol, i, iChng);
        } else {
          assert aBest[..][i] == was[i];
          TopGrows(aBest[i], current, seen, prev, nCol, i, iChng);
        }
        if b {
          aBest[i] := current;
          CurrentBest(current, chng, nCol, i);
          CurrentTraced(current, seen, chng, nCol);
        } else {
          BestGrows(aBest[i], prev, nCol, i, iChng, current);
          TracedStill(aBest[i], seen, nCol);
        }
      }
    }

    /** The counts of the current row are brought up to date. */
    method NextRow(iChng: nat, rowid: int)
      requires Base() && iChng < nCol && (nRow == 0 ==> iChng == 0 && current.anEq == Ones(nCol)) && nRow < nEst
      requires Kept(Samples(), chng, nCol, iChng, nCol) && forall k | 0 <= k < nSample :: Full(a[k], iChng)
      modifies this`nRow, this`current, this`iPrn, this`chng, this`seen
      ensures Frame() && chng == old(chng) + [iChng] && seen == old(seen) + [current] && Current(current, chng, nCol)
      ensures SeenCurrent(seen, chng, current)
      ensures current.rowid == rowid && current.iHash == iPrn == (old(iPrn) * 1103515245 + 12345) % U32
      ensures Kept(Samples(), chng, nCol, nCol - 1, nCol) && forall k | 0 <= k < nSample :: Row(a[k], nCol) < nRow - 1
    {
      hide Kept, Open, Start, End, Distinct, Full, Bests, Current, SeenOk, SeenCurrent, AllTraced;
      StreamGrows(chng, nCol, iChng);
      KeptRows(Samples(), chng, nCol, iChng, nCol);
      KeptGrows(Samples(), chng, nCol, iChng);
      iPrn := (iPrn * 1103515245 + 12345) % U32;
      if nRow == 0 {
        current := current.(rowid := rowid, iHash := iPrn);
        FirstCurrent(current, nCol);
        assert chng + [iChng] == [0];
      } else {
        CurrentAdvances(current, chng, nCol, iChng, rowid, iPrn);
        current := Advance(current, nCol, iChng, rowid, iPrn);
      }
      SeenGrows(seen, current, chng, nCol, iChng);
      TracedGrows(Samples(), seen, current, nCol);
      SeenLength(seen, chng, nCol);
      SeenNow(seen, chng, iChng, current);
      chng, seen := chng + [iChng], seen + [current];
      nRow := nRow + 1;
    }

    /** A periodic sample of the current row; only its last count is known yet. */
    method PushPeriodic()
      requires Frame() && nRow > 0 && Current(current, chng, nCol) && Periodic(Samples()) + 1 < mxSample && SeenCurrent(seen, chng, current)
      requires Kept(Samples(), chng, nCol, nCol - 1, nCol) && forall k | 0 <= k < nSample :: Row(a[k], nCol) < nRow - 1
      requires Due(nRow - 1, nPSample) && PeriodicOk(Samples(), nCol, nRow - 1, nPSample)
      requires AllServed(Samples(), chng, nCol, nCol - 1, mxSample)
      modifies this`current, this`iMin, this`nSample, a
      ensures Frame() && Current(current, chng, nCol) && SeenCurrent(seen, chng, current)
      ensures Kept(Samples(), chng, nCol, nCol - 1, nCol) && Periodic(Samples()) <= old(Periodic(Samples())) + 1
      ensures PeriodicOk(Samples(), nCol, nRow, nPSample) && AllServed(Samples(), chng, nCol, nCol - 1, mxSample)
    {
      hide Kept, Open, Start, End, Distinct, Stream, Bests, SeenOk, Zeroed, Inserted, Periodic, Row, PeriodicOk, AllServed, Lightest, Due, Worst, AllTraced, Traced;
      ghost var was, wasMin := Samples(), iMin;
      KeptShape(was, chng, nCol, nCol - 1, nCol);
      current := current.(isPSample := true, iCol := 0);
      RowNumber(current, chng, nCol);
      CurrentTraced(current, seen, chng, nCol);
      SampleInsert(current, nCol - 1);
      InsertedTraced(nCol, was, Samples(), current, nCol - 1, mxSample, wasMin, seen);
      InsertedPeriodic(nCol, was, Samples(), current, nCol - 1, mxSample, wasMin);
      PeriodicInserted(was, Samples(), current, chng, nCol, mxSample, wasMin);
      OneMorePeriodic(nCol, was, Samples(), current, nCol - 1, mxSample, wasMin, nRow, nPSample);
      PeriodicServed(was, Samples(), current, chng, nCol, nCol - 1, mxSample, wasMin, nCol - 1);
      if nSample >= mxSample { StillLightest(was, Samples(), nCol, wasMin, iMin, chng, nCol - 1, nCol); }
      current := current.(isPSample := false);
    }

    /** The current row becomes a periodic sample if its number says so, and a best sample if it is one. */
    method Sampling(iChng: nat)
      requires Frame() && nRow > 0 && Current(current, chng, nCol) && iChng == chng[|chng| - 1] && (nRow == 1 ==> iChng == 0)
      requires Kept(Samples(), chng, nCol, nCol - 1, nCol) && forall k | 0 <= k < nSample :: Row(a[k], nCol) < nRow - 1
      requires Periodic(Samples()) <= (nRow - 1) / nPSample && PeriodicOk(Samples(), nCol, nRow - 1, nPSample)
      requires SeenCurrent(seen, chng, current) && (nRow > 1 ==> Bests(aBest[..], seen[..|chng| - 1], chng[..|chng| - 1], nCol))
      requires AllServed(Samples(), chng, nCol, nCol - 1, mxSample)
      modifies this`current, this`iMin, this`nSample, a, aBest
      ensures Valid()
    {
      hide Kept, Open, Start, End, Distinct, Stream, Bests, SeenOk, SeenCurrent, Current, Periodic, Row, PeriodicOk, AllServed, Lightest, AllTraced;
      FewPeriodic(nRow - 1, nPSample, nEst);
      RowNumber(current, chng, nCol);
      var nLt := current.anLt[nCol - 1];
      NextQuotient(nLt, nPSample);
      if nLt / nPSample != (nLt + 1) / nPSample {
        PushPeriodic();
      } else {
        NotDue(Samples(), nCol, nRow, nPSample);
      }
      UpdateBest(iChng);
    }

    /** stat_push(P, C, R) */
    method StatPush(iChng: nat, rowid: int)
      requires Valid() && iChng < nCol && (nRow == 0 ==> iChng == 0) && nRow < nEst
      modifies this`nRow, this`current, this`iPrn, this`iMin, this`nSample, this`chng, this`seen, a, aBest
      ensures Valid() && chng == old(chng) + [iChng] && Rowids(seen) == old(Rowids(seen)) + [rowid]
      ensures current.rowid == rowid && current.iHash == iPrn == (old(iPrn) * 1103515245 + 12345) % U32
    {
      hide Rowids, SeenCurrent, SeenOk, Kept, Open, Start, End, Distinct, Full, Stream, Bests, Current, Periodic, Row, PeriodicOk, AllServed, Lightest, AllTraced;
      FewPeriodic(nRow, nPSample, nEst);
      if nRow == 0 {
        current := current.(anEq := Ones(nCol));
        NoneKept(Samples(), chng, nCol, iChng, mxSample);
      } else {
        SamplePushPrevious(iChng);
      }
      ghost var prev, before := chng, seen;
      SeenLength(seen, chng, nCol);
      NextRow(iChng, rowid);
      assert chng[..|chng| - 1] == prev && seen[..|chng| - 1] == before;
      RowidsGrow(before, current);
      ServedGrows(Samples(), prev, nCol, iChng, mxSample);
      Sampling(iChng);
      SeenLast(seen, chng, current);
    }

    /** Before the samples are read, the groups of the last row end too: every sample has its final counts. */
    method Flush()
      requires Valid() && nRow > 0
      modifies this`iMin, this`nSample, a, aBest
      ensures nSample <= mxSample && chng == old(chng) && Ordered(Samples(), nCol)
      ensures forall k | 0 <= k < nSample :: Final(a[k], chng, nCol)
      ensures forall k | 0 <= k < nSample :: Row(a[k], nCol) < |seen| && a[k].rowid == Rowids(seen)[Row(a[k], nCol)]
      ensures forall r: nat :: HasPeriodic(Samples(), nCol, r) <==> r < |chng| && Due(r, nPSample)
      ensures forall r, i | 0 <= r < |chng| && 0 <= i < nCol - 1 ::
        Sampled(Samples(), chng, nCol, r, i) || (nSample == mxSample && AllHeavy(Samples(), Size(chng, r, i), i))
    {
      hide Kept, Full, Final, Sampled, HasPeriodic, Due, Bests, SeenOk, Current, Stream, Lightest, AllHeavy, Served;
      FewPeriodic(nRow, nPSample, nEst);
      SamplePushPrevious(0);
      forall k | 0 <= k < nSample ensures Final(a[k], chng, nCol) { AllFinal(Samples(), chng, nCol, k); }
      KeptOrdered(Samples(), chng, nCol, 0, nCol);
      forall r, i | 0 <= r < |chng| && 0 <= i < nCol - 1
        ensures Sampled(Samples(), chng, nCol, r, i) || (nSample == mxSample && AllHeavy(Samples(), Size(chng, r, i), i))
      {
        ServedSampled(Samples(), chng, nCol, r, i, mxSample);
      }
    }
  }

  /** The rowids of the rows, as they came. */
  ghost function Rowids(seen: seq<Sample>): seq<int> { seq(|seen|, k requires 0 <= k < |seen| => seen[k].rowid) }

  /** The last row seen is the current one. */
  ghost predicate SeenCurrent(seen: seq<Sample>, chng: seq<nat>, cur: Sample) {
    |seen| == |chng| > 0 && seen[|chng| - 1].anEq == cur.anEq && seen[|chng| - 1].anLt == cur.anLt
    && seen[|chng| - 1].anDLt == cur.anDLt && seen[|chng| - 1].iHash == cur.iHash && seen[|chng| - 1].iCol < |cur.anEq|
    && seen[|chng| - 1].rowid == cur.rowid
  }

  lemma SeenNow(seen: seq<Sample>, chng: seq<nat>, c: nat, cur: Sample)
    requires |seen| == |chng| && cur.iCol < |cur.anEq|
    ensures SeenCurrent(seen + [cur], chng + [c], cur)
  {
  }

  lemma RowidsGrow(seen: seq<Sample>, cur: Sample)
    ensures Rowids(seen + [cur]) == Rowids(seen) + [cur.rowid]
  {
  }

  lemma SeenLast(seen: seq<Sample>, chng: seq<nat>, cur: Sample)
    requires SeenCurrent(seen, chng, cur)
    ensures |seen| > 0 && cur.rowid == seen[|seen| - 1].rowid && cur.iHash == seen[|seen| - 1].iHash
  {
  }

  lemma CurrentTraced(s: Sample, seen: seq<Sample>, chng: seq<nat>, nCol: nat)
    requires Stream(chng, nCol) && Current(s, chng, nCol) && SeenCurrent(seen, chng, s)
    ensures Traced(s, seen, nCol)
  {
    RowNumber(s, chng, nCol);
  }

  lemma TracedStill(s: Sample, seen: seq<Sample>, nCol: nat)
    requires |seen| > 0 && Traced(s, seen[..|seen| - 1], nCol)
    ensures Traced(s, seen, nCol)
  {
    hide Row;
  }

  lemma SeenLength(seen: seq<Sample>, chng: seq<nat>, nCol: nat)
    requires SeenOk(seen, chng, nCol)
    ensures |seen| == |chng|
  {
  }

  lemma CurrentCount(s: Sample, chng: seq<nat>, nCol: nat, i: nat)
    requires Current(s, chng, nCol) && i < nCol
    ensures |chng| > 0 && |s.anEq| == nCol && s.anEq[i] == |chng| - Start(chng, |chng| - 1, i)
  {
  }

  lemma BestsStill(best: seq<Sample>, seen: seq<Sample>, chng: seq<nat>, nCol: nat, i: nat)
    requires Bests(best, seen, chng, nCol) && i < nCol - 1 && |chng| > 0
    ensures i < |best[i].anEq| && !best[i].isPSample && Best(best[i], chng, nCol, i) && Shape(Candidate(best[i], chng, i), nCol)
    ensures Traced(Candidate(best[i], chng, i), seen, nCol)
    ensures Bests(best[i := Candidate(best[i], chng, i)], seen, chng, nCol)
  {
    hide Top;
    TopCandidate(best[i], seen, chng, nCol, i);
    BestStill(best[i], Candidate(best[i], chng, i), chng, nCol, i);
  }

  lemma SamePeriodicOk(nCol: nat, a: seq<Sample>, b: seq<Sample>, s: Sample, z: nat, mx: nat, iMin: nat, nRow: nat, period: nat)
    requires PeriodicOk(a, nCol, nRow, period) && !s.isPSample
    requires AllShape(a, nCol) && Inserted(nCol, a, b, s, z, mx, iMin) && (|a| >= mx ==> iMin < |a| && !a[iMin].isPSample)
    ensures PeriodicOk(b, nCol, nRow, period)
  {
    hide HasPeriodic, Inserted, AllShape;
    forall r: nat ensures HasPeriodic(b, nCol, r) <==> r < nRow && Due(r, period) { InsertedRows(nCol, a, b, s, z, mx, iMin, r); }
  }

  lemma OneMorePeriodic(nCol: nat, a: seq<Sample>, b: seq<Sample>, s: Sample, z: nat, mx: nat, iMin: nat, nRow: nat, period: nat)
    requires nRow > 0 && PeriodicOk(a, nCol, nRow - 1, period) && s.isPSample && Row(s, nCol) == nRow - 1 && Due(nRow - 1, period)
    requires AllShape(a, nCol) && Inserted(nCol, a, b, s, z, mx, iMin) && (|a| >= mx ==> iMin < |a| && !a[iMin].isPSample)
    ensures PeriodicOk(b, nCol, nRow, period)
  {
    hide HasPeriodic, Inserted, AllShape, Row, Due;
    forall r: nat ensures HasPeriodic(b, nCol, r) <==> r < nRow && Due(r, period) { InsertedRows(nCol, a, b, s, z, mx, iMin, r); }
  }

  lemma NotDue(a: seq<Sample>, nCol: nat, nRow: nat, period: nat)
    requires nRow > 0 && PeriodicOk(a, nCol, nRow - 1, period) && !Due(nRow - 1, period)
    ensures PeriodicOk(a, nCol, nRow, period)
  {
    hide HasPeriodic, Due;
  }

  lemma SamePeriodicRows(a: seq<Sample>, b: seq<Sample>, nCol: nat, nRow: nat, period: nat)
    requires SameKept(a, b, nCol) && PeriodicOk(a, nCol, nRow, period)
    ensures PeriodicOk(b, nCol, nRow, period)
  {
    hide HasPeriodic, Row;
    forall r: nat ensures HasPeriodic(b, nCol, r) <==> HasPeriodic(a, nCol, r) { SameRows(a, b, nCol, r); }
  }

  lemma FilledSame(a: seq<Sample>, b: seq<Sample>, nCol: nat, c: nat, eq: seq<nat>)
    requires |a| == |b| && forall k | 0 <= k < |a| :: |a[k].anEq| == |eq| && b[k] == Filled(a[k], c, eq)
    ensures SameKept(a, b, nCol)
  {
  }

  /** After an insertion the sample at iMin is the lightest. */
  lemma StillLightest(a: seq<Sample>, b: seq<Sample>, nCol: nat, was: nat, k: nat, chng: seq<nat>, lim: nat, chosen: nat)
    requires AllShape(b, nCol) && Kept(b, chng, nCol, lim, chosen)
    requires (a == b && was == k && Lightest(a, k)) || (k < |b| && Worst(b, nCol, k))
    ensures Lightest(b, k)
  {
    hide Lightest, Worst, AllKnown, Ordered, AllChosen;
    if k < |b| && Worst(b, nCol, k) { WorstLightest(b, nCol, k, chosen); }
  }

  /** Of the samples of a group seen so far the new one is the best. */
  lemma BetterPending(a: seq<Sample>, nCol: nat, was: int, m: nat, i: nat)
    requires AllShape(a, nCol) && m < |a| && was < |a|
    requires if was < 0 then forall k | m < k < |a| :: !Pending(a[k], i)
             else Better(nCol, a[m], a[was]) && forall k | m < k < |a| && Pending(a[k], i) :: !Better(nCol, a[k], a[was])
    ensures forall k | m <= k < |a| && Pending(a[k], i) :: !Better(nCol, a[k], a[m])
  {
    hide Better, Pending;
    BetterTransitive(nCol, a[m], a[m], a[m]);
    if was >= 0 {
      forall k | m < k < |a| && Pending(a[k], i) ensures !Better(nCol, a[k], a[m]) { BetterTransitive(nCol, a[k], a[m], a[was]); }
    }
  }

  /** The counts of a sample are those of its row among all rows. */
  ghost predicate Final(s: Sample, chng: seq<nat>, nCol: nat) {
    && Shape(s, nCol) && Row(s, nCol) < |chng|
    && forall j | 0 <= j < nCol ::
         s.anLt[j] == Start(chng, Row(s, nCol), j) && s.anDLt[j] == Distinct(chng, Row(s, nCol), j)
         && s.anEq[j] == End(chng, Row(s, nCol), j) - Start(chng, Row(s, nCol), j)
  }

  lemma AllFinal(a: seq<Sample>, chng: seq<nat>, nCol: nat, k: nat)
    requires Kept(a, chng, nCol, 0, nCol) && k < |a| && Full(a[k], 0)
    ensures Final(a[k], chng, nCol)
  {
    hide Start, End, Distinct, Open;
  }

  lemma KeptOrdered(a: seq<Sample>, chng: seq<nat>, nCol: nat, lim: nat, chosen: nat)
    requires Kept(a, chng, nCol, lim, chosen)
    ensures Ordered(a, nCol)
  {
  }

  lemma KeptRows(a: seq<Sample>, chng: seq<nat>, nCol: nat, lim: nat, chosen: nat)
    requires Kept(a, chng, nCol, lim, chosen)
    ensures forall k | 0 <= k < |a| :: Row(a[k], nCol) < |chng|
  {
  }

  lemma NoneKept(a: seq<Sample>, chng: seq<nat>, nCol: nat, lim: nat, mx: nat)
    requires a == []
    ensures Kept(a, chng, nCol, lim, nCol) && Periodic(a) == 0 && (chng == [] ==> AllServed(a, chng, nCol, lim, mx))
  {
  }

  lemma StreamGrows(chng: seq<nat>, nCol: nat, c: nat)
    requires Stream(chng, nCol) && c < nCol && (chng == [] ==> c == 0)
    ensures Stream(chng + [c], nCol)
  {
  }

  lemma RowNumber(s: Sample, chng: seq<nat>, nCol: nat)
    requires Stream(chng, nCol) && Current(s, chng, nCol)
    ensures Shape(s, nCol) && s.anLt[nCol - 1] == |chng| - 1 == Row(s, nCol)
  {
    LastColumn(chng, nCol, |chng| - 1);
  }

  lemma NextQuotient(n: nat, d: nat)
    requires d > 0
    ensures (n + 1) / d == n / d || (n + 1) / d == n / d + 1
  {
    var q, r := n / d, n % d;
    if r + 1 < d { DivIs(n + 1, q, r + 1, d); } else { DivIs(n + 1, q + 1, 0, d); }
  }

  /** The periodic sample comes after all the others. */
  lemma PeriodicInserted(a: seq<Sample>, b: seq<Sample>, s: Sample, chng: seq<nat>, nCol: nat, mx: nat, iMin: nat)
    requires Stream(chng, nCol) && Current(s, chng, nCol) && s.isPSample
    requires Kept(a, chng, nCol, nCol - 1, nCol) && forall k | 0 <= k < |a| :: Row(a[k], nCol) < |chng| - 1
    requires AllShape(a, nCol) && Inserted(nCol, a, b, s, nCol - 1, mx, iMin)
    ensures Kept(b, chng, nCol, nCol - 1, nCol)
  {
    hide Known, Start, End, Distinct, Open, Zeroed, Ordered, AllShape;
    CurrentKnown(s, chng, nCol);
    ZeroedKeeps(s, nCol - 1);
    RoomKept(a, chng, nCol, nCol - 1, nCol, mx, iMin);
    AppendKept(Room(a, mx, iMin), chng, nCol, nCol - 1, nCol, Zeroed(s, nCol - 1));
  }

  method Advance(s: Sample, nCol: nat, iChng: nat, rowid: int, iHash: nat) returns (t: Sample)
    requires Shape(s, nCol) && iChng <= nCol
    ensures t == Advanced(s, iChng, rowid, iHash)
  {
    var eq, lt, dlt := s.anEq, s.anLt, s.anDLt;
    for i := 0 to iChng
      invariant |eq| == nCol && forall k | 0 <= k < nCol :: eq[k] == if k < i then s.anEq[k] + 1 else s.anEq[k]
    {
      eq := eq[i := eq[i] + 1];
    }
    for i := iChng to nCol
      invariant |eq| == nCol && |lt| == nCol && |dlt| == nCol
      invariant forall k | 0 <= k < nCol :: eq[k] == if k < iChng then s.anEq[k] + 1 else if k < i then 1 else s.anEq[k]
      invariant forall k | 0 <= k < nCol :: lt[k] == if iChng <= k < i then s.anLt[k] + s.anEq[k] else s.anLt[k]
      invariant forall k | 0 <= k < nCol :: dlt[k] == if iChng <= k < i then s.anDLt[k] + 1 else s.anDLt[k]
    {
      dlt := dlt[i := dlt[i] + 1];
      lt := lt[i := lt[i] + eq[i]];
      eq := eq[i := 1];
    }
    t := Sample(eq, lt, dlt, rowid, s.isPSample, s.iCol, iHash);
  }

  function Ones(n: nat): seq<nat> { seq(n, _ => 1) }

  /** Periodic samples are at most a third of the samples. */
  lemma FewPeriodic(n: nat, period: nat, rows: nat)
    requires n <= rows && period == rows / (SQLITE_STAT4_SAMPLES / 3 + 1) + 1
    ensures n / period <= SQLITE_STAT4_SAMPLES / 3
  {
    var m := SQLITE_STAT4_SAMPLES / 3 + 1;
    assert rows < m * period;
    MulLe(m, n / period, period);
  }

  lemma StreamPrefix(chng: seq<nat>, nCol: nat)
    requires Stream(chng, nCol) && |chng| > 0
    ensures Stream(chng[..|chng| - 1], nCol) && chng[|chng| - 1] < nCol
  {
  }

  lemma CurrentShape(s: Sample, chng: seq<nat>, nCol: nat)
    requires Current(s, chng, nCol)
    ensures Shape(s, nCol)
  {
  }

  lemma Recolumn(s: Sample, chng: seq<nat>, nCol: nat, i: nat)
    requires Current(s, chng, nCol) && i < nCol
    ensures Current(s.(iCol := i), chng, nCol)
  {
  }

  method FillCounts(s: Sample, c: nat, eq: seq<nat>) returns (t: Sample)
    requires |eq| == |s.anEq| && c <= |eq|
    ensures t == Filled(s, c, eq)
  {
    t := s;
    for j := c to |eq|
      invariant t == s.(anEq := t.anEq) && |t.anEq| == |s.anEq|
      invariant forall k | 0 <= k < |eq| :: t.anEq[k] == if c <= k < j && s.anEq[k] == 0 then eq[k] else s.anEq[k]
    {
      if t.anEq[j] == 0 { t := t.(anEq := t.anEq[j := eq[j]]); }
    }
  }

  lemma KeptShape(a: seq<Sample>, chng: seq<nat>, nCol: nat, lim: nat, chosen: nat)
    requires Kept(a, chng, nCol, lim, chosen)
    ensures AllShape(a, nCol)
  {
  }

  lemma BestStill(s: Sample, t: Sample, chng: seq<nat>, nCol: nat, i: nat)
    requires Best(s, chng, nCol, i) && i < nCol && t == Candidate(s, chng, i) && |chng| > 0
    ensures Best(t, chng, nCol, i) && Shape(t, nCol)
  {
    hide Start, Open, Distinct;
  }

  lemma InsertedShape(a: seq<Sample>, b: seq<Sample>, nCol: nat, pNew: Sample, nEqZero: nat, mx: nat, iMin: nat)
    requires AllShape(a, nCol) && Shape(pNew, nCol) && Inserted(nCol, a, b, pNew, nEqZero, mx, iMin)
    ensures AllShape(b, nCol)
  {
    hide Better, PeriodicPending, AnyPending, BestPending;
  }

  lemma ShapeAt(a: seq<Sample>, nCol: nat, i: nat)
    requires AllShape(a, nCol) && i < |a|
    ensures Shape(a[i], nCol)
  {
  }

  lemma BetterThanAll(a: seq<Sample>, nCol: nat, was: int, m: nat)
    requires AllShape(a, nCol) && was < m < |a| && !a[m].isPSample
    requires was < 0 ==> forall k | 0 <= k < m :: a[k].isPSample
    requires was >= 0 ==> Better(nCol, a[was], a[m]) && forall k | 0 <= k < m && !a[k].isPSample :: !Better(nCol, a[was], a[k])
    ensures forall k | 0 <= k <= m && !a[k].isPSample :: !Better(nCol, a[m], a[k])
  {
    hide Better;
    BetterTransitive(nCol, a[m], a[m], a[m]);
    if was >= 0 {
      forall k | 0 <= k < m && !a[k].isPSample ensures !Better(nCol, a[m], a[k]) { BetterTransitive(nCol, a[was], a[m], a[k]); }
    }
  }
}
