/** What the counts mean: rows equal to, before, and distinct prefixes before, a row of the sorted index. */
module StatMeaning {
  import opened Facts
  import opened StatRows
  import opened Stat4
  import opened Stat4Accums

  type Key = seq<int>

  predicate Less(a: Key, b: Key)
    decreases |a|
  {
    |b| > 0 && (|a| == 0 || a[0] < b[0] || (a[0] == b[0] && Less(a[1..], b[1..])))
  }

  /** The columns of a row up to column j. */
  function Prefix(row: Key, j: nat): Key
    requires j < |row|
  {
    row[..j + 1]
  }

  /** Rows of nCol columns in strictly ascending order. */
  ghost predicate Sorted(rows: seq<Key>, nCol: nat) {
    && 0 < nCol && (forall r | 0 <= r < |rows| :: |rows[r]| == nCol)
    && forall r | 0 <= r < |rows| - 1 :: Less(rows[r], rows[r + 1])
  }

  /** chng holds the left-most column in which each row differs from the one before. */
  ghost predicate Changes(rows: seq<Key>, nCol: nat, chng: seq<nat>)
    requires forall r | 0 <= r < |rows| :: |rows[r]| == nCol
  {
    && |chng| == |rows| && Stream(chng, nCol)
    && forall r | 0 < r < |rows| :: rows[r - 1][..chng[r]] == rows[r][..chng[r]] && rows[r - 1][chng[r]] != rows[r][chng[r]]
  }

  lemma {:induction false} LessTransitive(a: Key, b: Key, c: Key)
    requires Less(a, b) && Less(b, c)
    ensures Less(a, c)
    decreases |a|
  {
    if |a| > 0 && a[0] == b[0] && b[0] == c[0] { LessTransitive(a[1..], b[1..], c[1..]); }
  }

  lemma {:induction false} NotLess(a: Key)
    ensures !Less(a, a)
    decreases |a|
  {
    if |a| > 0 { NotLess(a[1..]); }
  }

  /** Of two rows that first differ in column c, the prefixes compare as the rows. */
  lemma {:induction false} LessPrefix(a: Key, b: Key, c: nat, j: nat)
    requires |a| == |b| && c <= j < |a| && a[..c] == b[..c] && a[c] != b[c] && Less(a, b)
    ensures Less(Prefix(a, j), Prefix(b, j))
    decreases |a|
  {
    var p, q := Prefix(a, j), Prefix(b, j);
    if c > 0 {
      assert a[0] == a[..c][0] == b[..c][0] == b[0];
      assert a[1..][..c - 1] == a[..c][1..] && b[1..][..c - 1] == b[..c][1..];
      LessPrefix(a[1..], b[1..], c - 1, j - 1);
      assert p[1..] == Prefix(a[1..], j - 1) && q[1..] == Prefix(b[1..], j - 1);
    }
  }

  /** Neighbouring rows agree up to column j, or the first has the smaller prefix, as chng says. */
  lemma Neighbours(rows: seq<Key>, nCol: nat, chng: seq<nat>, r: nat, j: nat)
    requires Sorted(rows, nCol) && Changes(rows, nCol, chng) && 0 < r < |rows| && j < nCol
    ensures if chng[r] <= j then Less(Prefix(rows[r - 1], j), Prefix(rows[r], j)) else Prefix(rows[r - 1], j) == Prefix(rows[r], j)
  {
    var a, b := rows[r - 1], rows[r];
    assert Less(rows[r - 1], rows[r - 1 + 1]);
    if chng[r] <= j {
      LessPrefix(a, b, chng[r], j);
    } else {
      assert Prefix(a, j) == a[..chng[r]][..j + 1] && Prefix(b, j) == b[..chng[r]][..j + 1];
    }
  }

  /** Rows from Start to End share their prefix; those before have smaller, those after bigger ones. */
  lemma {:induction false} Before(rows: seq<Key>, nCol: nat, chng: seq<nat>, q: nat, r: nat, j: nat)
    requires Sorted(rows, nCol) && Changes(rows, nCol, chng) && q <= r < |rows| && j < nCol
    ensures if q >= Start(chng, r, j) then Prefix(rows[q], j) == Prefix(rows[r], j) else Less(Prefix(rows[q], j), Prefix(rows[r], j))
    decreases r
  {
    hide Less;
    if q < r {
      Before(rows, nCol, chng, q, r - 1, j);
      Neighbours(rows, nCol, chng, r, j);
      if q < Start(chng, r - 1, j) && chng[r] <= j { LessTransitive(Prefix(rows[q], j), Prefix(rows[r - 1], j), Prefix(rows[r], j)); }
    }
  }

  lemma {:induction false} EndStart(chng: seq<nat>, r: nat, q: nat, j: nat)
    requires r <= q < |chng|
    ensures q < End(chng, r, j) <==> Start(chng, q, j) <= r
    decreases q - r
  {
    if r < q {
      if chng[r + 1] > j {
        EndStart(chng, r + 1, q, j);
        Skip(chng, r, q, j);
      } else {
        From(chng, r + 1, q, j);
      }
    }
  }

  lemma {:induction false} Skip(chng: seq<nat>, r: nat, q: nat, j: nat)
    requires r < q < |chng| && chng[r + 1] > j
    ensures Start(chng, q, j) <= r + 1 ==> Start(chng, q, j) <= r
    decreases q
  {
    if r + 1 < q { Skip(chng, r, q - 1, j); }
  }

  lemma {:induction false} From(chng: seq<nat>, r: nat, q: nat, j: nat)
    requires r <= q < |chng| && chng[r] <= j
    ensures Start(chng, q, j) >= r
    decreases q
  {
    if r < q { From(chng, r, q - 1, j); }
  }

  /** How row q compares with row r in the columns up to j. */
  lemma Compare(rows: seq<Key>, nCol: nat, chng: seq<nat>, q: nat, r: nat, j: nat)
    requires Sorted(rows, nCol) && Changes(rows, nCol, chng) && q < |rows| && r < |rows| && j < nCol
    ensures Prefix(rows[q], j) == Prefix(rows[r], j) <==> Start(chng, r, j) <= q < End(chng, r, j)
    ensures Less(Prefix(rows[q], j), Prefix(rows[r], j)) <==> q < Start(chng, r, j)
  {
    hide Less;
    var p, s := Prefix(rows[q], j), Prefix(rows[r], j);
    NotLess(p);
    if q <= r {
      Before(rows, nCol, chng, q, r, j);
    } else {
      Before(rows, nCol, chng, r, q, j);
      EndStart(chng, r, q, j);
      if Less(p, s) && Less(s, p) { LessTransitive(p, s, p); }
    }
  }

  ghost function EqualRows(rows: seq<Key>, nCol: nat, r: nat, j: nat): set<nat>
    requires r < |rows| && j < nCol && forall q | 0 <= q < |rows| :: |rows[q]| == nCol
  {
    set q | 0 <= q < |rows| && Prefix(rows[q], j) == Prefix(rows[r], j)
  }

  ghost function SmallerRows(rows: seq<Key>, nCol: nat, r: nat, j: nat): set<nat>
    requires r < |rows| && j < nCol && forall q | 0 <= q < |rows| :: |rows[q]| == nCol
  {
    set q | 0 <= q < |rows| && Less(Prefix(rows[q], j), Prefix(rows[r], j))
  }

  ghost function SmallerPrefixes(rows: seq<Key>, nCol: nat, r: nat, j: nat): set<Key>
    requires r < |rows| && j < nCol && forall q | 0 <= q < |rows| :: |rows[q]| == nCol
  {
    set q | 0 <= q < |rows| && Less(Prefix(rows[q], j), Prefix(rows[r], j)) :: Prefix(rows[q], j)
  }

  /** The counts of rows are those that the prefixes define. */
  lemma RowCounts(rows: seq<Key>, nCol: nat, chng: seq<nat>, r: nat, j: nat)
    requires Sorted(rows, nCol) && Changes(rows, nCol, chng) && r < |rows| && j < nCol
    ensures |EqualRows(rows, nCol, r, j)| == End(chng, r, j) - Start(chng, r, j)
    ensures |SmallerRows(rows, nCol, r, j)| == Start(chng, r, j)
  {
    hide Less;
    forall q ensures q in EqualRows(rows, nCol, r, j) <==> Start(chng, r, j) <= q < End(chng, r, j) {
      if 0 <= q < |rows| { Compare(rows, nCol, chng, q, r, j); }
    }
    forall q ensures q in SmallerRows(rows, nCol, r, j) <==> 0 <= q < Start(chng, r, j) {
      if 0 <= q < |rows| { Compare(rows, nCol, chng, q, r, j); }
    }
    RangeSize(EqualRows(rows, nCol, r, j), Start(chng, r, j), End(chng, r, j));
    RangeSize(SmallerRows(rows, nCol, r, j), 0, Start(chng, r, j));
  }

  lemma {:induction false} PrefixCount(rows: seq<Key>, nCol: nat, chng: seq<nat>, r: nat, j: nat)
    requires Sorted(rows, nCol) && Changes(rows, nCol, chng) && r < |rows| && j < nCol
    ensures |SmallerPrefixes(rows, nCol, r, j)| == Distinct(chng, r, j)
    decreases r
  {
    hide Less, SmallerPrefixes;
    if r == 0 {
      NoneSmaller(rows, nCol, chng, j);
    } else {
      PrefixCount(rows, nCol, chng, r - 1, j);
      if chng[r] <= j { OneMore(rows, nCol, chng, r, j); } else { NoMore(rows, nCol, chng, r, j); }
    }
  }

  lemma NoneSmaller(rows: seq<Key>, nCol: nat, chng: seq<nat>, j: nat)
    requires Sorted(rows, nCol) && Changes(rows, nCol, chng) && 0 < |rows| && j < nCol
    ensures SmallerPrefixes(rows, nCol, 0, j) == {}
  {
    hide Less;
    forall q | 0 <= q < |rows| ensures !Less(Prefix(rows[q], j), Prefix(rows[0], j)) { Compare(rows, nCol, chng, q, 0, j); }
  }

  lemma NoMore(rows: seq<Key>, nCol: nat, chng: seq<nat>, r: nat, j: nat)
    requires Sorted(rows, nCol) && Changes(rows, nCol, chng) && 0 < r < |rows| && j < nCol && chng[r] > j
    ensures SmallerPrefixes(rows, nCol, r, j) == SmallerPrefixes(rows, nCol, r - 1, j)
  {
    hide Less;
    Neighbours(rows, nCol, chng, r, j);
  }

  lemma OneMore(rows: seq<Key>, nCol: nat, chng: seq<nat>, r: nat, j: nat)
    requires Sorted(rows, nCol) && Changes(rows, nCol, chng) && 0 < r < |rows| && j < nCol && chng[r] <= j
    ensures SmallerPrefixes(rows, nCol, r, j) == SmallerPrefixes(rows, nCol, r - 1, j) + {Prefix(rows[r - 1], j)}
    ensures Prefix(rows[r - 1], j) !in SmallerPrefixes(rows, nCol, r - 1, j)
  {
    hide Less;
    var a, b, p := SmallerPrefixes(rows, nCol, r, j), SmallerPrefixes(rows, nCol, r - 1, j), Prefix(rows[r - 1], j);
    NotLess(p);
    Neighbours(rows, nCol, chng, r, j);
    forall q | 0 <= q < |rows|
      ensures Less(Prefix(rows[q], j), Prefix(rows[r], j)) <==> Less(Prefix(rows[q], j), p) || Prefix(rows[q], j) == p
    {
      Compare(rows, nCol, chng, q, r, j);
      Compare(rows, nCol, chng, q, r - 1, j);
      EndStart(chng, r - 1, r, j);
      if r - 1 < q { Later(chng, r, q, j); }
    }
  }

  lemma Later(chng: seq<nat>, r: nat, q: nat, j: nat)
    requires 0 < r <= q < |chng| && chng[r] <= j
    ensures !(q < End(chng, r - 1, j))
  {
  }

  /** After the flush the counts of a sample are the numbers of rows equal to its row, before it, and of prefixes before it. */
  lemma SampleMeans(rows: seq<Key>, nCol: nat, chng: seq<nat>, s: Sample, j: nat)
    requires Sorted(rows, nCol) && Changes(rows, nCol, chng) && Final(s, chng, nCol) && j < nCol
    ensures s.anEq[j] == |EqualRows(rows, nCol, Row(s, nCol), j)|
    ensures s.anLt[j] == |SmallerRows(rows, nCol, Row(s, nCol), j)|
    ensures s.anDLt[j] == |SmallerPrefixes(rows, nCol, Row(s, nCol), j)|
  {
    hide Less;
    RowCounts(rows, nCol, chng, Row(s, nCol), j);
    PrefixCount(rows, nCol, chng, Row(s, nCol), j);
  }

  /** A group that has a sample: some sample is of a row with the same prefix. */
  lemma SampledMeans(rows: seq<Key>, nCol: nat, chng: seq<nat>, a: seq<Sample>, r: nat, j: nat) returns (k: nat)
    requires Sorted(rows, nCol) && Changes(rows, nCol, chng) && r < |rows| && j < nCol && Sampled(a, chng, nCol, r, j)
    ensures k < |a| && Row(a[k], nCol) < |rows| && Prefix(rows[Row(a[k], nCol)], j) == Prefix(rows[r], j)
  {
    hide Less;
    k :| 0 <= k < |a| && InGroup(a[k], chng, nCol, r, j);
    var q := Row(a[k], nCol);
    if q <= r { Before(rows, nCol, chng, q, r, j); } else { Before(rows, nCol, chng, r, q, j); }
  }

  /** A group without a sample, when there is no room left: each sample kept for a column stands for as many rows at least. */
  lemma UnsampledMeans(rows: seq<Key>, nCol: nat, chng: seq<nat>, a: seq<Sample>, r: nat, j: nat, k: nat)
    requires Sorted(rows, nCol) && Changes(rows, nCol, chng) && r < |rows| && j < nCol && AllHeavy(a, Size(chng, r, j), j)
    requires k < |a| && !a[k].isPSample && Final(a[k], chng, nCol)
    ensures |EqualRows(rows, nCol, Row(a[k], nCol), a[k].iCol)| >= |EqualRows(rows, nCol, r, j)|
    ensures |EqualRows(rows, nCol, Row(a[k], nCol), a[k].iCol)| == |EqualRows(rows, nCol, r, j)| ==> a[k].iCol <= j
  {
    hide Less;
    assert Heavy(a[k], Size(chng, r, j), j);
    RowCounts(rows, nCol, chng, r, j);
    RowCounts(rows, nCol, chng, Row(a[k], nCol), a[k].iCol);
  }

  /** At every step the counts of the current row are those among the rows so far. */
  lemma CurrentMeans(rows: seq<Key>, nCol: nat, chng: seq<nat>, s: Sample, j: nat)
    requires Sorted(rows, nCol) && Changes(rows, nCol, chng) && Current(s, chng, nCol) && j < nCol
    ensures s.anEq[j] == |EqualRows(rows, nCol, |rows| - 1, j)|
    ensures s.anLt[j] == |SmallerRows(rows, nCol, |rows| - 1, j)|
    ensures s.anDLt[j] == |SmallerPrefixes(rows, nCol, |rows| - 1, j)|
  {
    hide Less;
    RowCounts(rows, nCol, chng, |rows| - 1, j);
    PrefixCount(rows, nCol, chng, |rows| - 1, j);
  }
}
