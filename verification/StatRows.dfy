/** Rows of a sorted index seen through the left-most column in which each differs from the row before. */
module StatRows {

  /** chng[r] is the left-most column in which row r differs from the row before; for the first row it is 0. */
  ghost predicate Stream(chng: seq<nat>, nCol: nat) {
    0 < nCol && (|chng| > 0 ==> chng[0] == 0) && forall r | 0 <= r < |chng| :: chng[r] < nCol
  }

  /** First row that agrees with row r in the columns up to j. */
  function Start(chng: seq<nat>, r: nat, j: nat): (s: nat)
    requires r < |chng|
    ensures s <= r
  {
    if r == 0 || chng[r] <= j then r else Start(chng, r - 1, j)
  }

  /** First row after r that does not agree with it in the columns up to j. */
  ghost function End(chng: seq<nat>, r: nat, j: nat): (e: nat)
    requires r < |chng|
    ensures r < e <= |chng|
    decreases |chng| - r
  {
    if r + 1 == |chng| || chng[r + 1] <= j then r + 1 else End(chng, r + 1, j)
  }

  /** Number of distinct prefixes up to column j before that of row r. */
  function Distinct(chng: seq<nat>, r: nat, j: nat): nat
    requires r < |chng|
  {
    if r == 0 then 0 else Distinct(chng, r - 1, j) + if chng[r] <= j then 1 else 0
  }

  /** All rows after r agree with it in the columns up to j. */
  ghost predicate Open(chng: seq<nat>, r: nat, j: nat) { forall t | r < t < |chng| :: chng[t] > j }

  lemma {:induction false} OpenEnd(chng: seq<nat>, r: nat, j: nat)
    requires r < |chng|
    ensures Open(chng, r, j) <==> End(chng, r, j) == |chng|
    ensures Open(chng, r, j) ==> Start(chng, |chng| - 1, j) == Start(chng, r, j)
    decreases |chng| - r
  {
    if r + 1 < |chng| && chng[r + 1] > j { OpenEnd(chng, r + 1, j); }
  }

  /** A new row does not change what is known of the rows before it. */
  lemma {:induction false} StartGrows(chng: seq<nat>, c: nat, r: nat, j: nat)
    requires r < |chng|
    ensures Start(chng + [c], r, j) == Start(chng, r, j) && Distinct(chng + [c], r, j) == Distinct(chng, r, j)
  {
    assert (chng + [c])[r] == chng[r];
    if r > 0 { StartGrows(chng, c, r - 1, j); }
  }

  /** It joins the groups that it does not end. */
  lemma {:induction false} EndGrows(chng: seq<nat>, c: nat, r: nat, j: nat)
    requires r < |chng|
    ensures End(chng + [c], r, j) == if !Open(chng, r, j) || c <= j then End(chng, r, j) else |chng| + 1
    ensures Open(chng + [c], r, j) <==> Open(chng, r, j) && c > j
    decreases |chng| - r
  {
    OpenEnd(chng, r, j);
    var d := chng + [c];
    if r + 1 < |chng| {
      assert d[r + 1] == chng[r + 1];
      if chng[r + 1] > j { EndGrows(chng, c, r + 1, j); OpenEnd(chng, r + 1, j); }
      assert Open(d, r, j) ==> d[r + 1] > j;
    } else {
      assert d[r + 1] == c;
    }
    forall t | r < t < |d| ensures d[t] == if t < |chng| then chng[t] else c {}
    if Open(d, r, j) { assert d[|chng|] > j; forall t | r < t < |chng| ensures chng[t] > j { assert d[t] > j; } }
  }

  /** In the last column every row is by itself. */
  lemma LastColumn(chng: seq<nat>, nCol: nat, r: nat)
    requires Stream(chng, nCol) && r < |chng|
    ensures Start(chng, r, nCol - 1) == r && End(chng, r, nCol - 1) == r + 1
  {
  }
}
