/** The order in which balance_nonroot rewrites the sibling pages, and why no cell is lost on the way. */
module Schedule {

  /** Where a cell to be placed can be read: on an old page, or in memory apart from all pages. */
  datatype Ref<T> = OnPage(page: nat, at: nat) | Aside(cell: T)

  /** cntOld[i] and cntNew[i] are the indexes, in the sequence of all cells, after the last cell of old and of new page i.
      gap is 1 where the cell between two pages is their divider. */
  datatype Plan = Plan(cntOld: seq<nat>, cntNew: seq<nat>, nOld: nat, gap: nat, n: nat) {
    function NNew(): nat { |cntNew| }
    function OldStart(i: nat): nat
      requires i <= |cntOld|
    {
      if i == 0 then 0 else cntOld[i - 1] + gap
    }
    function NewStart(i: nat): nat
      requires i <= |cntNew|
    {
      if i == 0 then 0 else cntNew[i - 1] + gap
    }
    ghost predicate Ok() {
      && 0 < nOld && 0 < |cntNew| && nOld <= |cntOld| && |cntNew| <= |cntOld| && gap <= 1
      && (forall i, j | 0 <= i <= j < |cntOld| :: cntOld[i] <= cntOld[j] <= n)
      && (forall i | nOld - 1 <= i < |cntOld| :: cntOld[i] == n)
      && (forall i, j | 0 <= i < j < |cntNew| :: cntNew[i] < cntNew[j])
      && (forall i | 0 <= i < |cntNew| :: NewStart(i) <= cntNew[i])
      && cntNew[|cntNew| - 1] == n
    }
  }

  /** Reading a cell through its reference, off the pages as they are now. */
  ghost predicate Reads<T>(r: Ref<T>, body: seq<seq<T>>, c: T) {
    match r
    case OnPage(q, i) => q < |body| && i < |body[q]| && body[q][i] == c
    case Aside(x) => x == c
  }

  /** Cell c is on page q only if it was one of the cells of q. */
  ghost predicate Home<T>(p: Plan, ref: seq<Ref<T>>)
    requires p.Ok()
  {
    && |ref| == p.n
    && forall c | 0 <= c < p.n && ref[c].OnPage? ::
         ref[c].page < p.nOld && p.OldStart(ref[c].page) <= c < p.cntOld[ref[c].page]
  }

  /** Page i can be written now: no page still to be written needs a cell that is on it. */
  ghost predicate Safe<T>(p: Plan, ref: seq<Ref<T>>, done: seq<bool>, i: nat)
    requires p.Ok() && |ref| == p.n && |done| == p.NNew()
  {
    forall q, c | 0 <= q < p.NNew() && q != i && !done[q] && p.NewStart(q) <= c < p.cntNew[q] && c < p.n ::
      !(ref[c].OnPage? && ref[c].page == i)
  }

  /** A cell wanted by page q was not one of the cells of page i, if cells move away from i towards q. */
  lemma Elsewhere(p: Plan, i: nat, q: nat, c: nat)
    requires p.Ok() && i < p.NNew() && q < p.NNew() && i != q && p.NewStart(q) <= c < p.cntNew[q]
    requires q < i ==> p.cntOld[i - 1] >= p.cntNew[i - 1]
    requires i < q ==> p.cntOld[q - 1] < p.cntNew[q - 1]
    ensures c < p.OldStart(i) || p.cntOld[i] <= c
  {
    hide Plan.Ok;
    Sizes(p);
    if q < i {
      NewMono(p, q, i - 1);
    } else {
      OldMono(p, i, q - 1);
    }
  }

  lemma Sizes(p: Plan)
    requires p.Ok()
    ensures 0 < |p.cntNew| <= |p.cntOld| && p.nOld <= |p.cntOld| && p.gap <= 1
  {
  }

  lemma OldMono(p: Plan, i: nat, j: nat)
    requires p.Ok() && i <= j < |p.cntOld|
    ensures p.cntOld[i] <= p.cntOld[j]
  {
  }

  lemma NewMono(p: Plan, i: nat, j: nat)
    requires p.Ok() && i <= j < |p.cntNew|
    ensures p.cntNew[i] <= p.cntNew[j]
  {
  }

  lemma Bounds(p: Plan)
    requires p.Ok()
    ensures 0 < |p.cntNew| <= |p.cntOld| && p.nOld <= |p.cntOld| && p.gap <= 1
    ensures forall q | 0 <= q < |p.cntNew| :: p.cntNew[q] <= p.n
    ensures p.cntNew[|p.cntNew| - 1] == p.n
    ensures forall q | 0 <= q < |p.cntNew| :: p.NewStart(q) <= p.cntNew[q]
  {
    forall q | 0 <= q < |p.cntNew| ensures p.cntNew[q] <= p.n { NewMono(p, q, |p.cntNew| - 1); }
  }

  /** The two tests of the loop are enough: pages below are written already, or get their cells from the right;
      pages above are written already, or get theirs from the left. */
  lemma PageSafe<T>(p: Plan, ref: seq<Ref<T>>, done: seq<bool>, i: nat)
    requires p.Ok() && Home(p, ref) && |done| == p.NNew() && i < p.NNew()
    requires (forall q | 0 <= q < i :: done[q]) || i == 0 || p.cntOld[i - 1] >= p.cntNew[i - 1]
    requires forall q | i < q < p.NNew() && !done[q] :: p.cntOld[q - 1] < p.cntNew[q - 1]
    ensures Safe(p, ref, done, i)
  {
    hide Plan.Ok;
    Bounds(p);
    forall q, c | 0 <= q < p.NNew() && q != i && !done[q] && p.NewStart(q) <= c < p.cntNew[q]
      ensures !(ref[c].OnPage? && ref[c].page == i)
    {
      Elsewhere(p, i, q, c);
      NotHome(p, ref, i, c);
    }
  }

  lemma NotHome<T>(p: Plan, ref: seq<Ref<T>>, i: nat, c: nat)
    requires p.Ok() && Home(p, ref) && c < |ref| && i < |p.cntOld|
    requires c < p.OldStart(i) || p.cntOld[i] <= c
    ensures !(ref[c].OnPage? && ref[c].page == i)
  {
  }

  /** Pages still to be written hold what they held; pages already written hold their new cells. */
  ghost predicate Progress<T>(p: Plan, was: seq<seq<T>>, cells: seq<T>, body: seq<seq<T>>, done: seq<bool>)
    requires p.Ok() && |cells| == p.n && |done| == p.NNew()
  {
    && |body| == |was| && p.NNew() <= |was|
    && (forall q | 0 <= q < |was| && (q >= p.NNew() || !done[q]) :: body[q] == was[q])
    && (forall q | 0 <= q < p.NNew() && done[q] :: p.NewStart(q) <= p.cntNew[q] <= p.n && body[q] == cells[p.NewStart(q)..p.cntNew[q]])
  }

  /** While it is not yet written, a page can still be put together from what the other pages hold. */
  ghost predicate Readable<T>(p: Plan, ref: seq<Ref<T>>, cells: seq<T>, body: seq<seq<T>>, done: seq<bool>)
    requires p.Ok() && |ref| == |cells| == p.n && |done| == p.NNew()
  {
    forall q, c | 0 <= q < p.NNew() && !done[q] && p.NewStart(q) <= c < p.cntNew[q] && c < p.n :: Reads(ref[c], body, cells[c])
  }

  lemma WriteKeeps<T>(p: Plan, ref: seq<Ref<T>>, cells: seq<T>, body: seq<seq<T>>, done: seq<bool>, i: nat, page: seq<T>)
    requires p.Ok() && |ref| == |cells| == p.n && |done| == p.NNew() && i < p.NNew() && i < |body|
    requires Readable(p, ref, cells, body, done) && Safe(p, ref, done, i)
    ensures Readable(p, ref, cells, body[i := page], done[i := true])
  {
    hide Plan.Ok;
    Bounds(p);
    var body2, done2 := body[i := page], done[i := true];
    forall q, c | 0 <= q < p.NNew() && !done2[q] && p.NewStart(q) <= c < p.cntNew[q]
      ensures Reads(ref[c], body2, cells[c])
    {
      assert Reads(ref[c], body, cells[c]);
    }
  }

  lemma WriteProgress<T>(p: Plan, was: seq<seq<T>>, cells: seq<T>, body: seq<seq<T>>, done: seq<bool>, i: nat, page: seq<T>)
    requires p.Ok() && |cells| == p.n && |done| == p.NNew() && i < p.NNew() && i < |body|
    requires Progress(p, was, cells, body, done)
    requires p.NewStart(i) <= p.cntNew[i] <= p.n && page == cells[p.NewStart(i)..p.cntNew[i]]
    ensures Progress(p, was, cells, body[i := page], done[i := true])
  {
    hide Plan.Ok;
  }

  /** editPage as far as content goes: the cells of the page, read through their references. */
  method EditPage<T>(p: Plan, ref: seq<Ref<T>>, ghost cells: seq<T>, body: array<seq<T>>, i: nat, iNew: nat, nNewCell: nat)
    requires i < body.Length && iNew + nNewCell <= |ref| == |cells|
    requires forall c | iNew <= c < iNew + nNewCell :: Reads(ref[c], body[..], cells[c])
    modifies body
    ensures body[..] == old(body[..])[i := cells[iNew..iNew + nNewCell]]
  {
    var page: seq<T> := [];
    for t := 0 to nNewCell
      invariant body[..] == old(body[..]) && page == cells[iNew..iNew + t]
    {
      assert Reads(ref[iNew + t], body[..], cells[iNew + t]);
      var c := match ref[iNew + t] case OnPage(q, at) => body[q][at] case Aside(x) => x;
      page := page + [c];
    }
    body[i] := page;
  }

  method WriteOne<T>(p: Plan, ref: seq<Ref<T>>, ghost cells: seq<T>, body: array<seq<T>>,
                     ghost was: seq<seq<T>>, ghost done: seq<bool>, i: nat, iNew: nat, nNewCell: nat)
    requires p.Ok() && |ref| == |cells| == p.n && |done| == p.NNew() && i < p.NNew() <= body.Length && !done[i]
    requires Readable(p, ref, cells, body[..], done) && Progress(p, was, cells, body[..], done) && Safe(p, ref, done, i)
    requires iNew == p.NewStart(i) && iNew + nNewCell == p.cntNew[i]
    modifies body
    ensures Readable(p, ref, cells, body[..], done[i := true]) && Progress(p, was, cells, body[..], done[i := true])
    ensures body[..] == old(body[..])[i := cells[iNew..p.cntNew[i]]]
  {
    hide Plan.Ok, Reads, Readable, Progress, Safe;
    Bounds(p);
    ghost var b := body[..];
    CanRead(p, ref, cells, b, done, i);
    EditPage(p, ref, cells, body, i, iNew, nNewCell);
    WriteKeeps(p, ref, cells, b, done, i, cells[iNew..p.cntNew[i]]);
    WriteProgress(p, was, cells, b, done, i, cells[iNew..p.cntNew[i]]);
  }

  /** The loop over the siblings: down from the right, then up again. */
  method WritePages<T>(p: Plan, ref: seq<Ref<T>>, ghost cells: seq<T>, body: array<seq<T>>) returns (edits: seq<nat>)
    requires p.Ok() && |ref| == |cells| == p.n && Home(p, ref) && p.NNew() <= body.Length
    requires forall c | 0 <= c < p.n :: Reads(ref[c], body[..], cells[c])
    modifies body
    ensures |edits| == p.NNew() && forall q | 0 <= q < p.NNew() :: edits[q] == 1
    ensures forall q | 0 <= q < p.NNew() ::
              p.NewStart(q) <= p.cntNew[q] <= p.n && body[q] == cells[p.NewStart(q)..p.cntNew[q]]
    ensures forall q | p.NNew() <= q < body.Length :: body[q] == old(body[q])
  {
    hide Plan.Ok, Plan.NewStart, Reads, Home, Readable, Progress, Safe;
    Bounds(p);
    ghost var was := body[..];
    var done := seq(p.NNew(), q => false);
    edits := seq(p.NNew(), q => 0);
    var i: int := 1 - p.NNew();
    StartOk(p, ref, cells, was, done);
    while i < p.NNew()
      invariant 1 - p.NNew() <= i <= p.NNew() && |done| == p.NNew() == |edits|
      invariant forall q | 0 <= q < p.NNew() :: edits[q] == if done[q] then 1 else 0
      invariant Readable(p, ref, cells, body[..], done) && Progress(p, was, cells, body[..], done)
      invariant i <= 0 ==> forall q | 0 <= q <= -i :: !done[q]
      invariant forall q | 0 < q < p.NNew() && !done[q] && (i > 0 || q > -i) :: p.cntOld[q - 1] < p.cntNew[q - 1]
      invariant i > 0 ==> forall q | 0 <= q < i :: done[q]
    {
      var iPg := if i < 0 then -i else i;
      if !done[iPg] && (i >= 0 || p.cntOld[iPg - 1] >= p.cntNew[iPg - 1]) {
        PageSafe(p, ref, done, iPg);
        var iNew := p.NewStart(iPg);
        var nNewCell := p.cntNew[iPg] - iNew;
        WriteOne(p, ref, cells, body, was, done, iPg, iNew, nNewCell);
        done := done[iPg := true];
        edits := edits[iPg := edits[iPg] + 1];
      }
      i := i + 1;
    }
    AllWritten(p, was, cells, body[..], done);
  }

  lemma StartOk<T>(p: Plan, ref: seq<Ref<T>>, cells: seq<T>, was: seq<seq<T>>, done: seq<bool>)
    requires p.Ok() && |ref| == |cells| == p.n && |done| == p.NNew() <= |was| && forall q | 0 <= q < |done| :: !done[q]
    requires forall c | 0 <= c < p.n :: Reads(ref[c], was, cells[c])
    ensures Readable(p, ref, cells, was, done) && Progress(p, was, cells, was, done)
  {
    hide Plan.Ok;
    Bounds(p);
  }

  lemma CanRead<T>(p: Plan, ref: seq<Ref<T>>, cells: seq<T>, body: seq<seq<T>>, done: seq<bool>, i: nat)
    requires p.Ok() && |ref| == |cells| == p.n && |done| == p.NNew() && i < p.NNew() && !done[i]
    requires Readable(p, ref, cells, body, done)
    ensures p.NewStart(i) <= p.cntNew[i] <= p.n
    ensures forall c | p.NewStart(i) <= c < p.cntNew[i] :: Reads(ref[c], body, cells[c])
  {
    hide Plan.Ok, Reads;
    Bounds(p);
  }

  lemma AllWritten<T>(p: Plan, was: seq<seq<T>>, cells: seq<T>, body: seq<seq<T>>, done: seq<bool>)
    requires p.Ok() && |cells| == p.n && |done| == p.NNew() && forall q | 0 <= q < |done| :: done[q]
    requires Progress(p, was, cells, body, done)
    ensures |body| == |was|
    ensures forall q | 0 <= q < p.NNew() ::
              p.NewStart(q) <= p.cntNew[q] <= p.n && q < |body| && body[q] == cells[p.NewStart(q)..p.cntNew[q]]
    ensures forall q | p.NNew() <= q < |was| :: body[q] == was[q]
  {
    hide Plan.Ok;
  }
}
