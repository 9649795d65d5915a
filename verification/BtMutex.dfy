/** The mutexes of shared b-trees as the connections of several threads lock them. */
module BtMutex {

  /** Where a connection is in sqlite3BtreeEnter for its handle number i. */
  datatype Pc =
    | Out
    | Trying(i: nat)
    | Releasing(i: nat, j: nat)
    | Waiting(i: nat)
    | Relocking(i: nat, j: nat)

  /** A connection: the addresses of its sharable BtShared objects in list order, and for each wantToLock and locked. */
  datatype Conn = Conn(addr: seq<nat>, want: seq<nat>, locked: seq<bool>, pc: Pc) {
    predicate Shape() {
      |want| == |addr| && |locked| == |addr| && forall i, j | 0 <= i < j < |addr| :: addr[i] < addr[j]
    }
  }

  /** owner: the connection that holds each mutex that is held. */
  datatype State = State(conns: seq<Conn>, owner: map<nat, nat>)

  /** Handles before lim are locked just if they are wanted, those from lim on not at all. */
  predicate LockedTo(c: Conn, lim: nat)
    requires c.Shape()
  {
    forall k | 0 <= k < |c.addr| :: c.locked[k] <==> c.want[k] > 0 && k < lim
  }

  predicate PcOk(c: Conn)
    requires c.Shape()
  {
    var n := |c.addr|;
    match c.pc
    case Out => LockedTo(c, n)
    case Trying(i) => i < n && c.want[i] > 0 && !c.locked[i] && forall k | 0 <= k < n && k != i :: c.locked[k] <==> c.want[k] > 0
    case Releasing(i, j) => i < j <= n && c.want[i] > 0 && forall k | 0 <= k < n :: c.locked[k] <==> c.want[k] > 0 && (k < i || k >= j)
    case Waiting(i) => i < n && c.want[i] > 0 && LockedTo(c, i)
    case Relocking(i, j) => i < j <= n && LockedTo(c, j)
  }

  /** Connection c holds the mutex at address a. */
  ghost predicate Holds(c: Conn, a: nat)
    requires c.Shape()
  {
    exists k :: 0 <= k < |c.addr| && c.addr[k] == a && c.locked[k]
  }

  ghost predicate Shapes(s: State) { forall c | 0 <= c < |s.conns| :: s.conns[c].Shape() }

  /** The owner of a mutex is the connection with the locked flag set. */
  ghost predicate Owners(s: State)
    requires Shapes(s)
  {
    && (forall a | a in s.owner :: s.owner[a] < |s.conns| && Holds(s.conns[s.owner[a]], a))
    && (forall c, k | 0 <= c < |s.conns| && 0 <= k < |s.conns[c].addr| && s.conns[c].locked[k] ::
          s.conns[c].addr[k] in s.owner && s.owner[s.conns[c].addr[k]] == c)
  }

  ghost predicate Inv(s: State) {
    Shapes(s) && (forall c | 0 <= c < |s.conns| :: PcOk(s.conns[c])) && Owners(s)
  }

  // ---- steps ----

  function SetConn(s: State, c: nat, x: Conn): State
    requires c < |s.conns|
  {
    s.(conns := s.conns[c := x])
  }

  /** Handle k gets its mutex, which is free. */
  function Take(s: State, c: nat, k: nat, pc: Pc): State
    requires c < |s.conns| && s.conns[c].Shape() && k < |s.conns[c].addr|
  {
    var x := s.conns[c];
    State(s.conns[c := x.(locked := x.locked[k := true], pc := pc)], s.owner[x.addr[k] := c])
  }

  /** Handle k gives its mutex up. */
  function Drop(s: State, c: nat, k: nat, pc: Pc): State
    requires c < |s.conns| && s.conns[c].Shape() && k < |s.conns[c].addr|
  {
    var x := s.conns[c];
    State(s.conns[c := x.(locked := x.locked[k := false], pc := pc)], s.owner - {x.addr[k]})
  }

  /** sqlite3BtreeEnter up to the point where a mutex is needed. */
  function Enter(s: State, c: nat, i: nat): State
    requires c < |s.conns| && s.conns[c].Shape() && i < |s.conns[c].addr|
  {
    var x := s.conns[c];
    var y := x.(want := x.want[i := x.want[i] + 1]);
    SetConn(s, c, if x.locked[i] then y else y.(pc := Trying(i)))
  }

  /** sqlite3BtreeLeave */
  function Leave(s: State, c: nat, i: nat): State
    requires c < |s.conns| && s.conns[c].Shape() && i < |s.conns[c].addr| && s.conns[c].want[i] > 0
  {
    var x := s.conns[c];
    var s2 := SetConn(s, c, x.(want := x.want[i := x.want[i] - 1]));
    if x.want[i] == 1 then Drop(s2, c, i, x.pc) else s2
  }

  /** The mutex a connection cannot go on without, if it is at such a point. */
  function Needs(x: Conn): (r: seq<nat>)
    requires x.Shape() && PcOk(x)
    ensures |r| <= 1
  {
    match x.pc
    case Waiting(i) => [x.addr[i]]
    case Relocking(i, j) => if j < |x.addr| && x.want[j] > 0 then [x.addr[j]] else []
    case _ => []
  }

  predicate Blocked(s: State, c: nat)
    requires c < |s.conns| && s.conns[c].Shape() && PcOk(s.conns[c])
  {
    Needs(s.conns[c]) != [] && Needs(s.conns[c])[0] in s.owner
  }

  /** The next step of btreeLockCarefully, for a connection that is in it and not blocked. */
  function Advance(s: State, c: nat): State
    requires c < |s.conns| && s.conns[c].Shape() && PcOk(s.conns[c]) && s.conns[c].pc != Out && !Blocked(s, c)
  {
    var x := s.conns[c];
    match x.pc
    case Trying(i) => if x.addr[i] in s.owner then SetConn(s, c, x.(pc := Releasing(i, i + 1))) else Take(s, c, i, Out)
    case Releasing(i, j) =>
      if j == |x.addr| then SetConn(s, c, x.(pc := Waiting(i)))
      else if x.locked[j] then Drop(s, c, j, Releasing(i, j + 1))
      else SetConn(s, c, x.(pc := Releasing(i, j + 1)))
    case Waiting(i) => Take(s, c, i, Relocking(i, i + 1))
    case Relocking(i, j) =>
      if j == |x.addr| then SetConn(s, c, x.(pc := Out))
      else if x.want[j] > 0 then Take(s, c, j, Relocking(i, j + 1))
      else SetConn(s, c, x.(pc := Relocking(i, j + 1)))
  }

  /** One step of any connection. */
  ghost predicate Next(s: State, s2: State)
    requires Inv(s)
  {
    exists c | 0 <= c < |s.conns| ::
      || (exists i | 0 <= i < |s.conns[c].addr| :: s.conns[c].pc == Out && s2 == Enter(s, c, i))
      || (exists i | 0 <= i < |s.conns[c].addr| :: s.conns[c].pc == Out && s.conns[c].want[i] > 0 && s2 == Leave(s, c, i))
      || (s.conns[c].pc != Out && !Blocked(s, c) && s2 == Advance(s, c))
  }

  // ---- every step keeps the invariant ----

  lemma SameOwners(s: State, c: nat, x: Conn)
    requires Shapes(s) && Owners(s) && c < |s.conns| && x.Shape() && x.addr == s.conns[c].addr && x.locked == s.conns[c].locked
    ensures Shapes(SetConn(s, c, x)) && Owners(SetConn(s, c, x))
  {
    forall a | a in s.owner ensures Holds(SetConn(s, c, x).conns[s.owner[a]], a) {
      var k :| 0 <= k < |s.conns[s.owner[a]].addr| && s.conns[s.owner[a]].addr[k] == a && s.conns[s.owner[a]].locked[k];
      assert SetConn(s, c, x).conns[s.owner[a]].addr[k] == a;
    }
  }

  lemma TakeOwners(s: State, c: nat, k: nat, pc: Pc)
    requires Shapes(s) && Owners(s) && c < |s.conns| && k < |s.conns[c].addr| && s.conns[c].addr[k] !in s.owner
    ensures Shapes(Take(s, c, k, pc)) && Owners(Take(s, c, k, pc))
  {
    hide Holds;
    var s2, b := Take(s, c, k, pc), s.conns[c].addr[k];
    forall a | a in s2.owner ensures s2.owner[a] < |s2.conns| && Holds(s2.conns[s2.owner[a]], a) { TakeHolds(s, c, k, pc, a); }
    forall d, j | 0 <= d < |s2.conns| && 0 <= j < |s2.conns[d].addr| && s2.conns[d].locked[j]
      ensures s2.conns[d].addr[j] in s2.owner && s2.owner[s2.conns[d].addr[j]] == d
    {
      if d != c || j != k { assert s.conns[d].locked[j]; }
    }
  }

  lemma TakeHolds(s: State, c: nat, k: nat, pc: Pc, a: nat)
    requires Shapes(s) && Owners(s) && c < |s.conns| && k < |s.conns[c].addr| && s.conns[c].addr[k] !in s.owner
    requires a in Take(s, c, k, pc).owner
    ensures var s2 := Take(s, c, k, pc); s2.owner[a] < |s2.conns| && s2.conns[s2.owner[a]].Shape() && Holds(s2.conns[s2.owner[a]], a)
  {
    var s2, b := Take(s, c, k, pc), s.conns[c].addr[k];
    if a == b {
      assert s2.conns[c].addr[k] == b && s2.conns[c].locked[k];
    } else {
      var j :| 0 <= j < |s.conns[s.owner[a]].addr| && s.conns[s.owner[a]].addr[j] == a && s.conns[s.owner[a]].locked[j];
      assert s2.conns[s2.owner[a]].addr[j] == a;
    }
  }

  lemma DropOwners(s: State, c: nat, k: nat, pc: Pc)
    requires Shapes(s) && Owners(s) && c < |s.conns| && k < |s.conns[c].addr| && s.conns[c].locked[k]
    ensures Shapes(Drop(s, c, k, pc)) && Owners(Drop(s, c, k, pc))
  {
    var s2, b := Drop(s, c, k, pc), s.conns[c].addr[k];
    forall a | a in s2.owner ensures s2.owner[a] < |s2.conns| && Holds(s2.conns[s2.owner[a]], a) {
      var j :| 0 <= j < |s.conns[s.owner[a]].addr| && s.conns[s.owner[a]].addr[j] == a && s.conns[s.owner[a]].locked[j];
      assert s2.conns[s2.owner[a]].addr[j] == a;
    }
    forall d, j | 0 <= d < |s2.conns| && 0 <= j < |s2.conns[d].addr| && s2.conns[d].locked[j]
      ensures s2.conns[d].addr[j] in s2.owner && s2.owner[s2.conns[d].addr[j]] == d
    {
      assert s.conns[d].locked[j];
    }
  }

  lemma EnterKeeps(s: State, c: nat, i: nat)
    requires Inv(s) && c < |s.conns| && i < |s.conns[c].addr| && s.conns[c].pc == Out
    ensures Inv(Enter(s, c, i))
  {
    hide Owners;
    SameOwners(s, c, Enter(s, c, i).conns[c]);
  }

  lemma LeaveKeeps(s: State, c: nat, i: nat)
    requires Inv(s) && c < |s.conns| && i < |s.conns[c].addr| && s.conns[c].pc == Out && s.conns[c].want[i] > 0
    ensures Inv(Leave(s, c, i))
  {
    hide Owners;
    var x := s.conns[c];
    var y := x.(want := x.want[i := x.want[i] - 1]);
    SameOwners(s, c, y);
    if x.want[i] == 1 { DropOwners(SetConn(s, c, y), c, i, x.pc); }
  }

  /** The connection itself stays consistent with where it is. */
  lemma AdvanceLocal(s: State, c: nat)
    requires c < |s.conns| && s.conns[c].Shape() && PcOk(s.conns[c]) && s.conns[c].pc != Out && !Blocked(s, c)
    ensures var s2 := Advance(s, c);
      |s2.conns| == |s.conns| && s2.conns[c].Shape() && PcOk(s2.conns[c]) && forall d | 0 <= d < |s.conns| && d != c :: s2.conns[d] == s.conns[d]
  {
  }

  lemma AdvanceOwners(s: State, c: nat)
    requires Shapes(s) && Owners(s) && c < |s.conns| && PcOk(s.conns[c]) && s.conns[c].pc != Out && !Blocked(s, c)
    ensures Shapes(Advance(s, c)) && Owners(Advance(s, c))
  {
    hide Owners, Shapes, LockedTo;
    var x := s.conns[c];
    ShapeOf(s, c);
    match x.pc
    case Trying(i) =>
      if x.addr[i] in s.owner { SameOwners(s, c, x.(pc := Releasing(i, i + 1))); } else { TakeOwners(s, c, i, Out); }
    case Releasing(i, j) =>
      if j == |x.addr| { SameOwners(s, c, x.(pc := Waiting(i))); }
      else if x.locked[j] { DropOwners(s, c, j, Releasing(i, j + 1)); }
      else { SameOwners(s, c, x.(pc := Releasing(i, j + 1))); }
    case Waiting(i) => TakeOwners(s, c, i, Relocking(i, i + 1));
    case Relocking(i, j) =>
      if j == |x.addr| { SameOwners(s, c, x.(pc := Out)); }
      else if x.want[j] > 0 { TakeOwners(s, c, j, Relocking(i, j + 1)); }
      else { SameOwners(s, c, x.(pc := Relocking(i, j + 1))); }
  }

  lemma ShapeOf(s: State, c: nat)
    requires Shapes(s) && c < |s.conns|
    ensures s.conns[c].Shape()
  {
  }

  lemma AdvanceKeeps(s: State, c: nat)
    requires Inv(s) && c < |s.conns| && s.conns[c].pc != Out && !Blocked(s, c)
    ensures Inv(Advance(s, c))
  {
    hide Owners, PcOk, Advance, Conn.Shape;
    AdvanceLocal(s, c);
    AdvanceOwners(s, c);
  }

  lemma NextKeeps(s: State, s2: State)
    requires Inv(s) && Next(s, s2)
    ensures Inv(s2)
  {
    hide Owners, PcOk, Enter, Leave, Advance;
    var c :| 0 <= c < |s.conns| && (
      || (exists i | 0 <= i < |s.conns[c].addr| :: s.conns[c].pc == Out && s2 == Enter(s, c, i))
      || (exists i | 0 <= i < |s.conns[c].addr| :: s.conns[c].pc == Out && s.conns[c].want[i] > 0 && s2 == Leave(s, c, i))
      || (s.conns[c].pc != Out && !Blocked(s, c) && s2 == Advance(s, c)));
    if exists i | 0 <= i < |s.conns[c].addr| :: s.conns[c].pc == Out && s2 == Enter(s, c, i) {
      var i :| 0 <= i < |s.conns[c].addr| && s.conns[c].pc == Out && s2 == Enter(s, c, i);
      EnterKeeps(s, c, i);
    } else if exists i | 0 <= i < |s.conns[c].addr| :: s.conns[c].pc == Out && s.conns[c].want[i] > 0 && s2 == Leave(s, c, i) {
      var i :| 0 <= i < |s.conns[c].addr| && s.conns[c].pc == Out && s.conns[c].want[i] > 0 && s2 == Leave(s, c, i);
      LeaveKeeps(s, c, i);
    } else {
      AdvanceKeeps(s, c);
    }
  }

  /** Every connection has its handles in a list by address, and no mutex is held. */
  ghost predicate Idle(s: State) {
    && Shapes(s) && s.owner == map[]
    && (forall c, k | 0 <= c < |s.conns| && 0 <= k < |s.conns[c].addr| :: s.conns[c].want[k] == 0 && !s.conns[c].locked[k])
    && forall c | 0 <= c < |s.conns| :: s.conns[c].pc == Out
  }

  /** The invariant holds over every run that starts with no mutex held. */
  lemma Reachable(run: seq<State>)
    requires run != [] && Idle(run[0]) && forall t | 0 <= t < |run| - 1 :: Inv(run[t]) ==> Next(run[t], run[t + 1])
    ensures forall t | 0 <= t < |run| :: Inv(run[t])
  {
    hide Next;
    RunKeeps(run);
  }

  lemma {:induction false} RunKeeps(run: seq<State>)
    requires run != [] && Inv(run[0]) && forall t | 0 <= t < |run| - 1 :: Inv(run[t]) ==> Next(run[t], run[t + 1])
    ensures forall t | 0 <= t < |run| :: Inv(run[t])
  {
    hide Inv, Next;
    if |run| > 1 {
      var init := run[..|run| - 1];
      RunKeeps(init);
      assert init[|run| - 2] == run[|run| - 2];
      NextKeeps(run[|run| - 2], run[|run| - 1]);
      forall t | 0 <= t < |run| ensures Inv(run[t]) {
        if t < |run| - 1 { assert init[t] == run[t]; }
      }
    }
  }

  // ---- what the invariant is for ----

  /** Outside of Enter a connection holds just the mutexes it wants; so a handle just entered is locked. */
  lemma EnterLocks(s: State, c: nat, i: nat)
    requires Inv(s) && c < |s.conns| && s.conns[c].pc == Out && i < |s.conns[c].addr|
    ensures s.conns[c].locked[i] <==> s.conns[c].want[i] > 0
    ensures s.conns[c].want[i] > 0 ==> s.conns[c].addr[i] in s.owner && s.owner[s.conns[c].addr[i]] == c
  {
  }

  /** sqlite3BtreeEnterAll: entered one after the other, while other connections take steps, all handles end up locked. */
  lemma EnterAllLocks(s: State, c: nat)
    requires Inv(s) && c < |s.conns| && s.conns[c].pc == Out && forall i | 0 <= i < |s.conns[c].addr| :: s.conns[c].want[i] > 0
    ensures forall i | 0 <= i < |s.conns[c].addr| :: s.conns[c].addr[i] in s.owner && s.owner[s.conns[c].addr[i]] == c
  {
    forall i | 0 <= i < |s.conns[c].addr| ensures s.conns[c].addr[i] in s.owner && s.owner[s.conns[c].addr[i]] == c { EnterLocks(s, c, i); }
  }

  /** A connection that is done with all its handles holds no mutex. */
  lemma LeaveAllFrees(s: State, c: nat)
    requires Inv(s) && c < |s.conns| && s.conns[c].pc == Out && forall i | 0 <= i < |s.conns[c].addr| :: s.conns[c].want[i] == 0
    ensures forall a | a in s.owner :: s.owner[a] != c
  {
    forall a | a in s.owner ensures s.owner[a] != c { assert Holds(s.conns[s.owner[a]], a); }
  }

  /** A connection that waits for a mutex holds only mutexes at smaller addresses. */
  lemma HoldsSmaller(s: State, c: nat, a: nat)
    requires Inv(s) && c < |s.conns| && Needs(s.conns[c]) != [] && a in s.owner && s.owner[a] == c
    ensures a < Needs(s.conns[c])[0]
  {
    var x := s.conns[c];
    var k :| 0 <= k < |x.addr| && x.addr[k] == a && x.locked[k];
    match x.pc
    case Waiting(i) => assert k < i;
    case Relocking(i, j) => assert k < j;
    case _ =>
  }

  ghost function BlockedSet(s: State): set<nat>
    requires Inv(s)
  {
    set c | 0 <= c < |s.conns| && Blocked(s, c)
  }

  lemma {:induction false} Highest(s: State, cs: set<nat>) returns (c: nat)
    requires Inv(s) && cs != {} && cs <= BlockedSet(s)
    ensures c in cs && forall d | d in cs :: Needs(s.conns[d])[0] <= Needs(s.conns[c])[0]
    decreases cs
  {
    hide Owners, PcOk, Needs;
    var d :| d in cs;
    if cs == {d} {
      c := d;
    } else {
      var e := Highest(s, cs - {d});
      c := if Needs(s.conns[d])[0] <= Needs(s.conns[e])[0] then e else d;
    }
  }

  /** No deadlock: whenever connections are blocked, one of them waits for a connection that is not. */
  lemma NoDeadlock(s: State) returns (c: nat, d: nat)
    requires Inv(s) && BlockedSet(s) != {}
    ensures c in BlockedSet(s) && d < |s.conns| && s.owner[Needs(s.conns[c])[0]] == d
    ensures d !in BlockedSet(s) && d != c
  {
    c := Highest(s, BlockedSet(s));
    var a := Needs(s.conns[c])[0];
    d := s.owner[a];
    if d in BlockedSet(s) { HoldsSmaller(s, d, a); }
  }

  // ---- the list of a connection's handles ----

  predicate Ascending(addr: seq<nat>) { forall i, j | 0 <= i < j < |addr| :: addr[i] < addr[j] }

  /** sqlite3BtreeOpen puts a new handle into the list of its connection, in the order of addresses. */
  method Link(list: seq<nat>, pBt: nat) returns (linked: seq<nat>)
    requires Ascending(list) && pBt !in list
    ensures Ascending(linked) && multiset(linked) == multiset(list) + multiset{pBt}
  {
    if list == [] { return [pBt]; }
    if pBt < list[0] {
      return [pBt] + list;
    }
    var i := 0;
    while i + 1 < |list| && list[i + 1] < pBt
      invariant i < |list| && list[i] <= pBt
    {
      i := i + 1;
    }
    Between(list, i, pBt);
    linked := list[..i + 1] + [pBt] + list[i + 1..];
  }

  lemma Between(list: seq<nat>, i: nat, x: nat)
    requires Ascending(list) && i < |list| && list[i] <= x && x !in list && (i + 1 < |list| ==> list[i + 1] >= x)
    ensures Ascending(list[..i + 1] + [x] + list[i + 1..])
    ensures multiset(list[..i + 1] + [x] + list[i + 1..]) == multiset(list) + multiset{x}
  {
    var r := list[..i + 1] + [x] + list[i + 1..];
    assert list == list[..i + 1] + list[i + 1..];
    assert list[i] != x && (i + 1 < |list| ==> list[i + 1] != x);
    forall k | 0 <= k < |r| ensures r[k] == if k <= i then list[k] else if k == i + 1 then x else list[k - 1] {}
    forall k | 0 <= k < |list| ensures k <= i ==> list[k] < x {}
    forall k | 0 <= k < |list| ensures k > i ==> list[k] > x {}
  }
}
