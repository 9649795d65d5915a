/** Table locks and transactions of the connections that share one b-tree file. */
module SharedCache {
  import opened Options

  datatype Rc = OK | LOCKED

  const NONE: nat := 0
  const READ: nat := 1
  const WRITE: nat := 2
  const MASTER_ROOT: nat := 1

  /** A lock of a handle on the table with this root page: READ or WRITE. */
  datatype Lock = Lock(iTable: nat, h: nat, eLock: nat)

  /** Transaction state of each handle, the locks, and the fields of BtShared. */
  datatype State = State(inTrans: map<nat, nat>, pLock: seq<Lock>, pWriter: Option<nat>, exclusive: bool, pending: bool,
                         inTransaction: nat, nTransaction: nat)

  ghost function Open(inTrans: map<nat, nat>): set<nat> { set h | h in inTrans && inTrans[h] != NONE }

  /** Two locks of different handles on one table, one of them a write-lock. */
  predicate Conflict(a: Lock, b: Lock) { a.iTable == b.iTable && a.h != b.h && (a.eLock == WRITE || b.eLock == WRITE) }

  ghost predicate TransOk(s: State) {
    && (forall h | h in s.inTrans :: s.inTrans[h] <= WRITE)
    && (forall h | h in s.inTrans :: s.inTrans[h] <= s.inTransaction)
    && (s.inTransaction == NONE || exists h :: h in s.inTrans && s.inTrans[h] == s.inTransaction)
    && s.nTransaction == |Open(s.inTrans)|
    && (forall h | h in s.inTrans :: s.inTrans[h] == WRITE <==> s.pWriter == Some(h))
    && (s.pWriter.Some? ==> s.pWriter.value in s.inTrans)
  }

  /** A handle has one lock on a table at most. */
  ghost predicate Unique(a: seq<Lock>) {
    a == [] || (Unique(a[1..]) && forall m | m in a[1..] :: m.iTable != a[0].iTable || m.h != a[0].h)
  }

  ghost predicate LocksOk(s: State) {
    && (forall l | l in s.pLock :: l.h in s.inTrans && READ <= l.eLock <= s.inTrans[l.h] && l.eLock <= WRITE)
    && Unique(s.pLock)
    && (forall h | h in s.inTrans && s.inTrans[h] != NONE :: exists l :: l in s.pLock && l.h == h && l.iTable == MASTER_ROOT)
  }

  /** No locks conflict; an exclusive writer has all the locks; a pending one exists. */
  ghost predicate Safe(s: State) {
    && TransOk(s) && LocksOk(s)
    && (forall a, b | a in s.pLock && b in s.pLock :: !Conflict(a, b))
    && (s.exclusive ==> s.pWriter.Some? && forall l | l in s.pLock :: l.h == s.pWriter.value)
    && (s.pending ==> s.pWriter.Some?)
  }

  /** At most one handle writes, and the shared state is the greatest of those of the handles. */
  lemma OneWriter(s: State, g: nat, h: nat)
    requires Safe(s) && g in s.inTrans && h in s.inTrans && s.inTrans[g] == WRITE
    ensures s.inTransaction == WRITE && (s.inTrans[h] == WRITE ==> g == h)
    ensures s.pWriter == Some(g)
  {
  }

  lemma WriteLocks(s: State, l: Lock)
    requires Safe(s) && l in s.pLock && l.eLock == WRITE
    ensures s.pWriter == Some(l.h)
  {
  }

  /** What a caller of the lock functions has made sure of. */
  ghost predicate MayAsk(s: State, p: nat, eLock: nat) {
    p in s.inTrans && (eLock == READ || (eLock == WRITE && s.pWriter == Some(p)))
  }

  /** The simple test is the full one: a writer meets no other handle's write-lock. */
  lemma SimpleTest(s: State, p: nat, iTab: nat, eLock: nat, l: Lock)
    requires Safe(s) && MayAsk(s, p, eLock) && l in s.pLock
    ensures l.h != p && l.iTable == iTab && l.eLock != eLock <==> Conflict(l, Lock(iTab, p, eLock))
  {
  }

  /** Some other handle is in the way of the transaction that p asks for: it writes, it waits to write, it has everything
      for itself, or it holds a lock that a read-lock on table 1, or the wish to be alone, does not go with. */
  ghost predicate Refused(s: State, p: nat, wrflag: nat)
    requires p in s.inTrans
  {
    && (s.inTrans[p] == NONE || (s.inTrans[p] == READ && wrflag > 0))
    && (s.pending || (s.exclusive && s.pWriter != Some(p)) || (wrflag > 0 && s.pWriter.Some? && s.pWriter != Some(p))
        || (exists l :: l in s.pLock && l.h != p && (wrflag > 1 || Conflict(l, Lock(MASTER_ROOT, p, READ)))))
  }

  /** Only handle p may have other locks than before. */
  ghost predicate OthersKept(a: seq<Lock>, b: seq<Lock>, p: nat) {
    forall l: Lock | l.h != p :: l in b <==> l in a
  }

  /** The kind of lock a handle ends up with that asks for one on a table. */
  function Stronger(a: seq<Lock>, iTable: nat, p: nat, eLock: nat): nat {
    if Lock(iTable, p, WRITE) in a then WRITE else eLock
  }

  /** The locks of p made read-locks, or all given up. */
  ghost predicate OwnLocks(a: seq<Lock>, b: seq<Lock>, p: nat, kept: bool) {
    forall l: Lock | l.h == p :: l in b <==> (kept && l.eLock == READ && exists m :: m in a && m.h == p && m.iTable == l.iTable)
  }

  /** A handle other than the writer has a transaction open. */
  ghost predicate OtherOpenThan(inTrans: map<nat, nat>, writer: Option<nat>) {
    exists h :: h in inTrans && inTrans[h] != NONE && writer != Some(h)
  }

  /** The state after the locks of p are gone. */
  function Cleared(s: State, p: nat): State {
    var left := WithoutLocks(s.pLock, p);
    if s.pWriter == Some(p) then s.(pLock := left, pWriter := None, exclusive := false, pending := false)
    else if s.nTransaction == 2 then s.(pLock := left, pending := false)
    else s.(pLock := left)
  }

  function WithoutLocks(locks: seq<Lock>, p: nat): seq<Lock> {
    if locks == [] then [] else (if locks[0].h == p then [] else [locks[0]]) + WithoutLocks(locks[1..], p)
  }

  /** Every lock made a read-lock. */
  function ReadLocks(locks: seq<Lock>): (r: seq<Lock>)
    ensures |r| == |locks| && forall i | 0 <= i < |r| :: r[i] == locks[i].(eLock := READ)
  {
    seq(|locks|, i requires 0 <= i < |locks| => locks[i].(eLock := READ))
  }

  class Cache {
    var s: State

    constructor (handles: set<nat>)
      ensures Safe(s) && s.inTrans.Keys == handles && s.nTransaction == 0
    {
      s := State(map h | h in handles :: NONE, [], None, false, false, NONE, 0);
    }

    /** querySharedCacheTableLock */
    method Query(p: nat, iTab: nat, eLock: nat) returns (rc: Rc)
      requires Safe(s) && MayAsk(s, p, eLock)
      modifies this
      ensures Safe(s) && s == old(s).(pending := s.pending)
      ensures rc == OK <==> !(s.exclusive && s.pWriter != Some(p)) && forall l | l in s.pLock :: !Conflict(l, Lock(iTab, p, eLock))
      ensures s.pending == (old(s.pending) || (rc != OK && eLock == WRITE))
    {
      if s.pWriter != Some(p) && s.exclusive { return LOCKED; }
      for i := 0 to |s.pLock|
        invariant s == old(s)
        invariant forall t | 0 <= t < i :: !Conflict(s.pLock[t], Lock(iTab, p, eLock))
      {
        var l := s.pLock[i];
        assert l in s.pLock;
        SimpleTest(s, p, iTab, eLock, l);
        if l.h != p && l.iTable == iTab && l.eLock != eLock {
          if eLock == WRITE { s := s.(pending := true); }
          return LOCKED;
        }
      }
      rc := OK;
    }

    /** setSharedCacheTableLock, after a query that allowed it */
    method SetLock(p: nat, iTable: nat, eLock: nat)
      requires Safe(s) && MayAsk(s, p, eLock) && s.inTrans[p] != NONE && !(s.exclusive && s.pWriter != Some(p))
      requires forall l | l in s.pLock :: !Conflict(l, Lock(iTable, p, eLock))
      modifies this
      ensures Safe(s) && s == old(s).(pLock := s.pLock)
      ensures Lock(iTable, p, Stronger(old(s.pLock), iTable, p, eLock)) in s.pLock
      ensures forall l | l in s.pLock && l.h == p && l.iTable == iTable :: l.eLock == Stronger(old(s.pLock), iTable, p, eLock)
      ensures forall l: Lock | l.h != p || l.iTable != iTable :: l in s.pLock <==> l in old(s.pLock)
    {
      var k := 0;
      while k < |s.pLock| && !(s.pLock[k].iTable == iTable && s.pLock[k].h == p)
        invariant k <= |s.pLock| && s == old(s)
        invariant forall m | m in s.pLock[..k] :: !(m.iTable == iTable && m.h == p)
      {
        k := k + 1;
      }
      if k == |s.pLock| {
        assert s.pLock[..k] == s.pLock;
        AddLock(s, Lock(iTable, p, eLock));
        s := s.(pLock := [Lock(iTable, p, eLock)] + s.pLock);
        OneLock(s, 0);
      } else if eLock > s.pLock[k].eLock {
        OneLock(s, k);
        RaiseLock(s, k, eLock);
        s := s.(pLock := s.pLock[k := s.pLock[k].(eLock := eLock)]);
        OneLock(s, k);
      } else {
        OneLock(s, k);
      }
    }

    /** sqlite3BtreeBeginTrans, as far as the shared cache goes: wrflag 0 reads, 1 writes, 2 writes exclusively. */
    method BeginTrans(p: nat, wrflag: nat) returns (rc: Rc)
      requires Safe(s) && p in s.inTrans && wrflag <= 2
      modifies this
      ensures Safe(s) && s.inTrans.Keys == old(s.inTrans.Keys)
      ensures rc == OK <==> !old(Refused(s, p, wrflag))
      ensures rc != OK ==> s == old(s)
      ensures rc == OK ==> s.inTrans == old(s.inTrans)[p := if wrflag > 0 || old(s.inTrans[p]) == WRITE then WRITE else READ]
      ensures if rc == OK && wrflag > 0 && old(s.inTrans[p]) != WRITE then s.pWriter == Some(p) && s.exclusive == (wrflag > 1)
              else s.pWriter == old(s.pWriter) && s.exclusive == old(s.exclusive)
      ensures s.pending == old(s.pending)
      ensures forall l :: l in s.pLock <==> l in old(s.pLock) || (rc == OK && old(s.inTrans[p]) == NONE && l == Lock(MASTER_ROOT, p, READ))
    {
      hide Safe;
      WriterState(s);
      if s.inTrans[p] == WRITE || (s.inTrans[p] == READ && wrflag == 0) {
        assert s.inTrans == s.inTrans[p := s.inTrans[p]];
        return OK;
      }
      if (wrflag > 0 && s.inTransaction == WRITE) || s.pending { return LOCKED; }
      if wrflag > 1 {
        var blocked := OtherLock(p);
        if blocked { return LOCKED; }
      }
      QueryOk(s, p);
      rc := Query(p, MASTER_ROOT, READ);
      if rc != OK { return; }
      Begun(s, p, wrflag);
      InCons(s.pLock, Lock(MASTER_ROOT, p, READ));
      s := Begin(s, p, wrflag);
    }

    method OtherLock(p: nat) returns (b: bool)
      ensures b <==> exists l :: l in s.pLock && l.h != p
    {
      for i := 0 to |s.pLock|
        invariant forall t | 0 <= t < i :: s.pLock[t].h == p
      {
        if s.pLock[i].h != p { assert s.pLock[i] in s.pLock; return true; }
      }
      b := false;
    }

    /** sqlite3BtreeLockTable */
    method LockTable(p: nat, iTab: nat, isWriteLock: bool) returns (rc: Rc)
      requires Safe(s) && p in s.inTrans && s.inTrans[p] != NONE && (isWriteLock ==> s.pWriter == Some(p))
      modifies this
      ensures Safe(s) && s == old(s).(pLock := s.pLock, pending := s.pending)
      ensures s.pending == (old(s.pending) || (rc != OK && isWriteLock))
      ensures forall l: Lock | l.h != p || l.iTable != iTab :: l in s.pLock <==> l in old(s.pLock)
      ensures rc == OK <==> (!old(s.exclusive && s.pWriter != Some(p))
                && forall l | l in old(s.pLock) :: !Conflict(l, Lock(iTab, p, if isWriteLock then WRITE else READ)))
      ensures rc == OK ==> Lock(iTab, p, Stronger(old(s.pLock), iTab, p, if isWriteLock then WRITE else READ)) in s.pLock
      ensures rc != OK ==> s.pLock == old(s.pLock)
    {
      hide TransOk, LocksOk;
      rc := Query(p, iTab, if isWriteLock then WRITE else READ);
      if rc == OK {
        SetLock(p, iTab, if isWriteLock then WRITE else READ);
      }
    }

    /** The end of sqlite3BtreeCommitPhaseTwo and of sqlite3BtreeRollback; others: p has other active statements. */
    method EndTransaction(p: nat, others: bool)
      requires Safe(s) && p in s.inTrans
      modifies this
      ensures Safe(s) && s.inTrans == old(s.inTrans)[p := if others && old(s.inTrans[p]) != NONE then READ else NONE]
      ensures s.pWriter == if old(s.pWriter) == Some(p) then None else old(s.pWriter)
      ensures OthersKept(old(s.pLock), s.pLock, p)
      ensures OwnLocks(old(s.pLock), s.pLock, p, others && old(s.inTrans[p]) != NONE)
      ensures s.exclusive == (old(s.exclusive) && old(s.pWriter) != Some(p))
      ensures s.pending == (old(s.pending) && old(s.pWriter) != Some(p)
                && (others || old(s.inTrans[p]) == NONE || OtherOpenThan(s.inTrans, old(s.pWriter))))
    {
      hide Safe, WithoutLocks;
      WriterState(s);
      ghost var was := s;
      OwnReads(s, p);
      if s.pending && s.pWriter != Some(p) && s.inTrans[p] != NONE { TwoOpen(s, p); }
      if s.inTrans[p] == WRITE { s := s.(inTransaction := READ); }
      if s.inTrans[p] > NONE && others {
        if s.pWriter == Some(p) {
          OthersRead(was, p);
          s := s.(pWriter := None, exclusive := false, pending := false, pLock := ReadLocks(s.pLock));
        }
        s := s.(inTrans := s.inTrans[p := READ]);
        Downgraded(was, s, p);
      } else if s.inTrans[p] != NONE {
        InWithout(s.pLock, p);
        s := Cleared(s, p);
        s := s.(nTransaction := s.nTransaction - 1);
        if s.nTransaction == 0 { s := s.(inTransaction := NONE); }
        s := s.(inTrans := s.inTrans[p := NONE]);
        Ended(was, s, p);
      } else {
        assert s.inTrans[p := NONE] == s.inTrans;
      }
    }
  }

  /** The state once the transaction is open: a handle that had none gets its read-lock on table 1. */
  function Begin(s: State, p: nat, wrflag: nat): State
    requires p in s.inTrans
  {
    var s1 := if s.inTrans[p] == NONE then s.(nTransaction := s.nTransaction + 1, pLock := [Lock(MASTER_ROOT, p, READ)] + s.pLock) else s;
    var t := if wrflag > 0 then WRITE else READ;
    var s2 := s1.(inTrans := s1.inTrans[p := t], inTransaction := if t > s1.inTransaction then t else s1.inTransaction);
    if wrflag > 0 then s2.(pWriter := Some(p), exclusive := wrflag > 1) else s2
  }

  // ---- the proofs of lock updates ----

  /** Locks of which each stands for one of before, for the same handle and table. */
  ghost predicate Covers(a: seq<Lock>, b: seq<Lock>) {
    forall m | m in a :: exists n :: n in b && n.h == m.h && n.iTable == m.iTable
  }

  lemma CoversMaster(s: State, b: seq<Lock>)
    requires LocksOk(s) && Covers(s.pLock, b)
    ensures forall h | h in s.inTrans && s.inTrans[h] != NONE :: exists l :: l in b && l.h == h && l.iTable == MASTER_ROOT
  {
    forall h | h in s.inTrans && s.inTrans[h] != NONE ensures exists l :: l in b && l.h == h && l.iTable == MASTER_ROOT {
      var m :| m in s.pLock && m.h == h && m.iTable == MASTER_ROOT;
      var n :| n in b && n.h == m.h && n.iTable == m.iTable;
    }
  }

  lemma AddLock(s: State, l: Lock)
    requires Safe(s) && MayAsk(s, l.h, l.eLock) && s.inTrans[l.h] != NONE && !(s.exclusive && s.pWriter != Some(l.h))
    requires forall m | m in s.pLock :: !Conflict(m, l)
    requires forall m | m in s.pLock :: !(m.iTable == l.iTable && m.h == l.h)
    ensures Safe(s.(pLock := [l] + s.pLock)) && l in [l] + s.pLock
    ensures forall m: Lock | m.h != l.h || m.iTable != l.iTable :: m in [l] + s.pLock <==> m in s.pLock
  {
    hide TransOk, Covers;
    var s2 := s.(pLock := [l] + s.pLock);
    SameTrans(s, s2);
    InCons(s.pLock, l);
    CoversMaster(s, s2.pLock);
    Range(s, l);
  }

  lemma InCons(a: seq<Lock>, l: Lock)
    ensures forall m :: m in [l] + a <==> m == l || m in a
    ensures Covers(a, [l] + a)
    ensures Unique(a) && (forall m | m in a :: !(m.iTable == l.iTable && m.h == l.h)) ==> Unique([l] + a)
  {
    assert ([l] + a)[1..] == a;
    assert forall m | m in a :: m in [l] + a;
  }

  lemma {:induction false} UniqueUpdate(a: seq<Lock>, k: nat, l: Lock)
    requires Unique(a) && k < |a| && a[k].h == l.h && a[k].iTable == l.iTable
    ensures Unique(a[k := l])
  {
    var b := a[k := l];
    if k == 0 {
      assert b[1..] == a[1..];
    } else {
      UniqueUpdate(a[1..], k - 1, l);
      assert b[1..] == a[1..][k - 1 := l];
      forall m | m in b[1..] ensures m.iTable != b[0].iTable || m.h != b[0].h {
        assert a[1..][k - 1] in a[1..];
        assert m == l || m in a[1..];
      }
    }
  }

  lemma {:induction false} UniqueRead(a: seq<Lock>)
    requires Unique(a)
    ensures Unique(ReadLocks(a))
  {
    if a != [] {
      UniqueRead(a[1..]);
      var b := ReadLocks(a);
      assert b[1..] == ReadLocks(a[1..]);
      forall m | m in b[1..] ensures m.iTable != b[0].iTable || m.h != b[0].h {
        var i :| 0 <= i < |b[1..]| && b[1..][i] == m;
        assert a[1..][i] in a[1..];
      }
    }
  }

  lemma OthersRead(s: State, p: nat)
    requires Safe(s) && s.pWriter == Some(p)
    ensures OthersKept(s.pLock, ReadLocks(s.pLock), p)
  {
    hide TransOk;
    var r := ReadLocks(s.pLock);
    forall i | 0 <= i < |r| ensures s.pLock[i].h != p ==> r[i] == s.pLock[i] {
      assert s.pLock[i] in s.pLock;
      if s.pLock[i].eLock == WRITE { WriteLocks(s, s.pLock[i]); }
    }
    forall l: Lock | l.h != p && l in s.pLock ensures l in r {
      var i :| 0 <= i < |r| && s.pLock[i] == l;
      assert r[i] in r;
    }
  }

  /** Own locks, in each way a transaction may end. */
  lemma OwnReads(s: State, p: nat)
    requires Safe(s) && p in s.inTrans
    ensures s.pWriter == Some(p) ==> OwnLocks(s.pLock, ReadLocks(s.pLock), p, true)
    ensures s.pWriter != Some(p) ==> OwnLocks(s.pLock, s.pLock, p, true)
    ensures s.inTrans[p] == NONE ==> OwnLocks(s.pLock, s.pLock, p, false)
    ensures OwnLocks(s.pLock, WithoutLocks(s.pLock, p), p, false)
  {
    hide Unique;
    InWithout(s.pLock, p);
    ReadOwn(s.pLock, p);
    if s.pWriter != Some(p) {
      forall l: Lock | l.h == p && l.eLock == READ && exists m :: m in s.pLock && m.h == p && m.iTable == l.iTable ensures l in s.pLock {
        var m :| m in s.pLock && m.h == p && m.iTable == l.iTable;
        assert m == l;
      }
    }
  }

  lemma ReadOwn(a: seq<Lock>, p: nat)
    ensures OwnLocks(a, ReadLocks(a), p, true)
  {
    var r := ReadLocks(a);
    forall l: Lock | l.h == p ensures l in r <==> l.eLock == READ && exists m :: m in a && m.h == p && m.iTable == l.iTable {
      if l in r {
        var i :| 0 <= i < |r| && r[i] == l;
        assert a[i] in a;
      }
      if l.eLock == READ && exists m :: m in a && m.h == p && m.iTable == l.iTable {
        var m :| m in a && m.h == p && m.iTable == l.iTable;
        var i :| 0 <= i < |a| && a[i] == m;
        assert r[i] == l;
      }
    }
  }

  /** With a pending writer, p is the only other handle with a transaction just if there are two. */
  lemma TwoOpen(s: State, p: nat)
    requires Safe(s) && s.pending && p in s.inTrans && s.inTrans[p] != NONE && s.pWriter != Some(p)
    ensures s.nTransaction == 2 <==> !OtherOpenThan(s.inTrans[p := NONE], s.pWriter)
  {
    hide LocksOk;
    var o, w := Open(s.inTrans), s.pWriter.value;
    assert {p, w} <= o;
    if |o| == 2 {
      var r := o - {p, w};
      assert |r| == 0;
      assert o == {p, w} + r;
      forall h | h in s.inTrans[p := NONE] && s.inTrans[p := NONE][h] != NONE ensures s.pWriter == Some(h) {
        assert h in o;
      }
    } else {
      assert |o - {p, w}| > 0;
      var h :| h in o - {p, w};
      assert h in s.inTrans[p := NONE] && s.inTrans[p := NONE][h] != NONE;
    }
  }

  /** A lock in the list is the only one of its handle on its table. */
  lemma OneLock(s: State, k: nat)
    requires Safe(s) && k < |s.pLock|
    ensures s.pLock[k] in s.pLock && READ <= s.pLock[k].eLock <= WRITE
    ensures forall m | m in s.pLock && m.h == s.pLock[k].h && m.iTable == s.pLock[k].iTable :: m == s.pLock[k]
  {
    hide TransOk;
    UniqueAt(s.pLock, k);
  }

  lemma {:induction false} UniqueAt(a: seq<Lock>, k: nat)
    requires Unique(a) && k < |a|
    ensures forall m | m in a && m.h == a[k].h && m.iTable == a[k].iTable :: m == a[k]
  {
    if k > 0 {
      UniqueAt(a[1..], k - 1);
      assert a[1..][k - 1] == a[k] && a[k] in a[1..];
      forall m | m in a && m.h == a[k].h && m.iTable == a[k].iTable ensures m == a[k] { assert m == a[0] || m in a[1..]; }
    } else {
      assert a == [a[0]] + a[1..];
    }
  }

  lemma {:induction false} InWithout(a: seq<Lock>, p: nat)
    ensures forall l :: l in WithoutLocks(a, p) <==> l in a && l.h != p
  {
    if a != [] { InWithout(a[1..], p); }
  }

  lemma {:induction false} UniqueWithout(a: seq<Lock>, p: nat)
    requires Unique(a)
    ensures Unique(WithoutLocks(a, p))
  {
    if a != [] {
      UniqueWithout(a[1..], p);
      InWithout(a[1..], p);
      var r := WithoutLocks(a[1..], p);
      assert ([a[0]] + r)[1..] == r && [] + r == r;
    }
  }

  lemma Range(s: State, l: Lock)
    requires TransOk(s) && MayAsk(s, l.h, l.eLock) && s.inTrans[l.h] != NONE
    ensures READ <= l.eLock <= s.inTrans[l.h] <= WRITE
  {
  }

  lemma SameTrans(s: State, s2: State)
    requires TransOk(s) && s2 == s.(pLock := s2.pLock)
    ensures TransOk(s2)
  {
  }

  lemma InUpdate(a: seq<Lock>, k: nat, l: Lock)
    requires k < |a| && a[k].h == l.h && a[k].iTable == l.iTable
    ensures l in a[k := l] && forall m | m in a[k := l] :: m == l || m in a
    ensures Covers(a, a[k := l])
    ensures forall m: Lock | m.h != l.h || m.iTable != l.iTable :: m in a[k := l] <==> m in a
  {
    var b := a[k := l];
    assert b[k] == l;
    forall m | m in a ensures exists n :: n in b && n.h == m.h && n.iTable == m.iTable {
      var i :| 0 <= i < |a| && a[i] == m;
      assert b[i] in b;
    }
    forall m: Lock | m.h != l.h || m.iTable != l.iTable ensures m in b <==> m in a {
      if m in a {
        var i :| 0 <= i < |a| && a[i] == m;
        assert b[i] == m;
      }
    }
  }

  lemma RaiseLock(s: State, k: nat, eLock: nat)
    requires Safe(s) && k < |s.pLock| && MayAsk(s, s.pLock[k].h, eLock) && s.inTrans[s.pLock[k].h] != NONE && eLock > s.pLock[k].eLock
    requires forall m | m in s.pLock :: !Conflict(m, s.pLock[k].(eLock := eLock))
    ensures var l := s.pLock[k].(eLock := eLock);
      && Safe(s.(pLock := s.pLock[k := l])) && l in s.pLock[k := l]
      && forall m: Lock | m.h != l.h || m.iTable != l.iTable :: m in s.pLock[k := l] <==> m in s.pLock
  {
    hide TransOk, Covers;
    var l := s.pLock[k].(eLock := eLock);
    var s2 := s.(pLock := s.pLock[k := l]);
    SameTrans(s, s2);
    InUpdate(s.pLock, k, l);
    UniqueUpdate(s.pLock, k, l);
    CoversMaster(s, s2.pLock);
    Range(s, l);
    assert s.pLock[k] in s.pLock;
  }

  // ---- the proofs of transaction steps ----

  lemma WriterState(s: State)
    requires Safe(s)
    ensures s.inTransaction == WRITE <==> s.pWriter.Some?
    ensures s.pending || s.exclusive ==> s.pWriter.Some?
    ensures forall h | h in s.inTrans :: s.inTrans[h] <= WRITE && (s.inTrans[h] == WRITE <==> s.pWriter == Some(h))
    ensures forall h | h in s.inTrans && s.inTrans[h] != NONE :: s.nTransaction > 0
  {
    hide LocksOk;
    forall h | h in s.inTrans && s.inTrans[h] != NONE ensures s.nTransaction > 0 { SomeOpen(s, h); }
  }

  lemma QueryOk(s: State, p: nat)
    requires Safe(s) && p in s.inTrans
    ensures MayAsk(s, p, READ)
  {
  }

  lemma OpenChange(inTrans: map<nat, nat>, p: nat, t: nat)
    requires p in inTrans
    ensures t != NONE && inTrans[p] == NONE ==> |Open(inTrans[p := t])| == |Open(inTrans)| + 1
    ensures t != NONE && inTrans[p] != NONE ==> |Open(inTrans[p := t])| == |Open(inTrans)|
    ensures t == NONE && inTrans[p] != NONE ==> |Open(inTrans[p := t])| == |Open(inTrans)| - 1
  {
    if t != NONE { assert Open(inTrans[p := t]) == Open(inTrans) + {p}; } else { assert Open(inTrans[p := t]) == Open(inTrans) - {p}; }
  }

  lemma BegunTrans(s: State, p: nat, wrflag: nat)
    requires TransOk(s) && p in s.inTrans && (s.inTrans[p] == NONE || (s.inTrans[p] == READ && wrflag > 0))
    requires wrflag > 0 ==> s.pWriter.None?
    ensures TransOk(Begin(s, p, wrflag))
  {
    var t := if wrflag > 0 then WRITE else READ;
    var s2 := Begin(s, p, wrflag);
    OpenChange(s.inTrans, p, t);
    if s2.inTransaction == t {
      assert s2.inTrans[p] == t;
    } else {
      var h :| h in s.inTrans && s.inTrans[h] == s.inTransaction;
      assert s2.inTrans[h] == s2.inTransaction;
    }
  }

  lemma BegunLocks(s: State, p: nat, wrflag: nat)
    requires TransOk(s) && LocksOk(s) && p in s.inTrans && (s.inTrans[p] == NONE || (s.inTrans[p] == READ && wrflag > 0))
    ensures LocksOk(Begin(s, p, wrflag))
  {
    hide TransOk, Covers, Unique;
    var s2, l := Begin(s, p, wrflag), Lock(MASTER_ROOT, p, READ);
    InCons(s.pLock, l);
    forall h | h in s2.inTrans && s2.inTrans[h] != NONE ensures exists m :: m in s2.pLock && m.h == h && m.iTable == MASTER_ROOT {
      if h == p && s.inTrans[p] == NONE {
        assert l in s2.pLock;
      } else {
        var m :| m in s.pLock && m.h == h && m.iTable == MASTER_ROOT;
        assert m in s2.pLock;
      }
    }
  }

  lemma Begun(s: State, p: nat, wrflag: nat)
    requires Safe(s) && p in s.inTrans && (s.inTrans[p] == NONE || (s.inTrans[p] == READ && wrflag > 0)) && !s.pending
    requires wrflag > 0 ==> s.inTransaction != WRITE
    requires wrflag > 1 ==> forall l | l in s.pLock :: l.h == p
    requires !(s.exclusive && s.pWriter != Some(p)) && forall l | l in s.pLock :: !Conflict(l, Lock(MASTER_ROOT, p, READ))
    ensures Safe(Begin(s, p, wrflag)) && Begin(s, p, wrflag).inTrans == s.inTrans[p := if wrflag > 0 then WRITE else READ]
  {
    hide TransOk, LocksOk, Covers;
    WriterState(s);
    BegunTrans(s, p, wrflag);
    BegunLocks(s, p, wrflag);
    InCons(s.pLock, Lock(MASTER_ROOT, p, READ));
  }

  lemma OtherOpen(inTrans: map<nat, nat>, p: nat) returns (h: nat)
    requires p in inTrans && |Open(inTrans[p := NONE])| > 0
    ensures h in inTrans && h != p && inTrans[h] != NONE
  {
    var o := Open(inTrans[p := NONE]);
    assert o != {};
    h :| h in o;
  }

  /** The transaction part after p has given up writing, or ended. */
  ghost predicate Left(s: State, s2: State, p: nat, t: nat)
    requires p in s.inTrans
  {
    && s2.inTrans == s.inTrans[p := t] && t <= READ && s.inTrans[p] != NONE
    && s2.pWriter == (if s.pWriter == Some(p) then None else s.pWriter)
    && s2.nTransaction == (if t == NONE then s.nTransaction - 1 else s.nTransaction)
    && s2.inTransaction == (if t == NONE && s2.nTransaction == 0 then NONE else if s.inTrans[p] == WRITE then READ else s.inTransaction)
  }

  lemma LeftTrans(s: State, s2: State, p: nat, t: nat)
    requires TransOk(s) && p in s.inTrans && s.nTransaction > 0 && Left(s, s2, p, t)
    ensures TransOk(s2)
  {
    OpenChange(s.inTrans, p, t);
    if t == NONE && s2.nTransaction > 0 {
      var h := OtherOpen(s.inTrans, p);
      if s.inTrans[p] != WRITE {
        var g :| g in s.inTrans && s.inTrans[g] == s.inTransaction;
        assert s2.inTrans[if g == p then h else g] == s2.inTransaction;
      } else {
        assert s2.inTrans[h] == READ;
      }
    } else if t == NONE {
      forall h | h in s2.inTrans ensures s2.inTrans[h] == NONE { assert h in Open(s2.inTrans) ==> Open(s2.inTrans) != {}; }
    } else {
      assert s2.inTrans[p] == READ;
      if s.inTrans[p] != WRITE {
        var g :| g in s.inTrans && s.inTrans[g] == s.inTransaction;
        assert s2.inTrans[g] == s2.inTransaction;
      }
    }
  }

  lemma SomeOpen(s: State, p: nat)
    requires TransOk(s) && p in s.inTrans && s.inTrans[p] != NONE
    ensures s.nTransaction > 0
  {
    assert p in Open(s.inTrans);
  }

  lemma Downgraded(s: State, s2: State, p: nat)
    requires Safe(s) && p in s.inTrans && s.inTrans[p] != NONE && Left(s, s2, p, READ)
    requires if s.pWriter == Some(p) then !s2.exclusive && !s2.pending && s2.pLock == ReadLocks(s.pLock)
             else s2.exclusive == s.exclusive && s2.pending == s.pending && s2.pLock == s.pLock
    ensures Safe(s2)
  {
    hide TransOk, LocksOk;
    SomeOpen(s, p);
    LeftTrans(s, s2, p, READ);
    WriterState(s);
    if s.pWriter == Some(p) {
      ReadLocksOk(s, s2, p);
    } else {
      SameLocksOk(s, s2, p);
    }
  }

  lemma ReadLocksOk(s: State, s2: State, p: nat)
    requires Safe(s) && s.pWriter == Some(p) && s2.inTrans == s.inTrans[p := READ] && p in s.inTrans && s2.pLock == ReadLocks(s.pLock)
    requires s.inTrans[p] == WRITE
    ensures LocksOk(s2) && forall a, b | a in s2.pLock && b in s2.pLock :: !Conflict(a, b)
  {
    hide TransOk;
    UniqueRead(s.pLock);
    assert forall i | 0 <= i < |s.pLock| :: s.pLock[i] in s.pLock;
    forall h | h in s2.inTrans && s2.inTrans[h] != NONE ensures exists m :: m in s2.pLock && m.h == h && m.iTable == MASTER_ROOT {
      var m :| m in s.pLock && m.h == h && m.iTable == MASTER_ROOT;
      var i :| 0 <= i < |s.pLock| && s.pLock[i] == m;
      assert s2.pLock[i] in s2.pLock;
    }
  }

  lemma SameLocksOk(s: State, s2: State, p: nat)
    requires Safe(s) && s.pWriter != Some(p) && p in s.inTrans && s.inTrans[p] == READ && s2.inTrans == s.inTrans[p := READ] && s2.pLock == s.pLock
    ensures LocksOk(s2)
  {
    assert s2.inTrans == s.inTrans;
  }

  lemma EndedLocks(s: State, s2: State, p: nat)
    requires LocksOk(s) && p in s.inTrans && s2.inTrans == s.inTrans[p := NONE] && s2.pLock == WithoutLocks(s.pLock, p)
    ensures LocksOk(s2)
  {
    UniqueWithout(s.pLock, p);
    InWithout(s.pLock, p);
    forall h | h in s2.inTrans && s2.inTrans[h] != NONE ensures exists m :: m in s2.pLock && m.h == h && m.iTable == MASTER_ROOT {
      var m :| m in s.pLock && m.h == h && m.iTable == MASTER_ROOT;
      assert m in s2.pLock;
    }
  }

  lemma Ended(s: State, s2: State, p: nat)
    requires Safe(s) && p in s.inTrans && s.inTrans[p] != NONE && Left(s, s2, p, NONE) && s2.pLock == WithoutLocks(s.pLock, p)
    requires if s.pWriter == Some(p) then !s2.exclusive && !s2.pending
             else s2.exclusive == s.exclusive && (s2.pending ==> s.pending)
    ensures Safe(s2)
  {
    hide TransOk, LocksOk;
    SomeOpen(s, p);
    LeftTrans(s, s2, p, NONE);
    InWithout(s.pLock, p);
    EndedLocks(s, s2, p);
  }

  // ---- every reachable state ----

  datatype Op = BeginOp(p: nat, wrflag: nat) | LockOp(p: nat, iTab: nat, isWriteLock: bool) | EndOp(p: nat, others: bool)

  /** The connections do what they like, as long as each asks only for what it may ask for. */
  method Run(c: Cache, ops: seq<Op>)
    requires Safe(c.s)
    modifies c
    ensures Safe(c.s) && c.s.inTrans.Keys == old(c.s.inTrans.Keys)
  {
    hide Safe;
    for i := 0 to |ops|
      invariant Safe(c.s) && c.s.inTrans.Keys == old(c.s.inTrans.Keys)
    {
      var op := ops[i];
      if op.p in c.s.inTrans {
        match op
        case BeginOp(p, w) => if w <= 2 { var rc := c.BeginTrans(p, w); }
        case LockOp(p, t, w) => if c.s.inTrans[p] != NONE && (w ==> c.s.pWriter == Some(p)) { var rc := c.LockTable(p, t, w); }
        case EndOp(p, o) => c.EndTransaction(p, o);
      }
    }
  }
}
