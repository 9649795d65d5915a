/** Cells: written with their overflow chain, parsed back, and measured. */
module Cells {
  import opened Bytes
  import opened Varint
  import opened Page

  /** childPtr: cells begin with a child page number; intKey: a leaf of a table, with a key before the payload. */
  datatype Kind = Kind(childPtr: bool, intKey: bool, minLocal: nat, maxLocal: nat, usable: nat) {
    predicate Ok() {
      480 <= usable <= 65536 && 4 <= minLocal <= maxLocal <= usable - 35 && (intKey ==> !childPtr)
    }
    function Ptr(): nat { if childPtr then 4 else 0 }
  }

  /** How much of a payload stays on the b-tree page. */
  function LocalSize(k: Kind, n: nat): (r: nat)
    requires k.Ok()
    ensures r <= n && r <= k.maxLocal && (n > k.maxLocal ==> r >= k.minLocal)
  {
    if n <= k.maxLocal then n
    else
      var surplus := k.minLocal + (n - k.minLocal) % (k.usable - 4);
      if surplus <= k.maxLocal then surplus else k.minLocal
  }

  function Zero(n: nat): (r: seq<byte>)
    ensures |r| == n
  {
    seq(n, _ => 0)
  }

  function Big4(v: nat): (r: seq<byte>)
    ensures |r| == 4 && (v < 0x1_0000_0000 ==> Get4(r, 0) == v)
  {
    Put4(Zero(4), 0, v)
  }

  function Header(k: Kind, nKey: nat, n: nat): seq<byte>
    requires nKey < P64 && n < P32
  {
    Zero(k.Ptr()) + (PutVarint(n) + if k.intKey then PutVarint(nKey) else [])
  }

  /** The bytes on the b-tree page. */
  function Local(k: Kind, nKey: nat, payload: seq<byte>, first: nat): seq<byte>
    requires k.Ok() && nKey < P64 && |payload| < P32
  {
    var l := LocalSize(k, |payload|);
    Header(k, nKey, |payload|) + (payload[..l] + if l < |payload| then Big4(first) else [])
  }

  /** A cell takes four bytes at least. */
  function CellBytes(k: Kind, nKey: nat, payload: seq<byte>, first: nat): seq<byte>
    requires k.Ok() && nKey < P64 && |payload| < P32
  {
    var c := Local(k, nKey, payload, first);
    if |c| < 4 then c + Zero(4 - |c|) else c
  }

  // ---- parsing ----

  datatype CellInfo = CellInfo(nKey: nat, nPayload: nat, nLocal: nat, nSize: nat, at: nat)

  lemma AtPart(s: seq<byte>, at: nat, a: seq<byte>, b: seq<byte>)
    requires At(s, at, a + b)
    ensures At(s, at, a) && At(s, at + |a|, b)
  {
    var w := s[at..at + |a + b|];
    assert s[at..at + |a|] == w[..|a|] && s[at + |a|..at + |a| + |b|] == w[|a|..];
  }

  lemma LocalAt(k: Kind, s: seq<byte>, nKey: nat, payload: seq<byte>, first: nat)
    requires k.Ok() && nKey < P64 && |payload| < P32 && At(s, 0, CellBytes(k, nKey, payload, first))
    ensures At(s, 0, Local(k, nKey, payload, first))
  {
    hide At, Local;
    var c := Local(k, nKey, payload, first);
    if |c| < 4 { AtPart(s, 0, c, Zero(4 - |c|)); }
  }

  lemma HeaderParts(k: Kind, s: seq<byte>, nKey: nat, n: nat)
    requires nKey < P64 && n < P32 && At(s, 0, Header(k, nKey, n))
    ensures At(s, k.Ptr(), PutVarint(n))
    ensures k.intKey ==> At(s, k.Ptr() + |PutVarint(n)|, PutVarint(nKey))
  {
    hide PutVarint, At;
    AtPart(s, 0, Zero(k.Ptr()), PutVarint(n) + if k.intKey then PutVarint(nKey) else []);
    AtPart(s, k.Ptr(), PutVarint(n), if k.intKey then PutVarint(nKey) else []);
  }

  lemma Parts(k: Kind, s: seq<byte>, nKey: nat, payload: seq<byte>, first: nat)
    requires k.Ok() && nKey < P64 && |payload| < P32 && At(s, 0, CellBytes(k, nKey, payload, first))
    ensures At(s, k.Ptr(), PutVarint(|payload|))
    ensures k.intKey ==> At(s, k.Ptr() + |PutVarint(|payload|)|, PutVarint(nKey))
    ensures var l, h := LocalSize(k, |payload|), |Header(k, nKey, |payload|)|;
      At(s, h, payload[..l]) && (l < |payload| ==> At(s, h + l, Big4(first)))
  {
    hide PutVarint, LocalSize, Zero, Big4, Header, CellBytes, At;
    var l, head := LocalSize(k, |payload|), Header(k, nKey, |payload|);
    LocalAt(k, s, nKey, payload, first);
    AtPart(s, 0, head, payload[..l] + if l < |payload| then Big4(first) else []);
    AtPart(s, |head|, payload[..l], if l < |payload| then Big4(first) else []);
    HeaderParts(k, s, nKey, |payload|);
  }

  /** btreeParseCellPtr and btreeParseCellPtrIndex: what was written is read. */
  method ParseCell(k: Kind, s: seq<byte>, ghost nKey: nat, ghost payload: seq<byte>, ghost first: nat) returns (info: CellInfo)
    requires k.Ok() && nKey < P64 && |payload| < P32 && At(s, 0, CellBytes(k, nKey, payload, first)) && (!k.intKey ==> nKey == |payload|)
    ensures info.nKey == nKey && info.nPayload == |payload| && info.nLocal == LocalSize(k, |payload|)
    ensures info.nSize == |CellBytes(k, nKey, payload, first)| && info.at == |Header(k, nKey, |payload|)|
    ensures info.at + info.nLocal <= |s| && s[info.at..info.at + info.nLocal] == payload[..info.nLocal]
    ensures info.nLocal < info.nPayload ==> 4 <= info.nSize <= |s| && (first < P32 ==> Get4(s, info.nSize - 4) == first)
  {
    hide PutVarint, LocalSize, Zero, Big4, ScanPayload, PayloadRest, CellBytes, Header;
    Parts(k, s, nKey, payload, first);
    var nPayload, len := DecodePayload(s, k.Ptr(), |payload|);
    var pIter := k.Ptr() + len;
    var key := nPayload;
    if k.intKey {
      key, len := DecodeKey(s, pIter, nKey);
      pIter := pIter + len;
    }
    var nLocal, nSize := nPayload, nPayload + pIter;
    if nPayload <= k.maxLocal {
      if nSize < 4 { nSize := 4; }
    } else {
      nLocal, nSize := AdjustForOverflow(k, nPayload, pIter);
    }
    SizeIs(k, nKey, payload, first);
    info := CellInfo(key, nPayload, nLocal, nSize, pIter);
    if nPayload <= k.maxLocal { LocalIs(k, |payload|, nLocal); }
    ReadFirst(s, pIter + nLocal, first, nLocal < nPayload);
  }

  /** btreeParseCellAdjustSizeForOverflow */
  method AdjustForOverflow(k: Kind, nPayload: nat, header: nat) returns (nLocal: nat, nSize: nat)
    requires k.Ok() && nPayload > k.maxLocal
    ensures nLocal == LocalSize(k, nPayload) < nPayload && nSize == header + nLocal + 4
  {
    var surplus := k.minLocal + (nPayload - k.minLocal) % (k.usable - 4);
    nLocal := if surplus <= k.maxLocal then surplus else k.minLocal;
    nSize := header + nLocal + 4;
  }

  lemma LocalIs(k: Kind, n: nat, l: nat)
    requires k.Ok()
    requires l == if n <= k.maxLocal then n else
      (if k.minLocal + (n - k.minLocal) % (k.usable - 4) <= k.maxLocal then k.minLocal + (n - k.minLocal) % (k.usable - 4) else k.minLocal)
    ensures l == LocalSize(k, n)
  {
  }

  lemma ReadFirst(s: seq<byte>, at: nat, first: nat, there: bool)
    requires there ==> At(s, at, Big4(first))
    ensures there && first < P32 ==> at + 4 <= |s| && Get4(s, at) == first
  {
    if there {
      var b := s[at..at + 4];
      assert b == Big4(first);
      assert b[0] == s[at] && b[1] == s[at + 1] && b[2] == s[at + 2] && b[3] == s[at + 3];
    }
  }

  lemma SizeIs(k: Kind, nKey: nat, payload: seq<byte>, first: nat)
    requires k.Ok() && nKey < P64 && |payload| < P32
    ensures var l, h, c := LocalSize(k, |payload|), |Header(k, nKey, |payload|)|, |CellBytes(k, nKey, payload, first)|;
      && h == k.Ptr() + |PutVarint(|payload|)| + (if k.intKey then |PutVarint(nKey)| else 0)
      && (l == |payload| ==> c == if h + l < 4 then 4 else h + l)
      && (l < |payload| ==> c == h + l + 4)
  {
    hide PutVarint, LocalSize;
  }

  // ---- measuring ----

  /** What cellSizePtr makes of any bytes. */
  function SizeOf(k: Kind, s: seq<byte>): nat
    requires k.Ok()
  {
    var (n, len) := ScanPayload(s, k.Ptr());
    var pIter := k.Ptr() + len + if k.intKey then SkipRest(s, k.Ptr() + len, 0) else 0;
    if n > k.maxLocal then LocalSize(k, n) + 4 + pIter else if n + pIter < 4 then 4 else n + pIter
  }

  /** The quick scan gives the size that the full parse gives. */
  lemma SizeOfCell(k: Kind, s: seq<byte>, nKey: nat, payload: seq<byte>, first: nat)
    requires k.Ok() && nKey < P64 && |payload| < P32 && At(s, 0, CellBytes(k, nKey, payload, first))
    ensures SizeOf(k, s) == |CellBytes(k, nKey, payload, first)|
  {
    hide PutVarint, Zero, Big4, ScanPayload, SkipRest;
    Parts(k, s, nKey, payload, first);
    SizeIs(k, nKey, payload, first);
    ScanIs(s, k.Ptr(), |payload|);
    if k.intKey { Shape(nKey); SkipIs(s, k.Ptr() + |PutVarint(|payload|)|, nKey, 0); }
    if |payload| > k.maxLocal { LocalLess(k, |payload|); }
  }

  /** cellSizePtr: the quick scan gives the size that the full parse gives. */
  method CellSize(k: Kind, s: seq<byte>, ghost nKey: nat, ghost payload: seq<byte>, ghost first: nat) returns (nSize: nat)
    requires k.Ok() && nKey < P64 && |payload| < P32 && At(s, 0, CellBytes(k, nKey, payload, first))
    ensures nSize == |CellBytes(k, nKey, payload, first)| == SizeOf(k, s)
  {
    hide PutVarint, LocalSize, Zero, Big4;
    Parts(k, s, nKey, payload, first);
    SizeIs(k, nKey, payload, first);
    SizeOfCell(k, s, nKey, payload, first);
    var len;
    nSize, len := DecodePayload(s, k.Ptr(), |payload|);
    var pIter := k.Ptr() + len;
    if k.intKey {
      len := SkipVarint(s, pIter, nKey);
      pIter := pIter + len;
    }
    if nSize <= k.maxLocal {
      LocalIs(k, |payload|, nSize);
      nSize := nSize + pIter;
      if nSize < 4 { nSize := 4; }
    } else {
      nSize := k.minLocal + (nSize - k.minLocal) % (k.usable - 4);
      if nSize > k.maxLocal { nSize := k.minLocal; }
      LocalIs(k, |payload|, nSize);
      LocalLess(k, |payload|);
      nSize := nSize + 4 + pIter;
    }
  }

  lemma LocalLess(k: Kind, n: nat)
    requires k.Ok() && n > k.maxLocal
    ensures LocalSize(k, n) < n
  {
  }

  /** The measure that a page uses. */
  function Sizer(k: Kind): seq<byte> -> nat { s => if k.Ok() then SizeOf(k, s) else 0 }

  lemma AgreeTo(s: seq<byte>, t: seq<byte>, n: nat)
    requires n <= |s| && n <= |t| && s[..n] == t[..n]
    ensures SameTo(s, t, n)
  {
    forall i | 0 <= i < n ensures ByteAt(s, i) == ByteAt(t, i) { assert s[i] == s[..n][i]; }
  }

  /** The scan reads no byte after the cell. */
  lemma SizeLocal(k: Kind)
    requires k.Ok()
    ensures SizeIsLocal(Sizer(k))
  {
    hide ScanPayload, SkipRest, LocalSize;
    forall s, t | Agree(s, t, Sizer(k)(s)) ensures Sizer(k)(t) == Sizer(k)(s) {
      AgreeTo(s, t, SizeOf(k, s));
      var len := ScanPayload(s, k.Ptr()).1;
      ScanLocal(s, t, k.Ptr());
      if k.intKey { SkipLonger(s, k.Ptr() + len, 0); SkipLocal(s, t, k.Ptr() + len, 0); }
    }
  }

  /** Its result fits in 16 bits. */
  lemma SizeSmall(k: Kind, s: seq<byte>)
    requires k.Ok()
    ensures SizeOf(k, s) < 65536
  {
    hide ScanPayload, SkipRest, LocalSize;
    var (n, len) := ScanPayload(s, k.Ptr());
    ScanShort(s, k.Ptr());
    if k.intKey { SkipShort(s, k.Ptr() + len, 0); }
  }

  // ---- interior cells of a table: a child and a key ----

  function KeyCell(child: nat, nKey: nat): seq<byte>
    requires nKey < P64
  {
    Put4(Zero(4), 0, child) + PutVarint(nKey)
  }

  /** btreeParseCellPtrNoPayload */
  method ParseKeyCell(s: seq<byte>, ghost child: nat, ghost nKey: nat) returns (info: CellInfo)
    requires nKey < P64 && At(s, 0, KeyCell(child, nKey))
    ensures info.nKey == nKey && info.nSize == |KeyCell(child, nKey)| && info.nPayload == 0 && info.nLocal == 0
  {
    hide PutVarint, At;
    AtPart(s, 0, Put4(Zero(4), 0, child), PutVarint(nKey));
    var key, len := DecodeKey(s, 4, nKey);
    info := CellInfo(key, 0, 0, 4 + len, 0);
  }

  function SizeOfKeyCell(s: seq<byte>): nat { 4 + SkipRest(s, 4, 0) }

  /** cellSizePtrNoPayload */
  method KeyCellSize(s: seq<byte>, ghost child: nat, ghost nKey: nat) returns (nSize: nat)
    requires nKey < P64 && At(s, 0, KeyCell(child, nKey))
    ensures nSize == |KeyCell(child, nKey)| == SizeOfKeyCell(s)
  {
    hide PutVarint, At;
    AtPart(s, 0, Put4(Zero(4), 0, child), PutVarint(nKey));
    var len := SkipVarint(s, 4, nKey);
    nSize := 4 + len;
  }

  lemma KeyCellLocal()
    ensures SizeIsLocal(s => SizeOfKeyCell(s))
  {
    hide SkipRest;
    forall s, t | Agree(s, t, SizeOfKeyCell(s)) ensures SizeOfKeyCell(t) == SizeOfKeyCell(s) {
      AgreeTo(s, t, SizeOfKeyCell(s));
      SkipLocal(s, t, 4, 0);
    }
  }
}
