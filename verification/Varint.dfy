/** Variable-length integers: written high group first, seven bits a byte, a ninth byte holding eight. */
module Varint {
  import opened Facts
  import opened Bytes

  const P32: nat := 0x1_0000_0000
  const P56: nat := 0x100_0000_0000_0000
  const P64: nat := 0x1_0000_0000_0000_0000

  /** All groups of v, each but the last marked. */
  function Enc(v: nat): seq<byte> { if v < 128 then [v] else Marked(v / 128) + [v % 128] }

  function Marked(v: nat): seq<byte> { if v < 128 then [v + 128] else Marked(v / 128) + [v % 128 + 128] }

  /** n groups of v, all marked. */
  function Fixed(v: nat, n: nat): seq<byte> { if n == 0 then [] else Fixed(v / 128, n - 1) + [v % 128 + 128] }

  /** putVarint */
  function PutVarint(v: nat): seq<byte>
    requires v < P64
  {
    if v < P56 then Enc(v) else Fixed(v / 256, 8) + [v % 256]
  }

  /** The number that groups of seven bits make. */
  function Value(s: seq<byte>): nat {
    if s == [] then 0 else Value(s[..|s| - 1]) * 128 + s[|s| - 1] % 128
  }

  lemma ValueAdd(s: seq<byte>, b: byte)
    ensures Value(s + [b]) == Value(s) * 128 + b % 128
  {
    assert (s + [b])[..|s|] == s;
  }

  lemma {:induction false} MarkedIs(v: nat)
    ensures Value(Marked(v)) == v && |Marked(v)| > 0 && forall k | 0 <= k < |Marked(v)| :: Marked(v)[k] >= 128
    ensures |Marked(v)| <= Len(v)
  {
    if v < 128 {
      assert Marked(v) == [] + [v + 128];
      ValueAdd([], v + 128);
    } else {
      MarkedIs(v / 128);
      ValueAdd(Marked(v / 128), v % 128 + 128);
    }
  }

  /** Number of groups. */
  function Len(v: nat): nat { if v < 128 then 1 else 1 + Len(v / 128) }

  lemma EncIs(v: nat)
    ensures Value(Enc(v)) == v && 0 < |Enc(v)| <= Len(v)
    ensures forall k | 0 <= k < |Enc(v)| :: Enc(v)[k] >= 128 <==> k < |Enc(v)| - 1
  {
    if v < 128 {
      assert Enc(v) == [] + [v];
      ValueAdd([], v);
    } else {
      MarkedIs(v / 128);
      ValueAdd(Marked(v / 128), v % 128);
    }
  }

  lemma {:induction false} FixedIs(v: nat, n: nat)
    ensures |Fixed(v, n)| == n && (forall k | 0 <= k < n :: Fixed(v, n)[k] >= 128)
    ensures Value(Fixed(v, n)) == v % Power(n)
    decreases n
  {
    hide Value, Power;
    if n > 0 {
      FixedIs(v / 128, n - 1);
      ValueAdd(Fixed(v / 128, n - 1), v % 128 + 128);
      PowerStep(n);
      SplitPower(v, Power(n - 1));
    } else {
      NoGroups(v);
    }
  }

  lemma PowerStep(n: nat)
    ensures n > 0 ==> Power(n) == Power(n - 1) * 128
  {
  }

  lemma NoGroups(v: nat)
    ensures Value([]) == 0 == v % Power(0)
  {
  }

  function Power(n: nat): nat
    ensures Power(n) > 0
  {
    if n == 0 then 1 else Power(n - 1) * 128
  }

  lemma SplitPower(v: nat, p: nat)
    requires p > 0
    ensures v / 128 % p * 128 + v % 128 == v % (p * 128)
  {
    var q, r := v / 128 / p, v / 128 % p;
    assert v == (q * p + r) * 128 + v % 128;
    assert (q * p + r) * 128 == q * (p * 128) + r * 128;
    assert r * 128 + v % 128 < p * 128;
    DivIs(v, q, r * 128 + v % 128, p * 128);
  }

  lemma ShortLen(v: nat)
    ensures v < P32 ==> Len(v) <= 5
    ensures v < P56 ==> Len(v) <= 8
  {
    var a := v / 128; var b := a / 128; var c := b / 128; var d := c / 128; var e := d / 128; var f := e / 128; var g := f / 128;
    assert Len(v) <= 1 + Len(a) && Len(a) <= 1 + Len(b) && Len(b) <= 1 + Len(c) && Len(c) <= 1 + Len(d);
    assert Len(d) <= 1 + Len(e) && Len(e) <= 1 + Len(f) && Len(f) <= 1 + Len(g);
  }

  lemma {:induction false} PrefixLess(s: seq<byte>, k: nat)
    requires k <= |s|
    ensures Value(s[..k]) <= Value(s)
    decreases |s|
  {
    if k < |s| {
      PrefixLess(s[..|s| - 1], k);
      assert s[..|s| - 1][..k] == s[..k];
    } else {
      assert s[..k] == s;
    }
  }

  lemma PrefixStep(s: seq<byte>, k: nat)
    requires k < |s|
    ensures Value(s[..k + 1]) == Value(s[..k]) * 128 + s[k] % 128
  {
    assert s[..k + 1] == s[..k] + [s[k]];
    ValueAdd(s[..k], s[k]);
  }

  lemma OneByte(b: byte)
    ensures Value([b]) == b % 128
  {
    ValueAdd([], b);
    assert [] + [b] == [b];
  }

  /** The bytes e stand in s from place at on. */
  ghost predicate At(s: seq<byte>, at: nat, e: seq<byte>) { at + |e| <= |s| && s[at..at + |e|] == e }

  lemma AtByte(s: seq<byte>, at: nat, e: seq<byte>, k: nat)
    requires At(s, at, e) && k < |e|
    ensures at + k < |s| && s[at + k] == e[k]
  {
    assert s[at..at + |e|][k] == s[at + k];
  }

  // ---- scans of any bytes ----

  function ByteAt(s: seq<byte>, i: nat): nat { if i < |s| then s[i] else 0 }

  /** The rest of the scan of a payload size, of which n has been read up to byte at + len: the size and how many bytes it takes. */
  function PayloadRest(s: seq<byte>, at: nat, len: nat, n: nat): (nat, nat)
    requires len < 8
    decreases 8 - len
  {
    var b := ByteAt(s, at + len + 1);
    var n2 := (n * 128 + b % 128) % P32;
    if b >= 0x80 && len + 1 < 8 then PayloadRest(s, at, len + 1, n2) else (n2, len + 2)
  }

  function ScanPayload(s: seq<byte>, at: nat): (nat, nat) {
    if ByteAt(s, at) >= 0x80 then PayloadRest(s, at, 0, ByteAt(s, at) - 0x80) else (ByteAt(s, at), 1)
  }

  /** Bytes of a key, of which len have been passed over. */
  function SkipRest(s: seq<byte>, at: nat, len: nat): nat
    requires len < 9
    decreases 9 - len
  {
    if ByteAt(s, at + len) >= 0x80 && len + 1 < 9 then SkipRest(s, at, len + 1) else len + 1
  }

  /** Bytes that agree as far as a scan goes. */
  ghost predicate SameTo(s: seq<byte>, t: seq<byte>, n: nat) { forall i | 0 <= i < n :: ByteAt(s, i) == ByteAt(t, i) }

  lemma {:induction false} PayloadLocal(s: seq<byte>, t: seq<byte>, at: nat, len: nat, n: nat)
    requires len < 8 && SameTo(s, t, at + PayloadRest(s, at, len, n).1)
    ensures PayloadRest(t, at, len, n) == PayloadRest(s, at, len, n) && PayloadRest(s, at, len, n).1 >= len + 2
    decreases 8 - len
  {
    var b := ByteAt(s, at + len + 1);
    PayloadLonger(s, at, len, n);
    assert ByteAt(t, at + len + 1) == b;
    if b >= 0x80 && len + 1 < 8 { PayloadLocal(s, t, at, len + 1, (n * 128 + b % 128) % P32); }
  }

  lemma {:induction false} PayloadLonger(s: seq<byte>, at: nat, len: nat, n: nat)
    requires len < 8
    ensures PayloadRest(s, at, len, n).1 >= len + 2
    decreases 8 - len
  {
    var b := ByteAt(s, at + len + 1);
    if b >= 0x80 && len + 1 < 8 { PayloadLonger(s, at, len + 1, (n * 128 + b % 128) % P32); }
  }

  lemma {:induction false} PayloadShort(s: seq<byte>, at: nat, len: nat, n: nat)
    requires len < 8
    ensures PayloadRest(s, at, len, n).1 <= 9
    decreases 8 - len
  {
    var b := ByteAt(s, at + len + 1);
    if b >= 0x80 && len + 1 < 8 { PayloadShort(s, at, len + 1, (n * 128 + b % 128) % P32); }
  }

  lemma ScanShort(s: seq<byte>, at: nat)
    ensures ScanPayload(s, at).1 <= 9
  {
    if ByteAt(s, at) >= 0x80 { PayloadShort(s, at, 0, ByteAt(s, at) - 0x80); }
  }

  lemma {:induction false} SkipShort(s: seq<byte>, at: nat, len: nat)
    requires len < 9
    ensures SkipRest(s, at, len) <= 9
    decreases 9 - len
  {
    if ByteAt(s, at + len) >= 0x80 && len + 1 < 9 { SkipShort(s, at, len + 1); }
  }

  lemma ScanLocal(s: seq<byte>, t: seq<byte>, at: nat)
    requires SameTo(s, t, at + ScanPayload(s, at).1)
    ensures ScanPayload(t, at) == ScanPayload(s, at)
  {
    if ByteAt(s, at) >= 0x80 {
      PayloadLonger(s, at, 0, ByteAt(s, at) - 0x80);
      PayloadLocal(s, t, at, 0, ByteAt(s, at) - 0x80);
    }
    assert ByteAt(t, at) == ByteAt(s, at);
  }

  lemma {:induction false} SkipLocal(s: seq<byte>, t: seq<byte>, at: nat, len: nat)
    requires len < 9 && SameTo(s, t, at + SkipRest(s, at, len))
    ensures SkipRest(t, at, len) == SkipRest(s, at, len) && SkipRest(s, at, len) > len
    decreases 9 - len
  {
    SkipLonger(s, at, len);
    assert ByteAt(t, at + len) == ByteAt(s, at + len);
    if ByteAt(s, at + len) >= 0x80 && len + 1 < 9 { SkipLocal(s, t, at, len + 1); }
  }

  lemma {:induction false} SkipLonger(s: seq<byte>, at: nat, len: nat)
    requires len < 9
    ensures SkipRest(s, at, len) > len
    decreases 9 - len
  {
    if ByteAt(s, at + len) >= 0x80 && len + 1 < 9 { SkipLonger(s, at, len + 1); }
  }

  lemma {:induction false} PayloadRestIs(s: seq<byte>, at: nat, v: nat, len: nat, n: nat)
    requires v < P32 && At(s, at, PutVarint(v)) && len + 1 < |PutVarint(v)| <= 8 && n == Value(PutVarint(v)[..len + 1])
    ensures PayloadRest(s, at, len, n) == (v, |PutVarint(v)|)
    decreases |PutVarint(v)| - len
  {
    hide Enc, Value;
    var e := PutVarint(v);
    EncIs(v);
    AtByte(s, at, e, len + 1);
    PrefixStep(e, len + 1);
    PrefixLess(e, len + 2);
    if e[len + 1] >= 0x80 {
      PayloadRestIs(s, at, v, len + 1, (n * 128 + e[len + 1] % 128) % P32);
    } else {
      assert e[..len + 2] == e;
    }
  }

  /** The scan of a payload size reads it. */
  lemma ScanIs(s: seq<byte>, at: nat, v: nat)
    requires v < P32 && At(s, at, PutVarint(v))
    ensures ScanPayload(s, at) == (v, |PutVarint(v)|)
  {
    hide Enc, Value;
    var e := PutVarint(v);
    EncIs(v);
    ShortLen(v);
    AtByte(s, at, e, 0);
    if e[0] >= 0x80 {
      FirstGroup(e);
      PayloadRestIs(s, at, v, 0, e[0] - 0x80);
    } else {
      Single(e);
    }
  }

  /** The inline decoder of a payload size, in 32-bit arithmetic. */
  method DecodePayload(s: seq<byte>, at: nat, ghost v: nat) returns (n: nat, len: nat)
    requires v < P32 && At(s, at, PutVarint(v))
    ensures n == v && len == |PutVarint(v)| && at + len <= |s|
    ensures ScanPayload(s, at) == (n, len)
  {
    ghost var e := PutVarint(v);
    ScanIs(s, at, v);
    AtByte(s, at, e, 0);
    n := s[at];
    len := 0;
    if n >= 0x80 {
      n := n - 0x80;
      var more := true;
      while more
        invariant if more then len < 8 && PayloadRest(s, at, len, n) == (v, |e|) else (n, len + 1) == (v, |e|)
        decreases 8 - len, more
      {
        PayloadLonger(s, at, len, n);
        len := len + 1;
        AtByte(s, at, e, len);
        n := (n * 128 + s[at + len] % 128) % P32;
        more := s[at + len] >= 0x80 && len < 8;
      }
    }
    len := len + 1;
  }

  /** The inline decoder of a key, in 64-bit arithmetic. */
  method DecodeKey(s: seq<byte>, at: nat, ghost v: nat) returns (n: nat, len: nat)
    requires v < P64 && At(s, at, PutVarint(v))
    ensures n == v && len == |PutVarint(v)| && at + len <= |s|
  {
    hide Enc, Value, Fixed;
    ghost var e := PutVarint(v);
    Shape(v);
    AtByte(s, at, e, 0);
    n := s[at];
    len := 0;
    if n >= 0x80 {
      n := n - 0x80;
      FirstGroup(e);
      var more := true;
      while more
        invariant len < |e| && len < 8 && n == Value(e[..len + 1]) && (more ==> len + 1 < |e| && len < 7)
        invariant !more ==> len + 1 == |e| || (len == 7 && |e| == 9)
        invariant more ==> e[len] >= 128
        decreases |e| - len, more
      {
        len := len + 1;
        AtByte(s, at, e, len);
        PrefixStep(e, len);
        Bounded(v, len + 1);
        n := (n * 128 + s[at + len] % 128) % P64;
        more := s[at + len] >= 0x80 && len < 7;
      }
      if s[at + len] >= 0x80 {
        AtByte(s, at, e, len);
        AtByte(s, at, e, 8);
        NineBytes(v);
        len := len + 1;
        n := (n * 256 + s[at + len]) % P64;
      } else {
        AtByte(s, at, e, len);
        EndsHere(v, len);
      }
    } else {
      EndsHere(v, 0);
      Single(e);
    }
    len := len + 1;
  }

  /** Every byte but the last is marked; of nine bytes the last may be anything. */
  lemma Shape(v: nat)
    requires v < P64
    ensures var e := PutVarint(v);
      && 0 < |e| <= 9 && (forall k | 0 <= k < |e| - 1 :: e[k] >= 128)
      && (|e| < 9 ==> v < P56 && e[|e| - 1] < 128) && (|e| == 9 <==> v >= P56)
  {
    if v < P56 { EncIs(v); ShortLen(v); } else { FixedIs(v / 256, 8); }
  }

  /** Eight groups and eight bits make the number. */
  lemma NineBytes(v: nat)
    requires P56 <= v < P64
    ensures var e := PutVarint(v); |e| == 9 && Value(e[..8]) * 256 + e[8] == v
  {
    FixedIs(v / 256, 8);
    Power8();
    assert PutVarint(v)[..8] == Fixed(v / 256, 8);
  }

  lemma Power8()
    ensures Power(8) == P56
  {
    assert Power(4) == 128 * 128 * 128 * 128;
  }

  lemma Bounded(v: nat, k: nat)
    requires v < P64 && k <= |PutVarint(v)| && k <= 8
    ensures Value(PutVarint(v)[..k]) < P56
  {
    var e := PutVarint(v);
    if v < P56 {
      EncIs(v);
      PrefixLess(e, k);
    } else {
      NineBytes(v);
      PrefixLess(e[..8], k);
      assert e[..8][..k] == e[..k];
    }
  }

  lemma EndsHere(v: nat, k: nat)
    requires v < P64 && k < |PutVarint(v)| && k < 8 && PutVarint(v)[k] < 128
    ensures k + 1 == |PutVarint(v)| && v == Value(PutVarint(v)) == Value(PutVarint(v)[..k + 1])
    ensures forall j | 0 <= j < |PutVarint(v)| :: PutVarint(v)[j] >= 128 <==> j < |PutVarint(v)| - 1
  {
    Shape(v);
    EncIs(v);
    assert PutVarint(v)[..k + 1] == PutVarint(v);
  }

  lemma {:induction false} SkipIs(s: seq<byte>, at: nat, v: nat, len: nat)
    requires v < P64 && At(s, at, PutVarint(v)) && len < |PutVarint(v)| <= 9
    ensures SkipRest(s, at, len) == |PutVarint(v)|
    decreases |PutVarint(v)| - len
  {
    hide Enc, Fixed, PutVarint;
    var e := PutVarint(v);
    Shape(v);
    AtByte(s, at, e, len);
    if len + 1 < |e| { SkipIs(s, at, v, len + 1); }
  }

  /** The scan over a varint in cellSizePtr. */
  method SkipVarint(s: seq<byte>, at: nat, ghost v: nat) returns (len: nat)
    requires v < P64 && At(s, at, PutVarint(v))
    ensures len == |PutVarint(v)| && at + len <= |s|
    ensures SkipRest(s, at, 0) == len
  {
    hide Enc, Fixed;
    ghost var e := PutVarint(v);
    Shape(v);
    SkipIs(s, at, v, 0);
    len := 0;
    var more := true;
    while more
      invariant if more then len < 9 && SkipRest(s, at, len) == |e| else len == |e|
      decreases 9 - len, more
    {
      SkipLonger(s, at, len);
      AtByte(s, at, e, len);
      var b := s[at + len];
      len := len + 1;
      more := b >= 0x80 && len < 9;
    }
  }

  lemma FirstGroup(e: seq<byte>)
    requires |e| > 0 && e[0] >= 128
    ensures Value(e[..1]) == e[0] - 128
  {
    assert e[..1] == [e[0]];
    OneByte(e[0]);
  }

  lemma Single(e: seq<byte>)
    requires |e| > 0 && e[0] < 128 && forall k | 0 <= k < |e| :: e[k] >= 128 <==> k < |e| - 1
    ensures |e| == 1 && Value(e) == e[0]
  {
    assert e == [e[0]];
    OneByte(e[0]);
  }
}
