/** A bitmap of fixed size kept in one of three representations. */
module Bitvecs {
  import opened BitHash

  const BITVEC_NELEM: nat := 496
  const BITVEC_NBIT: nat := 3968
  const BITVEC_NPTR: nat := 62
  const MAX_SIZE: nat := 0xffffffff - 61

  /** Is bit k of the byte set? */
  function Bit(b: bv8, k: nat): bool
    requires k < 8
  {
    b & ((1 as bv8) << k) != 0
  }

  lemma SetBit(b: bv8, k: nat, j: nat)
    requires k < 8 && j < 8
    ensures Bit(b | ((1 as bv8) << k), j) <==> Bit(b, j) || j == k
  {
  }

  lemma ClearBit(b: bv8, k: nat, j: nat)
    requires k < 8 && j < 8
    ensures Bit(b & !((1 as bv8) << k), j) <==> Bit(b, j) && j != k
  {
  }

  /** Which sub-bitmap, and which bit of it, holds bit i (both counted from 0). */
  function Bin(i: nat, d: nat): nat
    requires d > 0
  {
    i / d
  }

  function Rem(i: nat, d: nat): (r: nat)
    requires d > 0
    ensures r < d
  {
    i % d
  }

  lemma SameBit(i: nat, j: nat, d: nat)
    requires d > 0 && Bin(i, d) == Bin(j, d) && Rem(i, d) == Rem(j, d)
    ensures i == j
  {
    assert i == i / d * d + i % d && j == j / d * d + j % d;
  }

  function DivisorOf(iSize: nat): nat { (iSize + BITVEC_NPTR - 1) / BITVEC_NPTR }

  lemma BinInRange(i: nat, iSize: nat)
    requires i < iSize && iSize > BITVEC_NBIT
    ensures 0 < DivisorOf(iSize) < iSize && Bin(i, DivisorOf(iSize)) < BITVEC_NPTR
  {
    var d := DivisorOf(iSize);
    assert BITVEC_NPTR * d >= iSize;
    if i / d >= BITVEC_NPTR { Least(i, d); }
  }

  lemma Least(i: nat, d: nat)
    requires d > 0 && i / d >= BITVEC_NPTR
    ensures i >= BITVEC_NPTR * d
  {
    assert i >= i / d * d;
    assert (i / d - BITVEC_NPTR) * d >= 0;
  }

  class Bitvec {
    var iSize: nat
    var nSet: nat
    var iDivisor: nat
    var aBitmap: seq<bv8>
    var aHash: seq<nat>
    var apSub: seq<Bitvec?>
    /** The set this bitvec stands for. */
    ghost var Bits: set<nat>
    ghost var Repr: set<Bitvec>

    /** The bitvec and all below it are well formed, and Bits is what they hold. */
    ghost predicate Valid()
      reads this, Repr
      decreases Repr, 1
    {
      && this in Repr && Shape()
      && (iDivisor == 0 && iSize <= BITVEC_NBIT ==> InBitmap())
      && (iDivisor == 0 && iSize > BITVEC_NBIT ==> InHash())
      && (iDivisor > 0 ==> Kids() && Apart() && InSubs())
    }

    ghost predicate Shape()
      reads this
    {
      && iSize <= MAX_SIZE && |aBitmap| == BITVEC_NELEM && |apSub| == BITVEC_NPTR
      && (iDivisor > 0 ==> iSize > BITVEC_NBIT && iDivisor == DivisorOf(iSize))
      && forall i | i in Bits :: 0 < i <= iSize
    }

    ghost predicate InBitmap()
      reads this
      requires Shape() && iSize <= BITVEC_NBIT
    {
      forall i | 0 <= i < iSize :: i + 1 in Bits <==> Bit(aBitmap[i / 8], i % 8)
    }

    ghost predicate InHash()
      reads this
    {
      HashOk(aHash, nSet, iSize) && forall i | 0 < i <= iSize :: i in Bits <==> i in aHash
    }

    ghost predicate Kids()
      reads this, Repr
      requires this in Repr && Shape()
      decreases Repr, 0
    {
      forall j | 0 <= j < BITVEC_NPTR && apSub[j] != null ::
        apSub[j] in Repr && apSub[j] in apSub[j].Repr && apSub[j].Repr <= Repr && this !in apSub[j].Repr
        && apSub[j].iSize == iDivisor && apSub[j].Valid()
    }

    ghost predicate Apart()
      reads this, apSub
      requires Shape()
    {
      forall j, k | 0 <= j < k < BITVEC_NPTR && apSub[j] != null && apSub[k] != null :: apSub[j].Repr !! apSub[k].Repr
    }

    ghost predicate InSubs()
      reads this, apSub
      requires Shape()
    {
      iDivisor > 0 && forall i | 0 <= i < iSize :: i + 1 in Bits <==> InSub(Bin(i, iDivisor), Rem(i, iDivisor) + 1)
    }

    ghost predicate InSub(bin: nat, i: nat)
      reads this, apSub
    {
      bin < |apSub| && apSub[bin] != null && i in apSub[bin].Bits
    }

    lemma Open()
      requires Valid()
      ensures this in Repr && Shape()
      ensures iDivisor == 0 && iSize <= BITVEC_NBIT ==> InBitmap()
      ensures iDivisor == 0 && iSize > BITVEC_NBIT ==> InHash()
      ensures iDivisor > 0 ==> Kids() && Apart() && InSubs()
    {
      hide Shape, InBitmap, InHash, Kids, Apart, InSubs;
    }

    lemma Close()
      requires this in Repr && Shape()
      requires iDivisor == 0 && iSize <= BITVEC_NBIT ==> InBitmap()
      requires iDivisor == 0 && iSize > BITVEC_NBIT ==> InHash()
      requires iDivisor > 0 ==> Kids() && Apart() && InSubs()
      ensures Valid()
    {
      hide Shape, InBitmap, InHash, Kids, Apart, InSubs;
    }

    lemma Self()
      requires Valid()
      ensures this in Repr
    {
    }

    constructor (size: nat)
      requires size <= MAX_SIZE
      ensures Valid() && fresh(Repr) && iSize == size && Bits == {} && iDivisor == 0
    {
      iSize, nSet, iDivisor := size, 0, 0;
      aBitmap, aHash, apSub := seq(BITVEC_NELEM, _ => 0), Empty(), seq(BITVEC_NPTR, _ => null);
      Bits, Repr := {}, {this};
      new;
      EmptyOk(size);
    }

    /** A missing sub-bitmap is created, without any bit. */
    method CreateBelow(bin: nat)
      requires Valid() && iDivisor > 0 && bin < BITVEC_NPTR && Missing(bin)
      modifies this`apSub, this`Repr
      ensures Valid() && Present(bin) && fresh(Repr - old(Repr))
    {
      hide Bitvec.Valid;
      Open();
      var c := new Bitvec(iDivisor);
      apSub := apSub[bin := c];
      Repr := Repr + c.Repr;
      Close();
    }

    ghost predicate Present(bin: nat)
      reads this
    {
      bin < |apSub| && apSub[bin] != null
    }

    ghost predicate Missing(bin: nat)
      reads this
    {
      bin < |apSub| && apSub[bin] == null
    }

    /** The bit is set in the sub-bitmap that holds it. */
    method SetBelow(i: nat)
      requires Valid() && iDivisor > 0 && i < iSize && Present(Bin(i, iDivisor))
      modifies Repr
      ensures Valid() && iSize == old(iSize) && fresh(Repr - old(Repr)) && iDivisor == old(iDivisor)
      ensures Bits == old(Bits) + {i + 1}
      decreases iSize, 0, 0
    {
      hide Bitvec.Valid, Bin, Rem;
      Open();
      BinInRange(i, iSize);
      var bin, r := Bin(i, iDivisor), Rem(i, iDivisor);
      var p := apSub[bin];
      p.Set(r + 1);
      p.Self();
      Repr := Repr + p.Repr;
      Bits := Bits + {i + 1};
      forall j | 0 <= j < iSize ensures j + 1 in Bits <==> InSub(Bin(j, iDivisor), Rem(j, iDivisor) + 1) {
        if Bin(j, iDivisor) == bin && Rem(j, iDivisor) == r { SameBit(i, j, iDivisor); }
      }
      Close();
    }

    /** sqlite3BitvecSet */
    method Set(i0: nat)
      requires Valid() && 0 < i0 <= iSize
      modifies Repr
      ensures Valid() && iSize == old(iSize) && fresh(Repr - old(Repr)) && (old(iDivisor) > 0 ==> iDivisor == old(iDivisor))
      ensures Bits == old(Bits) + {i0}
      decreases iSize, if iDivisor == 0 then 1 else 0, 2
    {
      hide Bitvec.Valid, Bitvec.Kids, Bitvec.Apart, Bitvec.InSubs, Bitvec.InBitmap, Bitvec.InHash;
      Open();
      var i: nat := i0 - 1;
      if iSize > BITVEC_NBIT && iDivisor > 0 {
        BinInRange(i, iSize);
        if apSub[Bin(i, iDivisor)] == null { CreateBelow(Bin(i, iDivisor)); }
        SetBelow(i);
      } else if iSize <= BITVEC_NBIT {
        SetInBitmap(i);
      } else {
        SetInHash(i0);
      }
    }

    method SetInBitmap(i: nat)
      requires Valid() && i < iSize <= BITVEC_NBIT && iDivisor == 0
      modifies this`aBitmap, this`Bits
      ensures Valid() && Bits == old(Bits) + {i + 1}
    {
      hide Bitvec.Valid, Bitvec.Kids, Bitvec.Apart, Bitvec.InSubs, Bitvec.InHash, Bit;
      Open();
      ghost var was := aBitmap;
      aBitmap := aBitmap[i / 8 := aBitmap[i / 8] | ((1 as bv8) << (i % 8))];
      Bits := Bits + {i + 1};
      forall j | 0 <= j < iSize ensures j + 1 in Bits <==> Bit(aBitmap[j / 8], j % 8) {
        SetBit(was[i / 8], i % 8, j % 8);
        SamePlace(i, j);
      }
      Close();
    }

    method SetInHash(i: nat)
      requires Valid() && iDivisor == 0 && iSize > BITVEC_NBIT && 0 < i <= iSize
      modifies Repr
      ensures Valid() && iSize == old(iSize) && fresh(Repr - old(Repr)) && Bits == old(Bits) + {i}
      decreases iSize, 1, 1
    {
      hide Bitvec.Valid, Bitvec.Kids, Bitvec.Apart, Bitvec.InSubs, Bitvec.InBitmap, HashOk, Slot, Dist, Home, Run;
      Open();
      Lengths(aHash, nSet, iSize);
      var found, h := Probe(aHash, nSet, iSize, i);
      if found {
        assert Bits == Bits + {i};
        return;
      }
      var collision := aHash[Home(i)] != 0;
      if nSet >= (if collision then BITVEC_MXHASH else BITVEC_NINT - 1) {
        Divide(i);
      } else {
        PutOk(aHash, nSet, iSize, i, h);
        nSet := nSet + 1;
        aHash := aHash[h := i];
        Bits := Bits + {i};
        Close();
      }
    }

    /** A hash table that is too full becomes a radix node, and its values are set again below it. */
    method Divide(i: nat)
      requires Valid() && iDivisor == 0 && iSize > BITVEC_NBIT && 0 < i <= iSize
      modifies Repr
      ensures Valid() && iSize == old(iSize) && fresh(Repr - old(Repr)) && Bits == old(Bits) + {i}
      decreases iSize, 1, 0
    {
      hide Bitvec.Valid, HashOk, Bin, Rem;
      Open();
      Lengths(aHash, nSet, iSize);
      var aiValues := aHash;
      ghost var was := Bits;
      aHash, apSub := Empty(), seq(BITVEC_NPTR, _ => null);
      BinInRange(0, iSize);
      iDivisor := DivisorOf(iSize);
      Bits, Repr := {}, {this};
      Close();
      Set(i);
      assert forall v | v in was :: v in aiValues;
      for j := 0 to BITVEC_NINT
        invariant Valid() && iDivisor > 0 && iSize == old(iSize) && fresh(Repr - old(Repr))
        invariant Bits == {i} + set v | v in was && v in aiValues[..j]
      {
        ValueOf(aiValues, old(nSet), iSize, j);
        if aiValues[j] != 0 {
          Set(aiValues[j]);
        }
      }
      assert aiValues[..BITVEC_NINT] == aiValues;
    }

    /** sqlite3BitvecTestNotNull */
    method Test(i0: nat) returns (b: bool)
      requires Valid() && i0 > 0
      ensures b <==> i0 in Bits
    {
      hide Bitvec.Valid, Bitvec.Apart, HashOk, Bit, Bin, Rem;
      Open();
      var i: nat := i0 - 1;
      var p: Bitvec := this;
      if i >= iSize { return false; }
      while p.iDivisor != 0
        invariant p.Valid() && i < p.iSize && (i + 1 in p.Bits <==> i0 in Bits)
        decreases p.Repr
      {
        p.Open();
        BinInRange(i, p.iSize);
        var c := p.apSub[Bin(i, p.iDivisor)];
        assert i + 1 in p.Bits <==> p.InSub(Bin(i, p.iDivisor), Rem(i, p.iDivisor) + 1);
        i := Rem(i, p.iDivisor);
        if c == null { return false; }
        assert c.Repr < p.Repr;
        p := c;
      }
      p.Open();
      if p.iSize <= BITVEC_NBIT {
        b := Bit(p.aBitmap[i / 8], i % 8);
      } else {
        var h;
        b, h := Probe(p.aHash, p.nSet, p.iSize, i + 1);
      }
    }

    /** sqlite3BitvecClear */
    method Clear(i0: nat)
      requires Valid() && 0 < i0 <= iSize
      modifies Repr
      ensures Valid() && iSize == old(iSize) && iDivisor == old(iDivisor) && Repr == old(Repr)
      ensures Bits == old(Bits) - {i0}
      decreases Repr
    {
      hide Bitvec.Valid, Bitvec.Kids, Bitvec.Apart, Bitvec.InSubs, Bitvec.InBitmap, Bitvec.InHash;
      Open();
      var i: nat := i0 - 1;
      if iDivisor != 0 {
        ClearBelow(i);
      } else if iSize <= BITVEC_NBIT {
        ClearInBitmap(i);
      } else {
        ClearInHash(i0);
      }
    }

    method ClearBelow(i: nat)
      requires Valid() && iDivisor > 0 && i < iSize
      modifies Repr
      ensures Valid() && iSize == old(iSize) && iDivisor == old(iDivisor) && Repr == old(Repr)
      ensures Bits == old(Bits) - {i + 1}
      decreases Repr, 0
    {
      hide Bitvec.Valid, Bin, Rem;
      Open();
      BinInRange(i, iSize);
      var bin, r := Bin(i, iDivisor), Rem(i, iDivisor);
      var p := apSub[bin];
      if p == null {
        assert i + 1 !in Bits;
        return;
      }
      p.Clear(r + 1);
      Bits := Bits - {i + 1};
      forall j | 0 <= j < iSize ensures j + 1 in Bits <==> InSub(Bin(j, iDivisor), Rem(j, iDivisor) + 1) {
        if Bin(j, iDivisor) == bin && Rem(j, iDivisor) == r { SameBit(i, j, iDivisor); }
      }
      Close();
    }

    method ClearInBitmap(i: nat)
      requires Valid() && i < iSize <= BITVEC_NBIT && iDivisor == 0
      modifies this`aBitmap, this`Bits
      ensures Valid() && Bits == old(Bits) - {i + 1}
    {
      hide Bitvec.Valid, Bitvec.Kids, Bitvec.Apart, Bitvec.InSubs, Bitvec.InHash, Bit;
      Open();
      ghost var was := aBitmap;
      aBitmap := aBitmap[i / 8 := aBitmap[i / 8] & !((1 as bv8) << (i % 8))];
      Bits := Bits - {i + 1};
      forall j | 0 <= j < iSize ensures j + 1 in Bits <==> Bit(aBitmap[j / 8], j % 8) {
        ClearBit(was[i / 8], i % 8, j % 8);
        SamePlace(i, j);
      }
      Close();
    }

    /** Every other value of the hash table is put into an empty table again. */
    method ClearInHash(i: nat)
      requires Valid() && iDivisor == 0 && iSize > BITVEC_NBIT && 0 < i <= iSize
      modifies this`aHash, this`nSet, this`Bits
      ensures Valid() && Bits == old(Bits) - {i}
    {
      hide Bitvec.Valid, Bitvec.Kids, Bitvec.Apart, Bitvec.InSubs, Bitvec.InBitmap, HashOk, Slot, Dist, Home, Run;
      Open();
      aHash, nSet := Without(aHash, nSet, iSize, i);
      Bits := Bits - {i};
      Close();
    }
  }

  lemma SamePlace(i: nat, j: nat)
    ensures i / 8 == j / 8 && i % 8 == j % 8 ==> i == j
  {
  }

  lemma ValueOf(a: seq<nat>, nSet: nat, n: nat, j: nat)
    requires HashOk(a, nSet, n) && j < BITVEC_NINT
    ensures |a| == BITVEC_NINT && a[j] <= n && forall w :: w in a[..j + 1] <==> w in a[..j] || w == a[j]
  {
    hide Run, Slot, Dist, Home;
    assert a[..j + 1] == a[..j] + [a[j]];
  }
}
