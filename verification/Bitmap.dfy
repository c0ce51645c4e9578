/** RDI_Bitmap (include/RDIBitmap.h): bits packed into bytes, proved to be a set of indices below
    the number of bits, whatever the padding bits of the last byte hold. */
module Bitmap {

  // 1 << j
  function Mask(j: nat): bv8
    requires j < 8
  {
    match j
    case 0 => 0x01 case 1 => 0x02 case 2 => 0x04 case 3 => 0x08
    case 4 => 0x10 case 5 => 0x20 case 6 => 0x40 case 7 => 0x80
  }

  // The eight bits of a byte, lowest first.
  function Bools(b: bv8): (r: seq<bool>)
    ensures |r| == 8
  {
    [b & 0x01 != 0, b & 0x02 != 0, b & 0x04 != 0, b & 0x08 != 0,
     b & 0x10 != 0, b & 0x20 != 0, b & 0x40 != 0, b & 0x80 != 0]
  }

  predicate Bit(bits: seq<bv8>, k: nat)
    requires k / 8 < |bits|
  {
    Bools(bits[k / 8])[k % 8]
  }

  lemma MaskBools(b: bv8, i: nat)
    requires i < 8
    ensures b & Mask(i) != 0 <==> Bools(b)[i]
  {
  }

  lemma MaskedBits(b: bv8, i: nat, j: nat)
    requires i < 8 && j < 8
    ensures (b | Mask(i)) & Mask(j) != 0 <==> j == i || b & Mask(j) != 0
    ensures (b & !Mask(i)) & Mask(j) != 0 <==> j != i && b & Mask(j) != 0
  {
  }

  lemma OrMask(b: bv8, i: nat, j: nat)
    requires i < 8 && j < 8
    ensures Bools(b | Mask(i))[j] <==> Bools(b)[j] || j == i
  {
    MaskBools(b | Mask(i), j);
    MaskBools(b, j);
    MaskedBits(b, i, j);
  }

  lemma AndNotMask(b: bv8, i: nat, j: nat)
    requires i < 8 && j < 8
    ensures Bools(b & !Mask(i))[j] <==> Bools(b)[j] && j != i
  {
    MaskBools(b & !Mask(i), j);
    MaskBools(b, j);
    MaskedBits(b, i, j);
  }

  // Shifting a mask on: the eighth shift leaves the byte.
  lemma NextMask(j: nat)
    requires j < 8
    ensures j < 7 ==> (Mask(j) as bv16) << 1 == Mask(j + 1) as bv16
    ensures (Mask(j) as bv16) << 1 == 0x100 <==> j == 7
  {
  }

  lemma Widen(b: bv8, m: bv8)
    ensures (b as bv16) & (m as bv16) != 0 <==> b & m != 0
  {
  }

  // The bits set below n.
  ghost function Below(bits: seq<bv8>, n: nat): (r: set<nat>)
    requires n <= 8 * |bits|
    ensures forall k: nat :: k in r <==> k < n && Bit(bits, k)
  {
    set k: nat | k < n && Bit(bits, k)
  }

  ghost function Interval(lo: nat, hi: nat): (r: set<nat>)
    ensures forall k: nat :: k in r <==> lo <= k < hi
    decreases hi - lo
  {
    if lo >= hi then {} else {lo} + Interval(lo + 1, hi)
  }

  lemma SameBit(o: nat, k: nat)
    ensures o / 8 == k / 8 && o % 8 == k % 8 <==> o == k
  {
  }

  lemma SetBitLaw(s: seq<bv8>, o: nat, k: nat)
    requires o / 8 < |s| && k / 8 < |s|
    ensures Bit(s[o / 8 := s[o / 8] | Mask(o % 8)], k) <==> Bit(s, k) || k == o
  {
    SameBit(o, k);
    if k / 8 == o / 8 {
      OrMask(s[o / 8], o % 8, k % 8);
    }
  }

  lemma ClearBitLaw(s: seq<bv8>, o: nat, k: nat)
    requires o / 8 < |s| && k / 8 < |s|
    ensures Bit(s[o / 8 := s[o / 8] & !Mask(o % 8)], k) <==> Bit(s, k) && k != o
  {
    SameBit(o, k);
    if k / 8 == o / 8 {
      AndNotMask(s[o / 8], o % 8, k % 8);
    }
  }

  // Testing a bit through a mask as wide as an int.
  lemma TestBit(s: seq<bv8>, k: nat)
    requires k / 8 < |s|
    ensures Bit(s, k) <==> (s[k / 8] as bv16) & (Mask(k % 8) as bv16) != 0
    ensures Bit(s, k) <==> s[k / 8] & Mask(k % 8) != 0
  {
    MaskBools(s[k / 8], k % 8);
    Widen(s[k / 8], Mask(k % 8));
  }

  // Moving the mask and the byte on to the next bit.
  lemma NextBit(k: nat)
    ensures (Mask(k % 8) as bv16) << 1 == 0x100 ==> (k + 1) % 8 == 0 && (k + 1) / 8 == k / 8 + 1
    ensures (Mask(k % 8) as bv16) << 1 != 0x100 ==>
              (k + 1) / 8 == k / 8 && (Mask(k % 8) as bv16) << 1 == Mask((k + 1) % 8) as bv16
  {
    NextMask(k % 8);
    assert k == 8 * (k / 8) + k % 8;
  }

  class Bitmap {
    var bits: array<bv8>
    var nbit: nat
    var size: nat

    ghost predicate Valid()
      reads this, bits
    {
      bits.Length >= size > 0 && nbit < 8 * size
    }

    ghost function Members(): (r: set<nat>)
      requires Valid()
      reads this, bits
      ensures forall k: nat :: k in r <==> k < nbit && Bit(bits[..], k)
    {
      Below(bits[..], nbit)
    }

    constructor (numBits: nat)
      ensures Valid() && fresh(bits) && nbit == numBits && Members() == {}
    {
      nbit, size := numBits, numBits / 8 + 1;
      bits := new bv8[numBits / 8 + 1];
      new;
      ClearAll();
    }

    // The copy is as long as the other and has its bits; a buffer that is long enough is kept.
    method Assign(bmap: Bitmap)
      requires Valid() && bmap.Valid() && (bmap == this || bmap.bits != bits)
      modifies this, bits
      ensures Valid() && nbit == old(bmap.nbit) && Members() == old(bmap.Members())
    {
      ghost var bytes := bmap.bits[..];
      if size < bmap.size {
        nbit, size := bmap.nbit, bmap.size;
        bits := new bv8[bmap.size];
      } else {
        nbit := bmap.nbit;
      }
      for i := 0 to bmap.size
        modifies bits
        invariant bmap.bits[..] == bytes && forall j :: 0 <= j < i ==> bits[j] == bytes[j]
      {
        bits[i] := bmap.bits[i];
      }
      assert forall k: nat :: k < nbit ==> bits[k / 8] == bytes[k / 8];
    }

    method SetAll()
      requires Valid()
      modifies bits
      ensures Members() == Interval(0, nbit)
    {
      for i := 0 to size
        invariant forall j :: 0 <= j < i ==> bits[j] == 0xFF
      {
        bits[i] := 0xFF;
      }
    }

    method ClearAll()
      requires Valid()
      modifies bits
      ensures Members() == {}
    {
      for i := 0 to size
        invariant forall j :: 0 <= j < i ==> bits[j] == 0
      {
        bits[i] := 0;
      }
    }

    predicate IsSet(offset: nat)
      requires Valid()
      reads this, bits
      ensures IsSet(offset) <==> offset in Members()
    {
      if offset >= nbit then false
      else
        TestBit(bits[..], offset);
        bits[offset / 8] & Mask(offset % 8) != 0
    }

    // Not the negation of IsSet: past the end a bit is neither set nor clear.
    predicate IsClear(offset: nat)
      requires Valid()
      reads this, bits
      ensures IsClear(offset) <==> offset < nbit && offset !in Members()
    {
      if offset >= nbit then false
      else
        TestBit(bits[..], offset);
        bits[offset / 8] & Mask(offset % 8) == 0
    }

    // A range that does not end within the bitmap is left alone.
    method Set(offset: nat, count: nat)
      requires Valid()
      modifies bits
      ensures Members() == old(Members()) + (if offset + count <= nbit then Interval(offset, offset + count) else {})
    {
      if offset + count - 1 < nbit {
        for o := offset to offset + count
          invariant forall k: nat :: k < nbit ==> (Bit(bits[..], k) <==> old(Bit(bits[..], k)) || offset <= k < o)
        {
          SetBit(o);
        }
      }
    }

    method SetBit(o: nat)
      requires Valid() && o < nbit
      modifies bits
      ensures forall k: nat :: k < nbit ==> (Bit(bits[..], k) <==> old(Bit(bits[..], k)) || k == o)
    {
      ghost var s := bits[..];
      bits[o / 8] := bits[o / 8] | Mask(o % 8);
      assert bits[..] == s[o / 8 := s[o / 8] | Mask(o % 8)];
      forall k: nat | k < nbit ensures Bit(bits[..], k) <==> Bit(s, k) || k == o {
        SetBitLaw(s, o, k);
      }
    }

    method Clear(offset: nat, count: nat)
      requires Valid()
      modifies bits
      ensures Members() == old(Members()) - (if offset + count <= nbit then Interval(offset, offset + count) else {})
    {
      if offset + count - 1 < nbit {
        for o := offset to offset + count
          invariant forall k: nat :: k < nbit ==> (Bit(bits[..], k) <==> old(Bit(bits[..], k)) && !(offset <= k < o))
        {
          ClearBit(o);
        }
      }
    }

    method ClearBit(o: nat)
      requires Valid() && o < nbit
      modifies bits
      ensures forall k: nat :: k < nbit ==> (Bit(bits[..], k) <==> old(Bit(bits[..], k)) && k != o)
    {
      ghost var s := bits[..];
      bits[o / 8] := bits[o / 8] & !Mask(o % 8);
      assert bits[..] == s[o / 8 := s[o / 8] & !Mask(o % 8)];
      forall k: nat | k < nbit ensures Bit(bits[..], k) <==> Bit(s, k) && k != o {
        ClearBitLaw(s, o, k);
      }
    }

    // *bits & mask, for the mask and byte of bit k.
    method Test(byte: nat, mask: bv16, ghost k: nat) returns (b: bool)
      requires Valid() && k < nbit && mask == Mask(k % 8) as bv16 && byte == k / 8
      ensures b <==> Bit(bits[..], k)
    {
      TestBit(bits[..], k);
      return (bits[byte] as bv16) & mask != 0;
    }

    // mask <<= 1, and on to the next byte when the mask leaves this one.
    static method Advance(byte: nat, mask: bv16, ghost k: nat) returns (byte': nat, mask': bv16)
      requires mask == Mask(k % 8) as bv16 && byte == k / 8
      ensures mask' == Mask((k + 1) % 8) as bv16 && byte' == (k + 1) / 8
    {
      NextBit(k);
      byte', mask' := byte, mask << 1;
      if mask' == 0x100 {
        mask' := 1;
        byte' := byte' + 1;
      }
    }

    // The least bit set at or after `start`, -1 if there is none.
    method FirstSet(start: nat) returns (r: int)
      requires Valid()
      ensures r == -1 <==> forall k :: k in Members() ==> k < start
      ensures r != -1 ==> r >= start && r in Members() && forall k :: k in Members() ==> k < start || k >= r
    {
      var offset, mask, byte := start, Mask(start % 8) as bv16, start / 8;
      while offset < nbit
        invariant start <= offset && mask == Mask(offset % 8) as bv16 && byte == offset / 8
        invariant forall k :: start <= k < offset ==> k !in Members()
      {
        var b := Test(byte, mask, offset);
        if b {
          assert offset in Members();
          return offset;
        }
        byte, mask := Advance(byte, mask, offset);
        offset := offset + 1;
      }
      return -1;
    }

    // The least bit clear at or after `start`, -1 if there is none.
    method FirstClear(start: nat) returns (r: int)
      requires Valid()
      ensures r == -1 <==> forall k: nat :: start <= k < nbit ==> k in Members()
      ensures r != -1 ==> start <= r < nbit && r !in Members() && forall k: nat :: start <= k < r ==> k in Members()
    {
      var offset, mask, byte := start, Mask(start % 8) as bv16, start / 8;
      while offset < nbit
        invariant start <= offset && mask == Mask(offset % 8) as bv16 && byte == offset / 8
        invariant forall k: nat :: start <= k < offset && k < nbit ==> k in Members()
      {
        var b := Test(byte, mask, offset);
        if !b {
          assert offset !in Members();
          return offset;
        }
        byte, mask := Advance(byte, mask, offset);
        offset := offset + 1;
      }
      return -1;
    }

    // How many bits are set, padding not counted.
    method NumSet() returns (n: nat)
      requires Valid()
      ensures n == |Members()|
    {
      n := 0;
      ghost var members := Members();
      ghost var at: nat, r: set<nat> := 0, {};
      var mask: bv16, byte: nat, left: nat := 1, 0, nbit;
      while left != 0
        invariant at + left == nbit && mask == Mask(at % 8) as bv16 && byte == at / 8
        invariant forall k :: k in r <==> k in members && k < at
        invariant n == |r|
        decreases left
      {
        var b := Test(byte, mask, at);
        assert b <==> at in members;
        if b {
          n, r := n + 1, r + {at};
        }
        byte, mask := Advance(byte, mask, at);
        at, left := at + 1, left - 1;
      }
      assert r == members;
    }
  }
}
