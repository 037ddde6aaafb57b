/** Address prefixes: an address with everything past a prefix cleared names the prefix. */
module IpPrefix {
  const ADDRESS_BYTES := 16

  datatype Family = Other | V4 | V6

  /** Either kind of address in 16 bytes; an IPv4 one fills four of them and leaves the others zero. */
  datatype Address = Address(family: Family, b: seq<bv8>)

  predicate IsAddress(a: Address) {
    |a.b| == ADDRESS_BYTES && (a.family.V4? ==> forall i :: 4 <= i < ADDRESS_BYTES ==> a.b[i] == 0)
  }

  /** A byte of which only the first `keep` bits are kept. */
  function Kept(x: bv8, keep: int): bv8 {
    if keep >= 8 then x else if keep <= 0 then 0 else x & (0xFF << (8 - keep))
  }

  function Masked(a: Address, len: int): (m: Address)
    ensures m.family == a.family && |m.b| == |a.b|
  {
    Address(a.family, seq(|a.b|, i requires 0 <= i < |a.b| => Kept(a.b[i], len - 8 * i)))
  }

  /** Clears the bytes of a copy in place. */
  method Mask(a: Address, len: int) returns (m: Address)
    requires IsAddress(a)
    ensures m == Masked(a, len)
  {
    var b := new bv8[ADDRESS_BYTES](i requires 0 <= i < ADDRESS_BYTES => a.b[i]);
    for i := 0 to ADDRESS_BYTES
      invariant forall j :: 0 <= j < ADDRESS_BYTES ==> b[j] == if j < i then Kept(a.b[j], len - 8 * j) else a.b[j]
    {
      hide Kept;
      var keep := len - 8 * i;
      AllKept(b[i], keep);
      if keep >= 8 {
        continue;
      }
      b[i] := Kept(b[i], keep);
    }
    m := Address(a.family, b[..]);
  }

  datatype Prefix = Prefix(net: Address, len: int)
  {
    predicate Contains(a: Address) {
      a.family == net.family && Masked(a, len).b == net.b
    }
  }

  // ---- what a prefix is ------------------------------------------------------------------------------

  /** Bit `j` of a byte, the first being the most significant. */
  predicate ByteBit(x: bv8, j: int)
    requires 0 <= j < 8
  {
    x & (0x80 >> j) != 0
  }

  /** Bit `k` of an address, in the order it is written. */
  predicate Bit(a: Address, k: int)
    requires IsAddress(a) && 0 <= k < 128
  {
    ByteBit(a.b[k / 8], k % 8)
  }

  predicate SameBits(x: bv8, y: bv8, keep: int)
    requires keep <= 8
  {
    forall j :: 0 <= j < keep ==> ByteBit(x, j) == ByteBit(y, j)
  }

  /** The masks and the bits, one by one. */
  lemma MaskIs(keep: int)
    requires 1 <= keep <= 8
    ensures (0xFF as bv8) << (8 - keep) == MaskOf(keep) && 0x80 >> (keep - 1) == BitOf(keep - 1)
  {
    match keep {
      case 1 => assert (0xFF as bv8) << 7 == 0x80 && (0x80 as bv8) >> 0 == 0x80;
      case 2 => assert (0xFF as bv8) << 6 == 0xC0 && (0x80 as bv8) >> 1 == 0x40;
      case 3 => assert (0xFF as bv8) << 5 == 0xE0 && (0x80 as bv8) >> 2 == 0x20;
      case 4 => assert (0xFF as bv8) << 4 == 0xF0 && (0x80 as bv8) >> 3 == 0x10;
      case 5 => assert (0xFF as bv8) << 3 == 0xF8 && (0x80 as bv8) >> 4 == 0x08;
      case 6 => assert (0xFF as bv8) << 2 == 0xFC && (0x80 as bv8) >> 5 == 0x04;
      case 7 => assert (0xFF as bv8) << 1 == 0xFE && (0x80 as bv8) >> 6 == 0x02;
      case 8 => assert (0xFF as bv8) << 0 == 0xFF && (0x80 as bv8) >> 7 == 0x01;
    }
  }

  function MaskOf(keep: int): bv8 {
    match keep
    case 1 => 0x80
    case 2 => 0xC0
    case 3 => 0xE0
    case 4 => 0xF0
    case 5 => 0xF8
    case 6 => 0xFC
    case 7 => 0xFE
    case 8 => 0xFF
    case _ => 0x00
  }

  function BitOf(j: int): bv8 {
    match j
    case 0 => 0x80
    case 1 => 0x40
    case 2 => 0x20
    case 3 => 0x10
    case 4 => 0x08
    case 5 => 0x04
    case 6 => 0x02
    case 7 => 0x01
    case _ => 0x00
  }

  function Through(x: bv8, mask: bv8): bv8 { x & mask }

  lemma OneMoreBit(x: bv8, y: bv8, keep: int)
    requires 1 <= keep <= 8
    ensures Through(x, MaskOf(keep)) == Through(y, MaskOf(keep))
            <==> Through(x, MaskOf(keep - 1)) == Through(y, MaskOf(keep - 1))
                 && (Through(x, BitOf(keep - 1)) != 0) == (Through(y, BitOf(keep - 1)) != 0)
  {
  }

  /** Keeping some bits of two bytes leaves the same exactly when those bits are the same. */
  lemma {:induction false} KeptBits(x: bv8, y: bv8, keep: int)
    requires keep <= 8
    ensures Kept(x, keep) == Kept(y, keep) <==> SameBits(x, y, keep)
  {
    if keep > 0 {
      KeptNext(x, y, keep);
      KeptBits(x, y, keep - 1);
      hide Kept, ByteBit;
      assert SameBits(x, y, keep) <==> SameBits(x, y, keep - 1) && ByteBit(x, keep - 1) == ByteBit(y, keep - 1);
    }
  }

  lemma KeptNext(x: bv8, y: bv8, keep: int)
    requires 1 <= keep <= 8
    ensures Kept(x, keep) == Kept(y, keep)
            <==> Kept(x, keep - 1) == Kept(y, keep - 1) && ByteBit(x, keep - 1) == ByteBit(y, keep - 1)
  {
    KeptIs(x, keep);
    KeptIs(y, keep);
    KeptIs(x, keep - 1);
    KeptIs(y, keep - 1);
    BitIs(x, keep - 1);
    BitIs(y, keep - 1);
    OneMoreBit(x, y, keep);
    hide *;
  }

  lemma BitIs(x: bv8, j: int)
    requires 0 <= j < 8
    ensures ByteBit(x, j) == (Through(x, BitOf(j)) != 0)
  {
    MaskIs(j + 1);
    hide BitOf, MaskOf;
  }

  lemma KeptIs(x: bv8, keep: int)
    requires 0 <= keep <= 8
    ensures Kept(x, keep) == Through(x, MaskOf(keep))
  {
    if keep > 0 {
      MaskIs(keep);
    }
  }

  /** Two addresses are in one prefix exactly when they are of one family and agree on its bits. */
  lemma MaskedAlike(a: Address, c: Address, len: int)
    requires IsAddress(a) && IsAddress(c) && 0 <= len <= 128
    ensures Masked(a, len) == Masked(c, len)
            <==> a.family == c.family && forall k :: 0 <= k < len ==> Bit(a, k) == Bit(c, k)
  {
    hide Kept, ByteBit;
    if Masked(a, len) == Masked(c, len) {
      forall k | 0 <= k < len
        ensures Bit(a, k) == Bit(c, k)
      {
        var i := k / 8;
        assert Masked(a, len).b[i] == Masked(c, len).b[i];
        ByteAlike(a, c, len, i);
      }
    }
    if a.family == c.family && forall k :: 0 <= k < len ==> Bit(a, k) == Bit(c, k) {
      forall i | 0 <= i < ADDRESS_BYTES
        ensures Masked(a, len).b[i] == Masked(c, len).b[i]
      {
        ByteAlike(a, c, len, i);
      }
      assert Masked(a, len).b == Masked(c, len).b;
    }
  }

  /** One byte of two addresses is kept alike exactly when its bits within the prefix are the same. */
  lemma ByteAlike(a: Address, c: Address, len: int, i: nat)
    requires IsAddress(a) && IsAddress(c) && 0 <= len <= 128 && i < ADDRESS_BYTES
    ensures Kept(a.b[i], len - 8 * i) == Kept(c.b[i], len - 8 * i)
            <==> forall k :: 8 * i <= k < 8 * i + 8 && k < len ==> Bit(a, k) == Bit(c, k)
  {
    hide ByteBit;
    var x, y, keep := a.b[i], c.b[i], len - 8 * i;
    var n := if keep < 8 then keep else 8;
    KeptBits(x, y, n);
    AllKept(x, keep);
    AllKept(y, keep);
    hide Kept;
    if SameBits(x, y, n) {
      forall k | 8 * i <= k < 8 * i + 8 && k < len
        ensures Bit(a, k) == Bit(c, k)
      {
        assert ByteBit(x, k - 8 * i) == ByteBit(y, k - 8 * i);
      }
    } else {
      var j :| 0 <= j < n && ByteBit(x, j) != ByteBit(y, j);
      assert Bit(a, 8 * i + j) != Bit(c, 8 * i + j);
    }
  }

  lemma AllKept(x: bv8, keep: int)
    ensures keep >= 8 ==> Kept(x, keep) == x == Kept(x, 8)
  {
  }

  /** A prefix holds exactly the addresses of its family that share its bits. */
  lemma ContainsExactly(p: Prefix, whole: Address, a: Address)
    requires IsAddress(whole) && IsAddress(a) && 0 <= p.len <= 128 && p.net == Masked(whole, p.len)
    ensures p.Contains(a) <==> a.family == whole.family && forall k :: 0 <= k < p.len ==> Bit(a, k) == Bit(whole, k)
  {
    hide Kept, ByteBit, Bit;
    MaskedAlike(a, whole, p.len);
  }
}
