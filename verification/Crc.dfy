/** CRC-16/CCITT-FALSE: the generator polynomial of ITU-T V.41 section 2, initial value
    0xFFFF, no reflection, no final XOR.

    The reference definition is the V.41 shift register that takes one message bit at a
    time, most significant bit first (`Feed`). The byte-wise loops of the firmware and of
    the Python library are proved to compute it, and the error-detection theorems are
    stated on message bits. */
module Crc {

  import opened Wrappers

  const CRC16_INIT: bv16 := 0xFFFF

  // ---------------------------------------------------------------- reference definition

  /** One clock of the register with no input bit. */
  function Shift(c: bv16): bv16 {
    if c & 0x8000 != 0 then (c << 1) ^ 0x1021 else c << 1
  }

  function Top(bit: bool): bv16 {
    if bit then 0x8000 else 0
  }

  function Xor(a: bv16, b: bv16): bv16 { a ^ b }

  function Half(c: bv16): bv16 { c >> 1 }

  /** The register after the message bits `bits`. */
  function Feed(c: bv16, bits: seq<bool>): bv16
    decreases |bits|
  {
    if bits == [] then c else Feed(Shift(Xor(c, Top(bits[0]))), bits[1..])
  }

  /** The byte as the eight bits of a machine word, and widened to 16 bits. */
  function Raw(b: byte): bv8 { b as bv8 }

  function Wide(b: byte): bv16 { Raw(b) as bv16 }

  function RawBits(b: bv8): seq<bool> {
    [b & 0x80 != 0, b & 0x40 != 0, b & 0x20 != 0, b & 0x10 != 0,
     b & 0x08 != 0, b & 0x04 != 0, b & 0x02 != 0, b & 0x01 != 0]
  }

  function ByteBits(b: byte): seq<bool> { RawBits(Raw(b)) }

  /** The bits of a message, byte by byte, most significant bit first. */
  function Bits(data: seq<byte>): (bits: seq<bool>)
    ensures |bits| == 8 * |data|
  {
    if data == [] then [] else ByteBits(data[0]) + Bits(data[1..])
  }

  function Crc16(seed: bv16, data: seq<byte>): bv16 {
    Feed(seed, Bits(data))
  }

  // ---------------------------------------------------------------- the register is linear

  lemma ShiftXor00(a: bv16, b: bv16)
    requires a & 0x8000 == 0 && b & 0x8000 == 0
    ensures Shift(Xor(a, b)) == Xor(Shift(a), Shift(b))
  {}

  lemma ShiftXor01(a: bv16, b: bv16)
    requires a & 0x8000 == 0 && b & 0x8000 != 0
    ensures Shift(Xor(a, b)) == Xor(Shift(a), Shift(b))
  {}

  lemma ShiftXor10(a: bv16, b: bv16)
    requires a & 0x8000 != 0 && b & 0x8000 == 0
    ensures Shift(Xor(a, b)) == Xor(Shift(a), Shift(b))
  {}

  lemma ShiftXor11(a: bv16, b: bv16)
    requires a & 0x8000 != 0 && b & 0x8000 != 0
    ensures Shift(Xor(a, b)) == Xor(Shift(a), Shift(b))
  {}

  lemma ShiftXor(a: bv16, b: bv16)
    ensures Shift(Xor(a, b)) == Xor(Shift(a), Shift(b))
  {
    if a & 0x8000 == 0 && b & 0x8000 == 0 { ShiftXor00(a, b); }
    else if a & 0x8000 == 0 && b & 0x8000 != 0 { ShiftXor01(a, b); }
    else if a & 0x8000 != 0 && b & 0x8000 == 0 { ShiftXor10(a, b); }
    else { ShiftXor11(a, b); }
  }

  lemma OnlyZeroShiftsToZero(d: bv16)
    requires Shift(d) == 0
    ensures d == 0
  {}

  lemma XorCancels(a: bv16, b: bv16)
    ensures Xor(a, a) == 0
    ensures Xor(a, b) == 0 ==> a == b
    ensures Xor(a, 0) == a
  {}

  /** The zero-input register can be run backwards. */
  lemma ShiftInjective(a: bv16, b: bv16)
    requires Shift(a) == Shift(b)
    ensures a == b
  {
    hide Shift, Xor, Half, Top;
    ShiftXor(a, b);
    XorCancels(Shift(a), Shift(b));
    OnlyZeroShiftsToZero(Xor(a, b));
    XorCancels(a, b);
  }

  lemma XorSameInjective(a: bv16, b: bv16, x: bv16)
    requires Xor(a, x) == Xor(b, x)
    ensures a == b
  {}

  /** Different registers stay different under the same message bits. */
  lemma {:induction false} FeedInjective(a: bv16, b: bv16, bits: seq<bool>)
    requires Feed(a, bits) == Feed(b, bits)
    ensures a == b
    decreases |bits|
  {
    hide Shift, Xor, Half, Top;
    if bits == [] {
    } else {
      var x := Top(bits[0]);
      FeedInjective(Shift(Xor(a, x)), Shift(Xor(b, x)), bits[1..]);
      ShiftInjective(Xor(a, x), Xor(b, x));
      XorSameInjective(a, b, x);
    }
  }

  lemma {:induction false} FeedConcat(c: bv16, s: seq<bool>, t: seq<bool>)
    ensures Feed(c, s + t) == Feed(Feed(c, s), t)
    decreases |s|
  {
    hide Shift, Xor, Half, Top;
    if s == [] {
      assert s + t == t;
    } else {
      assert (s + t)[0] == s[0] && (s + t)[1..] == s[1..] + t;
      FeedConcat(Shift(Xor(c, Top(s[0]))), s[1..], t);
    }
  }

  lemma {:induction false} BitsConcat(a: seq<byte>, b: seq<byte>)
    ensures Bits(a + b) == Bits(a) + Bits(b)
    decreases |a|
  {
    if a == [] {
      assert a + b == b;
    } else {
      assert (a + b)[0] == a[0] && (a + b)[1..] == a[1..] + b;
      BitsConcat(a[1..], b);
    }
  }

  /** A CRC can be continued across chunks from the previous result. */
  lemma CrcConcat(seed: bv16, a: seq<byte>, b: seq<byte>)
    ensures Crc16(seed, a + b) == Crc16(Crc16(seed, a), b)
  {
    BitsConcat(a, b);
    FeedConcat(seed, Bits(a), Bits(b));
  }

  // ---------------------------------------------------------------- up to 16 bits at once

  function ShiftN(c: bv16, n: nat): bv16
    decreases n
  {
    if n == 0 then c else ShiftN(Shift(c), n - 1)
  }

  /** Up to 16 bits laid out in a register from the top bit down. */
  function Pack(bits: seq<bool>): bv16 {
    if bits == [] then 0 else Xor(Top(bits[0]), Half(Pack(bits[1..])))
  }

  /** The mask of the `16 - n` low bits. */
  function LowMask(n: nat): bv16
    requires n <= 16
  {
    match n
    case 0 => 0xFFFF case 1 => 0x7FFF case 2 => 0x3FFF case 3 => 0x1FFF
    case 4 => 0x0FFF case 5 => 0x07FF case 6 => 0x03FF case 7 => 0x01FF
    case 8 => 0x00FF case 9 => 0x007F case 10 => 0x003F case 11 => 0x001F
    case 12 => 0x000F case 13 => 0x0007 case 14 => 0x0003 case 15 => 0x0001
    case _ => 0
  }

  lemma LowMaskStep(n: nat)
    requires 0 < n <= 16
    ensures LowMask(n) == Half(LowMask(n - 1))
    ensures LowMask(n - 1) & 1 == 1
  {}

  lemma MaskedStep(t: bv16, p: bv16, m: bv16)
    requires t & 0x7FFF == 0 && p & m == 0
    ensures Xor(t, Half(p)) & Half(m) == 0
  {}

  lemma {:induction false} PackLowBitsClear(bits: seq<bool>)
    requires |bits| <= 16
    ensures Pack(bits) & LowMask(|bits|) == 0
    decreases |bits|
  {
    hide Shift, Xor, Half;
    if bits == [] {
    } else {
      PackLowBitsClear(bits[1..]);
      LowMaskStep(|bits|);
      MaskedStep(Top(bits[0]), Pack(bits[1..]), LowMask(|bits| - 1));
    }
  }

  lemma MaskHasLowBit(p: bv16, m: bv16)
    requires p & m == 0 && m & 1 == 1
    ensures p & 1 == 0
  {}

  lemma PackEven(bits: seq<bool>)
    requires |bits| <= 15
    ensures Pack(bits) & 1 == 0
  {
    hide Shift, Xor, Half, Top;
    PackLowBitsClear(bits);
    LowMaskStep(|bits| + 1);
    MaskHasLowBit(Pack(bits), LowMask(|bits|));
  }

  lemma ShiftHalf(p: bv16)
    requires p & 1 == 0
    ensures Shift(Half(p)) == p
  {}

  lemma XorAssociative(c: bv16, t: bv16, q: bv16)
    ensures Xor(c, Xor(t, q)) == Xor(Xor(c, t), q)
  {}

  /** Feeding up to 16 bits is XORing them in and clocking without input. */
  lemma {:induction false} FeedIsShiftOfPack(c: bv16, bits: seq<bool>)
    requires |bits| <= 16
    ensures Feed(c, bits) == ShiftN(Xor(c, Pack(bits)), |bits|)
    decreases |bits|
  {
    hide Shift, Xor, Half, Top;
    if bits == [] {
      XorCancels(c, 0);
    } else {
      var t, p := Top(bits[0]), Pack(bits[1..]);
      FeedIsShiftOfPack(Shift(Xor(c, t)), bits[1..]);
      XorAssociative(c, t, Half(p));
      ShiftXor(Xor(c, t), Half(p));
      PackEven(bits[1..]);
      ShiftHalf(p);
    }
  }

  lemma {:induction false} ShiftNInjective(a: bv16, b: bv16, n: nat)
    requires ShiftN(a, n) == ShiftN(b, n)
    ensures a == b
    decreases n
  {
    hide Shift, Xor, Half, Top;
    if n == 0 {
    } else {
      ShiftNInjective(Shift(a), Shift(b), n - 1);
      ShiftInjective(a, b);
    }
  }

  lemma OrTopInjective(x: bool, y: bool, p: bv16, q: bv16)
    requires p & 1 == 0 && q & 1 == 0
    requires Xor(Top(x), Half(p)) == Xor(Top(y), Half(q))
    ensures x == y && p == q
  {}

  lemma {:induction false} PackInjective(u: seq<bool>, v: seq<bool>)
    requires |u| == |v| <= 16 && Pack(u) == Pack(v)
    ensures u == v
    decreases |u|
  {
    hide Shift, Xor, Half, Top;
    if u == [] {
    } else {
      PackEven(u[1..]);
      PackEven(v[1..]);
      OrTopInjective(u[0], v[0], Pack(u[1..]), Pack(v[1..]));
      PackInjective(u[1..], v[1..]);
      assert u == [u[0]] + u[1..] && v == [v[0]] + v[1..];
    }
  }

  lemma XorInjective(c: bv16, p: bv16, q: bv16)
    requires Xor(c, p) == Xor(c, q)
    ensures p == q
  {}

  /** From one register, different strings of at most 16 bits lead to different registers. */
  lemma WindowsSeparate(c: bv16, u: seq<bool>, v: seq<bool>)
    requires |u| == |v| <= 16 && u != v
    ensures Feed(c, u) != Feed(c, v)
  {
    hide Shift, Xor, Half, Top;
    FeedIsShiftOfPack(c, u);
    FeedIsShiftOfPack(c, v);
    if Feed(c, u) == Feed(c, v) {
      ShiftNInjective(Xor(c, Pack(u)), Xor(c, Pack(v)), |u|);
      XorInjective(c, Pack(u), Pack(v));
      PackInjective(u, v);
    }
  }

  // ---------------------------------------------------------------- error detection

  /** The two messages differ, and only inside some 16 consecutive bits. */
  ghost predicate BurstDiffer(m: seq<byte>, m': seq<byte>) {
    m != m' && |m| == |m'| &&
    exists i: nat :: DifferOnlyIn(Bits(m), Bits(m'), i)
  }

  ghost predicate DifferOnlyIn(s: seq<bool>, t: seq<bool>, i: nat) {
    |s| == |t| && forall j :: 0 <= j < |s| && s[j] != t[j] ==> i <= j < i + 16
  }

  function DiffCount(s: seq<bool>, t: seq<bool>): nat
    requires |s| == |t|
  {
    if s == [] then 0 else (if s[0] != t[0] then 1 else 0) + DiffCount(s[1..], t[1..])
  }

  /** An odd number of bits differ between the two messages. */
  ghost predicate OddDiffer(m: seq<byte>, m': seq<byte>) {
    |m| == |m'| && DiffCount(Bits(m), Bits(m')) % 2 == 1
  }

  lemma RawBitsInjective(a: bv8, b: bv8)
    requires RawBits(a) == RawBits(b)
    ensures a == b
  {
    assert RawBits(a)[0] == RawBits(b)[0] && RawBits(a)[1] == RawBits(b)[1];
    assert RawBits(a)[2] == RawBits(b)[2] && RawBits(a)[3] == RawBits(b)[3];
    assert RawBits(a)[4] == RawBits(b)[4] && RawBits(a)[5] == RawBits(b)[5];
    assert RawBits(a)[6] == RawBits(b)[6] && RawBits(a)[7] == RawBits(b)[7];
  }

  lemma IntOfRaw(b: bv8)
    ensures 0 <= b as int < 256 && (b as int) as bv8 == b
    ensures b == 255 ==> b as int == 255
  {}

  lemma NextRaw(b: bv8)
    requires b != 255
    ensures (b + 1) as int == b as int + 1
  {}

  lemma {:induction false} RawOfInt(n: nat) returns (b: bv8)
    requires n < 256
    ensures b as int == n
  {
    if n == 0 {
      b := 0;
    } else {
      var a := RawOfInt(n - 1);
      IntOfRaw(a);
      NextRaw(a);
      b := a + 1;
    }
  }

  lemma RawRoundTrip(n: nat)
    requires n < 256
    ensures (n as bv8) as int == n
  {
    var b := RawOfInt(n);
    IntOfRaw(b);
  }

  lemma ByteBitsInjective(a: byte, b: byte)
    requires ByteBits(a) == ByteBits(b)
    ensures a == b
  {
    hide RawBits;
    RawBitsInjective(Raw(a), Raw(b));
    RawRoundTrip(a as nat);
    RawRoundTrip(b as nat);
  }

  lemma {:induction false} BitsInjective(m: seq<byte>, m': seq<byte>)
    requires Bits(m) == Bits(m')
    ensures m == m'
    decreases |m|
  {
    if m == [] {
    } else {
      var s, t := Bits(m), Bits(m');
      assert s[..8] == ByteBits(m[0]) && t[..8] == ByteBits(m'[0]);
      assert s[8..] == Bits(m[1..]) && t[8..] == Bits(m'[1..]);
      ByteBitsInjective(m[0], m'[0]);
      BitsInjective(m[1..], m'[1..]);
      assert m == [m[0]] + m[1..] && m' == [m'[0]] + m'[1..];
    }
  }

  /** A window of at most 16 differing bits between equal bits is not forgotten. */
  lemma WindowChangesFeed(c: bv16, pre: seq<bool>, u: seq<bool>, v: seq<bool>, post: seq<bool>)
    requires |u| == |v| <= 16 && u != v
    ensures Feed(c, pre + u + post) != Feed(c, pre + v + post)
  {
    hide Shift, Xor, Half, Top;
    FeedConcat(c, pre + u, post);
    FeedConcat(c, pre + v, post);
    FeedConcat(c, pre, u);
    FeedConcat(c, pre, v);
    var d := Feed(c, pre);
    WindowsSeparate(d, u, v);
    if Feed(c, pre + u + post) == Feed(c, pre + v + post) {
      FeedInjective(Feed(d, u), Feed(d, v), post);
    }
  }

  /** Every burst of at most 16 bits changes the CRC, whatever the message length. */
  lemma BurstChangesCrc(seed: bv16, m: seq<byte>, m': seq<byte>)
    requires BurstDiffer(m, m')
    ensures Crc16(seed, m) != Crc16(seed, m')
  {
    hide Feed, Bits;
    var s, t := Bits(m), Bits(m');
    var i: nat :| DifferOnlyIn(s, t, i);
    if s == t {
      BitsInjective(m, m');
    }
    var lo := if i <= |s| then i else |s|;
    var hi := if i + 16 <= |s| then i + 16 else |s|;
    assert s[..lo] == t[..lo] && s[hi..] == t[hi..];
    assert s == s[..lo] + s[lo..hi] + s[hi..];
    assert t == t[..lo] + t[lo..hi] + t[hi..];
    WindowChangesFeed(seed, s[..lo], s[lo..hi], t[lo..hi], s[hi..]);
  }

  function One(b: bool): nat { if b then 1 else 0 }

  /** Number of set bits. */
  function Pop(c: bv16): nat {
    One(c & 0x0001 != 0) + One(c & 0x0002 != 0) + One(c & 0x0004 != 0) + One(c & 0x0008 != 0) +
    One(c & 0x0010 != 0) + One(c & 0x0020 != 0) + One(c & 0x0040 != 0) + One(c & 0x0080 != 0) +
    One(c & 0x0100 != 0) + One(c & 0x0200 != 0) + One(c & 0x0400 != 0) + One(c & 0x0800 != 0) +
    One(c & 0x1000 != 0) + One(c & 0x2000 != 0) + One(c & 0x4000 != 0) + One(c & 0x8000 != 0)
  }

  lemma PopDoubleLow(c: bv16)
    requires c & 0x8000 == 0
    ensures Pop(c << 1) == Pop(c)
  {}

  lemma PopDoubleTop(c: bv16)
    requires c & 0x8000 != 0
    ensures Pop(c << 1) == Pop(c) - 1
  {}

  lemma PopFeedback(c: bv16)
    ensures Pop(c ^ 0x1021) == Pop(c) + 3 - 2 * (One(c & 0x0001 != 0) + One(c & 0x0020 != 0) + One(c & 0x1000 != 0))
  {}

  lemma PopFlipTop0(c: bv16)
    requires c & 0x8000 == 0
    ensures Pop(c ^ 0x8000) == Pop(c) + 1
  {}

  lemma PopFlipTop1(c: bv16)
    requires c & 0x8000 != 0
    ensures Pop(c ^ 0x8000) == Pop(c) - 1
  {}

  lemma XorTop(c: bv16)
    ensures Xor(c, Top(true)) == c ^ 0x8000 && Xor(c, Top(false)) == c
  {}

  /** The register holds an odd number of set bits. */
  predicate OddPop(c: bv16) {
    Pop(c) % 2 == 1
  }

  lemma XorTopParity(c: bv16, bit: bool)
    ensures OddPop(Xor(c, Top(bit))) == (OddPop(c) != bit)
  {
    hide Pop, Xor, Top;
    XorTop(c);
    if c & 0x8000 == 0 { PopFlipTop0(c); } else { PopFlipTop1(c); }
  }

  lemma ShiftCases(c: bv16)
    ensures c & 0x8000 == 0 ==> Shift(c) == c << 1
    ensures c & 0x8000 != 0 ==> Shift(c) == (c << 1) ^ 0x1021
  {}

  /** The generator has an even number of terms, so a clock keeps the parity. */
  lemma ShiftKeepsParity(c: bv16)
    ensures OddPop(Shift(c)) == OddPop(c)
  {
    hide Pop, Shift;
    ShiftCases(c);
    if c & 0x8000 == 0 {
      PopDoubleLow(c);
    } else {
      PopDoubleTop(c);
      PopFeedback(c << 1);
    }
  }

  /** Two registers fed with strings that differ in an odd number of bits end with
      different parities exactly if they started with equal ones. */
  lemma {:induction false} FeedParity(a: bv16, b: bv16, s: seq<bool>, t: seq<bool>)
    requires |s| == |t|
    ensures (OddPop(Feed(a, s)) == OddPop(Feed(b, t))) == ((OddPop(a) == OddPop(b)) == (DiffCount(s, t) % 2 == 0))
    decreases |s|
  {
    hide Shift, Xor, Half, Top, OddPop;
    if s == [] {
    } else {
      var x, y := Xor(a, Top(s[0])), Xor(b, Top(t[0]));
      XorTopParity(a, s[0]);
      XorTopParity(b, t[0]);
      ShiftKeepsParity(x);
      ShiftKeepsParity(y);
      FeedParity(Shift(x), Shift(y), s[1..], t[1..]);
    }
  }

  /** Every odd number of flipped bits changes the CRC. */
  lemma OddFlipChangesCrc(seed: bv16, m: seq<byte>, m': seq<byte>)
    requires OddDiffer(m, m')
    ensures Crc16(seed, m) != Crc16(seed, m')
  {
    hide Pop;
    FeedParity(seed, seed, Bits(m), Bits(m'));
  }

  // ---------------------------------------------------------------- the byte-wise loops

  /** `Pack` of eight bits, unfolded. */
  function Nested(s: seq<bool>): bv16
    requires |s| == 8
  {
    Xor(Top(s[0]), Half(Xor(Top(s[1]), Half(Xor(Top(s[2]), Half(Xor(Top(s[3]), Half(
    Xor(Top(s[4]), Half(Xor(Top(s[5]), Half(Xor(Top(s[6]), Half(Xor(Top(s[7]), Half(0))))))))))))))))
  }

  lemma {:induction false} PackDrop(s: seq<bool>, k: nat)
    requires k <= |s|
    ensures Pack(s[k..]) == if k == |s| then 0 else Xor(Top(s[k]), Half(Pack(s[k + 1..])))
  {
    hide Xor, Half, Top;
    assert k < |s| ==> s[k..][1..] == s[k + 1..];
  }

  lemma PackEight(s: seq<bool>)
    requires |s| == 8
    ensures Pack(s) == Nested(s)
  {
    hide Xor, Half, Top, Pack;
    PackDrop(s, 8);
    PackDrop(s, 7);
    PackDrop(s, 6);
    PackDrop(s, 5);
    PackDrop(s, 4);
    PackDrop(s, 3);
    PackDrop(s, 2);
    PackDrop(s, 1);
    PackDrop(s, 0);
    assert s[0..] == s;
  }

  lemma NestedOfRaw(b: bv8)
    ensures Nested(RawBits(b)) == (b as bv16) << 8
  {}

  /** A byte moved to the top half of the register. */
  function High(b: byte): bv16 { Wide(b) << 8 }

  lemma NestedOfByte(b: byte)
    ensures Nested(ByteBits(b)) == High(b)
  {
    hide Nested, RawBits, Raw;
    NestedOfRaw(Raw(b));
  }

  /** XORing a byte into the top half and clocking eight times feeds its bits. */
  lemma ByteStep(c: bv16, b: byte)
    ensures ShiftN(Xor(c, High(b)), 8) == Crc16(c, [b])
  {
    hide Shift, Xor, Half, Top, Nested, High, ByteBits;
    assert Bits([b]) == ByteBits(b);
    FeedIsShiftOfPack(c, ByteBits(b));
    PackEight(ByteBits(b));
    NestedOfByte(b);
  }

  // ---------------------------------------------------------------- residues

  lemma EightClocks(c: bv16)
    ensures ShiftN(c, 8) == Shift(Shift(Shift(Shift(Shift(Shift(Shift(Shift(c))))))))
  {
    hide Shift;
    var c2, c4 := Shift(Shift(c)), Shift(Shift(Shift(Shift(c))));
    var c6 := Shift(Shift(c4));
    assert ShiftN(c, 8) == ShiftN(c2, 6);
    assert ShiftN(c2, 6) == ShiftN(c4, 4);
    assert ShiftN(c4, 4) == ShiftN(c6, 2);
  }

  lemma LowByteClocksUp(b: bv8)
    ensures ShiftN(b as bv16, 8) == (b as bv16) << 8
  {
    EightClocks(b as bv16);
  }

  lemma XorBack(c: bv16, h: bv16)
    ensures Xor(h, Xor(c, h)) == c
  {}

  lemma XorForth(h: bv16, w: bv16)
    ensures Xor(Xor(h, w), h) == w
  {}

  /** Two more bytes bring the register to zero exactly if they are its two halves, high first. */
  lemma TwoByteResidue(c: bv16, b1: byte, b2: byte)
    ensures Crc16(c, [b1, b2]) == 0 <==> c == Xor(High(b1), Wide(b2))
  {
    hide Shift, Xor, Half, Top, High, ByteBits, Bits, Raw, ShiftN;
    assert [b1] + [b2] == [b1, b2];
    CrcConcat(c, [b1], [b2]);
    ByteStep(c, b1);
    var mid := Crc16(c, [b1]);
    ByteStep(mid, b2);
    ZeroStays(8);
    if ShiftN(Xor(mid, High(b2)), 8) == 0 { ShiftNInjective(Xor(mid, High(b2)), 0, 8); }
    XorCancels(mid, High(b2));
    WideClocksUp(b2);
    if mid == High(b2) { ShiftNInjective(Xor(c, High(b1)), Wide(b2), 8); }
    XorBack(c, High(b1));
    XorForth(High(b1), Wide(b2));
  }

  lemma WideClocksUp(b: byte)
    ensures ShiftN(Wide(b), 8) == High(b)
  {
    hide Shift, ShiftN;
    LowByteClocksUp(Raw(b));
  }

  lemma {:induction false} ZeroStays(n: nat)
    ensures ShiftN(0, n) == 0
    decreases n
  {
    if n > 0 { ZeroStays(n - 1); }
  }

  // crc16.c: crc16_ccitt_update
  method Update(seed: bv16, data: seq<byte>) returns (crc: bv16)
    ensures crc == Crc16(seed, data)
  {
    hide Shift, Half, Top, Pack, Wide;
    crc := seed;
    for i := 0 to |data|
      invariant crc == Crc16(seed, data[..i])
    {
      ghost var before := crc;
      crc := crc ^ (Wide(data[i]) << 8);
      ghost var mixed := crc;
      assert mixed == Xor(before, High(data[i]));
      for b := 0 to 8
        invariant ShiftN(crc, 8 - b) == ShiftN(mixed, 8)
      {
        ShiftCases(crc);
        if crc & 0x8000 != 0 {
          crc := (crc << 1) ^ 0x1021;
        } else {
          crc := crc << 1;
        }
      }
      ByteStep(before, data[i]);
      CrcConcat(seed, data[..i], [data[i]]);
      assert data[..i + 1] == data[..i] + [data[i]];
    }
    assert data[..|data|] == data;
  }

  // ---------------------------------------------------------------- Python: masked late

  /** The low half of an integer that is masked only after the eight clocks. Eight
      doublings of a 16-bit value need 24 bits, so 32 bits hold it exactly. */
  function Low(x: bv32): bv16 {
    (x & 0xFFFF) as bv16
  }

  lemma LowOfClockTop(x: bv32)
    requires x & 0x8000 != 0
    ensures Low((x << 1) ^ 0x1021) == Shift(Low(x))
  {}

  lemma LowOfClockLow(x: bv32)
    requires x & 0x8000 == 0
    ensures Low(x << 1) == Shift(Low(x))
  {}

  /** `crc ^ (byte << 8)` in wide arithmetic. */
  function Mixed(c: bv16, b: byte): bv32 {
    (c as bv32) ^ ((Raw(b) as bv32) << 8)
  }

  lemma LowOfMixed(c: bv16, b: byte)
    ensures Low(Mixed(c, b)) == Xor(c, High(b))
  {
    LowOfMixedRaw(c, Raw(b));
  }

  lemma LowOfMixedRaw(c: bv16, b: bv8)
    ensures Low((c as bv32) ^ ((b as bv32) << 8)) == Xor(c, (b as bv16) << 8)
  {}

  // crc.py: crc16_step
  method Step(crc: bv16, b: byte) returns (next: bv16)
    ensures next == Crc16(crc, [b])
  {
    hide Shift, Half, Top, Pack, Low, Xor, High, Mixed;
    var x := Mixed(crc, b);
    LowOfMixed(crc, b);
    for k := 0 to 8
      invariant ShiftN(Low(x), 8 - k) == ShiftN(Xor(crc, High(b)), 8)
    {
      if x & 0x8000 != 0 {
        LowOfClockTop(x);
        x := (x << 1) ^ 0x1021;
      } else {
        LowOfClockLow(x);
        x := x << 1;
      }
    }
    ByteStep(crc, b);
    next := Low(x);
  }

  // crc.py: crc16_ccitt
  method Bulk(data: seq<byte>, seed: bv16) returns (crc: bv16)
    ensures crc == Crc16(seed, data)
  {
    crc := seed;
    for i := 0 to |data|
      invariant crc == Crc16(seed, data[..i])
    {
      crc := Step(crc, data[i]);
      CrcConcat(seed, data[..i], [data[i]]);
      assert data[..i + 1] == data[..i] + [data[i]];
    }
    assert data[..|data|] == data;
  }
}
