/** The checksum of src/comm/CRC16.C, by the polynomial x^16 + x^12 + x^5 + 1. */
module Crc16 {
  function Pick(i: bv8, a: bv16, b: bv16, c: bv16, d: bv16, e: bv16, f: bv16, g: bv16, h: bv16): bv16 {
    var k := i & 7;
    if k < 4 then if k < 2 then if k == 0 then a else b else if k == 2 then c else d
    else if k < 6 then if k == 4 then e else f else if k == 6 then g else h
  }

  function Crc16Table(i: bv8): bv16 {
    if i < 8 then Pick(i, 0x0000, 0x1021, 0x2042, 0x3063, 0x4084, 0x50a5, 0x60c6, 0x70e7)
    else if i < 16 then Pick(i, 0x8108, 0x9129, 0xa14a, 0xb16b, 0xc18c, 0xd1ad, 0xe1ce, 0xf1ef)
    else if i < 24 then Pick(i, 0x1231, 0x0210, 0x3273, 0x2252, 0x52b5, 0x4294, 0x72f7, 0x62d6)
    else if i < 32 then Pick(i, 0x9339, 0x8318, 0xb37b, 0xa35a, 0xd3bd, 0xc39c, 0xf3ff, 0xe3de)
    else if i < 40 then Pick(i, 0x2462, 0x3443, 0x0420, 0x1401, 0x64e6, 0x74c7, 0x44a4, 0x5485)
    else if i < 48 then Pick(i, 0xa56a, 0xb54b, 0x8528, 0x9509, 0xe5ee, 0xf5cf, 0xc5ac, 0xd58d)
    else if i < 56 then Pick(i, 0x3653, 0x2672, 0x1611, 0x0630, 0x76d7, 0x66f6, 0x5695, 0x46b4)
    else if i < 64 then Pick(i, 0xb75b, 0xa77a, 0x9719, 0x8738, 0xf7df, 0xe7fe, 0xd79d, 0xc7bc)
    else if i < 72 then Pick(i, 0x48c4, 0x58e5, 0x6886, 0x78a7, 0x0840, 0x1861, 0x2802, 0x3823)
    else if i < 80 then Pick(i, 0xc9cc, 0xd9ed, 0xe98e, 0xf9af, 0x8948, 0x9969, 0xa90a, 0xb92b)
    else if i < 88 then Pick(i, 0x5af5, 0x4ad4, 0x7ab7, 0x6a96, 0x1a71, 0x0a50, 0x3a33, 0x2a12)
    else if i < 96 then Pick(i, 0xdbfd, 0xcbdc, 0xfbbf, 0xeb9e, 0x9b79, 0x8b58, 0xbb3b, 0xab1a)
    else if i < 104 then Pick(i, 0x6ca6, 0x7c87, 0x4ce4, 0x5cc5, 0x2c22, 0x3c03, 0x0c60, 0x1c41)
    else if i < 112 then Pick(i, 0xedae, 0xfd8f, 0xcdec, 0xddcd, 0xad2a, 0xbd0b, 0x8d68, 0x9d49)
    else if i < 120 then Pick(i, 0x7e97, 0x6eb6, 0x5ed5, 0x4ef4, 0x3e13, 0x2e32, 0x1e51, 0x0e70)
    else if i < 128 then Pick(i, 0xff9f, 0xefbe, 0xdfdd, 0xcffc, 0xbf1b, 0xaf3a, 0x9f59, 0x8f78)
    else if i < 136 then Pick(i, 0x9188, 0x81a9, 0xb1ca, 0xa1eb, 0xd10c, 0xc12d, 0xf14e, 0xe16f)
    else if i < 144 then Pick(i, 0x1080, 0x00a1, 0x30c2, 0x20e3, 0x5004, 0x4025, 0x7046, 0x6067)
    else if i < 152 then Pick(i, 0x83b9, 0x9398, 0xa3fb, 0xb3da, 0xc33d, 0xd31c, 0xe37f, 0xf35e)
    else if i < 160 then Pick(i, 0x02b1, 0x1290, 0x22f3, 0x32d2, 0x4235, 0x5214, 0x6277, 0x7256)
    else if i < 168 then Pick(i, 0xb5ea, 0xa5cb, 0x95a8, 0x8589, 0xf56e, 0xe54f, 0xd52c, 0xc50d)
    else if i < 176 then Pick(i, 0x34e2, 0x24c3, 0x14a0, 0x0481, 0x7466, 0x6447, 0x5424, 0x4405)
    else if i < 184 then Pick(i, 0xa7db, 0xb7fa, 0x8799, 0x97b8, 0xe75f, 0xf77e, 0xc71d, 0xd73c)
    else if i < 192 then Pick(i, 0x26d3, 0x36f2, 0x0691, 0x16b0, 0x6657, 0x7676, 0x4615, 0x5634)
    else if i < 200 then Pick(i, 0xd94c, 0xc96d, 0xf90e, 0xe92f, 0x99c8, 0x89e9, 0xb98a, 0xa9ab)
    else if i < 208 then Pick(i, 0x5844, 0x4865, 0x7806, 0x6827, 0x18c0, 0x08e1, 0x3882, 0x28a3)
    else if i < 216 then Pick(i, 0xcb7d, 0xdb5c, 0xeb3f, 0xfb1e, 0x8bf9, 0x9bd8, 0xabbb, 0xbb9a)
    else if i < 224 then Pick(i, 0x4a75, 0x5a54, 0x6a37, 0x7a16, 0x0af1, 0x1ad0, 0x2ab3, 0x3a92)
    else if i < 232 then Pick(i, 0xfd2e, 0xed0f, 0xdd6c, 0xcd4d, 0xbdaa, 0xad8b, 0x9de8, 0x8dc9)
    else if i < 240 then Pick(i, 0x7c26, 0x6c07, 0x5c64, 0x4c45, 0x3ca2, 0x2c83, 0x1ce0, 0x0cc1)
    else if i < 248 then Pick(i, 0xef1f, 0xff3e, 0xcf5d, 0xdf7c, 0xaf9b, 0xbfba, 0x8fd9, 0x9ff8)
    else Pick(i, 0x6e17, 0x7e36, 0x4e55, 0x5e74, 0x2e93, 0x3eb2, 0x0ed1, 0x1ef0)
  }

  /** UpdateCRC16, which calcBlockCRC16i repeats for each octet. */
  function UpdateCRC16(o: bv8, crc: bv16): bv16 {
    Crc16Table(((crc >> 8) & 255) as bv8) ^ (crc << 8) ^ (o as bv16)
  }

  function UpdateCRC(o: bv8, crc: bv16): bv16 {
    (crc << 8) ^ Crc16Table(((crc >> 8) ^ (o as bv16)) as bv8)
  }

  function Block(data: seq<bv8>, init: bv16): bv16 {
    if data == [] then init else UpdateCRC16(data[|data| - 1], Block(data[..|data| - 1], init))
  }

  method CalcBlockCRC16i(data: seq<bv8>, sz: nat, initCRC: bv16) returns (crc: bv16)
    requires sz <= |data|
    ensures crc == Block(data[..sz], initCRC)
  {
    crc := initCRC;
    for i := 0 to sz
      invariant crc == Block(data[..i], initCRC)
    {
      assert data[..i + 1][..i] == data[..i];
      crc := UpdateCRC16(data[i], crc);
    }
  }

  // ---------------------------------------------------------------- division, bit by bit

  /** A register: the coefficients of x^15 down to 1. */
  type Register = s: seq<bool> | |s| == 16 witness seq(16, _ => false)

  function Zeros(n: nat): (r: seq<bool>)
    ensures |r| == n
  {
    seq(n, _ => false)
  }

  function Xor(s: seq<bool>, t: seq<bool>): (r: seq<bool>)
    requires |s| == |t|
    ensures |r| == |s|
  {
    seq(|s|, k requires 0 <= k < |s| => s[k] != t[k])
  }

  /** Below x^16, the polynomial has x^12, x^5 and 1. */
  predicate Tap(k: int) {
    k == 3 || k == 10 || k == 15
  }

  /** A bit of the message comes in from below. If a bit leaves at the top, the polynomial is
    * subtracted. */
  function Feed1(s: Register, b: bool): Register {
    seq(16, k requires 0 <= k < 16 => (if k < 15 then s[k + 1] else b) != (s[0] && Tap(k)))
  }

  function Feed(s: Register, m: seq<bool>): Register {
    if m == [] then s else Feed1(Feed(s, m[..|m| - 1]), m[|m| - 1])
  }

  lemma {:induction false} FeedConcat(s: Register, m: seq<bool>, n: seq<bool>)
    ensures Feed(s, m + n) == Feed(Feed(s, m), n)
  {
    if n == [] {
      assert m + n == m;
    } else {
      assert (m + n)[..|m + n| - 1] == m + n[..|n| - 1];
      FeedConcat(s, m, n[..|n| - 1]);
    }
  }

  /** Superposition. */
  lemma {:induction false} FeedLinear(s: Register, t: Register, m: seq<bool>, n: seq<bool>)
    requires |m| == |n|
    ensures Feed(Xor(s, t), Xor(m, n)) == Xor(Feed(s, m), Feed(t, n))
  {
    if m == [] {
    } else {
      var k := |m| - 1;
      FeedLinear(s, t, m[..k], n[..k]);
      assert Xor(m, n)[..k] == Xor(m[..k], n[..k]);
    }
  }

  lemma FeedShiftsOnce(s: Register, b: bool)
    requires !s[0]
    ensures Feed1(s, b) == s[1..] + [b]
  {
  }

  /** While zeros leave at the top, the register only shifts. */
  lemma {:induction false} FeedShifts(s: Register, m: seq<bool>)
    requires |m| <= 16 && forall i | 0 <= i < |m| :: !s[i]
    ensures Feed(s, m) == s[|m|..] + m
  {
    if m == [] {
    } else {
      var k := |m| - 1;
      FeedShifts(s, m[..k]);
      FeedShiftsOnce(Feed(s, m[..k]), m[k]);
      assert (s[k..] + m[..k])[1..] == s[k + 1..] + m[..k];
      assert m[..k] + [m[k]] == m;
    }
  }

  /** Nothing but zero becomes zero. */
  lemma {:induction false} FeedInjective(s: Register, n: nat)
    requires Feed(s, Zeros(n)) == Zeros(16)
    ensures s == Zeros(16)
  {
    if n > 0 {
      var t := Feed(s, Zeros(n - 1));
      assert Zeros(n)[..n - 1] == Zeros(n - 1);
      assert Feed1(t, false)[15] == t[0];
      forall k | 0 < k < 16 ensures !t[k] {
        assert Feed1(t, false)[k - 1] == (t[k] != (t[0] && Tap(k - 1)));
      }
      assert t == Zeros(16);
      FeedInjective(s, n - 1);
    }
  }

  // ---------------------------------------------------------------- the table and the bits

  const MASKS: seq<bv16> := [
    0x8000, 0x4000, 0x2000, 0x1000, 0x0800, 0x0400, 0x0200, 0x0100,
    0x0080, 0x0040, 0x0020, 0x0010, 0x0008, 0x0004, 0x0002, 0x0001
  ]

  predicate Bit(c: bv16, m: bv16) {
    c & m != 0
  }

  function Bits(c: bv16): Register {
    seq(16, k requires 0 <= k < 16 => Bit(c, MASKS[k]))
  }

  function OctetBits(o: bv8): (r: seq<bool>)
    ensures |r| == 8
  {
    Bits(o as bv16)[8..]
  }

  function MessageBits(data: seq<bv8>): seq<bool> {
    if data == [] then [] else MessageBits(data[..|data| - 1]) + OctetBits(data[|data| - 1])
  }

  function Shift(c: bv16): bv16 {
    (c << 1) ^ if c & 0x8000 != 0 then 0x1021 else 0
  }

  function Shift8(c: bv16): bv16 {
    Shift(Shift(Shift(Shift(Shift(Shift(Shift(Shift(c))))))))
  }

  lemma TableEntry(i: bv8)
    ensures Crc16Table(i) == Shift8((i as bv16) << 8)
  {
  }

  predicate OneBit(m: bv16) {
    || m == 0x8000 || m == 0x4000 || m == 0x2000 || m == 0x1000 || m == 0x0800 || m == 0x0400 || m == 0x0200
    || m == 0x0100 || m == 0x0080 || m == 0x0040 || m == 0x0020 || m == 0x0010 || m == 0x0008 || m == 0x0004
    || m == 0x0002 || m == 0x0001
  }

  lemma Masks(k: nat)
    requires k < 16
    ensures OneBit(MASKS[k])
    ensures k < 15 ==> MASKS[k] == MASKS[k + 1] << 1
    ensures Bit(0x1021, MASKS[k]) == Tap(k)
    ensures MASKS[0] == 0x8000 && MASKS[15] == 1 && (k > 0 ==> MASKS[k] != 0x8000)
  {
  }

  lemma MaskBit(c: bv16, m: bv16)
    requires OneBit(m)
    ensures m != 0 && (c & m == 0 || c & m == m)
  {
  }

  lemma MaskXor(a: bv16, b: bv16, m: bv16)
    requires m != 0 && (a & m == 0 || a & m == m) && (b & m == 0 || b & m == m)
    ensures Bit(a ^ b, m) == (Bit(a, m) != Bit(b, m))
  {
  }

  lemma BitXor(a: bv16, b: bv16, m: bv16)
    requires OneBit(m)
    ensures Bit(a ^ b, m) == (Bit(a, m) != Bit(b, m))
  {
    MaskBit(a, m);
    MaskBit(b, m);
    MaskXor(a, b, m);
  }

  lemma BitXorAt(a: bv16, b: bv16, k: nat)
    requires k < 16
    ensures Bit(a ^ b, MASKS[k]) == (Bit(a, MASKS[k]) != Bit(b, MASKS[k]))
  {
    Masks(k);
    BitXor(a, b, MASKS[k]);
  }

  lemma BitsXor(a: bv16, b: bv16)
    ensures Bits(a ^ b) == Xor(Bits(a), Bits(b))
  {
    forall k | 0 <= k < 16 ensures Bits(a ^ b)[k] == Xor(Bits(a), Bits(b))[k] {
      BitXorAt(a, b, k);
    }
  }

  lemma BitUp(c: bv16, m: bv16)
    requires OneBit(m)
    ensures m != 0x8000 ==> Bit(c << 1, m << 1) == Bit(c, m)
    ensures !Bit(c << 1, 1)
  {
  }

  lemma BitShift(c: bv16, m: bv16)
    requires OneBit(m)
    ensures Bit(Shift(c), m) == (Bit(c << 1, m) != (Bit(c, 0x8000) && Bit(0x1021, m)))
  {
    if c & 0x8000 != 0 {
      BitXor(c << 1, 0x1021, m);
    } else {
      BitXor(c << 1, 0, m);
    }
  }

  lemma BitUpAt(c: bv16, k: nat)
    requires k < 16
    ensures Bit(c << 1, MASKS[k]) == (k < 15 && Bit(c, MASKS[k + 1]))
  {
    if k < 15 {
      Masks(k);
      Masks(k + 1);
      BitUp(c, MASKS[k + 1]);
    } else {
      BitUp(c, 1);
    }
  }

  lemma BitShiftAt(c: bv16, k: nat, m: bv16)
    requires k < 16 && m == MASKS[k]
    ensures Bit(Shift(c), m) == ((k < 15 && Bit(c, MASKS[k + 1])) != (Bit(c, 0x8000) && Tap(k)))
  {
    Masks(k);
    BitShift(c, m);
    BitUpAt(c, k);
  }

  lemma BitsShift(c: bv16)
    ensures Bits(Shift(c)) == Feed1(Bits(c), false)
  {
    forall k | 0 <= k < 16 ensures Bits(Shift(c))[k] == Feed1(Bits(c), false)[k] {
      BitShiftAt(c, k, MASKS[k]);
    }
  }

  lemma NoBits(c: bv16)
    requires !Bit(c, 0x8000) && !Bit(c, 0x4000) && !Bit(c, 0x2000) && !Bit(c, 0x1000)
    requires !Bit(c, 0x0800) && !Bit(c, 0x0400) && !Bit(c, 0x0200) && !Bit(c, 0x0100)
    requires !Bit(c, 0x0080) && !Bit(c, 0x0040) && !Bit(c, 0x0020) && !Bit(c, 0x0010)
    requires !Bit(c, 0x0008) && !Bit(c, 0x0004) && !Bit(c, 0x0002) && !Bit(c, 0x0001)
    ensures c == 0
  {
  }

  lemma AllZero(c: bv16)
    requires Bits(c) == Zeros(16)
    ensures c == 0
  {
    forall k | 0 <= k < 16 ensures !Bit(c, MASKS[k]) {
      assert Bits(c)[k] == Zeros(16)[k];
    }
    assert !Bit(c, MASKS[0]) && !Bit(c, MASKS[1]) && !Bit(c, MASKS[2]) && !Bit(c, MASKS[3]) && !Bit(c, MASKS[4])
           && !Bit(c, MASKS[5]) && !Bit(c, MASKS[6]) && !Bit(c, MASKS[7]) && !Bit(c, MASKS[8]) && !Bit(c, MASKS[9])
           && !Bit(c, MASKS[10]) && !Bit(c, MASKS[11]) && !Bit(c, MASKS[12]) && !Bit(c, MASKS[13])
           && !Bit(c, MASKS[14]) && !Bit(c, MASKS[15]);
    NoBits(c);
  }

  lemma BitsInjective(a: bv16, b: bv16)
    requires Bits(a) == Bits(b)
    ensures a == b
  {
    BitsXor(a, b);
    AllZero(a ^ b);
  }

  lemma Shift8Bits(c: bv16)
    ensures Bits(Shift8(c)) == Feed(Bits(c), Zeros(8))
  {
    var x := c;
    for i := 0 to 8
      invariant Bits(x) == Feed(Bits(c), Zeros(i))
      invariant Times(i, c) == x
    {
      BitsShift(x);
      assert Zeros(i + 1)[..i] == Zeros(i);
      x := Shift(x);
    }
    TimesIsShift8(c);
  }

  function Times(n: nat, c: bv16): bv16 {
    if n == 0 then c else Shift(Times(n - 1, c))
  }

  lemma TimesIsShift8(c: bv16)
    ensures Times(8, c) == Shift8(c)
  {
    assert Times(0, c) == c;
    assert Times(1, c) == Shift(c);
    assert Times(2, c) == Shift(Shift(c));
    assert Times(4, c) == Shift(Shift(Times(2, c)));
    assert Times(6, c) == Shift(Shift(Times(4, c)));
  }

  lemma LowOctet(o: bv8)
    ensures Shift8(o as bv16) == (o as bv16) << 8
  {
  }

  lemma OctetZeros(o: bv8)
    ensures Bits(o as bv16) == Zeros(8) + OctetBits(o)
  {
    var s := Bits(o as bv16);
    assert MASKS[0] & 0xFF == MASKS[1] & 0xFF == MASKS[2] & 0xFF == MASKS[3] & 0xFF == 0;
    assert MASKS[4] & 0xFF == MASKS[5] & 0xFF == MASKS[6] & 0xFF == MASKS[7] & 0xFF == 0;
    forall i | 0 <= i < 8 ensures s[i] == Zeros(8)[i] {
      OctetMask(o, MASKS[i]);
    }
    assert s[..8] == Zeros(8);
  }

  lemma OctetMask(o: bv8, m: bv16)
    requires m & 0xFF == 0
    ensures !Bit(o as bv16, m)
  {
  }

  /** UpdateCRC16 in terms of the two octets of the register. */
  lemma Halves(o: bv8, c: bv16) returns (hi: bv8, lo: bv8)
    ensures c == ((hi as bv16) << 8) ^ (lo as bv16)
    ensures UpdateCRC16(o, c) == Crc16Table(hi) ^ ((lo as bv16) << 8) ^ (o as bv16)
  {
    hi, lo := ((c >> 8) & 255) as bv8, (c & 255) as bv8;
    assert c << 8 == (lo as bv16) << 8;
  }

  // ---------------------------------------------------------------- what the code computes

  /** A fresh message bit only adds itself, until it has reached the top. */
  lemma SplitOff(s: Register, m: seq<bool>, o: bv8)
    requires m == OctetBits(o)
    ensures Feed(s, m) == Xor(Feed(s, Zeros(8)), Bits(o as bv16))
  {
    var none: Register := Zeros(16);
    FeedLinear(s, none, Zeros(8), m);
    assert Xor(s, none) == s && Xor(Zeros(8), m) == m;
    FeedShifts(none, m);
    OctetZeros(o);
    assert none[8..] == Zeros(8);
  }

  lemma FeedXor(a: bv16, b: bv16, m: seq<bool>)
    ensures Feed(Bits(a ^ b), m) == Xor(Feed(Bits(a), m), Feed(Bits(b), Zeros(|m|)))
  {
    BitsXor(a, b);
    FeedLinear(Bits(a), Bits(b), m, Zeros(|m|));
    assert Xor(m, Zeros(|m|)) == m;
  }

  lemma HighStep(hi: bv8)
    ensures Bits(Crc16Table(hi)) == Feed(Bits((hi as bv16) << 8), Zeros(8))
  {
    TableEntry(hi);
    Shift8Bits((hi as bv16) << 8);
  }

  lemma LowStep(lo: bv8)
    ensures Bits((lo as bv16) << 8) == Feed(Bits(lo as bv16), Zeros(8))
  {
    LowOctet(lo);
    Shift8Bits(lo as bv16);
  }

  /** Eight steps at once, if `t` is what the upper octet `a` becomes and `u` what the lower one, `b`, does. */
  lemma EightSteps(a: bv16, b: bv16, t: bv16, u: bv16, o: bv8)
    requires Bits(t) == Feed(Bits(a), Zeros(8)) && Bits(u) == Feed(Bits(b), Zeros(8))
    ensures Bits(t ^ u ^ (o as bv16)) == Feed(Bits(a ^ b), OctetBits(o))
  {
    BitsXor(t, u);
    FeedXor(a, b, Zeros(8));
    BitsXor(t ^ u, o as bv16);
    SplitOff(Bits(a ^ b), OctetBits(o), o);
  }

  lemma Parts(o: bv8, c: bv16) returns (a: bv16, b: bv16, t: bv16, u: bv16)
    ensures UpdateCRC16(o, c) == t ^ u ^ (o as bv16) && c == a ^ b
    ensures Bits(t) == Feed(Bits(a), Zeros(8)) && Bits(u) == Feed(Bits(b), Zeros(8))
  {
    var hi, lo := Halves(o, c);
    HighStep(hi);
    LowStep(lo);
    a, b, t, u := (hi as bv16) << 8, lo as bv16, Crc16Table(hi), (lo as bv16) << 8;
  }

  /** The code takes eight steps of the division at once. */
  lemma OctetStep(o: bv8, c: bv16)
    ensures Bits(UpdateCRC16(o, c)) == Feed(Bits(c), OctetBits(o))
  {
    var a, b, t, u := Parts(o, c);
    EightSteps(a, b, t, u, o);
  }

  lemma {:induction false} BlockBits(data: seq<bv8>, init: bv16)
    ensures Bits(Block(data, init)) == Feed(Bits(init), MessageBits(data))
  {
    if data == [] {
    } else {
      var k := |data| - 1;
      BlockBits(data[..k], init);
      OctetStep(data[k], Block(data[..k], init));
      FeedConcat(Bits(init), MessageBits(data[..k]), OctetBits(data[k]));
    }
  }

  // ---------------------------------------------------------------- polynomials

  /** Coefficient `i` of a quotient, the first being that of the highest power. */
  predicate Coefficient(q: seq<bool>, i: int) {
    0 <= i < |q| && q[i]
  }

  /** Coefficient `i` of the quotient times x^16 + x^12 + x^5 + 1. */
  predicate Product(q: seq<bool>, i: int) {
    ((Coefficient(q, i) != Coefficient(q, i - 4)) != Coefficient(q, i - 11)) != Coefficient(q, i - 16)
  }

  /** d = q * (x^16 + x^12 + x^5 + 1) + r, coefficient by coefficient. */
  predicate Divides(d: seq<bool>, q: seq<bool>, r: Register) {
    && |d| == |q| + 16
    && forall i | 0 <= i < |d| :: d[i] == (Product(q, i) != (i >= |q| && r[i - |q|]))
  }

  /** The bits that leave the register at the top. */
  function Quotient(s: Register, m: seq<bool>): (q: seq<bool>)
    ensures |q| == |m|
  {
    if m == [] then [] else Quotient(s, m[..|m| - 1]) + [Feed(s, m[..|m| - 1])[0]]
  }

  lemma DivideOneMore(d: seq<bool>, q: seq<bool>, r: Register, b: bool)
    requires Divides(d, q, r)
    ensures Divides(d + [b], q + [r[0]], Feed1(r, b))
  {
    var d', q', r' := d + [b], q + [r[0]], Feed1(r, b);
    var n := |q|;
    forall i | 0 <= i < |d'| ensures d'[i] == (Product(q', i) != (i >= n + 1 && r'[i - n - 1])) {
      assert Coefficient(q', i) == (Coefficient(q, i) != (i == n && r[0]));
      assert Coefficient(q', i - 4) == (Coefficient(q, i - 4) != (i == n + 4 && r[0]));
      assert Coefficient(q', i - 11) == (Coefficient(q, i - 11) != (i == n + 11 && r[0]));
      assert Coefficient(q', i - 16) == (Coefficient(q, i - 16) != (i == n + 16 && r[0]));
      if i > n {
        var k := i - n - 1;
        assert r'[k] == ((if k < 15 then r[k + 1] else b) != (r[0] && Tap(k)));
      }
    }
  }

  lemma {:induction false} FeedDivides(s: Register, m: seq<bool>)
    ensures Divides(s + m, Quotient(s, m), Feed(s, m))
  {
    if m == [] {
      assert s + m == s;
    } else {
      var k := |m| - 1;
      FeedDivides(s, m[..k]);
      DivideOneMore(s + m[..k], Quotient(s, m[..k]), Feed(s, m[..k]), m[k]);
      assert s + m[..k] + [m[k]] == s + m;
    }
  }

  lemma {:induction false} SameQuotient(d: seq<bool>, q: seq<bool>, r: Register, p: seq<bool>, t: Register, n: nat)
    requires Divides(d, q, r) && Divides(d, p, t) && n <= |q|
    ensures forall i | 0 <= i < n :: q[i] == p[i]
  {
    if n > 0 {
      SameQuotient(d, q, r, p, t, n - 1);
      assert Product(q, n - 1) == Product(p, n - 1);
    }
  }

  lemma DivisionUnique(d: seq<bool>, q: seq<bool>, r: Register, p: seq<bool>, t: Register)
    requires Divides(d, q, r) && Divides(d, p, t)
    ensures q == p && r == t
  {
    SameQuotient(d, q, r, p, t, |q|);
    assert q == p;
    forall k | 0 <= k < 16 ensures r[k] == t[k] {
      assert d[|q| + k] == (Product(q, |q| + k) != r[k]) == (Product(p, |q| + k) != t[k]);
    }
  }

  /** The checksum is the remainder: `r` is it if and only if some quotient goes with it. The
    * dividend is the message behind the 16 bits of the initial value. */
  lemma BlockIsRemainder(data: seq<bv8>, init: bv16, crc: bv16)
    ensures crc == Block(data, init) <==> exists q :: Divides(Bits(init) + MessageBits(data), q, Bits(crc))
  {
    var m := MessageBits(data);
    BlockBits(data, init);
    FeedDivides(Bits(init), m);
    if q :| Divides(Bits(init) + m, q, Bits(crc)) {
      DivisionUnique(Bits(init) + m, q, Bits(crc), Quotient(Bits(init), m), Feed(Bits(init), m));
      BitsInjective(crc, Block(data, init));
    }
  }

  // ---------------------------------------------------------------- bursts

  lemma Differences(s: Register, x: seq<bool>, y: seq<bool>)
    requires |x| == |y|
    ensures Xor(Feed(s, x), Feed(s, y)) == Feed(Zeros(16), Xor(x, y))
  {
    FeedLinear(s, s, x, y);
    assert Xor(s, s) == Zeros(16);
  }

  lemma SuffixKeepsDifference(s: Register, t: Register, m: seq<bool>)
    requires s != t
    ensures Feed(s, m) != Feed(t, m)
  {
    FeedLinear(s, t, m, m);
    assert Xor(m, m) == Zeros(|m|);
    if Feed(s, m) == Feed(t, m) {
      assert Xor(Feed(s, m), Feed(t, m)) == Zeros(16);
      FeedInjective(Xor(s, t), |m|);
      forall k | 0 <= k < 16 ensures s[k] == t[k] {
        assert Xor(s, t)[k] == Zeros(16)[k];
      }
    }
  }

  lemma WindowDiffers(t: Register, x: seq<bool>, y: seq<bool>)
    requires |x| == |y| <= 16 && x != y
    ensures Feed(t, x) != Feed(t, y)
  {
    Differences(t, x, y);
    FeedShifts(Zeros(16), Xor(x, y));
    var d := Xor(Feed(t, x), Feed(t, y));
    var k :| 0 <= k < |x| && x[k] != y[k];
    assert d[16 - |x| + k] == Xor(x, y)[k];
  }

  /** Messages that differ only within 16 consecutive bits have different remainders. */
  lemma BurstBits(s: Register, before: seq<bool>, x: seq<bool>, y: seq<bool>, after: seq<bool>)
    requires |x| == |y| <= 16 && x != y
    ensures Feed(s, before + x + after) != Feed(s, before + y + after)
  {
    var t := Feed(s, before);
    FeedConcat(s, before, x);
    FeedConcat(s, before, y);
    FeedConcat(s, before + x, after);
    FeedConcat(s, before + y, after);
    WindowDiffers(t, x, y);
    SuffixKeepsDifference(Feed(t, x), Feed(t, y), after);
  }

  lemma {:induction false} MessageBitsConcat(a: seq<bv8>, b: seq<bv8>)
    ensures MessageBits(a + b) == MessageBits(a) + MessageBits(b)
  {
    if b == [] {
      assert a + b == a;
    } else {
      var k := |b| - 1;
      MessageBitsConcat(a, b[..k]);
      assert (a + b)[..|a| + k] == a + b[..k];
      var x := OctetBits(b[k]);
      assert MessageBits(a + b) == MessageBits(a) + MessageBits(b[..k]) + x;
      assert MessageBits(a) + MessageBits(b[..k]) + x == MessageBits(a) + (MessageBits(b[..k]) + x);
    }
  }

  lemma {:induction false} MessageBitsLength(a: seq<bv8>)
    ensures |MessageBits(a)| == 8 * |a|
  {
    if a != [] {
      MessageBitsLength(a[..|a| - 1]);
    }
  }

  lemma {:induction false} MessageBitsInjective(a: seq<bv8>, b: seq<bv8>)
    requires |a| == |b| && MessageBits(a) == MessageBits(b)
    ensures a == b
  {
    if a != [] {
      var k := |a| - 1;
      MessageBitsLength(a[..k]);
      MessageBitsLength(b[..k]);
      var p, q := MessageBits(a[..k]), MessageBits(b[..k]);
      assert p == (p + OctetBits(a[k]))[..8 * k] == (q + OctetBits(b[k]))[..8 * k] == q;
      assert OctetBits(a[k]) == (p + OctetBits(a[k]))[8 * k..] == (q + OctetBits(b[k]))[8 * k..] == OctetBits(b[k]);
      OctetZeros(a[k]);
      OctetZeros(b[k]);
      BitsInjective(a[k] as bv16, b[k] as bv16);
      OctetWiden(a[k], b[k]);
      MessageBitsInjective(a[..k], b[..k]);
    }
  }

  lemma OctetWiden(a: bv8, b: bv8)
    requires a as bv16 == b as bv16
    ensures a == b
  {
  }

  /** Two messages that differ only within two consecutive octets have different checksums. */
  lemma DetectsBurst(before: seq<bv8>, x: seq<bv8>, y: seq<bv8>, after: seq<bv8>, init: bv16)
    requires |x| == |y| <= 2 && x != y
    ensures Block(before + x + after, init) != Block(before + y + after, init)
  {
    var b, a := MessageBits(before), MessageBits(after);
    MessageBitsConcat(before, x);
    MessageBitsConcat(before, y);
    MessageBitsConcat(before + x, after);
    MessageBitsConcat(before + y, after);
    MessageBitsLength(x);
    MessageBitsLength(y);
    if MessageBits(x) == MessageBits(y) {
      MessageBitsInjective(x, y);
    }
    BurstBits(Bits(init), b, MessageBits(x), MessageBits(y), a);
    BlockBits(before + x + after, init);
    BlockBits(before + y + after, init);
  }

  // ---------------------------------------------------------------- the other form

  function Updates(data: seq<bv8>, crc: bv16): bv16 {
    if data == [] then crc else UpdateCRC(data[|data| - 1], Updates(data[..|data| - 1], crc))
  }

  lemma UpdateHalves(o: bv8, c: bv16) returns (hi: bv8, lo: bv8)
    ensures c ^ ((o as bv16) << 8) == ((hi as bv16) << 8) ^ (lo as bv16)
    ensures UpdateCRC(o, c) == Crc16Table(hi) ^ ((lo as bv16) << 8) ^ (0 as bv16)
  {
    hi, lo := ((c >> 8) ^ (o as bv16)) as bv8, (c & 255) as bv8;
    assert c << 8 == (lo as bv16) << 8;
  }

  lemma UpdateParts(o: bv8, c: bv16) returns (a: bv16, b: bv16, t: bv16, u: bv16)
    ensures UpdateCRC(o, c) == t ^ u ^ ((0 as bv8) as bv16) && c ^ ((o as bv16) << 8) == a ^ b
    ensures Bits(t) == Feed(Bits(a), Zeros(8)) && Bits(u) == Feed(Bits(b), Zeros(8))
  {
    var hi, lo := UpdateHalves(o, c);
    HighStep(hi);
    LowStep(lo);
    a, b, t, u := (hi as bv16) << 8, lo as bv16, Crc16Table(hi), (lo as bv16) << 8;
  }

  lemma ZeroOctet()
    ensures OctetBits(0) == Zeros(8)
  {
    assert forall k | 0 <= k < 16 :: Bits(0)[k] == Bit(0, MASKS[k]);
  }

  lemma UpdateBits(o: bv8, c: bv16)
    ensures Bits(UpdateCRC(o, c)) == Feed(Bits(c ^ ((o as bv16) << 8)), Zeros(8))
  {
    var a, b, t, u := UpdateParts(o, c);
    EightSteps(a, b, t, u, 0);
    ZeroOctet();
  }

  lemma HighOctet(o: bv8)
    ensures Bits((o as bv16) << 8) == OctetBits(o) + Zeros(8)
  {
    OctetZeros(o);
    LowStep(o);
    FeedShifts(Bits(o as bv16), Zeros(8));
  }

  /** An octet that enters at the top is one that was fed 16 bits earlier. */
  lemma FeedAtTop(s: Register, m: seq<bool>)
    requires |m| == 8
    ensures Feed(Xor(Feed(s, Zeros(16)), m + Zeros(8)), Zeros(8)) == Feed(s, m + Zeros(16))
  {
    var none: Register := Zeros(16);
    var top := m + Zeros(8);
    FeedLinear(s, none, Zeros(16), top);
    assert Xor(s, none) == s && Xor(Zeros(16), top) == top;
    FeedShifts(none, top);
    assert none[16..] + top == top;
    FeedConcat(s, top, Zeros(8));
    assert top + Zeros(8) == m + Zeros(16);
  }

  lemma TwoZeros()
    ensures MessageBits([0, 0]) == Zeros(16)
  {
    ZeroOctet();
    assert [0 as bv8][..0] == [];
    assert MessageBits([0]) == Zeros(8);
    MessageBitsConcat([0], [0]);
    assert [0 as bv8] + [0] == [0, 0];
    assert Zeros(8) + Zeros(8) == Zeros(16);
  }

  lemma UpdateLater(o: bv8, c: bv16, s: Register)
    requires Bits(c) == Feed(s, Zeros(16))
    ensures Bits(UpdateCRC(o, c)) == Feed(s, OctetBits(o) + Zeros(16))
  {
    UpdateBits(o, c);
    BitsXor(c, (o as bv16) << 8);
    HighOctet(o);
    FeedAtTop(s, OctetBits(o));
  }

  lemma {:induction false} UpdatesBits(data: seq<bv8>, c: bv16, s: Register)
    requires Bits(c) == Feed(s, Zeros(16))
    ensures Bits(Updates(data, c)) == Feed(s, MessageBits(data) + Zeros(16))
  {
    if data == [] {
      assert [] + Zeros(16) == Zeros(16);
    } else {
      var k := |data| - 1;
      var t := Feed(s, MessageBits(data[..k]));
      UpdatesBits(data[..k], c, s);
      FeedConcat(s, MessageBits(data[..k]), Zeros(16));
      UpdateLater(data[k], Updates(data[..k], c), t);
      FeedConcat(s, MessageBits(data[..k]), OctetBits(data[k]) + Zeros(16));
      assert MessageBits(data) + Zeros(16) == MessageBits(data[..k]) + (OctetBits(data[k]) + Zeros(16));
    }
  }

  /** UpdateCRC, octet by octet, gives what calcBlockCRC16i gives for the message and two zero
    * octets: the two forms compute one checksum. */
  lemma UpdatesAreBlock(data: seq<bv8>, c: bv16)
    ensures Updates(data, Block([0, 0], c)) == Block(data + [0, 0], c)
  {
    TwoZeros();
    BlockBits([0, 0], c);
    UpdatesBits(data, Block([0, 0], c), Bits(c));
    MessageBitsConcat(data, [0, 0]);
    BlockBits(data + [0, 0], c);
    BitsInjective(Updates(data, Block([0, 0], c)), Block(data + [0, 0], c));
  }
}
