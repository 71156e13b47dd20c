/** The Modbus RTU checksum (section 6.2.2 of "MODBUS over Serial Line Specification and
    Implementation Guide V1.02") as the firmware and its web page compute it.

    `Crc` is the byte-wise specification; the three loops of the repository are methods proved
    against it. `Serial` is an independent bit-at-a-time shift register over the message bits in
    transmission order (least significant first), and every error-detection theorem goes
    through it. Register operations are named functions so that the inductive proofs can hide
    their bit-vector bodies and use only the algebraic facts proved about them. */
module Crc16 {
  import opened Common

  const POLY: bv16 := 0xA001

  // ---------------------------------------------------------------- register operations

  function Xor(a: bv16, b: bv16): bv16 { a ^ b }

  predicate Odd(x: bv16) { x & 1 == 1 }

  function Half(x: bv16): bv16 { x >> 1 }

  function Doubled(x: bv16): bv16 { x << 1 }

  function Bit(b: bool): bv16 { if b then 1 else 0 }

  function Prepend(bit: bool, rest: bv16): bv16 { Bit(bit) | (rest << 1) }

  predicate TopClear(x: bv16) { x & 0x8000 == 0 }

  function Shift(crc: bv16): bv16 {
    if Odd(crc) then Xor(Half(crc), POLY) else Half(crc)
  }

  function Shifts(crc: bv16, n: nat): bv16
    decreases n
  {
    if n == 0 then crc else Shifts(Shift(crc), n - 1)
  }

  // ---------------------------------------------------------------- the checksum

  function Feed(crc: bv16, b: byte): bv16 {
    Shifts(Xor(crc, b as bv16), 8)
  }

  function Run(crc: bv16, data: seq<byte>): bv16
    decreases |data|
  {
    if data == [] then crc else Feed(Run(crc, data[..|data| - 1]), data[|data| - 1])
  }

  function Crc(data: seq<byte>): bv16 {
    Run(0xFFFF, data)
  }

  function Low(crc: bv16): byte { (crc & 0xFF) as byte }

  function High(crc: bv16): byte { (crc >> 8) as byte }

  /** The two bytes the firmware and the page append: low byte first. */
  function CrcBytes(data: seq<byte>): seq<byte> {
    [Low(Crc(data)), High(Crc(data))]
  }

  // ---------------------------------------------------------------- the three loops

  /** `calculate_crc` of the Modbus driver. */
  method CalculateCrc(data: array<byte>, length: nat) returns (crc: bv16)
    requires length <= data.Length
    ensures crc == Crc(data[..length])
  {
    crc := 0xFFFF;
    for i := 0 to length
      invariant crc == Crc(data[..i])
    {
      ghost var whole := Xor(crc, data[i] as bv16);
      crc := crc ^ (data[i] as bv16);
      for j := 0 to 8
        invariant Shifts(crc, 8 - j) == Shifts(whole, 8)
      {
        if crc & 1 == 1 {
          crc := (crc >> 1) ^ POLY;
        } else {
          crc := crc >> 1;
        }
      }
      assert data[..i + 1][..i] == data[..i];
    }
  }

  /** `ModbusCRC16` of the utilities: counts the bits down and shifts before it folds. */
  method ModbusCrc16(data: array<byte>, length: nat) returns (crc: bv16)
    requires length <= data.Length && length < 0x1_0000
    ensures crc == Crc(data[..length])
  {
    crc := 0xFFFF;
    var pos := 0;
    while pos < length
      invariant pos <= length && crc == Crc(data[..pos])
    {
      ghost var whole := Xor(crc, data[pos] as bv16);
      crc := crc ^ (data[pos] as bv16);
      var i := 8;
      while i != 0
        invariant 0 <= i <= 8 && Shifts(crc, i) == Shifts(whole, 8)
      {
        if crc & 0x0001 != 0 {
          crc := crc >> 1;
          crc := crc ^ POLY;
        } else {
          crc := crc >> 1;
        }
        i := i - 1;
      }
      assert data[..pos + 1][..pos] == data[..pos];
      pos := pos + 1;
    }
  }

  /** One pass of the page's inner loop, on a 32-bit number. */
  function WideShift(crc: bv32): bv32 {
    if crc & 0x0001 != 0 then (crc >> 1) ^ 0xA001 else crc >> 1
  }

  function WideXor(crc: bv32, b: byte): bv32 { crc ^ (b as bv32) }

  function Masked(crc: bv32): bv16 { (crc & 0xFFFF) as bv16 }

  function Wide(crc: bv16): bv32 { crc as bv32 }

  lemma WideAgrees(crc: bv16, b: byte)
    ensures WideXor(Wide(crc), b) == Wide(Xor(crc, b as bv16))
    ensures WideShift(Wide(crc)) == Wide(Shift(crc))
    ensures Masked(Wide(crc)) == crc
  {
  }

  lemma WideStart()
    ensures Wide(0xFFFF) == 0xFFFF
  {
  }

  /** `calculateCrc16Modbus` of the web page: the register is a 32-bit number, masked at the end. */
  method CalculateCrc16Modbus(bytes: seq<byte>) returns (result: bv16)
    ensures result == Crc(bytes)
  {
    hide Shift, Xor, WideShift, WideXor, Wide, Masked;
    var crc: bv32 := 0xFFFF;
    WideStart();
    for i := 0 to |bytes|
      invariant crc == Wide(Crc(bytes[..i]))
    {
      ghost var reg := Xor(Crc(bytes[..i]), bytes[i] as bv16);
      ghost var whole := reg;
      WideAgrees(Crc(bytes[..i]), bytes[i]);
      crc := WideXor(crc, bytes[i]);
      for bit := 0 to 8
        invariant crc == Wide(reg) && Shifts(reg, 8 - bit) == Shifts(whole, 8)
      {
        WideAgrees(reg, 0);
        crc := WideShift(crc);
        reg := Shift(reg);
      }
      assert bytes[..i + 1][..i] == bytes[..i];
    }
    assert bytes[..|bytes|] == bytes;
    WideAgrees(Crc(bytes), 0);
    result := Masked(crc);
  }

  // ---------------------------------------------------------------- register algebra

  lemma XorLaws(a: bv16, b: bv16, c: bv16)
    ensures Xor(Xor(a, c), Xor(b, c)) == Xor(a, b)
    ensures Xor(Xor(a, c), b) == Xor(Xor(a, b), c)
    ensures Xor(a, Xor(b, c)) == Xor(Xor(a, b), c)
  {
    hide Xor;
    Cancel(a, b, c);
    Commute(a, b, c);
    Associate(a, b, c);
  }

  lemma Cancel(a: bv16, b: bv16, c: bv16)
    ensures Xor(Xor(a, c), Xor(b, c)) == Xor(a, b)
  {
    hide Xor;
    Associate(Xor(a, c), b, c);
    Commute(a, b, c);
    SelfInverse(Xor(a, b), c);
  }

  lemma Commute(a: bv16, b: bv16, c: bv16)
    ensures Xor(Xor(a, c), b) == Xor(Xor(a, b), c)
  {
  }

  lemma Associate(a: bv16, b: bv16, c: bv16)
    ensures Xor(a, Xor(b, c)) == Xor(Xor(a, b), c)
  {
  }

  lemma XorZero(a: bv16)
    ensures Xor(a, 0) == a && Xor(0, a) == a
  {
  }

  lemma XorZeroIffEqual(a: bv16, b: bv16)
    ensures Xor(a, b) == 0 <==> a == b
  {
  }

  lemma HalfLaws(a: bv16, b: bv16)
    ensures Odd(Xor(a, b)) == (Odd(a) != Odd(b))
    ensures Half(Xor(a, b)) == Xor(Half(a), Half(b))
  {
  }

  lemma DoubleLaws(a: bv16, r: bv16)
    requires TopClear(r)
    ensures Odd(Xor(a, Doubled(r))) == Odd(a)
    ensures Half(Xor(a, Doubled(r))) == Xor(Half(a), r)
  {
    RawDoubleLaws(a, r);
  }

  lemma RawDoubleLaws(a: bv16, r: bv16)
    requires r & 0x8000 == 0
    ensures (a ^ (r << 1)) & 1 == a & 1 && (a ^ (r << 1)) >> 1 == (a >> 1) ^ r
  {
  }

  lemma BitLaws(a: bv16, u: bool, v: bool)
    ensures Bit(u != v) == Xor(Bit(u), Bit(v))
    ensures Xor(a, Prepend(u, 0)) == Xor(a, Bit(u))
  {
  }

  lemma PrependSplits(a: bv16, bit: bool, r: bv16)
    ensures Xor(a, Prepend(bit, r)) == Xor(Xor(a, Bit(bit)), Doubled(r))
  {
    LowBitOfDouble(r);
    if bit {
      DisjointOr(a, 1, r << 1);
    } else {
      DisjointOr(a, 0, r << 1);
    }
  }

  lemma LowBitOfDouble(r: bv16)
    ensures 1 & (r << 1) == 0
  {
  }

  lemma DisjointOr(a: bv16, b: bv16, c: bv16)
    requires b & c == 0
    ensures a ^ (b | c) == (a ^ b) ^ c
  {
  }

  /** The register step is linear over exclusive or. */
  lemma ShiftLinear(a: bv16, b: bv16)
    ensures Shift(Xor(a, b)) == Xor(Shift(a), Shift(b))
  {
    hide Xor, Half, Odd;
    HalfLaws(a, b);
    XorLaws(Half(a), Half(b), POLY);
  }

  /** The register step never merges two states: 0xA001 has its top bit set, a halved word has not. */
  lemma ShiftKeepsNonzero(x: bv16)
    requires x != 0
    ensures Shift(x) != 0
  {
    var h := x >> 1;
    assert h & 0x8000 == 0;
    if Odd(x) {
      assert (h ^ POLY) & 0x8000 == 0x8000;
    } else {
      assert h != 0;
    }
  }

  lemma ShiftOfZero()
    ensures Shift(0) == 0
  {
  }

  lemma {:induction false} ShiftsKeepNonzero(x: bv16, n: nat)
    ensures Shifts(x, n) == 0 <==> x == 0
    decreases n
  {
    hide Shift;
    if n > 0 {
      ShiftsKeepNonzero(Shift(x), n - 1);
      ShiftOfZero();
      if x != 0 { ShiftKeepsNonzero(x); }
    }
  }

  lemma {:induction false} ShiftsLinear(a: bv16, b: bv16, n: nat)
    ensures Shifts(Xor(a, b), n) == Xor(Shifts(a, n), Shifts(b, n))
    decreases n
  {
    hide Shift, Xor;
    if n > 0 {
      ShiftLinear(a, b);
      ShiftsLinear(Shift(a), Shift(b), n - 1);
    }
  }

  // ---------------------------------------------------------------- the bit-serial register

  /** Message bits enter the register one at a time. */
  function Serial(reg: bv16, bits: seq<bool>): bv16
    decreases |bits|
  {
    if bits == [] then reg else Serial(Shift(Xor(reg, Bit(bits[0]))), bits[1..])
  }

  function LowBits(x: bv16, n: nat): (bits: seq<bool>)
    ensures |bits| == n
    decreases n
  {
    if n == 0 then [] else [Odd(x)] + LowBits(Half(x), n - 1)
  }

  /** The message as it goes over the line: bytes in order, least significant bit first. */
  function MessageBits(data: seq<byte>): (bits: seq<bool>)
    ensures |bits| == 8 * |data|
  {
    if data == [] then []
    else MessageBits(data[..|data| - 1]) + LowBits(data[|data| - 1] as bv16, 8)
  }

  function Word(bits: seq<bool>): bv16 {
    if bits == [] then 0 else Prepend(bits[0], Word(bits[1..]))
  }

  /** All ones from bit n upwards. */
  function HighMask(n: nat): bv16 {
    if n == 0 then 0xFFFF else Doubled(HighMask(n - 1))
  }

  predicate Apart(x: bv16, mask: bv16) { x & mask == 0 }

  lemma MaskGrows(bit: bool, x: bv16, mask: bv16)
    requires Apart(x, mask)
    ensures Apart(Prepend(bit, x), Doubled(mask))
  {
    if bit {
      LowBitOfDouble(mask);
      DoubledApart(1, x, mask);
    } else {
      DoubledApart(0, x, mask);
    }
  }

  lemma DoubledApart(b: bv16, x: bv16, mask: bv16)
    requires x & mask == 0 && b & (mask << 1) == 0
    ensures (b | (x << 1)) & (mask << 1) == 0
  {
  }

  lemma MaskShrinks(x: bv16, mask: bv16)
    requires Apart(x, Doubled(mask))
    ensures Apart(Half(x), mask) && Prepend(Odd(x), Half(x)) == x
  {
    HalvedApart(x, mask);
    assert x & 1 == Bit(Odd(x)) by { LastBit(x); }
  }

  lemma HalvedApart(x: bv16, mask: bv16)
    requires x & (mask << 1) == 0
    ensures (x >> 1) & mask == 0 && (x & 1) | ((x >> 1) << 1) == x
  {
  }

  lemma LastBit(x: bv16)
    ensures x & 1 == 0 || x & 1 == 1
  {
  }

  lemma {:induction false} WordFits(bits: seq<bool>)
    ensures Apart(Word(bits), HighMask(|bits|))
  {
    hide Prepend, Doubled, Apart;
    if bits != [] {
      WordFits(bits[1..]);
      MaskGrows(bits[0], Word(bits[1..]), HighMask(|bits| - 1));
    } else {
      NothingSet();
    }
  }

  lemma NothingSet()
    ensures Apart(0, 0xFFFF)
  {
  }

  lemma ShortMask(n: nat)
    requires n <= 15
    ensures HighMask(n) & 0x8000 == 0x8000
  {
    assert HighMask(1) == 0xFFFE && HighMask(2) == 0xFFFC && HighMask(3) == 0xFFF8;
    assert HighMask(4) == 0xFFF0 && HighMask(5) == 0xFFE0 && HighMask(6) == 0xFFC0;
    assert HighMask(7) == 0xFF80 && HighMask(8) == 0xFF00 && HighMask(9) == 0xFE00;
    assert HighMask(10) == 0xFC00 && HighMask(11) == 0xF800 && HighMask(12) == 0xF000;
    assert HighMask(13) == 0xE000 && HighMask(14) == 0xC000 && HighMask(15) == 0x8000;
  }

  lemma ShortWordTopClear(bits: seq<bool>)
    requires |bits| <= 15
    ensures TopClear(Word(bits))
  {
    WordFits(bits);
    ShortMask(|bits|);
    MaskTop(Word(bits), HighMask(|bits|));
  }

  lemma MaskTop(x: bv16, mask: bv16)
    requires x & mask == 0 && mask & 0x8000 == 0x8000
    ensures x & 0x8000 == 0
  {
  }

  lemma FoldOne(reg: bv16, bit: bool, rest: bv16)
    requires TopClear(rest)
    ensures Shift(Xor(reg, Prepend(bit, rest))) == Xor(Shift(Xor(reg, Bit(bit))), rest)
  {
    hide Xor, Half, Odd, Doubled, Prepend, Bit, TopClear;
    var first := Xor(reg, Bit(bit));
    PrependSplits(reg, bit, rest);
    DoubleLaws(first, rest);
    XorLaws(Half(first), rest, POLY);
  }

  /** Up to sixteen bits may be folded into the register at once before shifting. */
  lemma {:induction false} FoldAtOnce(reg: bv16, bits: seq<bool>)
    requires |bits| <= 16
    ensures Serial(reg, bits) == Shifts(Xor(reg, Word(bits)), |bits|)
    decreases |bits|
  {
    hide Shift, Bit, Xor, Prepend, TopClear;
    if bits != [] {
      FoldAtOnce(Shift(Xor(reg, Bit(bits[0]))), bits[1..]);
      ShortWordTopClear(bits[1..]);
      FoldOne(reg, bits[0], Word(bits[1..]));
    } else {
      XorZero(reg);
    }
  }

  lemma {:induction false} WordOfLowBits(x: bv16, n: nat)
    requires Apart(x, HighMask(n))
    ensures Word(LowBits(x, n)) == x
    decreases n
  {
    hide Prepend, Doubled, Apart, Half, Odd;
    if n > 0 {
      MaskShrinks(x, HighMask(n - 1));
      WordOfLowBits(Half(x), n - 1);
    } else {
      FullyMasked(x);
    }
  }

  lemma FullyMasked(x: bv16)
    requires Apart(x, 0xFFFF)
    ensures x == 0
  {
  }

  lemma ByteWord(b: byte)
    ensures Word(LowBits(b as bv16, 8)) == b as bv16
  {
    assert HighMask(8) == 0xFF00;
    assert Apart(b as bv16, HighMask(8));
    WordOfLowBits(b as bv16, 8);
  }

  lemma {:induction false} SerialAppend(reg: bv16, u: seq<bool>, v: seq<bool>)
    ensures Serial(reg, u + v) == Serial(Serial(reg, u), v)
    decreases |u|
  {
    hide Shift, Bit, Xor;
    if u == [] {
      assert u + v == v;
    } else {
      assert (u + v)[1..] == u[1..] + v;
      SerialAppend(Shift(Xor(reg, Bit(u[0]))), u[1..], v);
    }
  }

  /** The byte-wise loops compute what a one-bit-at-a-time register computes over the line bits. */
  lemma {:induction false} BytewiseIsSerial(crc: bv16, data: seq<byte>)
    ensures Run(crc, data) == Serial(crc, MessageBits(data))
    decreases |data|
  {
    hide Shift, Bit, Xor;
    if data != [] {
      var front, last := data[..|data| - 1], data[|data| - 1];
      BytewiseIsSerial(crc, front);
      SerialAppend(crc, MessageBits(front), LowBits(last as bv16, 8));
      FoldAtOnce(Run(crc, front), LowBits(last as bv16, 8));
      ByteWord(last);
    }
  }

  // ---------------------------------------------------------------- error detection

  function Differences(u: seq<bool>, v: seq<bool>): (d: seq<bool>)
    requires |u| == |v|
    ensures |d| == |u| && forall i :: 0 <= i < |u| ==> d[i] == (u[i] != v[i])
  {
    if u == [] then [] else [u[0] != v[0]] + Differences(u[1..], v[1..])
  }

  function Ones(bits: seq<bool>): nat {
    if bits == [] then 0 else (if bits[0] then 1 else 0) + Ones(bits[1..])
  }

  /** Two messages drive the register apart by exactly what their difference alone would do. */
  lemma {:induction false} SerialLinear(a: bv16, b: bv16, u: seq<bool>, v: seq<bool>)
    requires |u| == |v|
    ensures Xor(Serial(a, u), Serial(b, v)) == Serial(Xor(a, b), Differences(u, v))
    decreases |u|
  {
    hide Shift, Bit, Xor;
    if u != [] {
      var a', b' := Xor(a, Bit(u[0])), Xor(b, Bit(v[0]));
      SerialLinear(Shift(a'), Shift(b'), u[1..], v[1..]);
      ShiftLinear(a', b');
      BitLaws(a, u[0], v[0]);
      XorLaws(Xor(a, b), Bit(u[0]), Bit(v[0]));
      XorLaws(a, b, Bit(u[0]));
      XorLaws(a', b, Bit(v[0]));
      assert Xor(a', b') == Xor(Xor(a, b), Bit(u[0] != v[0]));
    }
  }

  lemma {:induction false} SerialOfZeros(reg: bv16, bits: seq<bool>)
    requires forall i :: 0 <= i < |bits| ==> !bits[i]
    ensures Serial(reg, bits) == Shifts(reg, |bits|)
    decreases |bits|
  {
    hide Shift, Xor;
    if bits != [] {
      XorZero(reg);
      SerialOfZeros(Shift(reg), bits[1..]);
    }
  }

  lemma {:induction false} WordOfNonzero(bits: seq<bool>)
    requires |bits| <= 16
    requires exists i :: 0 <= i < |bits| && bits[i]
    ensures Word(bits) != 0
  {
    var i :| 0 <= i < |bits| && bits[i];
    hide Prepend;
    if i == 0 {
      PrependNonzero(bits[0], Word(bits[1..]));
    } else {
      assert bits[1..][i - 1];
      WordOfNonzero(bits[1..]);
      ShortWordTopClear(bits[1..]);
      PrependNonzero(bits[0], Word(bits[1..]));
    }
  }

  lemma PrependNonzero(bit: bool, rest: bv16)
    requires bit || (TopClear(rest) && rest != 0)
    ensures Prepend(bit, rest) != 0
  {
    assert bit ==> Prepend(bit, rest) & 1 == 1;
    assert TopClear(rest) ==> (rest << 1) >> 1 == rest;
  }

  lemma BurstNonzero(burst: seq<bool>)
    requires |burst| <= 16
    requires exists i :: 0 <= i < |burst| && burst[i]
    ensures Serial(0, burst) != 0
  {
    hide Word, Serial, Shifts;
    FoldAtOnce(0, burst);
    WordOfNonzero(burst);
    XorZero(Word(burst));
    ShiftsKeepNonzero(Word(burst), |burst|);
  }

  lemma PaddedNonzero(before: seq<bool>, burst: seq<bool>, after: seq<bool>)
    requires forall i :: 0 <= i < |before| ==> !before[i]
    requires forall i :: 0 <= i < |after| ==> !after[i]
    requires Serial(0, burst) != 0
    ensures Serial(0, before + (burst + after)) != 0
  {
    hide Serial, Shifts;
    SerialAppend(0, before, burst + after);
    SerialAppend(0, burst, after);
    SerialOfZeros(0, before);
    ShiftsKeepNonzero(0, |before|);
    SerialOfZeros(Serial(0, burst), after);
    ShiftsKeepNonzero(Serial(0, burst), |after|);
  }

  /** A difference confined to sixteen consecutive line bits never leaves the register at zero. */
  lemma ShortBurstNonzero(d: seq<bool>, s: nat)
    requires forall i :: 0 <= i < |d| && d[i] ==> s <= i < s + 16
    requires exists i :: 0 <= i < |d| && d[i]
    ensures Serial(0, d) != 0
  {
    hide Serial;
    var k :| 0 <= k < |d| && d[k];
    var e := if s + 16 <= |d| then s + 16 else |d|;
    var before, burst, after := d[..s], d[s..e], d[e..];
    assert burst[k - s];
    BurstNonzero(burst);
    PaddedNonzero(before, burst, after);
    assert d == before + (burst + after);
  }

  lemma {:induction false} DifferentMessages(m: seq<byte>, m': seq<byte>)
    requires |m| == |m'| && MessageBits(m) == MessageBits(m')
    ensures m == m'
    decreases |m|
  {
    hide LowBits;
    if m != [] {
      var k := |m| - 1;
      SplitEqual(MessageBits(m[..k]), LowBits(m[k] as bv16, 8), MessageBits(m'[..k]), LowBits(m'[k] as bv16, 8));
      DifferentMessages(m[..k], m'[..k]);
      SameLastByte(m[k], m'[k]);
      SnocEqual(m, m');
    }
  }

  lemma SnocEqual<T>(s: seq<T>, t: seq<T>)
    requires 0 < |s| == |t| && s[..|s| - 1] == t[..|t| - 1] && s[|s| - 1] == t[|t| - 1]
    ensures s == t
  {
    assert s == s[..|s| - 1] + [s[|s| - 1]] && t == t[..|t| - 1] + [t[|t| - 1]];
  }

  lemma SplitEqual<T>(a: seq<T>, b: seq<T>, a': seq<T>, b': seq<T>)
    requires |a| == |a'| && a + b == a' + b'
    ensures a == a' && b == b'
  {
    assert a == (a + b)[..|a|] && b == (a + b)[|a|..];
    assert a' == (a' + b')[..|a|] && b' == (a' + b')[|a|..];
  }

  lemma SameLastByte(a: byte, b: byte)
    requires LowBits(a as bv16, 8) == LowBits(b as bv16, 8)
    ensures a == b
  {
    hide LowBits, Word;
    ByteWord(a);
    ByteWord(b);
    SameByte(a, b);
  }

  lemma SameByte(a: byte, b: byte)
    requires a as bv16 == b as bv16
    ensures a == b
  {
  }

  /** Line bits in which two equally long messages differ. */
  function Damage(m: seq<byte>, m': seq<byte>): seq<bool>
    requires |m| == |m'|
  {
    Differences(MessageBits(m), MessageBits(m'))
  }

  lemma DamageDrivesApart(reg: bv16, m: seq<byte>, m': seq<byte>)
    requires |m| == |m'|
    ensures Xor(Run(reg, m), Run(reg, m')) == Serial(0, Damage(m, m'))
  {
    BytewiseIsSerial(reg, m);
    BytewiseIsSerial(reg, m');
    SerialLinear(reg, reg, MessageBits(m), MessageBits(m'));
    XorZeroIffEqual(reg, reg);
  }

  /** Any damage confined to at most sixteen consecutive line bits changes the checksum. */
  lemma BurstDetected(m: seq<byte>, m': seq<byte>, s: nat)
    requires |m| == |m'| && m != m'
    requires forall i :: 0 <= i < 8 * |m| && MessageBits(m)[i] != MessageBits(m')[i] ==> s <= i < s + 16
    ensures Crc(m) != Crc(m')
  {
    var d := Damage(m, m');
    if forall i :: 0 <= i < |d| ==> !d[i] {
      assert forall i :: 0 <= i < |d| ==> d[i] == (MessageBits(m)[i] != MessageBits(m')[i]);
      DifferentMessages(m, m');
    }
    ShortBurstNonzero(d, s);
    DamageDrivesApart(0xFFFF, m, m');
    XorZeroIffEqual(Crc(m), Crc(m'));
  }

  lemma RunAppend(crc: bv16, data: seq<byte>, b: byte)
    ensures Run(crc, data + [b]) == Feed(Run(crc, data), b)
  {
    hide Feed;
    assert (data + [b])[..|data|] == data;
  }

  lemma BitsAppend(data: seq<byte>, b: byte)
    ensures MessageBits(data + [b]) == MessageBits(data) + LowBits(b as bv16, 8)
  {
    hide LowBits;
    assert (data + [b])[..|data|] == data;
  }

  lemma ThreeFeeds(a: byte, b: byte, c: byte)
    ensures Crc([a, b, c]) == Feed(Feed(Feed(0xFFFF, a), b), c)
  {
    hide Feed;
    var m: seq<byte> := [];
    assert m + [a] == [a] && [a] + [b] == [a, b] && [a, b] + [c] == [a, b, c];
    RunAppend(0xFFFF, m, a);
    RunAppend(0xFFFF, [a], b);
    RunAppend(0xFFFF, [a, b], c);
  }

  lemma LastOfThree(a: byte, b: byte, c: byte)
    ensures MessageBits([a, b, c])[16..] == LowBits(c as bv16, 8)
  {
    hide LowBits, MessageBits;
    assert [a, b] + [c] == [a, b, c];
    BitsAppend([a, b], c);
  }

  /** Sixteen is exact: a burst of seventeen bits (the generator itself) goes unnoticed. */
  lemma SeventeenBitBurstMissed()
    ensures Crc([0, 0, 0]) == Crc([0x03, 0x40, 0x01])
    ensures forall i :: 17 <= i < 24 ==> MessageBits([0, 0, 0])[i] == MessageBits([0x03, 0x40, 0x01])[i]
  {
    hide LowBits, Shift, MessageBits;
    ThreeFeeds(0, 0, 0);
    ThreeFeeds(0x03, 0x40, 0x01);
    FedConstants();
    LastOfThree(0, 0, 0);
    LastOfThree(0x03, 0x40, 0x01);
    SameTail();
    forall i | 17 <= i < 24
      ensures MessageBits([0, 0, 0])[i] == MessageBits([0x03, 0x40, 0x01])[i]
    {
      assert MessageBits([0, 0, 0])[i] == LowBits(0, 8)[i - 16];
      assert MessageBits([0x03, 0x40, 0x01])[i] == LowBits(1, 8)[i - 16];
    }
  }

  lemma FedConstants()
    ensures Feed(Feed(Feed(0xFFFF, 0), 0), 0) == Feed(Feed(Feed(0xFFFF, 0x03), 0x40), 0x01)
  {
    assert Feed(0xFFFF, 0) == 0x40BF && Feed(0x40BF, 0) == 0xB001 && Feed(0xB001, 0) == 0xC071;
    assert Feed(0xFFFF, 0x03) == 0x41FF && Feed(0x41FF, 0x40) == 0xB000 && Feed(0xB000, 0x01) == 0xC071;
  }

  lemma SameTail()
    ensures forall i :: 1 <= i < 8 ==> LowBits(0, 8)[i] == LowBits(1, 8)[i]
  {
    assert LowBits(0, 8) == [false, false, false, false, false, false, false, false];
    assert LowBits(1, 8) == [true, false, false, false, false, false, false, false];
  }

  // ---------------------------------------------------------------- parity

  predicate OddBits(x: bv16, n: nat)
    decreases n
  {
    n != 0 && Odd(x) != OddBits(Half(x), n - 1)
  }

  /** True when an odd number of register bits is set. */
  predicate Parity(x: bv16) { OddBits(x, 16) }

  lemma {:induction false} OddBitsCount(x: bv16, n: nat)
    ensures OddBits(x, n) <==> Ones(LowBits(x, n)) % 2 == 1
    decreases n
  {
    hide Half, Odd;
    if n > 0 {
      OddBitsCount(Half(x), n - 1);
      assert LowBits(x, n)[1..] == LowBits(Half(x), n - 1);
    }
  }

  lemma {:induction false} OddBitsLinear(x: bv16, y: bv16, n: nat)
    ensures OddBits(Xor(x, y), n) == (OddBits(x, n) != OddBits(y, n))
    decreases n
  {
    hide Half, Odd, Xor;
    if n > 0 {
      HalfLaws(x, y);
      OddBitsLinear(Half(x), Half(y), n - 1);
    }
  }

  lemma {:induction false} OddBitsExhausted(x: bv16, n: nat)
    requires Apart(x, HighMask(n))
    ensures OddBits(x, n + 1) == OddBits(x, n)
    decreases n
  {
    if n > 0 {
      hide Half, Odd, Apart, Doubled;
      MaskShrinks(x, HighMask(n - 1));
      OddBitsExhausted(Half(x), n - 1);
    } else {
      FullyMasked(x);
    }
  }

  lemma HalfShort(x: bv16)
    ensures Apart(Half(x), HighMask(15))
  {
    assert HighMask(8) == 0xFF00 && HighMask(12) == 0xF000 && HighMask(14) == 0xC000 && HighMask(15) == 0x8000;
    HalfTop(x);
  }

  lemma HalfTop(x: bv16)
    ensures (x >> 1) & 0x8000 == 0
  {
  }

  lemma ParityConstants()
    ensures !Parity(0) && !Parity(0xFFFF) && Parity(POLY) && Parity(Bit(true)) && !Parity(Bit(false))
  {
    assert !OddBits(0, 4) && !OddBits(0, 8) && !OddBits(0, 12) && !OddBits(0, 15) && !OddBits(0, 16);
    assert !OddBits(0xF, 4) && !OddBits(0xFF, 8) && !OddBits(0xFFF, 12) && !OddBits(0xFFFF, 16);
    assert !OddBits(0xA, 4) && !OddBits(0xA0, 8) && !OddBits(0xA00, 12) && OddBits(0xA001, 16);
  }

  lemma ParityLaws(x: bv16, bit: bool)
    ensures Parity(Xor(x, Bit(bit))) == (Parity(x) != bit)
    ensures Parity(Shift(x)) == Parity(x)
  {
    hide Half, Odd, Xor, Bit;
    ParityConstants();
    OddBitsLinear(x, Bit(bit), 16);
    OddBitsLinear(Half(x), POLY, 16);
    HalfShort(x);
    OddBitsExhausted(Half(x), 15);
  }

  lemma {:induction false} SerialParity(reg: bv16, bits: seq<bool>)
    ensures Parity(Serial(reg, bits)) == (Parity(reg) != (Ones(bits) % 2 == 1))
    decreases |bits|
  {
    hide Shift, Xor, Bit, Parity;
    if bits != [] {
      var next := Xor(reg, Bit(bits[0]));
      SerialParity(Shift(next), bits[1..]);
      ParityLaws(reg, bits[0]);
      ParityLaws(next, false);
    }
  }

  lemma ParityIsCount(x: bv16)
    ensures Parity(x) <==> Ones(LowBits(x, 16)) % 2 == 1
  {
    hide OddBits, LowBits, Ones;
    OddBitsCount(x, 16);
  }

  /** Counted bit by bit, the checksum has an odd number of ones exactly if the message has. */
  lemma CrcParity(m: seq<byte>)
    ensures Ones(LowBits(Crc(m), 16)) % 2 == Ones(MessageBits(m)) % 2
  {
    hide Parity, Ones, LowBits;
    BytewiseIsSerial(0xFFFF, m);
    SerialParity(0xFFFF, MessageBits(m));
    ParityConstants();
    ParityIsCount(Crc(m));
  }

  /** Any odd number of flipped line bits changes the checksum. */
  lemma OddFlipsDetected(m: seq<byte>, m': seq<byte>)
    requires |m| == |m'| && Ones(Damage(m, m')) % 2 == 1
    ensures Crc(m) != Crc(m')
  {
    hide Parity, Serial;
    SerialParity(0, Damage(m, m'));
    ParityConstants();
    DamageDrivesApart(0xFFFF, m, m');
    XorZeroIffEqual(Crc(m), Crc(m'));
  }

  // ---------------------------------------------------------------- checked frames

  function Climbed(w: bv16, n: nat): bv16
    decreases n
  {
    if n == 0 then w else Doubled(Climbed(w, n - 1))
  }

  function Raised(b: byte): bv16 { (b as bv16) << 8 }

  lemma ShiftDoubled(y: bv16)
    requires TopClear(y)
    ensures Shift(Doubled(y)) == y
  {
    hide Half, Odd, Xor, Doubled;
    DoubleLaws(0, y);
    XorZero(Doubled(y));
    XorZero(y);
    assert !Odd(0) && Half(0) == 0 by { ZeroParts(); }
  }

  lemma ZeroParts()
    ensures !Odd(0) && Half(0) == 0
  {
  }

  lemma {:induction false} Climb(w: bv16, n: nat)
    requires n <= 8 && Apart(w, HighMask(8))
    ensures Apart(Climbed(w, n), HighMask(8 + n)) && Shifts(Climbed(w, n), n) == w
    decreases n
  {
    hide Shift, Doubled, Apart, Prepend;
    if n > 0 {
      var below := Climbed(w, n - 1);
      Climb(w, n - 1);
      MaskGrows(false, below, HighMask(7 + n));
      PrependFalse(below);
      ShortMask(7 + n);
      Topless(below, HighMask(7 + n));
      ShiftDoubled(below);
    }
  }

  lemma PrependFalse(x: bv16)
    ensures Prepend(false, x) == Doubled(x)
  {
  }

  lemma Topless(x: bv16, mask: bv16)
    requires Apart(x, mask) && mask & 0x8000 == 0x8000
    ensures TopClear(x)
  {
    MaskTop(x, mask);
  }

  lemma LowHigh(c: bv16, a: byte, b: byte)
    ensures Xor(c, a as bv16) == Raised(b) <==> Low(c) == a && High(c) == b
  {
    hide Xor, Low, High, Raised;
    Halves(c, a, b);
    var w := a as bv16;
    SelfInverse(c, w);
    SelfInverse(Raised(b), w);
  }

  lemma SelfInverse(x: bv16, y: bv16)
    ensures Xor(Xor(x, y), y) == x
  {
  }

  lemma Halves(c: bv16, a: byte, b: byte)
    ensures c == Xor(Raised(High(c)), Low(c) as bv16)
    ensures Low(Xor(Raised(b), a as bv16)) == a && High(Xor(Raised(b), a as bv16)) == b
  {
    RawHalves(c, a, b);
  }

  lemma RawHalves(c: bv16, a: byte, b: byte)
    ensures c == ((((c >> 8) as byte) as bv16) << 8) ^ (((c & 0xFF) as byte) as bv16)
    ensures (((((b as bv16) << 8) ^ (a as bv16)) & 0xFF) as byte) == a
    ensures ((((b as bv16) << 8) ^ (a as bv16)) >> 8) as byte == b
  {
  }

  lemma RaisedFalls(b: byte)
    ensures Shifts(Raised(b), 8) == b as bv16
  {
    hide Shift, Shifts;
    var w := b as bv16;
    assert HighMask(8) == 0xFF00;
    assert Apart(w, HighMask(8));
    Climb(w, 8);
    Climbs(w);
  }

  lemma Climbs(w: bv16)
    ensures Climbed(w, 8) == w << 8
  {
    var c1, c2, c3 := Doubled(w), w << 2, w << 3;
    var c4, c5, c6, c7 := w << 4, w << 5, w << 6, w << 7;
    assert Doubled(c1) == c2 && Doubled(c2) == c3 && Doubled(c3) == c4 && Doubled(c4) == c5;
    assert Doubled(c5) == c6 && Doubled(c6) == c7 && Doubled(c7) == w << 8;
    hide Doubled;
    assert Climbed(w, 2) == c2;
    assert Climbed(w, 4) == c4;
    assert Climbed(w, 6) == c6;
  }


  /** A receiver that runs the loop over message and trailer and wants zero accepts exactly the
      two bytes the sender appends, low byte first. */
  lemma FrameCheck(m: seq<byte>, a: byte, b: byte)
    ensures Crc(m + [a, b]) == 0 <==> [a, b] == CrcBytes(m)
  {
    hide Shift, Xor, Raised, Shifts, Low, High;
    var c := Crc(m);
    var x := Xor(c, a as bv16);
    assert m + [a, b] == (m + [a]) + [b];
    RunAppend(0xFFFF, m, a);
    RunAppend(0xFFFF, m + [a], b);
    ShiftsKeepNonzero(Xor(Shifts(x, 8), b as bv16), 8);
    XorZeroIffEqual(Shifts(x, 8), b as bv16);
    RaisedFalls(b);
    ShiftsLinear(x, Raised(b), 8);
    ShiftsKeepNonzero(Xor(x, Raised(b)), 8);
    XorZeroIffEqual(x, Raised(b));
    LowHigh(c, a, b);
  }

  /** A frame that passes the check fails it after any burst of up to sixteen bits, wherever the
      burst hits, trailer included, and after any odd number of flips. */
  lemma DamagedFrameRejected(frame: seq<byte>, frame': seq<byte>, s: nat)
    requires Crc(frame) == 0 && |frame| == |frame'| && frame != frame'
    requires (forall i :: 0 <= i < 8 * |frame| && MessageBits(frame)[i] != MessageBits(frame')[i] ==> s <= i < s + 16)
             || Ones(Damage(frame, frame')) % 2 == 1
    ensures Crc(frame') != 0
  {
    if Ones(Damage(frame, frame')) % 2 == 1 {
      OddFlipsDetected(frame, frame');
    } else {
      BurstDetected(frame, frame', s);
    }
  }
}
