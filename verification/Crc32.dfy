/**
 The checksum of src/crc32.c: the table, the table-driven update, the bit-serial reflected
 CRC-32 they have to agree with, and the error detection the journal relies on.
 A uint32_t is modelled by its 32 bits, least significant first.
 */
module Crc32 {
  import opened Bytes
  import opened Folds

  type Word = w: seq<bool> | |w| == 32 witness seq(32, _ => false)

  function Zeros(n: nat): (s: seq<bool>)
    ensures |s| == n && forall i :: 0 <= i < n ==> !s[i]
  {
    seq(n, _ => false)
  }

  function Xor(a: Word, b: Word): (r: Word)
    ensures forall i :: 0 <= i < 32 ==> r[i] == (a[i] != b[i])
  {
    seq(32, i requires 0 <= i < 32 => a[i] != b[i])
  }

  function ShiftRight(w: Word, k: nat): (r: Word)
    requires k <= 32
    ensures forall i :: 0 <= i < 32 - k ==> r[i] == w[i + k]
    ensures forall i :: 32 - k <= i < 32 ==> !r[i]
  {
    w[k..] + Zeros(k)
  }

  /** A short bit string as the low bits of a word. */
  function Pad(bits: seq<bool>): (r: Word)
    requires |bits| <= 32
    ensures forall i :: 0 <= i < 32 ==> r[i] == (i < |bits| && bits[i])
  {
    bits + Zeros(32 - |bits|)
  }

  const POLY: Word := Bits(0xEDB88320, 32)
  const INIT: Word := Bits(0xFFFF_FFFF, 32)

  /** One step of the inner loop of the table builder. */
  function Shift(c: Word): Word {
    if c[0] then Xor(POLY, ShiftRight(c, 1)) else ShiftRight(c, 1)
  }

  /** One message byte, eight shifts at a time. */
  function ByteStep(crc: Word, b: byte): Word {
    Iterate(Shift, Xor(crc, Pad(ByteBits(b))), 8)
  }

  /** The running checksum after the bytes of buf. */
  function Update(crc: Word, buf: seq<byte>): Word {
    Fold(ByteStep, crc, buf)
  }

  function Final(crc: Word): Word {
    Xor(crc, INIT)
  }

  // ---- the reference: one message bit at a time, least significant bit first ----

  /** The feedback shift register of reflected CRC-32, fed one message bit. */
  function BitStep(crc: Word, bit: bool): Word {
    if crc[0] != bit then Xor(ShiftRight(crc, 1), POLY) else ShiftRight(crc, 1)
  }

  function BitSerial(crc: Word, bits: seq<bool>): Word {
    Fold(BitStep, crc, bits)
  }

  function MessageBits(buf: seq<byte>): (bits: seq<bool>)
    ensures |bits| == 8 * |buf|
    decreases |buf|
  {
    if buf == [] then [] else ByteBits(buf[0]) + MessageBits(buf[1..])
  }

  // ---- the shift step is linear and injective ----

  lemma ShiftLinear(a: Word, b: Word)
    ensures Preserves(Shift, Xor, a, b)
  {
    assert Shift(Xor(a, b)) == Xor(Shift(a), Shift(b));
  }

  lemma {:induction false} TopDigit(n: nat, width: nat)
    requires width > 0 && Power(2, width - 1) <= n < Power(2, width)
    ensures Digits(2, n, width)[width - 1] == 1
    decreases width
  {
    if width > 1 {
      TopDigit(n / 2, width - 1);
      DigitsCons(2, n, width);
    }
  }

  lemma PolyTopBit()
    ensures POLY[31]
  {
    Powers2();
    assert Power(2, 32) == 2 * Power(2, 31);
    TopDigit(0xEDB88320, 32);
  }

  lemma ShiftInjective(a: Word, b: Word)
    requires Shift(a) == Shift(b)
    ensures a == b
  {
    PolyTopBit();
    assert Shift(a)[31] == a[0] && Shift(b)[31] == b[0];
    forall i | 1 <= i < 32 ensures a[i] == b[i] {
      assert Shift(a)[i - 1] == Shift(b)[i - 1];
    }
  }

  lemma {:induction false} ShiftsLinear(a: Word, b: Word, n: nat)
    ensures Iterate(Shift, Xor(a, b), n) == Xor(Iterate(Shift, a, n), Iterate(Shift, b, n))
  {
    forall x, y ensures Preserves(Shift, Xor, x, y) {
      ShiftLinear(x, y);
    }
    IteratePreserves(Shift, Xor, a, b, n);
  }

  lemma {:induction false} ShiftsInjective(a: Word, b: Word, n: nat)
    requires Iterate(Shift, a, n) == Iterate(Shift, b, n)
    ensures a == b
  {
    forall x, y | Shift(x) == Shift(y) ensures x == y {
      ShiftInjective(x, y);
    }
    IterateInjective(Shift, a, b, n);
  }

  /** Steps over zero low bits only shift. */
  lemma {:induction false} ShiftsClear(c: Word, n: nat)
    requires n <= 32 && forall i :: 0 <= i < n ==> !c[i]
    ensures Iterate(Shift, c, n) == ShiftRight(c, n)
  {
    if n > 0 {
      ShiftsClear(c, n - 1);
      assert Shift(ShiftRight(c, n - 1)) == ShiftRight(c, n);
    }
  }

  // ---- the table ----

  /** What the table holds at index i. */
  function Entry(i: nat): Word
    requires i < 256
  {
    Iterate<Word>(Shift, Bits(i, 32), 8)
  }

  ghost predicate IsTable(t: seq<Word>) {
    |t| == 256 && forall i :: 0 <= i < 256 ==> t[i] == Entry(i)
  }

  method BuildTable(table: array<Word>)
    requires table.Length == 256
    modifies table
    ensures IsTable(table[..])
  {
    for i := 0 to 256
      invariant forall j :: 0 <= j < i ==> table[j] == Entry(j)
    {
      table[i] := TableEntry(Bits(i, 32));
    }
  }

  /** The inner loop of the table builder. */
  method TableEntry(seed: Word) returns (c: Word)
    ensures c == Iterate(Shift, seed, 8)
  {
    c := seed;
    for k := 0 to 8
      invariant c == Iterate(Shift, seed, k)
    {
      c := if c[0] then Xor(POLY, ShiftRight(c, 1)) else ShiftRight(c, 1);
    }
  }

  /** The low byte of a word as a table index. */
  function LowByte(w: Word): byte {
    BitsByte(w[..8])
  }

  lemma {:induction false} SmallDigits(base: nat, n: nat, width: nat, k: nat)
    requires base > 0 && width <= k && n < Power(base, width)
    ensures Digits(base, n, k) == Digits(base, n, width) + seq(k - width, _ => 0)
    decreases k
  {
    if width == 0 {
      if k > 0 {
        SmallDigits(base, 0, 0, k - 1);
        DigitsCons(base, n, k);
      }
    } else {
      MulOrder(base, Power(base, width - 1), n / base);
      SmallDigits(base, n / base, width - 1, k - 1);
      DigitsCons(base, n, k);
      DigitsCons(base, n, width);
    }
  }

  lemma LowByteWord(w: Word)
    ensures Bits(LowByte(w), 32) == Pad(w[..8])
  {
    Powers2();
    ByteBitsRoundTrip(0, w[..8]);
    SmallDigits(2, LowByte(w), 8, 32);
    assert forall i :: 0 <= i < 8 ==> Bits(LowByte(w), 8)[i] == w[i];
  }

  /** The table-driven step is eight bit steps. */
  lemma TableStep(crc: Word, b: byte)
    ensures var x := Xor(crc, Pad(ByteBits(b)));
            Xor(Entry(LowByte(x)), ShiftRight(crc, 8)) == ByteStep(crc, b)
  {
    var x := Xor(crc, Pad(ByteBits(b)));
    LowByteWord(x);
    assert ShiftRight(x, 8) == ShiftRight(crc, 8);
    EntrySplit(x, 8);
  }

  lemma {:induction false} EntrySplit(x: Word, n: nat)
    requires n <= 32
    ensures Xor(Iterate(Shift, Pad(x[..n]), n), ShiftRight(x, n)) == Iterate(Shift, x, n)
  {
    var low, high: Word := Pad(x[..n]), Zeros(n) + x[n..];
    assert x == Xor(low, high);
    ShiftsLinear(low, high, n);
    ShiftsClear(high, n);
    assert ShiftRight(high, n) == ShiftRight(x, n);
  }

  method TableUpdate(table: array<Word>, init: Word, buf: seq<byte>) returns (crc: Word)
    requires IsTable(table[..])
    ensures crc == Update(init, buf)
  {
    crc := init;
    for i := 0 to |buf|
      invariant Fold(ByteStep, crc, buf[i..]) == Fold(ByteStep, init, buf)
    {
      var x := Xor(crc, Pad(ByteBits(buf[i])));
      TableStep(crc, buf[i]);
      assert table[..][LowByte(x)] == Entry(LowByte(x));
      assert buf[i..][1..] == buf[i + 1..];
      crc := Xor(table[LowByte(x)], ShiftRight(crc, 8));
    }
  }

  // ---- agreement with the bit-serial reference ----

  /** Feeding a bit to the register is shifting the register with the bit xored in. */
  lemma BitStepIsShift(s: Word, w: Word)
    ensures Shift(Xor(s, w)) == Xor(BitStep(s, w[0]), ShiftRight(w, 1))
  {}

  /** At most 32 bits fed one by one act as one word xored in before the shifts. */
  lemma {:induction false} WindowIsWord(s: Word, bits: seq<bool>)
    requires |bits| <= 32
    ensures BitSerial(s, bits) == Iterate(Shift, Xor(s, Pad(bits)), |bits|)
    decreases |bits|
  {
    if bits == [] {
      assert Xor(s, Pad(bits)) == s;
    } else {
      BitStepIsShift(s, Pad(bits));
      assert ShiftRight(Pad(bits), 1) == Pad(bits[1..]);
      IterateAdd(Shift, Xor(s, Pad(bits)), 1, |bits| - 1);
      assert Iterate(Shift, Xor(s, Pad(bits)), 1) == Shift(Iterate(Shift, Xor(s, Pad(bits)), 0));
      WindowIsWord(BitStep(s, bits[0]), bits[1..]);
    }
  }

  /** The byte-wise checksum is the bit-serial CRC-32 of the message bits. */
  lemma {:induction false} UpdateIsBitSerial(crc: Word, buf: seq<byte>)
    ensures Update(crc, buf) == BitSerial(crc, MessageBits(buf))
    decreases |buf|
  {
    if buf != [] {
      WindowIsWord(crc, ByteBits(buf[0]));
      FoldConcat(BitStep, crc, ByteBits(buf[0]), MessageBits(buf[1..]));
      UpdateIsBitSerial(ByteStep(crc, buf[0]), buf[1..]);
    }
  }

  /** Updating over a concatenation is updating over its parts in turn. */
  lemma UpdateConcat(crc: Word, a: seq<byte>, b: seq<byte>)
    ensures Update(crc, a + b) == Update(Update(crc, a), b)
  {
    FoldConcat(ByteStep, crc, a, b);
  }

  // ---- check values ----

  /** The bits of a number and of its complement. */
  lemma {:induction false} ComplementBits(n: nat, width: nat)
    requires n < Power(2, width)
    ensures forall i :: 0 <= i < width ==> Bits(Power(2, width) - 1 - n, width)[i] == !Bits(n, width)[i]
    decreases width
  {
    if width > 0 {
      var m := Power(2, width) - 1 - n;
      assert m / 2 == Power(2, width - 1) - 1 - n / 2 && m % 2 == 1 - n % 2;
      ComplementBits(n / 2, width - 1);
      DigitsCons(2, n, width);
      DigitsCons(2, m, width);
      forall i | 0 <= i < width ensures Bits(m, width)[i] == !Bits(n, width)[i] {
        if i > 0 {
          assert Bits(m / 2, width - 1)[i - 1] == !Bits(n / 2, width - 1)[i - 1];
        }
      }
    }
  }

  lemma {:induction false} TopBit(n: nat)
    ensures FromBits(Zeros(n) + [true]) == Power(2, n)
  {
    var s := Zeros(n) + [true];
    if n > 0 {
      TopBit(n - 1);
      assert BitDigits(s) == [0] + BitDigits(Zeros(n - 1) + [true]);
      FromDigitsStep(2, 0, BitDigits(Zeros(n - 1) + [true]));
    } else {
      assert BitDigits(s) == [1] + [];
      FromDigitsStep(2, 1, []);
    }
  }

  /** The bits of the bytes 255 and 128. */
  lemma SampleBytes()
    ensures forall i :: 0 <= i < 8 ==> ByteBits(255)[i]
    ensures forall i :: 0 <= i < 8 ==> (ByteBits(128)[i] <==> i == 7)
  {
    Powers2();
    SmallDigits(2, 0, 0, 8);
    ComplementBits(0, 8);
    TopBit(7);
    assert Power(2, 8) == 2 * Power(2, 7);
    FromBitsRoundTrip(Zeros(7) + [true]);
  }

  /** The start value is all ones. */
  lemma InitOnes()
    ensures forall i :: 0 <= i < 32 ==> INIT[i]
  {
    Powers2();
    SmallDigits(2, 0, 0, 32);
    ComplementBits(0, 32);
    var m := Power(2, 32) - 1 - 0;
    assert INIT == Bits(m, 32);
    forall i | 0 <= i < 32 ensures INIT[i] {
      assert Bits(m, 32)[i] == !Bits(0, 32)[i];
    }
  }

  /** The final step inverts every bit. */
  lemma Inverted(n: nat)
    requires n < 0x1_0000_0000
    ensures FromBits(Final(Bits(n, 32))) == 0xFFFF_FFFF - n
  {
    Powers2();
    InitOnes();
    ComplementBits(n, 32);
    var m := Power(2, 32) - 1 - n;
    forall i | 0 <= i < 32 ensures Final(Bits(n, 32))[i] == Bits(m, 32)[i] {
      assert Bits(m, 32)[i] == !Bits(n, 32)[i];
    }
    assert Final(Bits(n, 32)) == Bits(m, 32);
    BitsRoundTrip(m, 32);
  }

  const ONES: seq<byte> := [0xFF, 0xFF, 0xFF, 0xFF]

  lemma OnesBits()
    ensures |MessageBits(ONES)| == 32 && forall i :: 0 <= i < 32 ==> MessageBits(ONES)[i]
  {
    SampleBytes();
    var a: seq<byte>, b: seq<byte>, c: seq<byte> := ONES[1..], ONES[2..], ONES[3..];
    assert a[1..] == b && b[1..] == c && c[1..] == [];
  }

  /** Four bytes of ones clear the register. */
  lemma OnesClear()
    ensures Update(INIT, ONES) == Zeros(32)
  {
    OnesBits();
    InitOnes();
    UpdateIsBitSerial(INIT, ONES);
    WindowIsWord(INIT, MessageBits(ONES));
    assert Xor(INIT, Pad(MessageBits(ONES))) == Zeros(32);
    ShiftsClear(Zeros(32), 32);
    assert ShiftRight(Zeros(32), 32) == Zeros(32);
  }

  /** From a clear register a single top bit in the last byte leaves the polynomial. */
  lemma TopBitLeavesPoly()
    ensures ByteStep(Zeros(32), 128) == POLY
  {
    SampleBytes();
    var w: Word := Pad(ByteBits(128));
    assert Xor(Zeros(32), w) == w;
    ShiftsClear(w, 7);
    assert Xor(POLY, ShiftRight(ShiftRight(w, 7), 1)) == POLY;
  }

  /**
   Values of the standard CRC-32 that pin its start value, its polynomial and its final
   inversion: of no bytes, of four bytes of ones, and of these and a byte 80 in hexadecimal.
   */
  lemma CheckValues()
    ensures FromBits(Final(Update(INIT, []))) == 0
    ensures FromBits(Final(Update(INIT, ONES))) == 0xFFFF_FFFF
    ensures FromBits(Final(Update(INIT, ONES + [0x80]))) == 0x1247_7CDF
  {
    Inverted(0xFFFF_FFFF);
    Inverted(0);
    Inverted(0xEDB8_8320);
    Powers2();
    SmallDigits(2, 0, 0, 32);
    assert Bits(0, 32) == Zeros(32);
    OnesClear();
    TopBitLeavesPoly();
    UpdateConcat(INIT, ONES, [0x80]);
    assert [0x80 as byte][1..] == [];
  }

  // ---- error detection ----

  lemma XorCancel(a: Word, b: Word, w: Word)
    ensures Xor(a, w) == Xor(b, w) <==> a == b
    ensures Xor(w, a) == Xor(w, b) <==> a == b
  {
    assert forall x: Word :: Xor(Xor(x, w), w) == x;
    assert Xor(w, a) == Xor(a, w) && Xor(w, b) == Xor(b, w);
    if Xor(a, w) == Xor(b, w) {
      assert a == Xor(Xor(a, w), w);
      assert b == Xor(Xor(b, w), w);
    }
  }

  lemma BitStepInjective(a: Word, b: Word, bit: bool)
    requires BitStep(a, bit) == BitStep(b, bit)
    ensures a == b
  {
    var w: Word := Pad([bit]);
    BitStepIsShift(a, w);
    BitStepIsShift(b, w);
    ShiftInjective(Xor(a, w), Xor(b, w));
    XorCancel(a, b, w);
  }

  lemma BitSerialInjective(a: Word, b: Word, bits: seq<bool>)
    requires BitSerial(a, bits) == BitSerial(b, bits)
    ensures a == b
  {
    forall s, t, x | BitStep(s, x) == BitStep(t, x) ensures s == t {
      BitStepInjective(s, t, x);
    }
    FoldInjective(BitStep, a, b, bits);
  }

  lemma WindowInjective(c: Word, x: seq<bool>, y: seq<bool>)
    requires |x| == |y| <= 32 && BitSerial(c, x) == BitSerial(c, y)
    ensures x == y
  {
    WindowIsWord(c, x);
    WindowIsWord(c, y);
    ShiftsInjective(Xor(c, Pad(x)), Xor(c, Pad(y)), |x|);
    XorCancel(Pad(x), Pad(y), c);
    assert x == Pad(x)[..|x|] && y == Pad(y)[..|x|];
  }

  /**
   Two bit strings that differ only inside a window of at most 32 bits never leave the
   register in the same state.
   */
  lemma BurstDetected(crc: Word, prefix: seq<bool>, x: seq<bool>, y: seq<bool>, suffix: seq<bool>)
    requires |x| == |y| <= 32 && x != y
    ensures BitSerial(crc, prefix + x + suffix) != BitSerial(crc, prefix + y + suffix)
  {
    var c := BitSerial(crc, prefix);
    FoldConcat(BitStep, crc, prefix + x, suffix);
    FoldConcat(BitStep, crc, prefix + y, suffix);
    FoldConcat(BitStep, crc, prefix, x);
    FoldConcat(BitStep, crc, prefix, y);
    var u, v := BitSerial(c, x), BitSerial(c, y);
    if u == v {
      WindowInjective(c, x, y);
    }
    if BitSerial(u, suffix) == BitSerial(v, suffix) {
      BitSerialInjective(u, v, suffix);
    }
  }

  lemma {:induction false} MessageBitsConcat(a: seq<byte>, b: seq<byte>)
    ensures MessageBits(a + b) == MessageBits(a) + MessageBits(b)
    decreases |a|
  {
    if a == [] {
      assert a + b == b;
    } else {
      assert (a + b)[1..] == a[1..] + b;
      MessageBitsConcat(a[1..], b);
    }
  }

  lemma {:induction false} MessageBitsInjective(a: seq<byte>, b: seq<byte>)
    requires |a| == |b| && MessageBits(a) == MessageBits(b)
    ensures a == b
    decreases |a|
  {
    if a != [] {
      assert MessageBits(a)[..8] == ByteBits(a[0]) && MessageBits(a)[8..] == MessageBits(a[1..]);
      assert MessageBits(b)[..8] == ByteBits(b[0]) && MessageBits(b)[8..] == MessageBits(b[1..]);
      ByteBitsRoundTrip(a[0], []);
      ByteBitsRoundTrip(b[0], []);
      MessageBitsInjective(a[1..], b[1..]);
      assert a == [a[0]] + a[1..] && b == [b[0]] + b[1..];
    }
  }

  /**
   Changing anything inside a window of at most four bytes of a message changes its
   checksum; a single changed byte is the window of one.
   */
  lemma CorruptionDetected(crc: Word, prefix: seq<byte>, x: seq<byte>, y: seq<byte>, suffix: seq<byte>)
    requires |x| == |y| <= 4 && x != y
    ensures Final(Update(crc, prefix + x + suffix)) != Final(Update(crc, prefix + y + suffix))
  {
    UpdateIsBitSerial(crc, prefix + x + suffix);
    UpdateIsBitSerial(crc, prefix + y + suffix);
    MessageBitsConcat(prefix + x, suffix);
    MessageBitsConcat(prefix + y, suffix);
    MessageBitsConcat(prefix, x);
    MessageBitsConcat(prefix, y);
    if MessageBits(x) == MessageBits(y) {
      MessageBitsInjective(x, y);
    }
    BurstDetected(crc, MessageBits(prefix), MessageBits(x), MessageBits(y), MessageBits(suffix));
    XorCancel(Update(crc, prefix + x + suffix), Update(crc, prefix + y + suffix), INIT);
  }
}
