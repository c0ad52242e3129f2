/** Bytes, their bits, and the little-endian integers the on-disk structs are made of. */
module Bytes {
  type byte = n: int | 0 <= n < 256

  /** Two to the 64th: the counters of the C structs wrap here. */
  const U64: nat := 0x1_0000_0000_0000_0000

  type u64 = n: int | 0 <= n < 0x1_0000_0000_0000_0000

  function Power(base: nat, exponent: nat): (p: nat)
    requires base > 0
    ensures p > 0
  {
    if exponent == 0 then 1 else base * Power(base, exponent - 1)
  }

  // ---- integers as digit sequences, least significant digit first ----

  /** Digit i of n. */
  function DigitAt(base: nat, n: nat, i: nat): (d: nat)
    requires base > 0
    ensures d < base
    decreases i, n
  {
    if i == 0 then n % base else DigitAt(base, n / base, i - 1)
  }

  function Digits(base: nat, n: nat, width: nat): (s: seq<nat>)
    requires base > 0
    ensures |s| == width && forall i :: 0 <= i < width ==> s[i] < base
  {
    seq(width, i requires 0 <= i < width => DigitAt(base, n, i))
  }

  lemma DigitsCons(base: nat, n: nat, width: nat)
    requires base > 0 && width > 0
    ensures Digits(base, n, width) == [n % base] + Digits(base, n / base, width - 1)
  {}

  function FromDigits(base: nat, s: seq<nat>): nat {
    if s == [] then 0 else s[0] + base * FromDigits(base, s[1..])
  }

  lemma MulOrder(k: nat, a: nat, b: nat)
    ensures a <= b ==> k * a <= k * b
    ensures a < b ==> k * a + k <= k * b
  {
    if a < b {
      assert k * b == k * a + k * (b - a);
      MulNonNegative(k, b - a - 1);
    }
  }

  lemma MulNonNegative(a: nat, b: nat)
    ensures a * b >= 0
    ensures a * (b + 1) == a * b + a
  {}

  lemma {:induction false} FromDigitsBound(base: nat, s: seq<nat>)
    requires base > 0 && forall i :: 0 <= i < |s| ==> s[i] < base
    ensures FromDigits(base, s) < Power(base, |s|)
  {
    if s != [] {
      FromDigitsBound(base, s[1..]);
      MulOrder(base, FromDigits(base, s[1..]), Power(base, |s| - 1));
    }
  }

  lemma DivisionDigit(base: nat, low: nat, high: nat)
    requires low < base
    ensures (low + base * high) % base == low && (low + base * high) / base == high
  {
    var n := low + base * high;
    var q, r := n / base, n % base;
    assert n == base * q + r;
    MulOrder(base, q, high);
    MulOrder(base, high, q);
  }

  lemma Divide(n: nat, base: nat, p: nat)
    requires base > 0
    ensures n == base * (n / base) + n % base
    ensures n < base * p ==> n / base < p
    ensures base * p <= n ==> p <= n / base
  {
    MulOrder(base, p, n / base);
    MulOrder(base, n / base, p);
  }

  /** Digits and FromDigits are inverse, in both directions. */
  lemma {:induction false} DigitsRoundTrip(base: nat, n: nat, width: nat)
    requires base > 0 && n < Power(base, width)
    ensures FromDigits(base, Digits(base, n, width)) == n
    decreases width
  {
    if width > 0 {
      Divide(n, base, Power(base, width - 1));
      DigitsRoundTrip(base, n / base, width - 1);
      DigitsCons(base, n, width);
      FromDigitsStep(base, n % base, Digits(base, n / base, width - 1));
    }
  }

  lemma {:induction false} FromDigitsStep(base: nat, d: nat, s: seq<nat>)
    ensures FromDigits(base, [d] + s) == d + base * FromDigits(base, s)
  {
    assert ([d] + s)[1..] == s;
  }

  lemma {:induction false} FromDigitsRoundTrip(base: nat, s: seq<nat>)
    requires base > 0 && forall i :: 0 <= i < |s| ==> s[i] < base
    ensures Digits(base, FromDigits(base, s), |s|) == s
  {
    if s != [] {
      FromDigitsRoundTrip(base, s[1..]);
      DivisionDigit(base, s[0], FromDigits(base, s[1..]));
      DigitsCons(base, FromDigits(base, s), |s|);
    }
  }

  // ---- little-endian fields ----

  /** The low `width` bytes of n, least significant first. */
  function Le(n: nat, width: nat): (s: seq<byte>)
    ensures |s| == width
  {
    var d := Digits(256, n, width);
    seq(width, i requires 0 <= i < width => d[i])
  }

  function UnLe(s: seq<byte>): nat {
    FromDigits(256, s)
  }

  lemma DivideTwice(n: nat, a: nat, b: nat)
    requires a > 0 && b > 0
    ensures a * b > 0 && n / a / b == n / (a * b)
  {
    var q := n / a;
    MulOrder(a, 1, b);
    Divide(n, a, 0);
    Divide(q, b, 0);
    MulOrder(a, q % b, b);
    MulNonNegative(a, q % b);
    assert a * (b * (q / b) + q % b) == a * b * (q / b) + a * (q % b);
    DivisionDigit(a * b, a * (q % b) + n % a, q / b);
  }

  /** Digit i is the quotient by the i-th power of the base, reduced. */
  lemma {:induction false} DigitPlace(base: nat, n: nat, i: nat)
    requires base > 0
    ensures DigitAt(base, n, i) == n / Power(base, i) % base
    decreases i
  {
    if i > 0 {
      DigitPlace(base, n / base, i - 1);
      DivideTwice(n, base, Power(base, i - 1));
    }
  }

  /** Byte i of a little-endian field has the weight 256 to the i. */
  lemma {:induction false} LePlace(n: nat, width: nat, i: nat)
    requires i < width
    ensures Le(n, width)[i] == n / Power(256, i) % 256
  {
    DigitPlace(256, n, i);
  }

  lemma Powers256()
    ensures Power(256, 4) == 0x1_0000_0000 && Power(256, 8) == U64
  {
    assert Power(256, 1) == 256;
    assert Power(256, 2) == 0x1_0000;
    assert Power(256, 3) == 0x100_0000;
    assert Power(256, 4) == 0x1_0000_0000;
    assert Power(256, 5) == 0x100_0000_0000;
    assert Power(256, 6) == 0x1_0000_0000_0000;
    assert Power(256, 7) == 0x100_0000_0000_0000;
  }

  /** A width-4 or width-8 field reads back as the value stored in it. */
  lemma LeFields(n: nat)
    ensures n < 0x1_0000_0000 ==> UnLe(Le(n, 4)) == n
    ensures n < U64 ==> UnLe(Le(n, 8)) == n
  {
    Powers256();
    if n < 0x1_0000_0000 {
      DigitsRoundTrip(256, n, 4);
      assert Le(n, 4) == Digits(256, n, 4);
    }
    if n < U64 {
      DigitsRoundTrip(256, n, 8);
      assert Le(n, 8) == Digits(256, n, 8);
    }
  }

  lemma FieldBounds(s: seq<byte>)
    ensures |s| == 4 ==> UnLe(s) < 0x1_0000_0000
    ensures |s| == 8 ==> UnLe(s) < U64
  {
    Powers256();
    FromDigitsBound(256, s);
  }

  // ---- bits ----

  /** The low `width` bits of n, least significant first. */
  function Bits(n: nat, width: nat): (s: seq<bool>)
    ensures |s| == width
  {
    var d := Digits(2, n, width);
    seq(width, i requires 0 <= i < width => d[i] == 1)
  }

  function FromBits(s: seq<bool>): nat {
    FromDigits(2, BitDigits(s))
  }

  function BitDigits(s: seq<bool>): (d: seq<nat>)
    ensures |d| == |s|
  {
    seq(|s|, i requires 0 <= i < |s| => if s[i] then 1 else 0)
  }

  /** Bit i has the weight two to the i. */
  lemma {:induction false} BitPlace(n: nat, width: nat, i: nat)
    requires i < width
    ensures Bits(n, width)[i] <==> n / Power(2, i) % 2 == 1
  {
    DigitPlace(2, n, i);
  }

  lemma {:induction false} BitsRoundTrip(n: nat, width: nat)
    requires n < Power(2, width)
    ensures FromBits(Bits(n, width)) == n
  {
    DigitsRoundTrip(2, n, width);
    assert BitDigits(Bits(n, width)) == Digits(2, n, width);
  }

  lemma {:induction false} FromBitsRoundTrip(s: seq<bool>)
    ensures FromBits(s) < Power(2, |s|) && Bits(FromBits(s), |s|) == s
  {
    FromDigitsBound(2, BitDigits(s));
    FromDigitsRoundTrip(2, BitDigits(s));
  }

  lemma Powers2()
    ensures Power(2, 8) == 256 && Power(2, 32) == 0x1_0000_0000
  {
    assert Power(2, 4) == 16;
    PowerAdd(2, 4, 4);
    PowerAdd(2, 8, 8);
    PowerAdd(2, 16, 16);
  }

  lemma {:induction false} PowerAdd(base: nat, m: nat, n: nat)
    requires base > 0
    ensures Power(base, m + n) == Power(base, m) * Power(base, n)
  {
    if m > 0 {
      PowerAdd(base, m - 1, n);
      assert Power(base, m + n) == base * (Power(base, m - 1) * Power(base, n));
    }
  }

  /** The eight bits of a byte, and the byte made of eight bits. */
  function ByteBits(b: byte): (s: seq<bool>)
    ensures |s| == 8
  {
    Bits(b, 8)
  }

  function BitsByte(s: seq<bool>): byte
    requires |s| == 8
  {
    Powers2();
    FromBitsRoundTrip(s);
    FromBits(s)
  }

  lemma ByteBitsRoundTrip(b: byte, s: seq<bool>)
    ensures BitsByte(ByteBits(b)) == b
    ensures |s| == 8 ==> ByteBits(BitsByte(s)) == s
  {
    Powers2();
    BitsRoundTrip(b, 8);
    if |s| == 8 {
      FromBitsRoundTrip(s);
    }
  }
}
