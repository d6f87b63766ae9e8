/** The .NET integer widths the repository computes with, and the unchecked
    conversions between them. Dafny integers are unbounded, so every place the
    C# code relies on a fixed width goes through one of these. */
module Numerics {

  type Byte = x: int | 0 <= x < 0x100
  type Int16 = x: int | -0x8000 <= x < 0x8000
  type Int32 = x: int | -0x8000_0000 <= x < 0x8000_0000
  type UInt32 = x: int | 0 <= x < 0x1_0000_0000
  type Int64 = x: int | -0x8000_0000_0000_0000 <= x < 0x8000_0000_0000_0000

  /** An unchecked cast to `int`: keep the low 32 bits and read them as two's complement. */
  function ToInt32(x: int): (r: Int32)
    ensures (x - r) % 0x1_0000_0000 == 0
    ensures -0x8000_0000 <= x < 0x8000_0000 ==> r == x
  {
    var low := x % 0x1_0000_0000;
    if low < 0x8000_0000 then low else low - 0x1_0000_0000
  }

  /** An unchecked cast to `short`: keep the low 16 bits and read them as two's complement. */
  function ToInt16(x: int): (r: Int16)
    ensures (x - r) % 0x1_0000 == 0
    ensures -0x8000 <= x < 0x8000 ==> r == x
  {
    var low := x % 0x1_0000;
    if low < 0x8000 then low else low - 0x1_0000
  }

  /** The byte `(x >> 8*k) & 255` of a two's complement integer, for k = 0..3.
      An arithmetic right shift is a floor division by a power of two and a
      mask with 255 is the non-negative remainder modulo 256; Dafny's `/` and
      `%` by a positive constant are exactly these. */
  function Byte0(x: int): Byte { x % 0x100 }
  function Byte1(x: int): Byte { (x / 0x100) % 0x100 }
  function Byte2(x: int): Byte { (x / 0x1_0000) % 0x100 }
  function Byte3(x: int): Byte { (x / 0x100_0000) % 0x100 }

  /** The number a string of decimal digits spells, most significant first. */
  function DigitsValue(s: string): nat
    requires forall i :: 0 <= i < |s| ==> '0' <= s[i] <= '9'
    decreases |s|
  {
    if |s| == 0 then 0 else DigitsValue(s[..|s| - 1]) * 10 + (s[|s| - 1] - '0') as nat
  }

  /** Decimal digits of a natural number, as `int.ToString()` prints them:
      they spell n, with no leading zero unless n is 0. */
  function NatToString(n: nat): (s: string)
    ensures |s| >= 1
    ensures forall i :: 0 <= i < |s| ==> '0' <= s[i] <= '9'
    ensures DigitsValue(s) == n
    ensures s[0] == '0' ==> n == 0 && s == "0"
    decreases n
  {
    var digit := ['0' + (n % 10) as char];
    if n < 10 then
      assert digit[..0] == [];
      digit
    else
      var front := NatToString(n / 10);
      assert (front + digit)[..|front + digit| - 1] == front;
      front + digit
  }

  /** `int.ToString()` for any integer: a minus sign exactly for negatives,
      followed by the decimal digits of the magnitude. */
  function IntToString(n: int): (s: string)
    ensures |s| >= 1
    ensures (s[0] == '-') <==> n < 0
    ensures n < 0 ==> s == "-" + NatToString(-n)
    ensures n >= 0 ==> forall i :: 0 <= i < |s| ==> '0' <= s[i] <= '9'
    ensures n >= 0 ==> DigitsValue(s) == n
  {
    if n < 0 then "-" + NatToString(-n) else NatToString(n)
  }

  /** The unchecked cast of a value in [2^31, 2^32 + 2^31) to `int` subtracts 2^32. */
  lemma ToInt32Wraps(x: int)
    requires 0x8000_0000 <= x < 0x1_8000_0000
    ensures ToInt32(x) == x - 0x1_0000_0000
  {
    if x < 0x1_0000_0000 {
      assert x % 0x1_0000_0000 == x;
    } else {
      assert x % 0x1_0000_0000 == x - 0x1_0000_0000;
    }
  }

  /** The unchecked cast to `int` of a value from int.MinValue up to less
      than one wrap above the `int` range, written with one comparison. */
  function WrapOnce32(x: int): Int32
    requires -0x8000_0000 <= x < 0x1_8000_0000
  {
    if x >= 0x8000_0000 then x - 0x1_0000_0000 else x
  }

  lemma WrapOnceIsCast(x: int)
    requires -0x8000_0000 <= x < 0x1_8000_0000
    ensures WrapOnce32(x) == ToInt32(x)
  {
    if x >= 0x8000_0000 {
      ToInt32Wraps(x);
    }
  }

  /** Packing four bytes as `b2 << 16 | b1 << 8 | b0 | b3 << 24` in 32-bit
      `int` keeps each byte in its place, also when b3 >= 128 wraps the word
      to a negative value. The fields are disjoint, so the ORs add. */
  lemma PackThenBytes(b3: Byte, b2: Byte, b1: Byte, b0: Byte)
    ensures var w := ToInt32(b2 * 0x1_0000 + b1 * 0x100 + b0 + b3 * 0x100_0000);
      Byte3(w) == b3 && Byte2(w) == b2 && Byte1(w) == b1 && Byte0(w) == b0 && (w < 0 <==> b3 >= 0x80)
  {
    var x := b2 * 0x1_0000 + b1 * 0x100 + b0 + b3 * 0x100_0000;
    var w := ToInt32(x);
    if x >= 0x8000_0000 {
      ToInt32Wraps(x);
      assert w / 0x100_0000 == b3 - 0x100;
      assert w / 0x1_0000 == (b3 - 0x100) * 0x100 + b2;
      assert w / 0x100 == ((b3 - 0x100) * 0x100 + b2) * 0x100 + b1;
    } else {
      assert w / 0x100_0000 == b3;
      assert w / 0x1_0000 == b3 * 0x100 + b2;
      assert w / 0x100 == (b3 * 0x100 + b2) * 0x100 + b1;
    }
  }

  /** Every `int` is the packing of its own four bytes. */
  lemma BytesThenPack(w: Int32)
    ensures ToInt32(Byte2(w) * 0x1_0000 + Byte1(w) * 0x100 + Byte0(w) + Byte3(w) * 0x100_0000) == w
  {
    var q1 := w / 0x100;
    var q2 := w / 0x1_0000;
    var q3 := w / 0x100_0000;
    assert w == q1 * 0x100 + Byte0(w);
    assert q1 == q2 * 0x100 + Byte1(w);
    assert q2 == q3 * 0x100 + Byte2(w);
    assert -0x80 <= q3 < 0x80;
    assert Byte3(w) == q3 || Byte3(w) == q3 + 0x100;
    var x := Byte2(w) * 0x1_0000 + Byte1(w) * 0x100 + Byte0(w) + Byte3(w) * 0x100_0000;
    assert x == w || x == w + 0x1_0000_0000;
    if x != w {
      ToInt32Wraps(x);
    }
  }

  /** Adding q * 2^32 moves the quotients by 2^8, 2^16 and 2^24 a
      multiple of 2^32 and leaves the remainder modulo 2^8 alone. */
  lemma ShiftBy24(a: int, q: int)
    ensures (a + q * 0x1_0000_0000) / 0x100_0000 == a / 0x100_0000 + q * 0x100
  {
  }

  lemma ShiftBy16(a: int, q: int)
    ensures (a + q * 0x1_0000_0000) / 0x1_0000 == a / 0x1_0000 + q * 0x1_0000
  {
  }

  lemma ShiftBy8(a: int, q: int)
    ensures (a + q * 0x1_0000_0000) / 0x100 == a / 0x100 + q * 0x100_0000
  {
  }

  /** Adding a multiple of 256 keeps the remainder modulo 256. */
  lemma ModAdd256(a: int, m: int)
    ensures (a + m * 0x100) % 0x100 == a % 0x100
  {
  }

  /** Two values that differ by q * 2^32 have the same four low bytes. */
  lemma SameLowBytes(a: int, q: int)
    ensures Byte3(a + q * 0x1_0000_0000) == Byte3(a) && Byte2(a + q * 0x1_0000_0000) == Byte2(a)
    ensures Byte1(a + q * 0x1_0000_0000) == Byte1(a) && Byte0(a + q * 0x1_0000_0000) == Byte0(a)
  {
    ShiftBy24(a, q);
    ModAdd256(a / 0x100_0000, q);
    ShiftBy16(a, q);
    ModAdd256(a / 0x1_0000, q * 0x100);
    ShiftBy8(a, q);
    ModAdd256(a / 0x100, q * 0x1_0000);
    ModAdd256(a, q * 0x100_0000);
  }

  /** The unchecked cast to `int` keeps the low four bytes of any value. */
  lemma CastKeepsBytes(x: int)
    ensures Byte3(ToInt32(x)) == Byte3(x) && Byte2(ToInt32(x)) == Byte2(x)
    ensures Byte1(ToInt32(x)) == Byte1(x) && Byte0(ToInt32(x)) == Byte0(x)
  {
    var r := ToInt32(x);
    var q := (x - r) / 0x1_0000_0000;
    assert x == r + q * 0x1_0000_0000;
    SameLowBytes(r, q);
  }

  /** A `double` quotient the model meets: a real number, or the NaN that
      `0.0 / 0` gives. */
  datatype Double = Num(value: real) | NaN

  /** `sum / count` in `double`, for a count of added terms: no terms added
      leave the sum 0.0, and 0.0 / 0 is NaN. */
  function DivideByCount(sum: real, count: nat): (r: Double)
    requires count == 0 ==> sum == 0.0
    ensures r.NaN? <==> count == 0
    ensures r.Num? ==> r.value * (count as real) == sum
  {
    if count == 0 then NaN else Num(sum / (count as real))
  }
}
