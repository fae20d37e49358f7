/**
  The pieces of the .NET base library that the random string generator relies
  on, modelled from their documented behaviour: the 32-bit `int`, the `&`
  operator on it, `BitConverter.ToInt32` on a little-endian machine,
  `char.IsWhiteSpace` and `string.IsNullOrWhiteSpace`.
*/
module DotNet {

  /** System.Int32: C#'s `int`. */
  newtype int32 = x: int | -0x8000_0000 <= x < 0x8000_0000

  /** System.Byte */
  newtype byte = x: int | 0 <= x < 0x100

  /** int.MaxValue */
  const IntMaxValue: int32 := 0x7FFF_FFFF

  /** 2 to the power `k`. */
  function Pow2(k: nat): (p: nat)
    ensures 1 <= p
  {
    if k == 0 then 1 else 2 * Pow2(k - 1)
  }

  lemma {:induction false} Pow2Add(a: nat, b: nat)
    ensures Pow2(a + b) == Pow2(a) * Pow2(b)
  {
    if a > 0 {
      Pow2Add(a - 1, b);
    }
  }

  lemma Pow2ThirtyOne()
    ensures Pow2(31) == 0x8000_0000
  {
    assert Pow2(1) == 2 && Pow2(2) == 4;
    Pow2Add(2, 2);
    Pow2Add(4, 4);
    Pow2Add(8, 8);
    Pow2Add(16, 8);
    Pow2Add(24, 4);
    Pow2Add(28, 2);
    Pow2Add(30, 1);
  }

  /** The unsigned number that `bytes` spell, least significant byte first. */
  function LittleEndian(bytes: seq<byte>): nat
  {
    if bytes == [] then 0 else bytes[0] as int + 0x100 * LittleEndian(bytes[1..])
  }

  /** The unsigned 32-bit pattern of an `int` (its two's-complement representation). */
  function Unsigned(x: int32): (u: nat)
    ensures u < 0x1_0000_0000
    ensures x >= 0 ==> u == x as int
  {
    if x < 0 then x as int + 0x1_0000_0000 else x as int
  }

  /** The `int` whose two's-complement representation is the 32-bit pattern `u`. */
  function Signed(u: nat): (x: int32)
    requires u < 0x1_0000_0000
    ensures Unsigned(x) == u
    ensures u < 0x8000_0000 ==> x as int == u
  {
    (if u < 0x8000_0000 then u else u - 0x1_0000_0000) as int32
  }

  /**
    BitConverter.ToInt32(value, startIndex) on a little-endian machine: the
    `int` whose two's-complement representation is the four bytes at
    `startIndex`, least significant first. The library throws when fewer than
    four bytes follow `startIndex`; the generator never calls it that way.
  */
  function ToInt32(value: seq<byte>, startIndex: int): (r: int32)
    requires 0 <= startIndex && startIndex + 4 <= |value|
    ensures Unsigned(r) == LittleEndian(value[startIndex..startIndex + 4])
  {
    FourBytesBound(value[startIndex..startIndex + 4]);
    Signed(LittleEndian(value[startIndex..startIndex + 4]))
  }

  /** The AND of the `width` lowest bits of `x` and `y`. */
  function BitsAnd(x: nat, y: nat, width: nat): (r: nat)
    ensures r <= x
  {
    if width == 0 then 0
    else (if x % 2 == 1 && y % 2 == 1 then 1 else 0) + 2 * BitsAnd(x / 2, y / 2, width - 1)
  }

  /**
    C#'s `x & y` on `int`: the bitwise AND of the two's-complement
    representations. A non-negative mask gives a non-negative result no larger
    than the mask, and no larger than `x` either when `x` is non-negative.
  */
  function BitAnd(x: int32, y: int32): (r: int32)
    ensures 0 <= y ==> 0 <= r <= y
    ensures 0 <= x && 0 <= y ==> r <= x
  {
    BitsAndAtMostMask(Unsigned(x), Unsigned(y), 32);
    Signed(BitsAnd(Unsigned(x), Unsigned(y), 32))
  }

  lemma {:induction false} BitsAndAtMostMask(x: nat, y: nat, width: nat)
    ensures BitsAnd(x, y, width) <= y
  {
    if width > 0 {
      BitsAndAtMostMask(x / 2, y / 2, width - 1);
    }
  }

  /** Masking with `k` low one-bits keeps the remainder modulo 2^k. */
  lemma {:induction false} BitsAndLowOnes(x: nat, k: nat, width: nat)
    requires k <= width
    ensures BitsAnd(x, Pow2(k) - 1, width) == x % Pow2(k)
  {
    if k == 0 {
      BitsAndZero(x, width);
    } else {
      var m := Pow2(k - 1);
      assert Pow2(k) - 1 == 2 * (m - 1) + 1;
      assert (Pow2(k) - 1) % 2 == 1 && (Pow2(k) - 1) / 2 == m - 1;
      BitsAndLowOnes(x / 2, k - 1, width - 1);
      HalvingRemainder(x, m);
    }
  }

  lemma {:induction false} BitsAndZero(x: nat, width: nat)
    ensures BitsAnd(x, 0, width) == 0
  {
    if width > 0 {
      BitsAndZero(x / 2, width - 1);
    }
  }

  /** x mod 2m, read off the last bit and the rest: x % 2 + 2 ((x / 2) % m). */
  lemma HalvingRemainder(x: nat, m: nat)
    requires 1 <= m
    ensures x % (2 * m) == x % 2 + 2 * ((x / 2) % m)
  {
    var q, b := (x / 2) / m, (x / 2) % m;
    assert x / 2 == m * q + b;
    assert x == (2 * m) * q + (x % 2 + 2 * b);
    DivModUnique(x, 2 * m, q, x % 2 + 2 * b);
  }

  /** Division with remainder determines quotient and remainder. */
  lemma DivModUnique(x: int, n: int, q: int, r: int)
    requires 1 <= n && x == n * q + r && 0 <= r < n
    ensures x / n == q && x % n == r
  {
    var q', r' := x / n, x % n;
    assert x == n * q' + r' && 0 <= r' < n;
    if q' < q {
      assert n * (q - q') == n * q - n * q';
      MultipleAtLeast(n, q - q');
    } else if q' > q {
      assert n * (q' - q) == n * q' - n * q;
      MultipleAtLeast(n, q' - q);
    }
  }

  lemma MultipleAtLeast(n: int, d: int)
    requires 1 <= n && 1 <= d
    ensures n <= n * d
  {
  }

  /** Four bytes spell `b0 + 256 b1 + 65536 b2 + 16777216 b3`. */
  lemma FourBytes(bytes: seq<byte>)
    requires |bytes| == 4
    ensures LittleEndian(bytes) == bytes[0] as int + 0x100 * bytes[1] as int
                                 + 0x1_0000 * bytes[2] as int + 0x100_0000 * bytes[3] as int
  {
    assert LittleEndian(bytes[4..]) == 0;
    assert LittleEndian(bytes[3..]) == bytes[3] as int + 0x100 * LittleEndian(bytes[4..]) by {
      assert bytes[3..][1..] == bytes[4..];
    }
    assert LittleEndian(bytes[2..]) == bytes[2] as int + 0x100 * LittleEndian(bytes[3..]) by {
      assert bytes[2..][1..] == bytes[3..];
    }
    assert LittleEndian(bytes[1..]) == bytes[1] as int + 0x100 * LittleEndian(bytes[2..]) by {
      assert bytes[1..][1..] == bytes[2..];
    }
  }

  lemma FourBytesBound(bytes: seq<byte>)
    requires |bytes| == 4
    ensures LittleEndian(bytes) < 0x1_0000_0000
  {
    FourBytes(bytes);
  }

  /**
    `BitConverter.ToInt32(data, 0) & int.MaxValue` is the little-endian value
    of the four bytes with bit 31 cleared, so it lies in [0, int.MaxValue].
  */
  lemma ClearSignBit(data: seq<byte>)
    requires |data| == 4
    ensures var r := BitAnd(ToInt32(data, 0), IntMaxValue);
      && r as int == LittleEndian(data) % 0x8000_0000
      && 0 <= r <= IntMaxValue
  {
    assert data[0..4] == data;
    Pow2ThirtyOne();
    BitsAndLowOnes(Unsigned(ToInt32(data, 0)), 31, 32);
  }

  /**
    char.IsWhiteSpace: the members of the Unicode categories SpaceSeparator,
    LineSeparator and ParagraphSeparator, and the controls U+0009..U+000D and
    U+0085.
  */
  function IsWhiteSpace(c: char): (b: bool)
    ensures c == ' ' || c == '\t' || c == '\n' || c == '\r' ==> b
    ensures '!' <= c <= '~' ==> !b
  {
    || ('\U{0009}' <= c <= '\U{000D}')
    || c == '\U{0020}' || c == '\U{0085}' || c == '\U{00A0}' || c == '\U{1680}'
    || ('\U{2000}' <= c <= '\U{200A}')
    || c == '\U{2028}' || c == '\U{2029}' || c == '\U{202F}' || c == '\U{205F}' || c == '\U{3000}'
  }

  /**
    string.IsNullOrWhiteSpace: true of the empty string and of strings made
    only of white-space characters. (A Dafny string is never null.) A
    non-empty string of visible ASCII characters is never blank.
  */
  function IsNullOrWhiteSpace(s: string): (b: bool)
    ensures s == "" ==> b
    ensures b <==> forall c :: c in s ==> IsWhiteSpace(c)
    ensures s != "" && (forall c :: c in s ==> '!' <= c <= '~') ==> !b
  {
    assert s == "" || s[0] in s;
    forall i :: 0 <= i < |s| ==> IsWhiteSpace(s[i])
  }
}
