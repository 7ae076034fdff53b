/** Byte-level readers used by the WAV header parser of the wav-headers node:
    clamped buffer slices, the byte-per-character text reader and the
    little-endian integer reader with JavaScript's 32-bit bitwise semantics. */
module WavBytes {

  /** The bytes of `s` from `lo` up to (not including) `hi`, clamped the way
      `Buffer.slice` clamps: indices past the end are moved to the end, and an
      end before the start gives an empty slice. */
  function Slice(s: seq<bv8>, lo: nat, hi: nat): (r: seq<bv8>)
    ensures |r| == if hi <= lo || |s| <= lo then 0 else Min(hi, |s|) - lo
    ensures forall i :: 0 <= i < |r| ==> r[i] == s[lo + i]
  {
    var start := Min(lo, |s|);
    var end := Min(hi, |s|);
    if end <= start then [] else s[start..end]
  }

  function Min(a: nat, b: nat): nat { if a <= b then a else b }

  // ---------------------------------------------------------------- text

  /** The string whose i-th character has code b[i] (String.fromCharCode per byte). */
  function Text(b: seq<bv8>): (s: string)
    ensures |s| == |b|
    ensures forall i :: 0 <= i < |b| ==> s[i] as int == b[i] as int
  {
    seq(|b|, i requires 0 <= i < |b| => b[i] as char)
  }

  /** The byte codes of a string whose characters all fit in a byte. */
  function Codes(s: string): (b: seq<bv8>)
    requires forall i :: 0 <= i < |s| ==> s[i] as int < 256
    ensures |b| == |s|
  {
    seq(|s|, i requires 0 <= i < |s| => s[i] as bv8)
  }

  /** The text reader loses nothing: the codes of its characters are the bytes read. */
  lemma TextRoundTrip(b: seq<bv8>)
    ensures forall i :: 0 <= i < |Text(b)| ==> Text(b)[i] as int < 256
    ensures Codes(Text(b)) == b
  {
  }

  /** readText: appends one character per byte. */
  method ReadText(b: seq<bv8>) returns (str: string)
    ensures |str| == |b|
    ensures forall i :: 0 <= i < |b| ==> str[i] as int == b[i] as int
  {
    str := "";
    var i := 0;
    while i < |b|
      invariant 0 <= i <= |b|
      invariant |str| == i
      invariant forall k :: 0 <= k < i ==> str[k] as int == b[k] as int
    {
      str := str + [b[i] as char];
      i := i + 1;
    }
  }

  // ------------------------------------------------------------- numbers

  /** 256 to the power k. */
  function Pow256(k: nat): nat
  {
    if k == 0 then 1 else 256 * Pow256(k - 1)
  }

  /** The unsigned little-endian value of b: the sum of b[i] * 256^i. */
  function LittleEndian(b: seq<bv8>): nat
  {
    if |b| == 0 then 0 else b[0] as int + 256 * LittleEndian(b[1..])
  }

  lemma {:induction false} LittleEndianBound(b: seq<bv8>)
    ensures LittleEndian(b) < Pow256(|b|)
  {
    if |b| > 0 {
      LittleEndianBound(b[1..]);
    }
  }

  /** Byte k (0 = least significant) of a 32-bit pattern. */
  function ByteOf(u: bv32, k: nat): bv8
    requires k < 4
  {
    (if k == 0 then u & 0xFF
     else if k == 1 then (u >> 8) & 0xFF
     else if k == 2 then (u >> 16) & 0xFF
     else u >> 24) as bv8
  }

  /** The value of a 32-bit pattern read as an unsigned number. */
  function Unsigned(u: bv32): nat
  {
    LittleEndian([ByteOf(u, 0), ByteOf(u, 1), ByteOf(u, 2), ByteOf(u, 3)])
  }

  /** The value of a 32-bit pattern read as a two's-complement int32, which is
      what the result of a JavaScript bitwise operator is. */
  function Int32(u: bv32): int
  {
    if ByteOf(u, 3) < 0x80 then Unsigned(u) else Unsigned(u) - 0x1_0000_0000
  }

  /** `b << (i*8)` in JavaScript: the shift count is taken modulo 32, so byte i
      lands in byte lane i % 4 of the 32-bit result. */
  function Shifted(x: bv8, i: nat): bv32
  {
    (x as bv32) << (8 * (i % 4))
  }

  /** The 32-bit pattern `sum` holds after `sum |= b[i] << (i*8)` for every i. */
  function OrFold(b: seq<bv8>): bv32
  {
    if |b| == 0 then 0 else OrFold(b[..|b| - 1]) | Shifted(b[|b| - 1], |b| - 1)
  }

  /** What readDecimal returns for the bytes b. */
  function Decimal(b: seq<bv8>): int
  {
    Int32(OrFold(b))
  }

  /** The 32-bit pattern with bytes b0 (least significant) to b3. */
  function Pack(b0: bv8, b1: bv8, b2: bv8, b3: bv8): bv32
  {
    (b0 as bv32) | ((b1 as bv32) << 8) | ((b2 as bv32) << 16) | ((b3 as bv32) << 24)
  }

  lemma Lane0(b0: bv8, b1: bv8, b2: bv8, b3: bv8) ensures ByteOf(Pack(b0, b1, b2, b3), 0) == b0 {}
  lemma Lane1(b0: bv8, b1: bv8, b2: bv8, b3: bv8) ensures ByteOf(Pack(b0, b1, b2, b3), 1) == b1 {}
  lemma Lane2(b0: bv8, b1: bv8, b2: bv8, b3: bv8) ensures ByteOf(Pack(b0, b1, b2, b3), 2) == b2 {}
  lemma Lane3(b0: bv8, b1: bv8, b2: bv8, b3: bv8) ensures ByteOf(Pack(b0, b1, b2, b3), 3) == b3 {}

  lemma ShiftedLanes(x: bv8)
    ensures Shifted(x, 0) == x as bv32 && Shifted(x, 1) == (x as bv32) << 8
    ensures Shifted(x, 2) == (x as bv32) << 16 && Shifted(x, 3) == (x as bv32) << 24
  {
  }

  /** Byte k of b, or 0 past its end: b padded with zero bytes. */
  function PadByte(b: seq<bv8>, k: nat): bv8
  {
    if k < |b| then b[k] else 0
  }

  /** The pattern readDecimal accumulates from at most four bytes holds the
      input bytes, padded with zero bytes, in its four byte lanes. */
  lemma OrFoldPack(b: seq<bv8>)
    requires |b| <= 4
    ensures OrFold(b) == Pack(PadByte(b, 0), PadByte(b, 1), PadByte(b, 2), PadByte(b, 3))
  {
    if |b| == 1 {
      OrFoldOne(b);
    } else if |b| == 2 {
      OrFoldTwo(b);
    } else if |b| == 3 {
      OrFoldThree(b);
    } else if |b| == 4 {
      OrFoldThree(b[..3]);
      OrFoldStep(b, 3);
      ShiftedLanes(b[3]);
      assert b[..4] == b;
    }
  }

  lemma OrFoldOne(b: seq<bv8>)
    requires |b| == 1
    ensures OrFold(b) == Pack(b[0], 0, 0, 0)
  {
    assert b[..0] == [];
    ShiftedLanes(b[0]);
  }

  lemma OrFoldTwo(b: seq<bv8>)
    requires |b| == 2
    ensures OrFold(b) == Pack(b[0], b[1], 0, 0)
  {
    OrFoldOne(b[..1]);
    ShiftedLanes(b[1]);
  }

  lemma OrFoldThree(b: seq<bv8>)
    requires |b| == 3
    ensures OrFold(b) == Pack(b[0], b[1], b[2], 0)
  {
    OrFoldTwo(b[..2]);
    assert b[..2][0] == b[0] && b[..2][1] == b[1];
    ShiftedLanes(b[2]);
  }

  /** For slices of at most four bytes the accumulated pattern, read unsigned,
      is the little-endian value of the slice. */
  lemma UnsignedOrFold(b: seq<bv8>)
    requires |b| <= 4
    ensures Unsigned(OrFold(b)) == LittleEndian(b)
  {
    OrFoldPack(b);
    UnsignedPack(PadByte(b, 0), PadByte(b, 1), PadByte(b, 2), PadByte(b, 3));
    PaddedValue(b);
  }

  /** The value of the zero-padded four bytes is the value of the input bytes. */
  lemma PaddedValue(b: seq<bv8>)
    requires |b| <= 4
    ensures LittleEndian([PadByte(b, 0), PadByte(b, 1), PadByte(b, 2), PadByte(b, 3)]) == LittleEndian(b)
  {
    var q := [PadByte(b, 0), PadByte(b, 1), PadByte(b, 2), PadByte(b, 3)];
    LittleEndianOfFour(q);
    if |b| == 4 {
      LittleEndianOfFour(b);
    } else {
      LittleEndianOfThree(b);
    }
  }

  /** The value of at most three bytes, written out with zero padding. */
  lemma LittleEndianOfThree(b: seq<bv8>)
    requires |b| <= 3
    ensures LittleEndian(b) == PadByte(b, 0) as int + 0x100 * PadByte(b, 1) as int + 0x1_0000 * PadByte(b, 2) as int
  {
    if |b| > 0 {
      assert |b| > 1 ==> |b[1..]| > 0 && b[1..][0] == b[1];
      assert |b| > 2 ==> b[1..][1..][0] == b[2] && b[1..][1..][1..] == [];
      assert |b| == 2 ==> b[1..][1..] == [];
      assert |b| == 1 ==> b[1..] == [];
    }
  }

  /** The sign byte of the accumulated pattern is the fourth input byte, if any. */
  lemma SignByteOrFold(b: seq<bv8>)
    requires |b| <= 4
    ensures ByteOf(OrFold(b), 3) == if |b| == 4 then b[3] else 0
  {
    OrFoldPack(b);
    Lane3(PadByte(b, 0), PadByte(b, 1), PadByte(b, 2), PadByte(b, 3));
  }

  lemma UnsignedPack(b0: bv8, b1: bv8, b2: bv8, b3: bv8)
    ensures Unsigned(Pack(b0, b1, b2, b3)) == LittleEndian([b0, b1, b2, b3])
    ensures ByteOf(Pack(b0, b1, b2, b3), 3) == b3
  {
    var u := Pack(b0, b1, b2, b3);
    Lane0(b0, b1, b2, b3);
    Lane1(b0, b1, b2, b3);
    Lane2(b0, b1, b2, b3);
    Lane3(b0, b1, b2, b3);
    assert [ByteOf(u, 0), ByteOf(u, 1), ByteOf(u, 2), ByteOf(u, 3)] == [b0, b1, b2, b3];
  }

  /** readDecimal on a slice of at most three bytes is its unsigned
      little-endian value (so an empty slice reads 0 and a two-byte slice
      lies in [0, 65535]); on four bytes it is that value wrapped to int32,
      negative exactly when the last byte is 0x80 or more. */
  lemma DecimalOfShortSlice(b: seq<bv8>)
    requires |b| <= 4
    ensures |b| < 4 ==> Decimal(b) == LittleEndian(b) < Pow256(|b|)
    ensures |b| == 4 ==> Decimal(b) == if b[3] < 0x80 then LittleEndian(b) else LittleEndian(b) - 0x1_0000_0000
    ensures |b| == 4 ==> (Decimal(b) < 0 <==> b[3] >= 0x80)
  {
    UnsignedOrFold(b);
    SignByteOrFold(b);
    LittleEndianBound(b);
    if |b| == 4 {
      LittleEndianOfFour(b);
    }
  }

  /** The value of four bytes, written out. */
  lemma LittleEndianOfFour(b: seq<bv8>)
    requires |b| == 4
    ensures LittleEndian(b) == b[0] as int + 0x100 * b[1] as int + 0x1_0000 * b[2] as int + 0x100_0000 * b[3] as int
  {
    var t := b[1..][1..][1..];
    assert t[1..] == [];
    assert LittleEndian(t) == b[3] as int;
    assert LittleEndian(b[1..][1..]) == b[2] as int + 256 * b[3] as int;
  }

  /** The n low bytes of the 32-bit pattern u, least significant first:
      the little-endian encoding of a field of width n. */
  function Encode(u: bv32, n: nat): (b: seq<bv8>)
    requires n <= 4
    ensures |b| == n
  {
    seq(n, i requires 0 <= i < n => ByteOf(u, i))
  }

  lemma PackBytes(u: bv32)
    ensures Pack(ByteOf(u, 0), ByteOf(u, 1), ByteOf(u, 2), ByteOf(u, 3)) == u
  {
  }

  lemma HighBytesOfSmall(u: bv32)
    requires u < 0x1_0000
    ensures ByteOf(u, 2) == 0 && ByteOf(u, 3) == 0
  {
  }

  /** Reading back a little-endian encoding gives the encoded value: four bytes
      read as the int32 value of the pattern (so every value below 2^31 comes
      back unchanged), two bytes of a value below 65536 read as that value. */
  lemma DecimalOfEncode(u: bv32)
    ensures Decimal(Encode(u, 4)) == Int32(u)
    ensures u < 0x1_0000 ==> Decimal(Encode(u, 2)) == Unsigned(u)
    ensures ByteOf(u, 3) < 0x80 ==> Int32(u) == Unsigned(u)
  {
    var b := Encode(u, 4);
    OrFoldPack(b);
    PackBytes(u);
    if u < 0x1_0000 {
      var c := Encode(u, 2);
      OrFoldPack(c);
      HighBytesOfSmall(u);
      assert PadByte(c, 2) == ByteOf(u, 2) && PadByte(c, 3) == ByteOf(u, 3);
      SignByteOrFold(c);
    }
  }

  /** One more byte ORed into the pattern: the step of readDecimal's loop. */
  lemma OrFoldStep(b: seq<bv8>, i: nat)
    requires i < |b|
    ensures OrFold(b[..i + 1]) == OrFold(b[..i]) | Shifted(b[i], i)
  {
    assert b[..i + 1][..i] == b[..i];
  }

  /** readDecimal: ORs each byte, shifted by its position, into an int32 sum.
      `bits` is the 32-bit pattern of `sum`. */
  method ReadDecimal(b: seq<bv8>) returns (sum: int)
    ensures sum == Decimal(b)
    ensures |b| < 4 ==> sum == LittleEndian(b)
    ensures |b| == 4 ==> sum == if b[3] < 0x80 then LittleEndian(b) else LittleEndian(b) - 0x1_0000_0000
  {
    var bits: bv32 := 0;
    sum := 0;
    var i := 0;
    while i < |b|
      invariant 0 <= i <= |b|
      invariant bits == OrFold(b[..i])
      invariant sum == Int32(bits)
    {
      OrFoldStep(b, i);
      bits := bits | Shifted(b[i], i);
      sum := Int32(bits);
      i := i + 1;
    }
    assert b[..i] == b;
    if |b| <= 4 {
      DecimalOfShortSlice(b);
    }
  }
}
