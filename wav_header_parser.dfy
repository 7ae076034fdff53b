/** parseWavHeaders: the human-readable record built from the fixed byte
    ranges of a RIFF/WAVE header. */
module WavHeaderParser {
  import opened WavBytes

  /** The record parseWavHeaders returns. The 4-byte numeric fields carry
      readDecimal's int32 value; the text fields one character per byte. */
  datatype WavHeaders = WavHeaders(
    chunkId: string,
    chunkSize: int,
    format: string,
    compression: int,
    numChannels: int,
    sampleRate: int,
    byteRate: int,
    blockAlign: int,
    bitsPerSample: int)

  /** The record parseWavHeaders builds from the header bytes h. */
  function HeadersOf(h: seq<bv8>): WavHeaders
  {
    WavHeaders(
      Text(Slice(h, 0, 4)),
      Decimal(Slice(h, 4, 8)),
      Text(Slice(h, 8, 12)),
      Decimal(Slice(h, 20, 22)),
      Decimal(Slice(h, 22, 24)),
      Decimal(Slice(h, 24, 28)),
      Decimal(Slice(h, 28, 32)),
      Decimal(Slice(h, 32, 34)),
      Decimal(Slice(h, 34, 36)))
  }

  /** parseWavHeaders: reads each field from its fixed, clamped byte range. */
  method ParseWavHeaders(h: seq<bv8>) returns (r: WavHeaders)
    ensures r == HeadersOf(h)
    ensures |r.chunkId| <= 4 && |r.format| <= 4
    ensures forall i :: 0 <= i < |r.chunkId| ==> r.chunkId[i] as int == h[i] as int
    ensures forall i :: 0 <= i < |r.format| ==> r.format[i] as int == h[8 + i] as int
  {
    var chunkId := ReadText(Slice(h, 0, 4));
    var chunkSize := ReadDecimal(Slice(h, 4, 8));
    var format := ReadText(Slice(h, 8, 12));
    var compression := ReadDecimal(Slice(h, 20, 22));
    var numChannels := ReadDecimal(Slice(h, 22, 24));
    var sampleRate := ReadDecimal(Slice(h, 24, 28));
    var byteRate := ReadDecimal(Slice(h, 28, 32));
    var blockAlign := ReadDecimal(Slice(h, 32, 34));
    var bitsPerSample := ReadDecimal(Slice(h, 34, 36));
    assert chunkId == Text(Slice(h, 0, 4));
    assert format == Text(Slice(h, 8, 12));
    r := WavHeaders(chunkId, chunkSize, format, compression, numChannels,
                    sampleRate, byteRate, blockAlign, bitsPerSample);
  }

  /** Two buffers that agree (length included) on bytes 0..11 and 20..35
      agree on every slice parseWavHeaders reads. */
  lemma SubSlice(h1: seq<bv8>, h2: seq<bv8>, lo: nat, hi: nat, a: nat, c: nat)
    requires lo <= a <= c <= hi
    requires Slice(h1, lo, hi) == Slice(h2, lo, hi)
    ensures Slice(h1, a, c) == Slice(h2, a, c)
  {
    var s1, s2 := Slice(h1, a, c), Slice(h2, a, c);
    assert |s1| == |s2|;
    forall i | 0 <= i < |s1| ensures s1[i] == s2[i] {
      assert Slice(h1, lo, hi)[a - lo + i] == Slice(h2, lo, hi)[a - lo + i];
    }
  }

  /** The record depends only on bytes 0..11 and 20..35: bytes 12..19 (the
      "fmt " tag and its size) and everything from byte 36 on are ignored. */
  lemma HeadersLocal(h1: seq<bv8>, h2: seq<bv8>)
    requires Slice(h1, 0, 12) == Slice(h2, 0, 12)
    requires Slice(h1, 20, 36) == Slice(h2, 20, 36)
    ensures HeadersOf(h1) == HeadersOf(h2)
  {
    SubSlice(h1, h2, 0, 12, 0, 4);
    SubSlice(h1, h2, 0, 12, 4, 8);
    SubSlice(h1, h2, 0, 12, 8, 12);
    SubSlice(h1, h2, 20, 36, 20, 22);
    SubSlice(h1, h2, 20, 36, 22, 24);
    SubSlice(h1, h2, 20, 36, 24, 28);
    SubSlice(h1, h2, 20, 36, 28, 32);
    SubSlice(h1, h2, 20, 36, 32, 34);
    SubSlice(h1, h2, 20, 36, 34, 36);
  }

  /** In particular the bytes after the 36th never matter. */
  lemma HeadersIgnoreTail(h: seq<bv8>, tail: seq<bv8>)
    requires |h| >= 36
    ensures HeadersOf(h + tail) == HeadersOf(h)
  {
    HeadersLocal(h + tail, h);
  }

  /** A short buffer is not an error: fields whose range lies past the end read
      as "" or 0. */
  lemma HeadersOfShortBuffer(h: seq<bv8>)
    requires |h| <= 20
    ensures var r := HeadersOf(h);
      r.compression == 0 && r.numChannels == 0 && r.sampleRate == 0 &&
      r.byteRate == 0 && r.blockAlign == 0 && r.bitsPerSample == 0
    ensures |h| <= 8 ==> HeadersOf(h).format == ""
    ensures |h| <= 4 ==> HeadersOf(h).chunkSize == 0
    ensures |h| == 0 ==> HeadersOf(h).chunkId == ""
  {
    DecimalOfShortSlice([]);
  }

  /** On a buffer that holds all 36 bytes, each numeric field is the
      little-endian value of its range: 2-byte fields lie in [0, 65535], and a
      4-byte field is negative exactly when its last byte is 0x80 or more. */
  lemma HeadersOfFullHeader(h: seq<bv8>)
    requires |h| >= 36
    ensures var r := HeadersOf(h);
      |r.chunkId| == 4 && |r.format| == 4 &&
      r.compression == LittleEndian(h[20..22]) < 0x1_0000 &&
      r.numChannels == LittleEndian(h[22..24]) < 0x1_0000 &&
      r.blockAlign == LittleEndian(h[32..34]) < 0x1_0000 &&
      r.bitsPerSample == LittleEndian(h[34..36]) < 0x1_0000
    ensures h[27] < 0x80 ==> HeadersOf(h).sampleRate == LittleEndian(h[24..28])
    ensures h[7] < 0x80 ==> HeadersOf(h).chunkSize == LittleEndian(h[4..8])
    ensures h[7] >= 0x80 ==> HeadersOf(h).chunkSize == LittleEndian(h[4..8]) - 0x1_0000_0000 < 0
    ensures h[27] >= 0x80 ==> HeadersOf(h).sampleRate == LittleEndian(h[24..28]) - 0x1_0000_0000 < 0
    ensures h[31] < 0x80 ==> HeadersOf(h).byteRate == LittleEndian(h[28..32])
    ensures h[31] >= 0x80 ==> HeadersOf(h).byteRate == LittleEndian(h[28..32]) - 0x1_0000_0000 < 0
  {
    assert Slice(h, 4, 8) == h[4..8];
    assert Slice(h, 20, 22) == h[20..22];
    assert Slice(h, 22, 24) == h[22..24];
    assert Slice(h, 24, 28) == h[24..28];
    assert Slice(h, 28, 32) == h[28..32];
    assert Slice(h, 32, 34) == h[32..34];
    assert Slice(h, 34, 36) == h[34..36];
    DecimalOfShortSlice(h[4..8]);
    DecimalOfShortSlice(h[20..22]);
    DecimalOfShortSlice(h[22..24]);
    DecimalOfShortSlice(h[24..28]);
    DecimalOfShortSlice(h[28..32]);
    DecimalOfShortSlice(h[32..34]);
    DecimalOfShortSlice(h[34..36]);
  }

  /** A field cut short by the end of the buffer reads the bytes that are
      there: the text has one character per remaining byte, and a number is
      the little-endian value of the remaining bytes. */
  lemma HeadersOfCutField(h: seq<bv8>)
    ensures 0 < |h| < 4 ==> |HeadersOf(h).chunkId| == |h|
    ensures 8 < |h| < 12 ==> |HeadersOf(h).format| == |h| - 8
    ensures 4 < |h| < 8 ==> HeadersOf(h).chunkSize == LittleEndian(h[4..])
    ensures |h| == 21 ==> HeadersOf(h).compression == h[20] as int
    ensures |h| == 23 ==> HeadersOf(h).numChannels == h[22] as int
    ensures 24 < |h| < 28 ==> HeadersOf(h).sampleRate == LittleEndian(h[24..])
    ensures 28 < |h| < 32 ==> HeadersOf(h).byteRate == LittleEndian(h[28..])
    ensures |h| == 33 ==> HeadersOf(h).blockAlign == h[32] as int
    ensures |h| == 35 ==> HeadersOf(h).bitsPerSample == h[34] as int
  {
    if 4 < |h| < 8 { CutDecimal(h, 4, 8); }
    else if |h| == 21 { CutDecimal(h, 20, 22); }
    else if |h| == 23 { CutDecimal(h, 22, 24); }
    else if 24 < |h| < 28 { CutDecimal(h, 24, 28); }
    else if 28 < |h| < 32 { CutDecimal(h, 28, 32); }
    else if |h| == 33 { CutDecimal(h, 32, 34); }
    else if |h| == 35 { CutDecimal(h, 34, 36); }
  }

  /** readDecimal on a range [lo, hi) that the end of the buffer cuts short. */
  lemma CutDecimal(h: seq<bv8>, lo: nat, hi: nat)
    requires lo < |h| < hi <= lo + 4
    ensures Decimal(Slice(h, lo, hi)) == LittleEndian(h[lo..])
    ensures |h| == lo + 1 ==> Decimal(Slice(h, lo, hi)) == h[lo] as int
  {
    assert Slice(h, lo, hi) == h[lo..];
    DecimalOfShortSlice(h[lo..]);
    if |h| == lo + 1 {
      assert h[lo..][1..] == [];
    }
  }

  /** A field written as the little-endian encoding of a value is read back
      as that value: 2-byte fields for values below 65536, 4-byte fields as
      the int32 value of the pattern (unchanged below 2^31). */
  lemma FieldRoundTrip(h: seq<bv8>, u: bv32)
    requires |h| >= 36
    ensures u < 0x1_0000 && h[22..24] == Encode(u, 2) ==> HeadersOf(h).numChannels == Unsigned(u)
    ensures u < 0x1_0000 && h[34..36] == Encode(u, 2) ==> HeadersOf(h).bitsPerSample == Unsigned(u)
    ensures h[24..28] == Encode(u, 4) ==> HeadersOf(h).sampleRate == Int32(u)
    ensures h[4..8] == Encode(u, 4) ==> HeadersOf(h).chunkSize == Int32(u)
  {
    assert Slice(h, 4, 8) == h[4..8];
    assert Slice(h, 22, 24) == h[22..24];
    assert Slice(h, 24, 28) == h[24..28];
    assert Slice(h, 34, 36) == h[34..36];
    DecimalOfEncode(u);
  }
}
