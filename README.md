# WAV header codec of the node-red-contrib-wav `wav-headers` node

A Dafny model of the byte-level core of the `wav-headers` Node-RED node
(`wav_headers.js`): it adds a RIFF/WAVE header in front of raw PCM samples,
strips a header off a WAV buffer, or reads a header into a readable record.

The model has four modules:

- `WavBytes` (`wav_bytes.dfy`) covers the two readers. `readText` turns each
  byte into one character with that code. `readDecimal` ORs each byte,
  shifted left by 8·i, into a sum. It is modelled with JavaScript's 32-bit
  bitwise semantics: the accumulator is a `bv32` pattern, the shift count is
  taken modulo 32, and the result is read as a signed int32. Buffer slices
  are clamped the way `Buffer.slice` clamps them.
- `WavHeaderParser` (`wav_header_parser.dfy`) covers `parseWavHeaders`. It
  reads nine fields from fixed byte ranges of the header buffer. A short
  buffer is not an error: missing ranges read as `""` or `0`, and a range cut
  short reads the bytes that are there.
- `DataMarker` (`data_marker.dfy`) finds the first `"data"` Subchunk2ID tag
  (bytes 0x64 0x61 0x74 0x61). `Strip` models the "del" branch: it drops the
  tag and the 4-byte Subchunk2Size and keeps the samples. `Peek` models the
  "get" branch: it takes only the bytes before the tag. Each branch's abort
  conditions are modelled.
- `WavNode` (`wav_node.dfy`) covers the configuration defaults, the "add"
  branch and the input handler `OnInput`. The handler reassigns
  `msg.payload` in place and returns what goes to the second output, or
  `None` when the node sends nothing.

Where the code and the format description differ, the model follows the code.
The 4-byte fields (`chunkSize`, `sampleRate`, `byteRate`) are described as
unsigned 32-bit integers. But `readDecimal` returns the int32 value, so a
field whose last byte is 0x80 or more comes out negative. `HeadersOfFullHeader`
and `DecimalOfShortSlice` state this.

## Model

| member | source | states |
|---|---|---|
| `WavBytes.Slice` | wav_headers.js:49-57 | A slice of a buffer clamped to its length: its length is 0 when the range starts at or past the end, otherwise the part of the range inside the buffer; byte i of the slice is byte lo+i of the buffer |
| `WavBytes.Text` | wav_headers.js:29-35 | The text of a byte slice has one character per byte, character i having code b[i] |
| `WavBytes.ReadText` | wav_headers.js:29-35 | The loop builds a string of the same length as the slice whose i-th character has code b[i]; an empty slice gives "" |
| `WavBytes.TextRoundTrip` | wav_headers.js:29-35 | Every character produced fits in a byte, and the codes of the characters give back exactly the bytes read |
| `WavBytes.ReadDecimal` | wav_headers.js:38-43 | The OR-accumulating loop returns the int32 value of the 32-bit pattern; on at most three bytes that is the unsigned little-endian value, on four bytes the little-endian value minus 2^32 when the last byte is 0x80 or more |
| `WavBytes.OrFoldPack` | wav_headers.js:40-41 | On at most four bytes, ORing `b[i] << (i*8)` into the sum places byte i in byte lane i of the 32-bit pattern, the missing lanes being zero |
| `WavBytes.UnsignedOrFold` | wav_headers.js:38-43 | On at most four bytes, the accumulated pattern read as unsigned is the little-endian value Σ b[i]·256^i |
| `WavBytes.SignByteOrFold` | wav_headers.js:38-43 | The sign byte of the accumulated pattern is the fourth input byte, or 0 for shorter slices |
| `WavBytes.DecimalOfShortSlice` | wav_headers.js:38-43 | readDecimal on fewer than four bytes is Σ b[i]·256^i, below 256^n (an empty slice gives 0, a 2-byte slice lies in [0, 65535]); on four bytes it is negative exactly when the last byte is 0x80 or more |
| `WavBytes.DecimalOfEncode` | wav_headers.js:38-43 | readDecimal inverts little-endian encoding: the four bytes of a 32-bit pattern read back as its int32 value, the two low bytes of a value below 65536 read back as that value, and values below 2^31 are unchanged |
| `WavHeaderParser.ParseWavHeaders` | wav_headers.js:46-60 | Each field is read from its own fixed byte range [0,4), [4,8), [8,12), [20,22), [22,24), [24,28), [28,32), [32,34), [34,36), clamped to the buffer; the text fields have at most 4 characters, whose codes are the buffer's bytes at those offsets |
| `WavHeaderParser.HeadersLocal` | wav_headers.js:46-60 | Two buffers that agree (length included) on bytes 0..11 and 20..35 give the same record: bytes 12..19 and everything from 36 on are ignored |
| `WavHeaderParser.HeadersIgnoreTail` | wav_headers.js:46-60 | Appending anything to a buffer of at least 36 bytes does not change the record |
| `WavHeaderParser.HeadersOfShortBuffer` | wav_headers.js:49-57 | A buffer of at most 20 bytes gives 0 for every format field, and an empty range gives "" or 0 rather than an error |
| `WavHeaderParser.HeadersOfFullHeader` | wav_headers.js:49-57 | On a buffer of at least 36 bytes both tags have 4 characters, every 2-byte field is the little-endian value of its range in [0, 65535], and a 4-byte field is that value when its last byte is below 0x80, or that value minus 2^32 (negative) otherwise |
| `WavHeaderParser.HeadersOfCutField` | wav_headers.js:49-57 | A field whose range the end of the buffer cuts short reads the bytes that are there: a tag gets one character per remaining byte, a 4-byte field the little-endian value of its remaining bytes, a 2-byte field with one byte left that byte |
| `WavHeaderParser.FieldRoundTrip` | wav_headers.js:50-57 | A channel count or bit depth below 65536 written little-endian at its offset is read back unchanged; a 4-byte sample rate or chunk size is read back as the int32 value of the pattern written |
| `DataMarker.IndexOfFrom` | wav_headers.js:98 | The search from a position returns -1 exactly when no "data" tag starts at or after it, and otherwise the first position at or after it where the tag starts |
| `DataMarker.IndexOf` | wav_headers.js:98 | `payload.indexOf("data")` is -1 exactly when the payload holds no tag; otherwise the tag starts there and nowhere before |
| `DataMarker.Strip` | wav_headers.js:98-117 | "del" aborts with a missing Subchunk2ID exactly when there is no tag, and for lack of samples exactly when the first tag + 8 runs past the end; on success the header holds no tag, the tag starts right after it, and header ++ 8 skipped bytes ++ samples rebuilds the payload |
| `DataMarker.Peek` | wav_headers.js:126-137 | "get" aborts exactly when there is no tag; otherwise the header is the prefix before the first tag, contains no tag, and is followed by one |
| `DataMarker.StripBoundary` | wav_headers.js:109-117 | With a tag present, "del" aborts exactly when index + 8 > length; index + 8 == length yields an empty sample buffer |
| `DataMarker.PeekAgreesWithStrip` | wav_headers.js:124-137 | "get" has no truncation check: where "del" aborts for lack of samples "get" succeeds, where "del" succeeds "get" yields the same header, and both abort together when the tag is missing |
| `DataMarker.TagsDoNotOverlap` | wav_headers.js:98 | Two "data" tags never start fewer than four bytes apart |
| `DataMarker.FirstTagAfter` | wav_headers.js:98 | After headers that hold no tag, a tag at the start of the rest is the first one found, even counting positions that straddle the boundary |
| `DataMarker.StripAfterHeaders` | wav_headers.js:91-117 | Headers of any length without a tag, then the tag, a 4-byte size and samples: "del" returns exactly those headers and those samples, and "get" those headers |
| `DataMarker.StripCanonical` | wav_headers.js:98-117 | For a 44-byte header with the tag at byte 36 and none before, "del" returns the first 36 bytes as the header and the samples unchanged, and "get" returns the same 36 bytes |
| `WavNode.Configure` | wav_headers.js:21-24 | No setting is ever falsy; a configured value that is not falsy is kept, any other falls back to 1 channel, 22050 Hz, 16 bits and action "add" |
| `WavNode.DefaultSettings` | wav_headers.js:21-24 | An unset configuration gives channels 1, sampleRate 22050, bitDepth 16 and action "add" |
| `WavNode.Add` | wav_headers.js:72-87 | The options echo the settings with dataLength the original payload length; the new payload starts with the library's header bytes and ends with the original payload, unchanged |
| `WavNode.DelUndoesAdd` | wav_headers.js:72-117 | When the library's header is tag-free headers, the tag and a 4-byte size, "del" on the "add" result gives back those headers and the original samples, and "get" those headers |
| `WavNode.DelReportsHeaderFields` | wav_headers.js:106-120 | On a canonical 44-byte header "del" succeeds and reports the same record as parsing the whole header |
| `WavNode.WavHeadersNode.constructor` | wav_headers.js:19-24 | The node keeps the settings `Configure` gives for its configuration |
| `WavNode.WavHeadersNode.OnInput` | wav_headers.js:62-149 | A non-buffer payload sends nothing and changes nothing. "add" replaces the payload by header ++ payload and sends the options. "del" sends nothing and leaves the payload when `Strip` aborts; otherwise it replaces the payload by the samples and sends the parsed header. "get" never changes the payload and sends the parsed header unless the tag is missing. Any other action sends the message unchanged with an empty second output |

## Left out

- The `wav-headers` library (wav_headers.js:17, 80) is not part of this model.
  `OnInput` and `Add` take the header bytes it produces as the parameter
  `build`, and nothing is claimed about their content. So the header layout,
  the derived fields (byteRate, blockAlign, chunkSize = 36 + dataLength) and
  parse-after-build facts for a given configuration are not stated. Instead,
  `DelUndoesAdd`, `StripCanonical` and `FieldRoundTrip` are stated for any
  header with the canonical shape.
- WavNode.WavHeadersNode.OnInput: the "get" output omits the `duration` field
  (wav_headers.js:140-143). That field is a floating-point division, with NaN
  or Infinity for a zero denominator, followed by `Math.round`. The parsed
  record is modelled without it.
- Node-RED plumbing is left out: `RED.nodes.createNode`, `registerType`, the
  `input` event wiring and `node.send` (wav_headers.js:20, 62, 148, 152).
  `OnInput` returns the second output instead of sending it. The first output
  is the message whose payload `OnInput` updates.
- The `console.log` diagnostics are left out.
- `Buffer.isBuffer` (wav_headers.js:66-69) is modelled only as the `NotBuffer`
  payload case.
- Configuration values are modelled as an unset property or a number (for
  `action`, a string). JavaScript's other falsy values (`null`, `NaN`, `false`)
  and properties of another type are not modelled.
- `Buffer.slice` returns a view that shares memory with the original buffer,
  and `Buffer.from` makes a copy. Buffers are modelled as values, so this
  aliasing is not captured. The node never writes into a buffer, so no
  result depends on it.
- `readDecimal` on more than four bytes is modelled: the shift count wraps
  modulo 32, so byte 4 is ORed into the lowest byte. No property is stated
  for that case, because the node never reads more than four bytes.
