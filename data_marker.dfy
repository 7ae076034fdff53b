/** Locating the end of the WAV headers: the first occurrence of the
    Subchunk2ID tag "data", followed by the 4-byte Subchunk2Size, after which
    the audio samples start. The "del" branch strips everything up to the
    samples; the "get" branch only takes the bytes before the tag. */
module DataMarker {

  /** The Subchunk2ID tag "data" as bytes. */
  const DataTag: seq<bv8> := [0x64, 0x61, 0x74, 0x61]

  /** Why a "del" or "get" message is dropped without sending anything. */
  datatype Abort =
    | MissingSubchunk2Id   // no "data" tag anywhere in the payload
    | NoAudioSamples       // tag found, but the 8 bytes of tag and size run past the end

  datatype Result<T> = Success(value: T) | Failure(error: Abort)

  /** The "data" tag starts at byte i of p. */
  predicate TagAt(p: seq<bv8>, i: int)
  {
    0 <= i && i + 4 <= |p| && p[i..i + 4] == DataTag
  }

  /** No "data" tag starts anywhere in p. */
  predicate NoTag(p: seq<bv8>)
  {
    forall i :: 0 <= i < |p| ==> !TagAt(p, i)
  }

  /** Buffer.indexOf("data", from): the first position at or after `from`
      where the tag starts, or -1 when there is none. */
  function IndexOfFrom(p: seq<bv8>, from: nat): (r: int)
    requires from <= |p|
    decreases |p| - from
    ensures r == -1 || (from <= r && TagAt(p, r))
    ensures r == -1 <==> forall i :: from <= i < |p| ==> !TagAt(p, i)
    ensures r != -1 ==> forall i :: from <= i < r ==> !TagAt(p, i)
  {
    if from + 4 > |p| then -1
    else if p[from..from + 4] == DataTag then from
    else IndexOfFrom(p, from + 1)
  }

  /** msg.payload.indexOf("data"): the first occurrence of the tag, or -1. */
  function IndexOf(p: seq<bv8>): (r: int)
    ensures r == -1 <==> NoTag(p)
    ensures r != -1 ==> TagAt(p, r) && forall i :: 0 <= i < r ==> !TagAt(p, i)
  {
    IndexOfFrom(p, 0)
  }

  /** The headers and the samples the "del" branch splits a payload into. */
  datatype Stripped = Stripped(header: seq<bv8>, samples: seq<bv8>)

  /** The "del" branch: the header is everything before the first tag; the
      tag and the 4-byte Subchunk2Size are skipped; the rest are the samples.
      It aborts when there is no tag, or when the skipped 8 bytes run past the
      end of the payload. */
  function Strip(p: seq<bv8>): (r: Result<Stripped>)
    ensures r == Failure(MissingSubchunk2Id) <==> NoTag(p)
    ensures r == Failure(NoAudioSamples) <==> !NoTag(p) && IndexOf(p) + 8 > |p|
    ensures r.Success? ==>
      var h := r.value.header;
      TagAt(p, |h|) && NoTag(h) && |h| + 8 <= |p| &&
      p == h + p[|h|..|h| + 8] + r.value.samples
  {
    var index := IndexOf(p);
    if index == -1 then Failure(MissingSubchunk2Id)
    else if index + 8 > |p| then Failure(NoAudioSamples)
    else
      var h := p[..index];
      assert forall i :: 0 <= i < |h| ==> (TagAt(h, i) ==> TagAt(p, i));
      Success(Stripped(h, p[index + 8..]))
  }

  /** The "get" branch: the bytes before the first tag, with no check that
      anything follows the tag. */
  function Peek(p: seq<bv8>): (r: Result<seq<bv8>>)
    ensures r.Failure? <==> NoTag(p)
    ensures r.Failure? ==> r.error == MissingSubchunk2Id
    ensures r.Success? ==> |r.value| <= |p| && r.value == p[..|r.value|] && TagAt(p, |r.value|) && NoTag(r.value)
  {
    var index := IndexOf(p);
    if index == -1 then Failure(MissingSubchunk2Id)
    else
      var h := p[..index];
      assert forall i :: 0 <= i < |h| ==> (TagAt(h, i) ==> TagAt(p, i));
      Success(h)
  }

  /** "del" aborts for lack of samples exactly when the tag plus size field
      runs past the end; a payload ending right after the size field gives an
      empty sample buffer rather than an abort. */
  lemma StripBoundary(p: seq<bv8>)
    requires !NoTag(p)
    ensures Strip(p).Failure? <==> IndexOf(p) + 8 > |p|
    ensures IndexOf(p) + 8 == |p| ==> Strip(p) == Success(Stripped(p[..IndexOf(p)], []))
  {
  }

  /** "get" performs no truncation check: wherever "del" aborts for lack of
      samples, "get" still succeeds; and wherever "del" succeeds, "get" yields
      the same header. */
  lemma PeekAgreesWithStrip(p: seq<bv8>)
    ensures Strip(p) == Failure(NoAudioSamples) ==> Peek(p).Success?
    ensures Strip(p).Success? ==> Peek(p) == Success(Strip(p).value.header)
    ensures Peek(p).Failure? <==> Strip(p) == Failure(MissingSubchunk2Id)
  {
  }

  /** "data" does not overlap itself: its first byte appears nowhere else in it,
      so no two tags start fewer than four bytes apart. */
  lemma TagsDoNotOverlap(p: seq<bv8>, i: int, j: int)
    requires i < j < i + 4
    ensures !(TagAt(p, i) && TagAt(p, j))
  {
    if 0 <= i && i + 4 <= |p| && p[i..i + 4] == DataTag {
      assert p[j] == p[i..i + 4][j - i] != 0x64;
      assert j + 4 <= |p| ==> p[j..j + 4][0] == p[j];
    }
  }

  /** A tag found after a header that holds none is the first one. */
  lemma {:induction false} FirstTagAfter(pre: seq<bv8>, rest: seq<bv8>)
    requires NoTag(pre)
    requires |rest| >= 4 && rest[..4] == DataTag
    ensures IndexOf(pre + rest) == |pre|
  {
    var p := pre + rest;
    assert p[|pre|..|pre| + 4] == rest[..4];
    assert TagAt(p, |pre|);
    forall i | 0 <= i < |pre| ensures !TagAt(p, i) {
      if i + 4 <= |pre| {
        assert p[i..i + 4] == pre[i..i + 4];
        assert !TagAt(pre, i);
      } else {
        TagsDoNotOverlap(p, i, |pre|);
      }
    }
  }

  /** Headers of any length are tolerated: a payload made of headers without
      the tag, the tag, a 4-byte size and the samples is split back into those
      headers and exactly those samples, whatever the samples contain. */
  lemma {:induction false} StripAfterHeaders(pre: seq<bv8>, size: seq<bv8>, samples: seq<bv8>)
    requires NoTag(pre) && |size| == 4
    ensures Strip(pre + DataTag + size + samples) == Success(Stripped(pre, samples))
    ensures Peek(pre + DataTag + size + samples) == Success(pre)
  {
    var p := pre + DataTag + size + samples;
    assert p == pre + (DataTag + size + samples);
    FirstTagAfter(pre, DataTag + size + samples);
    assert p[..|pre|] == pre;
    assert p[|pre| + 8..] == samples;
  }

  /** The canonical 44-byte header keeps the tag at byte 36; when its first 36
      bytes spell no "data", stripping it returns those 36 bytes as the header
      and the samples unchanged. */
  lemma StripCanonical(header: seq<bv8>, samples: seq<bv8>)
    requires |header| == 44 && header[36..40] == DataTag && NoTag(header[..36])
    ensures Strip(header + samples) == Success(Stripped(header[..36], samples))
    ensures Peek(header + samples) == Success(header[..36])
  {
    assert header == header[..36] + DataTag + header[40..];
    assert header + samples == header[..36] + DataTag + header[40..] + samples;
    StripAfterHeaders(header[..36], header[40..], samples);
  }
}
