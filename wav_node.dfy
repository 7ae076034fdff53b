/** The wav-headers node: its configuration with defaults, and the input
    handler that adds WAV headers to, removes them from, or reads them off a
    buffer of PCM audio. The header bytes for "add" come from the wav-headers
    library, which is not part of this model: the handler receives it as the
    function `build`. */
module WavNode {
  import opened WavHeaderParser
  import opened DataMarker

  datatype Option<T> = None | Some(value: T)

  /** The node's properties as configured; None is a property left unset. */
  datatype Config = Config(
    channels: Option<int>,
    samplerate: Option<int>,
    bitwidth: Option<int>,
    action: Option<string>)

  /** The settings the node keeps after `config.x || default`. */
  datatype Settings = Settings(channels: int, sampleRate: int, bitDepth: int, action: string)

  /** `v || d` for a number: an unset property and 0 are falsy. */
  function OrNumber(v: Option<int>, d: int): int
  {
    if v.Some? && v.value != 0 then v.value else d
  }

  /** `v || d` for a string: an unset property and "" are falsy. */
  function OrText(v: Option<string>, d: string): string
  {
    if v.Some? && v.value != "" then v.value else d
  }

  /** The node's settings: a configured value that is not falsy is kept, any
      other falls back to 1 channel, 22050 Hz, 16 bits and action "add"; so no
      setting is ever falsy. */
  function Configure(c: Config): (s: Settings)
    ensures s.channels != 0 && s.sampleRate != 0 && s.bitDepth != 0 && s.action != ""
    ensures s.channels == (if c.channels.Some? && c.channels.value != 0 then c.channels.value else 1)
    ensures s.sampleRate == (if c.samplerate.Some? && c.samplerate.value != 0 then c.samplerate.value else 22050)
    ensures s.bitDepth == (if c.bitwidth.Some? && c.bitwidth.value != 0 then c.bitwidth.value else 16)
    ensures s.action == (if c.action.Some? && c.action.value != "" then c.action.value else "add")
  {
    Settings(
      OrNumber(c.channels, 1),
      OrNumber(c.samplerate, 22050),
      OrNumber(c.bitwidth, 16),
      OrText(c.action, "add"))
  }

  /** An empty configuration yields the documented defaults. */
  lemma DefaultSettings()
    ensures Configure(Config(None, None, None, None)) == Settings(1, 22050, 16, "add")
  {
  }

  /** The options passed to the wav-headers library and echoed on the second output. */
  datatype WavOptions = WavOptions(channels: int, sampleRate: int, bitDepth: int, dataLength: nat)

  datatype Added = Added(payload: seq<bv8>, options: WavOptions)

  /** The "add" branch: the options echo the settings and the payload length,
      and the new payload is the library's header bytes followed by the
      original payload, unchanged. */
  function Add(s: Settings, p: seq<bv8>, build: WavOptions -> seq<bv8>): (r: Added)
    ensures r.options == WavOptions(s.channels, s.sampleRate, s.bitDepth, |p|)
    ensures var h := build(r.options);
      |r.payload| == |h| + |p| && r.payload[..|h|] == h && r.payload[|h|..] == p
  {
    var options := WavOptions(s.channels, s.sampleRate, s.bitDepth, |p|);
    Added(build(options) + p, options)
  }

  /** "del" undoes "add" whenever the library's header has the tag after
      headers that hold none, followed by a 4-byte size: the samples come back
      unchanged and the header is everything before the tag. */
  lemma DelUndoesAdd(s: Settings, p: seq<bv8>, build: WavOptions -> seq<bv8>, pre: seq<bv8>, size: seq<bv8>)
    requires build(WavOptions(s.channels, s.sampleRate, s.bitDepth, |p|)) == pre + DataTag + size
    requires NoTag(pre) && |size| == 4
    ensures Strip(Add(s, p, build).payload) == Success(Stripped(pre, p))
    ensures Peek(Add(s, p, build).payload) == Success(pre)
  {
    StripAfterHeaders(pre, size, p);
  }

  /** On a canonical 44-byte header "del" reports the record of the full
      header: the 8 bytes it cuts off after the tag are never read. */
  lemma DelReportsHeaderFields(header: seq<bv8>, samples: seq<bv8>)
    requires |header| == 44 && header[36..40] == DataTag && NoTag(header[..36])
    ensures Strip(header + samples).Success?
    ensures HeadersOf(Strip(header + samples).value.header) == HeadersOf(header)
  {
    StripCanonical(header, samples);
    assert header == header[..36] + header[36..];
    HeadersIgnoreTail(header[..36], header[36..]);
  }

  /** What msg.payload holds: a byte buffer, or anything else. */
  datatype Payload = Buffer(bytes: seq<bv8>) | NotBuffer

  /** What the second output carries when the node sends. */
  datatype Second =
    | Options(options: WavOptions)   // "add": the options given to the library
    | Headers(headers: WavHeaders)   // "del" and "get": the parsed headers
    | Empty                          // any other action: an empty message

  /** A message; the handler reassigns its payload in place. */
  class Message {
    var payload: Payload

    constructor(p: Payload)
      ensures payload == p
    {
      payload := p;
    }
  }

  class WavHeadersNode {
    var channels: int
    var sampleRate: int
    var bitDepth: int
    var action: string

    constructor(config: Config)
      ensures Current() == Configure(config)
    {
      var s := Configure(config);
      channels := s.channels;
      sampleRate := s.sampleRate;
      bitDepth := s.bitDepth;
      action := s.action;
    }

    function Current(): Settings
      reads this
    {
      Settings(channels, sampleRate, bitDepth, action)
    }

    /** The input handler. `sent` is None when nothing is sent, otherwise the
        second output; the first output is `msg` with its new payload. */
    method OnInput(msg: Message, build: WavOptions -> seq<bv8>) returns (sent: Option<Second>)
      modifies msg
      ensures !old(msg.payload).Buffer? ==> sent == None && msg.payload == old(msg.payload)
      ensures old(msg.payload).Buffer? && action == "add" ==>
        var a := Add(Current(), old(msg.payload).bytes, build);
        msg.payload == Buffer(a.payload) && sent == Some(Options(a.options))
      ensures old(msg.payload).Buffer? && action == "del" ==>
        match Strip(old(msg.payload).bytes)
        case Failure(_) => sent == None && msg.payload == old(msg.payload)
        case Success(st) => msg.payload == Buffer(st.samples) && sent == Some(Headers(HeadersOf(st.header)))
      ensures old(msg.payload).Buffer? && action == "get" ==>
        msg.payload == old(msg.payload) &&
        match Peek(old(msg.payload).bytes)
        case Failure(_) => sent == None
        case Success(h) => sent == Some(Headers(HeadersOf(h)))
      ensures old(msg.payload).Buffer? && action !in {"add", "del", "get"} ==>
        msg.payload == old(msg.payload) && sent == Some(Empty)
    {
      if !msg.payload.Buffer? {
        return None;
      }
      var payload := msg.payload.bytes;
      if action == "add" {
        var options := WavOptions(channels, sampleRate, bitDepth, |payload|);
        var headersBuffer := build(options);
        msg.payload := Buffer(headersBuffer + payload);
        sent := Some(Options(options));
      } else if action == "del" {
        var index := IndexOf(payload);
        if index == -1 {
          return None;
        }
        var headerBuffer := payload[..index];
        index := index + 8;
        if index > |payload| {
          return None;
        }
        assert Strip(payload) == Success(Stripped(headerBuffer, payload[index..]));
        msg.payload := Buffer(payload[index..]);
        var headers := ParseWavHeaders(headerBuffer);
        sent := Some(Headers(headers));
      } else if action == "get" {
        var index := IndexOf(payload);
        if index == -1 {
          return None;
        }
        var headerBuffer := payload[..index];
        assert Peek(payload) == Success(headerBuffer);
        var headers := ParseWavHeaders(headerBuffer);
        sent := Some(Headers(headers));
      } else {
        sent := Some(Empty);
      }
    }
  }
}
