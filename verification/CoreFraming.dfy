/**
 Length-prefixed frames between the desktop process and the SSH core: the encoder, and the incremental parser
 that is fed arbitrary chunks. JSON and UTF-8 are one abstract codec for the metadata.
 */
module CoreFraming {
  import opened Wrappers
  import opened Binary

  const FRAME_HEADER_SIZE := 9
  const CONTROL := 1
  const STREAM := 2
  const UINT32 := 0x1_0000_0000

  datatype Frame<M> = Control(metadata: M) | Stream(metadata: M, payload: Bytes)

  datatype ParseError = UnknownKind(kind: Byte) | BadMetadata

  // How metadata becomes bytes and, if the bytes parse, comes back.
  datatype Codec<!M> = Codec(render: M -> Bytes, parse: Bytes -> Option<M>)

  ghost predicate Inverse<M(!new)>(codec: Codec<M>) {
    forall metadata :: codec.parse(codec.render(metadata)) == Some(metadata)
  }

  // ---------- big-endian 32-bit numbers ----------

  function WriteUInt32BE(n: nat): (b: Bytes)
    requires n < UINT32
    ensures |b| == 4
  {
    [n / 0x100_0000, n / 0x1_0000 % 0x100, n / 0x100 % 0x100, n % 0x100]
  }

  function ReadUInt32BE(b: Bytes, at: nat): (n: nat)
    requires at + 4 <= |b|
    ensures n < UINT32
  {
    b[at] as int * 0x100_0000 + b[at + 1] as int * 0x1_0000 + b[at + 2] as int * 0x100 + b[at + 3] as int
  }

  lemma BytesOf(n: nat)
    ensures n / 0x1_0000 == n / 0x100 / 0x100
    ensures n == n / 0x1_0000 * 0x1_0000 + n / 0x100 % 0x100 * 0x100 + n % 0x100
  {
    assert n == n / 0x100 * 0x100 + n % 0x100;
  }

  lemma ReadOfWrite(n: nat)
    requires n < UINT32
    ensures ReadUInt32BE(WriteUInt32BE(n), 0) == n
  {
    BytesOf(n);
    var high := n / 0x1_0000;
    assert high == high / 0x100 * 0x100 + high % 0x100;
    assert n / 0x100_0000 == high / 0x100;
  }

  // ---------- the encoder ----------

  function EncodeHeader(kind: Byte, metadataLength: nat, payloadLength: nat): (header: Bytes)
    requires metadataLength < UINT32 && payloadLength < UINT32
    ensures |header| == FRAME_HEADER_SIZE
  {
    [kind] + WriteUInt32BE(metadataLength) + WriteUInt32BE(payloadLength)
  }

  function EncodeControlFrame(metadata: Bytes): Bytes
    requires |metadata| < UINT32
  {
    EncodeHeader(CONTROL, |metadata|, 0) + metadata
  }

  function EncodeStreamFrame(metadata: Bytes, payload: Bytes): Bytes
    requires |metadata| < UINT32 && |payload| < UINT32
  {
    EncodeHeader(STREAM, |metadata|, |payload|) + metadata + payload
  }

  // The lengths fit the header's 32-bit fields.
  ghost predicate Encodable<M>(codec: Codec<M>, frame: Frame<M>) {
    |codec.render(frame.metadata)| < UINT32 && (frame.Stream? ==> |frame.payload| < UINT32)
  }

  ghost predicate AllEncodable<M>(codec: Codec<M>, frames: seq<Frame<M>>) {
    forall i :: 0 <= i < |frames| ==> Encodable(codec, frames[i])
  }

  ghost function Encode<M>(codec: Codec<M>, frame: Frame<M>): Bytes
    requires Encodable(codec, frame)
  {
    match frame
    case Control(metadata) => EncodeControlFrame(codec.render(metadata))
    case Stream(metadata, payload) => EncodeStreamFrame(codec.render(metadata), payload)
  }

  ghost function EncodeAll<M>(codec: Codec<M>, frames: seq<Frame<M>>): Bytes
    requires AllEncodable(codec, frames)
  {
    if frames == [] then [] else Encode(codec, frames[0]) + EncodeAll(codec, frames[1..])
  }

  // ---------- what one push does ----------

  // The length of the frame at the front of the buffer, once its header is there.
  function TotalLength(buffer: Bytes): nat
    requires |buffer| >= FRAME_HEADER_SIZE
  {
    FRAME_HEADER_SIZE + ReadUInt32BE(buffer, 1) + ReadUInt32BE(buffer, 5)
  }

  predicate HasFrame(buffer: Bytes) {
    |buffer| >= FRAME_HEADER_SIZE && TotalLength(buffer) <= |buffer|
  }

  // The frame that a complete body of the given kind stands for, or the error it throws.
  function Decode<M>(codec: Codec<M>, kind: Byte, metadataJson: Bytes, payload: Bytes): Result<Frame<M>, ParseError> {
    if kind != CONTROL && kind != STREAM then Err(UnknownKind(kind))
    else
      var metadata := codec.parse(metadataJson);
      if metadata.None? then Err(BadMetadata)
      else if kind == CONTROL then Ok(Control(metadata.value))
      else Ok(Stream(metadata.value, payload))
  }

  function FirstFrame<M>(codec: Codec<M>, buffer: Bytes): Result<Frame<M>, ParseError>
    requires HasFrame(buffer)
  {
    var metadataEnd := FRAME_HEADER_SIZE + ReadUInt32BE(buffer, 1);
    Decode(codec, buffer[0], buffer[FRAME_HEADER_SIZE..metadataEnd], buffer[metadataEnd..TotalLength(buffer)])
  }

  datatype Parsed<M> = Parsed(frames: seq<Frame<M>>, rest: Bytes, error: Option<ParseError>)

  // Frames are taken off the front until a partial frame or a bad one is in front.
  function ParseAll<M>(codec: Codec<M>, buffer: Bytes): Parsed<M>
    decreases |buffer|
  {
    if !HasFrame(buffer) then Parsed([], buffer, None)
    else
      match FirstFrame(codec, buffer)
      case Err(error) => Parsed([], buffer, Some(error))
      case Ok(frame) =>
        var tail := ParseAll(codec, buffer[TotalLength(buffer)..]);
        tail.(frames := [frame] + tail.frames)
  }

  // What is known after some frames when the rest parses as `parsed`.
  function After<M>(frames: seq<Frame<M>>, parsed: Parsed<M>): Parsed<M> {
    parsed.(frames := frames + parsed.frames)
  }

  lemma AfterTwice<M>(a: seq<Frame<M>>, b: seq<Frame<M>>, parsed: Parsed<M>)
    ensures After(a, After(b, parsed)) == After(a + b, parsed)
    ensures After([], parsed) == parsed
  {
    assert a + (b + parsed.frames) == (a + b) + parsed.frames;
    assert [] + parsed.frames == parsed.frames;
  }

  lemma {:induction false} ParseStep<M>(codec: Codec<M>, buffer: Bytes, rest: Bytes)
    requires HasFrame(buffer) && FirstFrame(codec, buffer).Ok? && rest == buffer[TotalLength(buffer)..]
    ensures ParseAll(codec, buffer) == After([FirstFrame(codec, buffer).value], ParseAll(codec, rest))
  {
  }

  lemma {:induction false} NextFrame<M>(codec: Codec<M>, sofar: seq<Frame<M>>, buffer: Bytes, rest: Bytes)
    requires HasFrame(buffer) && FirstFrame(codec, buffer).Ok? && rest == buffer[TotalLength(buffer)..]
    ensures After(sofar, ParseAll(codec, buffer)) == After(sofar + [FirstFrame(codec, buffer).value], ParseAll(codec, rest))
  {
    ParseStep(codec, buffer, rest);
    AfterTwice(sofar, [FirstFrame(codec, buffer).value], ParseAll(codec, rest));
  }

  lemma {:induction false} StopsHere<M>(codec: Codec<M>, frames: seq<Frame<M>>, buffer: Bytes)
    requires !HasFrame(buffer)
    ensures After(frames, ParseAll(codec, buffer)) == Parsed(frames, buffer, None)
  {
    assert frames + [] == frames;
  }

  lemma {:induction false} FailsHere<M>(codec: Codec<M>, frames: seq<Frame<M>>, buffer: Bytes)
    requires HasFrame(buffer) && FirstFrame(codec, buffer).Err?
    ensures After(frames, ParseAll(codec, buffer)) == Parsed(frames, buffer, Some(FirstFrame(codec, buffer).error))
  {
    assert frames + [] == frames;
  }

  // The complete frame in front of the buffer, or the error it throws.
  method TakeFirst<M>(codec: Codec<M>, buffer: Bytes) returns (r: Result<Frame<M>, ParseError>)
    requires HasFrame(buffer)
    ensures r == FirstFrame(codec, buffer)
  {
    var kind := buffer[0];
    var metadataLength := ReadUInt32BE(buffer, 1);
    var payloadLength := ReadUInt32BE(buffer, 5);
    var metadataStart := FRAME_HEADER_SIZE;
    var metadataEnd := metadataStart + metadataLength;
    var payloadEnd := metadataEnd + payloadLength;
    r := Decode(codec, kind, buffer[metadataStart..metadataEnd], buffer[metadataEnd..payloadEnd]);
  }

  class CoreFrameParser<!M> {
    const codec: Codec<M>
    var buffer: Bytes

    constructor (codec: Codec<M>)
      ensures this.codec == codec && buffer == []
    {
      this.codec := codec;
      this.buffer := [];
    }

    // A thrown error loses the frames this push had already taken off and leaves the bad frame in front.
    method Push(chunk: Bytes) returns (r: Result<seq<Frame<M>>, ParseError>)
      modifies this
      ensures var parsed := ParseAll(codec, old(buffer) + chunk);
              && buffer == parsed.rest
              && r == if parsed.error.Some? then Err(parsed.error.value) else Ok(parsed.frames)
    {
      buffer := buffer + chunk;
      ghost var parsed := ParseAll(codec, buffer);
      var frames: seq<Frame<M>> := [];
      while |buffer| >= FRAME_HEADER_SIZE
        invariant After(frames, ParseAll(codec, buffer)) == parsed
        decreases |buffer|
      {
        var totalLength := FRAME_HEADER_SIZE + ReadUInt32BE(buffer, 1) + ReadUInt32BE(buffer, 5);
        if |buffer| < totalLength {
          break;
        }
        ghost var before, sofar := buffer, frames;
        var first := TakeFirst(codec, buffer);
        if first.Err? {
          FailsHere(codec, frames, buffer);
          return Err(first.error);
        }
        frames := frames + [first.value];
        buffer := buffer[totalLength..];
        NextFrame(codec, sofar, before, buffer);
      }
      StopsHere(codec, frames, buffer);
      return Ok(frames);
    }
  }

  // ---------- one frame ----------

  lemma HeaderOfEncoded(kind: Byte, metadataLength: nat, payloadLength: nat, body: Bytes)
    requires metadataLength < UINT32 && payloadLength < UINT32
    ensures var b := EncodeHeader(kind, metadataLength, payloadLength) + body;
            && b[0] == kind && ReadUInt32BE(b, 1) == metadataLength && ReadUInt32BE(b, 5) == payloadLength
            && b[FRAME_HEADER_SIZE..] == body
  {
    ReadOfWrite(metadataLength);
    ReadOfWrite(payloadLength);
    var b := EncodeHeader(kind, metadataLength, payloadLength) + body;
    assert b[1..5] == WriteUInt32BE(metadataLength) && b[5..9] == WriteUInt32BE(payloadLength);
  }

  /** A buffer that starts with an encoded frame has exactly that frame in front. */
  lemma {:induction false} FirstFrameOfEncoded<M(!new)>(codec: Codec<M>, frame: Frame<M>, rest: Bytes)
    requires Inverse(codec) && Encodable(codec, frame)
    ensures HasFrame(Encode(codec, frame) + rest)
    ensures TotalLength(Encode(codec, frame) + rest) == |Encode(codec, frame)|
    ensures FirstFrame(codec, Encode(codec, frame) + rest) == Ok(frame)
  {
    var metadata := codec.render(frame.metadata);
    var payload := if frame.Control? then [] else frame.payload;
    var kind := if frame.Control? then CONTROL else STREAM;
    var header := EncodeHeader(kind, |metadata|, |payload|);
    assert Encode(codec, frame) + rest == header + (metadata + payload + rest);
    HeaderOfEncoded(kind, |metadata|, |payload|, metadata + payload + rest);
    SlicesOfBody(header, metadata, payload, rest);
  }

  lemma SlicesOfBody(header: Bytes, metadata: Bytes, payload: Bytes, rest: Bytes)
    ensures var b := header + (metadata + payload + rest);
            && b[|header|..|header| + |metadata|] == metadata
            && b[|header| + |metadata|..|header| + |metadata| + |payload|] == payload
  {
  }

  /** A proper prefix of an encoded frame is never taken for a frame. */
  lemma PrefixHasNoFrame<M(!new)>(codec: Codec<M>, frame: Frame<M>, prefix: Bytes)
    requires Inverse(codec) && Encodable(codec, frame) && prefix < Encode(codec, frame)
    ensures !HasFrame(prefix)
  {
    if |prefix| >= FRAME_HEADER_SIZE {
      FirstFrameOfEncoded(codec, frame, []);
      var b := Encode(codec, frame) + [];
      assert b == Encode(codec, frame);
      assert TotalLength(prefix) == TotalLength(b);
    }
  }

  // ---------- the bytes on the wire ----------

  // The four bytes from `at` on, the most significant first.
  lemma BigEndianBytes(n: nat)
    requires n < UINT32
    ensures var b := WriteUInt32BE(n);
            b[0] as int * 0x100_0000 + b[1] as int * 0x1_0000 + b[2] as int * 0x100 + b[3] as int == n
    ensures n == 0 ==> WriteUInt32BE(n) == [0, 0, 0, 0]
  {
    ReadOfWrite(n);
  }

  lemma HeaderBytes(kind: Byte, metadataLength: nat, payloadLength: nat, body: Bytes)
    requires metadataLength < UINT32 && payloadLength < UINT32
    ensures var b := EncodeHeader(kind, metadataLength, payloadLength) + body;
            && |b| == 9 + |body| && b[0] == kind
            && b[1] as int * 0x100_0000 + b[2] as int * 0x1_0000 + b[3] as int * 0x100 + b[4] as int == metadataLength
            && b[5] as int * 0x100_0000 + b[6] as int * 0x1_0000 + b[7] as int * 0x100 + b[8] as int == payloadLength
            && (payloadLength == 0 ==> b[5..9] == [0, 0, 0, 0])
            && b[9..] == body
  {
    var b := EncodeHeader(kind, metadataLength, payloadLength) + body;
    BigEndianBytes(metadataLength);
    BigEndianBytes(payloadLength);
    assert b[1..5] == WriteUInt32BE(metadataLength) && b[5..9] == WriteUInt32BE(payloadLength);
    assert b[1] == b[1..5][0] && b[2] == b[1..5][1] && b[3] == b[1..5][2] && b[4] == b[1..5][3];
    assert b[5] == b[5..9][0] && b[6] == b[5..9][1] && b[7] == b[5..9][2] && b[8] == b[5..9][3];
  }

  /** A control frame is a 1, its metadata's length with the most significant byte first, four zeros, and the metadata. */
  lemma ControlFrameBytes(metadata: Bytes)
    requires |metadata| < UINT32
    ensures var b := EncodeControlFrame(metadata);
            && |b| == 9 + |metadata| && b[0] == 1
            && b[1] as int * 0x100_0000 + b[2] as int * 0x1_0000 + b[3] as int * 0x100 + b[4] as int == |metadata|
            && b[5..9] == [0, 0, 0, 0]
            && b[9..] == metadata
  {
    HeaderBytes(1, |metadata|, 0, metadata);
  }

  /** A stream frame is a 2, both lengths with the most significant byte first, the metadata, and the payload. */
  lemma StreamFrameBytes(metadata: Bytes, payload: Bytes)
    requires |metadata| < UINT32 && |payload| < UINT32
    ensures var b := EncodeStreamFrame(metadata, payload);
            && |b| == 9 + |metadata| + |payload| && b[0] == 2
            && b[1] as int * 0x100_0000 + b[2] as int * 0x1_0000 + b[3] as int * 0x100 + b[4] as int == |metadata|
            && b[5] as int * 0x100_0000 + b[6] as int * 0x1_0000 + b[7] as int * 0x100 + b[8] as int == |payload|
            && b[9..9 + |metadata|] == metadata
            && b[9 + |metadata|..] == payload
  {
    var header := EncodeHeader(2, |metadata|, |payload|);
    HeaderBytes(2, |metadata|, |payload|, metadata + payload);
    assert header + metadata + payload == header + (metadata + payload);
  }

  // The header of the buffer spells these lengths, the most significant byte first.
  ghost predicate Announces(b: Bytes, metadataLength: nat, payloadLength: nat) {
    && |b| >= 9
    && b[1] as int * 0x100_0000 + b[2] as int * 0x1_0000 + b[3] as int * 0x100 + b[4] as int == metadataLength
    && b[5] as int * 0x100_0000 + b[6] as int * 0x1_0000 + b[7] as int * 0x100 + b[8] as int == payloadLength
  }

  /**
   A complete frame in front whose kind is not 1 or 2, or whose metadata does not parse, throws: nothing comes out and
   the buffer stays as it is.
   */
  lemma {:induction false} BadFrontThrows<M>(codec: Codec<M>, b: Bytes, metadataLength: nat, payloadLength: nat)
    requires Announces(b, metadataLength, payloadLength) && |b| >= 9 + metadataLength + payloadLength
    ensures b[0] != 1 && b[0] != 2 ==> ParseAll(codec, b) == Parsed([], b, Some(UnknownKind(b[0])))
    ensures (b[0] == 1 || b[0] == 2) && codec.parse(b[9..9 + metadataLength]).None? ==>
              ParseAll(codec, b) == Parsed([], b, Some(BadMetadata))
  {
    assert TotalLength(b) == 9 + metadataLength + payloadLength;
  }

  /** With parsing metadata, the frame that the bytes stand for comes out first, and the bytes after it are next. */
  lemma {:induction false} GoodFrontComesOut<M>(
      codec: Codec<M>, b: Bytes, metadataLength: nat, payloadLength: nat, metadata: M)
    requires Announces(b, metadataLength, payloadLength) && |b| >= 9 + metadataLength + payloadLength
    requires codec.parse(b[9..9 + metadataLength]) == Some(metadata) && (b[0] == 1 || b[0] == 2)
    ensures var next := ParseAll(codec, b[9 + metadataLength + payloadLength..]);
            var frame := if b[0] == 1 then Control(metadata)
                         else Stream(metadata, b[9 + metadataLength..9 + metadataLength + payloadLength]);
            ParseAll(codec, b) == Parsed([frame] + next.frames, next.rest, next.error)
  {
    var rest := b[9 + metadataLength + payloadLength..];
    FrontIs(codec, b, metadataLength, payloadLength, metadata);
    FirstThenRest(codec, b, FirstFrame(codec, b).value, rest);
  }

  lemma {:induction false} FrontIs<M>(codec: Codec<M>, b: Bytes, metadataLength: nat, payloadLength: nat, metadata: M)
    requires Announces(b, metadataLength, payloadLength) && |b| >= 9 + metadataLength + payloadLength
    requires codec.parse(b[9..9 + metadataLength]) == Some(metadata) && (b[0] == 1 || b[0] == 2)
    ensures HasFrame(b) && TotalLength(b) == 9 + metadataLength + payloadLength
    ensures FirstFrame(codec, b) == Ok(if b[0] == 1 then Control(metadata)
                                       else Stream(metadata, b[9 + metadataLength..9 + metadataLength + payloadLength]))
  {
  }

  lemma {:induction false} FirstThenRest<M>(codec: Codec<M>, b: Bytes, frame: Frame<M>, rest: Bytes)
    requires HasFrame(b) && FirstFrame(codec, b) == Ok(frame) && rest == b[TotalLength(b)..]
    ensures var next := ParseAll(codec, rest);
            ParseAll(codec, b) == Parsed([frame] + next.frames, next.rest, next.error)
  {
    ParseStep(codec, b, rest);
  }

  /** While the frame in front is not complete, nothing comes out. */
  lemma FrontIncomplete<M>(codec: Codec<M>, b: Bytes)
    requires |b| < 9 || exists m: nat, p: nat :: Announces(b, m, p) && |b| < 9 + m + p
    ensures ParseAll(codec, b) == Parsed([], b, None)
  {
    if |b| >= 9 {
      var m: nat, p: nat :| Announces(b, m, p) && |b| < 9 + m + p;
      assert TotalLength(b) == 9 + m + p;
    }
  }

  // ---------- any chunking of a frame sequence ----------

  // How many leading frames are contained in the first n bytes of the encoding.
  ghost function Complete<M>(codec: Codec<M>, frames: seq<Frame<M>>, n: nat): (k: nat)
    requires AllEncodable(codec, frames)
    ensures k <= |frames|
  {
    if frames == [] || n < |Encode(codec, frames[0])| then 0
    else 1 + Complete(codec, frames[1..], n - |Encode(codec, frames[0])|)
  }

  // Where the encoding of the first k frames ends.
  ghost function EndOf<M>(codec: Codec<M>, frames: seq<Frame<M>>, k: nat): nat
    requires AllEncodable(codec, frames) && k <= |frames|
  {
    if k == 0 then 0 else |Encode(codec, frames[0])| + EndOf(codec, frames[1..], k - 1)
  }

  lemma {:induction false} EndOfIsLength<M>(codec: Codec<M>, frames: seq<Frame<M>>, k: nat)
    requires AllEncodable(codec, frames) && k <= |frames|
    ensures EndOf(codec, frames, k) == |EncodeAll(codec, frames[..k])|
  {
    if k > 0 {
      EndOfIsLength(codec, frames[1..], k - 1);
      assert frames[..k][1..] == frames[1..][..k - 1];
    }
  }

  /** The complete frames end within the first n bytes, and the next frame does not. */
  lemma {:induction false} CompleteIsExact<M>(codec: Codec<M>, frames: seq<Frame<M>>, n: nat)
    requires AllEncodable(codec, frames)
    ensures var k := Complete(codec, frames, n);
            && EndOf(codec, frames, k) <= n
            && (k < |frames| ==> n < EndOf(codec, frames, k + 1))
  {
    if frames != [] && n >= |Encode(codec, frames[0])| {
      CompleteIsExact(codec, frames[1..], n - |Encode(codec, frames[0])|);
    }
  }

  lemma SplitPrefix(first: Bytes, more: Bytes, prefix: Bytes)
    requires prefix <= first + more
    ensures |prefix| < |first| ==> prefix < first
    ensures |prefix| >= |first| ==> prefix == first + prefix[|first|..] && prefix[|first|..] <= more
  {
    assert (first + more)[|first|..] == more;
    assert (first + more)[..|first|] == first;
  }

  // What should be known once the bytes of `prefix` have arrived: the complete frames, and what is left over.
  ghost function Expected<M>(codec: Codec<M>, frames: seq<Frame<M>>, prefix: Bytes): Parsed<M>
    requires AllEncodable(codec, frames)
  {
    var k := Complete(codec, frames, |prefix|);
    CompleteIsExact(codec, frames, |prefix|);
    Parsed(frames[..k], prefix[EndOf(codec, frames, k)..], None)
  }

  lemma {:induction false} CompleteStep<M>(codec: Codec<M>, frames: seq<Frame<M>>, n: nat)
    requires frames != [] && AllEncodable(codec, frames)
    ensures Complete(codec, frames, |Encode(codec, frames[0])| + n) == 1 + Complete(codec, frames[1..], n)
  {
  }

  // The same, seen from the rest once the first frame is complete.
  lemma {:induction false} ExpectedStep<M>(codec: Codec<M>, frames: seq<Frame<M>>, prefix: Bytes, tail: Bytes)
    requires frames != [] && AllEncodable(codec, frames)
    requires prefix == Encode(codec, frames[0]) + tail
    ensures Expected(codec, frames, prefix) == After([frames[0]], Expected(codec, frames[1..], tail))
  {
    var first := Encode(codec, frames[0]);
    var k := Complete(codec, frames[1..], |tail|);
    CompleteStep(codec, frames, |tail|);
    CompleteIsExact(codec, frames[1..], |tail|);
    assert EndOf(codec, frames, k + 1) == |first| + EndOf(codec, frames[1..], k);
    DropFirst(first, tail, EndOf(codec, frames[1..], k));
    TakeOneMore(frames, k);
  }

  lemma DropFirst(first: Bytes, tail: Bytes, n: nat)
    requires n <= |tail|
    ensures (first + tail)[|first| + n..] == tail[n..]
  {
  }

  lemma TakeOneMore<T>(s: seq<T>, k: nat)
    requires k < |s|
    ensures s[..k + 1] == [s[0]] + s[1..][..k]
  {
  }

  lemma {:induction false} ExpectedOfWhole<M>(codec: Codec<M>, frames: seq<Frame<M>>)
    requires AllEncodable(codec, frames)
    ensures Expected(codec, frames, EncodeAll(codec, frames)) == Parsed(frames, [], None)
  {
    if frames != [] {
      ExpectedOfWhole(codec, frames[1..]);
      ExpectedStep(codec, frames, EncodeAll(codec, frames), EncodeAll(codec, frames[1..]));
    }
  }

  /** Parsing a prefix of an encoded sequence yields exactly the frames it contains and keeps what is left over. */
  lemma {:induction false} ParseOfPrefix<M(!new)>(codec: Codec<M>, frames: seq<Frame<M>>, prefix: Bytes)
    requires Inverse(codec) && AllEncodable(codec, frames)
    requires prefix <= EncodeAll(codec, frames)
    ensures ParseAll(codec, prefix) == Expected(codec, frames, prefix)
  {
    if frames != [] {
      var first := Encode(codec, frames[0]);
      SplitPrefix(first, EncodeAll(codec, frames[1..]), prefix);
      if |prefix| < |first| {
        PrefixHasNoFrame(codec, frames[0], prefix);
      } else {
        var tail := prefix[|first|..];
        FirstFrameOfEncoded(codec, frames[0], tail);
        ParseOfPrefix(codec, frames[1..], tail);
        ExpectedStep(codec, frames, prefix, tail);
        ParseStep(codec, prefix, tail);
      }
    }
  }

  // The outputs of one push after the other on a new parser, up to the first that throws.
  ghost function PushAll<M>(codec: Codec<M>, chunks: seq<Bytes>): Parsed<M> {
    if chunks == [] then Parsed([], [], None)
    else
      var before := PushAll(codec, chunks[..|chunks| - 1]);
      if before.error.Some? then before
      else
        var parsed := ParseAll(codec, before.rest + chunks[|chunks| - 1]);
        After(before.frames, if parsed.error.Some? then parsed.(frames := []) else parsed)
  }

  ghost function Concat(chunks: seq<Bytes>): Bytes {
    if chunks == [] then [] else Concat(chunks[..|chunks| - 1]) + chunks[|chunks| - 1]
  }

  lemma FrontSurvives<M>(codec: Codec<M>, buffer: Bytes, chunk: Bytes)
    requires HasFrame(buffer)
    ensures HasFrame(buffer + chunk) && TotalLength(buffer + chunk) == TotalLength(buffer)
    ensures FirstFrame(codec, buffer + chunk) == FirstFrame(codec, buffer)
    ensures (buffer + chunk)[TotalLength(buffer)..] == buffer[TotalLength(buffer)..] + chunk
  {
    var all, total := buffer + chunk, TotalLength(buffer);
    var metadataEnd := FRAME_HEADER_SIZE + ReadUInt32BE(buffer, 1);
    assert all[FRAME_HEADER_SIZE..metadataEnd] == buffer[FRAME_HEADER_SIZE..metadataEnd];
    assert all[metadataEnd..total] == buffer[metadataEnd..total];
  }

  /** Parsing may be interrupted anywhere: the leftover of one buffer continues with the next chunk. */
  lemma {:induction false} ParseOfConcat<M>(codec: Codec<M>, buffer: Bytes, chunk: Bytes)
    requires ParseAll(codec, buffer).error.None?
    ensures var before := ParseAll(codec, buffer);
            ParseAll(codec, buffer + chunk) == After(before.frames, ParseAll(codec, before.rest + chunk))
    decreases |buffer|
  {
    if !HasFrame(buffer) {
      AfterTwice([], [], ParseAll(codec, buffer + chunk));
    } else {
      var rest := buffer[TotalLength(buffer)..];
      var frame := FirstFrame(codec, buffer).value;
      FrontSurvives(codec, buffer, chunk);
      ParseStep(codec, buffer, rest);
      ParseStep(codec, buffer + chunk, rest + chunk);
      ParseOfConcat(codec, rest, chunk);
      AfterTwice([frame], ParseAll(codec, rest).frames, ParseAll(codec, ParseAll(codec, rest).rest + chunk));
    }
  }

  lemma {:induction false} ErrorIsSticky<M>(codec: Codec<M>, buffer: Bytes, chunk: Bytes)
    requires ParseAll(codec, buffer).error.Some?
    ensures ParseAll(codec, buffer + chunk).error == ParseAll(codec, buffer).error
    ensures ParseAll(codec, buffer + chunk).frames == ParseAll(codec, buffer).frames
    decreases |buffer|
  {
    FrontSurvives(codec, buffer, chunk);
    if FirstFrame(codec, buffer).Ok? {
      ErrorIsSticky(codec, buffer[TotalLength(buffer)..], chunk);
    }
  }

  /**
   For any bytes at all, pushing them chunk by chunk is parsing them at once: the same error if there is one,
   and otherwise the same frames and the same leftover. A throwing push loses frames but invents none.
   */
  lemma {:induction false} PushAllIsParseAll<M>(codec: Codec<M>, chunks: seq<Bytes>)
    ensures PushAll(codec, chunks).error == ParseAll(codec, Concat(chunks)).error
    ensures PushAll(codec, chunks).error.None? ==> PushAll(codec, chunks) == ParseAll(codec, Concat(chunks))
    ensures PushAll(codec, chunks).frames <= ParseAll(codec, Concat(chunks)).frames
  {
    if chunks != [] {
      var front, last := chunks[..|chunks| - 1], chunks[|chunks| - 1];
      PushAllIsParseAll(codec, front);
      if PushAll(codec, front).error.None? {
        ParseOfConcat(codec, Concat(front), last);
      } else {
        ErrorIsSticky(codec, Concat(front), last);
      }
    }
  }

  /**
   However the encoding of a frame sequence is cut into chunks, after each push the parser has put out exactly
   the frames fully contained in the bytes so far and buffers exactly the bytes after them.
   */
  lemma {:induction false} AnyChunking<M(!new)>(codec: Codec<M>, frames: seq<Frame<M>>, chunks: seq<Bytes>)
    requires Inverse(codec) && AllEncodable(codec, frames)
    requires Concat(chunks) <= EncodeAll(codec, frames)
    ensures PushAll(codec, chunks) == Expected(codec, frames, Concat(chunks))
    ensures Concat(chunks) == EncodeAll(codec, frames) ==> PushAll(codec, chunks) == Parsed(frames, [], None)
  {
    ParseOfPrefix(codec, frames, Concat(chunks));
    PushAllIsParseAll(codec, chunks);
    ExpectedOfWhole(codec, frames);
  }
}
