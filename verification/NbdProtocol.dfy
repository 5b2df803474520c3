/**
 Structured replies of the NBD protocol ("Structured reply chunk message" in its proto.md): what
 the client makes of the bytes a server sends, and that it is the inverse of how they are encoded.
 */
module NbdProtocol {
  import opened Collections
  import opened Bytes
  import opened Packing
  import opened Wrappers

  const STRUCTURED_REPLY_MAGIC: nat := 0x668E33EF
  const TYPE_NONE: nat := 0
  const TYPE_OFFSET_DATA: nat := 1
  const TYPE_OFFSET_HOLE: nat := 2
  const TYPE_BLOCK_STATUS: nat := 5
  const TYPE_ERROR_BIT: nat := 0x8000
  /** The client's constant, `1 << 15 + 2`, is not the protocol's: the addition binds tighter. */
  const TYPE_ERROR_OFFSET: nat := 0x2_0000
  const HEADER_LENGTH: nat := 20

  datatype Payload =
    | Nothing
    | BlockStatus(contextId: nat, descriptors: seq<(nat, nat)>)
    | OffsetData(offset: nat, data: bytes)
    | OffsetHole(offset: nat, holeSize: nat)
    | ErrorReply(error: nat, message: bytes, at: Option<nat>)

  /** The fields of a parsed chunk. */
  datatype Chunk = Chunk(flags: nat, replyType: nat, dataLength: nat, payload: Payload)

  datatype Failure = EndOfStream | ProtocolError | WrongHandle | UnexpectedType | BadText | BadLength | BadNumber

  /** A parse result together with the bytes it left unread. */
  datatype Parsed<+T> = Ok(value: T, rest: bytes) | Fail(why: Failure)

  predicate IsFinal(flags: nat) {
    flags % 2 == 1
  }

  /** Bit 15 of the reply type. */
  predicate IsErrorType(replyType: nat) {
    replyType / TYPE_ERROR_BIT % 2 == 1
  }

  function Take(stream: bytes, n: nat): Parsed<bytes> {
    if |stream| < n then Fail(EndOfStream) else Ok(stream[..n], stream[n..])
  }

  /** The unsigned integer of `n` bytes at `at`. */
  function Field(s: bytes, at: nat, n: nat): nat
    requires at + n <= |s|
  {
    FromBe(s[at..at + n])
  }

  function Descriptors(data: bytes): seq<(nat, nat)>
    requires |data| % 8 == 0
  {
    if data == [] then [] else [(Field(data, 0, 4), Field(data, 4, 4))] + Descriptors(data[8..])
  }

  function ParseBlockStatus(stream: bytes, length: nat): Parsed<Payload> {
    if !(length >= 12 && length % 8 == 4) then Fail(ProtocolError)
    else match Take(stream, length)
      case Fail(why) => Fail(why)
      case Ok(data, rest) => Ok(BlockStatus(Field(data, 0, 4), Descriptors(data[4..])), rest)
  }

  function ParseOffsetData(stream: bytes, length: nat): Parsed<Payload> {
    if length < 9 then Fail(ProtocolError)
    else match Take(stream, 8)
      case Fail(why) => Fail(why)
      case Ok(head, more) =>
        match Take(more, length - 8)
        case Fail(why) => Fail(why)
        case Ok(data, rest) => Ok(OffsetData(Field(head, 0, 8), data), rest)
  }

  function ParseOffsetHole(stream: bytes, length: nat): Parsed<Payload> {
    if length != 12 then Fail(ProtocolError)
    else match Take(stream, 12)
      case Fail(why) => Fail(why)
      case Ok(data, rest) => Ok(OffsetHole(Field(data, 0, 8), Field(data, 8, 4)), rest)
  }

  function ParseError(stream: bytes, length: nat, replyType: nat, isText: bytes -> bool): Parsed<Payload> {
    if length < 6 then Fail(ProtocolError)
    else match Take(stream, 6)
      case Fail(why) => Fail(why)
      case Ok(head, more) =>
        var error, messageLength := Field(head, 0, 4), Field(head, 4, 2);
        if messageLength > length - 6 then Fail(ProtocolError)
        else match Take(more, length - 6)
          case Fail(why) => Fail(why)
          case Ok(data, rest) =>
            var message, trailer := data[..messageLength], data[messageLength..];
            if !isText(message) then Fail(BadText)
            else if replyType != TYPE_ERROR_OFFSET then Ok(ErrorReply(error, message, None), rest)
            else if |trailer| != 8 then Fail(BadLength)
            else Ok(ErrorReply(error, message, Some(Field(trailer, 0, 8))), rest)
  }

  function ParsePayload(stream: bytes, flags: nat, replyType: nat, length: nat, isText: bytes -> bool): Parsed<Payload> {
    if replyType == TYPE_BLOCK_STATUS then ParseBlockStatus(stream, length)
    else if replyType == TYPE_NONE then
      if length == 0 && IsFinal(flags) then Ok(Nothing, stream) else Fail(ProtocolError)
    else if replyType == TYPE_OFFSET_DATA then ParseOffsetData(stream, length)
    else if replyType == TYPE_OFFSET_HOLE then ParseOffsetHole(stream, length)
    else if IsErrorType(replyType) then ParseError(stream, length, replyType, isText)
    else Fail(UnexpectedType)
  }

  /** One chunk: a header of 20 bytes, then a payload by its type. */
  function ParseChunk(stream: bytes, handle: nat, isText: bytes -> bool): Parsed<Chunk> {
    match Take(stream, HEADER_LENGTH)
    case Fail(why) => Fail(why)
    case Ok(h, more) =>
      var flags, replyType, length := Field(h, 4, 2), Field(h, 6, 2), Field(h, 16, 4);
      if Field(h, 0, 4) != STRUCTURED_REPLY_MAGIC then Fail(ProtocolError)
      else if Field(h, 8, 8) != handle then Fail(WrongHandle)
      else match ParsePayload(more, flags, replyType, length, isText)
        case Fail(why) => Fail(why)
        case Ok(payload, rest) => Ok(Chunk(flags, replyType, length, payload), rest)
  }

  /** Every chunk that parses has consumed its header and its announced length, no more, no less. */
  lemma ChunkConsumes(stream: bytes, handle: nat, isText: bytes -> bool)
    ensures match ParseChunk(stream, handle, isText)
            case Fail(_) => true
            case Ok(chunk, rest) =>
              && HEADER_LENGTH + chunk.dataLength <= |stream|
              && rest == stream[HEADER_LENGTH + chunk.dataLength..]
  {
    if |stream| >= HEADER_LENGTH {
      var length := Field(stream[..HEADER_LENGTH], 16, 4);
    }
  }

  /** The chunks up to and including the first final one. */
  function ParseReply(stream: bytes, handle: nat, isText: bytes -> bool): Parsed<seq<Chunk>>
    decreases |stream|
  {
    match ParseChunk(stream, handle, isText)
    case Fail(why) => Fail(why)
    case Ok(chunk, rest) =>
      ChunkConsumes(stream, handle, isText);
      if IsFinal(chunk.flags) then Ok([chunk], rest)
      else match ParseReply(rest, handle, isText)
        case Fail(why) => Fail(why)
        case Ok(chunks, last) => Ok([chunk] + chunks, last)
  }

  ghost function TotalLength(chunks: seq<Chunk>): nat {
    if chunks == [] then 0 else HEADER_LENGTH + chunks[0].dataLength + TotalLength(chunks[1..])
  }

  /** Only the last of a reply's chunks is final. */
  ghost predicate FinalLast(chunks: seq<Chunk>) {
    && chunks != [] && IsFinal(chunks[|chunks| - 1].flags)
    && forall i :: 0 <= i < |chunks| - 1 ==> !IsFinal(chunks[i].flags)
  }

  /** A reply ends at its first final chunk and takes exactly the bytes of its chunks. */
  lemma {:induction false} ReplyConsumes(stream: bytes, handle: nat, isText: bytes -> bool)
    ensures match ParseReply(stream, handle, isText)
            case Fail(_) => true
            case Ok(chunks, rest) =>
              FinalLast(chunks) && TotalLength(chunks) <= |stream| && rest == stream[TotalLength(chunks)..]
    decreases |stream|
  {
    ChunkConsumes(stream, handle, isText);
    match ParseChunk(stream, handle, isText)
    case Fail(_) =>
    case Ok(chunk, rest) =>
      if IsFinal(chunk.flags) {
        assert [chunk][1..] == [];
      } else {
        ReplyConsumes(rest, handle, isText);
        match ParseReply(rest, handle, isText)
        case Fail(_) =>
        case Ok(chunks, last) =>
      }
  }

  // ---------------------------------------------------------------------------------------
  // Encoding.

  function EncodeDescriptors(ds: seq<(nat, nat)>): (r: bytes)
    ensures |r| == 8 * |ds|
  {
    if ds == [] then [] else ToBe(ds[0].0, 4) + ToBe(ds[0].1, 4) + EncodeDescriptors(ds[1..])
  }

  predicate Fits(v: nat, width: nat) {
    v < Pow256(width)
  }

  /** Decoding block status descriptors inverts encoding them. */
  lemma {:induction false} DescriptorsRoundTrip(ds: seq<(nat, nat)>)
    requires forall i :: 0 <= i < |ds| ==> Fits(ds[i].0, 4) && Fits(ds[i].1, 4)
    ensures Descriptors(EncodeDescriptors(ds)) == ds
  {
    if ds != [] {
      var a, b, rest := ToBe(ds[0].0, 4), ToBe(ds[0].1, 4), EncodeDescriptors(ds[1..]);
      SliceAppend(a + b, rest, 0, 4);
      SliceAppend(a + b, rest, 4, 8);
      assert (a + b)[0..4] == a && (a + b)[4..8] == b && (a + b + rest)[8..] == rest;
      FromToBe(ds[0].0, 4);
      FromToBe(ds[0].1, 4);
      DescriptorsRoundTrip(ds[1..]);
    }
  }

  /** A payload as a server writes it; an error may carry bytes after its message. */
  function EncodePayload(p: Payload, trailer: bytes): bytes {
    match p
    case Nothing => []
    case BlockStatus(contextId, descriptors) => ToBe(contextId, 4) + EncodeDescriptors(descriptors)
    case OffsetData(offset, data) => ToBe(offset, 8) + data
    case OffsetHole(offset, holeSize) => ToBe(offset, 8) + ToBe(holeSize, 4)
    case ErrorReply(error, message, _) => (ToBe(error, 4) + ToBe(|message|, 2)) + (message + trailer)
  }

  function HeaderFields(c: Chunk, handle: nat): seq<Packed> {
    [Packed(STRUCTURED_REPLY_MAGIC, 4), Packed(c.flags, 2), Packed(c.replyType, 2), Packed(handle, 8), Packed(c.dataLength, 4)]
  }

  function EncodeHeader(c: Chunk, handle: nat): (r: bytes)
    ensures |r| == HEADER_LENGTH
  {
    HeaderStarts(c, handle);
    PackLength(HeaderFields(c, handle));
    Pack(HeaderFields(c, handle))
  }

  lemma {:induction false} HeaderStarts(c: Chunk, handle: nat)
    ensures var fields := HeaderFields(c, handle);
            && Start(fields, 0) == 0 && Start(fields, 1) == 4 && Start(fields, 2) == 6 && Start(fields, 3) == 8
            && Start(fields, 4) == 16 && Start(fields, 5) == 20
  {
    var fields := HeaderFields(c, handle);
    assert Start(fields, 1) == 4;
    assert Start(fields, 3) == 8;
  }

  function EncodeChunk(c: Chunk, handle: nat, trailer: bytes): bytes {
    EncodeHeader(c, handle) + EncodePayload(c.payload, trailer)
  }

  /** A chunk a server may send: its type matches its payload and every number fits its field. */
  ghost predicate Sendable(c: Chunk, trailer: bytes, isText: bytes -> bool) {
    && Fits(c.flags, 2) && Fits(c.replyType, 2) && Fits(c.dataLength, 4)
    && c.dataLength == |EncodePayload(c.payload, trailer)|
    && match c.payload
       case Nothing => c.replyType == 0 && c.flags % 2 == 1
       case BlockStatus(contextId, ds) =>
         && c.replyType == 5 && Fits(contextId, 4) && ds != []
         && forall i :: 0 <= i < |ds| ==> Fits(ds[i].0, 4) && Fits(ds[i].1, 4)
       case OffsetData(offset, data) => c.replyType == 1 && Fits(offset, 8) && data != []
       case OffsetHole(offset, holeSize) => c.replyType == 2 && Fits(offset, 8) && Fits(holeSize, 4)
       case ErrorReply(error, message, at) =>
         && 0x8000 <= c.replyType && Fits(error, 4) && Fits(|message|, 2) && isText(message) && at == None
  }

  lemma {:induction false} HeaderRoundTrip(c: Chunk, handle: nat)
    requires Fits(c.flags, 2) && Fits(c.replyType, 2) && Fits(c.dataLength, 4) && Fits(handle, 8)
    ensures var h := EncodeHeader(c, handle);
            && Field(h, 0, 4) == 0x668E33EF && Field(h, 4, 2) == c.flags
            && Field(h, 6, 2) == c.replyType && Field(h, 8, 8) == handle && Field(h, 16, 4) == c.dataLength
  {
    var fields := HeaderFields(c, handle);
    Widths();
    HeaderStarts(c, handle);
    PackedAt(fields, 0);
    PackedAt(fields, 1);
    PackedAt(fields, 2);
    PackedAt(fields, 3);
    PackedAt(fields, 4);
  }

  lemma {:induction false} TakeAppend(a: bytes, b: bytes)
    ensures Take(a + b, |a|) == Ok(a, b)
  {
    assert (a + b)[..|a|] == a && (a + b)[|a|..] == b;
  }

  /** The reply types that fit the 16-bit field never reach the client's error-offset constant. */
  lemma ErrorOffsetUnreached(replyType: nat)
    requires Fits(replyType, 2)
    ensures replyType != TYPE_ERROR_OFFSET
  {
    Widths();
  }

  /** The two parts of a concatenation, as the parsers take them. */
  lemma {:induction false} Parts(a: bytes, b: bytes)
    ensures Field(a + b, 0, |a|) == FromBe(a) && Field(a + b, |a|, |b|) == FromBe(b)
    ensures (a + b)[..|a|] == a && (a + b)[|a|..] == b
  {
    var s := a + b;
    assert s[0..|a|] == a && s[|a|..|a| + |b|] == b;
  }

  lemma {:induction false} StatusRoundTrip(contextId: nat, ds: seq<(nat, nat)>, rest: bytes)
    requires Fits(contextId, 4) && ds != []
    requires forall i :: 0 <= i < |ds| ==> Fits(ds[i].0, 4) && Fits(ds[i].1, 4)
    ensures ParseBlockStatus(ToBe(contextId, 4) + EncodeDescriptors(ds) + rest, 4 + 8 * |ds|)
         == Ok(BlockStatus(contextId, ds), rest)
  {
    var id, ext := ToBe(contextId, 4), EncodeDescriptors(ds);
    DescriptorsRoundTrip(ds);
    FromToBe(contextId, 4);
    Parts(id, ext);
    TakeAppend(id + ext, rest);
  }

  lemma {:induction false} DataRoundTrip(offset: nat, data: bytes, rest: bytes)
    requires Fits(offset, 8) && data != []
    ensures ParseOffsetData(ToBe(offset, 8) + data + rest, 8 + |data|) == Ok(OffsetData(offset, data), rest)
  {
    var head := ToBe(offset, 8);
    ConcatAssociates(head, data, rest);
    TakeAppend(head, data + rest);
    TakeAppend(data, rest);
    assert head[0..8] == head;
    FromToBe(offset, 8);
  }

  lemma {:induction false} HoleRoundTrip(offset: nat, holeSize: nat, rest: bytes)
    requires Fits(offset, 8) && Fits(holeSize, 4)
    ensures ParseOffsetHole(ToBe(offset, 8) + ToBe(holeSize, 4) + rest, 12) == Ok(OffsetHole(offset, holeSize), rest)
  {
    var at, size := ToBe(offset, 8), ToBe(holeSize, 4);
    Parts(at, size);
    TakeAppend(at + size, rest);
    FromToBe(offset, 8);
    FromToBe(holeSize, 4);
  }

  lemma {:induction false} ErrorRoundTrip(error: nat, message: bytes, trailer: bytes, replyType: nat, rest: bytes, isText: bytes -> bool)
    requires Fits(error, 4) && Fits(|message|, 2) && isText(message) && Fits(replyType, 2)
    ensures ParseError((ToBe(error, 4) + ToBe(|message|, 2)) + (message + trailer) + rest,
                       6 + |message| + |trailer|, replyType, isText)
         == Ok(ErrorReply(error, message, None), rest)
  {
    var code, length, tail := ToBe(error, 4), ToBe(|message|, 2), message + trailer;
    ConcatAssociates(code + length, tail, rest);
    TakeAppend(code + length, tail + rest);
    TakeAppend(tail, rest);
    Parts(code, length);
    Parts(message, trailer);
    FromToBe(error, 4);
    FromToBe(|message|, 2);
    ErrorOffsetUnreached(replyType);
  }

  /** Parsing a chunk inverts encoding it, whatever follows it in the stream. */
  lemma {:induction false} ChunkRoundTrip(c: Chunk, handle: nat, trailer: bytes, rest: bytes, isText: bytes -> bool)
    requires Sendable(c, trailer, isText) && Fits(handle, 8)
    ensures ParseChunk(EncodeChunk(c, handle, trailer) + rest, handle, isText) == Ok(c, rest)
  {
    var h, p := EncodeHeader(c, handle), EncodePayload(c.payload, trailer);
    ConcatAssociates(h, p, rest);
    TakeAppend(h, p + rest);
    HeaderRoundTrip(c, handle);
    PayloadRoundTrip(c, trailer, rest, isText);
  }

  /** Bit 15 of a 16-bit number is set exactly from 0x8000 on. */
  lemma ErrorTypes(replyType: nat)
    requires Fits(replyType, 2)
    ensures IsErrorType(replyType) <==> replyType >= 0x8000
  {
    Widths();
  }

  lemma {:induction false} PayloadRoundTrip(c: Chunk, trailer: bytes, rest: bytes, isText: bytes -> bool)
    requires Sendable(c, trailer, isText)
    ensures ParsePayload(EncodePayload(c.payload, trailer) + rest, c.flags, c.replyType, c.dataLength, isText)
         == Ok(c.payload, rest)
  {
    match c.payload
    case Nothing =>
      assert [] + rest == rest;
    case BlockStatus(contextId, ds) =>
      StatusRoundTrip(contextId, ds, rest);
    case OffsetData(offset, data) =>
      DataRoundTrip(offset, data, rest);
    case OffsetHole(offset, holeSize) =>
      HoleRoundTrip(offset, holeSize, rest);
    case ErrorReply(error, message, at) =>
      ErrorTypes(c.replyType);
      ErrorRoundTrip(error, message, trailer, c.replyType, rest, isText);
  }

  // ---------------------------------------------------------------------------------------
  // What parses is what a server may send.

  /** Encoding what was decoded gives the bytes back. */
  lemma {:induction false} FieldBack(s: bytes, at: nat, n: nat)
    requires at + n <= |s|
    ensures ToBe(Field(s, at, n), n) == s[at..at + n] && Fits(Field(s, at, n), n)
  {
    ToFromBe(s[at..at + n]);
  }

  lemma {:induction false} DescriptorsSound(data: bytes)
    requires |data| % 8 == 0
    ensures EncodeDescriptors(Descriptors(data)) == data
    ensures forall i :: 0 <= i < |Descriptors(data)| ==> Fits(Descriptors(data)[i].0, 4) && Fits(Descriptors(data)[i].1, 4)
  {
    if data != [] {
      FieldBack(data, 0, 4);
      FieldBack(data, 4, 4);
      DescriptorsSound(data[8..]);
      assert Descriptors(data)[1..] == Descriptors(data[8..]);
      assert data == data[0..4] + data[4..8] + data[8..];
    }
  }

  lemma {:induction false} HeaderSound(h: bytes, c: Chunk, handle: nat)
    requires |h| == HEADER_LENGTH && Field(h, 0, 4) == STRUCTURED_REPLY_MAGIC && Field(h, 8, 8) == handle
    requires c.flags == Field(h, 4, 2) && c.replyType == Field(h, 6, 2) && c.dataLength == Field(h, 16, 4)
    ensures EncodeHeader(c, handle) == h
    ensures Fits(c.flags, 2) && Fits(c.replyType, 2) && Fits(c.dataLength, 4) && Fits(handle, 8)
  {
    var fields := HeaderFields(c, handle);
    HeaderStarts(c, handle);
    FieldBack(h, 0, 4);
    FieldBack(h, 4, 2);
    FieldBack(h, 6, 2);
    FieldBack(h, 8, 8);
    FieldBack(h, 16, 4);
    assert StandsIn(fields, 0, h) && StandsIn(fields, 1, h) && StandsIn(fields, 2, h) && StandsIn(fields, 3, h)
        && StandsIn(fields, 4, h);
    PackSlices(fields, h, 5);
    assert fields[..5] == fields;
    assert h[..20] == h;
  }

  /** A payload that parses, with what follows the message if it is an error. */
  ghost predicate PayloadStands(p: Payload, flags: nat, replyType: nat, length: nat, trailer: bytes, isText: bytes -> bool,
                                stream: bytes, rest: bytes) {
    && stream == EncodePayload(p, trailer) + rest
    && (Fits(flags, 2) && Fits(length, 4) ==> Sendable(Chunk(flags, replyType, length, p), trailer, isText))
  }

  lemma {:induction false} TakenApart(stream: bytes, n: nat)
    ensures Take(stream, n).Ok? ==> stream == Take(stream, n).value + Take(stream, n).rest && |Take(stream, n).value| == n
  {
  }

  lemma {:induction false} StatusSound(stream: bytes, flags: nat, length: nat, isText: bytes -> bool)
    requires ParseBlockStatus(stream, length).Ok?
    ensures var r := ParseBlockStatus(stream, length); PayloadStands(r.value, flags, 5, length, [], isText, stream, r.rest)
  {
    var data := Take(stream, length).value;
    TakenApart(stream, length);
    FieldBack(data, 0, 4);
    DescriptorsSound(data[4..]);
    assert data == data[0..4] + data[4..];
    Widths();
  }

  lemma {:induction false} DataSound(stream: bytes, flags: nat, length: nat, isText: bytes -> bool)
    requires ParseOffsetData(stream, length).Ok?
    ensures var r := ParseOffsetData(stream, length); PayloadStands(r.value, flags, 1, length, [], isText, stream, r.rest)
  {
    TakenApart(stream, 8);
    var head, more := Take(stream, 8).value, Take(stream, 8).rest;
    TakenApart(more, length - 8);
    FieldBack(head, 0, 8);
    assert head[0..8] == head;
    ConcatAssociates(head, Take(more, length - 8).value, Take(more, length - 8).rest);
    Widths();
  }

  lemma {:induction false} HoleSound(stream: bytes, flags: nat, length: nat, isText: bytes -> bool)
    requires ParseOffsetHole(stream, length).Ok?
    ensures var r := ParseOffsetHole(stream, length); PayloadStands(r.value, flags, 2, length, [], isText, stream, r.rest)
  {
    var data := Take(stream, 12).value;
    TakenApart(stream, 12);
    FieldBack(data, 0, 8);
    FieldBack(data, 8, 4);
    assert data == data[0..8] + data[8..12];
    Widths();
  }

  lemma {:induction false} ErrorSound(stream: bytes, flags: nat, length: nat, replyType: nat, isText: bytes -> bool)
    returns (trailer: bytes)
    requires ParseError(stream, length, replyType, isText).Ok? && IsErrorType(replyType) && Fits(replyType, 2)
    ensures var r := ParseError(stream, length, replyType, isText);
            PayloadStands(r.value, flags, replyType, length, trailer, isText, stream, r.rest)
  {
    TakenApart(stream, 6);
    var head, more := Take(stream, 6).value, Take(stream, 6).rest;
    TakenApart(more, length - 6);
    var data := Take(more, length - 6).value;
    var n := Field(head, 4, 2);
    trailer := data[n..];
    FieldBack(head, 0, 4);
    FieldBack(head, 4, 2);
    assert head == head[0..4] + head[4..6] && data == data[..n] + trailer;
    ConcatAssociates(head, data, Take(more, length - 6).rest);
    ErrorOffsetUnreached(replyType);
    ErrorTypes(replyType);
  }

  lemma {:induction false} PayloadSound(stream: bytes, flags: nat, replyType: nat, length: nat, isText: bytes -> bool)
    returns (trailer: bytes)
    requires ParsePayload(stream, flags, replyType, length, isText).Ok? && Fits(replyType, 2)
    ensures var r := ParsePayload(stream, flags, replyType, length, isText);
            PayloadStands(r.value, flags, replyType, length, trailer, isText, stream, r.rest)
  {
    trailer := [];
    if replyType == TYPE_BLOCK_STATUS {
      StatusSound(stream, flags, length, isText);
    } else if replyType == TYPE_NONE {
      assert [] + stream == stream;
    } else if replyType == TYPE_OFFSET_DATA {
      DataSound(stream, flags, length, isText);
    } else if replyType == TYPE_OFFSET_HOLE {
      HoleSound(stream, flags, length, isText);
    } else {
      trailer := ErrorSound(stream, flags, length, replyType, isText);
    }
  }

  /** Conversely, what parses under a number is the encoding, under that number, of a chunk that may be sent. */
  lemma {:induction false} ChunkSound(stream: bytes, handle: nat, isText: bytes -> bool) returns (trailer: bytes)
    requires ParseChunk(stream, handle, isText).Ok?
    ensures var r := ParseChunk(stream, handle, isText);
            && Sendable(r.value, trailer, isText) && Fits(handle, 8)
            && stream == EncodeChunk(r.value, handle, trailer) + r.rest
  {
    var h, more := stream[..HEADER_LENGTH], stream[HEADER_LENGTH..];
    var r := ParseChunk(stream, handle, isText);
    HeaderSound(h, r.value, handle);
    trailer := PayloadSound(more, r.value.flags, r.value.replyType, r.value.dataLength, isText);
    ConcatAssociates(h, EncodePayload(r.value.payload, trailer), r.rest);
    assert stream == h + more;
  }

  function EncodeReply(chunks: seq<Chunk>, handle: nat): bytes {
    if chunks == [] then [] else EncodeChunk(chunks[0], handle, []) + EncodeReply(chunks[1..], handle)
  }

  /** A reply is its first chunk and, unless that is final, the reply after it. */
  lemma {:induction false} ReplyStep(stream: bytes, handle: nat, isText: bytes -> bool, chunk: Chunk, more: bytes,
                                     chunks: seq<Chunk>, rest: bytes)
    requires ParseChunk(stream, handle, isText) == Ok(chunk, more)
    requires if IsFinal(chunk.flags) then chunks == [] && more == rest else ParseReply(more, handle, isText) == Ok(chunks, rest)
    ensures ParseReply(stream, handle, isText) == Ok([chunk] + chunks, rest)
  {
    assert [chunk] + [] == [chunk];
  }

  /** A run of chunks of which only the last is final. */
  ghost predicate SendableRun(chunks: seq<Chunk>, isText: bytes -> bool) {
    && chunks != []
    && (forall i :: 0 <= i < |chunks| ==> Sendable(chunks[i], [], isText))
    && forall i :: 0 <= i < |chunks| ==> (chunks[i].flags % 2 == 1 <==> i == |chunks| - 1)
  }

  lemma {:induction false} SendableRest(chunks: seq<Chunk>, isText: bytes -> bool)
    requires SendableRun(chunks, isText)
    ensures Sendable(chunks[0], [], isText) && (IsFinal(chunks[0].flags) <==> chunks[1..] == [])
    ensures chunks[1..] != [] ==> SendableRun(chunks[1..], isText)
  {
  }

  /** Parsing a reply inverts encoding it and leaves the next reply in the stream untouched. */
  lemma {:induction false} ReplyRoundTrip(chunks: seq<Chunk>, handle: nat, rest: bytes, isText: bytes -> bool)
    requires SendableRun(chunks, isText) && Fits(handle, 8)
    ensures ParseReply(EncodeReply(chunks, handle) + rest, handle, isText) == Ok(chunks, rest)
  {
    var first, more := EncodeChunk(chunks[0], handle, []), EncodeReply(chunks[1..], handle);
    SendableRest(chunks, isText);
    HeadTail(chunks);
    ConcatAssociates(first, more, rest);
    ChunkRoundTrip(chunks[0], handle, [], more + rest, isText);
    if chunks[1..] != [] {
      ReplyRoundTrip(chunks[1..], handle, rest, isText);
    } else {
      assert more + rest == rest;
    }
    ReplyStep(first + (more + rest), handle, isText, chunks[0], more + rest, chunks[1..], rest);
  }

  // ---------------------------------------------------------------------------------------
  // Requests ("Request message").

  const REQUEST_MAGIC: nat := 0x25609513
  const CMD_BLOCK_STATUS: nat := 7

  datatype Request = Request(kind: nat, handle: nat, offset: nat, length: nat) {
    /** Otherwise packing it is an error. */
    predicate Packable() {
      Fits(kind, 2) && Fits(handle, 8) && Fits(offset, 8) && Fits(length, 4)
    }

    function Fields(): seq<Packed> {
      [Packed(REQUEST_MAGIC, 4), Packed(0, 2), Packed(kind, 2), Packed(handle, 8), Packed(offset, 8), Packed(length, 4)]
    }
  }

  function EncodeRequest(q: Request): bytes {
    Pack(q.Fields())
  }

  /** What a server reads, at the byte offsets of the protocol; it refuses flags it does not know. */
  function DecodeRequest(m: bytes): Option<Request> {
    if |m| != 28 || Field(m, 0, 4) != 0x25609513 || Field(m, 4, 2) != 0 then None
    else Some(Request(Field(m, 6, 2), Field(m, 8, 8), Field(m, 16, 8), Field(m, 24, 4)))
  }

  lemma {:induction false} RequestStarts(fields: seq<Packed>, q: Request)
    requires fields == q.Fields()
    ensures Start(fields, 0) == 0 && Start(fields, 1) == 4 && Start(fields, 2) == 6 && Start(fields, 3) == 8
    ensures Start(fields, 4) == 16 && Start(fields, 5) == 24 && Start(fields, 6) == 28
  {
    assert Start(fields, 1) == 4;
    assert Start(fields, 3) == 8;
    assert Start(fields, 5) == 24;
  }

  /** A server decodes what was encoded. */
  lemma {:induction false} RequestRoundTrip(q: Request)
    requires q.Packable()
    ensures |EncodeRequest(q)| == 28 && DecodeRequest(EncodeRequest(q)) == Some(q)
  {
    var fields := q.Fields();
    Widths();
    RequestStarts(fields, q);
    PackLength(fields);
    PackedAt(fields, 0);
    PackedAt(fields, 1);
    PackedAt(fields, 2);
    PackedAt(fields, 3);
    PackedAt(fields, 4);
    PackedAt(fields, 5);
  }
}
