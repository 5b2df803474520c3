/** The NBD client over a socket that hands out bytes in pieces of its choice. */
module NbdClient {
  import opened Bytes
  import opened Wrappers
  import opened NbdProtocol

  class Client {
    /** What the peer has sent and the client has not received. */
    var incoming: bytes
    /** The number of the last request. */
    var handle: nat
    /** What the client has sent. */
    var sent: bytes
    /** Whether a sequence of bytes is text in the encoding of error messages. */
    const isText: bytes -> bool
    /** What the peer sends once it has received these bytes, and before it receives more. */
    const peer: bytes -> bytes

    constructor (handle: nat, isText: bytes -> bool, peer: bytes -> bytes)
      ensures this.handle == handle && this.isText == isText && this.peer == peer
      ensures sent == [] && incoming == peer([])
    {
      this.handle, this.isText, this.peer := handle, isText, peer;
      sent, incoming := [], peer([]);
    }

    /** `sendall`: the peer gets it and reacts. */
    method SendAll(message: bytes)
      modifies this`sent, this`incoming
      ensures sent == old(sent) + message && incoming == old(incoming) + peer(sent)
    {
      sent := sent + message;
      incoming := incoming + peer(sent);
    }

    /** `recv`: some of what is there, at least a byte, or nothing once the stream has ended. */
    method Recv(most: nat) returns (piece: bytes)
      requires most > 0
      modifies this`incoming
      ensures piece + incoming == old(incoming) && |piece| <= most
      ensures piece == [] <==> old(incoming) == []
    {
      if incoming == [] {
        return [];
      }
      var n :| 1 <= n <= most && n <= |incoming|;
      piece, incoming := incoming[..n], incoming[n..];
    }

    /** Fills a buffer of the given length, however the bytes come in. */
    method RecvAll(length: nat) returns (r: Parsed<bytes>)
      modifies this`incoming
      ensures r == Take(old(incoming), length)
      ensures r.Ok? ==> incoming == r.rest
    {
      var data := new byte[length](_ => 0);
      var bytesLeft := length;
      ghost var start := incoming;
      while bytesLeft > 0
        invariant 0 <= bytesLeft <= length
        invariant data[..length - bytesLeft] + incoming == start
        modifies this`incoming, data
      {
        var done := length - bytesLeft;
        ghost var before := data[..done];
        var piece := Recv(bytesLeft);
        if piece == [] {
          assert |start| == done;
          return Fail(EndOfStream);
        }
        forall k | 0 <= k < |piece| {
          data[done + k] := piece[k];
        }
        assert data[..done + |piece|] == before + piece;
        assert before + piece + incoming == before + (piece + incoming);
        bytesLeft := bytesLeft - |piece|;
      }
      assert start[..length] == data[..];
      assert start[length..] == incoming;
      r := Ok(data[..], incoming);
    }

    /** Reads the descriptors of a block status payload one by one. */
    method ParseDescriptors(data: bytes) returns (ds: seq<(nat, nat)>)
      requires |data| % 8 == 0
      ensures ds == Descriptors(data)
    {
      var rest := data;
      ds := [];
      while rest != []
        invariant |rest| % 8 == 0
        invariant ds + Descriptors(rest) == Descriptors(data)
        decreases |rest|
      {
        var d := (Field(rest, 0, 4), Field(rest, 4, 4));
        assert ds + ([d] + Descriptors(rest[8..])) == (ds + [d]) + Descriptors(rest[8..]);
        ds := ds + [d];
        rest := rest[8..];
      }
    }

    method ReadPayload(flags: nat, replyType: nat, length: nat) returns (r: Parsed<Payload>)
      modifies this`incoming
      ensures r == ParsePayload(old(incoming), flags, replyType, length, isText)
      ensures r.Ok? ==> incoming == r.rest
    {
      if replyType == TYPE_BLOCK_STATUS {
        if !(length >= 12 && length % 8 == 4) {
          return Fail(ProtocolError);
        }
        var data := RecvAll(length);
        if data.Fail? {
          return Fail(data.why);
        }
        var ds := ParseDescriptors(data.value[4..]);
        r := Ok(BlockStatus(Field(data.value, 0, 4), ds), incoming);
      } else if replyType == TYPE_NONE {
        if !(length == 0 && IsFinal(flags)) {
          return Fail(ProtocolError);
        }
        r := Ok(Nothing, incoming);
      } else if replyType == TYPE_OFFSET_DATA {
        r := ReadOffsetData(length);
      } else if replyType == TYPE_OFFSET_HOLE {
        if length != 12 {
          return Fail(ProtocolError);
        }
        var data := RecvAll(12);
        if data.Fail? {
          return Fail(data.why);
        }
        r := Ok(OffsetHole(Field(data.value, 0, 8), Field(data.value, 8, 4)), incoming);
      } else if IsErrorType(replyType) {
        r := ReadError(replyType, length);
      } else {
        r := Fail(UnexpectedType);
      }
    }

    method ReadOffsetData(length: nat) returns (r: Parsed<Payload>)
      modifies this`incoming
      ensures r == ParseOffsetData(old(incoming), length)
      ensures r.Ok? ==> incoming == r.rest
    {
      if length < 9 {
        return Fail(ProtocolError);
      }
      var head := RecvAll(8);
      if head.Fail? {
        return Fail(head.why);
      }
      var data := RecvAll(length - 8);
      if data.Fail? {
        return Fail(data.why);
      }
      r := Ok(OffsetData(Field(head.value, 0, 8), data.value), incoming);
    }

    method ReadError(replyType: nat, length: nat) returns (r: Parsed<Payload>)
      modifies this`incoming
      ensures r == ParseError(old(incoming), length, replyType, isText)
      ensures r.Ok? ==> incoming == r.rest
    {
      if length < 6 {
        return Fail(ProtocolError);
      }
      var head := RecvAll(6);
      if head.Fail? {
        return Fail(head.why);
      }
      var error, messageLength := Field(head.value, 0, 4), Field(head.value, 4, 2);
      if messageLength > length - 6 {
        return Fail(ProtocolError);
      }
      var data := RecvAll(length - 6);
      if data.Fail? {
        return Fail(data.why);
      }
      var message, trailer := data.value[..messageLength], data.value[messageLength..];
      if !isText(message) {
        return Fail(BadText);
      }
      if replyType != TYPE_ERROR_OFFSET {
        return Ok(ErrorReply(error, message, None), incoming);
      }
      if |trailer| != 8 {
        return Fail(BadLength);
      }
      r := Ok(ErrorReply(error, message, Some(Field(trailer, 0, 8))), incoming);
    }

    method ParseStructuredReplyChunk() returns (r: Parsed<Chunk>)
      modifies this`incoming
      ensures r == ParseChunk(old(incoming), handle, isText)
      ensures r.Ok? ==> incoming == r.rest
    {
      var header := RecvAll(HEADER_LENGTH);
      if header.Fail? {
        return Fail(header.why);
      }
      var h := header.value;
      if Field(h, 0, 4) != STRUCTURED_REPLY_MAGIC {
        return Fail(ProtocolError);
      }
      if Field(h, 8, 8) != handle {
        return Fail(WrongHandle);
      }
      var payload := ReadPayload(Field(h, 4, 2), Field(h, 6, 2), Field(h, 16, 4));
      if payload.Fail? {
        return Fail(payload.why);
      }
      r := Ok(Chunk(Field(h, 4, 2), Field(h, 6, 2), Field(h, 16, 4), payload.value), incoming);
    }

    /** All the chunks of a reply, as `query_block_status` collects them. */
    method ParseStructuredReplyChunks() returns (r: Parsed<seq<Chunk>>)
      modifies this`incoming
      ensures r == ParseReply(old(incoming), handle, isText)
      ensures r.Ok? ==> incoming == r.rest
    {
      var chunks := [];
      ghost var goal := ParseReply(incoming, handle, isText);
      AfterNone(goal);
      while true
        invariant goal == After(chunks, ParseReply(incoming, handle, isText))
        decreases |incoming|
      {
        ChunkConsumes(incoming, handle, isText);
        ghost var rest := ParseReply(incoming, handle, isText);
        var chunk := ParseStructuredReplyChunk();
        if chunk.Fail? {
          return Fail(chunk.why);
        }
        if IsFinal(chunk.value.flags) {
          return Ok(chunks + [chunk.value], incoming);
        }
        AfterOne(chunks, chunk.value, ParseReply(incoming, handle, isText));
        chunks := chunks + [chunk.value];
      }
    }

    /** Sends a request under a new number, unless a number in it is too large for its field. */
    method SendRequestHeader(kind: nat, offset: nat, length: nat) returns (ok: bool)
      modifies this`handle, this`sent, this`incoming
      ensures handle == old(handle) + 1
      ensures ok <==> kind < 0x1_0000 && handle < U64_LIMIT && offset < U64_LIMIT && length < 0x1_0000_0000
      ensures !ok ==> sent == old(sent) && incoming == old(incoming)
      ensures ok ==> |sent| == |old(sent)| + 28 && sent[..|old(sent)|] == old(sent)
      ensures ok ==> DecodeRequest(sent[|old(sent)|..]) == Some(Request(kind, handle, offset, length))
      ensures ok ==> incoming == old(incoming) + peer(sent)
    {
      handle := handle + 1;
      var q := Request(kind, handle, offset, length);
      Widths();
      ok := q.Packable();
      if ok {
        RequestRoundTrip(q);
        SendAll(EncodeRequest(q));
        assert sent[|old(sent)|..] == EncodeRequest(q);
      }
    }

    /** Sends the request and collects the reply to its number. */
    method QueryBlockStatus(offset: nat, length: nat) returns (r: Parsed<seq<Chunk>>)
      modifies this
      ensures handle == old(handle) + 1
      ensures if handle < U64_LIMIT && offset < U64_LIMIT && length < 0x1_0000_0000 then
                && |sent| == |old(sent)| + 28 && sent[..|old(sent)|] == old(sent)
                && DecodeRequest(sent[|old(sent)|..]) == Some(Request(7, handle, offset, length))
                && r == ParseReply(old(incoming) + peer(sent), handle, isText)
                && (r.Ok? ==> incoming == r.rest)
              else
                r == Fail(BadNumber) && sent == old(sent) && incoming == old(incoming)
    {
      var ok := SendRequestHeader(CMD_BLOCK_STATUS, offset, length);
      if !ok {
        return Fail(BadNumber);
      }
      r := ParseStructuredReplyChunks();
    }
  }

  const U64_LIMIT: nat := 0x1_0000_0000_0000_0000

  /** A parse of the remaining chunks, with those already read in front. */
  ghost function After(chunks: seq<Chunk>, r: Parsed<seq<Chunk>>): Parsed<seq<Chunk>> {
    match r
    case Fail(why) => Fail(why)
    case Ok(more, rest) => Ok(chunks + more, rest)
  }

  lemma AfterNone(r: Parsed<seq<Chunk>>)
    ensures After([], r) == r
  {
    match r
    case Fail(_) =>
    case Ok(more, rest) =>
      assert [] + more == more;
  }

  lemma AfterOne(chunks: seq<Chunk>, chunk: Chunk, r: Parsed<seq<Chunk>>)
    ensures After(chunks, After([chunk], r)) == After(chunks + [chunk], r)
  {
    match r
    case Fail(_) =>
    case Ok(more, rest) =>
      assert chunks + ([chunk] + more) == (chunks + [chunk]) + more;
  }
}
