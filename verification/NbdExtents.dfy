/**
 `_get_extents`: stitching the block status of a region from the replies of a server, over the
 client and the byte stream it reads.
 */
module NbdExtents {
  import opened Wrappers
  import opened Collections
  import opened Bytes
  import opened NbdProtocol
  import opened NbdClient

  /** The largest multiple of 512 below 2^32. */
  const MAX_REQUEST_LEN: nat := 0xFFFF_FE00

  datatype Extent = Extent(length: nat, flags: nat)

  /** How a server answers: the chunks for an offset, a length and the number of the request. */
  type Server = (nat, nat, nat) -> seq<Chunk>

  /** The flags of every byte of some extents, in order. */
  function PerByte(extents: seq<Extent>): seq<nat> {
    if extents == [] then []
    else PerByte(extents[..|extents| - 1]) + Repeat(extents[|extents| - 1].flags, extents[|extents| - 1].length)
  }

  function Repeat(flags: nat, n: nat): (r: seq<nat>)
    ensures |r| == n
  {
    seq(n, _ => flags)
  }

  /** The status of the bytes of `[from, to)`. */
  ghost function Region(status: nat -> nat, from: nat, to: nat): (r: seq<nat>)
    requires from <= to
    ensures |r| == to - from
  {
    seq(to - from, i requires 0 <= i < to - from => status(from + i))
  }

  /** The single block status reply the client accepts. */
  predicate IsStatusReply(reply: seq<Chunk>, contextId: nat) {
    |reply| == 1 && reply[0].payload.BlockStatus? && reply[0].replyType == TYPE_BLOCK_STATUS
    && reply[0].payload.contextId == contextId
  }

  /** Where the descriptors before the `i`-th end, starting from `offset`. */
  function EndOf(ds: seq<(nat, nat)>, i: nat, offset: nat): nat
    requires i <= |ds|
  {
    if i == 0 then offset else EndOf(ds, i - 1, offset) + ds[i - 1].0
  }

  /** Descriptor `i` tells the status of the bytes it is about. */
  ghost predicate TellsAt(ds: seq<(nat, nat)>, offset: nat, size: nat, status: nat -> nat, i: nat) {
    i < |ds| ==> forall x :: EndOf(ds, i, offset) <= x < EndOf(ds, i, offset) + ds[i].0 && x < size ==> status(x) == ds[i].1
  }

  /**
   Descriptors tell the status from `offset` on and get somewhere; only the last may pass the
   requested length, and some may be empty.
   */
  ghost predicate Describes(ds: seq<(nat, nat)>, offset: nat, length: nat, size: nat, status: nat -> nat) {
    && ds != []
    && offset < EndOf(ds, |ds|, offset) && EndOf(ds, |ds| - 1, offset) <= offset + length
    && forall i: nat :: TellsAt(ds, offset, size, status, i)
  }

  /** One chunk of block status, for the one context. */
  ghost predicate OneStatus(reply: seq<Chunk>, contextId: nat) {
    |reply| == 1 && reply[0].replyType == 5 && reply[0].payload.BlockStatus? && reply[0].payload.contextId == contextId
  }

  /** A request in bounds is answered truthfully, split as the server likes. */
  ghost predicate TruthfulAt(server: Server, contextId: nat, size: nat, status: nat -> nat, isText: bytes -> bool,
                             offset: nat, length: nat, k: nat) {
    0 < length && offset + length <= size ==>
      && OneStatus(server(offset, length, k), contextId) && SendableRun(server(offset, length, k), isText)
      && Describes(server(offset, length, k)[0].payload.descriptors, offset, length, size, status)
  }

  ghost predicate Truthful(server: Server, contextId: nat, size: nat, status: nat -> nat, isText: bytes -> bool) {
    forall offset: nat, length: nat, k: nat :: TruthfulAt(server, contextId, size, status, isText, offset, length, k)
  }

  /** Having received a block status request last, the peer sends the server's answer to what it decodes from it. */
  ghost predicate AnswersAt(peer: bytes -> bytes, server: Server, received: bytes) {
    |received| >= 28 ==>
      match DecodeRequest(received[|received| - 28..])
      case None => true
      case Some(q) => q.kind == 7 ==> peer(received) == EncodeReply(server(q.offset, q.length, q.handle), q.handle)
  }

  ghost predicate Answers(peer: bytes -> bytes, server: Server) {
    forall received: bytes :: AnswersAt(peer, server, received)
  }

  /** All that is left, or as much of it as a request can ask for in whole sectors of 512 bytes. */
  function RequestLength(at: nat, end: nat): (r: nat)
    requires at <= end
    ensures r < 0x1_0000_0000 && r <= end - at
    ensures r < end - at ==> r % 512 == 0 && r + 512 >= 0x1_0000_0000
  {
    if MAX_REQUEST_LEN < end - at then MAX_REQUEST_LEN else end - at
  }

  /** Where a client goes on after a reply: it cuts the last extent to the region. */
  function NextAt(ds: seq<(nat, nat)>, at: nat, end: nat): nat {
    if EndOf(ds, |ds|, at) < end then EndOf(ds, |ds|, at) else end
  }

  lemma {:induction false} EndGrows(ds: seq<(nat, nat)>, i: nat, j: nat, offset: nat)
    requires i <= j <= |ds|
    ensures offset <= EndOf(ds, i, offset) <= EndOf(ds, j, offset)
    decreases j
  {
    if i < j {
      EndGrows(ds, i, j - 1, offset);
    } else if j > 0 {
      EndGrows(ds, i - 1, j - 1, offset);
    }
  }

  lemma {:induction false} DescribedPart(ds: seq<(nat, nat)>, start: nat, length: nat, size: nat, status: nat -> nat, i: nat, n: nat)
    requires Describes(ds, start, length, size, status) && start + length <= size
    requires i < |ds| && n <= ds[i].0
    requires i + 1 == |ds| ==> EndOf(ds, i, start) + n <= size
    ensures forall x :: EndOf(ds, i, start) <= x < EndOf(ds, i, start) + n ==> status(x) == ds[i].1
  {
    assert TellsAt(ds, start, size, status, i);
    if i + 1 < |ds| {
      EndGrows(ds, i + 1, |ds| - 1, start);
    }
  }

  /** What is yielded covers what was passed over, and truthfully if the server is truthful. */
  ghost predicate Covered(extents: seq<Extent>, from: nat, to: nat, truthful: bool, status: nat -> nat) {
    && from <= to && |PerByte(extents)| == to - from
    && (truthful ==> PerByte(extents) == Region(status, from, to))
  }

  lemma {:induction false} CoveredNext(extents: seq<Extent>, from: nat, to: nat, truthful: bool, status: nat -> nat, e: Extent)
    requires Covered(extents, from, to, truthful, status)
    requires truthful ==> forall x :: to <= x < to + e.length ==> status(x) == e.flags
    ensures Covered(extents + [e], from, to + e.length, truthful, status)
  {
    assert (extents + [e])[..|extents|] == extents;
    if truthful {
      assert Region(status, from, to + e.length) == Region(status, from, to) + Repeat(e.flags, e.length);
    }
  }

  /** The inner loop: yields the descriptors of one reply, the last cut to the region. */
  method YieldDescriptors(ds: seq<(nat, nat)>, start: nat, end: nat, before: seq<Extent>,
                          ghost from: nat, ghost truthful: bool, ghost status: nat -> nat, ghost size: nat,
                          ghost length: nat)
    returns (ok: bool, extents: seq<Extent>, offset: nat)
    requires from <= start < end <= size
    requires truthful ==> Describes(ds, start, length, size, status) && start + length <= end
    requires Covered(before, from, start, truthful, status)
    ensures truthful ==> ok
    ensures ok ==> offset == NextAt(ds, start, end) && Covered(extents, from, offset, truthful, status)
  {
    offset := start;
    extents := before;
    for i := 0 to |ds|
      invariant start <= offset <= end
      invariant offset == if i < |ds| then EndOf(ds, i, start) else NextAt(ds, start, end)
      invariant Covered(extents, from, offset, truthful, status)
    {
      var extentLength, flags := ds[i].0, ds[i].1;
      if i + 1 == |ds| {
        extentLength := if extentLength < end - offset then extentLength else end - offset;
      } else {
        EndGrows(ds, i + 1, |ds| - 1, start);
      }
      if truthful {
        DescribedPart(ds, start, length, size, status, i, extentLength);
      }
      CoveredNext(extents, from, offset, truthful, status, Extent(extentLength, flags));
      extents := extents + [Extent(extentLength, flags)];
      offset := offset + extentLength;
      if offset > end {
        return false, extents, offset;
      }
    }
    ok := true;
  }

  /** The peer of a client is a truthful server, and nothing it has sent is unread. */
  ghost predicate Honest(client: Client, server: Server, contextId: nat, size: nat, status: nat -> nat)
    reads client
  {
    && Truthful(server, contextId, size, status, client.isText) && Answers(client.peer, server)
    && client.incoming == []
  }

  /** The reply of a truthful server is the one the client accepts, and takes it on. */
  lemma {:induction false} TruthfulReply(server: Server, contextId: nat, size: nat, status: nat -> nat, isText: bytes -> bool,
                                         k: nat, at: nat, end: nat)
    requires Truthful(server, contextId, size, status, isText) && at < end <= size
    ensures var reply := server(at, RequestLength(at, end), k);
            && OneStatus(reply, contextId) && SendableRun(reply, isText)
            && Describes(reply[0].payload.descriptors, at, RequestLength(at, end), size, status)
            && at < NextAt(reply[0].payload.descriptors, at, end) <= end
  {
    assert TruthfulAt(server, contextId, size, status, isText, at, RequestLength(at, end), k);
  }

  /** A peer that answers what it has received sends a reply that is parsed back, and nothing else. */
  lemma {:induction false} AnswerParsed(peer: bytes -> bytes, server: Server, isText: bytes -> bool, received: bytes,
                                        q: Request, reply: seq<Chunk>)
    requires Answers(peer, server) && |received| >= 28
    requires DecodeRequest(received[|received| - 28..]) == Some(q) && q.kind == 7 && Fits(q.handle, 8)
    requires reply == server(q.offset, q.length, q.handle) && SendableRun(reply, isText)
    ensures ParseReply(peer(received), q.handle, isText) == Ok(reply, [])
  {
    assert AnswersAt(peer, server, received);
    ReplyRoundTrip(reply, q.handle, [], isText);
    assert EncodeReply(reply, q.handle) + [] == EncodeReply(reply, q.handle);
  }

  /** One request and the descriptors of its reply. */
  method Ask(client: Client, contextId: nat, at: nat, length: nat)
    returns (ds: Option<seq<(nat, nat)>>, ghost parsed: Parsed<seq<Chunk>>)
    modifies client
    ensures client.handle == old(client.handle) + 1
    ensures ds.Some? ==> client.handle < U64_LIMIT
    ensures client.handle < U64_LIMIT && at < U64_LIMIT && length < 0x1_0000_0000 ==>
              && |client.sent| == old(|client.sent|) + 28
              && DecodeRequest(client.sent[|client.sent| - 28..]) == Some(Request(7, client.handle, at, length))
              && parsed == ParseReply(old(client.incoming) + client.peer(client.sent), client.handle, client.isText)
              && (parsed.Ok? ==> client.incoming == parsed.rest)
    ensures ds == if parsed.Ok? && OneStatus(parsed.value, contextId) then Some(parsed.value[0].payload.descriptors) else None
  {
    var replies := client.QueryBlockStatus(at, length);
    parsed := replies;
    if replies.Fail? || !IsStatusReply(replies.value, contextId) {
      return None, parsed;
    }
    ds := Some(replies.value[0].payload.descriptors);
  }

  /** A step of the conversation. */
  method Converse(client: Client, contextId: nat, at: nat, end: nat, ghost size: nat, ghost truthful: bool,
                  ghost server: Server, ghost status: nat -> nat)
    returns (ds: Option<seq<(nat, nat)>>)
    requires at < end <= size
    requires truthful ==> Honest(client, server, contextId, size, status) && client.handle + 1 < U64_LIMIT && size < U64_LIMIT
    modifies client
    ensures client.handle == old(client.handle) + 1
    ensures ds.Some? ==> client.handle < U64_LIMIT
    ensures truthful ==>
              && Honest(client, server, contextId, size, status)
              && ds.Some? && Describes(ds.value, at, RequestLength(at, end), size, status)
              && at < NextAt(ds.value, at, end)
  {
    ghost var reply := server(at, RequestLength(at, end), client.handle + 1);
    ghost var parsed;
    if truthful {
      TruthfulReply(server, contextId, size, status, client.isText, client.handle + 1, at, end);
    }
    ds, parsed := Ask(client, contextId, at, RequestLength(at, end));
    if truthful {
      Widths();
      AnswerParsed(client.peer, server, client.isText, client.sent, Request(7, client.handle, at, RequestLength(at, end)), reply);
      assert [] + client.peer(client.sent) == client.peer(client.sent);
    }
  }

  /**
   The extents of `[offset, offset + length)`. They cover it exactly whatever the peer sends. If the
   peer is a server that decodes the requests it receives and answers them truthfully, then however
   its replies are split and received the call succeeds, gives every byte its status and leaves
   nothing unread. With any peer it ends, at the latest when the request numbers have run out.
   */
  method GetExtents(client: Client, size: nat, offset: int, length: int, contextId: nat,
                    ghost server: Server, ghost status: nat -> nat)
    returns (r: Option<seq<Extent>>)
    modifies client
    ensures r.Some? ==> 0 <= offset && 0 < length && offset + length <= size && |PerByte(r.value)| == length
    ensures old(Honest(client, server, contextId, size, status)) && 0 <= offset && 0 < length && offset + length <= size
            && size < 0x1_0000_0000_0000_0000 && old(client.handle) + length < 0x1_0000_0000_0000_0000 ==>
              r.Some? && PerByte(r.value) == Region(status, offset, offset + length) && client.incoming == []
  {
    if offset < 0 || length <= 0 || offset + length > size {
      return None;
    }
    var end: nat := offset + length;
    var at: nat := offset;
    var extents := [];
    ghost var truthful := Honest(client, server, contextId, size, status)
                          && size < U64_LIMIT && client.handle + length < U64_LIMIT;
    while at < end
      invariant offset <= at <= end && Covered(extents, offset, at, truthful, status)
      invariant truthful ==> Honest(client, server, contextId, size, status) && client.handle + (end - at) < U64_LIMIT
      decreases U64_LIMIT - client.handle
    {
      var replies := Converse(client, contextId, at, end, size, truthful, server, status);
      if replies.None? {
        return None;
      }
      var ok;
      ok, extents, at := YieldDescriptors(replies.value, at, end, extents, offset, truthful, status, size, RequestLength(at, end));
      if !ok {
        return None;
      }
    }
    r := Some(extents);
  }
}
