/** DNS over TCP: two-byte length prefixes around queries and replies on one stream (section 4.2.2 of RFC 1035). */
module TcpFraming {
  import opened Basics

  type Byte = b: int | 0 <= b < 256
  type Bytes = seq<Byte>

  /** The length is cast to sixteen bits, so a longer message announces its length modulo 65536. */
  function Prefixed(m: Bytes): Bytes {
    var n := |m| % 65536;
    [n / 256, n % 256] + m
  }

  function Announced(stream: Bytes): nat
    requires |stream| >= 2
  {
    256 * (stream[0] as int) + stream[1] as int
  }

  predicate HasFrame(stream: Bytes) {
    |stream| >= 2 && |stream| >= 2 + Announced(stream)
  }

  function Body(stream: Bytes): Bytes
    requires HasFrame(stream)
  {
    stream[2..2 + Announced(stream)]
  }

  function Rest(stream: Bytes): Bytes
    requires HasFrame(stream)
  {
    stream[2 + Announced(stream)..]
  }

  /** The whole frames of a stream; what is left over at the end is dropped. */
  function Messages(stream: Bytes): seq<Bytes>
    decreases |stream|
  {
    if HasFrame(stream) then [Body(stream)] + Messages(Rest(stream)) else []
  }

  function Framed(messages: seq<Bytes>): Bytes {
    if messages == [] then [] else Prefixed(messages[0]) + Framed(messages[1..])
  }

  /** The replies a handler gives, its failures skipped. */
  function Replies(handle: Bytes -> Option<Bytes>, requests: seq<Bytes>): seq<Bytes> {
    if requests == [] then []
    else if handle(requests[0]).Some? then [handle(requests[0]).value] + Replies(handle, requests[1..])
    else Replies(handle, requests[1..])
  }

  /** One connection: reads frames until one is incomplete, and writes the replies in request order. */
  method Serve(handle: Bytes -> Option<Bytes>, stream: Bytes) returns (written: Bytes)
    ensures written == Framed(Replies(handle, Messages(stream)))
  {
    written := [];
    var left := stream;
    while HasFrame(left)
      invariant Framed(Replies(handle, Messages(stream))) == written + Framed(Replies(handle, Messages(left)))
      decreases |left|
    {
      ServeOne(handle, Body(left), Messages(Rest(left)));
      var reply := handle(Body(left));
      if reply.Some? {
        written := written + Prefixed(reply.value);
      }
      left := Rest(left);
    }
    assert Framed(Replies(handle, Messages(left))) == [];
  }

  lemma ServeOne(handle: Bytes -> Option<Bytes>, request: Bytes, rest: seq<Bytes>)
    ensures Framed(Replies(handle, [request] + rest)) ==
      (if handle(request).Some? then Prefixed(handle(request).value) else []) + Framed(Replies(handle, rest))
  {
    assert ([request] + rest)[1..] == rest;
    if handle(request).Some? {
      var reply := handle(request).value;
      assert ([reply] + Replies(handle, rest))[1..] == Replies(handle, rest);
    }
  }

  predicate Short(messages: seq<Bytes>) {
    forall m :: m in messages ==> |m| < 65536
  }

  lemma FrameReads(m: Bytes, tail: Bytes)
    requires |m| < 65536
    ensures HasFrame(Prefixed(m) + tail) && Body(Prefixed(m) + tail) == m && Rest(Prefixed(m) + tail) == tail
  {
  }

  /** Decoding undoes encoding, whatever incomplete frame follows. */
  lemma {:induction false} MessagesOfFramed(messages: seq<Bytes>, tail: Bytes)
    requires Short(messages) && !HasFrame(tail)
    ensures Messages(Framed(messages) + tail) == messages
  {
    if messages == [] {
      assert Framed(messages) + tail == tail;
    } else {
      var rest := Framed(messages[1..]) + tail;
      FrameReads(messages[0], rest);
      assert Framed(messages) + tail == Prefixed(messages[0]) + rest;
      MessagesOfFramed(messages[1..], tail);
    }
  }

  /** A client that frames its requests reads back exactly the successful replies, in request order. */
  lemma ClientReadsReplies(handle: Bytes -> Option<Bytes>, requests: seq<Bytes>, partial: Bytes)
    requires Short(requests) && !HasFrame(partial) && Short(Replies(handle, requests))
    ensures Messages(Framed(Replies(handle, Messages(Framed(requests) + partial)))) == Replies(handle, requests)
  {
    var replies := Replies(handle, requests);
    MessagesOfFramed(requests, partial);
    MessagesOfFramed(replies, []);
    assert Framed(replies) + [] == Framed(replies);
  }

  /** And only then: one reply of 65536 bytes or more, and the client does not read that list. */
  lemma {:induction false} LongReplyIsLost(messages: seq<Bytes>)
    requires Messages(Framed(messages)) == messages
    ensures Short(messages)
  {
    if messages != [] {
      var s := Framed(messages);
      assert HasFrame(s);
      assert messages[0] == Body(s) && messages[1..] == Messages(Rest(s));
      assert Announced(s) == |messages[0]| % 65536;
      assert Rest(s) == Framed(messages[1..]);
      LongReplyIsLost(messages[1..]);
    }
  }
}
