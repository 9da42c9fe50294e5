/** Codec::onMessage and Codec::SendMsg over the concrete buffer. */
module Codec {
  import opened Endian
  import opened ByteBuffer
  import opened Framing
  import opened Dispatch

  /** The packets onMessage builds for the bodies of one connection. */
  function Packets(dnid: nat, bodies: seq<Bytes>, mallocZero: bool): (ps: seq<Packet>)
    ensures |ps| == |bodies|
  {
    if bodies == [] then []
    else [PacketOf(dnid, bodies[0], mallocZero)] + Packets(dnid, bodies[1..], mallocZero)
  }

  lemma OnePacket(dnid: nat, body: Bytes, mallocZero: bool)
    ensures Packets(dnid, [body], mallocZero) == [PacketOf(dnid, body, mallocZero)]
  {
  }

  lemma NoPackets(dnid: nat, mallocZero: bool)
    ensures Packets(dnid, [], mallocZero) == []
  {
  }

  lemma {:induction false} PacketsAppend(dnid: nat, a: seq<Bytes>, b: seq<Bytes>, mallocZero: bool)
    ensures Packets(dnid, a + b, mallocZero) == Packets(dnid, a, mallocZero) + Packets(dnid, b, mallocZero)
  {
    if a == [] {
      assert a + b == b;
    } else {
      assert (a + b)[1..] == a[1..] + b;
      PacketsAppend(dnid, a[1..], b, mallocZero);
    }
  }

  /** The first four readable bytes as a host integer. */
  method PeekLength(host: Host, buf: Buffer) returns (len: int)
    requires buf.Valid() && HEADER <= buf.writer - buf.reader
    ensures len == BodyLength(buf.Content())
  {
    var header := buf.data[buf.reader..buf.reader + HEADER];
    WireValue(host, header);
    len := Signed(NetworkToHost(host, Load(host, header), HEADER), HEADER);
    assert buf.Content()[..HEADER] == header;
  }

  /** Drops the header, copies the body out, hands it on and drops it. */
  method TakeBody(buf: Buffer, len: nat, dispatcher: Dispatcher, dnid: nat, mallocZero: bool) returns (ghost body: Bytes)
    requires buf.Valid() && HEADER + len <= buf.writer - buf.reader
    modifies buf, dispatcher`queue
    ensures buf.Valid() && buf.data == old(buf.data)
    ensures body == old(buf.Content()[HEADER..HEADER + len]) && buf.Content() == old(buf.Content()[HEADER + len..])
    ensures dispatcher.queue == old(dispatcher.queue) + Packets(dnid, [body], mallocZero)
  {
    hide Packets;
    ghost var before := buf.Content();
    Slices(before, len);
    buf.Retrieve(HEADER);
    ghost var rest := buf.Content();
    var data := buf.data[buf.reader..buf.reader + len];
    assert data == rest[..len];
    dispatcher.PushPack(PacketOf(dnid, data, mallocZero));
    OnePacket(dnid, data, mallocZero);
    body := data;
    assert buf.Content() == rest;
    buf.Retrieve(len);
  }

  lemma Slices(s: Bytes, len: nat)
    requires HEADER + len <= |s|
    ensures s[HEADER..][..len] == s[HEADER..HEADER + len] && s[HEADER..][len..] == s[HEADER + len..]
  {
  }

  /** One complete frame comes off the buffer and one more packet goes to the dispatcher. */
  method TakeFrame(buf: Buffer, len: nat, dispatcher: Dispatcher, dnid: nat, mallocZero: bool,
                   ghost stream: Bytes, ghost bodies: seq<Bytes>, ghost queued: seq<Packet>)
    returns (ghost more: seq<Bytes>)
    requires buf.Valid() && HasFrame(buf.Content()) && len == BodyLength(buf.Content())
    requires Split(stream, bodies, buf.Content())
    requires dispatcher.queue == queued + Packets(dnid, bodies, mallocZero)
    modifies buf, dispatcher`queue
    ensures buf.Valid() && buf.data == old(buf.data) && |buf.Content()| < |old(buf.Content())|
    ensures Split(stream, more, buf.Content())
    ensures dispatcher.queue == queued + Packets(dnid, more, mallocZero)
  {
    hide BodyLength, Split, Packets, Frame, NextLayout, PacketOf;
    SplitOne(stream, bodies, buf.Content());
    ghost var body := TakeBody(buf, len, dispatcher, dnid, mallocZero);
    PacketsAppend(dnid, bodies, [body], mallocZero);
    more := bodies + [body];
  }

  method OnMessage(host: Host, buf: Buffer, dispatcher: Dispatcher, dnid: nat, mallocZero: bool)
    returns (shutdown: bool)
    requires buf.Valid()
    modifies buf, dispatcher`queue
    ensures buf.Valid() && buf.data == old(buf.data)
    ensures buf.Content() == Rest(old(buf.Content()))
    ensures dispatcher.queue == old(dispatcher.queue) + Packets(dnid, Bodies(old(buf.Content())), mallocZero)
    ensures shutdown == BadHeader(buf.Content())
  {
    hide BodyLength, Split, Bodies, Rest, Packets, Frame, NextLayout, PacketOf, Range, FromHighFirst;
    shutdown := false;
    ghost var stream, bodies: seq<Bytes> := buf.Content(), [];
    SplitNone(stream);
    NoPackets(dnid, mallocZero);
    while buf.writer - buf.reader >= HEADER
      invariant buf.Valid() && buf.data == old(buf.data)
      invariant Split(stream, bodies, buf.Content())
      invariant dispatcher.queue == old(dispatcher.queue) + Packets(dnid, bodies, mallocZero)
      decreases buf.writer - buf.reader
    {
      var len := PeekLength(host, buf);
      if len > MAX_BODY || len < 0 {
        shutdown := true;
        break;
      } else if buf.writer - buf.reader >= len + HEADER {
        bodies := TakeFrame(buf, len, dispatcher, dnid, mallocZero, stream, bodies, old(dispatcher.queue));
      } else {
        break;
      }
    }
    SplitDecides(stream, bodies, buf.Content());
  }

  /** What reaches the socket is the frame of the data; the header fits in front whatever append did. */
  method SendMsg(host: Host, data: Bytes) returns (sent: Bytes)
    requires |data| < Range(HEADER) // size is a DWORD
    ensures sent == Frame(data)
  {
    hide HighFirst, Image, HostToNetwork, Range, Frame;
    WireOrder(host, |data|, HEADER);
    FrameOf(data);
    var buf := new Buffer(INITIAL_SIZE);
    buf.Append(data);
    assert [] + data == data;
    var be32 := HostToNetwork(host, |data|, HEADER);
    buf.Prepend(Image(host, be32, HEADER));
    sent := buf.data[buf.reader..buf.writer];
  }

  function Max(a: int, b: int): int { if a < b then b else a }

  /** The most a connection's buffer ever occupies when no read brings more than `most` bytes. */
  function MemoryBound(most: nat): int {
    Max(CHEAP_PREPEND + INITIAL_SIZE, 65546 + 2 * most)
  }

  /** Appending to a buffer that holds a short remainder keeps the array within the bound. */
  lemma GrowthIsBounded(l: Layout, chunk: Bytes, most: nat)
    requires l.Ordered() && |chunk| <= most && l.size <= MemoryBound(most)
    requires l.Readable() <= HEADER + MAX_BODY - 1
    ensures NextLayout(l, Op.Append(chunk)).size <= MemoryBound(most)
  {
  }

  ghost predicate NeverRefused(chunks: seq<Bytes>) {
    forall i :: 0 <= i <= |chunks| ==> !BadHeader(Rest(Flatten(chunks[..i])))
  }

  /** The whole life of a connection: chunk after chunk is appended to its buffer and offered to onMessage. */
  method Receive(host: Host, chunks: seq<Bytes>, dispatcher: Dispatcher, dnid: nat, mallocZero: bool, ghost most: nat)
    returns (buf: Buffer, shutdown: bool)
    requires forall i :: 0 <= i < |chunks| ==> |chunks[i]| <= most
    modifies dispatcher`queue
    ensures fresh(buf) && fresh(buf.data) && buf.Valid()
    // However the stream was cut, the packets are those of the whole stream, and the buffer holds the rest.
    ensures dispatcher.queue
         == old(dispatcher.queue) + Packets(dnid, Bodies(Flatten(chunks)), mallocZero)
    ensures buf.Content() == Rest(Flatten(chunks))
    ensures chunks != [] ==> shutdown == BadHeader(buf.Content())
    // Unless a header is refused, little is left over and the array stays small.
    ensures NeverRefused(chunks) ==> |buf.Content()| <= 65539
    ensures NeverRefused(chunks) ==> buf.data.Length <= Max(1032, 65546 + 2 * most)
  {
    hide Bodies, Rest, Packets, Flatten, BadHeader, NextLayout, MemoryBound;
    buf := new Buffer(INITIAL_SIZE);
    shutdown := false;
    StartOfStream(chunks, dnid, mallocZero, most);
    for i := 0 to |chunks|
      invariant fresh(buf) && fresh(buf.data) && buf.Valid()
      invariant dispatcher.queue
             == old(dispatcher.queue) + Packets(dnid, Bodies(Flatten(chunks[..i])), mallocZero)
      invariant buf.Content() == Rest(Flatten(chunks[..i]))
      invariant i > 0 ==> shutdown == BadHeader(buf.Content())
      invariant NeverRefused(chunks) ==> buf.data.Length <= MemoryBound(most)
    {
      ghost var soFar := Flatten(chunks[..i]);
      RestIsShort(soFar);
      if NeverRefused(chunks) {
        assert |buf.Content()| == buf.Shape().Readable();
        GrowthIsBounded(buf.Shape(), chunks[i], most);
      }
      buf.Append(chunks[i]);
      shutdown := OnMessage(host, buf, dispatcher, dnid, mallocZero);
      FlattenSnoc(chunks, i);
      DecodeResumes(soFar, chunks[i]);
      PacketsAppend(dnid, Bodies(soFar), Bodies(Rest(soFar) + chunks[i]), mallocZero);
    }
    assert chunks[..|chunks|] == chunks;
    RestIsShort(Flatten(chunks));
    BoundIs(most);
  }

  lemma BoundIs(most: nat)
    ensures MemoryBound(most) == Max(1032, 65546 + 2 * most)
  {
  }

  /** Every list of messages short enough, sent one by one and cut anywhere on the way, arrives whole. */
  lemma EndToEnd(bodies: seq<Bytes>, chunks: seq<Bytes>)
    requires forall i :: 0 <= i < |bodies| ==> |bodies[i]| <= 65536
    requires Flatten(chunks) == Frames(bodies)
    ensures Bodies(Flatten(chunks)) == bodies && Rest(Flatten(chunks)) == []
    ensures NeverRefused(chunks)
  {
    RangeOfHeader();
    RoundTrip(bodies);
    forall i | 0 <= i <= |chunks| ensures !BadHeader(Rest(Flatten(chunks[..i]))) {
      FlattenSplit(chunks, i);
      var a := Flatten(chunks[..i]);
      var b := Flatten(chunks[i..]);
      if BadHeader(Rest(a)) {
        BadHeaderIsFinal(a, b);
      }
    }
  }

  lemma StartOfStream(chunks: seq<Bytes>, dnid: nat, mallocZero: bool, most: nat)
    ensures Flatten(chunks[..0]) == [] && Rest([]) == [] && Packets(dnid, Bodies([]), mallocZero) == []
    ensures CHEAP_PREPEND + INITIAL_SIZE <= MemoryBound(most)
  {
  }

  lemma FlattenSnoc(chunks: seq<Bytes>, i: nat)
    requires i < |chunks|
    ensures Flatten(chunks[..i + 1]) == Flatten(chunks[..i]) + chunks[i]
  {
    assert chunks[..i + 1][..i] == chunks[..i];
  }

  lemma {:induction false} FlattenSplit(chunks: seq<Bytes>, i: nat)
    requires i <= |chunks|
    ensures Flatten(chunks) == Flatten(chunks[..i]) + Flatten(chunks[i..])
    decreases |chunks|
  {
    if i == |chunks| {
      assert chunks[..i] == chunks;
    } else {
      var front, last := chunks[..|chunks| - 1], chunks[|chunks| - 1];
      FlattenSplit(front, i);
      assert front[..i] == chunks[..i];
      assert chunks[i..][..|chunks[i..]| - 1] == front[i..];
    }
  }

  /** The bound needs NeverRefused: once a header is refused, every later byte stays in the buffer. */
  lemma {:induction false} RefusedKeepsAll(chunks: seq<Bytes>, i: nat)
    requires i <= |chunks| && BadHeader(Rest(Flatten(chunks[..i])))
    ensures |Rest(Flatten(chunks))| >= |Flatten(chunks[i..])|
    ensures Bodies(Flatten(chunks)) == Bodies(Flatten(chunks[..i]))
  {
    FlattenSplit(chunks, i);
    BadHeaderIsFinal(Flatten(chunks[..i]), Flatten(chunks[i..]));
  }
}
