/** The wire format of codec.cpp: a 4-byte big-endian signed length, then that many bytes. */
module Framing {
  import opened Endian

  const HEADER: nat := 4
  const MAX_BODY: nat := 65536

  type Bytes = seq<Byte>

  function BodyLength(s: Bytes): int
    requires HEADER <= |s|
  {
    Signed(FromHighFirst(s[..HEADER]), HEADER)
  }

  /** The header is complete and announces a length onMessage refuses. */
  predicate BadHeader(s: Bytes) {
    HEADER <= |s| && !(0 <= BodyLength(s) <= MAX_BODY)
  }

  predicate HasFrame(s: Bytes) {
    HEADER <= |s| && 0 <= BodyLength(s) <= MAX_BODY && HEADER + BodyLength(s) <= |s|
  }

  /** The bytes one message becomes; the length is cut to 32 bits. */
  function Frame(body: Bytes): (s: Bytes)
    ensures |s| == HEADER + |body|
  {
    HighFirst(|body| % 0x1_0000_0000, HEADER) + body
  }

  function Frames(bodies: seq<Bytes>): Bytes {
    if bodies == [] then [] else Frame(bodies[0]) + Frames(bodies[1..])
  }

  function Flatten(chunks: seq<Bytes>): Bytes {
    if chunks == [] then [] else Flatten(chunks[..|chunks| - 1]) + chunks[|chunks| - 1]
  }

  /** Decoding of a whole stream in one pass: the bodies of its frames... */
  function Bodies(s: Bytes): seq<Bytes> {
    if HasFrame(s) then
      var n := HEADER + BodyLength(s);
      [s[HEADER..n]] + Bodies(s[n..])
    else []
  }

  /** ... and what follows the last complete frame. */
  function Rest(s: Bytes): (rest: Bytes)
    ensures !HasFrame(rest)
  {
    if HasFrame(s) then Rest(s[HEADER + BodyLength(s)..]) else s
  }

  lemma RangeOfHeader()
    ensures Range(HEADER) == 0x1_0000_0000
  {
    assert Range(1) == 256 && Range(2) == 65536 && Range(3) == 0x100_0000;
  }

  lemma SignedOfSmall(n: nat)
    requires n <= MAX_BODY
    ensures n < Range(HEADER) && Signed(n, HEADER) == n
  {
    hide Range;
    RangeOfHeader();
  }

  lemma FrameOf(body: Bytes)
    requires |body| < Range(HEADER)
    ensures Frame(body) == HighFirst(|body|, HEADER) + body
  {
    hide HighFirst, Range;
    RangeOfHeader();
    SmallMod(|body|);
  }

  /** What a frame looks like on the wire: the length in four bytes, most significant first, then the body. */
  lemma FrameBytes(body: Bytes)
    requires |body| < 0x1_0000_0000
    ensures Frame(body) == [|body| / 0x100_0000, |body| / 0x1_0000 % 0x100, |body| / 0x100 % 0x100, |body| % 0x100] + body
  {
    var n := |body|;
    SmallMod(n);
    assert n / 0x100 / 0x100 == n / 0x1_0000 && n / 0x1_0000 / 0x100 == n / 0x100_0000;
    assert HighFirst(n / 0x100_0000, 1) == [n / 0x100_0000];
    assert HighFirst(n / 0x1_0000, 2) == [n / 0x100_0000, n / 0x1_0000 % 0x100];
    assert HighFirst(n / 0x100, 3) == [n / 0x100_0000, n / 0x1_0000 % 0x100, n / 0x100 % 0x100];
  }

  lemma SmallMod(n: nat)
    requires n < 0x1_0000_0000
    ensures n % 0x1_0000_0000 == n
  {
  }

  lemma FramedLength(body: Bytes, tail: Bytes)
    requires |body| < Range(HEADER)
    ensures BodyLength(Frame(body) + tail) == Signed(|body|, HEADER)
  {
    hide HighFirst, FromHighFirst, Range, Signed, Frame;
    HighFirstInverse(|body|, HEADER);
    FrameOf(body);
    Front(HighFirst(|body|, HEADER), body, tail);
  }

  /** The header of a framed message is accepted exactly when the message is not too long. */
  lemma FrameHeader(body: Bytes, tail: Bytes)
    requires |body| < Range(HEADER)
    ensures BodyLength(Frame(body) + tail) == Signed(|body|, HEADER)
    ensures |body| <= 65536 ==> HasFrame(Frame(body) + tail)
    ensures |body| > 65536 ==> BadHeader(Frame(body) + tail)
  {
    hide BodyLength, Frame, Range;
    RangeOfHeader();
    FramedLength(body, tail);
  }

  lemma Front(a: Bytes, b: Bytes, c: Bytes)
    ensures (a + b + c)[..|a|] == a
  {
  }

  /** A frame found at the front of a stream is the frame of its body. */
  lemma HasFrameIsFrame(s: Bytes)
    requires HasFrame(s)
    ensures var n := HEADER + BodyLength(s); s == Frame(s[HEADER..n]) + s[n..]
  {
    RangeOfHeader();
    FromHighFirstInverse(s[..HEADER]);
  }

  /** Nothing is lost: the bodies, framed again, and the rest are the stream. */
  lemma {:induction false} DecodeKeepsBytes(s: Bytes)
    ensures s == Frames(Bodies(s)) + Rest(s)
    ensures forall i :: 0 <= i < |Bodies(s)| ==> |Bodies(s)[i]| <= MAX_BODY
  {
    if HasFrame(s) {
      var n := HEADER + BodyLength(s);
      HasFrameIsFrame(s);
      DecodeKeepsBytes(s[n..]);
      Glue(s[HEADER..n], Bodies(s[n..]), Rest(s[n..]));
    } else {
      assert Frames([]) + s == s;
    }
  }

  lemma Glue(body: Bytes, bodies: seq<Bytes>, rest: Bytes)
    ensures Frames([body] + bodies) + rest == Frame(body) + (Frames(bodies) + rest)
  {
    assert ([body] + bodies)[1..] == bodies;
  }

  /** A stream taken apart into frames of legal bodies and a remainder. */
  ghost predicate Split(s: Bytes, bodies: seq<Bytes>, rest: Bytes) {
    s == Frames(bodies) + rest && forall i :: 0 <= i < |bodies| ==> |bodies[i]| <= MAX_BODY
  }

  lemma SplitNone(s: Bytes)
    ensures Split(s, [], s)
  {
  }

  /** One more frame comes off the remainder. */
  lemma SplitOne(s: Bytes, bodies: seq<Bytes>, rest: Bytes)
    requires Split(s, bodies, rest) && HasFrame(rest)
    ensures var n := HEADER + BodyLength(rest); Split(s, bodies + [rest[HEADER..n]], rest[n..])
  {
    hide BodyLength, Frame;
    var n := HEADER + BodyLength(rest);
    HasFrameIsFrame(rest);
    FramesAppend(bodies, [rest[HEADER..n]]);
    Glue(rest[HEADER..n], [], rest[n..]);
  }

  /** The two facts above leave only one answer: any way of writing a stream as frames of legal
      bodies followed by something without a complete frame is the one Decode finds. */
  lemma {:induction false} DecodeUnique(bodies: seq<Bytes>, rest: Bytes)
    requires forall i :: 0 <= i < |bodies| ==> |bodies[i]| <= MAX_BODY
    requires !HasFrame(rest)
    ensures Bodies(Frames(bodies) + rest) == bodies && Rest(Frames(bodies) + rest) == rest
  {
    hide BodyLength, Frame;
    if bodies == [] {
      assert Frames(bodies) + rest == rest;
    } else {
      var body, more := bodies[0], bodies[1..];
      assert bodies == [body] + more;
      DecodeUnique(more, rest);
      Glue(body, more, rest);
      DecodeFrame(body, Frames(more) + rest);
    }
  }

  lemma DecodeFrame(body: Bytes, tail: Bytes)
    requires |body| <= MAX_BODY
    ensures Bodies(Frame(body) + tail) == [body] + Bodies(tail) && Rest(Frame(body) + tail) == Rest(tail)
  {
    hide BodyLength, Range, Signed;
    RangeOfHeader();
    FrameHeader(body, tail);
    SignedOfSmall(|body|);
    var s, n := Frame(body) + tail, HEADER + |body|;
    assert BodyLength(s) == |body|;
    assert s[HEADER..n] == body && s[n..] == tail;
  }

  lemma HeaderStays(a: Bytes, b: Bytes)
    requires HEADER <= |a|
    ensures BodyLength(a + b) == BodyLength(a)
  {
    assert (a + b)[..HEADER] == a[..HEADER];
  }

  /** The same, for a stream that was taken apart. */
  lemma SplitDecides(s: Bytes, bodies: seq<Bytes>, rest: Bytes)
    requires Split(s, bodies, rest) && !HasFrame(rest)
    ensures Bodies(s) == bodies && Rest(s) == rest
  {
    DecodeUnique(bodies, rest);
  }

  /** Decoding can stop anywhere and go on with what was left over. */
  lemma {:induction false} DecodeResumes(a: Bytes, b: Bytes)
    ensures Bodies(a + b) == Bodies(a) + Bodies(Rest(a) + b)
    ensures Rest(a + b) == Rest(Rest(a) + b)
    decreases |a|
  {
    hide BodyLength;
    if HEADER <= |a| {
      HeaderStays(a, b);
    }
    if HasFrame(a) {
      var n := HEADER + BodyLength(a);
      assert (a + b)[n..] == a[n..] + b;
      assert (a + b)[HEADER..n] == a[HEADER..n];
      DecodeResumes(a[n..], b);
    }
  }

  /** After a refused header nothing is decoded any more, whatever arrives. */
  lemma BadHeaderIsFinal(a: Bytes, b: Bytes)
    requires BadHeader(Rest(a))
    ensures Bodies(a + b) == Bodies(a) && Rest(a + b) == Rest(a) + b
    ensures BadHeader(Rest(a + b))
  {
    DecodeResumes(a, b);
    HeaderStays(Rest(a), b);
  }

  /** What is left over is short, unless it starts with a refused header. */
  lemma RestIsShort(s: Bytes)
    ensures BadHeader(Rest(s)) || |Rest(s)| <= HEADER + MAX_BODY - 1
  {
  }

  lemma {:induction false} FramesAppend(a: seq<Bytes>, b: seq<Bytes>)
    ensures Frames(a + b) == Frames(a) + Frames(b)
  {
    if a == [] {
      assert a + b == b;
    } else {
      assert (a + b)[1..] == a[1..] + b;
      FramesAppend(a[1..], b);
    }
  }

  /** Sent messages come back: all of them with nothing left over exactly when none is too long.
      (A body is an in-memory block whose size fits a DWORD.) */
  lemma RoundTrip(bodies: seq<Bytes>)
    requires forall i :: 0 <= i < |bodies| ==> |bodies[i]| < 0x1_0000_0000
    ensures Bodies(Frames(bodies)) == bodies && Rest(Frames(bodies)) == []
       <==> forall i :: 0 <= i < |bodies| ==> |bodies[i]| <= 65536
  {
    if forall i :: 0 <= i < |bodies| ==> |bodies[i]| <= MAX_BODY {
      DecodeUnique(bodies, []);
      assert Frames(bodies) + [] == Frames(bodies);
    } else {
      DecodeKeepsBytes(Frames(bodies));
    }
  }

  /** Otherwise the messages before the first long one come back and the connection is stuck there. */
  lemma OversizedMessage(before: seq<Bytes>, long: Bytes, after: Bytes)
    requires forall i :: 0 <= i < |before| ==> |before[i]| <= MAX_BODY
    requires MAX_BODY < |long| < Range(HEADER)
    ensures var s := Frames(before) + Frame(long) + after;
            Bodies(s) == before && Rest(s) == Frame(long) + after && BadHeader(Rest(s))
  {
    var rest := Frame(long) + after;
    assert Frames(before) + Frame(long) + after == Frames(before) + rest;
    FrameHeader(long, after);
    DecodeUnique(before, rest);
  }
}
