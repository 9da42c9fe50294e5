/** muduo::net::Buffer: a growable byte array with a reader and a writer index. */
module ByteBuffer {
  import opened Endian

  const CHEAP_PREPEND: nat := 8
  const INITIAL_SIZE: nat := 1024

  /** The size of the backing array and where the readable bytes lie in it. */
  datatype Layout = Layout(size: nat, reader: nat, writer: nat) {
    predicate Ordered() { reader <= writer <= size && CHEAP_PREPEND <= size }

    function Readable(): nat
      requires Ordered()
    {
      writer - reader
    }
  }

  function Fresh(initialSize: nat): Layout {
    Layout(CHEAP_PREPEND + initialSize, CHEAP_PREPEND, CHEAP_PREPEND)
  }

  /** The layout after room for `len` more bytes has been made. */
  function Reserve(l: Layout, len: nat): (r: Layout)
    requires l.Ordered()
    ensures r.Ordered() && r.Readable() == l.Readable()
    ensures len <= r.size - r.writer
    ensures l.size - l.writer >= len ==> r == l
    // The array never shrinks, and grows only when it is nearly full.
    ensures l.size <= r.size
    ensures r.size > l.size ==> l.size < l.Readable() + len + CHEAP_PREPEND && r.size <= l.size + len
    // Room for a prepend is never traded away.
    ensures r.reader == l.reader || (r.reader == CHEAP_PREPEND < l.reader)
  {
    if l.size - l.writer >= len then l
    else if l.size - l.writer + l.reader < len + CHEAP_PREPEND then l.(size := l.writer + len)
    else Layout(l.size, CHEAP_PREPEND, CHEAP_PREPEND + l.Readable())
  }

  /** The operations a run is made of. */
  datatype Op =
    | Append(bytes: seq<Byte>)
    | Prepend(bytes: seq<Byte>)
    | Retrieve(len: nat)
    | Unwrite(len: nat)
    | Shrink(reserve: nat)

  /** What the asserts in the source demand of the caller. */
  predicate Allowed(l: Layout, op: Op)
    requires l.Ordered()
  {
    match op
    case Append(_) => true
    case Prepend(bytes) => |bytes| <= l.reader
    case Retrieve(len) => len <= l.Readable()
    case Unwrite(len) => len <= l.Readable()
    case Shrink(_) => true
  }

  function NextLayout(l: Layout, op: Op): (r: Layout)
    requires l.Ordered() && Allowed(l, op)
    ensures r.Ordered()
  {
    match op
    case Append(bytes) => var r := Reserve(l, |bytes|); r.(writer := r.writer + |bytes|)
    case Prepend(bytes) => l.(reader := l.reader - |bytes|)
    case Retrieve(len) =>
      if len < l.Readable() then l.(reader := l.reader + len)
      else l.(reader := CHEAP_PREPEND, writer := CHEAP_PREPEND)
    case Unwrite(len) => l.(writer := l.writer - len)
    case Shrink(reserve) =>
      var r := Reserve(Reserve(Fresh(INITIAL_SIZE), l.Readable() + reserve), l.Readable());
      r.(writer := r.writer + l.Readable())
  }

  /** The plain byte sequence a client thinks of. */
  predicate Meaningful(content: seq<Byte>, op: Op) {
    (op.Retrieve? || op.Unwrite?) ==> op.len <= |content|
  }

  function NextContent(content: seq<Byte>, op: Op): seq<Byte>
    requires Meaningful(content, op)
  {
    match op
    case Append(bytes) => content + bytes
    case Prepend(bytes) => bytes + content
    case Retrieve(len) => content[len..]
    case Unwrite(len) => content[..|content| - len]
    case Shrink(_) => content
  }

  /** How many operations of a run are allowed, one after the other. */
  ghost function AllowedPrefix(l: Layout, ops: seq<Op>): (n: nat)
    requires l.Ordered()
    ensures n <= |ops|
    decreases ops
  {
    if ops == [] || !Allowed(l, ops[0]) then 0 else 1 + AllowedPrefix(NextLayout(l, ops[0]), ops[1..])
  }

  ghost predicate Traceable(content: seq<Byte>, ops: seq<Op>)
    decreases |ops|, 0
  {
    ops != [] ==>
      var front := ops[..|ops| - 1];
      Traceable(content, front) && Meaningful(FinalContent(content, front), ops[|ops| - 1])
  }

  /** The byte sequence after a run, computed without any array. */
  ghost function FinalContent(content: seq<Byte>, ops: seq<Op>): seq<Byte>
    requires Traceable(content, ops)
    decreases |ops|, 1
  {
    if ops == [] then content else NextContent(FinalContent(content, ops[..|ops| - 1]), ops[|ops| - 1])
  }

  class Buffer {
    var data: array<Byte>
    var reader: nat
    var writer: nat

    ghost predicate Valid()
      reads this
    {
      reader <= writer <= data.Length && CHEAP_PREPEND <= data.Length
    }

    ghost function Content(): (s: seq<Byte>)
      requires Valid()
      reads this, data
    {
      data[reader..writer]
    }

    function Shape(): Layout
      reads this
    {
      Layout(data.Length, reader, writer)
    }

    constructor (initialSize: nat := INITIAL_SIZE)
      ensures Valid() && fresh(data)
      ensures Shape() == Fresh(initialSize) && Content() == []
      ensures data.Length == 8 + initialSize && reader == writer == 8
    {
      data := new Byte[CHEAP_PREPEND + initialSize];
      reader := CHEAP_PREPEND;
      writer := CHEAP_PREPEND;
    }

    /** std::copy onto a lower address: the forward copy is safe although source and target overlap. */
    method MoveDown(from: nat, to: nat, count: nat)
      requires to < from && from + count <= data.Length
      modifies data
      ensures data[to..to + count] == old(data[from..from + count])
    {
      ghost var before := data[..];
      for i := 0 to count
        invariant forall m :: to <= m < to + i ==> data[m] == before[m - to + from]
        invariant forall m :: from + i <= m < from + count ==> data[m] == before[m]
      {
        data[to + i] := data[from + i];
      }
    }

    /** buffer_.resize(size). */
    method Resize(size: nat)
      requires Valid() && data.Length <= size
      modifies this`data
      ensures Valid() && fresh(data) && data.Length == size
      ensures forall i :: 0 <= i < old(data.Length) ==> data[i] == old(data[i])
    {
      var current, bigger := data, new Byte[size];
      for i := 0 to current.Length
        modifies bigger
        invariant forall m :: 0 <= m < i ==> bigger[m] == current[m]
      {
        bigger[i] := current[i];
      }
      data := bigger;
    }

    method MakeSpace(len: nat)
      requires Valid() && data.Length - writer < len
      modifies this, data
      ensures Valid() && (data == old(data) || fresh(data))
      ensures Content() == old(Content())
      ensures Shape() == Reserve(old(Shape()), len)
    {
      if data.Length - writer + reader < len + CHEAP_PREPEND {
        Resize(writer + len);
      } else {
        assert CHEAP_PREPEND < reader;
        var readable := writer - reader;
        MoveDown(reader, CHEAP_PREPEND, readable);
        reader := CHEAP_PREPEND;
        writer := reader + readable;
      }
    }

    method EnsureWritableBytes(len: nat)
      requires Valid()
      modifies this, data
      ensures Valid() && (data == old(data) || fresh(data))
      ensures len <= data.Length - writer
      ensures Content() == old(Content())
      ensures Shape() == Reserve(old(Shape()), len)
    {
      if data.Length - writer < len {
        MakeSpace(len);
      }
    }

    /** std::copy of foreign bytes into the array. */
    method Store(at: nat, bytes: seq<Byte>)
      requires at + |bytes| <= data.Length
      modifies data
      ensures data[..] == old(data[..at]) + bytes + old(data[at + |bytes|..])
    {
      for i := 0 to |bytes|
        invariant forall m :: at <= m < at + i ==> data[m] == bytes[m - at]
        invariant forall m :: 0 <= m < data.Length && !(at <= m < at + i) ==> data[m] == old(data[m])
      {
        data[at + i] := bytes[i];
      }
    }

    method Append(bytes: seq<Byte>)
      requires Valid()
      modifies this, data
      ensures Valid() && (data == old(data) || fresh(data))
      ensures Content() == old(Content()) + bytes
      ensures Shape() == NextLayout(old(Shape()), Op.Append(bytes))
    {
      EnsureWritableBytes(|bytes|);
      ghost var before := data[..];
      Store(writer, bytes);
      assert data[reader..writer] == before[reader..writer];
      assert data[writer..writer + |bytes|] == bytes;
      writer := writer + |bytes|;
    }

    method Prepend(bytes: seq<Byte>)
      requires Valid() && |bytes| <= reader
      modifies this, data
      ensures Valid() && data == old(data)
      ensures Content() == bytes + old(Content())
      ensures Shape() == NextLayout(old(Shape()), Op.Prepend(bytes))
      ensures reader == old(reader) - |bytes| && writer == old(writer)
    {
      ghost var before := data[..];
      Store(reader - |bytes|, bytes);
      assert data[reader..writer] == before[reader..writer];
      assert data[reader - |bytes|..reader] == bytes;
      reader := reader - |bytes|;
    }

    method Retrieve(len: nat)
      requires Valid() && len <= writer - reader
      modifies this
      ensures Valid() && data == old(data)
      ensures Content() == old(Content()[len..])
      ensures Shape() == NextLayout(old(Shape()), Op.Retrieve(len))
      ensures len < old(writer - reader) ==> reader == old(reader) + len && writer == old(writer)
      ensures len == old(writer - reader) ==> reader == writer == 8
    {
      if len < writer - reader {
        reader := reader + len;
      } else {
        RetrieveAll();
      }
    }

    method RetrieveAll()
      requires Valid()
      modifies this
      ensures Valid() && data == old(data) && Content() == []
      ensures reader == writer == 8
    {
      reader := CHEAP_PREPEND;
      writer := CHEAP_PREPEND;
    }

    method Unwrite(len: nat)
      requires Valid() && len <= writer - reader
      modifies this
      ensures Valid() && data == old(data)
      ensures Content() == old(Content()[..writer - reader - len])
      ensures Shape() == NextLayout(old(Shape()), Op.Unwrite(len))
      ensures reader == old(reader) && writer == old(writer) - len
    {
      writer := writer - len;
      assert Content() == old(Content())[..writer - reader];
    }

    /** Copy into a fresh buffer and swap. */
    method Shrink(reserve: nat)
      requires Valid()
      modifies this
      ensures Valid() && fresh(data)
      ensures Content() == old(Content())
      ensures Shape() == NextLayout(old(Shape()), Op.Shrink(reserve))
      // Room for `reserve` more bytes, in the smallest array a new buffer has for that.
      ensures reader == 8 && reserve <= data.Length - writer
      ensures data.Length == if |Content()| + reserve <= 1024 then 1032 else 8 + |Content()| + reserve
    {
      var other := new Buffer(INITIAL_SIZE);
      other.EnsureWritableBytes(writer - reader + reserve);
      other.Append(data[reader..writer]);
      data, reader, writer := other.data, other.reader, other.writer;
    }

    /** One operation of a run. */
    method Perform(op: Op)
      requires Valid() && Allowed(Shape(), op)
      modifies this, data
      ensures Valid() && (data == old(data) || fresh(data))
      ensures Content() == NextContent(old(Content()), op)
      ensures Shape() == NextLayout(old(Shape()), op)
    {
      match op
      case Append(bytes) => Append(bytes);
      case Prepend(bytes) => Prepend(bytes);
      case Retrieve(len) => Retrieve(len);
      case Unwrite(len) => Unwrite(len);
      case Shrink(reserve) => Shrink(reserve);
    }

    /** A whole run, up to the first operation whose assert fails in the source. */
    method PerformAll(ops: seq<Op>) returns (done: nat)
      requires Valid()
      modifies this, data
      ensures Valid() && (data == old(data) || fresh(data))
      ensures done == AllowedPrefix(old(Shape()), ops)
      ensures done < |ops| ==>
                match ops[done]
                case Append(_) => false
                case Prepend(bytes) => |bytes| > reader
                case Retrieve(len) => len > |Content()|
                case Unwrite(len) => len > |Content()|
                case Shrink(_) => false
      ensures Traceable(old(Content()), ops[..done])
      ensures Content() == FinalContent(old(Content()), ops[..done])
    {
      done := 0;
      ghost var start := Shape();
      while done < |ops| && Allowed(Shape(), ops[done])
        invariant Valid() && (data == old(data) || fresh(data))
        invariant done <= |ops| && AllowedPrefix(start, ops) == done + AllowedPrefix(Shape(), ops[done..])
        invariant Traceable(old(Content()), ops[..done])
        invariant Content() == FinalContent(old(Content()), ops[..done])
      {
        assert ops[..done + 1][..done] == ops[..done];
        assert ops[done..][1..] == ops[done + 1..];
        Perform(ops[done]);
        done := done + 1;
      }
      assert ops[..done] == ops || ops[done..] != [];
    }

    // ----- Integers in network order (8, 16, 32 and 64 bits are widths 1, 2, 4 and 8) -----

    method AppendInt(host: Host, x: int, width: nat)
      requires Valid() && FitsSigned(x, width)
      modifies this, data
      ensures Valid() && (data == old(data) || fresh(data))
      ensures Content() == old(Content()) + HighFirst(Unsigned(x, width), width)
    {
      WireOrder(host, Unsigned(x, width), width);
      Append(Image(host, HostToNetwork(host, Unsigned(x, width), width), width));
    }

    method PrependInt(host: Host, x: int, width: nat)
      requires Valid() && FitsSigned(x, width) && width <= reader
      modifies this, data
      ensures Valid() && data == old(data)
      ensures Content() == HighFirst(Unsigned(x, width), width) + old(Content())
      ensures Shape() == old(Shape()).(reader := old(reader) - width)
    {
      WireOrder(host, Unsigned(x, width), width);
      Prepend(Image(host, HostToNetwork(host, Unsigned(x, width), width), width));
    }

    /** Reads back whatever AppendInt or PrependInt put at the front. */
    method PeekInt(host: Host, width: nat) returns (x: int)
      requires Valid() && width <= writer - reader
      ensures FitsSigned(x, width)
      ensures Content()[..width] == HighFirst(Unsigned(x, width), width)
    {
      hide FromHighFirst, HighFirst, Load, NetworkToHost;
      var bytes := data[reader..reader + width];
      WireValue(host, bytes);
      FromHighFirstInverse(bytes);
      x := Signed(NetworkToHost(host, Load(host, bytes), width), width);
      assert Content()[..width] == bytes;
    }

    method ReadInt(host: Host, width: nat) returns (x: int)
      requires Valid() && width <= writer - reader
      modifies this
      ensures Valid() && data == old(data)
      ensures FitsSigned(x, width)
      ensures old(Content()) == HighFirst(Unsigned(x, width), width) + Content()
    {
      x := PeekInt(host, width);
      Retrieve(width);
    }
  }
}
