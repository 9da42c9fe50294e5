/** Byte images of machine integers and the byte-order conversions of muduo/net/Endian.h.
    Everything is stated for both kinds of host, and for integers of any width. */
module Endian {
  import opened Division

  type Byte = x: int | 0 <= x < 256

  datatype Host = LittleEndian | BigEndian

  /** 256 to the power `width`: the number of values an unsigned integer of that width has. */
  function Range(width: nat): (r: nat)
    ensures r >= 1
  {
    if width == 0 then 1 else 256 * Range(width - 1)
  }

  /** The `width` low-order bytes of `n`, least significant first. */
  function LowFirst(n: nat, width: nat): (s: seq<Byte>)
    ensures |s| == width
  {
    if width == 0 then [] else [n % 256] + LowFirst(n / 256, width - 1)
  }

  function FromLowFirst(s: seq<Byte>): (n: nat)
    ensures n < Range(|s|)
  {
    if s == [] then 0 else s[0] + 256 * FromLowFirst(s[1..])
  }

  /** The same bytes in network order, most significant first. */
  function HighFirst(n: nat, width: nat): (s: seq<Byte>)
    ensures |s| == width
  {
    if width == 0 then [] else HighFirst(n / 256, width - 1) + [n % 256]
  }

  function FromHighFirst(s: seq<Byte>): (n: nat)
    ensures n < Range(|s|)
  {
    if s == [] then 0 else 256 * FromHighFirst(s[..|s| - 1]) + s[|s| - 1]
  }

  /** The bytes an unsigned integer occupies in the host's memory, and back. */
  function Image(host: Host, n: nat, width: nat): (s: seq<Byte>)
    ensures |s| == width
  {
    if host.LittleEndian? then LowFirst(n, width) else HighFirst(n, width)
  }

  function Load(host: Host, s: seq<Byte>): (n: nat)
    ensures n < Range(|s|)
  {
    if host.LittleEndian? then FromLowFirst(s) else FromHighFirst(s)
  }

  /** htobe16/32/64 and be16/32/64toh exchange the bytes of the value on a little-endian host
      and leave it alone on a big-endian one. */
  function HostToNetwork(host: Host, n: nat, width: nat): nat {
    if host.LittleEndian? then FromLowFirst(HighFirst(n, width)) else n
  }

  function NetworkToHost(host: Host, n: nat, width: nat): nat {
    if host.LittleEndian? then FromHighFirst(LowFirst(n, width)) else n
  }

  /** Two's complement: an unsigned value of the width read as signed, and back. */
  function Signed(n: nat, width: nat): int
    requires n < Range(width)
  {
    if 2 * n >= Range(width) then n - Range(width) else n
  }

  predicate FitsSigned(x: int, width: nat) {
    0 <= 2 * x + Range(width) < 2 * Range(width)
  }

  function Unsigned(x: int, width: nat): (n: nat)
    requires FitsSigned(x, width)
    ensures n < Range(width) && Signed(n, width) == x
  {
    if x < 0 then x + Range(width) else x
  }

  lemma {:induction false} LowFirstInverse(n: nat, width: nat)
    requires n < Range(width)
    ensures FromLowFirst(LowFirst(n, width)) == n
  {
    if width > 0 {
      LowFirstInverse(n / 256, width - 1);
      assert LowFirst(n, width)[1..] == LowFirst(n / 256, width - 1);
    }
  }

  lemma {:induction false} FromLowFirstInverse(s: seq<Byte>)
    ensures LowFirst(FromLowFirst(s), |s|) == s
  {
    if s != [] {
      FromLowFirstInverse(s[1..]);
      var rest := FromLowFirst(s[1..]);
      assert (s[0] + 256 * rest) / 256 == rest && (s[0] + 256 * rest) % 256 == s[0];
    }
  }

  lemma {:induction false} HighFirstInverse(n: nat, width: nat)
    requires n < Range(width)
    ensures FromHighFirst(HighFirst(n, width)) == n
  {
    if width > 0 {
      HighFirstInverse(n / 256, width - 1);
      var s := HighFirst(n, width);
      assert s[..|s| - 1] == HighFirst(n / 256, width - 1);
    }
  }

  lemma {:induction false} FromHighFirstInverse(s: seq<Byte>)
    ensures HighFirst(FromHighFirst(s), |s|) == s
  {
    if s != [] {
      var front, last := s[..|s| - 1], s[|s| - 1];
      FromHighFirstInverse(front);
      var n := FromHighFirst(front);
      assert (256 * n + last) / 256 == n && (256 * n + last) % 256 == last;
      assert s == front + [last];
    }
  }

  /** Byte i in network order counts the (width - 1 - i)-th power of 256. */
  lemma {:induction false} HighFirstAt(n: nat, width: nat, i: nat)
    requires i < width
    ensures HighFirst(n, width)[i] == n / Range(width - 1 - i) % 256
  {
    if i == width - 1 {
      assert Range(0) == 1;
    } else {
      HighFirstAt(n / 256, width - 1, i);
      DivideTwice(n, 256, Range(width - 2 - i));
    }
  }

  /** Storing a converted integer puts its bytes on the wire most significant first, whatever the host. */
  lemma WireOrder(host: Host, n: nat, width: nat)
    ensures Image(host, HostToNetwork(host, n, width), width) == HighFirst(n, width)
    ensures forall i :: 0 <= i < width ==> HighFirst(n, width)[i] == n / Range(width - 1 - i) % 256
  {
    forall i | 0 <= i < width ensures HighFirst(n, width)[i] == n / Range(width - 1 - i) % 256 {
      HighFirstAt(n, width, i);
    }
    FromLowFirstInverse(HighFirst(n, width));
  }

  /** Loading wire bytes as a host integer and converting gives the number they spell. */
  lemma WireValue(host: Host, s: seq<Byte>)
    ensures NetworkToHost(host, Load(host, s), |s|) == FromHighFirst(s)
  {
    FromLowFirstInverse(s);
  }

  /** The two conversions undo each other. */
  lemma ConversionsInverse(host: Host, n: nat, width: nat)
    requires n < Range(width)
    ensures NetworkToHost(host, HostToNetwork(host, n, width), width) == n
  {
    FromLowFirstInverse(HighFirst(n, width));
    HighFirstInverse(n, width);
  }
}
