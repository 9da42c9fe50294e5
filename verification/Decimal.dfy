/** Decimal text of integers: std::to_string on the way out, atoi and atoll on the way back. */
module Decimal {
  import opened Division

  predicate IsDigit(c: char) { '0' <= c <= '9' }

  /** The characters the C locale calls space. */
  predicate IsSpace(c: char) {
    c == ' ' || c == '\t' || c == '\n' || c == '\r' || c as int == 11 || c as int == 12
  }

  function DigitValue(c: char): (d: nat)
    requires IsDigit(c)
    ensures d < 10
  {
    c as int - '0' as int
  }

  function Digit(d: nat): (c: char)
    requires d < 10
    ensures IsDigit(c) && DigitValue(c) == d
  {
    ('0' as int + d) as char
  }

  /** The text of a natural number, without leading zeros. */
  function Digits(n: nat): (s: string)
    ensures s != [] && AllDigits(s)
  {
    if n < 10 then [Digit(n)] else Digits(n / 10) + [Digit(n % 10)]
  }

  predicate AllDigits(s: string) {
    forall i :: 0 <= i < |s| ==> IsDigit(s[i])
  }

  /** std::to_string. */
  function ToString(n: int): string {
    if n < 0 then "-" + Digits(-n) else Digits(n)
  }

  /** The number a run of digits spells. */
  function Value(s: string): nat
    requires AllDigits(s)
  {
    if s == [] then 0 else 10 * Value(s[..|s| - 1]) + DigitValue(s[|s| - 1])
  }

  function LeadingDigits(s: string): (n: nat)
    ensures n <= |s| && AllDigits(s[..n]) && (n < |s| ==> !IsDigit(s[n]))
  {
    if s == [] || !IsDigit(s[0]) then 0 else 1 + LeadingDigits(s[1..])
  }

  function SkipSpace(s: string): (t: string)
    ensures |t| <= |s| && (t != [] ==> !IsSpace(t[0]))
  {
    if s != [] && IsSpace(s[0]) then SkipSpace(s[1..]) else s
  }

  /** What atoi and atoll read: spaces, an optional sign, digits; then they stop. */
  function ReadInt(s: string): int {
    var t := SkipSpace(s);
    if t != [] && (t[0] == '-' || t[0] == '+') then
      var v: int := Value(t[1..][..LeadingDigits(t[1..])]);
      if t[0] == '-' then -v else v
    else Value(t[..LeadingDigits(t)])
  }

  datatype Converted = Converted(value: int) | OutOfRange // the C standard leaves out-of-range results undefined

  predicate Fits(n: int, bits: nat)
    requires bits == 32 || bits == 64
  {
    if bits == 32 then -0x8000_0000 <= n < 0x8000_0000 else -0x8000_0000_0000_0000 <= n < 0x8000_0000_0000_0000
  }

  /** atoi for 32 bits, atoll for 64. */
  function Ato(s: string, bits: nat): Converted
    requires bits == 32 || bits == 64
  {
    var n := ReadInt(s);
    if Fits(n, bits) then Converted(n) else OutOfRange
  }

  /** isspace, character by character. */
  lemma SpaceIsTable(c: char)
    ensures IsSpace(c) <==> c in [' ', '\t', '\n', 11 as char, 12 as char, '\r']
  {
  }

  function Power10(k: nat): (r: nat)
    ensures r >= 1
  {
    if k == 0 then 1 else 10 * Power10(k - 1)
  }

  /** The digits, from the right, count ones, tens, hundreds and so on; there is no leading zero. */
  lemma {:induction false} DigitsAt(n: nat, k: nat)
    requires k < |Digits(n)|
    ensures Digits(n)[|Digits(n)| - 1 - k] == "0123456789"[n / Power10(k) % 10]
    ensures |Digits(n)| > 1 ==> Digits(n)[0] != '0'
  {
    DigitIsTable(n % 10);
    if n >= 10 {
      DigitsAt(n / 10, if k > 0 then k - 1 else 0);
      if k > 0 {
        DivideTwice(n, 10, Power10(k - 1));
      }
      DigitIsTable(if n < 100 then n / 10 else 0);
    }
  }

  lemma DigitIsTable(d: nat)
    requires d < 10
    ensures Digit(d) == "0123456789"[d] && (d != 0 ==> Digit(d) != '0')
  {
  }

  lemma {:induction false} DigitsSpell(n: nat)
    ensures Value(Digits(n)) == n
  {
    if n < 10 {
      assert Value(Digits(n)[..0]) == 0;
    } else {
      DigitsSpell(n / 10);
      var s := Digits(n);
      assert s[..|s| - 1] == Digits(n / 10);
    }
  }

  lemma {:induction false} LeadingDigitsOf(s: string, tail: string)
    requires AllDigits(s) && (tail == [] || !IsDigit(tail[0]))
    ensures LeadingDigits(s + tail) == |s|
  {
    if s == [] {
      assert s + tail == tail;
    } else {
      assert (s + tail)[1..] == s[1..] + tail;
      LeadingDigitsOf(s[1..], tail);
    }
  }

  lemma ReadDigits(n: nat, tail: string)
    requires tail == [] || !IsDigit(tail[0])
    ensures var s := Digits(n) + tail;
            s[0] != '-' && s[0] != '+' && SkipSpace(s) == s && Value(s[..LeadingDigits(s)]) == n
  {
    hide Digits, Value;
    LeadingDigitsOf(Digits(n), tail);
    DigitsSpell(n);
    assert (Digits(n) + tail)[..|Digits(n)|] == Digits(n);
    assert IsDigit(Digits(n)[0]);
  }

  /** Whatever follows the number, as long as it is no digit, does not matter. */
  lemma ReadBack(n: int, tail: string)
    requires tail == [] || !IsDigit(tail[0])
    ensures ReadInt(ToString(n) + tail) == n
  {
    hide Digits, Value, LeadingDigits;
    if n < 0 {
      ReadDigits(-n, tail);
      var s := ToString(n) + tail;
      assert s[0] == '-' && s[1..] == Digits(-n) + tail;
    } else {
      ReadDigits(n, tail);
    }
  }

  lemma {:induction false} SkipSpaces(gap: string, s: string)
    requires forall i :: 0 <= i < |gap| ==> IsSpace(gap[i])
    ensures SkipSpace(gap + s) == SkipSpace(s)
  {
    if gap == [] {
      assert gap + s == s;
    } else {
      assert (gap + s)[1..] == gap[1..] + s;
      SkipSpaces(gap[1..], s);
    }
  }

  /** All of what atoi understands: spaces, a sign or none, digits, and anything that is no digit. */
  lemma ReadsSigned(gap: string, sign: string, n: nat, tail: string)
    requires forall i :: 0 <= i < |gap| ==> IsSpace(gap[i])
    requires sign == "" || sign == "+" || sign == "-"
    requires tail == [] || !IsDigit(tail[0])
    ensures ReadInt(gap + (sign + Digits(n) + tail)) == if sign == "-" then -(n as int) else n
  {
    hide Digits, Value, LeadingDigits;
    var s := sign + Digits(n) + tail;
    SkipSpaces(gap, s);
    ReadDigits(n, tail);
    if sign == "" {
      assert s == Digits(n) + tail;
    } else {
      assert s[0] == sign[0] && s[1..] == Digits(n) + tail;
    }
  }

  /** Text without a number reads as 0. */
  lemma ReadsNothing(s: string)
    requires s == [] || (!IsDigit(s[0]) && !IsSpace(s[0]) && s[0] != '+' && s[0] != '-')
    ensures ReadInt(s) == 0
  {
  }

  /** Every int and every int64_t survives the trip, the smallest included, and no other number is accepted. */
  lemma RoundTrip(n: int, bits: nat)
    requires bits == 32 || bits == 64
    ensures Ato(ToString(n), bits)
         == if bits == 32 && -2147483648 <= n <= 2147483647 then Converted(n)
            else if bits == 64 && -9223372036854775808 <= n <= 9223372036854775807 then Converted(n)
            else OutOfRange
  {
    ReadBack(n, []);
    assert ToString(n) + [] == ToString(n);
  }
}
