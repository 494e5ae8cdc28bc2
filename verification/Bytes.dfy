/** Byte strings as the server sees them, and the decimal texts it reads and prints.

    A byte string is a `string`, one character per byte: no operation here looks at more
    of a character than its equality with an ASCII constant, so every statement about all
    strings holds in particular of those whose characters are bytes.
 */
module Bytes {

  type Bytes = string

  datatype Option<+T> = None | Some(value: T)

  const CRLF: Bytes := "\r\n"

  const INT64_MIN: int := -0x8000_0000_0000_0000
  const INT64_MAX: int := 0x7FFF_FFFF_FFFF_FFFF

  predicate IsInt64(n: int) {
    INT64_MIN <= n <= INT64_MAX
  }

  // ---- lines ---------------------------------------------------------------------------

  predicate CrlfAt(s: Bytes, p: int) {
    0 <= p && p + 1 < |s| && s[p] == '\r' && s[p + 1] == '\n'
  }

  ghost predicate CrlfFree(s: Bytes) {
    forall p :: !CrlfAt(s, p)
  }

  /** The position of the first CRLF, as `buf_.find("\r\n", ...)` reports it. */
  function FindCrlf(s: Bytes): (r: Option<nat>)
    ensures r.Some? ==> CrlfAt(s, r.value) && forall q :: q < r.value ==> !CrlfAt(s, q)
    ensures r.None? ==> CrlfFree(s)
  {
    if |s| < 2 then None
    else if CrlfAt(s, 0) then Some(0)
    else
      var rest := FindCrlf(s[1..]);
      assert forall q :: 1 <= q ==> CrlfAt(s, q) == CrlfAt(s[1..], q - 1);
      match rest
      case None => None
      case Some(p) => Some(p + 1)
  }

  /** A text without CRLF, closed by CRLF, is found whole, whatever follows. */
  lemma LineFound(text: Bytes, rest: Bytes)
    requires CrlfFree(text)
    ensures FindCrlf(text + CRLF + rest) == Some(|text|)
  {
    var s := text + CRLF + rest;
    assert CrlfAt(s, |text|);
    forall q | q < |text| ensures !CrlfAt(s, q) {
      assert !CrlfAt(text, q);
    }
  }

  // ---- upper-casing --------------------------------------------------------------------

  function UpperChar(c: char): char {
    if 'a' <= c <= 'z' then ((c as int) - 32) as char else c
  }

  function Upper(s: Bytes): (r: Bytes)
    ensures |r| == |s|
    ensures forall i :: 0 <= i < |s| ==> r[i] == UpperChar(s[i])
  {
    if s == "" then "" else [UpperChar(s[0])] + Upper(s[1..])
  }

  lemma UpperIdempotent(s: Bytes)
    ensures Upper(Upper(s)) == Upper(s)
  {
    assert |Upper(Upper(s))| == |Upper(s)|;
  }

  // ---- decimal texts -------------------------------------------------------------------

  predicate IsDigit(c: char) {
    '0' <= c <= '9'
  }

  function DigitChar(d: nat): char
    requires d < 10
  {
    ('0' as int + d) as char
  }

  function DigitValue(c: char): nat
    requires IsDigit(c)
  {
    c as int - '0' as int
  }

  function NatText(n: nat): (s: Bytes)
    ensures s != "" && forall i :: 0 <= i < |s| ==> IsDigit(s[i])
  {
    if n < 10 then [DigitChar(n)] else NatText(n / 10) + [DigitChar(n % 10)]
  }

  /** `std::to_string` */
  function IntText(n: int): Bytes {
    if n < 0 then "-" + NatText(-n) else NatText(n)
  }

  predicate AllDigits(s: Bytes) {
    forall i :: 0 <= i < |s| ==> IsDigit(s[i])
  }

  function NatValue(s: Bytes): nat
    requires AllDigits(s)
  {
    if s == "" then 0 else NatValue(s[..|s| - 1]) * 10 + DigitValue(s[|s| - 1])
  }

  /** `std::from_chars` into an int64, with the whole text matched: an optional minus sign,
      at least one digit, nothing else, and a value in range. */
  function ParseInt(s: Bytes): (r: Option<int>)
    ensures r.Some? ==> IsInt64(r.value)
  {
    var negative := s != "" && s[0] == '-';
    var digits := if negative then s[1..] else s;
    if digits == "" || !AllDigits(digits) then None
    else
      var magnitude: int := NatValue(digits);
      var n := if negative then -magnitude else magnitude;
      if IsInt64(n) then Some(n) else None
  }

  lemma {:induction false} NatTextValue(n: nat)
    ensures AllDigits(NatText(n)) && NatValue(NatText(n)) == n
  {
    if n >= 10 {
      NatTextValue(n / 10);
      var s := NatText(n);
      assert s[..|s| - 1] == NatText(n / 10);
    } else {
      assert NatText(n)[..0] == "";
    }
  }

  /** Printing then reading gives the number back exactly when it fits an int64. */
  lemma PrintParse(n: int)
    ensures ParseInt(IntText(n)) == if IsInt64(n) then Some(n) else None
  {
    if n < 0 {
      NatTextValue(-n);
      assert IntText(n)[1..] == NatText(-n);
    } else {
      NatTextValue(n);
      assert IsDigit(NatText(n)[0]);
    }
  }

  lemma IntTextCrlfFree(n: int)
    ensures CrlfFree(IntText(n))
  {
    var s := IntText(n);
    assert forall i :: 0 <= i < |s| ==> s[i] == '-' || IsDigit(s[i]);
  }
}
