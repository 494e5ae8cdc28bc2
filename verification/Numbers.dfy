/** What a text denotes, stated apart from the functions that read and print numbers. */
module Numbers {
  import opened Bytes

  const DIGITS: Bytes := "0123456789"

  /** The text is a decimal notation of the number: digits, the last one worth the units. Zeros in
      front are allowed. */
  ghost predicate Decimal(text: Bytes, n: nat) {
    && text != "" && text[|text| - 1] == DIGITS[n % 10]
    && (if |text| == 1 then n < 10 else Decimal(text[..|text| - 1], n / 10))
  }

  /** The same with a minus sign in front, for numbers that are not positive; there is no plus
      sign, and nothing else in the text. */
  ghost predicate Denotes(text: Bytes, n: int) {
    if text != "" && text[0] == '-' then n <= 0 && Decimal(text[1..], -n) else n >= 0 && Decimal(text, n)
  }

  /** The text denotes a number of 64 bits with a sign. */
  ghost predicate DenotesInt64(text: Bytes, n: int) {
    Denotes(text, n) && -9223372036854775808 <= n <= 9223372036854775807
  }

  lemma DigitsAt(d: nat)
    requires d < 10
    ensures DIGITS[d] == DigitChar(d) && IsDigit(DIGITS[d]) && DigitValue(DIGITS[d]) == d
  {
  }

  lemma DigitIs(c: char)
    requires IsDigit(c)
    ensures DigitValue(c) < 10 && DIGITS[DigitValue(c)] == c
  {
    DigitsAt(DigitValue(c));
  }

  lemma {:induction false} DecimalReads(text: Bytes, n: nat)
    requires Decimal(text, n)
    ensures AllDigits(text) && NatValue(text) == n
    decreases |text|
  {
    DigitsAt(n % 10);
    var last := |text| - 1;
    if last > 0 {
      DecimalReads(text[..last], n / 10);
      assert text == text[..last] + [text[last]];
    } else {
      assert text[..last] == "";
    }
  }

  lemma Units(m: nat, d: nat)
    requires d < 10
    ensures (m * 10 + d) % 10 == d && (m * 10 + d) / 10 == m
  {
  }

  lemma DecimalAdds(text: Bytes, m: nat, d: nat)
    requires |text| > 1 && d < 10 && text[|text| - 1] == DIGITS[d] && Decimal(text[..|text| - 1], m)
    ensures Decimal(text, m * 10 + d)
  {
    Units(m, d);
  }

  lemma {:induction false} ReadsDecimal(text: Bytes)
    requires text != "" && AllDigits(text)
    ensures Decimal(text, NatValue(text))
    decreases |text|
  {
    var last := |text| - 1;
    DigitIs(text[last]);
    var d := DigitValue(text[last]);
    if last > 0 {
      ReadsDecimal(text[..last]);
      var m := NatValue(text[..last]);
      Units(m, d);
      hide Decimal;
      DecimalAdds(text, m, d);
    } else {
      assert NatValue(text[..last]) == 0;
    }
  }

  /** What `from_chars` accepts, and as what: exactly the texts that denote an int64, for every
      text. */
  lemma ParseMeaning(text: Bytes, n: int)
    ensures ParseInt(text) == Some(n) <==> DenotesInt64(text, n)
  {
    hide Decimal, NatValue, AllDigits;
    var negative := text != "" && text[0] == '-';
    var digits := if negative then text[1..] else text;
    if ParseInt(text) == Some(n) {
      ReadsDecimal(digits);
    } else if DenotesInt64(text, n) {
      DecimalReads(digits, if negative then -n else n);
      assert digits != "" by { DecimalNotEmpty(digits, if negative then -n else n); }
    }
  }

  lemma DecimalNotEmpty(text: Bytes, n: nat)
    requires Decimal(text, n)
    ensures text != ""
  {
  }

  /** A text denotes one number only. */
  lemma DenotesOne(text: Bytes, m: int, n: int)
    requires Denotes(text, m) && Denotes(text, n)
    ensures m == n
  {
    hide Decimal;
    if text != "" && text[0] == '-' {
      DecimalReads(text[1..], -m);
      DecimalReads(text[1..], -n);
    } else {
      DecimalReads(text, m);
      DecimalReads(text, n);
    }
  }

  // ---- the canonical text ----------------------------------------------------------------------

  function Zeros(k: nat): (r: Bytes)
    ensures |r| == k && forall i :: 0 <= i < k ==> r[i] == '0'
  {
    seq(k, (i: nat) => '0')
  }

  /** Every notation is some zeros and the printed number. */
  lemma {:induction false} DecimalForm(text: Bytes, n: nat) returns (k: nat)
    requires Decimal(text, n)
    ensures text == Zeros(k) + NatText(n)
    decreases |text|
  {
    DigitsAt(n % 10);
    var last := |text| - 1;
    if last == 0 {
      k := 0;
    } else {
      k := DecimalForm(text[..last], n / 10);
      assert text == text[..last] + [text[last]];
      if n < 10 {
        assert Zeros(k) + "0" == Zeros(k + 1);
        k := k + 1;
      } else {
        assert Zeros(k) + NatText(n / 10) + [text[last]] == Zeros(k) + (NatText(n / 10) + [text[last]]);
      }
    }
  }

  lemma {:induction false} PrintedIsDecimal(n: nat)
    ensures Decimal(NatText(n), n)
  {
    DigitsAt(n % 10);
    var text := NatText(n);
    if n >= 10 {
      PrintedIsDecimal(n / 10);
      assert text[..|text| - 1] == NatText(n / 10);
    }
  }

  /** What is printed denotes the number, and no shorter text does: there is no zero in front and no
      sign that is not needed. */
  lemma PrintMeaning(n: int, text: Bytes)
    ensures Denotes(IntText(n), n)
    ensures Denotes(text, n) ==> |IntText(n)| <= |text|
  {
    var size: nat := if n < 0 then -n else n;
    PrintedIsDecimal(size);
    assert IsDigit(NatText(size)[0]);
    if n < 0 {
      assert IntText(n)[1..] == NatText(size);
    }
    hide Decimal, NatText;
    if Denotes(text, n) {
      var k := DecimalForm(if text != "" && text[0] == '-' then text[1..] else text, size);
    }
  }
}
