/** RESP2 as a grammar: which bytes are a value and which are refused, stated apart from the
    parser and the serializer, and what the two do in its terms. */
module Grammar {
  import opened Bytes
  import opened Resp
  import opened RespTheorems
  import opened Numbers

  // ---- the grammar ------------------------------------------------------------------------------

  /** A carriage return and a line feed end the first line. */
  ghost predicate OneLineText(text: Bytes) {
    forall i :: 0 <= i < |text| - 1 ==> !(text[i] == '\r' && text[i + 1] == '\n')
  }

  ghost predicate LineOf(p: Bytes, tag: char, text: Bytes) {
    p == [tag] + text + ['\r', '\n'] && OneLineText(text)
  }

  /** A whole header line at the front. */
  ghost predicate Opens(s: Bytes, tag: char, line: Bytes) {
    |line| + 3 <= |s| && LineOf(s[..|line| + 3], tag, line)
  }

  /** The text of a number in a header; in the strict form without a zero in front. */
  ghost predicate Number(text: Bytes, n: int, strict: bool) {
    DenotesInt64(text, n) && (strict ==> (|text| > 1 ==> text[0] != '0' && !(text[0] == '-' && text[1] == '0')))
  }

  /** The bytes are an encoding of the value. The parser is lenient: it takes any two bytes after
      the data of a bulk string, a null array for a null, and numbers with zeros in front; in the
      strict form there is one encoding only. */
  ghost predicate Encodes(p: Bytes, v: RespValue, strict: bool)
    decreases v, 0
  {
    match v
    case SimpleString(text) => LineOf(p, '+', text)
    case Error(text) => LineOf(p, '-', text)
    case Integer(n) => exists text :: LineOf(p, ':', text) && Number(text, n, strict)
    case Null => exists text :: (LineOf(p, '$', text) || (!strict && LineOf(p, '*', text))) && Number(text, -1, strict)
    case BulkString(data) => exists text, close :: Bulk(p, text, data, close, strict)
    case Array(elements) =>
      exists text :: ArrayHead(p, text, |elements|, strict) && EncodesAll(p[|text| + 3..], elements, strict)
  }

  ghost predicate Bulk(p: Bytes, text: Bytes, data: Bytes, close: Bytes, strict: bool) {
    && |close| == 2 && (strict ==> close == "\r\n")
    && Opens(p, '$', text) && Number(text, |data|, strict)
    && p[|text| + 3..] == data + close
  }

  ghost predicate ArrayHead(p: Bytes, text: Bytes, count: int, strict: bool) {
    Opens(p, '*', text) && Number(text, count, strict)
  }

  /** Encodings of the values, one after another. */
  ghost predicate EncodesAll(p: Bytes, vs: seq<RespValue>, strict: bool)
    decreases vs, 1
  {
    if vs == [] then p == ""
    else exists k :: 0 <= k <= |p| && Encodes(p[..k], vs[0], strict) && EncodesAll(p[k..], vs[1..], strict)
  }

  ghost predicate NoInt64(line: Bytes) {
    forall n :: !DenotesInt64(line, n)
  }

  ghost predicate BelowMinusOne(s: Bytes, tag: char, line: Bytes, n: int) {
    Opens(s, tag, line) && DenotesInt64(line, n) && n < -1
  }

  /** What is wrong at the front: a byte that is no type, or a whole header line that holds no
      int64, or a length or count below -1. */
  ghost predicate WrongFront(s: Bytes, violation: Violation) {
    match violation
    case UnknownType(tag) =>
      s != "" && s[0] == tag && tag != '+' && tag != '-' && tag != ':' && tag != '$' && tag != '*'
    case InvalidInteger(line) => Opens(s, ':', line) && NoInt64(line)
    case InvalidBulkLength(line) => Opens(s, '$', line) && NoInt64(line)
    case InvalidArrayCount(line) => Opens(s, '*', line) && NoInt64(line)
    case NegativeBulkLength => exists line, n :: BelowMinusOne(s, '$', line, n)
    case NegativeArrayCount => exists line, n :: BelowMinusOne(s, '*', line, n)
  }

  /** An array header and some of its elements take the first `m` bytes, and more are to come. */
  ghost predicate OpenArray(s: Bytes, line: Bytes, count: int, done: seq<RespValue>, m: int) {
    && Opens(s, '*', line) && DenotesInt64(line, count) && |done| < count
    && |line| + 3 <= m <= |s| && EncodesAll(s[|line| + 3..m], done, false)
  }

  /** The bytes are refused: something is wrong at the front, or at the front of the first
      unfinished element of an array that is open. */
  ghost predicate Refused(s: Bytes, violation: Violation)
    decreases |s|
  {
    || WrongFront(s, violation)
    || exists line, count, done, m :: OpenArray(s, line, count, done, m) && Refused(s[m..], violation)
  }

  // ---- lines ------------------------------------------------------------------------------------

  lemma TextIsCrlfFree(text: Bytes)
    ensures OneLineText(text) <==> CrlfFree(text)
  {
    if OneLineText(text) {
      forall p ensures !CrlfAt(text, p) {
      }
    } else {
      var i :| 0 <= i < |text| - 1 && text[i] == '\r' && text[i + 1] == '\n';
      assert CrlfAt(text, i);
    }
  }

  lemma HeaderOpens(s: Bytes)
    requires s != "" && ReadHeader(s).Line?
    ensures var h := ReadHeader(s); h.size == |h.text| + 3 && Opens(s, s[0], h.text)
  {
    var p := FindCrlf(s[1..]).value;
    var h := ReadHeader(s);
    assert h.text == s[1..][..p] && h.size == p + 3;
    assert CrlfAt(s[1..], p);
    assert s[..p + 3] == [s[0]] + h.text + ['\r', '\n'];
    TextIsCrlfFree(h.text);
  }

  lemma OpensHeader(s: Bytes, tag: char, line: Bytes)
    requires Opens(s, tag, line)
    ensures s != "" && s[0] == tag && ReadHeader(s) == Line(line, |line| + 3)
  {
    TextIsCrlfFree(line);
    HeaderOfWire(tag, line, s[|line| + 3..]);
    assert s == [tag] + line + CRLF + s[|line| + 3..];
  }

  /** A header line at the front of some bytes is at the front of more, and of fewer. */
  lemma OpensMore(p: Bytes, rest: Bytes, tag: char, line: Bytes)
    requires Opens(p, tag, line)
    ensures Opens(p + rest, tag, line) && |line| + 3 <= |p|
  {
    hide LineOf;
    assert (p + rest)[..|line| + 3] == p[..|line| + 3];
  }

  lemma OpensLess(s: Bytes, n: nat, tag: char, line: Bytes)
    requires Opens(s, tag, line) && |line| + 3 <= n <= |s|
    ensures Opens(s[..n], tag, line)
  {
    hide LineOf;
    assert s[..n][..|line| + 3] == s[..|line| + 3];
  }

  lemma LineOpens(p: Bytes, tag: char, line: Bytes)
    requires LineOf(p, tag, line)
    ensures Opens(p, tag, line) && |p| == |line| + 3 && p[0] == tag
  {
    assert p[..|line| + 3] == p;
  }

  lemma OpensLine(s: Bytes, tag: char, line: Bytes)
    requires Opens(s, tag, line)
    ensures LineOf(s[..|line| + 3], tag, line)
  {
  }

  lemma NumberParses(text: Bytes, n: int, strict: bool)
    requires Number(text, n, strict)
    ensures ParseInt(text) == Some(n)
  {
    ParseMeaning(text, n);
  }

  lemma ParsedNumber(text: Bytes)
    requires ParseInt(text).Some?
    ensures Number(text, ParseInt(text).value, false)
  {
    ParseMeaning(text, ParseInt(text).value);
  }

  lemma NoNumber(text: Bytes)
    ensures NoInt64(text) <==> ParseInt(text) == None
  {
    forall n ensures ParseInt(text) == Some(n) <==> DenotesInt64(text, n) {
      ParseMeaning(text, n);
    }
    hide ParseInt, DenotesInt64;
    if ParseInt(text).Some? {
      assert DenotesInt64(text, ParseInt(text).value);
    }
  }

  // ---- what the parser completes ----------------------------------------------------------------

  lemma LineEncodes(s: Bytes)
    requires s != "" && s[0] != '$' && s[0] != '*' && Decode(s).Done?
    ensures Encodes(s[..Decode(s).size], Decode(s).value, false)
  {
    hide ParseInt, Number, ReadHeader, LineOf, Opens;
    HeaderOpens(s);
    var h := ReadHeader(s);
    OpensLine(s, s[0], h.text);
    if s[0] == ':' {
      ParsedNumber(h.text);
    }
  }

  lemma BulkEncodes(s: Bytes)
    requires s != "" && s[0] == '$' && Decode(s).Done?
    ensures Encodes(s[..Decode(s).size], Decode(s).value, false)
  {
    hide ParseInt, Number, ReadHeader, LineOf, Opens;
    HeaderOpens(s);
    var h := ReadHeader(s);
    OpensLine(s, s[0], h.text);
    ParsedNumber(h.text);
    var n := ParseInt(h.text).value;
    if n >= 0 {
      BulkOf(s, h.text, n);
    }
  }

  lemma BulkOf(s: Bytes, text: Bytes, n: nat)
    requires Opens(s, '$', text) && Number(text, n, false) && |text| + 3 + n + 2 <= |s|
    ensures var h := |text| + 3;
            Encodes(s[..h + n + 2], BulkString(s[h..h + n]), false)
  {
    hide Number, LineOf;
    var h := |text| + 3;
    var p, data, close := s[..h + n + 2], s[h..h + n], s[h + n..h + n + 2];
    OpensLess(s, h + n + 2, '$', text);
    assert p[h..] == data + close;
    hide Opens;
    assert Bulk(p, text, data, close, false);
  }

  lemma {:induction false} DoneEncodes(s: Bytes)
    requires Decode(s).Done?
    ensures Encodes(s[..Decode(s).size], Decode(s).value, false)
    decreases |s|, 0
  {
    hide ParseInt, Number, ReadHeader, LineOf, Opens, Encodes;
    if s[0] == '$' {
      BulkEncodes(s);
    } else if s[0] != '*' {
      LineEncodes(s);
    } else {
      HeaderOpens(s);
      var h := ReadHeader(s);
      ParsedNumber(h.text);
      var n := ParseInt(h.text).value;
      if n >= 0 {
        ManyDoneEncodes(s[h.size..], n);
        var many := DecodeMany(s[h.size..], n);
        ElementsOf(s, h.text, many.values, many.size);
      } else {
        OpensLine(s, s[0], h.text);
        NullOf(s[..h.size], h.text);
      }
    }
  }

  lemma NullOf(p: Bytes, text: Bytes)
    requires LineOf(p, '*', text) && Number(text, -1, false)
    ensures Encodes(p, Null, false)
  {
    hide LineOf, Number;
  }

  lemma ElementsOf(s: Bytes, text: Bytes, elements: seq<RespValue>, taken: nat)
    requires Opens(s, '*', text) && Number(text, |elements|, false) && |text| + 3 + taken <= |s|
    requires EncodesAll(s[|text| + 3..][..taken], elements, false)
    ensures Encodes(s[..|text| + 3 + taken], Array(elements), false)
  {
    hide Number, LineOf, EncodesAll;
    var h := |text| + 3;
    var p := s[..h + taken];
    OpensLess(s, h + taken, '*', text);
    assert p[h..] == s[h..][..taken];
    hide Opens;
    assert ArrayHead(p, text, |elements|, false);
  }

  lemma {:induction false} ManyDoneEncodes(s: Bytes, count: nat)
    requires DecodeMany(s, count).ManyDone?
    ensures EncodesAll(s[..DecodeMany(s, count).size], DecodeMany(s, count).values, false)
    decreases |s|, 1, count
  {
    hide Decode, Encodes;
    if count > 0 {
      var size := Decode(s).size;
      DoneEncodes(s);
      ManyDoneEncodes(s[size..], count - 1);
      var rest := DecodeMany(s[size..], count - 1);
      hide EncodesAll;
      EncodesMore(s[..size], Decode(s).value, s[size..][..rest.size], rest.values, false);
      assert s[..size] + s[size..][..rest.size] == s[..size + rest.size];
    }
  }

  lemma EncodesMore(p: Bytes, v: RespValue, q: Bytes, vs: seq<RespValue>, strict: bool)
    requires Encodes(p, v, strict) && EncodesAll(q, vs, strict)
    ensures EncodesAll(p + q, [v] + vs, strict)
  {
    hide Encodes;
    var r := p + q;
    assert r[..|p|] == p && r[|p|..] == q && ([v] + vs)[1..] == vs;
  }

  // ---- and completes all of it ------------------------------------------------------------------

  lemma LineDecodes(p: Bytes, v: RespValue, rest: Bytes)
    requires Encodes(p, v, false) && (v.SimpleString? || v.Error? || v.Integer?)
    ensures Decode(p + rest) == Done(v, |p|)
  {
    hide LineOf, Opens, Number, ParseInt, ReadHeader;
    var tag, text;
    match v {
      case SimpleString(t) => tag, text := '+', t;
      case Error(t) => tag, text := '-', t;
      case Integer(n) =>
        tag := ':';
        text :| LineOf(p, ':', text) && Number(text, n, false);
        NumberParses(text, n, false);
    }
    LineOpens(p, tag, text);
    OpensMore(p, rest, tag, text);
    OpensHeader(p + rest, tag, text);
  }

  lemma NullDecodes(p: Bytes, rest: Bytes)
    requires Encodes(p, Null, false)
    ensures Decode(p + rest) == Done(Null, |p|)
  {
    hide LineOf, Opens, Number, ParseInt, ReadHeader, DecodeMany;
    var text :| (LineOf(p, '$', text) || LineOf(p, '*', text)) && Number(text, -1, false);
    NumberParses(text, -1, false);
    var tag := if LineOf(p, '$', text) then '$' else '*';
    LineOpens(p, tag, text);
    OpensMore(p, rest, tag, text);
    OpensHeader(p + rest, tag, text);
  }

  lemma BulkDecodes(p: Bytes, data: Bytes, rest: Bytes)
    requires Encodes(p, BulkString(data), false)
    ensures Decode(p + rest) == Done(BulkString(data), |p|)
  {
    hide LineOf, Opens, Number, ParseInt, ReadHeader;
    var text, close :| Bulk(p, text, data, close, false);
    NumberParses(text, |data|, false);
    OpensMore(p, rest, '$', text);
    OpensHeader(p + rest, '$', text);
    BulkSlice(p, |text| + 3, data, close, rest);
  }

  lemma BulkSlice(p: Bytes, h: nat, data: Bytes, close: Bytes, rest: Bytes)
    requires h <= |p| && p[h..] == data + close
    ensures |p| == h + |data| + |close| && (p + rest)[h..h + |data|] == data
  {
    assert (p + rest)[h..h + |data|] == p[h..][..|data|];
  }

  lemma {:induction false} EncodesDecode(p: Bytes, v: RespValue, rest: Bytes)
    requires Encodes(p, v, false)
    ensures Decode(p + rest) == Done(v, |p|)
    decreases v, 0
  {
    match v
    case Null => NullDecodes(p, rest);
    case BulkString(data) => BulkDecodes(p, data, rest);
    case Array(elements) =>
      var text :| ArrayHead(p, text, |elements|, false) && EncodesAll(p[|text| + 3..], elements, false);
      ArrayDecodes(p, text, elements, rest);
    case _ => LineDecodes(p, v, rest);
  }

  lemma {:induction false} ArrayDecodes(p: Bytes, text: Bytes, elements: seq<RespValue>, rest: Bytes)
    requires ArrayHead(p, text, |elements|, false) && EncodesAll(p[|text| + 3..], elements, false)
    ensures Decode(p + rest) == Done(Array(elements), |p|)
    decreases elements, 2
  {
    hide LineOf, Number, ParseInt, ReadHeader, DecodeMany, EncodesAll, Decode;
    var h := |text| + 3;
    NumberParses(text, |elements|, false);
    OpensMore(p, rest, '*', text);
    hide Opens;
    OpensHeader(p + rest, '*', text);
    assert (p + rest)[h..] == p[h..] + rest;
    EncodesAllDecode(p[h..], elements, rest);
    ArrayOf(p + rest, text, elements, |p| - h);
  }

  lemma ArrayOf(s: Bytes, text: Bytes, elements: seq<RespValue>, taken: nat)
    requires s != "" && s[0] == '*' && ReadHeader(s) == Line(text, |text| + 3) && ParseInt(text) == Some(|elements|)
    requires DecodeMany(s[|text| + 3..], |elements|) == ManyDone(elements, taken)
    ensures Decode(s) == Done(Array(elements), |text| + 3 + taken)
  {
    hide ReadHeader, ParseInt, DecodeMany;
    assert Decode(s) == DecodeArray(s);
  }

  lemma {:induction false} EncodesAllDecode(p: Bytes, vs: seq<RespValue>, rest: Bytes)
    requires EncodesAll(p, vs, false)
    ensures DecodeMany(p + rest, |vs|) == ManyDone(vs, |p|)
    decreases vs, 1
  {
    hide Decode, Encodes, DecodeMany;
    if vs == [] {
      assert p + rest == rest;
      DecodeManyNone(rest);
    } else {
      var k :| 0 <= k <= |p| && Encodes(p[..k], vs[0], false) && EncodesAll(p[k..], vs[1..], false);
      hide EncodesAll;
      EncodesDecode(p[..k], vs[0], p[k..] + rest);
      EncodesAllDecode(p[k..], vs[1..], rest);
      assert p + rest == p[..k] + (p[k..] + rest);
      DecodeManyFront(p[..k], p[k..] + rest, |vs|);
      assert [vs[0]] + vs[1..] == vs;
    }
  }

  // ---- what the parser refuses ------------------------------------------------------------------

  lemma WrongFrontFails(s: Bytes, violation: Violation)
    requires WrongFront(s, violation)
    ensures Decode(s) == Fail(violation)
  {
    match violation
    case UnknownType(_) =>
    case InvalidInteger(line) => OpensHeader(s, ':', line); NoNumber(line); hide ReadHeader, ParseInt;
    case InvalidBulkLength(line) => OpensHeader(s, '$', line); NoNumber(line); hide ReadHeader, ParseInt;
    case InvalidArrayCount(line) => OpensHeader(s, '*', line); NoNumber(line); hide ReadHeader, ParseInt;
    case NegativeBulkLength =>
      var line, n :| BelowMinusOne(s, '$', line, n);
      OpensHeader(s, '$', line);
      NumberParses(line, n, false);
      hide ReadHeader, ParseInt;
    case NegativeArrayCount =>
      var line, n :| BelowMinusOne(s, '*', line, n);
      OpensHeader(s, '*', line);
      NumberParses(line, n, false);
      hide ReadHeader, ParseInt;
  }

  lemma {:induction false} ManyFails(p: Bytes, done: seq<RespValue>, rest: Bytes, count: int, violation: Violation)
    requires EncodesAll(p, done, false) && |done| < count && Decode(rest) == Fail(violation)
    ensures DecodeMany(p + rest, count) == ManyFail(violation)
    decreases |done|
  {
    hide Decode, Encodes;
    if done == [] {
      assert p + rest == rest;
    } else {
      var k :| 0 <= k <= |p| && Encodes(p[..k], done[0], false) && EncodesAll(p[k..], done[1..], false);
      hide EncodesAll, DecodeMany;
      EncodesDecode(p[..k], done[0], p[k..] + rest);
      ManyFails(p[k..], done[1..], rest, count - 1, violation);
      assert p + rest == p[..k] + (p[k..] + rest);
      DecodeManyFront(p[..k], p[k..] + rest, count);
    }
  }

  lemma OpenArrayFails(s: Bytes, line: Bytes, count: int, done: seq<RespValue>, m: int, violation: Violation)
    requires OpenArray(s, line, count, done, m) && Decode(s[m..]) == Fail(violation)
    ensures Decode(s) == Fail(violation)
  {
    hide LineOf, ParseInt, ReadHeader, DecodeMany, EncodesAll, Decode, Opens, DenotesInt64;
    var h := |line| + 3;
    ManyFails(s[h..m], done, s[m..], count, violation);
    assert s[h..m] + s[m..] == s[h..];
    OpensHeader(s, '*', line);
    NumberParses(line, count, false);
    ArrayFails(s, line, count, violation);
  }

  lemma ArrayFails(s: Bytes, text: Bytes, count: nat, violation: Violation)
    requires s != "" && s[0] == '*' && ReadHeader(s) == Line(text, |text| + 3) && ParseInt(text) == Some(count)
    requires DecodeMany(s[|text| + 3..], count) == ManyFail(violation)
    ensures Decode(s) == Fail(violation)
  {
    hide ReadHeader, ParseInt, DecodeMany;
    assert Decode(s) == DecodeArray(s);
  }

  lemma {:induction false} RefusedFails(s: Bytes, violation: Violation)
    requires Refused(s, violation)
    ensures Decode(s) == Fail(violation)
    decreases |s|
  {
    hide WrongFront, Decode;
    if WrongFront(s, violation) {
      WrongFrontFails(s, violation);
    } else {
      var line, count, done, m :| OpenArray(s, line, count, done, m) && Refused(s[m..], violation);
      RefusedFails(s[m..], violation);
      OpenArrayFails(s, line, count, done, m, violation);
    }
  }

  lemma FrontRefused(s: Bytes)
    requires Decode(s).Fail?
    requires s[0] == '*' ==>
               && ReadHeader(s).Line?
               && (ParseInt(ReadHeader(s).text).None? || ParseInt(ReadHeader(s).text).value < 0)
    ensures WrongFront(s, Decode(s).violation)
  {
    if s[0] == ':' || s[0] == '$' || s[0] == '*' {
      HeaderOpens(s);
      var line := ReadHeader(s).text;
      NoNumber(line);
      if ParseInt(line).Some? {
        ParsedNumber(line);
        assert s[0] == '$' && ParseInt(line).value < -1 ==> BelowMinusOne(s, '$', line, ParseInt(line).value);
        assert s[0] == '*' && ParseInt(line).value < -1 ==> BelowMinusOne(s, '*', line, ParseInt(line).value);
      }
      hide ReadHeader, ParseInt, NoInt64, BelowMinusOne, Opens, DecodeMany;
    }
  }

  lemma {:induction false} FailRefused(s: Bytes)
    requires Decode(s).Fail?
    ensures Refused(s, Decode(s).violation)
    decreases |s|, 0
  {
    hide WrongFront, ParseInt, LineOf, Opens, Number, EncodesAll;
    var h := ReadHeader(s);
    if s[0] == '*' && h.Line? && ParseInt(h.text).Some? && ParseInt(h.text).value >= 0 {
      HeaderOpens(s);
      ParsedNumber(h.text);
      var n := ParseInt(h.text).value;
      var done, k := ManyFailRefused(s[h.size..], n);
      var m := h.size + k;
      assert s[h.size..][..k] == s[h.size..m] && s[h.size..][k..] == s[m..];
      assert OpenArray(s, h.text, n, done, m);
    } else {
      FrontRefused(s);
    }
  }

  lemma {:induction false} ManyFailRefused(s: Bytes, count: nat) returns (done: seq<RespValue>, k: nat)
    requires DecodeMany(s, count).ManyFail?
    ensures |done| < count && k <= |s| && EncodesAll(s[..k], done, false)
    ensures Refused(s[k..], DecodeMany(s, count).violation)
    decreases |s|, 1, count
  {
    hide Decode, Encodes, Refused;
    if Decode(s).Fail? {
      FailRefused(s);
      done, k := [], 0;
      assert s[0..] == s;
    } else {
      var size := Decode(s).size;
      DoneEncodes(s);
      var later, j := ManyFailRefused(s[size..], count - 1);
      done, k := [Decode(s).value] + later, size + j;
      EncodesMore(s[..size], Decode(s).value, s[size..][..j], later, false);
      assert s[..size] + s[size..][..j] == s[..k] && s[size..][j..] == s[k..];
    }
  }

  // ---- main results -----------------------------------------------------------------------------

  /** The parser completes a value after `n` bytes exactly when these are an encoding of it. */
  lemma CompletesEncodings(s: Bytes, v: RespValue, n: nat)
    ensures Decode(s) == Done(v, n) <==> n <= |s| && Encodes(s[..n], v, false)
  {
    hide Decode, Encodes;
    if n <= |s| && Encodes(s[..n], v, false) {
      EncodesDecode(s[..n], v, s[n..]);
      assert s[..n] + s[n..] == s;
    } else if Decode(s) == Done(v, n) {
      DoneEncodes(s);
    }
  }

  /** The parser reports a protocol error exactly when the bytes are refused, and for that reason. */
  lemma ReportsRefused(s: Bytes, violation: Violation)
    ensures Decode(s) == Fail(violation) <==> Refused(s, violation)
  {
    hide Decode, Refused;
    if Refused(s, violation) {
      RefusedFails(s, violation);
    } else if Decode(s) == Fail(violation) {
      FailRefused(s);
    }
  }

  lemma {:induction false} NatTextFront(n: nat)
    requires n > 0
    ensures NatText(n)[0] != '0'
  {
    if n >= 10 {
      NatTextFront(n / 10);
    }
  }

  lemma IntTextNumber(n: int)
    requires IsInt64(n)
    ensures Number(IntText(n), n, true) && OneLineText(IntText(n))
  {
    PrintMeaning(n, "");
    IntTextCrlfFree(n);
    TextIsCrlfFree(IntText(n));
    if n > 0 {
      NatTextFront(n);
    } else if n < 0 {
      NatTextFront(-n);
    }
  }

  /** The serializer writes the strict form. */
  lemma {:induction false} WireIsStrict(v: RespValue)
    requires Wireable(v)
    ensures Encodes(Wire(v), v, true)
    decreases v, 0
  {
    match v
    case Null => NullIsStrict();
    case SimpleString(text) => TextIsCrlfFree(text);
    case Error(text) => TextIsCrlfFree(text);
    case Integer(n) => IntTextNumber(n); hide Number, IntText;
    case BulkString(data) =>
      IntTextNumber(|data|);
      var p, text := Wire(v), IntText(|data|);
      assert p == "$" + text + "\r\n" + data + "\r\n";
      assert p[..|text| + 3] == "$" + text + "\r\n" && p[|text| + 3..] == data + "\r\n";
      hide Number, IntText;
      assert Bulk(p, text, data, "\r\n", true);
    case Array(elements) =>
      IntTextNumber(|elements|);
      var p, text := Wire(v), IntText(|elements|);
      assert p == "*" + text + "\r\n" + WireAll(elements);
      assert p[..|text| + 3] == "*" + text + "\r\n" && p[|text| + 3..] == WireAll(elements);
      WireAllIsStrict(elements);
      hide Number, IntText, WireAll, EncodesAll;
      assert ArrayHead(p, text, |elements|, true);
  }

  lemma NullIsStrict()
    ensures Encodes(Wire(Null), Null, true)
  {
    var text := "-1";
    assert Wire(Null) == "$" + text + "\r\n";
    PrintMeaning(-1, "");
    assert NatText(1) == "1" && IntText(-1) == text;
    assert LineOf(Wire(Null), '$', text);
  }

  lemma {:induction false} WireAllIsStrict(vs: seq<RespValue>)
    requires forall v :: v in vs ==> Wireable(v)
    ensures EncodesAll(WireAll(vs), vs, true)
    decreases vs, 1
  {
    hide Encodes, Wire, Wireable;
    if vs != [] {
      assert vs[0] in vs;
      WireIsStrict(vs[0]);
      WireAllIsStrict(vs[1..]);
      WireAllFront(vs);
      hide WireAll, EncodesAll;
      EncodesMore(Wire(vs[0]), vs[0], WireAll(vs[1..]), vs[1..], true);
      assert [vs[0]] + vs[1..] == vs;
    }
  }
}
