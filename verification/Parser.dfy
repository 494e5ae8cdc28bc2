/** The incremental parser object: a buffer, fed chunk by chunk, read by absolute offsets. */
module Parser {
  import opened Bytes
  import opened Resp

  /** What `feed` gives its caller; a protocol violation is thrown. */
  datatype Fed = Value(value: RespValue) | Nothing | Thrown(violation: Violation)

  /** A parse at an absolute offset; `end` is absolute as well. */
  datatype At = DoneAt(value: RespValue, end: nat) | MoreAt | FailAt(violation: Violation)

  function From(s: Bytes, offset: nat): Bytes {
    if offset <= |s| then s[offset..] else ""
  }

  function Shift(r: Parsed, offset: nat): At {
    match r
    case Done(value, size) => DoneAt(value, offset + size)
    case More => MoreAt
    case Fail(violation) => FailAt(violation)
  }

  class RespParser {
    var buf: Bytes

    constructor ()
      ensures buf == ""
    {
      buf := "";
    }

    method Feed(chunk: Bytes) returns (r: Fed)
      modifies this
      ensures match Decode(old(buf) + chunk)
              case Done(value, size) => r == Value(value) && buf == (old(buf) + chunk)[size..]
              case More => r == Nothing && buf == old(buf) + chunk
              case Fail(violation) => r == Thrown(violation) && buf == old(buf) + chunk
    {
      buf := buf + chunk;
      var parsed := Parse(0);
      assert From(buf, 0) == buf;
      match parsed
      case DoneAt(value, end) =>
        buf := buf[end..];
        return Value(value);
      case MoreAt =>
        return Nothing;
      case FailAt(violation) =>
        return Thrown(violation);
    }

    method Reset()
      modifies this
      ensures buf == ""
    {
      buf := "";
    }

    method BufferedSize() returns (n: nat)
      ensures n == |buf|
    {
      n := |buf|;
    }

    /** The line at an offset and the offset after its CRLF. */
    method ReadLine(offset: nat) returns (line: Option<Bytes>, end: nat)
      ensures match FindCrlf(From(buf, offset))
              case None => line == None && end == 0
              case Some(p) => line == Some(From(buf, offset)[..p]) && end == offset + p + 2 <= |buf|
    {
      match FindCrlf(From(buf, offset))
      case None =>
        line, end := None, 0;
      case Some(p) =>
        line, end := Some(From(buf, offset)[..p]), offset + p + 2;
    }

    method Parse(offset: nat) returns (r: At)
      ensures r == Shift(Decode(From(buf, offset)), offset)
      decreases |From(buf, offset)|, 1
    {
      if offset >= |buf| {
        return MoreAt;
      }
      ghost var s := From(buf, offset);
      assert From(buf, offset + 1) == s[1..];
      match buf[offset]
      case '+' =>
        var line, end := ReadLine(offset + 1);
        r := if line.None? then MoreAt else DoneAt(SimpleString(line.value), end);
        assert r == Shift(DecodeLine(s), offset);
      case '-' =>
        var line, end := ReadLine(offset + 1);
        r := if line.None? then MoreAt else DoneAt(Error(line.value), end);
        assert r == Shift(DecodeLine(s), offset);
      case ':' =>
        r := ParseInteger(offset + 1, s);
      case '$' =>
        r := ParseBulkString(offset + 1, s);
      case '*' =>
        r := ParseArray(offset + 1, s);
      case _ =>
        r := FailAt(UnknownType(buf[offset]));
    }

    method ParseInteger(offset: nat, ghost s: Bytes) returns (r: At)
      requires 0 < offset <= |buf| && s == buf[offset - 1..] && s[0] == ':'
      ensures r == Shift(DecodeInteger(s), offset - 1)
    {
      assert From(buf, offset) == s[1..];
      var line, end := ReadLine(offset);
      if line.None? {
        return MoreAt;
      }
      match ParseInt(line.value)
      case None => return FailAt(InvalidInteger(line.value));
      case Some(n) => return DoneAt(Integer(n), end);
    }

    method ParseBulkString(offset: nat, ghost s: Bytes) returns (r: At)
      requires 0 < offset <= |buf| && s == buf[offset - 1..] && s[0] == '$'
      ensures r == Shift(DecodeBulk(s), offset - 1)
    {
      hide ParseInt, FindCrlf;
      assert From(buf, offset) == s[1..];
      var line, afterLength := ReadLine(offset);
      if line.None? {
        return MoreAt;
      }
      match ParseInt(line.value)
      case None =>
        return FailAt(InvalidBulkLength(line.value));
      case Some(length) =>
        if length == -1 {
          return DoneAt(Null, afterLength);
        }
        if length < 0 {
          return FailAt(NegativeBulkLength);
        }
        if afterLength + length + 2 > |buf| {
          return MoreAt;
        }
        ghost var size := ReadHeader(s).size;
        assert s[size..size + length] == buf[afterLength..afterLength + length];
        return DoneAt(BulkString(buf[afterLength..afterLength + length]), afterLength + length + 2);
    }

    method ParseArray(offset: nat, ghost s: Bytes) returns (r: At)
      requires 0 < offset <= |buf| && s == buf[offset - 1..] && s[0] == '*'
      ensures r == Shift(DecodeArray(s), offset - 1)
      decreases |s|, 0
    {
      hide ParseInt, FindCrlf;
      assert From(buf, offset) == s[1..];
      var line, afterCount := ReadLine(offset);
      if line.None? {
        return MoreAt;
      }
      match ParseInt(line.value)
      case None =>
        return FailAt(InvalidArrayCount(line.value));
      case Some(count) =>
        if count == -1 {
          return DoneAt(Null, afterCount);
        }
        if count < 0 {
          return FailAt(NegativeArrayCount);
        }
        assert s[ReadHeader(s).size..] == buf[afterCount..];
        r := ParseElements(afterCount, count);
    }

    /** The loop of `parse_array` over the announced number of elements. */
    method ParseElements(afterCount: nat, count: nat) returns (r: At)
      requires afterCount <= |buf|
      ensures match DecodeMany(buf[afterCount..], count)
              case ManyDone(values, taken) => r == DoneAt(Array(values), afterCount + taken)
              case ManyMore => r == MoreAt
              case ManyFail(violation) => r == FailAt(violation)
      decreases |buf| - afterCount, 2
    {
      hide Decode, DecodeMany, Prepend;
      var elements := [];
      var cur := afterCount;
      PrependNothing(DecodeMany(buf[afterCount..], count));
      var i := 0;
      while i < count
        invariant 0 <= i <= count && afterCount <= cur <= |buf|
        invariant DecodeMany(buf[afterCount..], count)
                  == Prepend(elements, cur - afterCount, DecodeMany(buf[cur..], count - i))
      {
        PrependStep(elements, cur - afterCount, buf[cur..], count - i);
        var element := Parse(cur);
        match element
        case MoreAt => return MoreAt;
        case FailAt(violation) => return FailAt(violation);
        case DoneAt(value, end) =>
          assert buf[cur..][end - cur..] == buf[end..];
          elements := elements + [value];
          cur := end;
        i := i + 1;
      }
      PrependToNone(elements, cur - afterCount, buf[cur..]);
      return DoneAt(Array(elements), cur);
    }
  }

  /** What the rest of an array contributes once some elements have been read. */
  ghost function Prepend(elements: seq<RespValue>, size: nat, rest: ParsedMany): ParsedMany {
    match rest
    case ManyDone(values, taken) => ManyDone(elements + values, size + taken)
    case other => other
  }

  lemma PrependNothing(rest: ParsedMany)
    ensures Prepend([], 0, rest) == rest
  {
    if rest.ManyDone? {
      assert [] + rest.values == rest.values;
    }
  }

  lemma PrependToNone(elements: seq<RespValue>, size: nat, s: Bytes)
    ensures Prepend(elements, size, DecodeMany(s, 0)) == ManyDone(elements, size)
  {
    hide Decode;
    assert elements + [] == elements;
  }

  lemma PrependStep(elements: seq<RespValue>, size: nat, s: Bytes, count: nat)
    requires count > 0
    ensures match Decode(s)
            case Done(value, taken) =>
              Prepend(elements, size, DecodeMany(s, count))
              == Prepend(elements + [value], size + taken, DecodeMany(s[taken..], count - 1))
            case More => Prepend(elements, size, DecodeMany(s, count)) == ManyMore
            case Fail(violation) => Prepend(elements, size, DecodeMany(s, count)) == ManyFail(violation)
  {
    hide Decode;
    match Decode(s)
    case Done(value, taken) =>
      match DecodeMany(s[taken..], count - 1) {
        case ManyDone(values, _) =>
          assert elements + ([value] + values) == elements + [value] + values;
        case _ =>
      }
    case _ =>
  }

  /** The serializer's array overload, as the loop it is. */
  method SerializeArray(elements: seq<RespValue>) returns (out: Bytes)
    ensures out == Wire(Array(elements))
  {
    out := "*" + IntText(|elements|) + CRLF;
    for i := 0 to |elements|
      invariant out + WireAll(elements[i..]) == Wire(Array(elements))
    {
      assert elements[i..][0] == elements[i] && elements[i..][1..] == elements[i + 1..];
      assert out + (Wire(elements[i]) + WireAll(elements[i + 1..]))
             == out + Wire(elements[i]) + WireAll(elements[i + 1..]);
      out := out + Wire(elements[i]);
    }
    assert out + "" == out;
  }
}
