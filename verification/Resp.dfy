/** RESP2 values, their wire form, and the grammar the parser accepts.

    `Decode` reads one value at the front of a byte string and says how many bytes it took.
    It is stated on suffixes; the parser object, which works with absolute offsets in its
    buffer, is in Parser.dfy.
 */
module Resp {
  import opened Bytes

  datatype RespValue =
    | Null
    | SimpleString(text: Bytes)
    | Error(message: Bytes)
    | Integer(number: int)
    | BulkString(data: Bytes)
    | Array(elements: seq<RespValue>)

  // ---- serializer ----------------------------------------------------------------------

  function Wire(v: RespValue): (w: Bytes)
    ensures |w| >= 3
  {
    match v
    case Null => "$-1" + CRLF
    case SimpleString(text) => "+" + text + CRLF
    case Error(message) => "-" + message + CRLF
    case Integer(number) => ":" + IntText(number) + CRLF
    case BulkString(data) => "$" + IntText(|data|) + CRLF + data + CRLF
    case Array(elements) => "*" + IntText(|elements|) + CRLF + WireAll(elements)
  }

  function WireAll(vs: seq<RespValue>): Bytes {
    if vs == [] then "" else Wire(vs[0]) + WireAll(vs[1..])
  }

  // ---- parser --------------------------------------------------------------------------

  /** One value read and the bytes it took; or more bytes are needed; or a protocol error. */
  datatype Parsed = Done(value: RespValue, size: nat) | More | Fail(violation: Violation)

  datatype ParsedMany = ManyDone(values: seq<RespValue>, size: nat) | ManyMore | ManyFail(violation: Violation)

  datatype Violation =
    | UnknownType(tag: char)
    | InvalidInteger(line: Bytes)
    | InvalidBulkLength(line: Bytes)
    | NegativeBulkLength
    | InvalidArrayCount(line: Bytes)
    | NegativeArrayCount

  /** The text of the exception thrown. */
  function What(violation: Violation): Bytes {
    match violation
    case UnknownType(tag) => "RESP: unknown type byte '" + [tag] + "'"
    case InvalidInteger(line) => "RESP: invalid integer '" + line + "'"
    case InvalidBulkLength(line) => "RESP: invalid bulk string length '" + line + "'"
    case NegativeBulkLength => "RESP: negative bulk string length"
    case InvalidArrayCount(line) => "RESP: invalid array count '" + line + "'"
    case NegativeArrayCount => "RESP: negative array count"
  }

  /** The line after the type byte, and the bytes up to and including its CRLF. */
  datatype Header = NoLine | Line(text: Bytes, size: nat)

  function ReadHeader(s: Bytes): (h: Header)
    requires s != ""
    ensures h.Line? ==> 3 <= h.size <= |s| && CrlfFree(h.text)
  {
    match FindCrlf(s[1..])
    case None => NoLine
    case Some(p) =>
      assert CrlfFree(s[1..][..p]) by {
        forall q ensures !CrlfAt(s[1..][..p], q) {
          if CrlfAt(s[1..][..p], q) { assert CrlfAt(s[1..], q); }
        }
      }
      Line(s[1..][..p], p + 3)
  }

  function Decode(s: Bytes): (r: Parsed)
    ensures r.Done? ==> 3 <= r.size <= |s|
    decreases |s|, 1
  {
    if s == "" then More
    else if s[0] == '+' then DecodeLine(s)
    else if s[0] == '-' then DecodeLine(s)
    else if s[0] == ':' then DecodeInteger(s)
    else if s[0] == '$' then DecodeBulk(s)
    else if s[0] == '*' then DecodeArray(s)
    else Fail(UnknownType(s[0]))
  }

  function DecodeLine(s: Bytes): (r: Parsed)
    requires s != ""
    ensures r.Done? ==> 3 <= r.size <= |s|
  {
    match ReadHeader(s)
    case NoLine => More
    case Line(text, size) => Done(if s[0] == '+' then SimpleString(text) else Error(text), size)
  }

  function DecodeInteger(s: Bytes): (r: Parsed)
    requires s != ""
    ensures r.Done? ==> 3 <= r.size <= |s|
  {
    match ReadHeader(s)
    case NoLine => More
    case Line(text, size) =>
      match ParseInt(text)
      case None => Fail(InvalidInteger(text))
      case Some(n) => Done(Integer(n), size)
  }

  /** The two bytes that close a bulk string are counted but not looked at. */
  function DecodeBulk(s: Bytes): (r: Parsed)
    requires s != ""
    ensures r.Done? ==> 3 <= r.size <= |s|
  {
    match ReadHeader(s)
    case NoLine => More
    case Line(text, size) =>
      match ParseInt(text)
      case None => Fail(InvalidBulkLength(text))
      case Some(n) =>
        if n == -1 then Done(Null, size)
        else if n < 0 then Fail(NegativeBulkLength)
        else if size + n + 2 > |s| then More
        else Done(BulkString(s[size..size + n]), size + n + 2)
  }

  function DecodeArray(s: Bytes): (r: Parsed)
    requires s != ""
    ensures r.Done? ==> 3 <= r.size <= |s|
    decreases |s|, 0
  {
    match ReadHeader(s)
    case NoLine => More
    case Line(text, size) =>
      match ParseInt(text)
      case None => Fail(InvalidArrayCount(text))
      case Some(n) =>
        if n == -1 then Done(Null, size)
        else if n < 0 then Fail(NegativeArrayCount)
        else
          match DecodeMany(s[size..], n)
          case ManyDone(values, taken) => Done(Array(values), size + taken)
          case ManyMore => More
          case ManyFail(violation) => Fail(violation)
  }

  function DecodeMany(s: Bytes, count: nat): (r: ParsedMany)
    ensures r.ManyDone? ==> r.size <= |s| && |r.values| == count
    decreases |s|, 2, count
  {
    if count == 0 then ManyDone([], 0)
    else
      match Decode(s)
      case More => ManyMore
      case Fail(violation) => ManyFail(violation)
      case Done(value, size) =>
        match DecodeMany(s[size..], count - 1)
        case ManyDone(values, taken) => ManyDone([value] + values, size + taken)
        case other => other
  }

  // ---- draining ------------------------------------------------------------------------

  /** What repeated reads take from a buffer: the values, the bytes left over, and the
      protocol error, if one stopped the reads. */
  datatype Drained = Drained(values: seq<RespValue>, rest: Bytes, error: Option<Violation>)

  function Drain(s: Bytes): (d: Drained)
    ensures |d.rest| <= |s|
    decreases |s|
  {
    match Decode(s)
    case More => Drained([], s, None)
    case Fail(violation) => Drained([], s, Some(violation))
    case Done(value, size) =>
      var d := Drain(s[size..]);
      Drained([value] + d.values, d.rest, d.error)
  }

  function Concat(chunks: seq<Bytes>): Bytes {
    if chunks == [] then "" else chunks[0] + Concat(chunks[1..])
  }

  /** Chunk after chunk is appended to what is left over and drained, also after an error. */
  function DrainChunks(buffer: Bytes, chunks: seq<Bytes>): Drained
    decreases |chunks|
  {
    if chunks == [] then Drain(buffer)
    else
      var d := Drain(buffer + chunks[0]);
      var rest := DrainChunks(d.rest, chunks[1..]);
      Drained(d.values + rest.values, rest.rest, rest.error)
  }
}
