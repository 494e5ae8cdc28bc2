/** What the RESP2 codec keeps: decoding looks at no byte past the value, is undone by and
    undoes the serializer, and does not depend on how the input is cut into chunks. */
module RespTheorems {
  import opened Bytes
  import opened Resp

  // ---- decoding depends only on the bytes it takes --------------------------------------

  /** `t` carries the same first `n` bytes as `s`. */
  ghost predicate Agree(s: Bytes, t: Bytes, n: nat) {
    n <= |s| && n <= |t| && s[..n] == t[..n]
  }

  lemma AgreeTail(s: Bytes, t: Bytes, n: nat, k: nat)
    requires Agree(s, t, n) && k <= n
    ensures Agree(s[k..], t[k..], n - k)
  {
    assert s[k..][..n - k] == s[..n][k..];
    assert t[k..][..n - k] == t[..n][k..];
  }

  lemma AgreeSlice(s: Bytes, t: Bytes, n: nat, a: nat, b: nat)
    requires Agree(s, t, n) && a <= b <= n
    ensures s[a..b] == t[a..b]
  {
    assert s[a..b] == s[..n][a..b];
    assert t[a..b] == t[..n][a..b];
  }

  lemma HeaderLocal(s: Bytes, t: Bytes)
    requires s != "" && ReadHeader(s).Line? && Agree(s, t, ReadHeader(s).size)
    ensures t != "" && s[0] == t[0] && ReadHeader(t) == ReadHeader(s)
  {
    var n := ReadHeader(s).size;
    assert s[0] == s[..n][0] == t[..n][0];
    var p := FindCrlf(s[1..]).value;
    forall i | 0 <= i < n - 1 ensures s[1..][i] == t[1..][i] {
      assert s[1..][i] == s[..n][i + 1];
      assert t[1..][i] == t[..n][i + 1];
    }
    assert CrlfAt(t[1..], p);
    forall q | q < p ensures !CrlfAt(t[1..], q) {
      assert !CrlfAt(s[1..], q);
    }
    assert t[1..][..p] == s[1..][..p];
  }

  /** A completed value stays what it is when the bytes after it change, are cut off or grow. */
  lemma {:induction false} DecodeLocal(s: Bytes, t: Bytes)
    requires Decode(s).Done? && Agree(s, t, Decode(s).size)
    ensures Decode(t) == Decode(s)
    decreases |s|, 0
  {
    hide ParseInt, ReadHeader;
    var h := ReadHeader(s);
    assert Agree(s, t, h.size) by {
      assert s[..h.size] == s[..Decode(s).size][..h.size];
      assert t[..h.size] == t[..Decode(s).size][..h.size];
    }
    HeaderLocal(s, t);
    if s[0] == '$' && Decode(s).value.BulkString? {
      AgreeSlice(s, t, Decode(s).size, h.size, Decode(s).size - 2);
    } else if s[0] == '*' && Decode(s).value.Array? {
      AgreeTail(s, t, Decode(s).size, h.size);
      DecodeManyLocal(s[h.size..], t[h.size..], ParseInt(h.text).value);
    }
  }

  lemma {:induction false} DecodeManyLocal(s: Bytes, t: Bytes, count: nat)
    requires DecodeMany(s, count).ManyDone? && Agree(s, t, DecodeMany(s, count).size)
    ensures DecodeMany(t, count) == DecodeMany(s, count)
    decreases |s|, 1, count
  {
    hide Decode;
    if count > 0 {
      var total, n := DecodeMany(s, count).size, Decode(s).size;
      assert s[..n] == s[..total][..n];
      assert t[..n] == t[..total][..n];
      DecodeLocal(s, t);
      AgreeTail(s, t, total, n);
      DecodeManyLocal(s[n..], t[n..], count - 1);
    }
  }

  lemma PrefixAgree(s: Bytes, t: Bytes, n: nat)
    requires s <= t && n <= |s|
    ensures Agree(s, t, n)
  {
    assert s[..n] == t[..|s|][..n];
  }

  /** A protocol error is final: more bytes do not change it. */
  lemma {:induction false} DecodeFailStable(s: Bytes, t: Bytes)
    requires Decode(s).Fail? && s <= t
    ensures Decode(t) == Decode(s)
    decreases |s|, 0
  {
    if s[0] in {':', '$', '*'} {
      var h := ReadHeader(s);
      PrefixAgree(s, t, h.size);
      HeaderLocal(s, t);
      if s[0] == '*' && ParseInt(h.text).Some? && ParseInt(h.text).value >= 0 {
        assert s[h.size..] <= t[h.size..];
        DecodeManyFailStable(s[h.size..], t[h.size..], ParseInt(h.text).value);
      }
    }
  }

  lemma {:induction false} DecodeManyFailStable(s: Bytes, t: Bytes, count: nat)
    requires DecodeMany(s, count).ManyFail? && s <= t
    ensures DecodeMany(t, count) == DecodeMany(s, count)
    decreases |s|, 1, count
  {
    hide Decode;
    if Decode(s).Fail? {
      DecodeFailStable(s, t);
    } else {
      var n := Decode(s).size;
      PrefixAgree(s, t, n);
      DecodeLocal(s, t);
      assert s[n..] <= t[n..];
      DecodeManyFailStable(s[n..], t[n..], count - 1);
    }
  }

  /** Only "more bytes are needed" can change when bytes are appended. */
  lemma DecodeStable(s: Bytes, t: Bytes)
    requires !Decode(s).More?
    ensures Decode(s + t) == Decode(s)
  {
    if Decode(s).Done? {
      PrefixAgree(s, s + t, Decode(s).size);
      DecodeLocal(s, s + t);
    } else {
      DecodeFailStable(s, s + t);
    }
  }

  /** No strict prefix of a completed value completes or fails. */
  lemma StrictPrefixNeedsMore(s: Bytes, k: nat)
    requires Decode(s).Done? && k < Decode(s).size
    ensures Decode(s[..k]).More?
  {
    assert s[..k] + s[k..] == s;
    if !Decode(s[..k]).More? {
      DecodeStable(s[..k], s[k..]);
    }
  }

  // ---- chunk independence ---------------------------------------------------------------

  lemma DecodeEmpty()
    ensures Decode("") == More
  {
  }

  /** What is left over is a suffix that holds no complete value; it starts with the error. */
  lemma {:induction false} DrainRest(s: Bytes)
    ensures var d := Drain(s);
            && d.rest == s[|s| - |d.rest|..]
            && Decode(d.rest) == if d.error.None? then More else Fail(d.error.value)
    decreases |s|
  {
    hide Decode;
    if Decode(s).Done? {
      var size := Decode(s).size;
      DrainRest(s[size..]);
      var d := Drain(s);
      assert s[size..][|s| - size - |d.rest|..] == s[|s| - |d.rest|..];
    }
  }

  lemma {:induction false} DrainStep(s: Bytes)
    ensures match Decode(s)
            case Done(value, size) =>
              var d := Drain(s[size..]);
              Drain(s) == Drained([value] + d.values, d.rest, d.error)
            case More => Drain(s) == Drained([], s, None)
            case Fail(violation) => Drain(s) == Drained([], s, Some(violation))
  {
    hide Decode;
  }

  /** Draining a buffer and then the leftovers with more bytes is draining it all at once. */
  lemma {:induction false} DrainThenDrain(s: Bytes, t: Bytes)
    ensures var first := Drain(s);
            var second := Drain(first.rest + t);
            Drain(s + t) == Drained(first.values + second.values, second.rest, second.error)
    decreases |s|
  {
    hide Decode, Drain;
    DrainStep(s);
    match Decode(s)
    case Done(value, size) =>
      DecodeStable(s, t);
      DrainStep(s + t);
      assert (s + t)[size..] == s[size..] + t;
      DrainThenDrain(s[size..], t);
      var first := Drain(s[size..]);
      var second := Drain(first.rest + t);
      assert [value] + (first.values + second.values) == [value] + first.values + second.values;
    case More =>
      assert [] + Drain(s + t).values == Drain(s + t).values;
    case Fail(_) =>
      assert [] + Drain(s + t).values == Drain(s + t).values;
  }

  /** The values, the error and the leftover bytes do not depend on how a stream is cut. */
  lemma {:induction false} ChunkIndependence(buffer: Bytes, chunks: seq<Bytes>)
    ensures DrainChunks(buffer, chunks) == Drain(buffer + Concat(chunks))
    decreases |chunks|
  {
    hide Drain, Decode;
    if chunks == [] {
      assert buffer + "" == buffer;
    } else {
      var d := Drain(buffer + chunks[0]);
      ChunkIndependence(d.rest, chunks[1..]);
      DrainThenDrain(buffer + chunks[0], Concat(chunks[1..]));
      assert buffer + Concat(chunks) == buffer + chunks[0] + Concat(chunks[1..]);
    }
  }

  // ---- round trip -----------------------------------------------------------------------

  /** The values the wire format can carry: int64 numbers and sizes, one-line texts. */
  ghost predicate Wireable(v: RespValue) {
    match v
    case Null => true
    case SimpleString(text) => CrlfFree(text)
    case Error(message) => CrlfFree(message)
    case Integer(number) => IsInt64(number)
    case BulkString(data) => |data| <= INT64_MAX
    case Array(elements) => |elements| <= INT64_MAX && forall e :: e in elements ==> Wireable(e)
  }

  lemma HeaderOfWire(tag: char, text: Bytes, rest: Bytes)
    requires CrlfFree(text)
    ensures ReadHeader([tag] + text + CRLF + rest) == Line(text, |text| + 3)
  {
    var s := [tag] + text + CRLF + rest;
    assert s[1..] == text + CRLF + rest;
    LineFound(text, rest);
  }

  lemma RoundTripNull(rest: Bytes)
    ensures Decode(Wire(Null) + rest) == Done(Null, |Wire(Null)|)
  {
    IntTextCrlfFree(-1);
    PrintParse(-1);
    assert NatText(1) == "1";
    assert Wire(Null) + rest == ['$'] + IntText(-1) + CRLF + rest;
    HeaderOfWire('$', IntText(-1), rest);
  }

  lemma RoundTripInteger(number: int, rest: Bytes)
    requires IsInt64(number)
    ensures Decode(Wire(Integer(number)) + rest) == Done(Integer(number), |Wire(Integer(number))|)
  {
    IntTextCrlfFree(number);
    PrintParse(number);
    assert Wire(Integer(number)) + rest == [':'] + IntText(number) + CRLF + rest;
    HeaderOfWire(':', IntText(number), rest);
  }

  lemma RoundTripBulk(data: Bytes, rest: Bytes)
    requires |data| <= INT64_MAX
    ensures Decode(Wire(BulkString(data)) + rest) == Done(BulkString(data), |Wire(BulkString(data))|)
  {
    hide IntText, ParseInt;
    var s := Wire(BulkString(data)) + rest;
    var text := IntText(|data|);
    IntTextCrlfFree(|data|);
    PrintParse(|data|);
    assert s == ['$'] + text + CRLF + (data + CRLF + rest);
    HeaderOfWire('$', text, data + CRLF + rest);
    var size := |text| + 3;
    assert s[size..size + |data|] == data;
    assert DecodeBulk(s) == Done(BulkString(data), size + |data| + 2);
  }

  lemma RoundTripLine(v: RespValue, rest: Bytes)
    requires v.SimpleString? || v.Error?
    requires Wireable(v)
    ensures Decode(Wire(v) + rest) == Done(v, |Wire(v)|)
  {
    match v {
      case SimpleString(text) =>
        assert Wire(v) + rest == ['+'] + text + CRLF + rest;
        HeaderOfWire('+', text, rest);
      case Error(message) =>
        assert Wire(v) + rest == ['-'] + message + CRLF + rest;
        HeaderOfWire('-', message, rest);
    }
  }

  lemma RoundTripArray(elements: seq<RespValue>, rest: Bytes)
    requires |elements| <= INT64_MAX
    requires DecodeMany(WireAll(elements) + rest, |elements|) == ManyDone(elements, |WireAll(elements)|)
    ensures Decode(Wire(Array(elements)) + rest) == Done(Array(elements), |Wire(Array(elements))|)
  {
    hide DecodeMany, WireAll, IntText, ParseInt;
    var s := Wire(Array(elements)) + rest;
    var text := IntText(|elements|);
    IntTextCrlfFree(|elements|);
    PrintParse(|elements|);
    assert s == ['*'] + text + CRLF + (WireAll(elements) + rest);
    HeaderOfWire('*', text, WireAll(elements) + rest);
    assert s[|text| + 3..] == WireAll(elements) + rest;
  }

  /** Reading what the serializer wrote gives the value back and takes exactly its bytes,
      whatever follows. */
  lemma {:induction false} RoundTrip(v: RespValue, rest: Bytes)
    requires Wireable(v)
    ensures Decode(Wire(v) + rest) == Done(v, |Wire(v)|)
    decreases v, 0
  {
    hide Decode, Wire;
    match v
    case Null => RoundTripNull(rest);
    case SimpleString(_) => RoundTripLine(v, rest);
    case Error(_) => RoundTripLine(v, rest);
    case Integer(number) => RoundTripInteger(number, rest);
    case BulkString(data) => RoundTripBulk(data, rest);
    case Array(elements) =>
      RoundTripMany(elements, rest);
      RoundTripArray(elements, rest);
  }

  lemma {:induction false} RoundTripMany(vs: seq<RespValue>, rest: Bytes)
    requires forall v :: v in vs ==> Wireable(v)
    ensures DecodeMany(WireAll(vs) + rest, |vs|) == ManyDone(vs, |WireAll(vs)|)
    decreases vs
  {
    hide Decode, Wire, Wireable, DecodeMany;
    if vs != [] {
      assert vs[0] in vs;
      var first, later := Wire(vs[0]), WireAll(vs[1..]) + rest;
      assert WireAll(vs) + rest == first + later;
      RoundTrip(vs[0], later);
      RoundTripMany(vs[1..], rest);
      hide WireAll;
      DecodeManyFront(first, later, |vs|);
      assert [vs[0]] + vs[1..] == vs;
    } else {
      assert WireAll(vs) + rest == rest;
      DecodeManyNone(rest);
    }
  }

  lemma DecodeManyNone(s: Bytes)
    ensures DecodeMany(s, 0) == ManyDone([], 0)
  {
  }

  /** A first value, and what the others come to after it. */
  lemma DecodeManyFront(first: Bytes, later: Bytes, count: nat)
    requires count > 0 && Decode(first + later).Done? && Decode(first + later).size == |first|
    ensures DecodeMany(first + later, count)
            == match DecodeMany(later, count - 1)
               case ManyDone(values, taken) => ManyDone([Decode(first + later).value] + values, |first| + taken)
               case other => other
  {
    hide Decode;
    assert (first + later)[|first|..] == later;
  }

  lemma DrainWireFirst(v: RespValue, rest: Bytes)
    requires Wireable(v)
    ensures var d := Drain(rest);
            Drain(Wire(v) + rest) == Drained([v] + d.values, d.rest, d.error)
  {
    hide Decode, Wire;
    RoundTrip(v, rest);
    assert (Wire(v) + rest)[|Wire(v)|..] == rest;
  }

  /** A run of serialized values, followed by any bytes, drains to those values first. */
  lemma {:induction false} DrainWires(vs: seq<RespValue>, rest: Bytes)
    requires forall v :: v in vs ==> Wireable(v)
    ensures var d := Drain(rest);
            Drain(WireAll(vs) + rest) == Drained(vs + d.values, d.rest, d.error)
    decreases |vs|
  {
    hide Decode, Wire, Drain;
    if vs == [] {
      assert WireAll(vs) + rest == rest;
      assert vs + Drain(rest).values == Drain(rest).values;
    } else {
      assert WireAll(vs) + rest == Wire(vs[0]) + (WireAll(vs[1..]) + rest);
      DrainWireFirst(vs[0], WireAll(vs[1..]) + rest);
      DrainWires(vs[1..], rest);
      assert [vs[0]] + (vs[1..] + Drain(rest).values) == vs + Drain(rest).values;
    }
  }

  lemma WireAllFront(vs: seq<RespValue>)
    requires vs != []
    ensures WireAll(vs) == Wire(vs[0]) + WireAll(vs[1..])
  {
  }

  lemma {:induction false} WireAllConcat(vs: seq<RespValue>, ws: seq<RespValue>)
    ensures WireAll(vs + ws) == WireAll(vs) + WireAll(ws)
    decreases |vs|
  {
    hide Wire;
    if vs == [] {
      assert vs + ws == ws;
    } else {
      hide WireAll;
      WireAllConcat(vs[1..], ws);
      WireAllFront(vs);
      WireAllFront(vs + ws);
      assert (vs + ws)[1..] == vs[1..] + ws;
    }
  }

  /** A run of serialized values drains to exactly those values, with nothing left over. */
  lemma DrainWireAll(vs: seq<RespValue>)
    requires forall v :: v in vs ==> Wireable(v)
    ensures Drain(WireAll(vs)) == Drained(vs, "", None)
  {
    hide WireAll;
    DrainWires(vs, "");
    assert WireAll(vs) + "" == WireAll(vs);
    assert vs + [] == vs;
  }

  /** Two streams of carriable values are the same bytes only if they are the same values. */
  lemma UniqueDecoding(vs: seq<RespValue>, ws: seq<RespValue>)
    requires forall v :: v in vs ==> Wireable(v)
    requires forall w :: w in ws ==> Wireable(w)
    requires WireAll(vs) == WireAll(ws)
    ensures vs == ws
  {
    hide *;
    DrainWireAll(vs);
    DrainWireAll(ws);
  }

  /** Every value the parser yields can be carried, so serializing it and reading it back
      is the identity on parser outputs. */
  lemma {:induction false} DecodedIsWireable(s: Bytes)
    requires Decode(s).Done?
    ensures Wireable(Decode(s).value)
    ensures Decode(Wire(Decode(s).value)) == Done(Decode(s).value, |Wire(Decode(s).value)|)
    decreases |s|, 0
  {
    if s[0] == '*' && Decode(s).value.Array? {
      var h := ReadHeader(s);
      DecodedManyAreWireable(s[h.size..], ParseInt(h.text).value);
    }
    var v := Decode(s).value;
    RoundTrip(v, "");
    assert Wire(v) + "" == Wire(v);
  }

  lemma {:induction false} DecodedManyAreWireable(s: Bytes, count: nat)
    requires DecodeMany(s, count).ManyDone?
    ensures forall v :: v in DecodeMany(s, count).values ==> Wireable(v)
    decreases |s|, 1, count
  {
    hide Decode;
    if count > 0 {
      DecodedIsWireable(s);
      DecodedManyAreWireable(s[Decode(s).size..], count - 1);
    }
  }

  lemma {:induction false} DrainedAreWireable(s: Bytes)
    ensures forall v :: v in Drain(s).values ==> Wireable(v)
    decreases |s|
  {
    hide Decode;
    if Decode(s).Done? {
      DecodedIsWireable(s);
      DrainedAreWireable(s[Decode(s).size..]);
    }
  }

  // ---- sizes ----------------------------------------------------------------------------

  ghost function Nodes(v: RespValue): nat {
    match v
    case Array(elements) => 1 + NodesAll(elements)
    case _ => 1
  }

  ghost function NodesAll(vs: seq<RespValue>): nat {
    if vs == [] then 0 else Nodes(vs[0]) + NodesAll(vs[1..])
  }

  /** A value takes at least three bytes per node of its tree: a short input cannot make the
      parser build a large value, whatever counts it announces. */
  lemma {:induction false} ThreeBytesPerNode(s: Bytes)
    requires Decode(s).Done?
    ensures 3 * Nodes(Decode(s).value) <= Decode(s).size
    decreases |s|, 0
  {
    if s[0] == '*' && Decode(s).value.Array? {
      var h := ReadHeader(s);
      ThreeBytesPerNodeMany(s[h.size..], ParseInt(h.text).value);
    }
  }

  lemma {:induction false} ThreeBytesPerNodeMany(s: Bytes, count: nat)
    requires DecodeMany(s, count).ManyDone?
    ensures 3 * NodesAll(DecodeMany(s, count).values) <= DecodeMany(s, count).size
    decreases |s|, 1, count
  {
    hide Decode;
    if count > 0 {
      ThreeBytesPerNode(s);
      var rest := DecodeMany(s[Decode(s).size..], count - 1);
      ThreeBytesPerNodeMany(s[Decode(s).size..], count - 1);
      assert ([Decode(s).value] + rest.values)[1..] == rest.values;
    }
  }

  /** All the trees drained from a stream together have at most a third as many nodes as the
      stream has bytes; in particular there are at most that many values. */
  lemma {:induction false} DrainBound(s: Bytes)
    ensures 3 * NodesAll(Drain(s).values) + |Drain(s).rest| <= |s|
    ensures 3 * |Drain(s).values| <= |s|
    decreases |s|
  {
    hide Decode;
    if Decode(s).Done? {
      var size := Decode(s).size;
      ThreeBytesPerNode(s);
      DrainBound(s[size..]);
      var tail := Drain(s[size..]).values;
      assert ([Decode(s).value] + tail)[1..] == tail;
    }
  }

  // ---- cutting a stream at its last complete value -----------------------------------------

  /** The bytes of a stream up to the end of its last complete value. */
  function CompletePart(s: Bytes): Bytes {
    s[..|s| - |Drain(s).rest|]
  }

  /** Cut there, the stream drains to the same values with nothing left and no error. */
  lemma {:induction false} CompletePartDrains(s: Bytes)
    ensures Drain(CompletePart(s)) == Drained(Drain(s).values, "", None)
    decreases |s|
  {
    if Decode(s).Done? {
      var size := Decode(s).size;
      var cut := CompletePart(s);
      assert Agree(s, cut, size) by { assert cut[..size] == s[..size]; }
      DecodeLocal(s, cut);
      assert cut[size..] == CompletePart(s[size..]);
      CompletePartDrains(s[size..]);
    } else {
      assert CompletePart(s) == "";
    }
  }

  // ---- cutting a stream of values ------------------------------------------------------------

  lemma SplitFront(part: Bytes, rest: Bytes, front: Bytes, tail: Bytes)
    requires part + rest == front + tail
    ensures |part| >= |front| ==> part == front + part[|front|..] && part[|front|..] + rest == tail
    ensures |part| < |front| ==> part == front[..|part|]
  {
    var all := part + rest;
    if |part| >= |front| {
      assert part[..|front|] == all[..|front|] == front;
      assert part[|front|..] + rest == all[|front|..] == tail;
    } else {
      assert part == all[..|part|] == front[..|part|];
    }
  }

  lemma DrainNothing(part: Bytes, rest: Bytes)
    requires part + rest == WireAll([])
    ensures Drain(part) == Drained([], "", None) && part == "" && rest == ""
  {
    assert part == "" && rest == "";
  }

  lemma CutFirst(v: RespValue, part: Bytes)
    requires Wireable(v) && |part| < |Wire(v)| && part == Wire(v)[..|part|]
    ensures Drain(part) == Drained([], part, None)
  {
    hide Decode, Drain, Wire, Wireable;
    RoundTrip(v, "");
    assert Wire(v) + "" == Wire(v);
    StrictPrefixNeedsMore(Wire(v), |part|);
    DrainStep(part);
  }

  lemma OneMore(vs: seq<RespValue>, m: nat)
    requires m < |vs|
    ensures vs[..m + 1] == [vs[0]] + vs[1..][..m] && vs[m + 1..] == vs[1..][m..]
  {
  }

  /** Any part of a stream of carriable values drains to the values it holds completely, and
      what is left over, with the rest of the stream, is the stream of the other values. */
  lemma {:induction false} DrainPart(vs: seq<RespValue>, part: Bytes, rest: Bytes)
    requires forall v :: v in vs ==> Wireable(v)
    requires part + rest == WireAll(vs)
    ensures var d := Drain(part);
            && |d.values| <= |vs| && d.values == vs[..|d.values|] && d.error == None
            && d.rest + rest == WireAll(vs[|d.values|..])
    decreases |vs|
  {
    hide Decode, Drain, Wire, WireAll, Wireable;
    if vs == [] {
      DrainNothing(part, rest);
      assert vs[0..] == vs && vs[..0] == [];
    } else {
      WireAllFront(vs);
      var w := Wire(vs[0]);
      SplitFront(part, rest, w, WireAll(vs[1..]));
      if |part| >= |w| {
        DrainWireFirst(vs[0], part[|w|..]);
        DrainPart(vs[1..], part[|w|..], rest);
        OneMore(vs, |Drain(part[|w|..]).values|);
      } else {
        CutFirst(vs[0], part);
        assert vs[0..] == vs && vs[..0] == [];
      }
    }
  }
}
