/** Whatever a client sends, it reads whole values back: over any events, the bytes a connection
    accepts for its client are a sequence of values, and no part of them that was written looks
    like a protocol error. */
module Framing {
  import opened Bytes
  import opened Resp
  import opened RespTheorems
  import opened Store
  import opened Commands
  import opened PubSub
  import opened Connection
  import opened ConnectionTheorems
  import opened Replies

  // ---- whole values --------------------------------------------------------------------------

  ghost predicate AllWireable(vs: seq<RespValue>) {
    forall v :: v in vs ==> Wireable(v)
  }

  /** The bytes are those of a sequence of values. */
  ghost predicate Whole(bytes: Bytes) {
    exists vs :: AllWireable(vs) && bytes == WireAll(vs)
  }

  lemma WholeValues(vs: seq<RespValue>)
    requires AllWireable(vs)
    ensures Whole(WireAll(vs))
  {
  }

  lemma WholeNothing()
    ensures Whole("")
  {
    hide Wireable;
    assert WireAll([]) == "";
    WholeValues([]);
  }

  lemma WholeOne(v: RespValue)
    requires Wireable(v)
    ensures Whole(Wire(v))
  {
    hide Wireable, Wire;
    assert WireAll([v]) == Wire(v) + WireAll([]);
    WholeValues([v]);
  }

  lemma WholeJoin(a: Bytes, b: Bytes)
    requires Whole(a) && Whole(b)
    ensures Whole(a + b)
  {
    hide Wireable, WireAll;
    var vs :| AllWireable(vs) && a == WireAll(vs);
    var ws :| AllWireable(ws) && b == WireAll(ws);
    WireAllConcat(vs, ws);
    WholeValues(vs + ws);
  }

  /** A client that has read any part of whole values has met no protocol error. */
  lemma PartHasNoError(part: Bytes, bytes: Bytes)
    requires Whole(bytes) && part <= bytes
    ensures Drain(part).error == None
  {
    hide Wireable, WireAll, Drain;
    var vs :| AllWireable(vs) && bytes == WireAll(vs);
    assert part + bytes[|part|..] == bytes;
    DrainPart(vs, part, bytes[|part|..]);
  }

  // ---- fixed texts and protocol errors -----------------------------------------------------------

  lemma JoinedOneLine(a: Bytes, b: Bytes)
    requires OneLine(a) && OneLine(b)
    ensures Wireable(Error(a + b))
  {
    OneLineJoin(a, b);
    OneLineCrlfFree(a + b);
  }

  lemma AuthNotices()
    ensures Wireable(Error(NoticeText(AuthArgs))) && Wireable(Error(NoticeText(AuthUnset)))
    ensures Wireable(Error(NoticeText(AuthWrong))) && Wireable(Error(NoticeText(NoAuth)))
  {
    JoinedOneLine("ERR wrong number of arguments ", "for 'AUTH' command");
    JoinedOneLine("ERR AUTH called without any ", "password configured");
    OneLineCrlfFree("ERR invalid password");
    OneLineCrlfFree("NOAUTH Authentication required.");
  }

  lemma OtherNotices()
    ensures Wireable(Error(NoticeText(NotACommand))) && Wireable(Error(NoticeText(SubscribeArgs)))
    ensures Wireable(Error(NoticeText(TooLarge)))
  {
    JoinedOneLine("ERR protocol error: ", "expected command array");
    JoinedOneLine("ERR SUBSCRIBE requires ", "at least one channel");
    OneLineCrlfFree("ERR max request size exceeded");
  }

  lemma NoticeWhole(notice: Notice)
    ensures Wireable(Error(NoticeText(notice))) && Whole(NoticeWire(notice))
  {
    AuthNotices();
    OtherNotices();
    hide NoticeText, Wireable, Whole, Wire;
    WholeOne(Error(NoticeText(notice)));
  }

  /** The line that a violation quotes, if it quotes one. */
  function Quoted(violation: Violation): Bytes {
    match violation
    case UnknownType(tag) => [tag]
    case InvalidInteger(line) => line
    case InvalidBulkLength(line) => line
    case InvalidArrayCount(line) => line
    case _ => ""
  }

  lemma {:induction false} FailQuotesLine(s: Bytes)
    requires Decode(s).Fail?
    ensures CrlfFree(Quoted(Decode(s).violation))
    decreases |s|, 0
  {
    hide ParseInt;
    if s[0] == '*' && ReadHeader(s).Line? {
      var h := ReadHeader(s);
      if ParseInt(h.text).Some? && ParseInt(h.text).value >= 0 {
        FailQuotesLineMany(s[h.size..], ParseInt(h.text).value);
      }
    }
  }

  lemma {:induction false} FailQuotesLineMany(s: Bytes, count: nat)
    requires DecodeMany(s, count).ManyFail?
    ensures CrlfFree(Quoted(DecodeMany(s, count).violation))
    decreases |s|, 1, count
  {
    hide Decode;
    if Decode(s).Fail? {
      FailQuotesLine(s);
    } else {
      FailQuotesLineMany(s[Decode(s).size..], count - 1);
    }
  }

  lemma QuoteWireable(before: Bytes, line: Bytes)
    requires OneLine(before) && CrlfFree(line)
    ensures Wireable(Error("ERR " + (before + line + "'")))
  {
    assert OneLine("ERR ") && OneLine("'");
    OneLineJoin("ERR ", before);
    QuotedCrlfFree("ERR " + before, line, "'");
    assert "ERR " + (before + line + "'") == "ERR " + before + line + "'";
  }

  lemma QuotesWhole(line: Bytes)
    requires CrlfFree(line)
    ensures Wireable(Error("ERR " + What(InvalidInteger(line)))) && Wireable(Error("ERR " + What(InvalidBulkLength(line))))
    ensures Wireable(Error("ERR " + What(InvalidArrayCount(line))))
  {
    assert OneLine("RESP: invalid integer '") && OneLine("RESP: invalid bulk string length '");
    assert OneLine("RESP: invalid array count '");
    hide CrlfFree, OneLine, Wireable;
    QuoteWireable("RESP: invalid integer '", line);
    QuoteWireable("RESP: invalid bulk string length '", line);
    QuoteWireable("RESP: invalid array count '", line);
  }

  lemma OthersWhole(tag: char)
    ensures Wireable(Error("ERR " + What(UnknownType(tag))))
    ensures Wireable(Error("ERR " + What(NegativeBulkLength))) && Wireable(Error("ERR " + What(NegativeArrayCount)))
  {
    assert OneLine("RESP: unknown type byte '") && OneLine("RESP: negative bulk string length");
    assert OneLine("RESP: negative array count") && OneLine("ERR ") && CrlfFree([tag]);
    hide CrlfFree, OneLine, Wireable;
    QuoteWireable("RESP: unknown type byte '", [tag]);
    JoinedOneLine("ERR ", "RESP: negative bulk string length");
    JoinedOneLine("ERR ", "RESP: negative array count");
  }

  /** The reply to a protocol error is one value: what the error quotes is a line. */
  lemma ViolationWhole(s: Bytes)
    requires Decode(s).Fail?
    ensures Whole(ThrownWire(What(Decode(s).violation)))
  {
    FailQuotesLine(s);
    var violation := Decode(s).violation;
    hide Decode, What, CrlfFree, Wireable, Whole, Wire;
    match violation {
      case UnknownType(tag) => OthersWhole(tag);
      case NegativeBulkLength => OthersWhole(' ');
      case NegativeArrayCount => OthersWhole(' ');
      case InvalidInteger(line) => QuotesWhole(line);
      case InvalidBulkLength(line) => QuotesWhole(line);
      case InvalidArrayCount(line) => QuotesWhole(line);
    }
    WholeOne(Error("ERR " + What(violation)));
  }

  // ---- one request -----------------------------------------------------------------------------

  function SubscribeValue(kind: Bytes, channel: Bytes, count: int): RespValue {
    Array([BulkString(kind), BulkString(channel), Integer(count)])
  }

  function SubscribeValues(channels: Channels, id: Id, wanted: seq<Bytes>): seq<RespValue>
    decreases |wanted|
  {
    if wanted == [] then []
    else
      var channels' := Subscribed(channels, wanted[0], id, Push(id, wanted[0]));
      [SubscribeValue("subscribe", wanted[0], |channels'[wanted[0]]|)] + SubscribeValues(channels', id, wanted[1..])
  }

  function UnsubscribeValues(channels: Channels, id: Id, unwanted: seq<Bytes>): seq<RespValue>
    decreases |unwanted|
  {
    if unwanted == [] then []
    else
      var channels' := Unsubscribed(channels, unwanted[0], id);
      [SubscribeValue("unsubscribe", unwanted[0], |SubsOf(channels', unwanted[0])|)]
      + UnsubscribeValues(channels', id, unwanted[1..])
  }

  function LeftValues(left: seq<Bytes>): seq<RespValue> {
    if left == [] then [] else [SubscribeValue("unsubscribe", left[0], 0)] + LeftValues(left[1..])
  }

  /** What a value is answered with. */
  function AnswersTo(cfg: Config, w: World, v: RespValue, scene: Scene): seq<RespValue> {
    match ParseCommand(v)
    case None => [Error(NoticeText(NotACommand))]
    case Some(cmd) =>
      var route := RouteOf(cmd.name);
      if route.ToAuth? then
        [if |cmd.args| != 1 then Error(NoticeText(AuthArgs))
         else if cfg.password == "" then Error(NoticeText(AuthUnset))
         else if cmd.args[0] != cfg.password then Error(NoticeText(AuthWrong))
         else SimpleString("OK")]
      else if !w.conn.authed then [Error(NoticeText(NoAuth))]
      else if route.ToSubscribe? then
        if !cfg.brokered || cmd.args == [] then [Error(NoticeText(SubscribeArgs))]
        else SubscribeValues(w.channels, cfg.id, cmd.args)
      else if route.ToUnsubscribe? then
        if !cfg.brokered then []
        else if cmd.args == [] then
          var left := Among(scene.order(w.channels.Keys), Left(w.channels, cfg.id));
          if left == [] then [SubscribeValue("unsubscribe", "", 0)] else LeftValues(left)
        else UnsubscribeValues(w.channels, cfg.id, cmd.args)
      else [ResponseTo(cfg, scene, cmd, Exec(cmd, w.store, scene.env).outcome)]
  }

  lemma {:induction false} SubscribeBytes(channels: Channels, id: Id, wanted: seq<Bytes>, replies: Bytes)
    ensures SubscribeEach(channels, id, wanted, replies).1 == replies + WireAll(SubscribeValues(channels, id, wanted))
    decreases |wanted|
  {
    hide Enrolled, Wire;
    if wanted == [] {
      assert replies + "" == replies;
    } else {
      var channels' := Subscribed(channels, wanted[0], id, Push(id, wanted[0]));
      var reply := SubscribeReply("subscribe", wanted[0], |channels'[wanted[0]]|);
      SubscribeBytes(channels', id, wanted[1..], replies + reply);
      WireAllFront(SubscribeValues(channels, id, wanted));
      var rest := WireAll(SubscribeValues(channels', id, wanted[1..]));
      assert replies + reply + rest == replies + (reply + rest);
    }
  }

  lemma {:induction false} UnsubscribeBytes(channels: Channels, id: Id, unwanted: seq<Bytes>, replies: Bytes)
    ensures UnsubscribeEach(channels, id, unwanted, replies).1 == replies + WireAll(UnsubscribeValues(channels, id, unwanted))
    decreases |unwanted|
  {
    hide Unsubscribed, Wire;
    if unwanted == [] {
      assert replies + "" == replies;
    } else {
      var channels' := Unsubscribed(channels, unwanted[0], id);
      var reply := SubscribeReply("unsubscribe", unwanted[0], |SubsOf(channels', unwanted[0])|);
      UnsubscribeBytes(channels', id, unwanted[1..], replies + reply);
      WireAllFront(UnsubscribeValues(channels, id, unwanted));
      var rest := WireAll(UnsubscribeValues(channels', id, unwanted[1..]));
      assert replies + reply + rest == replies + (reply + rest);
    }
  }

  lemma {:induction false} LeftBytes(left: seq<Bytes>)
    ensures LeftReplies(left) == WireAll(LeftValues(left))
    decreases |left|
  {
    hide Wire;
    if left != [] {
      LeftBytes(left[1..]);
      WireAllFront(LeftValues(left));
    }
  }

  lemma OneWire(v: RespValue)
    ensures WireAll([v]) == Wire(v)
  {
    hide Wire;
    assert WireAll([v]) == Wire(v) + WireAll([]);
  }

  /** The bytes for one value, collected for the reply of the read or accepted at once. */
  ghost predicate Answered(w: World, r: Connection.Served, answers: seq<RespValue>) {
    || (r.world.conn.accepted == w.conn.accepted && r.responses == WireAll(answers))
    || (r.responses == "" && r.world.conn.accepted == w.conn.accepted + WireAll(answers))
    || (r.responses == "" && r.world.conn.accepted == w.conn.accepted && !r.world.conn.open)
  }

  lemma WriteAccepts(cfg: Config, c: Conn, data: Bytes)
    ensures var c' := DoWrite(cfg, c, data);
            c'.accepted == c.accepted + data || (c'.accepted == c.accepted && !c'.open)
  {
  }

  lemma SubscribeAnswered(cfg: Config, w: World, args: seq<Bytes>)
    ensures var answers := if !cfg.brokered || args == [] then [Error(NoticeText(SubscribeArgs))]
                           else SubscribeValues(w.channels, cfg.id, args);
            Answered(w, Connection.Served(HandleSubscribe(cfg, w, args), "", false), answers)
  {
    hide DoWrite, Wire, SubscribeEach, SubscribeValues, NoticeText, SetOf;
    if !cfg.brokered || args == [] {
      OneWire(Error(NoticeText(SubscribeArgs)));
      WriteAccepts(cfg, w.conn, NoticeWire(SubscribeArgs));
    } else {
      SubscribeBytes(w.channels, cfg.id, args, "");
      var replies := SubscribeEach(w.channels, cfg.id, args, "").1;
      assert "" + WireAll(SubscribeValues(w.channels, cfg.id, args)) == WireAll(SubscribeValues(w.channels, cfg.id, args));
      WriteAccepts(cfg, w.conn.(subscribed := w.conn.subscribed + SetOf(args)), replies);
    }
  }

  lemma UnsubscribeAnswered(cfg: Config, w: World, args: seq<Bytes>, order: set<Bytes> -> seq<Bytes>)
    ensures var left := Among(order(w.channels.Keys), Left(w.channels, cfg.id));
            var answers := if !cfg.brokered then []
                           else if args != [] then UnsubscribeValues(w.channels, cfg.id, args)
                           else if left == [] then [SubscribeValue("unsubscribe", "", 0)]
                           else LeftValues(left);
            Answered(w, Connection.Served(HandleUnsubscribe(cfg, w, args, order), "", false), answers)
  {
    hide DoWrite, Wire, UnsubscribeEach, UnsubscribeValues, LeftValues, LeftReplies, SetOf, Among, Left;
    if !cfg.brokered {
      assert WireAll([]) == "";
    } else if args == [] {
      var left := Among(order(w.channels.Keys), Left(w.channels, cfg.id));
      LeftBytes(left);
      OneWire(SubscribeValue("unsubscribe", "", 0));
      WriteAccepts(cfg, w.conn.(subscribed := w.conn.subscribed - SetOf(left)),
                   if left == [] then SubscribeReply("unsubscribe", "", 0) else LeftReplies(left));
    } else {
      UnsubscribeBytes(w.channels, cfg.id, args, "");
      var replies := UnsubscribeEach(w.channels, cfg.id, args, "").1;
      assert "" + WireAll(UnsubscribeValues(w.channels, cfg.id, args)) == WireAll(UnsubscribeValues(w.channels, cfg.id, args));
      WriteAccepts(cfg, w.conn.(subscribed := w.conn.subscribed - SetOf(args)), replies);
    }
  }

  /** Serving a value answers with exactly these values, unless the limit on pending bytes has
      closed the socket. */
  lemma ServeAnswers(cfg: Config, w: World, v: RespValue, scene: Scene)
    ensures Answered(w, Serve(cfg, w, v, scene), AnswersTo(cfg, w, v, scene))
  {
    hide Exec, Wire, WireAll, ReplyValue, NoticeText, ParseCommand, RouteOf, SubscribeValues, UnsubscribeValues, LeftValues,
      HandleSubscribe, HandleUnsubscribe, SubscribeValue, Among, Left;
    if ParseCommand(v).Some? {
      var cmd := ParseCommand(v).value;
      SubscribeAnswered(cfg, w, cmd.args);
      UnsubscribeAnswered(cfg, w, cmd.args, scene.order);
      OneWire(ResponseTo(cfg, scene, cmd, Exec(cmd, w.store, scene.env).outcome));
      OneWire(Error(NoticeText(AuthArgs)));
      OneWire(Error(NoticeText(AuthUnset)));
      OneWire(Error(NoticeText(AuthWrong)));
      OneWire(SimpleString("OK"));
      OneWire(Error(NoticeText(NoAuth)));
    } else {
      OneWire(Error(NoticeText(NotACommand)));
    }
  }

  // ---- when the answers are whole --------------------------------------------------------------

  /** The answers fit their headers and, for a command that goes to the dispatcher: the name is
      known or holds no CRLF, the exception text holds none, and a reply that is not modelled is
      a value that can be carried. */
  ghost predicate Readable(cfg: Config, w: World, v: RespValue, scene: Scene) {
    && (forall x :: x in AnswersTo(cfg, w, v, scene) ==> Sized(x))
    && (ParseCommand(v).Some? && w.conn.authed && RouteOf(ParseCommand(v).value.name).ToDispatcher? ==>
          Carriable(cfg, w.store, ParseCommand(v).value, scene))
  }

  ghost predicate Carriable(cfg: Config, s: Store, cmd: Command, scene: Scene) {
    var out := Exec(cmd, s, scene.env).outcome;
    if out.Throw? then CrlfFree(cfg.thrown)
    else if out.External? then Wireable(scene.external(cmd))
    else KindOf(cmd.name).Some? || CrlfFree(cmd.name)
  }

  lemma ResponseWireable(cfg: Config, s: Store, cmd: Command, scene: Scene)
    requires Carriable(cfg, s, cmd, scene) && Sized(ResponseTo(cfg, scene, cmd, Exec(cmd, s, scene.env).outcome))
    ensures Wireable(ResponseTo(cfg, scene, cmd, Exec(cmd, s, scene.env).outcome))
  {
    var out := Exec(cmd, s, scene.env).outcome;
    if out.Throw? {
      ThrownCrlfFree(cfg.thrown);
    } else if KindOf(cmd.name).None? {
      UnknownCrlfFree(cmd.name);
    } else if KindOf(cmd.name).value != Unmodelled {
      hide Exec, KindOf, Wireable, Sized, CrlfFree;
      KnownReplyWireable(cmd, s, scene);
    }
  }

  /** Triples of two bulk strings and a number are carriable when they fit their headers. */
  lemma {:induction false} SubscriptionsWireable(channels: Channels, id: Id, items: seq<Bytes>)
    ensures forall v :: v in SubscribeValues(channels, id, items) && Sized(v) ==> Wireable(v)
    ensures forall v :: v in UnsubscribeValues(channels, id, items) && Sized(v) ==> Wireable(v)
    ensures forall v :: v in LeftValues(items) && Sized(v) ==> Wireable(v)
    decreases |items|
  {
    hide Subscribed, Unsubscribed, Sized, Wireable;
    if items != [] {
      SubscriptionsWireable(Subscribed(channels, items[0], id, Push(id, items[0])), id, items[1..]);
      SubscriptionsWireable(Unsubscribed(channels, items[0], id), id, items[1..]);
      forall kind, count | Sized(SubscribeValue(kind, items[0], count))
        ensures Wireable(SubscribeValue(kind, items[0], count))
      {
        TripleWireable(kind, items[0], count);
      }
      hide SubscribeValue;
    }
  }

  lemma TripleWireable(kind: Bytes, channel: Bytes, count: int)
    requires Sized(SubscribeValue(kind, channel, count))
    ensures Wireable(SubscribeValue(kind, channel, count))
  {
    var elements := [BulkString(kind), BulkString(channel), Integer(count)];
    assert elements[0] in elements && elements[1] in elements && elements[2] in elements;
  }

  lemma AnswersWireable(cfg: Config, w: World, v: RespValue, scene: Scene)
    requires Readable(cfg, w, v, scene)
    ensures AllWireable(AnswersTo(cfg, w, v, scene))
  {
    hide Exec, ReplyValue, NoticeText, ParseCommand, RouteOf, SubscribeValues, UnsubscribeValues, LeftValues, SubscribeValue,
      Among, Left, Carriable, Sized, Wireable, ResponseTo;
    OtherNotices();
    AuthNotices();
    FixedWireable();
    if ParseCommand(v).Some? {
      var cmd := ParseCommand(v).value;
      SubscriptionsWireable(w.channels, cfg.id, cmd.args);
      SubscriptionsWireable(w.channels, cfg.id, Among(scene.order(w.channels.Keys), Left(w.channels, cfg.id)));
      if w.conn.authed && RouteOf(cmd.name).ToDispatcher? {
        var answer := ResponseTo(cfg, scene, cmd, Exec(cmd, w.store, scene.env).outcome);
        assert answer in AnswersTo(cfg, w, v, scene);
        ResponseWireable(cfg, w.store, cmd, scene);
      }
    }
  }

  lemma FixedWireable()
    ensures Wireable(SimpleString("OK")) && Wireable(SubscribeValue("unsubscribe", "", 0))
  {
    assert OneLine("OK");
    OneLineCrlfFree("OK");
    TripleWireable("unsubscribe", "", 0);
  }

  lemma ServeWhole(cfg: Config, w: World, v: RespValue, scene: Scene)
    requires Readable(cfg, w, v, scene) && Whole(w.conn.accepted)
    ensures var r := Serve(cfg, w, v, scene);
            Whole(r.responses) && Whole(r.world.conn.accepted)
  {
    hide Readable, Serve, AnswersTo, WireAll, Whole, AllWireable;
    ServeAnswers(cfg, w, v, scene);
    AnswersWireable(cfg, w, v, scene);
    var bytes := WireAll(AnswersTo(cfg, w, v, scene));
    WholeValues(AnswersTo(cfg, w, v, scene));
    WholeJoin(w.conn.accepted, bytes);
    WholeNothing();
  }

  // ---- whole runs --------------------------------------------------------------------------------

  /** Every value that the loop of `handle_data` serves is answered readably. */
  ghost predicate AllReadable(cfg: Config, w: World, clock: nat -> Scene, i: nat)
    decreases |w.conn.buf|
  {
    match Decode(w.conn.buf)
    case Done(v, size) =>
      var w1 := Advance(w, size);
      var r := Serve(cfg, w1, v, clock(i));
      Readable(cfg, w1, v, clock(i)) && (!r.stopped ==> AllReadable(cfg, r.world, clock, i + 1))
    case _ => true
  }

  ghost predicate EventReadable(cfg: Config, w: World, e: Event) {
    match e
    case ReadDone(chunk, clock) =>
      |w.conn.buf| + |chunk| <= cfg.maxRequest ==>
        AllReadable(cfg, w.(conn := ReadCompleted(w.conn).(buf := w.conn.buf + chunk)), clock, 0)
    case Pushed(frame) => Whole(frame)
    case _ => true
  }

  ghost predicate RunReadable(cfg: Config, w: World, events: seq<Event>)
    decreases |events|
  {
    events == [] || (EventReadable(cfg, w, events[0]) && RunReadable(cfg, Handle(cfg, w, events[0]), events[1..]))
  }

  lemma {:induction false} AllReadableStep(cfg: Config, w: World, clock: nat -> Scene, i: nat)
    requires AllReadable(cfg, w, clock, i) && Decode(w.conn.buf).Done?
    ensures var w1 := Advance(w, Decode(w.conn.buf).size);
            var v := Decode(w.conn.buf).value;
            var r := Serve(cfg, w1, v, clock(i));
            Readable(cfg, w1, v, clock(i)) && (!r.stopped ==> AllReadable(cfg, r.world, clock, i + 1))
  {
    hide Decode, Serve, Readable;
  }

  lemma {:induction false} ServeAllWhole(cfg: Config, w: World, responses: Bytes, clock: nat -> Scene, i: nat)
    requires AllReadable(cfg, w, clock, i) && Whole(w.conn.accepted) && Whole(responses)
    ensures var r := ServeAll(cfg, w, responses, clock, i);
            Whole(r.0.conn.accepted) && Whole(r.1)
    decreases |w.conn.buf|
  {
    hide Decode, Serve, ServeAll, Readable, AllReadable, Whole, What, ThrownWire;
    ServeAllStep(cfg, w, responses, clock, i);
    match Decode(w.conn.buf)
    case More =>
    case Fail(violation) =>
      ViolationWhole(w.conn.buf);
      WholeJoin(responses, ThrownWire(What(violation)));
    case Done(v, size) =>
      AllReadableStep(cfg, w, clock, i);
      var w1 := Advance(w, size);
      var r := Serve(cfg, w1, v, clock(i));
      ServeWhole(cfg, w1, v, clock(i));
      WholeJoin(responses, r.responses);
      if !r.stopped {
        ServeAllWhole(cfg, r.world, responses + r.responses, clock, i + 1);
      }
  }

  lemma WriteWhole(cfg: Config, c: Conn, data: Bytes)
    requires Whole(c.accepted) && Whole(data)
    ensures Whole(DoWrite(cfg, c, data).accepted)
  {
    hide Whole;
    WholeJoin(c.accepted, data);
  }

  lemma HandleWhole(cfg: Config, w: World, e: Event)
    requires EventReadable(cfg, w, e) && Whole(w.conn.accepted)
    ensures Whole(Handle(cfg, w, e).conn.accepted)
  {
    hide Whole, ServeAll, AllReadable, DoWrite, NoticeWire;
    match e
    case ReadDone(chunk, clock) =>
      var c := ReadCompleted(w.conn);
      if |c.buf| + |chunk| > cfg.maxRequest {
        NoticeWhole(TooLarge);
        WriteWhole(cfg, c.(closing := true, buf := ""), NoticeWire(TooLarge));
      } else {
        var w1 := w.(conn := c.(buf := c.buf + chunk));
        WholeNothing();
        ServeAllWhole(cfg, w1, "", clock, 0);
        var r := ServeAll(cfg, w1, "", clock, 0);
        WriteWhole(cfg, r.0.conn, r.1);
      }
    case Pushed(frame) => WriteWhole(cfg, w.conn, frame);
    case _ =>
  }

  /** Over any events, what is accepted for the client stays a sequence of whole values: replies,
      subscription replies, protocol errors, the refusal of a request that is too large, and pushed
      messages. */
  lemma {:induction false} AcceptedIsWhole(cfg: Config, w: World, events: seq<Event>)
    requires RunReadable(cfg, w, events) && Whole(w.conn.accepted)
    ensures Whole(HandleAll(cfg, w, events).conn.accepted)
    decreases |events|
  {
    hide Handle, EventReadable, Whole;
    if events != [] {
      HandleWhole(cfg, w, events[0]);
      AcceptedIsWhole(cfg, Handle(cfg, w, events[0]), events[1..]);
    }
  }

  /** And at any moment of any run of a new connection, what has been written to the client so far
      reads as values without a protocol error. */
  lemma ClientReadsValues(cfg: Config, w: World, events: seq<Event>)
    requires w.conn == Started(cfg) && PossibleAll(cfg, w, events) && RunReadable(cfg, w, events)
    ensures Drain(HandleAll(cfg, w, events).conn.written).error == None
  {
    StartedSound(cfg, w.store, w.file, w.channels);
    WholeNothing();
    assert w == World(Started(cfg), w.store, w.file, w.channels);
    hide HandleAll, PossibleAll, RunReadable, Whole, Drain, QueueSafe, Live, Started;
    StartedEmpty(cfg);
    AcceptedIsWhole(cfg, w, events);
    ReachableSound(cfg, w, events);
    var c := HandleAll(cfg, w, events).conn;
    WrittenIsPart(c);
    PartHasNoError(c.written, c.accepted);
  }

  lemma StartedEmpty(cfg: Config)
    ensures Started(cfg).accepted == ""
  {
  }

  lemma WrittenIsPart(c: Conn)
    requires Counted(c)
    ensures c.written <= c.accepted
  {
    if c.writesOut > 0 {
      assert c.written == c.accepted[..|c.written|];
    }
  }
}
