/** However the network cuts a stream of commands into reads, the store, the append-only file
    and the reply bytes come out as if the commands had been run one by one. */
module Segmentation {
  import opened Bytes
  import opened Resp
  import opened RespTheorems
  import opened Store
  import opened Commands
  import opened StoreTheorems
  import opened Aof
  import opened Connection
  import opened ConnectionTheorems

  // ---- one by one ----------------------------------------------------------------------------

  datatype Ref = Ref(store: Store, file: Bytes, replies: Bytes)

  /** A value to serve, and the scene in which it is served. */
  datatype Request = Request(value: RespValue, scene: Scene)

  /** A command for the dispatcher as a value: not AUTH, SUBSCRIBE or UNSUBSCRIBE, and none whose
      reply is not modelled. */
  ghost predicate Plain(v: RespValue) {
    && Wireable(v) && ParseCommand(v).Some?
    && var cmd := ParseCommand(v).value;
       RouteOf(cmd.name).ToDispatcher? && KindOf(cmd.name) != Some(Unmodelled)
  }

  ghost predicate AllPlain(reqs: seq<Request>) {
    forall i :: 0 <= i < |reqs| ==> Plain(reqs[i].value)
  }

  function Values(reqs: seq<Request>): (vs: seq<RespValue>)
    ensures |vs| == |reqs| && forall i :: 0 <= i < |reqs| ==> vs[i] == reqs[i].value
  {
    seq(|reqs|, i requires 0 <= i < |reqs| => reqs[i].value)
  }

  /** Log, dispatch, reply. */
  ghost function RunOne(cfg: Config, ref: Ref, req: Request): Ref
    requires Plain(req.value)
  {
    var cmd := ParseCommand(req.value).value;
    var r := Exec(cmd, ref.store, req.scene.env);
    var file := if cfg.logging && IsWrite(cmd.name) then ref.file + Frame(cmd) else ref.file;
    Ref(r.store, file, if r.outcome.Throw? then ref.replies else ref.replies + Wire(ReplyValue(req.scene, cmd, r.outcome)))
  }

  ghost function RunEach(cfg: Config, ref: Ref, reqs: seq<Request>): Ref
    requires AllPlain(reqs)
    decreases |reqs|
  {
    if reqs == [] then ref else RunEach(cfg, RunOne(cfg, ref, reqs[0]), reqs[1..])
  }

  /** The command throws in this store. */
  ghost predicate Throws(store: Store, req: Request)
    requires Plain(req.value)
  {
    Exec(ParseCommand(req.value).value, store, req.scene.env).outcome.Throw?
  }

  /** None of the commands throws when run one by one. */
  ghost predicate NoThrow(cfg: Config, ref: Ref, reqs: seq<Request>)
    requires AllPlain(reqs)
    decreases |reqs|
  {
    reqs == [] || (!Throws(ref.store, reqs[0]) && NoThrow(cfg, RunOne(cfg, ref, reqs[0]), reqs[1..]))
  }

  lemma {:induction false} RunEachConcat(cfg: Config, ref: Ref, a: seq<Request>, b: seq<Request>)
    requires AllPlain(a) && AllPlain(b) && AllPlain(a + b)
    ensures RunEach(cfg, ref, a + b) == RunEach(cfg, RunEach(cfg, ref, a), b)
    ensures NoThrow(cfg, ref, a + b) <==> NoThrow(cfg, ref, a) && NoThrow(cfg, RunEach(cfg, ref, a), b)
    decreases |a|
  {
    hide Plain, RunOne, Throws;
    if a == [] {
      assert a + b == b;
    } else {
      assert (a + b)[1..] == a[1..] + b;
      RunEachConcat(cfg, RunOne(cfg, ref, a[0]), a[1..], b);
    }
  }

  lemma RunOneReplies(cfg: Config, ref: Ref, req: Request)
    requires Plain(req.value)
    ensures var none := RunOne(cfg, ref.(replies := ""), req);
            RunOne(cfg, ref, req) == none.(replies := ref.replies + none.replies)
  {
    hide Exec, Plain, Wire, ReplyValue, ParseCommand, IsWrite, Frame;
    assert ref.replies + "" == ref.replies;
  }

  lemma RunEachNone(cfg: Config, ref: Ref, reqs: seq<Request>)
    requires AllPlain(reqs) && reqs == []
    ensures RunEach(cfg, ref, reqs) == ref && NoThrow(cfg, ref, reqs)
  {
  }

  lemma RunEachStep(cfg: Config, ref: Ref, reqs: seq<Request>)
    requires AllPlain(reqs) && reqs != []
    ensures Plain(reqs[0].value) && AllPlain(reqs[1..])
    ensures RunEach(cfg, ref, reqs) == RunEach(cfg, RunOne(cfg, ref, reqs[0]), reqs[1..])
    ensures NoThrow(cfg, ref, reqs)
            <==> !Throws(ref.store, reqs[0]) && NoThrow(cfg, RunOne(cfg, ref, reqs[0]), reqs[1..])
  {
    hide Throws, Plain, RunOne;
  }

  /** Earlier replies only come first. */
  lemma {:induction false} RepliesFirst(cfg: Config, ref: Ref, reqs: seq<Request>)
    requires AllPlain(reqs)
    ensures var none := RunEach(cfg, ref.(replies := ""), reqs);
            RunEach(cfg, ref, reqs) == none.(replies := ref.replies + none.replies)
    ensures NoThrow(cfg, ref, reqs) == NoThrow(cfg, ref.(replies := ""), reqs)
    decreases |reqs|
  {
    hide Throws, Plain, RunOne, RunEach, NoThrow, AllPlain;
    if reqs == [] {
      RunEachNone(cfg, ref, reqs);
      RunEachNone(cfg, ref.(replies := ""), reqs);
      assert ref.replies + "" == ref.replies;
    } else {
      RunEachStep(cfg, ref, reqs);
      RunEachStep(cfg, ref.(replies := ""), reqs);
      var one, none := RunOne(cfg, ref, reqs[0]), RunOne(cfg, ref.(replies := ""), reqs[0]);
      RunOneReplies(cfg, ref, reqs[0]);
      assert one.(replies := "") == none.(replies := "");
      RepliesFirst(cfg, one, reqs[1..]);
      RepliesFirst(cfg, none, reqs[1..]);
      var tail := RunEach(cfg, none.(replies := ""), reqs[1..]);
      assert ref.replies + none.replies + tail.replies == ref.replies + (none.replies + tail.replies);
    }
  }

  /** What running a first part leaves for the rest. */
  lemma RunSplit(cfg: Config, ref: Ref, a: seq<Request>, b: seq<Request>)
    requires AllPlain(a + b) && ref.replies == ""
    ensures AllPlain(a) && AllPlain(b)
    ensures var first := RunEach(cfg, ref, a);
            var second := RunEach(cfg, first.(replies := ""), b);
            && RunEach(cfg, ref, a + b) == second.(replies := first.replies + second.replies)
            && (NoThrow(cfg, ref, a + b) <==> NoThrow(cfg, ref, a) && NoThrow(cfg, first.(replies := ""), b))
  {
    hide Plain, RunEach, NoThrow;
    forall i | 0 <= i < |a| ensures Plain(a[i].value) { assert (a + b)[i] == a[i]; }
    forall i | 0 <= i < |b| ensures Plain(b[i].value) { assert (a + b)[|a| + i] == b[i]; }
    RunEachConcat(cfg, ref, a, b);
    RepliesFirst(cfg, RunEach(cfg, ref, a), b);
  }

  // ---- one read --------------------------------------------------------------------------------

  /** The values that a read completes, each with its own reading of the read's clock. */
  function Served(vs: seq<RespValue>, clock: nat -> Scene, i: nat): (reqs: seq<Request>)
    ensures |reqs| == |vs| && forall j :: 0 <= j < |vs| ==> reqs[j] == Request(vs[j], clock(i + j))
  {
    seq(|vs|, j requires 0 <= j < |vs| => Request(vs[j], clock(i + j)))
  }

  lemma ServedFront(vs: seq<RespValue>, clock: nat -> Scene, i: nat)
    requires vs != []
    ensures var reqs := Served(vs, clock, i);
            reqs != [] && reqs[0] == Request(vs[0], clock(i)) && reqs[1..] == Served(vs[1..], clock, i + 1)
  {
  }

  lemma ServePlain(cfg: Config, w: World, req: Request, responses: Bytes)
    requires Plain(req.value) && w.conn.authed && !Throws(w.store, req)
    ensures var ref := RunOne(cfg, Ref(w.store, w.file, responses), req);
            var r := Serve(cfg, w, req.value, req.scene);
            && r.world == w.(store := ref.store, file := ref.file) && !r.stopped
            && responses + r.responses == ref.replies
  {
    hide Exec, RouteOf, Wire, ReplyValue, KindOf, IsWrite, Frame, Wireable;
  }

  /** The loop of a read serves the complete values in the buffer as if one by one. */
  lemma {:induction false} ServeAllPlain(cfg: Config, w: World, vs: seq<RespValue>, rest: Bytes, responses: Bytes,
                                         clock: nat -> Scene, i: nat)
    requires Drain(w.conn.buf) == Drained(vs, rest, None)
    requires var reqs := Served(vs, clock, i);
             AllPlain(reqs) && w.conn.authed && NoThrow(cfg, Ref(w.store, w.file, responses), reqs)
    ensures var ref := RunEach(cfg, Ref(w.store, w.file, responses), Served(vs, clock, i));
            ServeAll(cfg, w, responses, clock, i)
            == (w.(store := ref.store, file := ref.file, conn := w.conn.(buf := rest)), ref.replies)
    decreases |w.conn.buf|
  {
    hide Decode, Drain, Plain, Serve, RunOne, RunEach, NoThrow, Throws, ServeAll, Served, AllPlain;
    DrainStep(w.conn.buf);
    ServeAllStep(cfg, w, responses, clock, i);
    var reqs := Served(vs, clock, i);
    match Decode(w.conn.buf)
    case More => RunEachNone(cfg, Ref(w.store, w.file, responses), reqs);
    case Done(v, size) =>
      var w1 := Advance(w, size);
      assert vs[0] == v && vs[1..] == Drain(w1.conn.buf).values;
      ServedFront(vs, clock, i);
      RunEachStep(cfg, Ref(w.store, w.file, responses), reqs);
      ServePlain(cfg, w1, reqs[0], responses);
      var r := Serve(cfg, w1, v, clock(i));
      ServeAllPlain(cfg, r.world, vs[1..], rest, responses + r.responses, clock, i + 1);
  }

  // ---- whole streams ------------------------------------------------------------------------------

  /** Reads and writes that complete, and messages pushed by the broker. */
  ghost predicate Traffic(events: seq<Event>) {
    forall i :: 0 <= i < |events| ==> events[i].ReadDone? || events[i].WriteDone? || events[i].Pushed?
  }

  function ChunksOf(events: seq<Event>): seq<Bytes> {
    if events == [] then []
    else if events[0].ReadDone? then [events[0].chunk] + ChunksOf(events[1..])
    else ChunksOf(events[1..])
  }

  /** The requests that the reads complete, after `buf` is already in the buffer. */
  function RequestsOf(buf: Bytes, events: seq<Event>): seq<Request>
    decreases |events|
  {
    if events == [] then []
    else if events[0].ReadDone? then
      var d := Drain(buf + events[0].chunk);
      Served(d.values, events[0].clock, 0) + RequestsOf(d.rest, events[1..])
    else RequestsOf(buf, events[1..])
  }

  /** An open, authenticated connection between callbacks. */
  ghost predicate Ready(cfg: Config, w: World) {
    Sound(cfg, w) && w.conn.open && w.conn.authed && !w.conn.closing
  }

  /** The reads deliver exactly the values, which are ordinary commands. */
  ghost predicate Carries(buf: Bytes, events: seq<Event>, vs: seq<RespValue>) {
    && (forall v :: v in vs ==> Plain(v))
    && buf + Concat(ChunksOf(events)) == WireAll(vs)
  }

  lemma {:induction false} RequestsCarried(buf: Bytes, events: seq<Event>, vs: seq<RespValue>)
    requires Carries(buf, events, vs) && Traffic(events) && Decode(buf).More?
    ensures Values(RequestsOf(buf, events)) == vs && AllPlain(RequestsOf(buf, events))
    decreases |events|
  {
    hide Decode, Drain, Plain, WireAll;
    var reqs := RequestsOf(buf, events);
    if events == [] {
      NothingLeft(buf, vs);
    } else if events[0].ReadDone? {
      var chunk, later := events[0].chunk, Concat(ChunksOf(events[1..]));
      assert buf + (chunk + later) == (buf + chunk) + later;
      CarriesRead(buf + chunk, later, vs);
      var d := Drain(buf + chunk);
      DrainRest(buf + chunk);
      RequestsCarried(d.rest, events[1..], vs[|d.values|..]);
      assert vs == d.values + vs[|d.values|..];
      assert Values(reqs) == d.values + Values(RequestsOf(d.rest, events[1..]));
    } else {
      RequestsCarried(buf, events[1..], vs);
    }
    forall i | 0 <= i < |reqs| ensures Plain(reqs[i].value) {
      assert Values(reqs)[i] in vs;
    }
  }

  lemma CarriesRead(part: Bytes, later: Bytes, vs: seq<RespValue>)
    requires (forall v :: v in vs ==> Plain(v)) && part + later == WireAll(vs)
    ensures var d := Drain(part);
            && |d.values| <= |vs| && d.values == vs[..|d.values|] && d.error == None
            && (forall v :: v in vs[|d.values|..] ==> Plain(v))
            && d.rest + later == WireAll(vs[|d.values|..])
  {
    assert forall v :: v in vs ==> Wireable(v);
    hide Decode, Drain, Plain, WireAll, Wireable;
    DrainPart(vs, part, later);
  }

  lemma NothingLeft(buf: Bytes, vs: seq<RespValue>)
    requires Decode(buf).More? && (forall v :: v in vs ==> Plain(v)) && buf + Concat([]) == WireAll(vs)
    ensures vs == [] && buf == ""
  {
    assert forall v :: v in vs ==> Wireable(v);
    assert buf + "" == buf;
    hide Plain, Decode, Drain, WireAll;
    DrainWireAll(vs);
    DrainStep(buf);
  }

  /** From `w` to `w'`, the store and the file changed as they do when the requests are run one
      by one, and the connection accepted these bytes for its client. */
  ghost predicate RanAll(cfg: Config, w: World, w': World, reqs: seq<Request>, sent: Bytes) {
    && AllPlain(reqs)
    && var ref := RunEach(cfg, Ref(w.store, w.file, ""), reqs);
       w'.store == ref.store && w'.file == ref.file && w'.conn.accepted == w.conn.accepted + sent
  }

  /** What the client is sent: the replies of each read together, the messages where they come. */
  ghost function SentBy(cfg: Config, ref: Ref, buf: Bytes, events: seq<Event>): Bytes
    decreases |events|
  {
    if events == [] then ""
    else
      match events[0]
      case ReadDone(chunk, clock) =>
        var d := Drain(buf + chunk);
        var first := Served(d.values, clock, 0);
        if !AllPlain(first) then ""
        else
          var after := RunEach(cfg, ref, first);
          after.replies + SentBy(cfg, after.(replies := ""), d.rest, events[1..])
      case Pushed(frame) => frame + SentBy(cfg, ref, buf, events[1..])
      case _ => SentBy(cfg, ref, buf, events[1..])
  }

  lemma RanNothing(cfg: Config, w: World, w': World, sent: Bytes)
    requires w'.store == w.store && w'.file == w.file && w'.conn.accepted == w.conn.accepted + sent
    ensures RanAll(cfg, w, w', [], sent)
  {
    RunEachNone(cfg, Ref(w.store, w.file, ""), []);
  }

  lemma RanChain(cfg: Config, w: World, w1: World, w2: World, a: seq<Request>, b: seq<Request>, sent1: Bytes, sent2: Bytes)
    requires RanAll(cfg, w, w1, a, sent1) && RanAll(cfg, w1, w2, b, sent2)
    ensures RanAll(cfg, w, w2, a + b, sent1 + sent2)
  {
    hide RunEach, NoThrow, Plain;
    RunSplit(cfg, Ref(w.store, w.file, ""), a, b);
    assert w.conn.accepted + sent1 + sent2 == w.conn.accepted + (sent1 + sent2);
  }

  lemma ReadCompletedSafe(cfg: Config, w: World, c: Conn)
    requires Sound(cfg, w) && w.conn.readsOut > 0 && c == ReadCompleted(w.conn).(buf := c.buf)
    ensures Safe(cfg, c)
  {
  }

  /** One read that neither exceeds a limit nor throws. */
  lemma HandlePlain(cfg: Config, w: World, chunk: Bytes, clock: nat -> Scene)
    requires Ready(cfg, w) && w.conn.readsOut > 0
    requires var c' := Handle(cfg, w, ReadDone(chunk, clock)).conn; c'.open && !c'.closing
    requires var d := Drain(w.conn.buf + chunk);
             var reqs := Served(d.values, clock, 0);
             d.error == None && AllPlain(reqs) && NoThrow(cfg, Ref(w.store, w.file, ""), reqs)
    ensures var d := Drain(w.conn.buf + chunk);
            var w' := Handle(cfg, w, ReadDone(chunk, clock));
            var reqs := Served(d.values, clock, 0);
            && RanAll(cfg, w, w', reqs, RunEach(cfg, Ref(w.store, w.file, ""), reqs).replies)
            && w'.conn.buf == d.rest && w'.conn.authed
  {
    hide Decode, Drain, Plain, RunEach, NoThrow, ServeAll, AllPlain;
    var d := Drain(w.conn.buf + chunk);
    var ref := RunEach(cfg, Ref(w.store, w.file, ""), Served(d.values, clock, 0));
    assert |w.conn.buf| + |chunk| <= cfg.maxRequest;
    var w1 := w.(conn := ReadCompleted(w.conn).(buf := w.conn.buf + chunk));
    ServeAllPlain(cfg, w1, d.values, d.rest, "", clock, 0);
    var c := w1.conn.(buf := d.rest);
    ReadCompletedSafe(cfg, w, c);
    hide QueueSafe, OneEach, Counted, Safe, Live;
    if ref.replies != "" {
      DoWriteSafe(cfg, c, ref.replies);
      hide DoWrite;
    } else {
      assert w.conn.accepted + "" == w.conn.accepted;
    }
  }

  lemma WriteReady(cfg: Config, w: World)
    requires Ready(cfg, w) && w.conn.writesOut > 0
    ensures var w' := Handle(cfg, w, WriteDone);
            && Ready(cfg, w') && w' == w.(conn := w'.conn)
            && w'.conn.buf == w.conn.buf && w'.conn.accepted == w.conn.accepted
  {
    WriteDoneSound(cfg, w);
    WriteDoneExact(cfg, w.conn);
    hide QueueSafe, Live, Counted, Decode;
  }

  /** The events can happen and leave the connection open and not about to be closed: no limit
      is exceeded on the way, for a socket never reopens and `closing` is never unset. */
  ghost predicate Survives(cfg: Config, w: World, events: seq<Event>) {
    && PossibleAll(cfg, w, events) && Traffic(events)
    && var c := HandleAll(cfg, w, events).conn; c.open && !c.closing
  }

  lemma SurvivesRest(cfg: Config, w: World, events: seq<Event>)
    requires Sound(cfg, w) && Survives(cfg, w, events) && events != []
    ensures var w1 := Handle(cfg, w, events[0]);
            && Possible(w, events[0]) && (events[0].ReadDone? || events[0].WriteDone? || events[0].Pushed?)
            && Sound(cfg, w1) && w1.conn.open && !w1.conn.closing && Survives(cfg, w1, events[1..])
  {
    hide Handle, Possible, Sound;
    HandleSound(cfg, w, events[0]);
    ReachableSound(cfg, Handle(cfg, w, events[0]), events[1..]);
  }

  /** Events that bring exactly the values, within the limits and without an exception. */
  ghost predicate Streams(cfg: Config, w: World, events: seq<Event>, vs: seq<RespValue>) {
    && Ready(cfg, w) && Survives(cfg, w, events) && Carries(w.conn.buf, events, vs)
    && var reqs := RequestsOf(w.conn.buf, events);
       AllPlain(reqs) ==> NoThrow(cfg, Ref(w.store, w.file, ""), reqs)
  }

  lemma StreamsCarried(cfg: Config, w: World, events: seq<Event>, vs: seq<RespValue>)
    requires Streams(cfg, w, events, vs)
    ensures Values(RequestsOf(w.conn.buf, events)) == vs && AllPlain(RequestsOf(w.conn.buf, events))
    ensures NoThrow(cfg, Ref(w.store, w.file, ""), RequestsOf(w.conn.buf, events))
    ensures events != [] ==>
              && Possible(w, events[0]) && (events[0].ReadDone? || events[0].WriteDone? || events[0].Pushed?)
              && var w1 := Handle(cfg, w, events[0]);
                 Sound(cfg, w1) && w1.conn.open && !w1.conn.closing && Survives(cfg, w1, events[1..])
  {
    assert Decode(w.conn.buf).More? && Traffic(events) && Sound(cfg, w);
    RequestsCarried(w.conn.buf, events, vs);
    hide Handle, Plain, NoThrow, Sound, RequestsOf, Carries, Possible, Survives;
    if events != [] {
      SurvivesRest(cfg, w, events);
    }
  }

  lemma CarriesRest(buf: Bytes, events: seq<Event>, vs: seq<RespValue>)
    requires Carries(buf, events, vs) && events != [] && events[0].ReadDone?
    ensures var d := Drain(buf + events[0].chunk);
            && d.error == None && |d.values| <= |vs| && Carries(d.rest, events[1..], vs[|d.values|..])
            && RequestsOf(buf, events) == Served(d.values, events[0].clock, 0) + RequestsOf(d.rest, events[1..])
  {
    hide Drain, Plain, WireAll;
    var chunk, later := events[0].chunk, Concat(ChunksOf(events[1..]));
    assert buf + (chunk + later) == (buf + chunk) + later;
    CarriesRead(buf + chunk, later, vs);
  }

  lemma StreamRead(cfg: Config, w: World, events: seq<Event>, vs: seq<RespValue>)
    returns (m: nat, first: seq<Request>, sent: Bytes)
    requires Streams(cfg, w, events, vs) && events != [] && events[0].ReadDone?
    ensures var w1 := Handle(cfg, w, events[0]);
            && m <= |vs| && Streams(cfg, w1, events[1..], vs[m..]) && RanAll(cfg, w, w1, first, sent)
            && RequestsOf(w.conn.buf, events) == first + RequestsOf(w1.conn.buf, events[1..])
            && SentBy(cfg, Ref(w.store, w.file, ""), w.conn.buf, events)
               == sent + SentBy(cfg, Ref(w1.store, w1.file, ""), w1.conn.buf, events[1..])
  {
    StreamsCarried(cfg, w, events, vs);
    hide Handle, Plain, AllPlain, RunEach, NoThrow, Drain, Decode, RanAll, Sound, Values, Survives, RequestsOf, Carries,
      Served;
    CarriesRest(w.conn.buf, events, vs);
    var d := Drain(w.conn.buf + events[0].chunk);
    m, first := |d.values|, Served(d.values, events[0].clock, 0);
    RunSplit(cfg, Ref(w.store, w.file, ""), first, RequestsOf(d.rest, events[1..]));
    sent := RunEach(cfg, Ref(w.store, w.file, ""), first).replies;
    HandlePlain(cfg, w, events[0].chunk, events[0].clock);
    RanRef(cfg, w, Handle(cfg, w, events[0]), first, sent);
  }

  lemma PushReady(cfg: Config, w: World, frame: Bytes)
    requires Ready(cfg, w) && Handle(cfg, w, Pushed(frame)).conn.open
    ensures var w' := Handle(cfg, w, Pushed(frame));
            && Ready(cfg, w') && w' == w.(conn := w'.conn)
            && w'.conn.buf == w.conn.buf && w'.conn.accepted == w.conn.accepted + frame
  {
    HandleSound(cfg, w, Pushed(frame));
    DoWriteSafe(cfg, w.conn, frame);
    hide Sound, DoWrite, Safe;
  }

  /** An event that neither reads nor touches the shared state. */
  lemma StreamPasses(cfg: Config, w: World, w1: World, events: seq<Event>, vs: seq<RespValue>, sent: Bytes)
    requires Streams(cfg, w, events, vs) && events != [] && !events[0].ReadDone?
    requires Ready(cfg, w1) && Survives(cfg, w1, events[1..]) && w1 == w.(conn := w1.conn)
    requires w1.conn.buf == w.conn.buf && w1.conn.accepted == w.conn.accepted + sent
    requires sent == if events[0].Pushed? then events[0].frame else ""
    ensures Streams(cfg, w1, events[1..], vs) && RanAll(cfg, w, w1, [], sent)
    ensures RequestsOf(w.conn.buf, events) == RequestsOf(w1.conn.buf, events[1..])
    ensures SentBy(cfg, Ref(w.store, w.file, ""), w.conn.buf, events)
            == sent + SentBy(cfg, Ref(w1.store, w1.file, ""), w1.conn.buf, events[1..])
  {
    hide Plain, NoThrow, WireAll, Ready, Survives, Concat, RanAll;
    assert ChunksOf(events) == ChunksOf(events[1..]);
    RanNothing(cfg, w, w1, sent);
    var later := SentBy(cfg, Ref(w.store, w.file, ""), w.conn.buf, events[1..]);
    assert "" + later == later;
  }

  lemma StreamOther(cfg: Config, w: World, events: seq<Event>, vs: seq<RespValue>) returns (sent: Bytes)
    requires Streams(cfg, w, events, vs) && events != [] && !events[0].ReadDone?
    ensures var w1 := Handle(cfg, w, events[0]);
            && Streams(cfg, w1, events[1..], vs) && RanAll(cfg, w, w1, [], sent)
            && RequestsOf(w.conn.buf, events) == RequestsOf(w1.conn.buf, events[1..])
            && SentBy(cfg, Ref(w.store, w.file, ""), w.conn.buf, events)
               == sent + SentBy(cfg, Ref(w1.store, w1.file, ""), w1.conn.buf, events[1..])
  {
    StreamsCarried(cfg, w, events, vs);
    assert Ready(cfg, w);
    hide Handle, Streams, Sound, Survives, RanAll, RequestsOf, SentBy, Values, NoThrow, Plain;
    var w1 := Handle(cfg, w, events[0]);
    if events[0].WriteDone? {
      WriteReady(cfg, w);
      sent := "";
      assert w.conn.accepted + "" == w.conn.accepted;
    } else {
      PushReady(cfg, w, events[0].frame);
      sent := events[0].frame;
    }
    StreamPasses(cfg, w, w1, events, vs, sent);
  }

  /** Any interleaving of reads, which cut the stream anywhere, of completed writes and of messages
      from the broker gives the store and the file of running the commands one by one, each once, in
      order, and each in the scene of the read that completed it; the client is sent the replies and
      the messages; nothing is left in the parser. */
  lemma {:induction false} StreamRuns(cfg: Config, w: World, events: seq<Event>, vs: seq<RespValue>)
    requires Streams(cfg, w, events, vs)
    ensures var reqs := RequestsOf(w.conn.buf, events);
            var sent := SentBy(cfg, Ref(w.store, w.file, ""), w.conn.buf, events);
            var w' := HandleAll(cfg, w, events);
            Values(reqs) == vs && RanAll(cfg, w, w', reqs, sent) && w'.conn.buf == ""
    decreases |events|
  {
    StreamsCarried(cfg, w, events, vs);
    if events == [] {
      NothingLeft(w.conn.buf, vs);
      assert w.conn.accepted + "" == w.conn.accepted;
      RanNothing(cfg, w, w, "");
      hide RanAll, Values;
    } else {
      hide Handle, Streams, RanAll, Values, RequestsOf, NoThrow, Plain, SentBy;
      var w1, w2 := Handle(cfg, w, events[0]), HandleAll(cfg, w, events);
      var reqs := RequestsOf(w1.conn.buf, events[1..]);
      var later := SentBy(cfg, Ref(w1.store, w1.file, ""), w1.conn.buf, events[1..]);
      if events[0].ReadDone? {
        var m, first, sent := StreamRead(cfg, w, events, vs);
        StreamRuns(cfg, w1, events[1..], vs[m..]);
        RanChain(cfg, w, w1, w2, first, reqs, sent, later);
      } else {
        var sent := StreamOther(cfg, w, events, vs);
        StreamRuns(cfg, w1, events[1..], vs);
        RanChain(cfg, w, w1, w2, [], reqs, sent, later);
        assert [] + reqs == reqs;
      }
    }
  }

  lemma RanRef(cfg: Config, w: World, w': World, reqs: seq<Request>, sent: Bytes)
    requires RanAll(cfg, w, w', reqs, sent)
    ensures Ref(w'.store, w'.file, "") == RunEach(cfg, Ref(w.store, w.file, ""), reqs).(replies := "")
  {
  }

  /** Without messages the client is sent exactly the replies. */
  lemma {:induction false} SentIsReplies(cfg: Config, ref: Ref, buf: Bytes, events: seq<Event>)
    requires ref.replies == "" && AllPlain(RequestsOf(buf, events))
    requires forall i :: 0 <= i < |events| ==> !events[i].Pushed?
    ensures SentBy(cfg, ref, buf, events) == RunEach(cfg, ref, RequestsOf(buf, events)).replies
    decreases |events|
  {
    hide Plain, RunEach, Drain;
    if events == [] {
      RunEachNone(cfg, ref, []);
    } else if events[0].ReadDone? {
      var d := Drain(buf + events[0].chunk);
      var first, rest := Served(d.values, events[0].clock, 0), RequestsOf(d.rest, events[1..]);
      RunSplit(cfg, ref, first, rest);
      SentIsReplies(cfg, RunEach(cfg, ref, first).(replies := ""), d.rest, events[1..]);
    } else {
      SentIsReplies(cfg, ref, buf, events[1..]);
    }
  }

  // ---- without deadlines ---------------------------------------------------------------------------

  ghost predicate NoDeadlines(vs: seq<RespValue>) {
    forall i :: 0 <= i < |vs| ==> ParseCommand(vs[i]).Some? ==> SetsNoDeadline(ParseCommand(vs[i]).value)
  }

  /** The tables are walked in the same order. */
  ghost predicate SameWalks(a: seq<Request>, b: seq<Request>) {
    |a| == |b| && forall i :: 0 <= i < |a| ==>
                    a[i].scene.order == b[i].scene.order && a[i].scene.external == b[i].scene.external
  }

  function In(vs: seq<RespValue>, scenes: seq<Scene>): (reqs: seq<Request>)
    requires |scenes| == |vs|
    ensures |reqs| == |vs| && forall i :: 0 <= i < |vs| ==> reqs[i] == Request(vs[i], scenes[i])
  {
    seq(|vs|, i requires 0 <= i < |vs| => Request(vs[i], scenes[i]))
  }

  lemma SameReply(a: Scene, b: Scene, cmd: Command, out: Outcome)
    requires !out.Throw? && a.order == b.order && a.external == b.external
    ensures ReplyValue(a, cmd, out) == ReplyValue(b, cmd, out)
  {
  }

  lemma RunOneTimeless(cfg: Config, r1: Ref, r2: Ref, a: Request, b: Request)
    requires a.value == b.value && Plain(a.value) && Timeless(r1.store) && r1.store == r2.store && r1.file == r2.file
    requires SetsNoDeadline(ParseCommand(a.value).value)
    ensures var s1, s2 := RunOne(cfg, r1, a), RunOne(cfg, r2, b);
            && s1.store == s2.store && s1.file == s2.file && Timeless(s1.store)
            && (a.scene.order == b.scene.order && a.scene.external == b.scene.external && r1 == r2 ==> s1 == s2)
    ensures Throws(r1.store, a) == Throws(r2.store, b)
  {
    var cmd := ParseCommand(a.value).value;
    ClockFree(cmd, r1.store, a.scene.env, b.scene.env);
    var out := Exec(cmd, r1.store, a.scene.env).outcome;
    if !out.Throw? && a.scene.order == b.scene.order && a.scene.external == b.scene.external {
      SameReply(a.scene, b.scene, cmd, out);
    }
    hide Exec, SetsNoDeadline, Timeless, Plain, Wire, Frame, IsWrite, ReplyValue;
  }

  lemma TimelessFront(a: seq<Request>, b: seq<Request>)
    requires Values(a) == Values(b) && AllPlain(a) && NoDeadlines(Values(a)) && a != []
    ensures b != [] && Plain(a[0].value) && a[0].value == b[0].value && SetsNoDeadline(ParseCommand(a[0].value).value)
    ensures Values(a[1..]) == Values(b[1..]) && NoDeadlines(Values(a[1..]))
    ensures SameWalks(a, b) ==>
              && a[0].scene.order == b[0].scene.order && a[0].scene.external == b[0].scene.external
              && SameWalks(a[1..], b[1..])
  {
    assert |Values(a)| == |a| && |Values(b)| == |b|;
    assert Values(a)[0] == a[0].value && Values(b)[0] == b[0].value;
    assert Plain(a[0].value) && ParseCommand(a[0].value).Some?;
    hide Plain, SetsNoDeadline, ParseCommand;
    assert Values(a[1..]) == Values(a)[1..] == Values(b[1..]);
  }

  lemma {:induction false} RunTimeless(cfg: Config, r1: Ref, r2: Ref, a: seq<Request>, b: seq<Request>)
    requires Values(a) == Values(b) && AllPlain(a) && AllPlain(b) && NoDeadlines(Values(a))
    requires Timeless(r1.store) && r1.store == r2.store && r1.file == r2.file
    ensures var s1, s2 := RunEach(cfg, r1, a), RunEach(cfg, r2, b);
            && s1.store == s2.store && s1.file == s2.file && (SameWalks(a, b) && r1 == r2 ==> s1 == s2)
    ensures NoThrow(cfg, r1, a) == NoThrow(cfg, r2, b)
    decreases |a|
  {
    hide Plain, AllPlain, RunOne, RunEach, NoThrow, Throws, Timeless, SetsNoDeadline, ParseCommand, NoDeadlines, SameWalks;
    if a == [] {
      assert |Values(b)| == 0;
      RunEachNone(cfg, r1, a);
      RunEachNone(cfg, r2, b);
    } else {
      TimelessFront(a, b);
      RunEachStep(cfg, r1, a);
      RunEachStep(cfg, r2, b);
      RunOneTimeless(cfg, r1, r2, a[0], b[0]);
      RunTimeless(cfg, RunOne(cfg, r1, a[0]), RunOne(cfg, r2, b[0]), a[1..], b[1..]);
    }
  }

  lemma InPlain(reqs: seq<Request>, vs: seq<RespValue>, scenes: seq<Scene>)
    requires AllPlain(reqs) && Values(reqs) == vs && |scenes| == |vs|
    ensures AllPlain(In(vs, scenes)) && Values(In(vs, scenes)) == vs
  {
    hide Plain;
    forall i | 0 <= i < |vs| ensures Plain(vs[i]) { assert vs[i] == reqs[i].value; }
  }

  /** Segmentation independence: when no command sets a deadline and no key has one, the store and
      the file are those of running the commands one by one in any scenes at all, however the stream
      is cut into reads and whenever they happen; and so are the replies, when the tables are walked
      in the same order. */
  lemma SegmentationIndependence(cfg: Config, w: World, events: seq<Event>, vs: seq<RespValue>, scenes: seq<Scene>)
    requires Ready(cfg, w) && Survives(cfg, w, events) && Carries(w.conn.buf, events, vs)
    requires Timeless(w.store) && NoDeadlines(vs) && |scenes| == |vs|
    requires AllPlain(In(vs, scenes)) ==> NoThrow(cfg, Ref(w.store, w.file, ""), In(vs, scenes))
    ensures var w' := HandleAll(cfg, w, events);
            var other := In(vs, scenes);
            && AllPlain(other) && w'.conn.buf == ""
            && var ref := RunEach(cfg, Ref(w.store, w.file, ""), other);
               && w'.store == ref.store && w'.file == ref.file
               && ((forall i :: 0 <= i < |events| ==> !events[i].Pushed?) && SameWalks(RequestsOf(w.conn.buf, events), other) ==>
                     w'.conn.accepted == w.conn.accepted + ref.replies)
  {
    assert Decode(w.conn.buf).More? && Traffic(events);
    RequestsCarried(w.conn.buf, events, vs);
    var reqs, ref := RequestsOf(w.conn.buf, events), Ref(w.store, w.file, "");
    InPlain(reqs, vs, scenes);
    hide Plain, RunEach, NoThrow, Decode, Timeless, HandleAll, Survives, Carries, Ready, NoDeadlines, RequestsOf, Values,
      SameWalks, SentBy, AllPlain;
    RunTimeless(cfg, ref, ref, reqs, In(vs, scenes));
    StreamRuns(cfg, w, events, vs);
    if forall i :: 0 <= i < |events| ==> !events[i].Pushed? {
      SentIsReplies(cfg, ref, w.conn.buf, events);
    }
  }
}
