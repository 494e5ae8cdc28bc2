/** What every callback of a connection keeps, over whole runs of events. */
module ConnectionTheorems {
  import opened Bytes
  import opened Resp
  import opened RespTheorems
  import opened Store
  import opened Commands
  import opened PubSub
  import opened Connection

  // ---- the write queue ---------------------------------------------------------------------

  function Flight(c: Conn): Bytes {
    if c.writing then c.inflight else ""
  }

  /** While the socket is open, what was written, what is in flight and what is queued are, in
      this order, all that was accepted; the byte count is exact and within its limit; and a
      queue only waits behind a write. */
  ghost predicate QueueSafe(cfg: Config, c: Conn) {
    c.open ==>
      && c.written + Flight(c) + Concat(c.queue) == c.accepted
      && c.pending == |Flight(c)| + |Concat(c.queue)|
      && c.pending <= cfg.maxPending
      && (!c.writing ==> c.queue == [])
  }

  /** Open or closed, a write that is outstanding was counted, and what was sent and is being sent
      is a front part of what was accepted. */
  ghost predicate Counted(c: Conn) {
    if c.writesOut > 0 then c.pending >= |c.inflight| && c.written + c.inflight <= c.accepted
    else c.written <= c.accepted
  }

  lemma {:induction false} ConcatSnoc(chunks: seq<Bytes>, last: Bytes)
    ensures Concat(chunks + [last]) == Concat(chunks) + last
    decreases |chunks|
  {
    if chunks == [] {
      assert chunks + [last] == [last];
      assert Concat([last]) == last + Concat([]);
    } else {
      ConcatSnoc(chunks[1..], last);
      assert (chunks + [last])[1..] == chunks[1..] + [last];
    }
  }

  lemma Regroup(a: Bytes, b: Bytes, c: Bytes, d: Bytes)
    ensures a + b + (c + d) == a + b + c + d
    ensures b == "" && c == "" ==> a + d + "" == a + b + c + d
  {
  }

  /** The queue is safe and no operation is doubled: kept also in the middle of a callback. */
  ghost predicate Safe(cfg: Config, c: Conn) {
    QueueSafe(cfg, c) && OneEach(c) && Counted(c)
  }

  lemma DoWriteSafe(cfg: Config, c: Conn, data: Bytes)
    requires Safe(cfg, c)
    ensures var c' := DoWrite(cfg, c, data);
            && Safe(cfg, c')
            && (c'.open ==> c.open && c'.writing && c'.accepted == c.accepted + data)
            && c'.reading == c.reading && c'.closing == c.closing && c'.buf == c.buf && c'.authed == c.authed
  {
    if c.open && c.pending + |data| <= cfg.maxPending {
      QueuedSafe(cfg, c, data);
      hide QueueSafe;
      QueueIsCounted(cfg, DoWrite(cfg, c, data));
    }
  }

  lemma QueuedSafe(cfg: Config, c: Conn, data: Bytes)
    requires QueueSafe(cfg, c) && c.open && c.pending + |data| <= cfg.maxPending
    ensures QueueSafe(cfg, DoWrite(cfg, c, data))
  {
    ConcatSnoc(c.queue, data);
    assert c.queue == [] ==> (c.queue + [data])[1..] == [] && (c.queue + [data])[0] == data && Concat(c.queue) == "";
    Regroup(c.written, Flight(c), Concat(c.queue), data);
    hide Concat;
  }

  lemma WriteDoneOpen(cfg: Config, c: Conn)
    requires QueueSafe(cfg, c) && c.open && c.writing
    ensures var c' := OnWritten(c);
            && QueueSafe(cfg, c')
            && c'.accepted == c.accepted && c'.written == c.written + c.inflight
            && c'.pending == c.pending - |c.inflight|
  {
    if c.queue != [] {
      assert c.written + c.inflight + (c.queue[0] + Concat(c.queue[1..])) == c.written + c.inflight + c.queue[0] + Concat(c.queue[1..]);
    } else {
      assert Concat(c.queue) == "";
      assert c.written + c.inflight + "" == c.written + c.inflight;
    }
  }

  lemma QueueIsCounted(cfg: Config, c: Conn)
    requires QueueSafe(cfg, c) && c.open && (c.writesOut > 0 <==> c.writing)
    ensures Counted(c)
  {
    assert c.written + Flight(c) == c.accepted[..|c.written| + |Flight(c)|];
    assert c.written + "" == c.written;
  }

  /** A completed write, before or after the socket was closed: the count goes down by exactly the
      bytes sent, so the branch that would clamp it at zero is never taken, and the bytes sent are
      the next ones accepted. */
  lemma WriteDoneExact(cfg: Config, c: Conn)
    requires Safe(cfg, c) && c.writesOut > 0
    ensures c.pending >= |c.inflight|
    ensures var c' := OnWritten(c);
            && Safe(cfg, c')
            && c'.accepted == c.accepted && c'.written == c.written + c.inflight
            && c'.pending == c.pending - |c.inflight|
            && c'.written <= c'.accepted
  {
    if c.open {
      WriteDoneOpen(cfg, c);
      hide QueueSafe;
      if c.queue != [] {
        QueueIsCounted(cfg, OnWritten(c));
      }
    }
  }

  // ---- progress ----------------------------------------------------------------------------

  /** At most one read and one write are outstanding, ever, and the flags tell which. */
  ghost predicate OneEach(c: Conn) {
    && c.readsOut == (if c.reading then 1 else 0)
    && 0 <= c.writesOut <= 1
    && (c.open ==> c.writesOut == if c.writing then 1 else 0)
  }

  /** Between callbacks, an open connection has a read or a write outstanding; one that is to
      be closed, or was, has no read, and while it is open a write; and the parser's buffer is within its limit and holds
      no complete value and no protocol error. */
  ghost predicate Live(cfg: Config, c: Conn) {
    && |c.buf| <= cfg.maxRequest && Decode(c.buf).More?
    && (c.closing ==> !c.reading)
    && (c.open ==> (c.reading || c.writing) && (c.closing ==> c.writing))
  }

  ghost predicate Sound(cfg: Config, w: World) {
    QueueSafe(cfg, w.conn) && OneEach(w.conn) && Counted(w.conn) && Live(cfg, w.conn)
  }

  /** Serving a command keeps the queue safe and cannot reopen the socket or unset `closing`. */
  lemma ServeCommandSafe(cfg: Config, w: World, cmd: Command, scene: Scene)
    requires Safe(cfg, w.conn)
    ensures var c' := ServeCommand(cfg, w, cmd, scene).world.conn;
            Safe(cfg, c') && c'.closing == w.conn.closing && (c'.open ==> w.conn.open)
  {
    hide RouteOf, Auth, NoticeWire, HandleSubscribe, HandleUnsubscribe, ServeOrdinary, Safe;
    var c' := ServeCommand(cfg, w, cmd, scene).world.conn;
    if w.conn.authed && RouteOf(cmd.name).ToSubscribe? {
      SubscribeSafe(cfg, w, cmd.args);
    } else if w.conn.authed && RouteOf(cmd.name).ToUnsubscribe? {
      UnsubscribeSafe(cfg, w, cmd.args, scene.order);
    } else {
      SameQueue(cfg, w.conn, c');
    }
  }

  lemma ServeSafe(cfg: Config, w: World, v: RespValue, scene: Scene)
    requires Safe(cfg, w.conn)
    ensures var c' := Serve(cfg, w, v, scene).world.conn;
            Safe(cfg, c') && c'.closing == w.conn.closing && (c'.open ==> w.conn.open)
  {
    hide ServeCommand, Safe, ParseCommand;
    match ParseCommand(v)
    case None => SameQueue(cfg, w.conn, w.conn.(buf := ""));
    case Some(cmd) => ServeCommandSafe(cfg, w, cmd, scene);
  }

  lemma SubscribeSafe(cfg: Config, w: World, args: seq<Bytes>)
    requires Safe(cfg, w.conn)
    ensures var c' := HandleSubscribe(cfg, w, args).conn;
            && Safe(cfg, c') && c'.closing == w.conn.closing && (c'.open ==> w.conn.open) && c'.buf == w.conn.buf
  {
    hide SubscribeEach, SetOf, NoticeWire, Safe, DoWrite;
    if !cfg.brokered || args == [] {
      DoWriteSafe(cfg, w.conn, NoticeWire(SubscribeArgs));
    } else {
      var c := w.conn.(subscribed := w.conn.subscribed + SetOf(args));
      assert Safe(cfg, c) by { SameQueue(cfg, w.conn, c); }
      DoWriteSafe(cfg, c, SubscribeEach(w.channels, cfg.id, args, "").1);
    }
  }

  lemma UnsubscribeSafe(cfg: Config, w: World, args: seq<Bytes>, order: set<Bytes> -> seq<Bytes>)
    requires Safe(cfg, w.conn)
    ensures var c' := HandleUnsubscribe(cfg, w, args, order).conn;
            && Safe(cfg, c') && c'.closing == w.conn.closing && (c'.open ==> w.conn.open) && c'.buf == w.conn.buf
  {
    hide UnsubscribeEach, LeftReplies, SubscribeReply, SetOf, Safe, DoWrite;
    if !cfg.brokered {
      DoReadSafe(cfg, w.conn);
    } else if args == [] {
      var left := Among(order(w.channels.Keys), Left(w.channels, cfg.id));
      var c := w.conn.(subscribed := w.conn.subscribed - SetOf(left));
      SameQueue(cfg, w.conn, c);
      DoWriteSafe(cfg, c, if left == [] then SubscribeReply("unsubscribe", "", 0) else LeftReplies(left));
    } else {
      var c := w.conn.(subscribed := w.conn.subscribed - SetOf(args));
      SameQueue(cfg, w.conn, c);
      DoWriteSafe(cfg, c, UnsubscribeEach(w.channels, cfg.id, args, "").1);
    }
  }

  lemma SameQueue(cfg: Config, c: Conn, c': Conn)
    requires Safe(cfg, c)
    requires c'.open == c.open && c'.writing == c.writing && c'.queue == c.queue && c'.inflight == c.inflight
    requires c'.pending == c.pending && c'.accepted == c.accepted && c'.written == c.written
    requires c'.reading == c.reading && c'.readsOut == c.readsOut && c'.writesOut == c.writesOut
    ensures Safe(cfg, c')
  {
  }

  lemma DoReadSafe(cfg: Config, c: Conn)
    requires Safe(cfg, c)
    ensures Safe(cfg, DoRead(c))
  {
  }

  lemma {:induction false} ServeAllSafe(cfg: Config, w: World, responses: Bytes, clock: nat -> Scene, i: nat)
    requires Safe(cfg, w.conn)
    ensures var r := ServeAll(cfg, w, responses, clock, i);
            && Safe(cfg, r.0.conn) && r.0.conn.closing == w.conn.closing && (r.0.conn.open ==> w.conn.open)
            && |r.0.conn.buf| <= |w.conn.buf| && Decode(r.0.conn.buf).More?
    decreases |w.conn.buf|
  {
    DecodeEmpty();
    hide Decode, Serve, Safe, What, ThrownWire;
    match Decode(w.conn.buf)
    case More =>
    case Fail(_) =>
      SameQueue(cfg, w.conn, w.conn.(buf := ""));
    case Done(v, size) =>
      var w' := Advance(w, size);
      SameQueue(cfg, w.conn, w'.conn);
      ServeSafe(cfg, w', v, clock(i));
      var r := Serve(cfg, w', v, clock(i));
      if !r.stopped {
        ServeAllSafe(cfg, r.world, responses + r.responses, clock, i + 1);
      }
  }

  lemma ReadDoneSound(cfg: Config, w: World, chunk: Bytes, clock: nat -> Scene)
    requires Sound(cfg, w) && w.conn.readsOut > 0
    ensures var w' := Handle(cfg, w, ReadDone(chunk, clock));
            Sound(cfg, w') && (w.conn.closing ==> w'.conn.closing) && (w'.conn.open ==> w.conn.open)
  {
    DecodeEmpty();
    var c := ReadCompleted(w.conn);
    assert Safe(cfg, c);
    if |c.buf| + |chunk| > cfg.maxRequest {
      var c' := c.(closing := true, buf := "");
      SameQueue(cfg, c, c');
      DoWriteSafe(cfg, c', NoticeWire(TooLarge));
      hide ServeAll, Decode, QueueSafe, Counted, DoWrite, NoticeWire;
    } else {
      var w' := w.(conn := c.(buf := c.buf + chunk));
      SameQueue(cfg, c, w'.conn);
      ServeAllSafe(cfg, w', "", clock, 0);
      var r := ServeAll(cfg, w', "", clock, 0);
      DoWriteSafe(cfg, r.0.conn, r.1);
      DoReadSafe(cfg, r.0.conn);
      hide ServeAll, Decode, QueueSafe, Counted, DoWrite, OneEach;
    }
  }

  lemma WriteDoneSound(cfg: Config, w: World)
    requires Sound(cfg, w) && w.conn.writesOut > 0
    ensures var w' := Handle(cfg, w, WriteDone);
            Sound(cfg, w') && (w.conn.closing ==> w'.conn.closing) && (w'.conn.open ==> w.conn.open)
  {
    WriteDoneExact(cfg, w.conn);
    hide Decode, QueueSafe, Counted, OneEach;
  }

  /** Every callback keeps the queue safe and the connection live. */
  lemma HandleSound(cfg: Config, w: World, e: Event)
    requires Sound(cfg, w) && Possible(w, e)
    ensures Sound(cfg, Handle(cfg, w, e))
    ensures w.conn.closing ==> Handle(cfg, w, e).conn.closing
    ensures Handle(cfg, w, e).conn.open ==> w.conn.open
  {
    match e
    case ReadDone(chunk, clock) =>
      ReadDoneSound(cfg, w, chunk, clock);
      hide Handle, Sound;
    case WriteDone =>
      WriteDoneSound(cfg, w);
      hide Handle, Sound;
    case Pushed(frame) =>
      DoWriteSafe(cfg, w.conn, frame);
      hide Decode, DoWrite, QueueSafe, Counted, OneEach;
    case _ =>
      hide Decode;
  }

  lemma StartedSound(cfg: Config, store: Store, file: Bytes, channels: Channels)
    ensures Sound(cfg, World(Started(cfg), store, file, channels))
  {
    DecodeEmpty();
    hide Decode;
  }

  /** In every state that events can lead to, the queue is safe and the connection live. */
  lemma {:induction false} ReachableSound(cfg: Config, w: World, events: seq<Event>)
    requires Sound(cfg, w) && PossibleAll(cfg, w, events)
    ensures Sound(cfg, HandleAll(cfg, w, events))
    ensures w.conn.closing ==> HandleAll(cfg, w, events).conn.closing
    ensures HandleAll(cfg, w, events).conn.open ==> w.conn.open
    decreases |events|
  {
    hide Sound, Handle;
    if events != [] {
      HandleSound(cfg, w, events[0]);
      ReachableSound(cfg, Handle(cfg, w, events[0]), events[1..]);
    }
  }

  /** Once a connection is to be closed, no read is outstanding in any later state, open or closed,
      so no read completes and no request is ever served again. */
  lemma ClosingNeverReads(cfg: Config, w: World, events: seq<Event>)
    requires Sound(cfg, w) && PossibleAll(cfg, w, events) && w.conn.closing
    ensures var w' := HandleAll(cfg, w, events);
            && !w'.conn.reading && (w'.conn.open ==> w'.conn.writing)
            && forall e :: Possible(w', e) ==> !e.ReadDone?
  {
    hide HandleAll, PossibleAll, QueueSafe, Counted, Decode;
    ReachableSound(cfg, w, events);
  }

  /** In every reachable state, whether or not the socket is still open, a completed write finds
      its bytes counted. */
  lemma NeverClamps(cfg: Config, w: World, events: seq<Event>)
    requires Sound(cfg, w) && PossibleAll(cfg, w, events)
    ensures var w' := HandleAll(cfg, w, events);
            Possible(w', WriteDone) ==>
              && w'.conn.pending >= |w'.conn.inflight|
              && Handle(cfg, w', WriteDone).conn.pending == w'.conn.pending - |w'.conn.inflight|
  {
    hide HandleAll, PossibleAll, QueueSafe, Decode;
    ReachableSound(cfg, w, events);
    if Possible(HandleAll(cfg, w, events), WriteDone) {
      WriteDoneExact(cfg, HandleAll(cfg, w, events).conn);
    }
  }

  function Completions(events: seq<Event>): nat {
    if events == [] then 0 else (if events[0].WriteDone? then 1 else 0) + Completions(events[1..])
  }

  function Pushes(events: seq<Event>): nat {
    if events == [] then 0 else (if events[0].Pushed? then 1 else 0) + Pushes(events[1..])
  }

  lemma ClosingStep(cfg: Config, w: World, e: Event)
    requires Sound(cfg, w) && w.conn.closing && Possible(w, e) && Handle(cfg, w, e).conn.open
    ensures var queue := Handle(cfg, w, e).conn.queue;
            |queue| + (if e.WriteDone? then 1 else 0) <= |w.conn.queue| + (if e.Pushed? then 1 else 0)
  {
    HandleSound(cfg, w, e);
    hide Decode, QueueSafe, Counted, HandleData;
  }

  /** And it closes: while it is open, every completed write takes one buffer from the queue, and
      only a pushed message adds one. So, whatever else happens, the socket is closed once more
      writes have completed than buffers were queued and messages pushed. */
  lemma {:induction false} ClosingDrains(cfg: Config, w: World, events: seq<Event>)
    requires Sound(cfg, w) && w.conn.closing && PossibleAll(cfg, w, events)
    ensures Completions(events) > |w.conn.queue| + Pushes(events) ==> !HandleAll(cfg, w, events).conn.open
    decreases |events|
  {
    hide Sound, Handle, Possible;
    if events != [] && HandleAll(cfg, w, events).conn.open {
      var w' := Handle(cfg, w, events[0]);
      HandleSound(cfg, w, events[0]);
      ReachableSound(cfg, w', events[1..]);
      ClosingStep(cfg, w, events[0]);
      ClosingDrains(cfg, w', events[1..]);
    }
  }
}
