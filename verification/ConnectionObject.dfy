/** The connection object: the fields its callbacks update in place, each callback proved to do
    what `Connection.Handle` says. */
module ConnectionObject {
  import opened Bytes
  import opened Resp
  import opened Parser
  import opened Store
  import opened Commands
  import opened Handlers
  import opened Aof
  import opened PubSub
  import Spec = Connection

  /** The world with the bytes of a feed appended to the parser's buffer. */
  ghost function WithFeed(w: Spec.World, feed: Bytes): Spec.World {
    w.(conn := w.conn.(buf := w.conn.buf + feed))
  }

  class Connection {
    const cfg: Spec.Config
    const parser: RespParser
    const store: KvStore
    const aof: AofPersistence?
    const broker: PubSubBroker?

    var open: bool
    var reading: bool
    var writing: bool
    var closing: bool
    var authed: bool
    var queue: seq<Bytes>
    var inflight: Bytes
    var pending: nat
    var subscribed: set<Bytes>
    ghost var accepted: Bytes
    ghost var written: Bytes
    ghost var readsOut: int
    ghost var writesOut: int

    ghost predicate Wired() {
      (aof != null <==> cfg.logging) && (broker != null <==> cfg.brokered)
    }

    ghost function Parts(): set<object> {
      {this, parser, store} + (if aof == null then {} else {aof}) + (if broker == null then {} else {broker})
    }

    ghost function State(): Spec.Conn
      reads this, parser
    {
      Spec.Conn(open, reading, writing, closing, authed, parser.buf, queue, inflight, pending, subscribed,
                accepted, written, readsOut, writesOut)
    }

    /** Everything the callbacks can see and change. */
    ghost function World(): Spec.World
      reads Parts()
    {
      Spec.World(State(), store.data, if aof == null then "" else aof.file,
                 if broker == null then map[] else broker.channels)
    }

    constructor (cfg: Spec.Config, store: KvStore, aof: AofPersistence?, broker: PubSubBroker?)
      requires (aof != null <==> cfg.logging) && (broker != null <==> cfg.brokered)
      ensures this.cfg == cfg && this.store == store && this.aof == aof && this.broker == broker
      ensures Wired() && fresh(parser) && State() == Spec.Started(cfg)
    {
      this.cfg, this.store, this.aof, this.broker := cfg, store, aof, broker;
      parser := new RespParser();
      open, reading, writing, closing, authed := true, false, false, false, cfg.password == "";
      queue, inflight, pending, subscribed := [], "", 0, {};
      accepted, written, readsOut, writesOut := "", "", 0, 0;
      new;
      DoRead();
    }

    // ---- socket ----------------------------------------------------------------------------

    method CloseSocket()
      modifies this`open
      ensures State() == Spec.CloseSocket(old(State()))
    {
      open := false;
    }

    method DoRead()
      modifies this`reading, this`readsOut
      ensures State() == Spec.DoRead(old(State()))
    {
      if reading || !open {
        return;
      }
      reading := true;
      readsOut := readsOut + 1;
    }

    method FlushWriteQueue()
      modifies this`writing, this`inflight, this`queue, this`writesOut
      ensures State() == Spec.FlushQueue(old(State()))
    {
      if queue == [] || !open {
        writing := false;
        return;
      }
      writing := true;
      inflight := queue[0];
      queue := queue[1..];
      writesOut := writesOut + 1;
    }

    method DoWrite(data: Bytes)
      modifies this
      ensures State() == Spec.DoWrite(cfg, old(State()), data)
    {
      if !open {
        return;
      }
      if pending + |data| > cfg.maxPending {
        CloseSocket();
        return;
      }
      pending := pending + |data|;
      queue := queue + [data];
      accepted := accepted + data;
      if writing {
        return;
      }
      FlushWriteQueue();
    }

    // ---- one request -----------------------------------------------------------------------

    method HandleAuth(args: seq<Bytes>) returns (reply: Bytes)
      modifies this`authed
      ensures var (granted, text) := Spec.Auth(cfg, args);
              reply == text && authed == (old(authed) || granted)
    {
      if |args| != 1 {
        return Spec.NoticeWire(Spec.AuthArgs);
      }
      if cfg.password == "" {
        return Spec.NoticeWire(Spec.AuthUnset);
      }
      if args[0] != cfg.password {
        return Spec.NoticeWire(Spec.AuthWrong);
      }
      authed := true;
      return Wire(SimpleString("OK"));
    }

    method HandleSubscribe(args: seq<Bytes>)
      requires Wired()
      modifies Parts()
      ensures World() == Spec.HandleSubscribe(cfg, old(World()), args)
    {
      hide Spec.SubscribeReply, Spec.DoWrite, Subscribed, Spec.NoticeWire;
      if broker == null || args == [] {
        DoWrite(Spec.NoticeWire(Spec.SubscribeArgs));
        return;
      }
      var replies := "";
      for i := 0 to |args|
        invariant Spec.SubscribeEach(broker.channels, cfg.id, args[i..], replies)
                  == Spec.SubscribeEach(old(broker.channels), cfg.id, args, "")
        invariant subscribed == old(subscribed) + SetOf(args[..i])
        invariant World() == old(World()).(channels := broker.channels, conn := old(State()).(subscribed := subscribed))
      {
        assert args[i..][0] == args[i] && args[i..][1..] == args[i + 1..];
        SetOfSnoc(args, i);
        var count := broker.Subscribe(args[i], cfg.id, Push(cfg.id, args[i]));
        subscribed := subscribed + {args[i]};
        replies := replies + Spec.SubscribeReply("subscribe", args[i], count);
      }
      assert args[..|args|] == args;
      DoWrite(replies);
    }

    method HandleUnsubscribe(args: seq<Bytes>, order: set<Bytes> -> seq<Bytes>)
      requires Wired() && ListsAll(order)
      modifies Parts()
      ensures World() == Spec.HandleUnsubscribe(cfg, old(World()), args, order)
    {
      hide Spec.SubscribeReply, Spec.DoWrite, Spec.DoRead, Unsubscribed;
      if broker == null {
        DoRead();
        return;
      }
      if args == [] {
        LeaveAll(order);
        return;
      }
      var replies := "";
      for i := 0 to |args|
        invariant Spec.UnsubscribeEach(broker.channels, cfg.id, args[i..], replies)
                  == Spec.UnsubscribeEach(old(broker.channels), cfg.id, args, "")
        invariant subscribed == old(subscribed) - SetOf(args[..i])
        invariant World() == old(World()).(channels := broker.channels, conn := old(State()).(subscribed := subscribed))
      {
        assert args[i..][0] == args[i] && args[i..][1..] == args[i + 1..];
        SetOfSnoc(args, i);
        var count := broker.Unsubscribe(args[i], cfg.id);
        subscribed := subscribed - {args[i]};
        replies := replies + Spec.SubscribeReply("unsubscribe", args[i], count);
      }
      assert args[..|args|] == args;
      DoWrite(replies);
    }

    method LeaveAll(order: set<Bytes> -> seq<Bytes>)
      requires Wired() && broker != null && ListsAll(order)
      modifies this, broker
      ensures World() == Spec.HandleUnsubscribe(cfg, old(World()), [], order)
    {
      assert Listing(order(broker.channels.Keys), broker.channels.Keys);
      hide Spec.SubscribeReply, Spec.LeftReplies, Spec.DoWrite, SetOf, UnsubscribedAll, Among, Left, ListsAll, Listing;
      var left := broker.UnsubscribeAll(cfg.id, order(broker.channels.Keys));
      var replies := Forget(left);
      if left == [] {
        replies := Spec.SubscribeReply("unsubscribe", "", 0);
      }
      DoWrite(replies);
    }

    /** The loop over the channels left. */
    method Forget(left: seq<Bytes>) returns (replies: Bytes)
      modifies this`subscribed
      ensures replies == Spec.LeftReplies(left) && subscribed == old(subscribed) - SetOf(left)
    {
      hide Spec.SubscribeReply;
      replies := "";
      assert left[0..] == left && "" + Spec.LeftReplies(left) == Spec.LeftReplies(left);
      for i := 0 to |left|
        invariant replies + Spec.LeftReplies(left[i..]) == Spec.LeftReplies(left)
        invariant subscribed == old(subscribed) - SetOf(left[..i])
      {
        assert left[i..][0] == left[i] && left[i..][1..] == left[i + 1..];
        SetOfSnoc(left, i);
        subscribed := subscribed - {left[i]};
        var reply := Spec.SubscribeReply("unsubscribe", left[i], 0);
        assert replies + (reply + Spec.LeftReplies(left[i + 1..])) == replies + reply + Spec.LeftReplies(left[i + 1..]);
        replies := replies + reply;
      }
      assert left[..|left|] == left && replies + "" == replies;
    }

    /** The body of the loop for a command that goes to the dispatcher. */
    method ServeOrdinary(cmd: Command, scene: Spec.Scene) returns (responses: Bytes, stopped: bool)
      requires Wired() && ListsAll(scene.order)
      modifies Parts()
      ensures Spec.Served(World(), responses, stopped) == Spec.ServeOrdinary(cfg, old(World()), cmd, scene)
    {
      hide Exec, Frame, Spec.ReplyValue, Spec.ThrownWire, IsWrite;
      if aof != null && IsWrite(cmd.name) {
        aof.Log(cmd);
      }
      var outcome := Dispatch(cmd, store, scene.env);
      if outcome.Throw? {
        parser.Reset();
        return Spec.ThrownWire(cfg.thrown), true;
      }
      var reply := ReplyTo(scene, cmd, outcome);
      return Wire(reply), false;
    }

    /** The array replies walk a hash table, in the order of the table. */
    method ReplyTo(scene: Spec.Scene, cmd: Command, outcome: Outcome) returns (reply: RespValue)
      requires ListsAll(scene.order) && !outcome.Throw?
      ensures reply == Spec.ReplyValue(scene, cmd, outcome)
    {
      match outcome
      case Reply(value) => reply := value;
      case Failed(fault) => reply := Error(FaultText(fault));
      case Members(members) =>
        var items := ListMembers(scene.order(members));
        reply := Array(items);
      case Fields(fields) =>
        assert Listing(scene.order(fields.Keys), fields.Keys);
        var items := ListFields(scene.order(fields.Keys), fields);
        reply := Array(items);
      case External => reply := scene.external(cmd);
    }

    method ServeCommand(cmd: Command, scene: Spec.Scene) returns (responses: Bytes, stopped: bool)
      requires Wired() && ListsAll(scene.order)
      modifies Parts()
      ensures Spec.Served(World(), responses, stopped) == Spec.ServeCommand(cfg, old(World()), cmd, scene)
    {
      hide Spec.HandleSubscribe, Spec.HandleUnsubscribe, Spec.ServeOrdinary, Spec.NoticeWire, Spec.Auth, Spec.RouteOf;
      var route := Spec.RouteOf(cmd.name);
      if route.ToAuth? {
        var reply := HandleAuth(cmd.args);
        return reply, false;
      }
      if !authed {
        return Spec.NoticeWire(Spec.NoAuth), false;
      }
      if route.ToSubscribe? {
        HandleSubscribe(cmd.args);
        return "", false;
      }
      if route.ToUnsubscribe? {
        HandleUnsubscribe(cmd.args, scene.order);
        return "", false;
      }
      responses, stopped := ServeOrdinary(cmd, scene);
    }

    method ServeOne(v: RespValue, scene: Spec.Scene) returns (responses: Bytes, stopped: bool)
      requires Wired() && ListsAll(scene.order)
      modifies Parts()
      ensures Spec.Served(World(), responses, stopped) == Spec.Serve(cfg, old(World()), v, scene)
    {
      hide Spec.ServeCommand, Spec.NoticeWire, ParseCommand;
      var parsed := ParseCommandValue(v);
      if parsed.None? {
        parser.Reset();
        return Spec.NoticeWire(Spec.NotACommand), true;
      }
      responses, stopped := ServeCommand(parsed.value, scene);
    }

    // ---- a read ------------------------------------------------------------------------------

    /** One turn of the loop over the parser: read a value, if there is one, and serve it. */
    method ServeNext(feed: Bytes, scene: Spec.Scene) returns (more: Bytes, again: bool)
      requires Wired() && ListsAll(scene.order)
      modifies Parts()
      ensures var w := WithFeed(old(World()), feed);
              match Decode(w.conn.buf)
              case More => World() == w && more == "" && !again
              case Fail(violation) =>
                World() == w.(conn := w.conn.(buf := "")) && more == Spec.ThrownWire(What(violation)) && !again
              case Done(v, size) =>
                Spec.Served(World(), more, !again) == Spec.Serve(cfg, Spec.Advance(w, size), v, scene)
    {
      hide Decode, Spec.Serve, What, Spec.ThrownWire;
      var fed := parser.Feed(feed);
      match fed
      case Nothing =>
        return "", false;
      case Thrown(violation) =>
        parser.Reset();
        return Spec.ThrownWire(What(violation)), false;
      case Value(v) =>
        var stopped;
        more, stopped := ServeOne(v, scene);
        again := !stopped;
    }

    /** The loop over the parser: feed the chunk, then drain. */
    method ServeChunk(chunk: Bytes, clock: nat -> Spec.Scene) returns (responses: Bytes)
      requires Wired() && forall i: nat :: ListsAll(clock(i).order)
      modifies Parts()
      ensures (World(), responses) == Spec.ServeAll(cfg, WithFeed(old(World()), chunk), "", clock, 0)
    {
      hide Decode, Spec.Serve, Spec.ServeAll, What, Spec.ThrownWire;
      responses := "";
      var feed := chunk;
      var i := 0;
      var again := true;
      ghost var w := WithFeed(World(), chunk);
      while again
        invariant again ==> w == WithFeed(World(), feed)
        invariant again ==> Spec.ServeAll(cfg, w, responses, clock, i) == Spec.ServeAll(cfg, WithFeed(old(World()), chunk), "", clock, 0)
        invariant !again ==> (World(), responses) == Spec.ServeAll(cfg, WithFeed(old(World()), chunk), "", clock, 0)
        decreases again, |w.conn.buf|
      {
        Spec.ServeAllStep(cfg, w, responses, clock, i);
        var more;
        more, again := ServeNext(feed, clock(i));
        assert responses + "" == responses;
        responses := responses + more;
        feed := "";
        i := i + 1;
        assert parser.buf + "" == parser.buf;
        w := World();
      }
    }

    method HandleData(chunk: Bytes, clock: nat -> Spec.Scene)
      requires Wired() && forall i: nat :: ListsAll(clock(i).order)
      modifies Parts()
      ensures World() == Spec.HandleData(cfg, old(World()), chunk, clock)
    {
      hide Spec.ServeAll, Spec.NoticeWire, Spec.DoWrite, Spec.DoRead;
      var buffered := parser.BufferedSize();
      if buffered + |chunk| > cfg.maxRequest {
        closing := true;
        parser.Reset();
        DoWrite(Spec.NoticeWire(Spec.TooLarge));
        return;
      }
      var responses := ServeChunk(chunk, clock);
      if responses != "" {
        DoWrite(responses);
      } else {
        DoRead();
      }
    }

    // ---- callbacks -----------------------------------------------------------------------------

    method OnReadDone(chunk: Bytes, clock: nat -> Spec.Scene)
      requires Wired() && forall i: nat :: ListsAll(clock(i).order)
      modifies Parts()
      ensures World() == Spec.Handle(cfg, old(World()), Spec.ReadDone(chunk, clock))
    {
      hide Spec.HandleData;
      reading := false;
      readsOut := readsOut - 1;
      HandleData(chunk, clock);
    }

    method OnReadFailed()
      modifies this
      ensures World() == Spec.Handle(cfg, old(World()), Spec.ReadFailed)
    {
      reading := false;
      readsOut := readsOut - 1;
      CloseSocket();
    }

    method Account()
      modifies this`pending, this`written, this`writesOut
      ensures State() == Spec.Accounted(old(State()))
    {
      var bytes := |inflight|;
      writesOut := writesOut - 1;
      written := written + inflight;
      if pending >= bytes {
        pending := pending - bytes;
      } else {
        pending := 0;
      }
    }

    method AfterWrite()
      modifies this
      ensures State() == Spec.AfterWrite(old(State()))
    {
      if queue != [] {
        FlushWriteQueue();
        return;
      }
      writing := false;
      if closing {
        CloseSocket();
        return;
      }
      DoRead();
    }

    method OnWriteDone()
      modifies this
      ensures World() == Spec.Handle(cfg, old(World()), Spec.WriteDone)
    {
      hide Spec.Accounted, Spec.AfterWrite;
      Account();
      AfterWrite();
    }

    method OnWriteFailed()
      modifies this
      ensures World() == Spec.Handle(cfg, old(World()), Spec.WriteFailed)
    {
      writesOut := writesOut - 1;
      CloseSocket();
    }

    method OnPushed(frame: Bytes)
      modifies this
      ensures World() == Spec.Handle(cfg, old(World()), Spec.Pushed(frame))
    {
      DoWrite(frame);
    }

    method OnIdleExpired()
      modifies this
      ensures World() == Spec.Handle(cfg, old(World()), Spec.IdleExpired)
    {
      if !open {
        return;
      }
      CloseSocket();
    }
  }
}
