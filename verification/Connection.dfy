/** A client connection as an event machine: what each completion callback does to the
    connection, the store, the append-only file and the broker. */
module Connection {
  import opened Bytes
  import opened Resp
  import opened Store
  import opened Commands
  import opened Aof
  import opened PubSub

  /** What a connection is given, and the text of the exception thrown on a value of the wrong
      type, which is not modelled. */
  datatype Config = Config(
    id: Id,
    password: Bytes,
    maxRequest: nat,
    maxPending: nat,
    logging: bool,
    brokered: bool,
    thrown: Bytes)

  /** What the surroundings do while one request is served: the clock and the sweeps, the order in
      which each hash table is walked, and the replies made from statistics and the broker. */
  datatype Scene = Scene(env: Env, order: set<Bytes> -> seq<Bytes>, external: Command -> RespValue)

  /** The last four fields are history: all payloads that `do_write` took, all bytes that
      completed writes sent, and the asynchronous reads and writes started but not completed.
      `inflight` counts only while `writing`. */
  datatype Conn = Conn(
    open: bool,
    reading: bool,
    writing: bool,
    closing: bool,
    authed: bool,
    buf: Bytes,
    queue: seq<Bytes>,
    inflight: Bytes,
    pending: nat,
    subscribed: set<Bytes>,
    accepted: Bytes,
    written: Bytes,
    readsOut: int,
    writesOut: int)

  datatype World = World(conn: Conn, store: Store, file: Bytes, channels: Channels)

  // ---- texts -------------------------------------------------------------------------------

  datatype Notice = TooLarge | NotACommand | NoAuth | AuthArgs | AuthUnset | AuthWrong | SubscribeArgs

  function NoticeText(notice: Notice): Bytes {
    match notice
    case TooLarge => "ERR max request size exceeded"
    case NotACommand => "ERR protocol error: " + "expected command array"
    case NoAuth => "NOAUTH Authentication required."
    case AuthArgs => "ERR wrong number of arguments " + "for 'AUTH' command"
    case AuthUnset => "ERR AUTH called without any " + "password configured"
    case AuthWrong => "ERR invalid password"
    case SubscribeArgs => "ERR SUBSCRIBE requires " + "at least one channel"
  }

  function NoticeWire(notice: Notice): Bytes {
    Wire(Error(NoticeText(notice)))
  }

  function ThrownWire(what: Bytes): Bytes {
    Wire(Error("ERR " + what))
  }

  /** The reply value of a command that did not throw. */
  function ReplyValue(scene: Scene, cmd: Command, out: Outcome): RespValue
    requires !out.Throw?
  {
    match out
    case Reply(value) => value
    case Failed(fault) => Error(FaultText(fault))
    case Members(members) => Array(Bulks(scene.order(members)))
    case Fields(fields) => Array(Bulks(Pairs(scene.order(fields.Keys), fields)))
    case External => scene.external(cmd)
  }

  function SubscribeReply(kind: Bytes, channel: Bytes, count: int): Bytes {
    Wire(Array([BulkString(kind), BulkString(channel), Integer(count)]))
  }

  // ---- socket ------------------------------------------------------------------------------

  function CloseSocket(c: Conn): Conn {
    c.(open := false)
  }

  /** Changes only the read side. */
  function DoRead(c: Conn): (r: Conn)
    ensures r == c.(reading := r.reading, readsOut := r.readsOut)
  {
    if c.reading || !c.open then c else c.(reading := true, readsOut := c.readsOut + 1)
  }

  function FlushQueue(c: Conn): (r: Conn)
    ensures r == c.(writing := r.writing, inflight := r.inflight, queue := r.queue, writesOut := r.writesOut)
  {
    if c.queue == [] || !c.open then c.(writing := false)
    else c.(writing := true, inflight := c.queue[0], queue := c.queue[1..], writesOut := c.writesOut + 1)
  }

  /** Changes only the write side, and may close the socket. */
  function DoWrite(cfg: Config, c: Conn, data: Bytes): (r: Conn)
    ensures r == c.(open := r.open, writing := r.writing, inflight := r.inflight, queue := r.queue,
                    pending := r.pending, accepted := r.accepted, writesOut := r.writesOut)
  {
    if !c.open then c
    else if c.pending + |data| > cfg.maxPending then CloseSocket(c)
    else
      var c' := c.(pending := c.pending + |data|, queue := c.queue + [data], accepted := c.accepted + data);
      if c'.writing then c' else FlushQueue(c')
  }

  // ---- one request -------------------------------------------------------------------------

  function Auth(cfg: Config, args: seq<Bytes>): (bool, Bytes) {
    if |args| != 1 then (false, NoticeWire(AuthArgs))
    else if cfg.password == "" then (false, NoticeWire(AuthUnset))
    else if args[0] != cfg.password then (false, NoticeWire(AuthWrong))
    else (true, Wire(SimpleString("OK")))
  }

  function SubscribeEach(channels: Channels, id: Id, wanted: seq<Bytes>, replies: Bytes): (Channels, Bytes)
    decreases |wanted|
  {
    if wanted == [] then (channels, replies)
    else
      var channels' := Subscribed(channels, wanted[0], id, Push(id, wanted[0]));
      SubscribeEach(channels', id, wanted[1..],
                    replies + SubscribeReply("subscribe", wanted[0], |channels'[wanted[0]]|))
  }

  function UnsubscribeEach(channels: Channels, id: Id, unwanted: seq<Bytes>, replies: Bytes): (Channels, Bytes)
    decreases |unwanted|
  {
    if unwanted == [] then (channels, replies)
    else
      var channels' := Unsubscribed(channels, unwanted[0], id);
      UnsubscribeEach(channels', id, unwanted[1..],
                      replies + SubscribeReply("unsubscribe", unwanted[0], |SubsOf(channels', unwanted[0])|))
  }

  function LeftReplies(left: seq<Bytes>): Bytes {
    if left == [] then "" else SubscribeReply("unsubscribe", left[0], 0) + LeftReplies(left[1..])
  }

  function HandleSubscribe(cfg: Config, w: World, args: seq<Bytes>): (r: World)
    ensures r == w.(conn := r.conn, channels := r.channels)
    ensures r.conn.buf == w.conn.buf && r.conn.authed == w.conn.authed && r.conn.closing == w.conn.closing
  {
    if !cfg.brokered || args == [] then w.(conn := DoWrite(cfg, w.conn, NoticeWire(SubscribeArgs)))
    else
      var (channels, replies) := SubscribeEach(w.channels, cfg.id, args, "");
      var c := w.conn.(subscribed := w.conn.subscribed + SetOf(args));
      w.(channels := channels, conn := DoWrite(cfg, c, replies))
  }

  function HandleUnsubscribe(cfg: Config, w: World, args: seq<Bytes>, order: set<Bytes> -> seq<Bytes>): (r: World)
    ensures r == w.(conn := r.conn, channels := r.channels)
    ensures r.conn.buf == w.conn.buf && r.conn.authed == w.conn.authed && r.conn.closing == w.conn.closing
  {
    if !cfg.brokered then w.(conn := DoRead(w.conn))
    else if args == [] then
      var left := Among(order(w.channels.Keys), Left(w.channels, cfg.id));
      var replies := if left == [] then SubscribeReply("unsubscribe", "", 0) else LeftReplies(left);
      var c := w.conn.(subscribed := w.conn.subscribed - SetOf(left));
      w.(channels := UnsubscribedAll(w.channels, cfg.id), conn := DoWrite(cfg, c, replies))
    else
      var (channels, replies) := UnsubscribeEach(w.channels, cfg.id, args, "");
      var c := w.conn.(subscribed := w.conn.subscribed - SetOf(args));
      w.(channels := channels, conn := DoWrite(cfg, c, replies))
  }

  /** What serving one value did: the new world, the reply bytes to accumulate, and whether
      the parser was reset and the loop left. */
  datatype Served = Served(world: World, responses: Bytes, stopped: bool)

  function ServeOrdinary(cfg: Config, w: World, cmd: Command, scene: Scene): (r: Served)
    ensures r.world.conn == w.conn.(buf := if r.stopped then "" else w.conn.buf)
    ensures r.world.channels == w.channels
  {
    var file := if cfg.logging && IsWrite(cmd.name) then w.file + Frame(cmd) else w.file;
    var r := Exec(cmd, w.store, scene.env);
    var w' := w.(store := r.store, file := file);
    if r.outcome.Throw? then Served(w'.(conn := w.conn.(buf := "")), ThrownWire(cfg.thrown), true)
    else Served(w', Wire(ReplyValue(scene, cmd, r.outcome)), false)
  }

  /** The commands that the connection handles itself. */
  datatype Route = ToAuth | ToSubscribe | ToUnsubscribe | ToDispatcher

  function RouteOf(name: Bytes): Route {
    if name == "AUTH" then ToAuth
    else if name == "SUBSCRIBE" then ToSubscribe
    else if name == "UNSUBSCRIBE" then ToUnsubscribe
    else ToDispatcher
  }

  function ServeCommand(cfg: Config, w: World, cmd: Command, scene: Scene): (r: Served)
    ensures r.world.conn.buf == if r.stopped then "" else w.conn.buf
  {
    var route := RouteOf(cmd.name);
    if route.ToAuth? then
      var (granted, reply) := Auth(cfg, cmd.args);
      Served(w.(conn := w.conn.(authed := w.conn.authed || granted)), reply, false)
    else if !w.conn.authed then Served(w, NoticeWire(NoAuth), false)
    else if route.ToSubscribe? then Served(HandleSubscribe(cfg, w, cmd.args), "", false)
    else if route.ToUnsubscribe? then Served(HandleUnsubscribe(cfg, w, cmd.args, scene.order), "", false)
    else ServeOrdinary(cfg, w, cmd, scene)
  }

  function Serve(cfg: Config, w: World, v: RespValue, scene: Scene): (r: Served)
    ensures r.world.conn.buf == if r.stopped then "" else w.conn.buf
  {
    match ParseCommand(v)
    case None => Served(w.(conn := w.conn.(buf := "")), NoticeWire(NotACommand), true)
    case Some(cmd) => ServeCommand(cfg, w, cmd, scene)
  }

  /** The parser's buffer, when a value has been taken from its front. */
  function Advance(w: World, size: nat): World
    requires size <= |w.conn.buf|
  {
    w.(conn := w.conn.(buf := w.conn.buf[size..]))
  }

  /** The loop of `handle_data`; the `i`-th value is served in the scene `clock(i)`. */
  function ServeAll(cfg: Config, w: World, responses: Bytes, clock: nat -> Scene, i: nat): (World, Bytes)
    decreases |w.conn.buf|
  {
    match Decode(w.conn.buf)
    case More => (w, responses)
    case Fail(violation) => (w.(conn := w.conn.(buf := "")), responses + ThrownWire(What(violation)))
    case Done(v, size) =>
      var r := Serve(cfg, Advance(w, size), v, clock(i));
      if r.stopped then (r.world, responses + r.responses)
      else ServeAll(cfg, r.world, responses + r.responses, clock, i + 1)
  }

  lemma {:induction false} ServeAllStep(cfg: Config, w: World, responses: Bytes, clock: nat -> Scene, i: nat)
    ensures match Decode(w.conn.buf)
            case More => ServeAll(cfg, w, responses, clock, i) == (w, responses)
            case Fail(violation) =>
              ServeAll(cfg, w, responses, clock, i)
              == (w.(conn := w.conn.(buf := "")), responses + ThrownWire(What(violation)))
            case Done(v, size) =>
              var r := Serve(cfg, Advance(w, size), v, clock(i));
              ServeAll(cfg, w, responses, clock, i)
              == if r.stopped then (r.world, responses + r.responses)
                 else ServeAll(cfg, r.world, responses + r.responses, clock, i + 1)
  {
    hide Decode, Serve, What, ThrownWire;
  }

  function HandleData(cfg: Config, w: World, chunk: Bytes, clock: nat -> Scene): World {
    if |w.conn.buf| + |chunk| > cfg.maxRequest then
      w.(conn := DoWrite(cfg, w.conn.(closing := true, buf := ""), NoticeWire(TooLarge)))
    else
      var (w', responses) := ServeAll(cfg, w.(conn := w.conn.(buf := w.conn.buf + chunk)), "", clock, 0);
      w'.(conn := if responses != "" then DoWrite(cfg, w'.conn, responses) else DoRead(w'.conn))
  }

  // ---- callbacks ---------------------------------------------------------------------------

  datatype Event =
    | ReadDone(chunk: Bytes, clock: nat -> Scene)
    | ReadFailed
    | WriteDone
    | WriteFailed
    | Pushed(frame: Bytes)
    | IdleExpired

  /** The write in flight is over; the count is clamped at zero. */
  function Accounted(c: Conn): Conn {
    var bytes := |c.inflight|;
    c.(pending := if c.pending >= bytes then c.pending - bytes else 0,
       written := c.written + c.inflight, writesOut := c.writesOut - 1)
  }

  /** The next write, or the close that was waiting for the last one, or a read. */
  function AfterWrite(c: Conn): Conn {
    if c.queue != [] then FlushQueue(c)
    else
      var c' := c.(writing := false);
      if c'.closing then CloseSocket(c') else DoRead(c')
  }

  function OnWritten(c: Conn): Conn {
    AfterWrite(Accounted(c))
  }

  function ReadCompleted(c: Conn): Conn {
    c.(reading := false, readsOut := c.readsOut - 1)
  }

  function Handle(cfg: Config, w: World, e: Event): World {
    match e
    case ReadDone(chunk, clock) => HandleData(cfg, w.(conn := ReadCompleted(w.conn)), chunk, clock)
    case ReadFailed => w.(conn := CloseSocket(ReadCompleted(w.conn)))
    case WriteDone => w.(conn := OnWritten(w.conn))
    case WriteFailed => w.(conn := CloseSocket(w.conn.(writesOut := w.conn.writesOut - 1)))
    case Pushed(frame) => w.(conn := DoWrite(cfg, w.conn, frame))
    case IdleExpired => w.(conn := CloseSocket(w.conn))
  }

  /** Only an operation that was started completes. */
  predicate Possible(w: World, e: Event) {
    match e
    case ReadDone(_, _) => w.conn.readsOut > 0
    case ReadFailed => w.conn.readsOut > 0
    case WriteDone => w.conn.writesOut > 0
    case WriteFailed => w.conn.writesOut > 0
    case _ => true
  }

  /** A new connection after `start`. */
  function Started(cfg: Config): Conn {
    Conn(true, true, false, false, cfg.password == "", "", [], "", 0, {}, "", "", 1, 0)
  }

  function HandleAll(cfg: Config, w: World, events: seq<Event>): World
    decreases |events|
  {
    if events == [] then w else HandleAll(cfg, Handle(cfg, w, events[0]), events[1..])
  }

  ghost predicate PossibleAll(cfg: Config, w: World, events: seq<Event>)
    decreases |events|
  {
    events == [] || (Possible(w, events[0]) && PossibleAll(cfg, Handle(cfg, w, events[0]), events[1..]))
  }
}
