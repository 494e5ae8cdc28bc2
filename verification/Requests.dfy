/** What one request does, from the command that the client sends: its reply, and what it changes. */
module Requests {
  import opened Bytes
  import opened Resp
  import opened Grammar
  import opened Commands
  import opened Aof
  import opened PubSub
  import opened Connection
  import opened Collections
  import opened Subscriptions
  import opened Framing

  /** The reply that an outcome calls for: the value itself; the text of the fault or of the
      exception; the whole collection; or what the statistics and the broker say. */
  ghost predicate Tells(cfg: Config, scene: Scene, cmd: Command, out: Outcome, reply: RespValue) {
    match out
    case Reply(value) => reply == value
    case Failed(fault) => reply == Error(FaultText(fault))
    case Throw => reply == Error("ERR " + cfg.thrown)
    case Members(members) => ListsAll(scene.order) ==> ListsMembers(reply, members)
    case Fields(fields) => ListsAll(scene.order) ==> ListsFields(reply, fields)
    case External => reply == scene.external(cmd)
  }

  lemma ReplyTells(cfg: Config, scene: Scene, cmd: Command, out: Outcome)
    requires !out.Throw?
    ensures Tells(cfg, scene, cmd, out, ReplyValue(scene, cmd, out))
  {
    hide ListsMembers, ListsFields, Listing, FaultText, Pairs;
    if out.Members? && ListsAll(scene.order) {
      MembersListed(scene.order(out.members), out.members);
    } else if out.Fields? && ListsAll(scene.order) {
      FieldsListed(scene.order(out.fields.Keys), out.fields);
    }
  }

  /** The texts that clients see. */
  lemma FaultTexts(name: Bytes)
    ensures FaultText(UnknownCommand(name)) == "ERR unknown command '" + name + "'"
    ensures FaultText(WrongArgs(name)) == "ERR wrong number of arguments for '" + name + "' command"
    ensures FaultText(SyntaxError) == "ERR syntax error"
    ensures FaultText(BadExpireTime) == "ERR invalid expire time " + "in 'set' command"
    ensures FaultText(NxWithXx) == "ERR XX and NX options at the " + "same time are not compatible"
    ensures FaultText(NotAnInteger) == "ERR value is not an integer " + "or out of range"
    ensures FaultText(WouldOverflow) == "ERR increment or decrement " + "would overflow"
    ensures FaultText(WrongType) == "WRONGTYPE Operation against a " + "key holding the wrong kind of value"
  {
  }

  lemma ViolationTexts(tag: char, line: Bytes)
    ensures What(UnknownType(tag)) == "RESP: unknown type byte '" + [tag] + "'"
    ensures What(InvalidInteger(line)) == "RESP: invalid integer '" + line + "'"
    ensures What(InvalidBulkLength(line)) == "RESP: invalid bulk string length '" + line + "'"
    ensures What(NegativeBulkLength) == "RESP: negative bulk string length"
    ensures What(InvalidArrayCount(line)) == "RESP: invalid array count '" + line + "'"
    ensures What(NegativeArrayCount) == "RESP: negative array count"
  {
  }

  /** A command for the dispatcher is logged when it is a write, run in the store, and answered with
      the reply that its outcome calls for. Only an exception ends the loop. */
  lemma DispatcherLaw(cfg: Config, w: World, v: RespValue, cmd: Command, scene: Scene) returns (reply: RespValue)
    requires ParseCommand(v) == Some(cmd) && w.conn.authed
    requires cmd.name != "AUTH" && cmd.name != "SUBSCRIBE" && cmd.name != "UNSUBSCRIBE"
    ensures Tells(cfg, scene, cmd, Exec(cmd, w.store, scene.env).outcome, reply)
    ensures var x := Exec(cmd, w.store, scene.env);
            var r := Serve(cfg, w, v, scene);
            && r.responses == Wire(reply) && r.stopped == x.outcome.Throw?
            && r.world.store == x.store && r.world.channels == w.channels
            && r.world.file == w.file + (if cfg.logging && IsWrite(cmd.name) then Frame(cmd) else "")
            && r.world.conn == w.conn.(buf := if x.outcome.Throw? then "" else w.conn.buf)
  {
    hide Exec, Wire, Tells, IsWrite, Frame, ParseCommand, ReplyValue;
    var out := Exec(cmd, w.store, scene.env).outcome;
    assert w.file + "" == w.file;
    if out.Throw? {
      reply := Error("ERR " + cfg.thrown);
      ThrowTells(cfg, scene, cmd);
    } else {
      reply := ReplyValue(scene, cmd, out);
      ReplyTells(cfg, scene, cmd, out);
    }
  }

  lemma ThrowTells(cfg: Config, scene: Scene, cmd: Command)
    ensures Tells(cfg, scene, cmd, Throw, Error("ERR " + cfg.thrown))
  {
  }

  /** AUTH is answered before anything else is looked at, and unlocks exactly with the password. */
  lemma AuthLaw(cfg: Config, w: World, v: RespValue, args: seq<Bytes>, scene: Scene)
    requires ParseCommand(v) == Some(Command("AUTH", args))
    ensures var r := Serve(cfg, w, v, scene);
            var granted := cfg.password != "" && args == [cfg.password];
            && r.world == w.(conn := w.conn.(authed := w.conn.authed || granted)) && !r.stopped
            && r.responses == Wire(if granted then SimpleString("OK")
                                   else if |args| != 1 then Error("ERR wrong number of arguments " + "for 'AUTH' command")
                                   else if cfg.password == "" then Error("ERR AUTH called without any " + "password configured")
                                   else Error("ERR invalid password"))
  {
    hide Wire, ParseCommand;
  }

  /** Before authentication any other command is refused, and changes nothing. */
  lemma LockedLaw(cfg: Config, w: World, v: RespValue, cmd: Command, scene: Scene)
    requires ParseCommand(v) == Some(cmd) && cmd.name != "AUTH" && !w.conn.authed
    ensures Serve(cfg, w, v, scene) == Served(w, Wire(Error("NOAUTH Authentication required.")), false)
  {
    hide Wire, ParseCommand;
  }

  /** A value that is not a command is refused, and the loop ends. */
  lemma NotACommandLaw(cfg: Config, w: World, v: RespValue, scene: Scene)
    requires ParseCommand(v) == None
    ensures var reply := Error("ERR protocol error: " + "expected command array");
            Serve(cfg, w, v, scene) == Served(w.(conn := w.conn.(buf := "")), Wire(reply), true)
  {
    hide Wire, ParseCommand;
  }

  /** SUBSCRIBE joins the channels it names, and is answered with one triple for each. */
  lemma SubscribeLaw(cfg: Config, w: World, v: RespValue, args: seq<Bytes>, scene: Scene, h: Hub)
    requires ParseCommand(v) == Some(Command("SUBSCRIBE", args)) && w.conn.authed && cfg.brokered && args != []
    requires Shows(cfg, h, w)
    ensures var r := Serve(cfg, w, v, scene);
            && Shows(cfg, Act(h, Join(cfg.id, args)), r.world)
            && r.world.store == w.store && r.world.file == w.file && !r.stopped
            && Answered(w, r, SubscribeValues(w.channels, cfg.id, args))
  {
    hide Wire, ParseCommand, HandleSubscribe, Answered, Shows, SubscribeValues, Act;
    SubscribeJoins(cfg, w, h, args);
    SubscribeAnswered(cfg, w, args);
  }

  /** Without a broker or a channel SUBSCRIBE is refused, and joins nothing. */
  lemma SubscribeRefused(cfg: Config, w: World, v: RespValue, args: seq<Bytes>, scene: Scene)
    requires ParseCommand(v) == Some(Command("SUBSCRIBE", args)) && w.conn.authed && (!cfg.brokered || args == [])
    ensures var r := Serve(cfg, w, v, scene);
            && r.world == w.(conn := r.world.conn) && r.world.conn.subscribed == w.conn.subscribed && !r.stopped
            && Answered(w, r, [Error("ERR SUBSCRIBE requires " + "at least one channel")])
  {
    hide Wire, ParseCommand, Answered, SubscribeValues, DoWrite;
    SubscribeAnswered(cfg, w, args);
    WriteKeepsSubscribed(cfg, w.conn, NoticeWire(SubscribeArgs));
  }

  /** UNSUBSCRIBE leaves the channels it names, or all of them when it names none. */
  lemma UnsubscribeLaw(cfg: Config, w: World, v: RespValue, args: seq<Bytes>, scene: Scene, h: Hub)
    requires ParseCommand(v) == Some(Command("UNSUBSCRIBE", args)) && w.conn.authed && cfg.brokered
    requires Shows(cfg, h, w) && Listing(scene.order(w.channels.Keys), w.channels.Keys)
    ensures var r := Serve(cfg, w, v, scene);
            var left := Among(scene.order(w.channels.Keys), Left(w.channels, cfg.id));
            && Shows(cfg, Act(h, if args == [] then LeaveAll(cfg.id) else Leave(cfg.id, args)), r.world)
            && r.world.store == w.store && r.world.file == w.file && !r.stopped
            && Answered(w, r, if args != [] then UnsubscribeValues(w.channels, cfg.id, args)
                              else if left == [] then [SubscribeValue("unsubscribe", "", 0)] else LeftValues(left))
  {
    hide Wire, ParseCommand, HandleUnsubscribe, Answered, Shows, UnsubscribeValues, LeftValues, SubscribeValue, Among, Left,
      Act, Listing;
    UnsubscribeLeaves(cfg, w, h, args, scene.order);
    UnsubscribeAnswered(cfg, w, args, scene.order);
  }

  /** Without a broker UNSUBSCRIBE is not answered at all; it only makes sure that a read is out. */
  lemma UnsubscribeUnbrokered(cfg: Config, w: World, v: RespValue, args: seq<Bytes>, scene: Scene)
    requires ParseCommand(v) == Some(Command("UNSUBSCRIBE", args)) && w.conn.authed && !cfg.brokered
    ensures var r := Serve(cfg, w, v, scene);
            && r.responses == "" && !r.stopped && r.world == w.(conn := r.world.conn)
            && (w.conn.reading || !w.conn.open ==> r.world.conn == w.conn)
            && (!w.conn.reading && w.conn.open ==> r.world.conn == w.conn.(reading := true, readsOut := w.conn.readsOut + 1))
  {
    hide ParseCommand;
  }

  // ---- the limits --------------------------------------------------------------------------------

  /** On an open socket data is accepted, in full, exactly when the pending bytes stay within their
      limit; otherwise the socket is closed and nothing is accepted. */
  lemma WriteLaw(cfg: Config, c: Conn, data: Bytes)
    requires c.open
    ensures var c' := DoWrite(cfg, c, data);
            if c.pending + |data| <= cfg.maxPending
            then c'.open && c'.accepted == c.accepted + data && c'.pending == c.pending + |data| && c'.writing
            else c' == c.(open := false)
  {
  }

  /** A read that makes the buffer too long runs nothing: its bytes are dropped, the client is told,
      and the connection closes once that is written. */
  lemma TooLargeLaw(cfg: Config, w: World, chunk: Bytes, clock: nat -> Scene)
    requires |w.conn.buf| + |chunk| > cfg.maxRequest && w.conn.open
    ensures var w' := Handle(cfg, w, ReadDone(chunk, clock));
            var notice := Wire(Error("ERR max request size exceeded"));
            && w' == w.(conn := w'.conn) && w'.conn.closing && w'.conn.buf == ""
            && if w.conn.pending + |notice| <= cfg.maxPending then w'.conn.accepted == w.conn.accepted + notice
               else !w'.conn.open && w'.conn.accepted == w.conn.accepted
  {
    hide Wire, DoWrite;
    var c := ReadCompleted(w.conn).(closing := true, buf := "");
    WriteLaw(cfg, c, NoticeWire(TooLarge));
  }

  /** Bytes that the protocol refuses are dropped and the client is told which rule they break; the
      connection goes on. */
  lemma ViolationLaw(cfg: Config, w: World, chunk: Bytes, clock: nat -> Scene, violation: Violation)
    requires |w.conn.buf| + |chunk| <= cfg.maxRequest && w.conn.open && Refused(w.conn.buf + chunk, violation)
    ensures var w' := Handle(cfg, w, ReadDone(chunk, clock));
            var reply := Wire(Error("ERR " + What(violation)));
            && w' == w.(conn := w'.conn) && w'.conn.buf == "" && w'.conn.closing == w.conn.closing
            && if w.conn.pending + |reply| <= cfg.maxPending then w'.conn.accepted == w.conn.accepted + reply
               else !w'.conn.open && w'.conn.accepted == w.conn.accepted
  {
    hide Wire, DoWrite, Decode, ServeAll, What, Refused;
    ReportsRefused(w.conn.buf + chunk, violation);
    var w1 := w.(conn := ReadCompleted(w.conn).(buf := w.conn.buf + chunk));
    ServeAllStep(cfg, w1, "", clock, 0);
    var reply := ThrownWire(What(violation));
    assert "" + reply == reply;
    WriteLaw(cfg, w1.conn.(buf := ""), reply);
    ErrorIsSomething("ERR " + What(violation));
  }

  lemma ErrorIsSomething(text: Bytes)
    ensures Wire(Error(text)) != ""
  {
  }

  /** A failed read or write and an idle timeout close the socket, and change nothing that is shared. */
  lemma FailureLaw(cfg: Config, w: World, e: Event)
    requires e.ReadFailed? || e.WriteFailed? || e.IdleExpired?
    ensures var w' := Handle(cfg, w, e);
            !w'.conn.open && w'.conn.accepted == w.conn.accepted && w'.conn.buf == w.conn.buf && w' == w.(conn := w'.conn)
  {
  }
}
