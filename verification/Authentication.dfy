/** Nothing happens on behalf of a client that has not authenticated. */
module Authentication {
  import opened Bytes
  import opened Resp
  import opened RespTheorems
  import opened Commands
  import opened Connection

  /** The stream's command is an AUTH with the configured password. */
  ghost predicate Unlocks(cfg: Config, cmd: Command) {
    cmd.name == "AUTH" && cfg.password != "" && cmd.args == [cfg.password]
  }

  /** Before authentication a command changes nothing but, with the right password, the flag. */
  lemma LockedServe(cfg: Config, w: World, v: RespValue, scene: Scene)
    requires !w.conn.authed
    ensures var w' := Serve(cfg, w, v, scene).world;
            && w'.store == w.store && w'.file == w.file && w'.channels == w.channels
            && (w'.conn.authed <==> ParseCommand(v).Some? && Unlocks(cfg, ParseCommand(v).value))
  {
    hide Exec, ParseCommand, NoticeWire, HandleSubscribe, HandleUnsubscribe, ServeOrdinary;
  }

  lemma ServeKeepsAuthed(cfg: Config, w: World, v: RespValue, scene: Scene)
    requires w.conn.authed
    ensures Serve(cfg, w, v, scene).world.conn.authed
  {
    hide ParseCommand, RouteOf, NoticeWire, Auth, HandleSubscribe, HandleUnsubscribe, ServeOrdinary;
  }

  lemma {:induction false} ServeAllLocked(cfg: Config, w: World, responses: Bytes, clock: nat -> Scene, i: nat)
    ensures var w' := ServeAll(cfg, w, responses, clock, i).0;
            && (w.conn.authed ==> w'.conn.authed)
            && (!w'.conn.authed ==> w'.store == w.store && w'.file == w.file && w'.channels == w.channels)
    decreases |w.conn.buf|
  {
    hide Decode, Serve, ServeAll;
    ServeAllStep(cfg, w, responses, clock, i);
    match Decode(w.conn.buf)
    case Done(v, size) =>
      var w1 := Advance(w, size);
      if w.conn.authed {
        ServeKeepsAuthed(cfg, w1, v, clock(i));
      } else {
        LockedServe(cfg, w1, v, clock(i));
      }
      var r := Serve(cfg, w1, v, clock(i));
      if !r.stopped {
        ServeAllLocked(cfg, r.world, responses + r.responses, clock, i + 1);
      }
    case _ =>
  }

  lemma WriteKeepsAuthed(cfg: Config, c: Conn, data: Bytes)
    ensures DoWrite(cfg, c, data).authed == c.authed && DoRead(c).authed == c.authed && OnWritten(c).authed == c.authed
  {
  }

  lemma HandleLocked(cfg: Config, w: World, e: Event)
    ensures var w' := Handle(cfg, w, e);
            && (w.conn.authed ==> w'.conn.authed)
            && (!w'.conn.authed ==> w'.store == w.store && w'.file == w.file && w'.channels == w.channels)
  {
    hide ServeAll, DoWrite, DoRead, NoticeWire, OnWritten;
    WriteKeepsAuthed(cfg, w.conn, "");
    match e
    case ReadDone(chunk, clock) =>
      var c := ReadCompleted(w.conn);
      if |c.buf| + |chunk| > cfg.maxRequest {
        WriteKeepsAuthed(cfg, c.(closing := true, buf := ""), NoticeWire(TooLarge));
      } else {
        var w1 := w.(conn := c.(buf := c.buf + chunk));
        ServeAllLocked(cfg, w1, "", clock, 0);
        var r := ServeAll(cfg, w1, "", clock, 0);
        WriteKeepsAuthed(cfg, r.0.conn, r.1);
      }
    case Pushed(frame) => WriteKeepsAuthed(cfg, w.conn, frame);
    case _ =>
  }

  /** Authentication gate: as long as a connection is not authenticated, nothing it receives, in
      any number of events, changes the store, the file or the broker. */
  lemma {:induction false} AuthGate(cfg: Config, w: World, events: seq<Event>)
    ensures var w' := HandleAll(cfg, w, events);
            && (w.conn.authed ==> w'.conn.authed)
            && (!w'.conn.authed ==> w'.store == w.store && w'.file == w.file && w'.channels == w.channels)
    decreases |events|
  {
    hide Handle;
    if events != [] {
      HandleLocked(cfg, w, events[0]);
      AuthGate(cfg, Handle(cfg, w, events[0]), events[1..]);
    }
  }

  // ---- who unlocks -------------------------------------------------------------------------------

  lemma {:induction false} ServeAllUnlocks(cfg: Config, w: World, responses: Bytes, clock: nat -> Scene, i: nat)
    returns (v: RespValue)
    requires !w.conn.authed && ServeAll(cfg, w, responses, clock, i).0.conn.authed
    ensures v in Drain(w.conn.buf).values && ParseCommand(v).Some? && Unlocks(cfg, ParseCommand(v).value)
    decreases |w.conn.buf|
  {
    hide Decode, Serve, ServeAll, Drain, ParseCommand, Unlocks;
    ServeAllStep(cfg, w, responses, clock, i);
    DrainStep(w.conn.buf);
    var d := Decode(w.conn.buf);
    assert d.Done?;
    var w1 := Advance(w, d.size);
    LockedServe(cfg, w1, d.value, clock(i));
    var r := Serve(cfg, w1, d.value, clock(i));
    if r.world.conn.authed {
      v := d.value;
    } else {
      v := ServeAllUnlocks(cfg, r.world, responses + r.responses, clock, i + 1);
    }
  }

  lemma EventUnlocks(cfg: Config, w: World, e: Event) returns (v: RespValue)
    requires !w.conn.authed && Handle(cfg, w, e).conn.authed
    ensures e.ReadDone? && v in Drain(w.conn.buf + e.chunk).values && ParseCommand(v).Some?
    ensures Unlocks(cfg, ParseCommand(v).value)
  {
    hide ServeAll, DoWrite, DoRead, NoticeWire, OnWritten, Drain, ParseCommand, Unlocks;
    WriteKeepsAuthed(cfg, w.conn, if e.Pushed? then e.frame else "");
    assert e.ReadDone?;
    var c := ReadCompleted(w.conn);
    WriteKeepsAuthed(cfg, c.(closing := true, buf := ""), NoticeWire(TooLarge));
    var w1 := w.(conn := c.(buf := c.buf + e.chunk));
    var r := ServeAll(cfg, w1, "", e.clock, 0);
    WriteKeepsAuthed(cfg, r.0.conn, r.1);
    v := ServeAllUnlocks(cfg, w1, "", e.clock, 0);
  }

  /** A locked connection is unlocked only by a read that completes an AUTH with the password. */
  lemma {:induction false} OnlyPasswordUnlocks(cfg: Config, w: World, events: seq<Event>) returns (i: nat, v: RespValue)
    requires !w.conn.authed && HandleAll(cfg, w, events).conn.authed
    ensures i < |events| && events[i].ReadDone?
    ensures v in Drain(HandleAll(cfg, w, events[..i]).conn.buf + events[i].chunk).values
    ensures ParseCommand(v).Some? && var cmd := ParseCommand(v).value;
            cmd.name == "AUTH" && cfg.password != "" && cmd.args == [cfg.password]
    decreases |events|
  {
    hide Handle, Drain, ParseCommand;
    assert events != [];
    var w1 := Handle(cfg, w, events[0]);
    if w1.conn.authed {
      i := 0;
      v := EventUnlocks(cfg, w, events[0]);
      assert events[..0] == [];
    } else {
      var j, v' := OnlyPasswordUnlocks(cfg, w1, events[1..]);
      i, v := j + 1, v';
      assert events[..i][1..] == events[1..][..j] && events[..i] != [] && events[..i][0] == events[0];
    }
  }

  /** On a server with a password, a new connection has touched the store, the file or the broker
      only if its client has sent that password. */
  lemma SharedNeedsPassword(cfg: Config, w: World, events: seq<Event>) returns (i: nat, v: RespValue)
    requires w.conn == Started(cfg) && cfg.password != ""
    requires var w' := HandleAll(cfg, w, events);
             w'.store != w.store || w'.file != w.file || w'.channels != w.channels
    ensures i < |events| && events[i].ReadDone?
    ensures v in Drain(HandleAll(cfg, w, events[..i]).conn.buf + events[i].chunk).values
    ensures ParseCommand(v).Some? && var cmd := ParseCommand(v).value; cmd.name == "AUTH" && cmd.args == [cfg.password]
  {
    hide Handle, HandleAll, Drain, ParseCommand;
    AuthGate(cfg, w, events);
    i, v := OnlyPasswordUnlocks(cfg, w, events);
  }
}
