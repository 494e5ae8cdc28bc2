/** The append-only file and the store keep step: what a callback appends to the file is the
    log of exactly the commands it ran. */
module Logging {
  import opened Bytes
  import opened Resp
  import opened RespTheorems
  import opened Store
  import opened Commands
  import opened Runs
  import opened Aof
  import opened Recovery
  import opened Connection

  /** The steps account for the change from `w` to `w'`: they take one store to the other, their
      write commands are what was appended to the file, and the file can be read back. */
  ghost predicate Accounts(w: World, w': World, steps: seq<Step>) {
    && w'.store == RunStore(w.store, steps)
    && w'.file == w.file + Frames(LoggedOf(steps))
    && AllLoggable(LoggedOf(steps))
  }

  lemma {:induction false} RunConcat(s: Store, a: seq<Step>, b: seq<Step>)
    ensures RunStore(s, a + b) == RunStore(RunStore(s, a), b)
    ensures LoggedOf(a + b) == LoggedOf(a) + LoggedOf(b)
    decreases |a|
  {
    hide Exec, IsWrite;
    if a == [] {
      assert a + b == b;
    } else {
      assert (a + b)[1..] == a[1..] + b;
      RunConcat(Exec(a[0].cmd, s, a[0].env).store, a[1..], b);
    }
  }

  lemma AccountsNothing(w: World, w': World)
    requires w'.store == w.store && w'.file == w.file
    ensures Accounts(w, w', [])
  {
    assert w.file + Frames([]) == w.file;
  }

  lemma AccountsChain(w: World, w1: World, w2: World, a: seq<Step>, b: seq<Step>)
    requires Accounts(w, w1, a) && Accounts(w1, w2, b)
    ensures Accounts(w, w2, a + b)
  {
    hide Frames, Loggable;
    RunConcat(w.store, a, b);
    FramesConcat(LoggedOf(a), LoggedOf(b));
    assert w.file + Frames(LoggedOf(a)) + Frames(LoggedOf(b)) == w.file + (Frames(LoggedOf(a)) + Frames(LoggedOf(b)));
  }

  /** A command parsed from carriable bytes can be logged and read back. */
  lemma ParsedIsLoggable(v: RespValue)
    requires Wireable(v) && ParseCommand(v).Some?
    ensures Loggable(ParseCommand(v).value)
  {
    var cmd := ParseCommand(v).value;
    ParsedIsUpper(v);
    assert v.elements[0] in v.elements;
    forall i | 0 <= i < |cmd.args| ensures |cmd.args[i]| <= INT64_MAX {
      assert v.elements[1..][i] == v.elements[i + 1] && v.elements[i + 1] in v.elements;
    }
  }

  // ---- what was run ------------------------------------------------------------------------------

  /** What serving one value runs: the command, when the connection is authenticated and does not
      handle the command itself. */
  function StepsFor(w: World, v: RespValue, scene: Scene): seq<Step> {
    match ParseCommand(v)
    case None => []
    case Some(cmd) => if w.conn.authed && RouteOf(cmd.name).ToDispatcher? then [Step(cmd, scene.env, 0)] else []
  }

  /** What the loop of `handle_data` runs: a step for each value it takes from the buffer. */
  function StepsIn(cfg: Config, w: World, clock: nat -> Scene, i: nat): seq<Step>
    decreases |w.conn.buf|
  {
    match Decode(w.conn.buf)
    case Done(v, size) =>
      var w1 := Advance(w, size);
      var r := Serve(cfg, w1, v, clock(i));
      StepsFor(w1, v, clock(i)) + (if r.stopped then [] else StepsIn(cfg, r.world, clock, i + 1))
    case _ => []
  }

  /** What an event runs: only a read within the limit runs anything. */
  function StepsOn(cfg: Config, w: World, e: Event): seq<Step> {
    if e.ReadDone? && |w.conn.buf| + |e.chunk| <= cfg.maxRequest
    then StepsIn(cfg, w.(conn := ReadCompleted(w.conn).(buf := w.conn.buf + e.chunk)), e.clock, 0)
    else []
  }

  lemma {:induction false} StepsInStep(cfg: Config, w: World, clock: nat -> Scene, i: nat)
    ensures match Decode(w.conn.buf)
            case Done(v, size) =>
              var w1 := Advance(w, size);
              var r := Serve(cfg, w1, v, clock(i));
              StepsIn(cfg, w, clock, i)
              == StepsFor(w1, v, clock(i)) + (if r.stopped then [] else StepsIn(cfg, r.world, clock, i + 1))
            case _ => StepsIn(cfg, w, clock, i) == []
  {
    hide Decode, Serve, StepsFor;
  }

  lemma OneStepAccounts(cfg: Config, w: World, cmd: Command, scene: Scene)
    requires cfg.logging && Loggable(cmd)
    ensures Accounts(w, ServeOrdinary(cfg, w, cmd, scene).world, [Step(cmd, scene.env, 0)])
  {
    hide Exec, Loggable, Wire, ReplyValue, ThrownWire;
    var step := Step(cmd, scene.env, 0);
    assert [step][1..] == [];
    assert RunStore(w.store, [step]) == RunStore(Exec(cmd, w.store, scene.env).store, []);
    if IsWrite(cmd.name) {
      assert LoggedOf([step]) == [cmd] + LoggedOf([]);
      OneFrame(cmd);
    } else {
      assert LoggedOf([step]) == [] && w.file + Frames([]) == w.file;
    }
  }

  lemma OneFrame(cmd: Command)
    ensures Frames([cmd]) == Frame(cmd)
  {
    hide Wire;
    assert CommandValues([cmd]) == [CommandValue(cmd)];
    assert WireAll([CommandValue(cmd)]) == Wire(CommandValue(cmd)) + WireAll([]);
  }

  predicate Dispatched(w: World, v: RespValue) {
    ParseCommand(v).Some? && w.conn.authed && RouteOf(ParseCommand(v).value.name).ToDispatcher?
  }

  lemma ServeDispatches(cfg: Config, w: World, v: RespValue, scene: Scene)
    requires Dispatched(w, v)
    ensures Serve(cfg, w, v, scene).world == ServeOrdinary(cfg, w, ParseCommand(v).value, scene).world
  {
    hide ServeOrdinary, ParseCommand, RouteOf, Auth, HandleSubscribe, HandleUnsubscribe, NoticeWire;
  }

  lemma ServeKeepsShared(cfg: Config, w: World, v: RespValue, scene: Scene)
    requires !Dispatched(w, v)
    ensures var w' := Serve(cfg, w, v, scene).world; w'.store == w.store && w'.file == w.file
  {
    hide ServeOrdinary, ParseCommand, RouteOf, Auth, HandleSubscribe, HandleUnsubscribe, NoticeWire;
  }

  lemma ServeAccounts(cfg: Config, w: World, v: RespValue, scene: Scene)
    requires cfg.logging && Wireable(v)
    ensures Accounts(w, Serve(cfg, w, v, scene).world, StepsFor(w, v, scene))
  {
    hide Accounts, Serve, ServeOrdinary, ParseCommand, RouteOf, Wireable;
    if Dispatched(w, v) {
      ParsedIsLoggable(v);
      OneStepAccounts(cfg, w, ParseCommand(v).value, scene);
      ServeDispatches(cfg, w, v, scene);
    } else {
      ServeKeepsShared(cfg, w, v, scene);
      AccountsNothing(w, Serve(cfg, w, v, scene).world);
    }
  }

  /** One read: the store is explained by the commands run, and the file gained exactly the frames
      of the write commands among them, each readable. */
  lemma {:induction false} ServeAllAccounts(cfg: Config, w: World, responses: Bytes, clock: nat -> Scene, i: nat)
    requires cfg.logging
    ensures Accounts(w, ServeAll(cfg, w, responses, clock, i).0, StepsIn(cfg, w, clock, i))
    decreases |w.conn.buf|
  {
    hide Decode, Serve, ServeAll, StepsIn, StepsFor, Accounts, Wireable;
    ServeAllStep(cfg, w, responses, clock, i);
    StepsInStep(cfg, w, clock, i);
    match Decode(w.conn.buf)
    case Done(v, size) =>
      DecodedIsWireable(w.conn.buf);
      var w1 := Advance(w, size);
      var r := Serve(cfg, w1, v, clock(i));
      var first := StepsFor(w1, v, clock(i));
      AccountsNothing(w, w1);
      ServeAccounts(cfg, w1, v, clock(i));
      AccountsChain(w, w1, r.world, [], first);
      assert [] + first == first && first + [] == first;
      if !r.stopped {
        ServeAllAccounts(cfg, r.world, responses + r.responses, clock, i + 1);
        var w2 := ServeAll(cfg, r.world, responses + r.responses, clock, i + 1).0;
        AccountsChain(w, r.world, w2, first, StepsIn(cfg, r.world, clock, i + 1));
      }
    case _ =>
      AccountsNothing(w, ServeAll(cfg, w, responses, clock, i).0);
  }

  /** The same for every event. */
  lemma HandleAccounts(cfg: Config, w: World, e: Event)
    requires cfg.logging
    ensures Accounts(w, Handle(cfg, w, e), StepsOn(cfg, w, e))
  {
    hide Accounts, ServeAll, StepsIn, DoWrite, DoRead, NoticeWire, OnWritten;
    var w' := Handle(cfg, w, e);
    if e.ReadDone? && |w.conn.buf| + |e.chunk| <= cfg.maxRequest {
      var w1 := w.(conn := ReadCompleted(w.conn).(buf := w.conn.buf + e.chunk));
      var served := StepsIn(cfg, w1, e.clock, 0);
      ServeAllAccounts(cfg, w1, "", e.clock, 0);
      var w2 := ServeAll(cfg, w1, "", e.clock, 0).0;
      AccountsNothing(w, w1);
      AccountsChain(w, w1, w2, [], served);
      AccountsNothing(w2, w');
      AccountsChain(w, w2, w', [] + served, []);
      assert [] + served + [] == served;
    } else {
      AccountsNothing(w, w');
    }
  }
}
