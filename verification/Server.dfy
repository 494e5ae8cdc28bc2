/** The server: many connections over one store, one append-only file and one broker. Callbacks
    of different connections interleave in any order; each runs to its end. */
module Server {
  import opened Bytes
  import opened Resp
  import opened RespTheorems
  import opened Store
  import opened Commands
  import opened Runs
  import opened Aof
  import opened Recovery
  import opened PubSub
  import opened Connection
  import opened ConnectionTheorems
  import opened Subscriptions
  import opened Logging

  datatype Server = Server(conns: map<Id, Conn>, store: Store, file: Bytes, channels: Channels)

  /** A connection's id is its address, so it can come back once the connection is freed. */
  datatype ServerEvent = Accepted(id: Id) | Freed(id: Id) | On(id: Id, event: Event)

  function For(cfg: Config, id: Id): Config {
    cfg.(id := id)
  }

  function WorldFor(srv: Server, id: Id): World
    requires id in srv.conns
  {
    World(srv.conns[id], srv.store, srv.file, srv.channels)
  }

  function Back(srv: Server, id: Id, w: World): Server {
    Server(srv.conns[id := w.conn], w.store, w.file, w.channels)
  }

  function React(cfg: Config, srv: Server, e: ServerEvent): Server {
    match e
    case Accepted(id) => srv.(conns := srv.conns[id := Started(cfg)])
    case Freed(id) => srv.(conns := srv.conns - {id})
    case On(id, event) =>
      if id in srv.conns then Back(srv, id, Handle(For(cfg, id), WorldFor(srv, id), event)) else srv
  }

  /** A connection lives as long as one of its operations is outstanding or the broker holds
      a callback that refers to it. */
  ghost predicate Feasible(srv: Server, e: ServerEvent) {
    match e
    case Accepted(id) => id !in srv.conns
    case Freed(id) =>
      && id in srv.conns && srv.conns[id].readsOut == 0 && srv.conns[id].writesOut == 0
      && forall c :: !Listed(SubsOf(srv.channels, c), id)
    case On(id, event) => id in srv.conns && Possible(WorldFor(srv, id), event) && Walks(event)
  }

  /** A walk of a hash table meets each of its keys once. */
  ghost predicate Walks(e: Event) {
    e.ReadDone? ==> forall i: nat :: ListsAll(e.clock(i).order)
  }

  function ReactAll(cfg: Config, srv: Server, events: seq<ServerEvent>): Server
    decreases |events|
  {
    if events == [] then srv else ReactAll(cfg, React(cfg, srv, events[0]), events[1..])
  }

  ghost predicate FeasibleAll(cfg: Config, srv: Server, events: seq<ServerEvent>)
    decreases |events|
  {
    events == [] || (Feasible(srv, events[0]) && FeasibleAll(cfg, React(cfg, srv, events[0]), events[1..]))
  }

  const IDLE: Server := Server(map[], map[], "", map[])

  // ---- connections -------------------------------------------------------------------------

  ghost predicate AllSound(cfg: Config, srv: Server) {
    forall id :: id in srv.conns ==> Sound(For(cfg, id), WorldFor(srv, id))
  }

  lemma SoundIsLocal(cfg: Config, w: World, w': World)
    requires Sound(cfg, w) && w'.conn == w.conn
    ensures Sound(cfg, w')
  {
  }

  lemma ReactSound(cfg: Config, srv: Server, e: ServerEvent)
    requires AllSound(cfg, srv) && Feasible(srv, e)
    ensures AllSound(cfg, React(cfg, srv, e))
  {
    hide Sound, Handle, Possible, Started;
    var srv' := React(cfg, srv, e);
    forall id | id in srv'.conns ensures Sound(For(cfg, id), WorldFor(srv', id)) {
      if e.On? && e.id == id {
        HandleSound(For(cfg, id), WorldFor(srv, id), e.event);
        SoundIsLocal(For(cfg, id), Handle(For(cfg, id), WorldFor(srv, id), e.event), WorldFor(srv', id));
      } else if e.Accepted? && e.id == id {
        StartedIgnoresId(cfg, id);
        StartedSound(For(cfg, id), srv.store, srv.file, srv.channels);
      } else {
        SoundIsLocal(For(cfg, id), WorldFor(srv, id), WorldFor(srv', id));
      }
    }
  }

  lemma StartedIgnoresId(cfg: Config, id: Id)
    ensures Started(For(cfg, id)) == Started(cfg)
  {
  }

  /** Whatever clients connect, send and leave, every connection is sound between callbacks. */
  lemma {:induction false} EveryConnectionSound(cfg: Config, srv: Server, events: seq<ServerEvent>)
    requires AllSound(cfg, srv) && FeasibleAll(cfg, srv, events)
    ensures AllSound(cfg, ReactAll(cfg, srv, events))
    decreases |events|
  {
    hide React, Feasible, AllSound;
    if events != [] {
      ReactSound(cfg, srv, events[0]);
      EveryConnectionSound(cfg, React(cfg, srv, events[0]), events[1..]);
    }
  }

  // ---- broker ------------------------------------------------------------------------------

  function HubOf(srv: Server): Hub {
    Hub(srv.channels, map id | id in srv.conns :: srv.conns[id].subscribed)
  }

  lemma AgreedExt(h: Hub, h': Hub)
    requires Agreed(h) && h'.channels == h.channels && forall id :: Believes(h', id) == Believes(h, id)
    ensures Agreed(h')
  {
    hide Proper, Listed, SubsOf, Believes;
  }

  ghost predicate InStep(cfg: Config, h: Hub, w: World) {
    Agreed(h) && Shows(cfg, h, w)
  }

  lemma ServeAgrees(cfg: Config, w: World, v: RespValue, scene: Scene, h: Hub) returns (h': Hub)
    requires InStep(cfg, h, w) && ListsAll(scene.order)
    ensures InStep(cfg, h', Serve(cfg, w, v, scene).world) && OthersKeep(h, h', cfg.id)
  {
    hide Agreed, Act, ParseCommand, RouteOf, Auth, NoticeWire, Listing;
    h' := h;
    if ParseCommand(v).Some? && w.conn.authed && cfg.brokered {
      var cmd := ParseCommand(v).value;
      if RouteOf(cmd.name).ToSubscribe? && cmd.args != [] {
        h' := Act(h, Join(cfg.id, cmd.args));
        SubscribeJoins(cfg, w, h, cmd.args);
        ActAgrees(h, Join(cfg.id, cmd.args));
        hide HandleSubscribe;
      } else if RouteOf(cmd.name).ToUnsubscribe? {
        var action := if cmd.args == [] then LeaveAll(cfg.id) else Leave(cfg.id, cmd.args);
        h' := Act(h, action);
        UnsubscribeLeaves(cfg, w, h, cmd.args, scene.order);
        ActAgrees(h, action);
        hide HandleUnsubscribe;
      } else {
        hide ServeOrdinary, HandleUnsubscribe, SubscribeEach, DoWrite;
      }
    } else {
      hide ServeOrdinary, SubscribeEach, UnsubscribeEach, DoWrite, DoRead;
    }
  }

  lemma {:induction false} ServeAllAgrees(cfg: Config, w: World, responses: Bytes, clock: nat -> Scene, i: nat, h: Hub)
    returns (h': Hub)
    requires InStep(cfg, h, w) && forall j: nat :: ListsAll(clock(j).order)
    ensures InStep(cfg, h', ServeAll(cfg, w, responses, clock, i).0) && OthersKeep(h, h', cfg.id)
    decreases |w.conn.buf|
  {
    hide Decode, Serve, ServeAll, Agreed, ListsAll, Believes;
    ServeAllStep(cfg, w, responses, clock, i);
    h' := h;
    match Decode(w.conn.buf)
    case Done(v, size) =>
      var r := Serve(cfg, Advance(w, size), v, clock(i));
      h' := ServeAgrees(cfg, Advance(w, size), v, clock(i), h);
      if !r.stopped {
        h' := ServeAllAgrees(cfg, r.world, responses + r.responses, clock, i + 1, h');
      }
    case _ =>
  }

  lemma HandleAgrees(cfg: Config, w: World, e: Event, h: Hub) returns (h': Hub)
    requires InStep(cfg, h, w) && Walks(e)
    ensures InStep(cfg, h', Handle(cfg, w, e)) && OthersKeep(h, h', cfg.id)
  {
    hide Agreed, ListsAll, Believes, ServeAll, DoWrite, DoRead, FlushQueue, NoticeWire;
    h' := h;
    if e.ReadDone? && |w.conn.buf| + |e.chunk| <= cfg.maxRequest {
      var w1 := w.(conn := ReadCompleted(w.conn).(buf := w.conn.buf + e.chunk));
      h' := ServeAllAgrees(cfg, w1, "", e.clock, 0, h);
    }
  }

  lemma ReactAgrees(cfg: Config, srv: Server, e: ServerEvent)
    requires Agreed(HubOf(srv)) && Feasible(srv, e)
    ensures Agreed(HubOf(React(cfg, srv, e)))
  {
    hide Agreed, ListsAll, Handle, Possible;
    var h, h' := HubOf(srv), HubOf(React(cfg, srv, e));
    match e
    case On(id, event) =>
      var h1 := HandleAgrees(For(cfg, id), WorldFor(srv, id), event, h);
      AgreedExt(h1, h');
    case Accepted(id) =>
      AgreedExt(h, h');
    case Freed(id) =>
      FreedBelievesNothing(srv, id);
      AgreedExt(h, h');
  }

  lemma FreedBelievesNothing(srv: Server, id: Id)
    requires Agreed(HubOf(srv)) && forall c :: !Listed(SubsOf(srv.channels, c), id)
    ensures Believes(HubOf(srv), id) == {}
  {
    hide Listed, SubsOf;
    forall c ensures c !in Believes(HubOf(srv), id) {
      assert !Listed(SubsOf(srv.channels, c), id);
    }
  }

  /** In every reachable state of the server, the broker's table and what the connections believe
      agree, for every client and every channel. */
  lemma {:induction false} ServerAgreed(cfg: Config, srv: Server, events: seq<ServerEvent>)
    requires Agreed(HubOf(srv)) && FeasibleAll(cfg, srv, events)
    ensures Agreed(HubOf(ReactAll(cfg, srv, events)))
    decreases |events|
  {
    hide Agreed, HubOf, React, Feasible, ListsAll;
    if events != [] {
      ReactAgrees(cfg, srv, events[0]);
      ServerAgreed(cfg, React(cfg, srv, events[0]), events[1..]);
    }
  }

  /** So a publish, at any moment of any run, calls one callback for each connection that
      subscribes to the channel, and no other. */
  lemma ServerPublishes(cfg: Config, events: seq<ServerEvent>, channel: Bytes)
    requires FeasibleAll(cfg, IDLE, events)
    ensures var srv := ReactAll(cfg, IDLE, events);
            var invoked := Callbacks(SubsOf(srv.channels, channel));
            && Distinct(invoked)
            && (forall i :: 0 <= i < |invoked| ==> invoked[i].channel == channel)
            && (forall id :: Push(id, channel) in invoked
                             <==> id in srv.conns && channel in srv.conns[id].subscribed)
  {
    assert Agreed(HubOf(IDLE));
    ServerAgreed(cfg, IDLE, events);
    var srv := ReactAll(cfg, IDLE, events);
    PublishReaches(HubOf(srv), channel);
    hide ReactAll, FeasibleAll, ListsAll, Agreed, Callbacks, SubsOf, Distinct;
  }

  // ---- append-only file --------------------------------------------------------------------

  ghost function Shared(cfg: Config, srv: Server): World {
    World(Started(cfg), srv.store, srv.file, srv.channels)
  }

  /** What an event of the server runs, and what a whole run of it runs: the commands of all
      clients together, in the order in which they were served. */
  function RanOn(cfg: Config, srv: Server, e: ServerEvent): seq<Step> {
    if e.On? && e.id in srv.conns then StepsOn(For(cfg, e.id), WorldFor(srv, e.id), e.event) else []
  }

  function Ran(cfg: Config, srv: Server, events: seq<ServerEvent>): seq<Step>
    decreases |events|
  {
    if events == [] then [] else RanOn(cfg, srv, events[0]) + Ran(cfg, React(cfg, srv, events[0]), events[1..])
  }

  lemma ReactAccounts(cfg: Config, srv: Server, e: ServerEvent)
    requires cfg.logging
    ensures Accounts(Shared(cfg, srv), Shared(cfg, React(cfg, srv, e)), RanOn(cfg, srv, e))
  {
    hide Accounts, Handle, Started, StepsOn;
    var w, w' := Shared(cfg, srv), Shared(cfg, React(cfg, srv, e));
    if e.On? && e.id in srv.conns {
      var v := WorldFor(srv, e.id);
      var v' := Handle(For(cfg, e.id), v, e.event);
      var steps := StepsOn(For(cfg, e.id), v, e.event);
      HandleAccounts(For(cfg, e.id), v, e.event);
      AccountsNothing(w, v);
      AccountsChain(w, v, v', [], steps);
      AccountsNothing(v', w');
      AccountsChain(w, v', w', [] + steps, []);
      assert [] + steps + [] == steps;
    } else {
      AccountsNothing(w, w');
    }
  }

  /** Over any run of the server, the store is explained by the commands of all clients, in the
      order in which they were served, and the file gained the log of exactly the write commands
      among them. */
  lemma {:induction false} ServerLogs(cfg: Config, srv: Server, events: seq<ServerEvent>)
    requires cfg.logging
    ensures Accounts(Shared(cfg, srv), Shared(cfg, ReactAll(cfg, srv, events)), Ran(cfg, srv, events))
    decreases |events|
  {
    hide Accounts, React, Started, RanOn;
    if events == [] {
      AccountsNothing(Shared(cfg, srv), Shared(cfg, srv));
    } else {
      var srv1 := React(cfg, srv, events[0]);
      ReactAccounts(cfg, srv, events[0]);
      ServerLogs(cfg, srv1, events[1..]);
      AccountsChain(Shared(cfg, srv), Shared(cfg, srv1), Shared(cfg, ReactAll(cfg, srv1, events[1..])),
                    RanOn(cfg, srv, events[0]), Ran(cfg, srv1, events[1..]));
    }
  }

  /** The same commands in the same environments, with the ends of the steps filled in. */
  ghost predicate SameSteps(steps: seq<Step>, timed: seq<Step>) {
    |steps| == |timed| && forall i :: 0 <= i < |steps| ==> timed[i].cmd == steps[i].cmd && timed[i].env == steps[i].env
  }

  lemma {:induction false} SameStepsRun(s: Store, steps: seq<Step>, timed: seq<Step>)
    requires SameSteps(steps, timed)
    ensures RunStore(s, timed) == RunStore(s, steps) && LoggedOf(timed) == LoggedOf(steps)
    decreases |steps|
  {
    hide Exec, IsWrite;
    if steps != [] {
      SameStepsRun(Exec(steps[0].cmd, s, steps[0].env).store, steps[1..], timed[1..]);
    }
  }

  /** A server that starts with this file: it replays and truncates. */
  function Restarted(content: Bytes, clock: nat -> Env): Server {
    Server(map[], DispatchAll(map[], CommandsOf(Drain(content).values), clock, 0), CompletePart(content), map[])
  }

  /** Nothing reached its deadline: not in the replay at the start, not in the run, not in the
      replay afterwards. */
  ghost predicate InTime(found: seq<Command>, steps: seq<Step>, clock1: nat -> Env, clock2: nat -> Env) {
    exists timed, ends1, ends2, t1, t2, t3 ::
      && SameSteps(steps, timed)
      && RunUnreached(map[], ReplaySteps(found, clock1, ends1, 0), t1)
      && RunUnreached(DispatchAll(map[], found, clock1, 0), timed, t2)
      && RunUnreached(map[], ReplaySteps(found + LoggedOf(steps), clock2, ends2, 0), t3)
  }

  lemma InTimeRestores(found: seq<Command>, steps: seq<Step>, clock1: nat -> Env, clock2: nat -> Env)
    requires InTime(found, steps, clock1, clock2)
    ensures SameValues(RunStore(DispatchAll(map[], found, clock1, 0), steps),
                       DispatchAll(map[], found + LoggedOf(steps), clock2, 0))
  {
    var timed, ends1, ends2, t1, t2, t3 :|
      && SameSteps(steps, timed)
      && RunUnreached(map[], ReplaySteps(found, clock1, ends1, 0), t1)
      && RunUnreached(DispatchAll(map[], found, clock1, 0), timed, t2)
      && RunUnreached(map[], ReplaySteps(found + LoggedOf(steps), clock2, ends2, 0), t3);
    hide RunUnreached, RunStore, DispatchAll, SameSteps, LoggedOf, CommandsIn, ReplaySteps, SameValues;
    SameStepsRun(DispatchAll(map[], found, clock1, 0), steps, timed);
    ReplayStepsRun(map[], found, clock1, ends1, 0);
    ReplayStepsRun(map[], found + LoggedOf(steps), clock2, ends2, 0);
    RestartRestores(ReplaySteps(found, clock1, ends1, 0), timed, ReplaySteps(found + LoggedOf(steps), clock2, ends2, 0), t1, t2, t3);
  }

  /** What a crash leaves at the end of the file: a part of the frame of a write command that was
      being logged, or the whole of it when the crash came before the command was dispatched. A
      crash in the middle of a read, between two of its commands, is that of a shorter read. */
  ghost predicate Cut(tail: Bytes, cmd: Command) {
    Loggable(cmd) && IsWrite(cmd.name) && tail <= Frame(cmd)
  }

  /** The command whose frame is whole, in whatever environment, counts as run. */
  function Late(tail: Bytes, cmd: Command, env: Env): seq<Step> {
    if tail == Frame(cmd) then [Step(cmd, env, 0)] else []
  }

  lemma LateStep(tail: Bytes, cmd: Command, env: Env, s: Store)
    requires Cut(tail, cmd)
    ensures LoggedOf(Late(tail, cmd, env)) == if tail == Frame(cmd) then [cmd] else []
    ensures RunStore(s, Late(tail, cmd, env)) == if tail == Frame(cmd) then Exec(cmd, s, env).store else s
  {
    hide Exec, Loggable, IsWrite, Frame;
    assert [Step(cmd, env, 0)][1..] == [];
  }

  /** The file after a crash: only a frame that is not whole is dropped. */
  lemma CutDropped(content: Bytes, cmds: seq<Command>, tail: Bytes, cmd: Command)
    requires AllLoggable(cmds) && Cut(tail, cmd)
    ensures var file := CompletePart(content) + Frames(cmds);
            var all := cmds + (if tail == Frame(cmd) then [cmd] else []);
            && CommandsOf(Drain(file + tail).values) == CommandsOf(Drain(content).values) + all
            && CompletePart(file + tail) == CompletePart(content) + Frames(all)
  {
    hide Drain, CommandsOf, CompletePart, Loggable, Frame;
    if tail == Frame(cmd) {
      OneFrame(cmd);
      FramesConcat(cmds, [cmd]);
      var file := CompletePart(content) + Frames(cmds);
      assert file + tail == CompletePart(content) + (Frames(cmds) + Frames([cmd]));
      hide Frames;
      AppendsRecovered(content, cmds + [cmd]);
    } else {
      hide Frames;
      assert TornFrame(tail, cmd);
      TornAfterAppends(content, cmds, tail, cmd);
      assert cmds + [] == cmds;
    }
  }

  /** One life of the server: it starts with any file, serves any clients, and crashes at any
      moment. The next start finds the commands that this one found and, after them, exactly the
      write commands that this one ran or had logged, and cuts off nothing else. Its store is the
      store at the crash, with the command that was logged and not run: to the byte when no command
      sets a deadline, and with the same values and the same keys with a deadline when none is
      reached. */
  lemma ServerRestart(cfg: Config, content: Bytes, clock1: nat -> Env, events: seq<ServerEvent>, tail: Bytes, cmd: Command,
                      env: Env, clock2: nat -> Env)
    requires cfg.logging && Cut(tail, cmd)
    ensures var found := CommandsOf(Drain(content).values);
            var start := Restarted(content, clock1);
            var srv := ReactAll(cfg, start, events);
            var file := srv.file + tail;
            var steps := Ran(cfg, start, events) + Late(tail, cmd, env);
            var last := if tail == Frame(cmd) then Exec(cmd, srv.store, env).store else srv.store;
            && last == RunStore(start.store, steps)
            && CommandsOf(Drain(file).values) == found + LoggedOf(steps)
            && CompletePart(file) == start.file + Frames(LoggedOf(steps))
            && (NoneSetsDeadline(found) && DeadlineFree(steps) ==> Restarted(file, clock2).store == last)
            && (InTime(found, steps, clock1, clock2) ==> SameValues(last, Restarted(file, clock2).store))
  {
    var found := CommandsOf(Drain(content).values);
    var start := Restarted(content, clock1);
    var ran := Ran(cfg, start, events);
    var steps := ran + Late(tail, cmd, env);
    ServerLogs(cfg, start, events);
    LateStep(tail, cmd, env, RunStore(start.store, ran));
    hide ReactAll, Ran, Drain, Frames, Frame, Cut, Late, Loggable, RunStore, CommandsOf, CompletePart, LoggedOf, DispatchAll,
      InTime, NoneSetsDeadline, DeadlineFree, SameValues, Exec;
    RunConcat(start.store, ran, Late(tail, cmd, env));
    CutDropped(content, LoggedOf(ran), tail, cmd);
    if NoneSetsDeadline(found) && DeadlineFree(steps) {
      RestartExact(found, steps, clock1, clock2);
    }
    if InTime(found, steps, clock1, clock2) {
      InTimeRestores(found, steps, clock1, clock2);
    }
  }

  // ---- many lives ----------------------------------------------------------------------------

  /** What happens in one life: the clock of the replay at its start, its events, and its crash. */
  datatype Life = Life(clock: nat -> Env, events: seq<ServerEvent>, tail: Bytes, cmd: Command, env: Env)

  /** The file that the lives, one after the other, leave behind. */
  function ContentAfter(cfg: Config, lives: seq<Life>): Bytes {
    if lives == [] then ""
    else
      var last := lives[|lives| - 1];
      ReactAll(cfg, Restarted(ContentAfter(cfg, lives[..|lives| - 1]), last.clock), last.events).file + last.tail
  }

  /** The commands of all clients in all lives. */
  function RanOver(cfg: Config, lives: seq<Life>): seq<Step> {
    if lives == [] then []
    else
      var last := lives[|lives| - 1];
      var start := Restarted(ContentAfter(cfg, lives[..|lives| - 1]), last.clock);
      RanOver(cfg, lives[..|lives| - 1]) + (Ran(cfg, start, last.events) + Late(last.tail, last.cmd, last.env))
  }

  lemma NothingFound(clock: nat -> Env)
    ensures CommandsOf(Drain("").values) == [] && Restarted("", clock).store == map[]
    ensures RunStore(map[], []) == map[] && LoggedOf([]) == []
  {
    DecodeEmpty();
    DrainStep("");
    hide Decode, Drain;
  }

  lemma NothingDispatched(clock: nat -> Env)
    ensures DispatchAll(map[], [], clock, 0) == map[]
  {
  }

  lemma {:induction false} LivesAdd(cfg: Config, lives: seq<Life>, clock: nat -> Env)
    requires cfg.logging && forall i :: 0 <= i < |lives| ==> Cut(lives[i].tail, lives[i].cmd)
    ensures CommandsOf(Drain(ContentAfter(cfg, lives)).values) == LoggedOf(RanOver(cfg, lives))
    ensures DeadlineFree(RanOver(cfg, lives)) ==>
              Restarted(ContentAfter(cfg, lives), clock).store == RunStore(map[], RanOver(cfg, lives))
    decreases |lives|
  {
    hide ReactAll, Ran, Late, Cut, DispatchAll, CompletePart, DeadlineFree, NoneSetsDeadline, RunStore, Drain, Exec, Frames,
      Frame, InTime;
    if lives == [] {
      NothingFound(clock);
    } else {
      var n := |lives| - 1;
      var last, before := lives[n], ContentAfter(cfg, lives[..n]);
      var earlier := RanOver(cfg, lives[..n]);
      var ran := Ran(cfg, Restarted(before, last.clock), last.events) + Late(last.tail, last.cmd, last.env);
      LivesAdd(cfg, lives[..n], last.clock);
      ServerRestart(cfg, before, last.clock, last.events, last.tail, last.cmd, last.env, clock);
      RunConcat(map[], earlier, ran);
      if DeadlineFree(earlier + ran) {
        DeadlineFreeParts(earlier, ran);
        LoggedSetNone(earlier);
      }
    }
  }

  /** Any number of crashes: the file holds the write commands of all clients in all lives, in order
      and nothing else; and a new start has the store of a server that ran all their commands and
      never crashed: exactly, when none of them sets a deadline, and with the same values and the same
      keys with a deadline, when none is reached, neither in that run nor in the replay. */
  lemma ServerLives(cfg: Config, lives: seq<Life>, clock: nat -> Env)
    requires cfg.logging && forall i :: 0 <= i < |lives| ==> Cut(lives[i].tail, lives[i].cmd)
    ensures var content, steps := ContentAfter(cfg, lives), RanOver(cfg, lives);
            var store := Restarted(content, clock).store;
            && CommandsOf(Drain(content).values) == LoggedOf(steps)
            && (DeadlineFree(steps) ==> store == RunStore(map[], steps))
            && (InTime([], steps, clock, clock) ==> SameValues(RunStore(map[], steps), store))
  {
    hide ContentAfter, RanOver, Cut, Drain, DispatchAll, CompletePart, DeadlineFree, RunStore, InTime, SameValues, CommandsOf,
      LoggedOf;
    LivesAdd(cfg, lives, clock);
    var steps := RanOver(cfg, lives);
    if InTime([], steps, clock, clock) {
      InTimeRestores([], steps, clock, clock);
      NothingDispatched(clock);
      assert [] + LoggedOf(steps) == LoggedOf(steps);
    }
  }
}
