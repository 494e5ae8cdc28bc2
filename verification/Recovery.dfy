/** Recovery of the append-only file over any number of crashes, and of the store from it. */
module Recovery {
  import opened Bytes
  import opened Resp
  import opened RespTheorems
  import opened Store
  import opened Commands
  import opened Runs
  import opened StoreTheorems
  import opened Aof

  // ---- frames ------------------------------------------------------------------------------

  /** The name is upper case, as `parse_command` leaves it, and the sizes fit their headers. */
  ghost predicate Loggable(cmd: Command) {
    && Upper(cmd.name) == cmd.name
    && |cmd.name| <= INT64_MAX && |cmd.args| < INT64_MAX
    && forall i :: 0 <= i < |cmd.args| ==> |cmd.args[i]| <= INT64_MAX
  }

  ghost predicate AllLoggable(cmds: seq<Command>) {
    forall i :: 0 <= i < |cmds| ==> Loggable(cmds[i])
  }

  lemma CommandValueWireable(cmd: Command)
    requires Loggable(cmd)
    ensures Wireable(CommandValue(cmd))
  {
    var elements := [BulkString(cmd.name)] + Bulks(cmd.args);
    forall e | e in elements ensures Wireable(e) {
      var i :| 0 <= i < |elements| && elements[i] == e;
      assert i > 0 ==> e == BulkString(cmd.args[i - 1]);
    }
  }

  /** Reading a frame back gives the command that was logged. */
  lemma CommandRoundTrip(cmd: Command)
    requires Loggable(cmd)
    ensures ParseCommand(CommandValue(cmd)) == Some(cmd)
  {
    var elements := [BulkString(cmd.name)] + Bulks(cmd.args);
    assert elements[1..] == Bulks(cmd.args);
    assert Datas(Bulks(cmd.args)) == cmd.args;
  }

  /** Every command the server parses can be logged and read back, if its sizes fit. */
  lemma ParsedIsUpper(v: RespValue)
    requires ParseCommand(v).Some?
    ensures Upper(ParseCommand(v).value.name) == ParseCommand(v).value.name
  {
    UpperIdempotent(v.elements[0].data);
  }

  lemma {:induction false} CommandsRoundTrip(cmds: seq<Command>)
    requires AllLoggable(cmds)
    ensures CommandsOf(CommandValues(cmds)) == cmds
    ensures forall v :: v in CommandValues(cmds) ==> Wireable(v)
    decreases |cmds|
  {
    hide ParseCommand, Wireable;
    if cmds != [] {
      CommandRoundTrip(cmds[0]);
      CommandValueWireable(cmds[0]);
      CommandsRoundTrip(cmds[1..]);
      var vs := CommandValues(cmds);
      assert vs[1..] == CommandValues(cmds[1..]);
      assert forall v :: v in vs ==> v == vs[0] || v in vs[1..];
    }
  }

  lemma {:induction false} CommandsOfConcat(vs: seq<RespValue>, ws: seq<RespValue>)
    ensures CommandsOf(vs + ws) == CommandsOf(vs) + CommandsOf(ws)
    decreases |vs|
  {
    if vs == [] {
      assert vs + ws == ws;
    } else {
      CommandsOfConcat(vs[1..], ws);
      assert (vs + ws)[1..] == vs[1..] + ws;
    }
  }

  lemma FramesConcat(a: seq<Command>, b: seq<Command>)
    ensures Frames(a + b) == Frames(a) + Frames(b)
  {
    hide WireAll, CommandValue, CommandValues;
    assert CommandValues(a + b) == CommandValues(a) + CommandValues(b);
    WireAllConcat(CommandValues(a), CommandValues(b));
  }

  // ---- recovery of arbitrary contents ----------------------------------------------------------

  /** Replaying a recovered file dispatches the same commands and cuts nothing more off, for
      every content the file may have had. */
  lemma RecoveryIdempotent(content: Bytes)
    ensures CompletePart(CompletePart(content)) == CompletePart(content)
    ensures CommandsOf(Drain(CompletePart(content)).values) == CommandsOf(Drain(content).values)
  {
    hide Drain;
    CompletePartDrains(content);
  }

  lemma WholeIsComplete(file: Bytes)
    requires Drain(file).rest == ""
    ensures CompletePart(file) == file
  {
    hide Drain;
    assert file[..|file|] == file;
  }

  /** What is logged after a recovery is recovered as well, after whatever was there. */
  lemma AppendsRecovered(content: Bytes, cmds: seq<Command>)
    requires AllLoggable(cmds)
    ensures var file := CompletePart(content) + Frames(cmds);
            CompletePart(file) == file && CommandsOf(Drain(file).values) == CommandsOf(Drain(content).values) + cmds
  {
    CommandsRoundTrip(cmds);
    DrainWireAll(CommandValues(cmds));
    CompletePartDrains(content);
    var cut, tail := CompletePart(content), Frames(cmds);
    assert tail == WireAll(CommandValues(cmds));
    hide Drain, Frames, CompletePart, CommandsOf, CommandValues, Loggable, Wireable;
    DrainThenDrain(cut, tail);
    assert "" + tail == tail;
    CommandsOfConcat(Drain(content).values, CommandValues(cmds));
    WholeIsComplete(cut + tail);
  }

  // ---- crashes -------------------------------------------------------------------------------

  /** One life of the server after its replay: the commands logged completely, and the bytes
      of one more frame that the crash left. */
  datatype Session = Session(logged: seq<Command>, torn: Bytes)

  ghost predicate TornFrame(torn: Bytes, cmd: Command) {
    Loggable(cmd) && |torn| < |Frame(cmd)| && torn == Frame(cmd)[..|torn|]
  }

  ghost predicate Crashed(session: Session) {
    AllLoggable(session.logged) && exists cmd :: TornFrame(session.torn, cmd)
  }

  /** The file after the sessions, each of which starts by replaying what it finds. */
  function FileAfter(sessions: seq<Session>): Bytes {
    if sessions == [] then ""
    else
      var last := sessions[|sessions| - 1];
      CompletePart(FileAfter(sessions[..|sessions| - 1])) + Frames(last.logged) + last.torn
  }

  function AllLogged(sessions: seq<Session>): seq<Command> {
    if sessions == [] then []
    else AllLogged(sessions[..|sessions| - 1]) + sessions[|sessions| - 1].logged
  }

  lemma TornDrains(torn: Bytes, cmd: Command)
    requires TornFrame(torn, cmd)
    ensures Drain(torn) == Drained([], torn, None)
  {
    hide Wire, Decode, Drain;
    CommandValueWireable(cmd);
    RoundTrip(CommandValue(cmd), "");
    assert Frame(cmd) + "" == Frame(cmd);
    StrictPrefixNeedsMore(Frame(cmd), |torn|);
    DrainStep(torn);
  }

  lemma TornTailDropped(cmds: seq<Command>, torn: Bytes, cmd: Command)
    requires AllLoggable(cmds) && TornFrame(torn, cmd)
    ensures CommandsOf(Drain(Frames(cmds) + torn).values) == cmds
    ensures CompletePart(Frames(cmds) + torn) == Frames(cmds)
  {
    hide Drain, WireAll, TornFrame;
    CommandsRoundTrip(cmds);
    TornDrains(torn, cmd);
    DrainWires(CommandValues(cmds), torn);
    assert CommandValues(cmds) + [] == CommandValues(cmds);
    assert (Frames(cmds) + torn)[..|Frames(cmds)|] == Frames(cmds);
  }

  /** The same on top of what was recovered from arbitrary content. */
  lemma TornAfterAppends(content: Bytes, cmds: seq<Command>, torn: Bytes, cmd: Command)
    requires AllLoggable(cmds) && TornFrame(torn, cmd)
    ensures var file := CompletePart(content) + Frames(cmds);
            && CommandsOf(Drain(file + torn).values) == CommandsOf(Drain(content).values) + cmds
            && CompletePart(file + torn) == file
  {
    var file := CompletePart(content) + Frames(cmds);
    AppendsRecovered(content, cmds);
    hide Drain, WireAll, TornFrame, AllLoggable, Frames, CommandsOf;
    TornDrains(torn, cmd);
    CompletePartDrains(file);
    DrainThenDrain(file, torn);
    assert "" + torn == torn;
    assert Drain(file).values + [] == Drain(file).values;
    assert (file + torn)[..|file|] == file;
  }

  /** Crash recovery: after any number of crashes, each in the middle of an append, replay
      finds exactly the commands logged completely in all sessions, in order, and leaves
      exactly their frames in the file. */
  lemma {:induction false} CrashRecovery(sessions: seq<Session>)
    requires forall i :: 0 <= i < |sessions| ==> Crashed(sessions[i])
    ensures AllLoggable(AllLogged(sessions))
    ensures CommandsOf(Drain(FileAfter(sessions)).values) == AllLogged(sessions)
    ensures CompletePart(FileAfter(sessions)) == Frames(AllLogged(sessions))
    decreases |sessions|
  {
    if sessions == [] {
      assert Drain("") == Drained([], "", None);
    } else {
      hide Drain, WireAll, Frames, TornFrame, Loggable;
      var earlier, last := sessions[..|sessions| - 1], sessions[|sessions| - 1];
      CrashRecovery(earlier);
      var before := AllLogged(earlier);
      var cmd :| TornFrame(last.torn, cmd);
      FramesConcat(before, last.logged);
      TornTailDropped(before + last.logged, last.torn, cmd);
      assert FileAfter(sessions) == Frames(before + last.logged) + last.torn;
    }
  }

  // ---- the store from the file -------------------------------------------------------------------

  /** The same keys and values, and the same keys with a deadline; the deadlines themselves
      belong to different clocks. */
  ghost predicate SameValues(s1: Store, s2: Store) {
    && s1.Keys == s2.Keys
    && forall key :: key in s1 ==> s1[key].value == s2[key].value && s1[key].deadline.Some? == s2[key].deadline.Some?
  }

  /** No deadline in the store is reached by `end`. */
  ghost predicate Unreached(s: Store, end: Time) {
    forall key :: key in s && s[key].deadline.Some? ==> end < s[key].deadline.value
  }

  lemma {:induction false} UnreachedSweeps(s: Store, times: seq<Time>, end: Time)
    requires Unreached(s, end) && forall i :: 0 <= i < |times| ==> times[i] <= end
    ensures SweptAll(s, times) == s
    decreases |times|
  {
    if times != [] {
      assert Swept(s, times[0]) == s;
      UnreachedSweeps(s, times[1..], end);
    }
  }

  lemma {:induction false} DelPlain(s: Store, keys: seq<Bytes>, i: nat, count: int, env: Env, start: Time, end: Time)
    requires i <= |keys| && Orderly(env, start, end) && Unreached(s, end)
    ensures DelFrom(s, keys, i, count, env).store == map k | k in s && k !in keys[i..] :: s[k]
    decreases |keys| - i
  {
    if i < |keys| {
      UnreachedSweeps(s, env(i).sweeps, end);
      DelPlain(s - {keys[i]}, keys, i + 1, count + (if Alive(s, keys[i], env(i).now) then 1 else 0), env, start, end);
      assert keys[i..] == [keys[i]] + keys[i + 1..];
    }
  }

  lemma {:induction false} CountPlain(s: Store, keys: seq<Bytes>, i: nat, count: int, env: Env, start: Time, end: Time)
    requires i <= |keys| && Orderly(env, start, end) && Unreached(s, end)
    ensures CountFrom(s, keys, i, count, env).store == s
    decreases |keys| - i
  {
    if i < |keys| {
      UnreachedSweeps(s, env(i).sweeps, end);
      CountPlain(s, keys, i + 1, count + (if Alive(s, keys[i], env(i).now) then 1 else 0), env, start, end);
    }
  }

  /** The effect of a command when no deadline is reached: the clock only dates new deadlines. */
  lemma ExecPlain(cmd: Command, kind: Kind, s: Store, env: Env, start: Time, end: Time)
    requires KindOf(cmd.name) == Some(kind) && Orderly(env, start, end) && Unreached(s, end)
    ensures match Plan(kind, cmd)
            case NoAccess(_) => Exec(cmd, s, env).store == s
            case OnKey(key) =>
              var d := Decide(kind, cmd, if key in s then Some(s[key].value) else None);
              && Exec(cmd, s, env).outcome == d.outcome
              && Exec(cmd, s, env).store
                 == (match d.write
                     case Keep => s
                     case Put(value, millis) => Written(s, key, value, millis, env(1).before)
                     case Drop => s - {key})
            case DelKeys(keys) => Exec(cmd, s, env).store == map k | k in s && k !in keys :: s[k]
            case CountKeys(_) => Exec(cmd, s, env).store == s
            case ExpireKey(key, millis) => Exec(cmd, s, env).store == ExpireAt(s, key, millis, env(0).now, env(0).later)
            case TtlKey(_) => Exec(cmd, s, env).store == s
            case PersistKey(key) => Exec(cmd, s, env).store == Persisted(s, key, env(0).now)
  {
    hide KindOf, Plan, Decide;
    UnreachedSweeps(s, env(0).sweeps, end);
    UnreachedSweeps(s, env(1).sweeps, end);
    match Plan(kind, cmd)
    case DelKeys(keys) =>
      DelPlain(s, keys, 0, 0, env, start, end);
      assert keys[0..] == keys;
    case CountKeys(keys) => CountPlain(s, keys, 0, 0, env, start, end);
    case _ =>
  }

  lemma WritesSame(s1: Store, s2: Store, key: Bytes, write: Write, t1: Time, t2: Time)
    requires SameValues(s1, s2)
    ensures SameValues(s1 - {key}, s2 - {key})
    ensures write.Put? ==>
              SameValues(Written(s1, key, write.value, write.millis, t1), Written(s2, key, write.value, write.millis, t2))
  {
  }

  lemma DeletesSame(s1: Store, s2: Store, keys: seq<Bytes>)
    requires SameValues(s1, s2)
    ensures SameValues(map k | k in s1 && k !in keys :: s1[k], map k | k in s2 && k !in keys :: s2[k])
  {
  }

  lemma ExpiresSame(s1: Store, s2: Store, key: Bytes, millis: int, t1: Tick, t2: Tick)
    requires SameValues(s1, s2) && Unreached(s1, t1.now) && Unreached(s2, t2.now)
    ensures SameValues(ExpireAt(s1, key, millis, t1.now, t1.later), ExpireAt(s2, key, millis, t2.now, t2.later))
    ensures SameValues(Persisted(s1, key, t1.now), Persisted(s2, key, t2.now))
  {
    assert Alive(s1, key, t1.now) == (key in s1);
    assert Alive(s2, key, t2.now) == (key in s2);
  }

  lemma SameFound(s1: Store, s2: Store, key: Bytes)
    requires SameValues(s1, s2)
    ensures (if key in s1 then Some(s1[key].value) else None) == (if key in s2 then Some(s2[key].value) else None)
  {
  }

  /** One command on two clocks. */
  lemma TwoClocks(cmd: Command, s1: Store, s2: Store, e1: Env, e2: Env, start1: Time, end1: Time, start2: Time, end2: Time)
    requires SameValues(s1, s2)
    requires Orderly(e1, start1, end1) && Unreached(s1, end1)
    requires Orderly(e2, start2, end2) && Unreached(s2, end2)
    ensures SameValues(Exec(cmd, s1, e1).store, Exec(cmd, s2, e2).store)
  {
    if KindOf(cmd.name).Some? {
      var kind := KindOf(cmd.name).value;
      ExecPlain(cmd, kind, s1, e1, start1, end1);
      ExecPlain(cmd, kind, s2, e2, start2, end2);
      assert Unreached(s1, e1(0).now) && Unreached(s2, e2(0).now);
      hide KindOf, Plan, Decide, Exec, SameValues, Written, ExpireAt, Persisted, Unreached;
      match Plan(kind, cmd)
      case OnKey(key) =>
        SameFound(s1, s2, key);
        var d := Decide(kind, cmd, if key in s1 then Some(s1[key].value) else None);
        WritesSame(s1, s2, key, d.write, e1(1).before, e2(1).before);
      case DelKeys(keys) => DeletesSame(s1, s2, keys);
      case ExpireKey(key, millis) => ExpiresSame(s1, s2, key, millis, e1(0), e2(0));
      case PersistKey(key) => ExpiresSame(s1, s2, key, 0, e1(0), e2(0));
      case _ =>
    }
  }

  /** A command that is not logged changes nothing while no deadline is reached. */
  lemma UnloggedPlain(cmd: Command, s: Store, env: Env, start: Time, end: Time)
    requires !IsWrite(cmd.name) && Orderly(env, start, end) && Unreached(s, end)
    ensures Exec(cmd, s, env).store == s
  {
    LoggedKinds(cmd.name);
    if KindOf(cmd.name).Some? {
      hide KindOf, IsWrite, Exec, Decide;
      var kind := KindOf(cmd.name).value;
      ExecPlain(cmd, kind, s, env, start, end);
      PlanOfRead(kind, cmd);
      hide Plan, WriteKind;
      match Plan(kind, cmd)
      case OnKey(key) => DecideKeeps(kind, cmd, if key in s then Some(s[key].value) else None);
      case _ =>
    }
  }

  /** At every step of the run, no deadline is reached by the end of the step. */
  ghost predicate RunUnreached(s: Store, steps: seq<Step>, start: Time)
    decreases |steps|
  {
    steps == [] ||
    (&& Orderly(steps[0].env, start, steps[0].end) && Unreached(s, steps[0].end)
     && RunUnreached(Exec(steps[0].cmd, s, steps[0].env).store, steps[1..], steps[0].end))
  }

  /** What the connection logs: the write commands, before they are dispatched, whether or not
      they then fail. */
  function LoggedOf(steps: seq<Step>): seq<Command> {
    if steps == [] then []
    else if IsWrite(steps[0].cmd.name) then [steps[0].cmd] + LoggedOf(steps[1..])
    else LoggedOf(steps[1..])
  }

  function CommandsIn(steps: seq<Step>): (r: seq<Command>)
    ensures |r| == |steps|
  {
    if steps == [] then [] else [steps[0].cmd] + CommandsIn(steps[1..])
  }

  /** Replay restores the state: a live run and a replay of its log, each on its own clock,
      end with the same values and the same keys with a deadline. */
  lemma {:induction false} ReplaySimulates(s1: Store, s2: Store, live: seq<Step>, replay: seq<Step>, start1: Time, start2: Time)
    requires SameValues(s1, s2)
    requires CommandsIn(replay) == LoggedOf(live)
    requires RunUnreached(s1, live, start1) && RunUnreached(s2, replay, start2)
    ensures SameValues(RunStore(s1, live), RunStore(s2, replay))
    decreases |live|
  {
    hide Exec, SameValues, IsWrite;
    if live != [] {
      var a := live[0];
      if IsWrite(a.cmd.name) {
        assert |CommandsIn(replay)| == |replay|;
        var b := replay[0];
        assert CommandsIn(replay)[1..] == CommandsIn(replay[1..]);
        assert LoggedOf(live)[1..] == LoggedOf(live[1..]);
        TwoClocks(a.cmd, s1, s2, a.env, b.env, start1, a.end, start2, b.end);
        ReplaySimulates(Exec(a.cmd, s1, a.env).store, Exec(b.cmd, s2, b.env).store, live[1..], replay[1..], a.end, b.end);
      } else {
        UnloggedPlain(a.cmd, s1, a.env, start1, a.end);
        ReplaySimulates(s1, s2, live[1..], replay, a.end, start2);
      }
    }
  }

  // ---- from the file to the run ------------------------------------------------------------------

  /** The steps of a replay that dispatches the commands with the environments of a clock. */
  function ReplaySteps(cmds: seq<Command>, clock: nat -> Env, ends: nat -> Time, i: nat): seq<Step>
    decreases |cmds|
  {
    if cmds == [] then [] else [Step(cmds[0], clock(i), ends(i))] + ReplaySteps(cmds[1..], clock, ends, i + 1)
  }

  lemma {:induction false} ReplayStepsRun(s: Store, cmds: seq<Command>, clock: nat -> Env, ends: nat -> Time, i: nat)
    ensures RunStore(s, ReplaySteps(cmds, clock, ends, i)) == DispatchAll(s, cmds, clock, i)
    ensures CommandsIn(ReplaySteps(cmds, clock, ends, i)) == cmds
    decreases |cmds|
  {
    hide Exec;
    if cmds != [] {
      var steps := ReplaySteps(cmds, clock, ends, i);
      assert steps[1..] == ReplaySteps(cmds[1..], clock, ends, i + 1);
      ReplayStepsRun(Exec(cmds[0], s, clock(i)).store, cmds[1..], clock, ends, i + 1);
    }
  }

  lemma {:induction false} BothClocks(s1: Store, s2: Store, a: seq<Step>, b: seq<Step>, start1: Time, start2: Time)
    requires SameValues(s1, s2) && CommandsIn(a) == CommandsIn(b)
    requires RunUnreached(s1, a, start1) && RunUnreached(s2, b, start2)
    ensures SameValues(RunStore(s1, a), RunStore(s2, b))
    decreases |a|
  {
    assert |CommandsIn(a)| == |a| && |CommandsIn(b)| == |b|;
    hide Exec, Orderly, Unreached, SameValues;
    if a != [] {
      assert CommandsIn(a)[0] == a[0].cmd && CommandsIn(b)[0] == b[0].cmd;
      assert CommandsIn(a)[1..] == CommandsIn(a[1..]) && CommandsIn(b)[1..] == CommandsIn(b[1..]);
      TwoClocks(a[0].cmd, s1, s2, a[0].env, b[0].env, start1, a[0].end, start2, b[0].end);
      BothClocks(Exec(a[0].cmd, s1, a[0].env).store, Exec(b[0].cmd, s2, b[0].env).store, a[1..], b[1..], a[0].end, b[0].end);
    }
  }

  lemma {:induction false} UnreachedSplit(s: Store, a: seq<Step>, b: seq<Step>, start: Time) returns (middle: Time)
    requires RunUnreached(s, a + b, start)
    ensures RunUnreached(s, a, start) && RunUnreached(RunStore(s, a), b, middle)
    ensures RunStore(s, a + b) == RunStore(RunStore(s, a), b)
    decreases |a|
  {
    hide Exec, Orderly, Unreached;
    if a == [] {
      assert a + b == b;
      middle := start;
    } else {
      assert (a + b)[1..] == a[1..] + b;
      middle := UnreachedSplit(Exec(a[0].cmd, s, a[0].env).store, a[1..], b, a[0].end);
    }
  }

  lemma {:induction false} CommandsInParts(steps: seq<Step>, n: nat)
    requires n <= |steps|
    ensures CommandsIn(steps[..n]) == CommandsIn(steps)[..n] && CommandsIn(steps[n..]) == CommandsIn(steps)[n..]
    decreases |steps|
  {
    if n > 0 {
      assert steps[..n][1..] == steps[1..][..n - 1] && steps[n..] == steps[1..][n - 1..];
      CommandsInParts(steps[1..], n - 1);
    }
  }

  /** One more session, after any number of earlier ones. It begins by replaying the commands it
      finds, runs any commands, and crashes; the next one replays what it found and what was then
      logged. While no deadline is reached, in either replay or in the session, the store comes back
      with the same values and the same keys with a deadline. */
  lemma RestartRestores(found: seq<Step>, live: seq<Step>, again: seq<Step>, start1: Time, start2: Time, start3: Time)
    requires CommandsIn(again) == CommandsIn(found) + LoggedOf(live)
    requires RunUnreached(map[], found, start1)
    requires RunUnreached(RunStore(map[], found), live, start2)
    requires RunUnreached(map[], again, start3)
    ensures SameValues(RunStore(RunStore(map[], found), live), RunStore(map[], again))
  {
    hide RunUnreached, RunStore, CommandsIn, LoggedOf;
    var n := |found|;
    assert |CommandsIn(found)| == n && |CommandsIn(again)| == |again|;
    var first, second := again[..n], again[n..];
    assert again == first + second;
    CommandsInParts(again, n);
    var middle := UnreachedSplit(map[], first, second, start3);
    BothClocks(map[], map[], found, first, start1, start3);
    ReplaySimulates(RunStore(map[], found), RunStore(map[], first), live, second, start2, middle);
  }

  // ---- deadlines and replay ----------------------------------------------------------------------

  /** No command of the run sets a deadline. */
  ghost predicate DeadlineFree(steps: seq<Step>) {
    forall i :: 0 <= i < |steps| ==> SetsNoDeadline(steps[i].cmd)
  }

  lemma UnloggedTimeless(cmd: Command, s: Store, env: Env)
    requires !IsWrite(cmd.name) && Timeless(s) && SetsNoDeadline(cmd)
    ensures Exec(cmd, s, env).store == s
  {
    hide Exec, SetsNoDeadline;
    ClockFree(cmd, s, env, Still(0));
    var _ := FailureAtomic(cmd, s, Still(0));
  }

  /** Without deadlines, replay rebuilds the store exactly, on every clock and with every sweep. */
  lemma {:induction false} ReplayExact(s: Store, live: seq<Step>, clock: nat -> Env, i: nat)
    requires Timeless(s) && DeadlineFree(live)
    ensures DispatchAll(s, LoggedOf(live), clock, i) == RunStore(s, live)
    decreases |live|
  {
    hide Exec, Timeless, SetsNoDeadline, IsWrite;
    if live != [] {
      var a := live[0];
      var s' := Exec(a.cmd, s, a.env).store;
      if IsWrite(a.cmd.name) {
        ClockFree(a.cmd, s, a.env, clock(i));
        ReplayExact(s', live[1..], clock, i + 1);
        assert LoggedOf(live)[1..] == LoggedOf(live[1..]);
      } else {
        UnloggedTimeless(a.cmd, s, a.env);
        ReplayExact(s, live[1..], clock, i);
      }
    }
  }

  ghost predicate NoneSetsDeadline(cmds: seq<Command>) {
    forall i :: 0 <= i < |cmds| ==> SetsNoDeadline(cmds[i])
  }

  lemma {:induction false} LoggedSetNone(steps: seq<Step>)
    requires DeadlineFree(steps)
    ensures NoneSetsDeadline(LoggedOf(steps))
    decreases |steps|
  {
    hide SetsNoDeadline, IsWrite;
    if steps != [] {
      LoggedSetNone(steps[1..]);
    }
  }

  lemma DeadlineFreeParts(a: seq<Step>, b: seq<Step>)
    requires DeadlineFree(a + b)
    ensures DeadlineFree(a) && DeadlineFree(b)
  {
    hide SetsNoDeadline;
    forall i | 0 <= i < |a| ensures SetsNoDeadline(a[i].cmd) { assert (a + b)[i] == a[i]; }
    forall i | 0 <= i < |b| ensures SetsNoDeadline(b[i].cmd) { assert (a + b)[|a| + i] == b[i]; }
  }

  lemma {:induction false} DispatchClockFree(s: Store, cmds: seq<Command>, c1: nat -> Env, c2: nat -> Env, i: nat)
    requires Timeless(s) && NoneSetsDeadline(cmds)
    ensures DispatchAll(s, cmds, c1, i) == DispatchAll(s, cmds, c2, i) && Timeless(DispatchAll(s, cmds, c1, i))
    decreases |cmds|
  {
    hide Exec, Timeless, SetsNoDeadline;
    if cmds != [] {
      ClockFree(cmds[0], s, c1(i), c2(i));
      DispatchClockFree(Exec(cmds[0], s, c1(i)).store, cmds[1..], c1, c2, i + 1);
    }
  }

  lemma {:induction false} DispatchConcat(s: Store, a: seq<Command>, b: seq<Command>, clock: nat -> Env, i: nat)
    ensures DispatchAll(s, a + b, clock, i) == DispatchAll(DispatchAll(s, a, clock, i), b, clock, i + |a|)
    decreases |a|
  {
    hide Exec;
    if a == [] {
      assert a + b == b;
    } else {
      assert (a + b)[1..] == a[1..] + b;
      DispatchConcat(Exec(a[0], s, clock(i)).store, a[1..], b, clock, i + 1);
    }
  }

  lemma EmptyTimeless()
    ensures Timeless(map[])
  {
  }

  /** And without deadlines it comes back exactly, whatever the clocks and the sweeps. */
  lemma RestartExact(found: seq<Command>, live: seq<Step>, clock1: nat -> Env, clock2: nat -> Env)
    requires NoneSetsDeadline(found) && DeadlineFree(live)
    ensures DispatchAll(map[], found + LoggedOf(live), clock2, 0) == RunStore(DispatchAll(map[], found, clock1, 0), live)
  {
    hide NoneSetsDeadline, DeadlineFree, Timeless, DispatchAll, RunStore, LoggedOf;
    EmptyTimeless();
    DispatchClockFree(map[], found, clock1, clock2, 0);
    DispatchConcat(map[], found, LoggedOf(live), clock2, 0);
    ReplayExact(DispatchAll(map[], found, clock1, 0), live, clock2, |found|);
  }

  const MILLI: Time := NANOS_PER_MILLI

  lemma ExampleOptions()
    ensures OptionsOf(["k", "a", "PX", "1"]) == Options(SetOptions(1, false, false))
    ensures OptionsOf(["k", "b", "NX"]) == Options(SetOptions(0, true, false))
  {
    var px := ["k", "a", "PX", "1"];
    var nx := ["k", "b", "NX"];
    var o := SetOptions(0, false, false);
    assert Upper("PX") == "PX" && Upper("NX") == "NX";
    PrintParse(1);
    assert ParseInt("1") == Some(1) by { assert IntText(1) == "1"; }
    assert ScanOptions(px, 2, o) == ScanOptions(px, 4, o.(millis := 1));
    assert ScanOptions(nx, 2, o) == ScanOptions(nx, 3, o.(nx := true));
  }

  const FIRST: Command := Command("SET", ["k", "a", "PX", "1"])
  const SECOND: Command := Command("SET", ["k", "b", "NX"])

  lemma ExampleExecs()
    ensures var s := map["k" := Entry(Str("a"), Some(MILLI))];
            && Exec(FIRST, map[], Still(0)).store == s
            && Exec(SECOND, s, Still(2 * MILLI)).store == map["k" := Entry(Str("b"), None)]
            && Exec(SECOND, s, Still(0)).store == s
  {
    ExampleOptions();
    assert KindOf("SET") == Some(SetKey);
    hide KindOf, OptionsOf;
  }

  lemma RunTwo(s: Store, a: Step, b: Step)
    ensures RunStore(s, [a, b]) == Exec(b.cmd, Exec(a.cmd, s, a.env).store, b.env).store
  {
    hide Exec;
    var s1 := Exec(a.cmd, s, a.env).store;
    assert [a, b][1..] == [b] && [b][1..] == [];
    assert RunStore(s, [a, b]) == RunStore(s1, [b]);
    assert RunStore(s1, [b]) == RunStore(Exec(b.cmd, s1, b.env).store, []);
  }

  lemma DispatchTwo(s: Store, a: Command, b: Command, clock: nat -> Env)
    ensures DispatchAll(s, [a, b], clock, 0) == Exec(b, Exec(a, s, clock(0)).store, clock(1)).store
  {
    hide Exec;
    var s1 := Exec(a, s, clock(0)).store;
    assert [a, b][1..] == [b] && [b][1..] == [];
    assert DispatchAll(s, [a, b], clock, 0) == DispatchAll(s1, [b], clock, 1);
    assert DispatchAll(s1, [b], clock, 1) == DispatchAll(Exec(b, s1, clock(1)).store, [], clock, 2);
  }

  /** Why no deadline may be reached: a key expires and is set again with NX; a replay, which
      takes no time, finds the key alive, refuses the second write and keeps the old value. */
  lemma ReachedDeadlineDiverges()
    ensures var live := RunStore(map[], [Step(FIRST, Still(0), 0), Step(SECOND, Still(2 * MILLI), 2 * MILLI)]);
            var replayed := DispatchAll(map[], [FIRST, SECOND], (i: nat) => Still(0), 0);
            && "k" in live && live["k"].value == Str("b")
            && "k" in replayed && replayed["k"].value == Str("a")
  {
    ExampleExecs();
    hide Exec;
    RunTwo(map[], Step(FIRST, Still(0), 0), Step(SECOND, Still(2 * MILLI), 2 * MILLI));
    DispatchTwo(map[], FIRST, SECOND, (i: nat) => Still(0));
  }
}
