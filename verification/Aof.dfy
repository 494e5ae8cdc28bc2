/** The append-only file: its frames, the object that logs and replays, and recovery from
    torn writes. The file is its contents; a crash in the middle of an append leaves a prefix
    of the frame. */
module Aof {
  import opened Bytes
  import opened Resp
  import opened RespTheorems
  import opened Store
  import opened Commands
  import opened Parser
  import opened Handlers

  function CommandValue(cmd: Command): RespValue {
    Array([BulkString(cmd.name)] + Bulks(cmd.args))
  }

  function CommandValues(cmds: seq<Command>): (vs: seq<RespValue>)
    ensures |vs| == |cmds| && forall i :: 0 <= i < |cmds| ==> vs[i] == CommandValue(cmds[i])
  {
    if cmds == [] then [] else [CommandValue(cmds[0])] + CommandValues(cmds[1..])
  }

  /** The bytes that logging the commands appends. */
  function Frames(cmds: seq<Command>): Bytes {
    WireAll(CommandValues(cmds))
  }

  function Frame(cmd: Command): Bytes {
    Wire(CommandValue(cmd))
  }

  /** The commands among the values read back; other values are skipped. */
  function CommandsOf(vs: seq<RespValue>): seq<Command> {
    if vs == [] then []
    else
      var rest := CommandsOf(vs[1..]);
      match ParseCommand(vs[0])
      case None => rest
      case Some(cmd) => [cmd] + rest
  }

  /** The store after dispatching the commands; the `i`-th has the environment `clock(i)`. */
  function DispatchAll(s: Store, cmds: seq<Command>, clock: nat -> Env, i: nat): Store
    decreases |cmds|
  {
    if cmds == [] then s else DispatchAll(Exec(cmds[0], s, clock(i)).store, cmds[1..], clock, i + 1)
  }

  lemma NothingToReplay(s: Store, clock: nat -> Env)
    ensures CommandsOf([]) == [] && DispatchAll(s, [], clock, 0) == s
  {
  }

  lemma DispatchNothing(s: Store, clock: nat -> Env, i: nat)
    ensures DispatchAll(s, [], clock, i) == s
  {
  }

  lemma CommandsFront(v: RespValue, vs: seq<RespValue>)
    ensures CommandsOf([v] + vs) == if ParseCommand(v).Some? then [ParseCommand(v).value] + CommandsOf(vs) else CommandsOf(vs)
  {
    hide ParseCommand;
    assert ([v] + vs)[1..] == vs;
  }

  lemma DispatchFront(s: Store, cmd: Command, cmds: seq<Command>, clock: nat -> Env, i: nat)
    ensures DispatchAll(s, [cmd] + cmds, clock, i) == DispatchAll(Exec(cmd, s, clock(i)).store, cmds, clock, i + 1)
  {
    hide Exec;
    assert ([cmd] + cmds)[1..] == cmds;
  }

  class AofPersistence {
    var file: Bytes

    constructor (contents: Bytes)
      ensures file == contents
    {
      file := contents;
    }

    method Log(cmd: Command)
      modifies this
      ensures file == old(file) + Frame(cmd)
    {
      var elements := [BulkString(cmd.name)];
      for i := 0 to |cmd.args|
        invariant elements == [BulkString(cmd.name)] + Bulks(cmd.args[..i])
      {
        assert cmd.args[..i + 1] == cmd.args[..i] + [cmd.args[i]];
        elements := elements + [BulkString(cmd.args[i])];
      }
      assert cmd.args[..|cmd.args|] == cmd.args;
      var wire := SerializeArray(elements);
      file := file + wire;
    }

    /** Drains the file, dispatches every command, and cuts off what does not parse. */
    method Replay(store: KvStore, clock: nat -> Env) returns (count: nat)
      modifies this, store
      ensures file == CompletePart(old(file))
      ensures var cmds := CommandsOf(Drain(old(file)).values);
              count == |cmds| && store.data == DispatchAll(old(store.data), cmds, clock, 0)
    {
      hide Decode, Drain, Exec, CommandsOf, DispatchAll, ParseCommand;
      var content := file;
      count := 0;
      DrainStep("");
      if content == "" {
        assert Decode("") == More by { DecodeEmpty(); }
        NothingToReplay(store.data, clock);
        return;
      }
      var parser := new RespParser();
      var first := true;
      var violated := false;
      ghost var rest := content;
      while true
        invariant first ==> parser.buf == "" && rest == content
        invariant !first ==> parser.buf == rest
        invariant file == content && fresh(parser)
        invariant Drain(rest).rest == Drain(content).rest && Drain(rest).error == Drain(content).error
        invariant DispatchAll(store.data, CommandsOf(Drain(rest).values), clock, count)
                  == DispatchAll(old(store.data), CommandsOf(Drain(content).values), clock, 0)
        invariant count + |CommandsOf(Drain(rest).values)| == |CommandsOf(Drain(content).values)|
        decreases |rest|, first
      {
        DrainStep(rest);
        assert "" + content == content && rest + "" == rest;
        var fed := parser.Feed(if first then content else "");
        first := false;
        match fed
        case Thrown(_) =>
          violated := true;
          break;
        case Nothing =>
          break;
        case Value(v) =>
          rest := parser.buf;
          var cmd := ParseCommandValue(v);
          CommandsFront(v, Drain(rest).values);
          if cmd.Some? {
            DispatchFront(store.data, cmd.value, CommandsOf(Drain(rest).values), clock, count);
            var _ := Dispatch(cmd.value, store, clock(count));
            count := count + 1;
          }
      }
      NothingToReplay(store.data, clock);
      DispatchNothing(store.data, clock, count);
      var trailing := parser.BufferedSize();
      if violated || trailing > 0 {
        file := content[..|content| - trailing];
      }
    }
  }
}
