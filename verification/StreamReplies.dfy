/** The replies to a stream of commands: one for each, in order. */
module StreamReplies {
  import opened Bytes
  import opened Resp
  import opened RespTheorems
  import opened Store
  import opened Commands
  import opened Runs
  import opened Connection
  import opened Segmentation
  import opened Replies
  import opened Requests

  /** The replies to requests run one by one. */
  ghost function RepliesOf(cfg: Config, ref: Ref, reqs: seq<Request>): seq<RespValue>
    requires AllPlain(reqs) && NoThrow(cfg, ref, reqs)
    decreases |reqs|
  {
    if reqs == [] then []
    else
      var cmd := ParseCommand(reqs[0].value).value;
      [ReplyValue(reqs[0].scene, cmd, Exec(cmd, ref.store, reqs[0].scene.env).outcome)]
      + RepliesOf(cfg, RunOne(cfg, ref, reqs[0]), reqs[1..])
  }

  /** Every command is known and every reply fits its headers. */
  ghost predicate AllKnown(cfg: Config, ref: Ref, reqs: seq<Request>)
    requires AllPlain(reqs) && NoThrow(cfg, ref, reqs)
  {
    && (forall i :: 0 <= i < |reqs| ==> KindOf(ParseCommand(reqs[i].value).value.name).Some?)
    && (forall v :: v in RepliesOf(cfg, ref, reqs) ==> Sized(v))
  }

  lemma RepliesFront(cfg: Config, ref: Ref, reqs: seq<Request>)
    requires AllPlain(reqs) && NoThrow(cfg, ref, reqs) && reqs != []
    ensures AllPlain(reqs[1..]) && NoThrow(cfg, RunOne(cfg, ref, reqs[0]), reqs[1..]) && Plain(reqs[0].value)
    ensures var cmd := ParseCommand(reqs[0].value).value;
            var out := Exec(cmd, ref.store, reqs[0].scene.env).outcome;
            && !out.Throw? && KindOf(cmd.name) != Some(Unmodelled)
            && RepliesOf(cfg, ref, reqs)
               == [ReplyValue(reqs[0].scene, cmd, out)] + RepliesOf(cfg, RunOne(cfg, ref, reqs[0]), reqs[1..])
            && RunOne(cfg, ref, reqs[0]).replies == ref.replies + Wire(ReplyValue(reqs[0].scene, cmd, out))
  {
    hide Exec, KindOf, ReplyValue, Wire, IsWrite, Wireable;
  }

  lemma KnownFront(cfg: Config, ref: Ref, reqs: seq<Request>)
    requires AllPlain(reqs) && NoThrow(cfg, ref, reqs) && AllKnown(cfg, ref, reqs) && reqs != []
    ensures Plain(reqs[0].value) && AllPlain(reqs[1..]) && NoThrow(cfg, RunOne(cfg, ref, reqs[0]), reqs[1..])
    ensures AllKnown(cfg, RunOne(cfg, ref, reqs[0]), reqs[1..])
    ensures var replies := RepliesOf(cfg, ref, reqs);
            && replies != [] && replies[1..] == RepliesOf(cfg, RunOne(cfg, ref, reqs[0]), reqs[1..])
            && Wireable(replies[0])
            && RunOne(cfg, ref, reqs[0]).replies == ref.replies + Wire(replies[0])
  {
    RepliesFront(cfg, ref, reqs);
    var cmd := ParseCommand(reqs[0].value).value;
    var replies := RepliesOf(cfg, ref, reqs);
    var rest := RepliesOf(cfg, RunOne(cfg, ref, reqs[0]), reqs[1..]);
    assert replies[0] in replies && KindOf(cmd.name).Some?;
    hide Exec, KindOf, ReplyValue, Wire, Wireable, Plain, RunOne, NoThrow, Sized, RepliesOf, ParseCommand;
    KnownReplyWireable(cmd, ref.store, reqs[0].scene);
    forall x | x in rest ensures Sized(x) { assert x in replies; }
  }

  lemma NoReplies(cfg: Config, ref: Ref, reqs: seq<Request>)
    requires AllPlain(reqs) && NoThrow(cfg, ref, reqs) && reqs == []
    ensures RepliesOf(cfg, ref, reqs) == []
  {
  }

  lemma {:induction false} RepliesAreWires(cfg: Config, ref: Ref, reqs: seq<Request>)
    requires AllPlain(reqs) && NoThrow(cfg, ref, reqs) && AllKnown(cfg, ref, reqs)
    ensures var replies := RepliesOf(cfg, ref, reqs);
            && |replies| == |reqs| && (forall v :: v in replies ==> Wireable(v))
            && RunEach(cfg, ref, reqs).replies == ref.replies + WireAll(replies)
    decreases |reqs|
  {
    hide Wire, Wireable, Plain, RunOne, RunEach, NoThrow, AllKnown, AllPlain, RepliesOf;
    if reqs == [] {
      RunEachNone(cfg, ref, reqs);
      NoReplies(cfg, ref, reqs);
      assert ref.replies + WireAll([]) == ref.replies;
    } else {
      KnownFront(cfg, ref, reqs);
      RunEachStep(cfg, ref, reqs);
      var replies := RepliesOf(cfg, ref, reqs);
      WireAllFront(replies);
      hide WireAll;
      RepliesAreWires(cfg, RunOne(cfg, ref, reqs[0]), reqs[1..]);
      forall v | v in replies ensures Wireable(v) {
        assert v == replies[0] || v in replies[1..];
      }
      var rest := WireAll(replies[1..]);
      assert ref.replies + Wire(replies[0]) + rest == ref.replies + (Wire(replies[0]) + rest);
    }
  }

  /** The requests as steps of a run. */
  function StepsOf(reqs: seq<Request>): (steps: seq<Step>)
    requires forall i :: 0 <= i < |reqs| ==> ParseCommand(reqs[i].value).Some?
    ensures |steps| == |reqs|
  {
    seq(|reqs|, i requires 0 <= i < |reqs| => Step(ParseCommand(reqs[i].value).value, reqs[i].scene.env, 0))
  }

  lemma PlainParses(reqs: seq<Request>)
    requires AllPlain(reqs)
    ensures forall i :: 0 <= i < |reqs| ==> ParseCommand(reqs[i].value).Some?
  {
    hide Wireable, RouteOf, KindOf, ParseCommand;
  }

  /** Each reply is the one that the outcome of its command, run after the ones before it, calls for. */
  ghost predicate InTurn(cfg: Config, s: Store, reqs: seq<Request>, replies: seq<RespValue>)
    requires forall i :: 0 <= i < |reqs| ==> ParseCommand(reqs[i].value).Some?
  {
    var outcomes := RunOutcomes(s, StepsOf(reqs));
    && |outcomes| == |replies| == |reqs|
    && forall i :: 0 <= i < |reqs| ==>
         Tells(cfg, reqs[i].scene, ParseCommand(reqs[i].value).value, outcomes[i], replies[i])
  }

  lemma InTurnFront(cfg: Config, s: Store, reqs: seq<Request>, replies: seq<RespValue>)
    requires reqs != [] && replies != [] && forall i :: 0 <= i < |reqs| ==> ParseCommand(reqs[i].value).Some?
    requires var cmd := ParseCommand(reqs[0].value).value;
             var r := Exec(cmd, s, reqs[0].scene.env);
             Tells(cfg, reqs[0].scene, cmd, r.outcome, replies[0]) && InTurn(cfg, r.store, reqs[1..], replies[1..])
    ensures InTurn(cfg, s, reqs, replies)
  {
    hide Exec, Tells, ParseCommand;
    assert StepsOf(reqs)[1..] == StepsOf(reqs[1..]);
    var r := Exec(ParseCommand(reqs[0].value).value, s, reqs[0].scene.env);
    var outcomes, rest := RunOutcomes(s, StepsOf(reqs)), RunOutcomes(r.store, StepsOf(reqs[1..]));
    assert outcomes == [r.outcome] + rest;
    forall i | 0 <= i < |reqs|
      ensures Tells(cfg, reqs[i].scene, ParseCommand(reqs[i].value).value, outcomes[i], replies[i])
    {
      if i > 0 {
        assert reqs[i] == reqs[1..][i - 1] && replies[i] == replies[1..][i - 1] && outcomes[i] == rest[i - 1];
      }
    }
  }

  lemma {:induction false} RepliesInTurn(cfg: Config, ref: Ref, reqs: seq<Request>)
    requires AllPlain(reqs) && NoThrow(cfg, ref, reqs)
    ensures forall i :: 0 <= i < |reqs| ==> ParseCommand(reqs[i].value).Some?
    ensures InTurn(cfg, ref.store, reqs, RepliesOf(cfg, ref, reqs))
    decreases |reqs|
  {
    hide Exec, KindOf, ReplyValue, Wire, Wireable, Plain, RunOne, NoThrow, AllPlain, RepliesOf, ParseCommand, Tells, InTurn;
    PlainParses(reqs);
    if reqs == [] {
      NoReplies(cfg, ref, reqs);
      NothingInTurn(cfg, ref.store, reqs);
    } else {
      RepliesFront(cfg, ref, reqs);
      RunsStore(cfg, ref, reqs[0]);
      RepliesInTurn(cfg, RunOne(cfg, ref, reqs[0]), reqs[1..]);
      var cmd := ParseCommand(reqs[0].value).value;
      ReplyTells(cfg, reqs[0].scene, cmd, Exec(cmd, ref.store, reqs[0].scene.env).outcome);
      var replies := RepliesOf(cfg, ref, reqs);
      assert replies[1..] == RepliesOf(cfg, RunOne(cfg, ref, reqs[0]), reqs[1..]);
      InTurnFront(cfg, ref.store, reqs, replies);
    }
  }

  lemma NothingInTurn(cfg: Config, s: Store, reqs: seq<Request>)
    requires reqs == []
    ensures InTurn(cfg, s, reqs, [])
  {
  }

  lemma RunsStore(cfg: Config, ref: Ref, req: Request)
    requires Plain(req.value)
    ensures RunOne(cfg, ref, req).store == Exec(ParseCommand(req.value).value, ref.store, req.scene.env).store
  {
    hide Exec, Wire, ReplyValue, IsWrite;
  }

  /** One reply per command, in order: however a stream of known commands is cut into reads, the
      bytes accepted for the client are one value for each command, a client that drains them reads
      exactly those, and the i-th is the reply that the outcome of the i-th command, run after the
      ones before it, calls for. */
  lemma RepliesInOrder(cfg: Config, w: World, events: seq<Event>, vs: seq<RespValue>)
    requires Streams(cfg, w, events, vs) && forall i :: 0 <= i < |events| ==> !events[i].Pushed?
    requires var reqs := RequestsOf(w.conn.buf, events);
             var ref := Ref(w.store, w.file, "");
             AllPlain(reqs) && NoThrow(cfg, ref, reqs) ==> AllKnown(cfg, ref, reqs)
    ensures var reqs := RequestsOf(w.conn.buf, events);
            var ref := Ref(w.store, w.file, "");
            && AllPlain(reqs) && NoThrow(cfg, ref, reqs) && Values(reqs) == vs
            && var replies := RepliesOf(cfg, ref, reqs);
               && |replies| == |vs|
               && HandleAll(cfg, w, events).conn.accepted == w.conn.accepted + WireAll(replies)
               && Drain(WireAll(replies)) == Drained(replies, "", None)
               && (forall i :: 0 <= i < |reqs| ==> ParseCommand(reqs[i].value).Some?)
               && InTurn(cfg, w.store, reqs, replies)
  {
    StreamsCarried(cfg, w, events, vs);
    StreamRuns(cfg, w, events, vs);
    var reqs, ref := RequestsOf(w.conn.buf, events), Ref(w.store, w.file, "");
    SentIsReplies(cfg, ref, w.conn.buf, events);
    hide SentBy, Streams, RequestsOf, NoThrow, RepliesOf, RunEach, Plain, HandleAll, AllKnown, WireAll, Drain, Wireable,
      InTurn, ParseCommand;
    RepliesInTurn(cfg, ref, reqs);
    RepliesAreWires(cfg, ref, reqs);
    assert "" + WireAll(RepliesOf(cfg, ref, reqs)) == WireAll(RepliesOf(cfg, ref, reqs));
    DrainWireAll(RepliesOf(cfg, ref, reqs));
  }
}
