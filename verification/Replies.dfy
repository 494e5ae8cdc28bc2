/** Does a client that sends one command read exactly one reply? */
module Replies {
  import opened Bytes
  import opened Resp
  import opened RespTheorems
  import opened Store
  import opened Commands
  import opened StoreTheorems
  import opened Connection

  /** The bytes of a reply, whatever follows them, read back as that reply and nothing more. */
  ghost predicate Framed(v: RespValue) {
    forall rest :: Decode(Wire(v) + rest) == Done(v, |Wire(v)|)
  }

  /** The numbers and sizes in a reply fit an int64. */
  ghost predicate Sized(v: RespValue) {
    match v
    case Integer(number) => IsInt64(number)
    case BulkString(data) => |data| <= INT64_MAX
    case Array(elements) => |elements| <= INT64_MAX && forall e :: e in elements ==> Sized(e)
    case _ => true
  }

  lemma WireableFramed(v: RespValue)
    requires Wireable(v)
    ensures Framed(v)
  {
    forall rest ensures Decode(Wire(v) + rest) == Done(v, |Wire(v)|) {
      RoundTrip(v, rest);
    }
  }

  /** An error line is framed exactly when it holds no CRLF. */
  lemma ErrorFramed(text: Bytes)
    ensures Framed(Error(text)) <==> CrlfFree(text)
  {
    if CrlfFree(text) {
      WireableFramed(Error(text));
    } else {
      var p :| CrlfAt(text, p);
      var s := Wire(Error(text)) + "";
      assert CrlfAt(s[1..], p) by { assert s[1..][p] == text[p] && s[1..][p + 1] == text[p + 1]; }
      assert Decode(s) != Done(Error(text), |Wire(Error(text))|);
    }
  }

  /** A text in quotes between two texts without CR and LF. */
  lemma QuotedCrlfFree(before: Bytes, text: Bytes, after: Bytes)
    requires OneLine(before) && OneLine(after)
    ensures CrlfFree(before + text + after) <==> CrlfFree(text)
  {
    var all, n := before + text + after, |before|;
    forall p ensures CrlfAt(text, p) <==> CrlfAt(all, n + p) {
      if 0 <= p < |text| {
        assert all[n + p] == text[p];
        if p + 1 < |text| {
          assert all[n + p + 1] == text[p + 1];
        } else if p + 1 + n < |all| {
          assert all[n + p + 1] == after[0];
        }
      } else if p >= |text| && n + p < |all| {
        assert all[n + p] == after[p - |text|];
      } else if p < 0 && 0 <= n + p {
        assert all[n + p] == before[n + p];
      }
    }
    if !CrlfFree(all) {
      var q :| CrlfAt(all, q);
      assert all == before + text + after && q == n + (q - n);
      assert CrlfAt(text, q - n);
    }
  }

  /** No CR and no LF at all. */
  predicate OneLine(s: Bytes) {
    forall i :: 0 <= i < |s| ==> s[i] != '\r' && s[i] != '\n'
  }

  lemma OneLineCrlfFree(s: Bytes)
    requires OneLine(s)
    ensures CrlfFree(s)
  {
  }

  lemma OneLineJoin(a: Bytes, b: Bytes)
    requires OneLine(a) && OneLine(b)
    ensures OneLine(a + b)
  {
  }

  lemma GenericNamesOneLine(name: Bytes)
    requires GenericKindOf(name).Some?
    ensures OneLine(name)
  {
  }

  lemma StringNamesOneLine(name: Bytes)
    requires StringKindOf(name).Some?
    ensures OneLine(name)
  {
  }

  lemma ListNamesOneLine(name: Bytes)
    requires ListKindOf(name).Some?
    ensures OneLine(name)
  {
  }

  lemma SetNamesOneLine(name: Bytes)
    requires SetKindOf(name).Some?
    ensures OneLine(name)
  {
  }

  lemma HashNamesOneLine(name: Bytes)
    requires HashKindOf(name).Some?
    ensures OneLine(name)
  {
  }

  lemma KnownIsOneLine(name: Bytes)
    requires KindOf(name).Some? && KindOf(name).value != Unmodelled
    ensures OneLine(name)
  {
    hide OneLine, GenericKindOf, StringKindOf, ListKindOf, SetKindOf, HashKindOf;
    if GenericKindOf(name).Some? {
      GenericNamesOneLine(name);
    } else if StringKindOf(name).Some? {
      StringNamesOneLine(name);
    } else if ListKindOf(name).Some? {
      ListNamesOneLine(name);
    } else if SetKindOf(name).Some? {
      SetNamesOneLine(name);
    } else {
      HashNamesOneLine(name);
    }
  }

  lemma JoinedTexts()
    ensures OneLine(FaultText(BadExpireTime)) && OneLine(FaultText(NotAnInteger)) && OneLine(FaultText(WouldOverflow))
  {
    OneLineJoin("ERR invalid expire time ", "in 'set' command");
    OneLineJoin("ERR value is not an integer ", "or out of range");
    OneLineJoin("ERR increment or decrement ", "would overflow");
  }

  lemma LongTexts()
    ensures OneLine(FaultText(NxWithXx)) && OneLine(FaultText(WrongType))
  {
    OneLineJoin("ERR XX and NX options at the ", "same time are not compatible");
    OneLineJoin("WRONGTYPE Operation against a ", "key holding the wrong kind of value");
  }

  lemma FixedIsOneLine(fault: Fault)
    requires !fault.UnknownCommand? && !fault.WrongArgs?
    ensures OneLine(FaultText(fault))
  {
    assert OneLine(FaultText(SyntaxError));
    hide FaultText, OneLine;
    JoinedTexts();
    LongTexts();
  }

  lemma WrongArgsCrlfFree(name: Bytes)
    requires OneLine(name)
    ensures CrlfFree(FaultText(WrongArgs(name)))
  {
    var before, after := "ERR wrong number of arguments for '", "' command";
    assert OneLine(before) && OneLine(after);
    OneLineCrlfFree(name);
    QuotedCrlfFree(before, name, after);
  }

  lemma FaultCrlfFree(fault: Fault)
    requires !fault.UnknownCommand? && (fault.WrongArgs? ==> OneLine(fault.name))
    ensures CrlfFree(FaultText(fault))
  {
    hide FaultText, OneLine;
    if fault.WrongArgs? {
      WrongArgsCrlfFree(fault.name);
    } else {
      FixedIsOneLine(fault);
      OneLineCrlfFree(FaultText(fault));
    }
  }

  lemma UnknownCrlfFree(name: Bytes)
    ensures CrlfFree(FaultText(UnknownCommand(name))) <==> CrlfFree(name)
  {
    var before, after := "ERR unknown command '", "'";
    assert OneLine(before) && OneLine(after);
    QuotedCrlfFree(before, name, after);
  }

  // ---- the replies that handlers give ------------------------------------------------------------

  /** A successful reply holds no error, and its simple strings are fixed words. */
  predicate Regular(v: RespValue) {
    match v
    case SimpleString(text) => text == "OK" || text == "PONG"
    case Error(_) => false
    case Array(elements) => forall i :: 0 <= i < |elements| ==> elements[i].BulkString?
    case _ => true
  }

  lemma RegularWireable(v: RespValue)
    requires Regular(v) && Sized(v)
    ensures Wireable(v)
  {
    match v
    case SimpleString(text) =>
      assert OneLine("OK") && OneLine("PONG");
      OneLineCrlfFree(text);
    case Array(elements) =>
      forall e | e in elements ensures Wireable(e) {
        assert Sized(e);
      }
    case _ =>
  }

  /** An error text names the command only when the command is known, or unknown. */
  ghost predicate Answers(cmd: Command, out: Outcome) {
    && (out.Reply? ==> Regular(out.value))
    && (out.Failed? ==> !out.fault.UnknownCommand? && (out.fault.WrongArgs? ==> out.fault.name == cmd.name))
  }

  lemma ListAnswers(kind: Kind, cmd: Command, found: Option<Value>)
    requires ListKind(kind) && ListArity(kind, cmd.args)
    ensures Answers(cmd, DecideList(kind, cmd.args, found).outcome)
  {
    hide ParseInt, PushFront, RangeOf, IndexOf;
  }

  lemma SetAnswers(kind: Kind, cmd: Command, found: Option<Value>)
    requires SetKind(kind) && SetArity(kind, cmd.args)
    ensures Answers(cmd, DecideSet(kind, cmd.args, found).outcome)
  {
    hide SetOf;
  }

  lemma HashAnswers(kind: Kind, cmd: Command, found: Option<Value>)
    requires HashKind(kind) && HashArity(kind, cmd.args)
    ensures Answers(cmd, DecideHash(kind, cmd.args, found).outcome)
  {
    hide PutFields, WithoutFields;
  }

  lemma StringAnswers(kind: Kind, cmd: Command, found: Option<Value>)
    requires StringKind(kind) && Plan(kind, cmd).OnKey?
    ensures Answers(cmd, Decide(kind, cmd, found).outcome)
  {
    hide ParseInt, IntText, OptionsOf;
  }

  lemma DecideAnswers(kind: Kind, cmd: Command, found: Option<Value>)
    requires Plan(kind, cmd).OnKey?
    ensures Answers(cmd, Decide(kind, cmd, found).outcome)
  {
    hide Plan, Decide, DecideList, DecideSet, DecideHash, Answers;
    if ListKind(kind) {
      ListPlan(kind, cmd, found);
      ListAnswers(kind, cmd, found);
    } else if SetKind(kind) {
      SetPlan(kind, cmd, found);
      SetAnswers(kind, cmd, found);
    } else if StringKind(kind) {
      StringAnswers(kind, cmd, found);
    } else {
      HashIsRest(kind, cmd);
      HashPlan(kind, cmd, found);
      HashAnswers(kind, cmd, found);
    }
  }

  lemma {:induction false} ScanFaults(args: seq<Bytes>, i: nat, o: SetOptions)
    ensures var r := ScanOptions(args, i, o);
            r.Rejected? ==> r.fault == SyntaxError || r.fault == BadExpireTime
    decreases |args| - i
  {
    hide ParseInt, Upper;
    if i < |args| {
      ScanFaults(args, i + 1, o.(nx := true));
      ScanFaults(args, i + 1, o.(xx := true));
      if i + 1 < |args| && ParseInt(args[i + 1]).Some? {
        var n := ParseInt(args[i + 1]).value;
        ScanFaults(args, i + 2, o.(millis := n * 1000));
        ScanFaults(args, i + 2, o.(millis := n));
      }
    }
  }

  lemma SetPlanAnswers(cmd: Command)
    ensures Plan(SetKey, cmd).NoAccess? ==> Answers(cmd, Plan(SetKey, cmd).outcome)
  {
    ScanFaults(cmd.args, 2, SetOptions(0, false, false));
    hide ScanOptions;
  }

  lemma PlanAnswers(kind: Kind, cmd: Command)
    ensures Plan(kind, cmd).NoAccess? ==> Answers(cmd, Plan(kind, cmd).outcome)
  {
    if kind == SetKey {
      SetPlanAnswers(cmd);
      hide Plan, Answers;
    } else {
      hide ParseInt, OptionsOf;
    }
  }

  lemma {:induction false} CountsReply(s: Store, keys: seq<Bytes>, i: nat, count: int, env: Env)
    requires i <= |keys|
    ensures var r := CountFrom(s, keys, i, count, env).outcome; r.Reply? && r.value.Integer?
    decreases |keys| - i
  {
    if i < |keys| {
      var s' := SweptAll(s, env(i).sweeps);
      CountsReply(s', keys, i + 1, count + (if Alive(s', keys[i], env(i).now) then 1 else 0), env);
    }
  }

  lemma ExecAnswers(cmd: Command, s: Store, env: Env)
    requires KindOf(cmd.name).Some?
    ensures Answers(cmd, Exec(cmd, s, env).outcome)
  {
    var kind := KindOf(cmd.name).value;
    PlanAnswers(kind, cmd);
    hide Plan, Decide, KindOf;
    match Plan(kind, cmd)
    case OnKey(key) =>
      var s' := SweptAll(s, env(0).sweeps);
      DecideAnswers(kind, cmd, Lookup(s', key, env(0).now));
    case DelKeys(keys) => DelReplies(s, keys, 0, 0, env);
    case CountKeys(keys) => CountsReply(s, keys, 0, 0, env);
    case _ =>
  }

  lemma KnownReplyWireable(cmd: Command, s: Store, scene: Scene)
    requires KindOf(cmd.name).Some? && KindOf(cmd.name).value != Unmodelled
    requires var out := Exec(cmd, s, scene.env).outcome; !out.Throw? && Sized(ReplyValue(scene, cmd, out))
    ensures Wireable(ReplyValue(scene, cmd, Exec(cmd, s, scene.env).outcome))
  {
    var out := Exec(cmd, s, scene.env).outcome;
    ExecAnswers(cmd, s, scene.env);
    KnownIsOneLine(cmd.name);
    NotExternal(cmd, s, scene.env);
    hide Exec, KindOf, FaultText, OneLine, Sized;
    if out.Failed? {
      FaultCrlfFree(out.fault);
    } else {
      hide Wireable;
      RegularWireable(ReplyValue(scene, cmd, out));
    }
  }

  /** What the client is sent for a command; the text of an exception after "ERR ". */
  function ResponseTo(cfg: Config, scene: Scene, cmd: Command, out: Outcome): RespValue {
    if out.Throw? then Error("ERR " + cfg.thrown) else ReplyValue(scene, cmd, out)
  }

  lemma ThrownCrlfFree(text: Bytes)
    ensures CrlfFree("ERR " + text) <==> CrlfFree(text)
  {
    assert "ERR " + text + "" == "ERR " + text;
    assert OneLine("ERR ") && OneLine("");
    QuotedCrlfFree("ERR ", text, "");
  }

  /** One reply per command, for every command whose reply fits its headers. The bytes sent are
      exactly one value, except for an exception whose text holds a CRLF, for a reply that is not
      modelled and is not one value itself, and for an unknown command whose name, which the error
      text repeats, holds a CRLF; then, and only then, the client reads something else. */
  lemma OneReplyPerCommand(cfg: Config, cmd: Command, s: Store, scene: Scene)
    requires var out := Exec(cmd, s, scene.env).outcome; Sized(ResponseTo(cfg, scene, cmd, out))
    ensures var out := Exec(cmd, s, scene.env).outcome;
            Framed(ResponseTo(cfg, scene, cmd, out))
            <==> if out.Throw? then CrlfFree(cfg.thrown)
                 else if out.External? then Framed(scene.external(cmd))
                 else KindOf(cmd.name).Some? || CrlfFree(cmd.name)
  {
    var out := Exec(cmd, s, scene.env).outcome;
    if out.Throw? {
      ThrownCrlfFree(cfg.thrown);
      ErrorFramed("ERR " + cfg.thrown);
    } else if KindOf(cmd.name).None? {
      UnknownCrlfFree(cmd.name);
      ErrorFramed(FaultText(UnknownCommand(cmd.name)));
    } else if KindOf(cmd.name).value != Unmodelled {
      hide Exec, KindOf, Framed, Wireable, Sized, CrlfFree;
      NotExternal(cmd, s, scene.env);
      KnownReplyWireable(cmd, s, scene);
      WireableFramed(ReplyValue(scene, cmd, out));
    }
  }

  lemma NotExternal(cmd: Command, s: Store, env: Env)
    requires KindOf(cmd.name).Some? && KindOf(cmd.name).value != Unmodelled
    ensures !Exec(cmd, s, env).outcome.External?
  {
    var kind := KindOf(cmd.name).value;
    PlanNotExternal(kind, cmd);
    hide KindOf, Decide, Plan;
    match Plan(kind, cmd)
    case OnKey(key) =>
      var found := Lookup(SweptAll(s, env(0).sweeps), key, env(0).now);
      DecideNotExternal(kind, cmd, found);
    case DelKeys(keys) => DelReplies(s, keys, 0, 0, env);
    case CountKeys(keys) => CountsReply(s, keys, 0, 0, env);
    case _ =>
  }

  lemma PlanNotExternal(kind: Kind, cmd: Command)
    requires kind != Unmodelled
    ensures Plan(kind, cmd).NoAccess? ==> !Plan(kind, cmd).outcome.External?
  {
    hide ParseInt, OptionsOf;
  }

  lemma DecideNotExternal(kind: Kind, cmd: Command, found: Option<Value>)
    requires Plan(kind, cmd).OnKey?
    ensures !Decide(kind, cmd, found).outcome.External?
  {
    hide ParseInt, IntText, OptionsOf, PushFront, PutFields, SetOf, WithoutFields, RangeOf, IndexOf;
  }

  /** The smallest such name: its reply reads as another error, with bytes left over. */
  lemma CrlfNameSplitsReply(cfg: Config, s: Store, scene: Scene)
    ensures var cmd := Command(CRLF, []);
            Exec(cmd, s, scene.env).outcome == Failed(UnknownCommand(CRLF))
            && !Framed(ResponseTo(cfg, scene, cmd, Exec(cmd, s, scene.env).outcome))
  {
    var cmd := Command(CRLF, []);
    assert KindOf(CRLF) == None;
    assert CrlfAt(CRLF, 0);
    hide KindOf, Framed;
    assert Exec(cmd, s, scene.env).outcome == Failed(UnknownCommand(CRLF));
    hide FaultText;
    OneReplyPerCommand(cfg, cmd, s, scene);
  }
}
