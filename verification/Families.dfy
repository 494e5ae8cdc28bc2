/** Long-run behaviour of one key: counters are exact, collections conserve their elements.

    A key is followed through any run, with any sweeps, in which the commands that name it come
    from one family; other commands name other keys and do as they please. A key with a deadline
    is followed for as long as the deadline is not reached. */
module Families {
  import opened Bytes
  import opened Numbers
  import opened Names
  import opened Resp
  import opened Store
  import opened Commands
  import opened Runs
  import opened StoreTheorems

  // ---- one key through one command ---------------------------------------------------------

  /** The time in which a key is followed: any time at all, or between two readings of the clock. */
  datatype Span = AnyTime | Between(start: Time, end: Time)

  /** The entry had expired when the span began. */
  ghost predicate Gone(e: Entry, span: Span) {
    span.Between? && Expired(e, span.start)
  }

  /** The entry lasts beyond the span. */
  ghost predicate Lasts(e: Entry, span: Span) {
    e.deadline.None? || (span.Between? && span.end < e.deadline.value)
  }

  /** For the whole span the key is absent, or holds the value: it has no deadline, or one that
      lies after the span. */
  ghost predicate Holds(s: Store, key: Bytes, found: Option<Value>, span: Span) {
    match found
    case None => key !in s || Gone(s[key], span)
    case Some(v) => key in s && s[key].value == v && Lasts(s[key], span)
  }

  ghost predicate NotAfter(times: seq<Time>, span: Span) {
    span.Between? ==> forall i :: 0 <= i < |times| ==> times[i] <= span.end
  }

  /** The clock readings of a command lie in the span. Of a key without a deadline nothing is
      asked: any clock and any sweeps will do. */
  ghost predicate Meets(env: Env, span: Span) {
    span.Between? ==> forall i: nat :: span.start <= env(i).now <= span.end && NotAfter(env(i).sweeps, span)
  }

  ghost predicate MeetAll(steps: seq<Step>, span: Span) {
    forall i :: 0 <= i < |steps| ==> Meets(steps[i].env, span)
  }

  lemma OrderlyMeets(env: Env, start: Time, end: Time, span: Span)
    requires Orderly(env, start, end) && (span.Between? ==> span.start <= start && end <= span.end)
    ensures Meets(env, span)
  {
    forall i: nat ensures start <= env(i).now <= end && forall j :: 0 <= j < |env(i).sweeps| ==> env(i).sweeps[j] <= end {
      assert Ordered(env(i)) && After(env(i), start) && env(i).later <= end;
    }
  }

  /** A run in time, from its start to its end or later, meets the span. */
  lemma {:induction false} TimelyMeets(steps: seq<Step>, start: Time, span: Span)
    requires Timely(steps, start) && (span.Between? ==> span.start <= start && EndOf(steps, start) <= span.end)
    ensures MeetAll(steps, span)
    decreases |steps|
  {
    hide Orderly, Meets;
    if steps != [] {
      EndsLater(steps[1..], steps[0].end);
      OrderlyMeets(steps[0].env, start, steps[0].end, span);
      TimelyMeets(steps[1..], steps[0].end, span);
      forall i | 0 <= i < |steps| ensures Meets(steps[i].env, span) {
        if i > 0 { assert steps[i] == steps[1..][i - 1]; }
      }
    }
  }

  lemma {:induction false} SweptHolds(s: Store, times: seq<Time>, key: Bytes, found: Option<Value>, span: Span)
    requires Holds(s, key, found, span) && NotAfter(times, span)
    ensures Holds(SweptAll(s, times), key, found, span)
    decreases |times|
  {
    if times != [] {
      SweptHolds(Swept(s, times[0]), times[1..], key, found, span);
    }
  }

  function Next(found: Option<Value>, write: Write): Option<Value> {
    match write
    case Keep => found
    case Put(value, _) => Some(value)
    case Drop => None
  }

  /** The command reads and writes this one key, without a time to live. */
  ghost predicate Works(cmd: Command, kind: Kind, key: Bytes) {
    KindOf(cmd.name) == Some(kind) && Plan(kind, cmd) == OnKey(key) && kind != SetKey
  }

  lemma NoTtl(kind: Kind, cmd: Command, found: Option<Value>)
    requires Plan(kind, cmd).OnKey? && kind != SetKey
    ensures var w := Decide(kind, cmd, found).write; w.Put? ==> w.millis == 0
  {
    hide ParseInt, IntText, OptionsOf, PushFront, PutFields, SetOf, WithoutFields, RangeOf, IndexOf;
  }

  /** Whatever the clock and the sweeps do, the command decides on the held value. */
  lemma KeyStep(cmd: Command, kind: Kind, s: Store, env: Env, key: Bytes, found: Option<Value>, span: Span)
    requires Works(cmd, kind, key) && Holds(s, key, found, span) && Meets(env, span)
    ensures var d := Decide(kind, cmd, found);
            var r := Exec(cmd, s, env);
            r.outcome == d.outcome && Holds(r.store, key, Next(found, d.write), span)
  {
    hide KindOf, Plan, Decide;
    var s' := SweptAll(s, env(0).sweeps);
    SweptHolds(s, env(0).sweeps, key, found, span);
    SweptHolds(s', env(1).sweeps, key, found, span);
    NoTtl(kind, cmd, found);
    assert Lookup(s', key, env(0).now) == found;
  }

  /** The value that the key holds when the span begins. */
  ghost function At(s: Store, key: Bytes, span: Span): Option<Value> {
    if key in s && !Gone(s[key], span) then Some(s[key].value) else None
  }

  lemma HeldIsAt(s: Store, key: Bytes, found: Option<Value>, env: Env, span: Span)
    requires Holds(s, key, found, span) && Meets(env, span)
    ensures At(s, key, span) == found
  {
    assert span.Between? ==> span.start <= env(0).now <= span.end;
  }

  lemma {:induction false} DelHolds(s: Store, keys: seq<Bytes>, i: nat, count: int, env: Env,
                                    key: Bytes, found: Option<Value>, span: Span)
    requires i <= |keys| && key !in keys && Holds(s, key, found, span) && Meets(env, span)
    ensures Holds(DelFrom(s, keys, i, count, env).store, key, found, span)
    decreases |keys| - i
  {
    if i < |keys| {
      var s' := SweptAll(s, env(i).sweeps);
      SweptHolds(s, env(i).sweeps, key, found, span);
      DelHolds(s' - {keys[i]}, keys, i + 1, count + (if Alive(s', keys[i], env(i).now) then 1 else 0), env, key, found, span);
    }
  }

  lemma {:induction false} CountHolds(s: Store, keys: seq<Bytes>, i: nat, count: int, env: Env,
                                      key: Bytes, found: Option<Value>, span: Span)
    requires i <= |keys| && Holds(s, key, found, span) && Meets(env, span)
    ensures Holds(CountFrom(s, keys, i, count, env).store, key, found, span)
    decreases |keys| - i
  {
    if i < |keys| {
      var s' := SweptAll(s, env(i).sweeps);
      SweptHolds(s, env(i).sweeps, key, found, span);
      CountHolds(s', keys, i + 1, count + (if Alive(s', keys[i], env(i).now) then 1 else 0), env, key, found, span);
    }
  }

  /** A command that does not name the key leaves it alone. */
  lemma OthersHold(cmd: Command, s: Store, env: Env, key: Bytes, found: Option<Value>, span: Span)
    requires key !in KeysOf(cmd) && Holds(s, key, found, span) && Meets(env, span)
    ensures Holds(Exec(cmd, s, env).store, key, found, span)
  {
    hide KindOf, Plan, Decide;
    if KindOf(cmd.name).Some? {
      var s' := SweptAll(s, env(0).sweeps);
      SweptHolds(s, env(0).sweeps, key, found, span);
      SweptHolds(s', env(1).sweeps, key, found, span);
      match Plan(KindOf(cmd.name).value, cmd)
      case DelKeys(keys) => DelHolds(s, keys, 0, 0, env, key, found, span);
      case CountKeys(keys) => CountHolds(s, keys, 0, 0, env, key, found, span);
      case _ =>
    }
  }

  // ---- counters ----------------------------------------------------------------------------

  predicate CounterName(name: Bytes) {
    name == "INCR" || name == "DECR" || name == "INCRBY" || name == "DECRBY"
  }

  /** The change a counter command asks for; none if it is malformed. */
  function Asked(cmd: Command): Option<int> {
    if cmd.name == "INCR" then if |cmd.args| == 1 then Some(1) else None
    else if cmd.name == "DECR" then if |cmd.args| == 1 then Some(-1) else None
    else if |cmd.args| != 2 || ParseInt(cmd.args[1]).None? then None
    else if cmd.name == "INCRBY" then Some(ParseInt(cmd.args[1]).value)
    else if cmd.name == "DECRBY" then Some(-ParseInt(cmd.args[1]).value)
    else None
  }

  /** A counter command on the key, malformed or not, or a command that names other keys. */
  ghost predicate CounterStep(cmd: Command, key: Bytes) {
    key !in KeysOf(cmd) || CounterName(cmd.name)
  }

  ghost predicate OnCounter(cmd: Command, key: Bytes) {
    Asked(cmd).Some? && cmd.args[0] == key
  }

  /** The key is absent, or holds a text that reads as this number, canonical or not. */
  ghost predicate Counts(s: Store, key: Bytes, total: int, span: Span) {
    var found := At(s, key, span);
    && Holds(s, key, found, span)
    && (if found.None? then total == 0 else found.value.Str? && ParseInt(found.value.data) == Some(total))
  }

  /** A request succeeds exactly when the exact result is an int64, except that a request
      for +2^63, which DECRBY of -2^63 is, is always refused. */
  ghost predicate Grants(total: int, asked: int) {
    IsInt64(total + asked) && asked <= INT64_MAX
  }

  lemma AddExact(found: Option<Value>, total: int, delta: int)
    requires IsInt64(delta)
    requires if found.None? then total == 0 else found.value.Str? && ParseInt(found.value.data) == Some(total)
    ensures Add(found, delta)
            == if IsInt64(total + delta)
               then Decision(Reply(Integer(total + delta)), Put(Str(IntText(total + delta)), 0))
               else Refuse(WouldOverflow)
  {
    hide ParseInt, IntText;
  }

  lemma PlanOfCounter(cmd: Command)
    requires CounterName(cmd.name)
    ensures KindOf(cmd.name).Some?
    ensures var kind := KindOf(cmd.name).value;
            Asked(cmd).Some? && Asked(cmd).value <= INT64_MAX ==>
              && kind != SetKey && Plan(kind, cmd) == OnKey(cmd.args[0]) && IsInt64(Asked(cmd).value)
              && forall found :: Decide(kind, cmd, found) == Add(found, Asked(cmd).value)
    ensures var kind := KindOf(cmd.name).value;
            Asked(cmd).None? || Asked(cmd).value > INT64_MAX ==>
              && Plan(kind, cmd).NoAccess? && Plan(kind, cmd).outcome.Failed?
              && (Asked(cmd).Some? ==> Plan(kind, cmd).outcome == Failed(WouldOverflow))
  {
    StringNames();
    hide KindOf, ParseInt, Add;
  }

  /** One request on a counter. */
  lemma CounterExact(cmd: Command, s: Store, env: Env, key: Bytes, total: int, span: Span)
    requires OnCounter(cmd, key) && Counts(s, key, total, span) && Meets(env, span)
    ensures var r := Exec(cmd, s, env);
            var asked := Asked(cmd).value;
            if Grants(total, asked)
            then r.outcome == Reply(Integer(total + asked)) && Holds(r.store, key, Some(Str(IntText(total + asked))), span)
            else r.outcome == Failed(WouldOverflow) && Holds(r.store, key, At(s, key, span), span)
  {
    hide KindOf, ParseInt, Plan, Decide, Add, IntText;
    PlanOfCounter(cmd);
    var kind := KindOf(cmd.name).value;
    var found := At(s, key, span);
    if Asked(cmd).value <= INT64_MAX {
      KeyStep(cmd, kind, s, env, key, found, span);
      AddExact(found, total, Asked(cmd).value);
    }
  }

  /** Whether the request was granted or refused, the key counts on from the new total. */
  lemma CounterCounts(cmd: Command, s: Store, env: Env, key: Bytes, total: int, span: Span)
    requires OnCounter(cmd, key) && Counts(s, key, total, span) && Meets(env, span)
    ensures var r := Exec(cmd, s, env);
            var granted := Grants(total, Asked(cmd).value);
            && granted == r.outcome.Reply?
            && Counts(r.store, key, if granted then total + Asked(cmd).value else total, span)
            && At(r.store, key, span) == if granted then Some(Str(IntText(total + Asked(cmd).value))) else At(s, key, span)
  {
    CounterExact(cmd, s, env, key, total, span);
    PrintParse(total + Asked(cmd).value);
    hide Exec, KindOf, ParseInt, IntText, Asked, At, Holds, Meets;
    var r := Exec(cmd, s, env);
    if Grants(total, Asked(cmd).value) {
      HeldIsAt(r.store, key, Some(Str(IntText(total + Asked(cmd).value))), env, span);
    } else {
      HeldIsAt(r.store, key, At(s, key, span), env, span);
    }
  }

  lemma AddToText(text: Bytes, delta: int)
    requires forall n :: !DenotesInt64(text, n)
    ensures Add(Some(Str(text)), delta) == Refuse(NotAnInteger)
  {
    hide ParseInt, DenotesInt64;
    if ParseInt(text).Some? {
      ParseMeaning(text, ParseInt(text).value);
    }
  }

  /** A stored text that denotes no int64 is not counted on: the step is refused and the text stays. */
  lemma NotANumberRefused(cmd: Command, s: Store, env: Env, key: Bytes, text: Bytes, span: Span)
    requires OnCounter(cmd, key) && Holds(s, key, Some(Str(text)), span) && Meets(env, span)
    requires forall n :: !DenotesInt64(text, n)
    ensures var r := Exec(cmd, s, env);
            && r.outcome == Failed(if Asked(cmd).value > INT64_MAX then WouldOverflow else NotAnInteger)
            && Holds(r.store, key, Some(Str(text)), span)
  {
    hide KindOf, ParseInt, Plan, Decide, Add, DenotesInt64;
    PlanOfCounter(cmd);
    AddToText(text, Asked(cmd).value);
    if Asked(cmd).value <= INT64_MAX {
      KeyStep(cmd, KindOf(cmd.name).value, s, env, key, Some(Str(text)), span);
    }
  }

  /** An amount that denotes no int64 is refused, and nothing changes but by sweeps. */
  lemma BadAmountRefused(cmd: Command, s: Store, env: Env)
    requires (cmd.name == "INCRBY" || cmd.name == "DECRBY") && |cmd.args| == 2
    requires forall n :: !DenotesInt64(cmd.args[1], n)
    ensures Exec(cmd, s, env) == Executed(Failed(NotAnInteger), s)
  {
    if ParseInt(cmd.args[1]).Some? {
      ParseMeaning(cmd.args[1], ParseInt(cmd.args[1]).value);
    }
    StringNames();
    hide KindOf, ParseInt, DenotesInt64, Plan;
    AmountPlan(cmd);
  }

  lemma AmountPlan(cmd: Command)
    requires |cmd.args| == 2 && ParseInt(cmd.args[1]) == None
    ensures Plan(IncrBy, cmd) == Plan(DecrBy, cmd) == NoAccess(Failed(NotAnInteger))
  {
    hide ParseInt;
  }

  /** The sum of what was asked for on the key and granted, as the replies show. */
  ghost function Granted(cmds: seq<Step>, outcomes: seq<Outcome>, key: Bytes): int
    requires |cmds| == |outcomes|
  {
    if cmds == [] then 0
    else
      (if OnCounter(cmds[0].cmd, key) && outcomes[0].Reply? then Asked(cmds[0].cmd).value else 0)
      + Granted(cmds[1..], outcomes[1..], key)
  }

  lemma {:induction false} OutcomesSize(s: Store, steps: seq<Step>)
    ensures |RunOutcomes(s, steps)| == |steps|
    decreases |steps|
  {
    hide Exec;
    if steps != [] {
      OutcomesSize(Exec(steps[0].cmd, s, steps[0].env).store, steps[1..]);
    }
  }

  lemma MalformedHolds(cmd: Command, s: Store, env: Env, key: Bytes, total: int, span: Span)
    requires CounterStep(cmd, key) && !OnCounter(cmd, key) && Counts(s, key, total, span) && Meets(env, span)
    ensures Counts(Exec(cmd, s, env).store, key, total, span)
    ensures At(Exec(cmd, s, env).store, key, span) == At(s, key, span)
  {
    hide KindOf, ParseInt, Plan, Decide;
    var found := At(s, key, span);
    if CounterName(cmd.name) {
      PlanOfCounter(cmd);
    }
    OthersHold(cmd, s, env, key, found, span);
    hide Exec;
    HeldIsAt(Exec(cmd, s, env).store, key, found, env, span);
  }

  lemma SameText(s1: Store, s2: Store, key: Bytes, total1: int, total2: int, span: Span)
    requires Counts(s1, key, total1, span) && Counts(s2, key, total2, span) && At(s1, key, span) == At(s2, key, span)
    ensures total1 == total2
  {
  }

  /** Counter exactness: after any run of counter commands on a key, it counts what it started from
      plus exactly the granted requests; its text is the canonical decimal of that, or the text it
      started with when none was granted. */
  lemma {:induction false} CounterRun(s: Store, steps: seq<Step>, key: Bytes, total: int, span: Span)
    requires Counts(s, key, total, span) && MeetAll(steps, span)
    requires forall i :: 0 <= i < |steps| ==> CounterStep(steps[i].cmd, key)
    ensures |RunOutcomes(s, steps)| == |steps|
    ensures var total', s' := total + Granted(steps, RunOutcomes(s, steps), key), RunStore(s, steps);
            && Counts(s', key, total', span)
            && (At(s', key, span) == Some(Str(IntText(total'))) || At(s', key, span) == At(s, key, span))
    decreases |steps|
  {
    hide Exec, KindOf, ParseInt, KeysOf, Asked, IntText, At, Counts, Meets;
    OutcomesSize(s, steps);
    if steps != [] {
      var cmd, env := steps[0].cmd, steps[0].env;
      var r := Exec(cmd, s, env);
      var total' := total;
      if OnCounter(cmd, key) {
        CounterCounts(cmd, s, env, key, total, span);
        if Grants(total, Asked(cmd).value) {
          total' := total + Asked(cmd).value;
        }
      } else {
        MalformedHolds(cmd, s, env, key, total, span);
      }
      CounterRun(r.store, steps[1..], key, total', span);
      assert RunOutcomes(s, steps)[1..] == RunOutcomes(r.store, steps[1..]);
      var s' := RunStore(s, steps);
      if At(s', key, span) == At(r.store, key, span) {
        SameText(r.store, s', key, total', total + Granted(steps, RunOutcomes(s, steps), key), span);
      }
    }
  }

  // ---- collections: the shared run ------------------------------------------------------------

  /** The command works on the key, with a kind of the given family. */
  ghost predicate WorksIn(cmd: Command, key: Bytes, family: Kind -> bool) {
    KindOf(cmd.name).Some? && family(KindOf(cmd.name).value) && Plan(KindOf(cmd.name).value, cmd) == OnKey(key)
  }

  /** Only the family names the key. */
  ghost predicate InFamily(cmd: Command, key: Bytes, family: Kind -> bool) {
    key !in KeysOf(cmd) || WorksIn(cmd, key, family)
  }

  // ---- lists -----------------------------------------------------------------------------------

  function ListOf(found: Option<Value>): seq<Bytes> {
    if found.Some? && found.value.List? then found.value.elements else []
  }

  function FoundList(list: seq<Bytes>): Option<Value> {
    if list == [] then None else Some(List(list))
  }

  /** What a list command on the key brings in, and what its reply shows it took out. */
  ghost function Pushed(cmd: Command, key: Bytes): multiset<Bytes> {
    if WorksIn(cmd, key, ListKind) && (KindOf(cmd.name).value.LPush? || KindOf(cmd.name).value.RPush?)
    then multiset(cmd.args[1..]) else multiset{}
  }

  ghost function Popped(cmd: Command, outcome: Outcome, key: Bytes): multiset<Bytes> {
    if WorksIn(cmd, key, ListKind) then Out(KindOf(cmd.name).value, outcome) else multiset{}
  }

  lemma {:induction false} PushFrontMultiset(list: seq<Bytes>, items: seq<Bytes>)
    ensures multiset(PushFront(list, items)) == multiset(list) + multiset(items)
    decreases |items|
  {
    if items != [] {
      PushFrontMultiset([items[0]] + list, items[1..]);
      assert items == [items[0]] + items[1..];
    }
  }

  /** LPUSH leaves its arguments in front, the last one first. */
  lemma {:induction false} PushFrontReverses(list: seq<Bytes>, items: seq<Bytes>, i: nat)
    requires i < |list| + |items|
    ensures |PushFront(list, items)| == |list| + |items|
    ensures PushFront(list, items)[i] == if i < |items| then items[|items| - 1 - i] else list[i - |items|]
    decreases |items|
  {
    if items != [] {
      PushFrontReverses([items[0]] + list, items[1..], i);
    }
  }

  /** The balance of one decision: stored afterwards and taken out, stored before and brought in. */
  ghost predicate Balanced(kind: Kind, args: seq<Bytes>, list: seq<Bytes>, d: Decision)
    requires |args| > 0
  {
    var next := Next(FoundList(list), d.write);
    && next == FoundList(ListOf(next))
    && multiset(ListOf(next)) + Out(kind, d.outcome)
       == multiset(list) + (if kind.LPush? || kind.RPush? then multiset(args[1..]) else multiset{})
  }

  ghost function Out(kind: Kind, outcome: Outcome): multiset<Bytes> {
    if (kind.LPop? || kind.RPop?) && outcome.Reply? && outcome.value.BulkString?
    then multiset{outcome.value.data} else multiset{}
  }

  lemma PushDecision(kind: Kind, args: seq<Bytes>, list: seq<Bytes>)
    requires (kind == LPush || kind == RPush) && |args| >= 2
    ensures var list' := if kind == LPush then PushFront(list, args[1..]) else list + args[1..];
            DecideList(kind, args, FoundList(list)) == Decision(Reply(Integer(|list'|)), Put(List(list'), 0))
  {
    hide PushFront;
  }

  lemma GainBalanced(kind: Kind, args: seq<Bytes>, list: seq<Bytes>, list': seq<Bytes>)
    requires (kind == LPush || kind == RPush) && |args| >= 2 && list' != []
    requires multiset(list') == multiset(list) + multiset(args[1..])
    ensures Balanced(kind, args, list, Decision(Reply(Integer(|list'|)), Put(List(list'), 0)))
  {
  }

  lemma PushBalanced(kind: Kind, args: seq<Bytes>, list: seq<Bytes>)
    requires (kind == LPush || kind == RPush) && |args| >= 2
    ensures Balanced(kind, args, list, DecideList(kind, args, FoundList(list)))
  {
    hide PushFront, DecideList, Balanced;
    PushDecision(kind, args, list);
    PushFrontMultiset(list, args[1..]);
    PushFrontSize(list, args[1..]);
    GainBalanced(kind, args, list, if kind == LPush then PushFront(list, args[1..]) else list + args[1..]);
  }

  lemma PopDecision(kind: Kind, args: seq<Bytes>, list: seq<Bytes>)
    requires (kind == LPop || kind == RPop) && |args| == 1 && list != []
    ensures var last := |list| - 1;
            DecideList(kind, args, FoundList(list))
            == if kind == LPop then Decision(Reply(BulkString(list[0])), PutOrDrop(List(list[1..]), last == 0))
               else Decision(Reply(BulkString(list[last])), PutOrDrop(List(list[..last]), last == 0))
  {
  }

  lemma TakeBalanced(kind: Kind, args: seq<Bytes>, list: seq<Bytes>, element: Bytes, rest: seq<Bytes>)
    requires (kind == LPop || kind == RPop) && |args| == 1 && list != []
    requires multiset(list) == multiset(rest) + multiset{element}
    ensures Balanced(kind, args, list, Decision(Reply(BulkString(element)), PutOrDrop(List(rest), rest == [])))
  {
  }

  lemma PopBalanced(kind: Kind, args: seq<Bytes>, list: seq<Bytes>)
    requires (kind == LPop || kind == RPop) && |args| == 1
    ensures Balanced(kind, args, list, DecideList(kind, args, FoundList(list)))
  {
    if list != [] {
      PopDecision(kind, args, list);
      hide DecideList, Balanced;
      var last := |list| - 1;
      if kind == LPop {
        assert list == [list[0]] + list[1..];
        TakeBalanced(kind, args, list, list[0], list[1..]);
      } else {
        assert list == list[..last] + [list[last]];
        TakeBalanced(kind, args, list, list[last], list[..last]);
      }
    }
  }

  lemma ReadBalanced(kind: Kind, args: seq<Bytes>, list: seq<Bytes>)
    requires (kind == LLen || kind == LRange || kind == LIndex) && ListArity(kind, args)
    ensures Balanced(kind, args, list, DecideList(kind, args, FoundList(list)))
  {
    hide ParseInt, RangeOf, IndexOf;
  }

  lemma ListBalanced(kind: Kind, args: seq<Bytes>, list: seq<Bytes>)
    requires ListKind(kind) && ListArity(kind, args)
    ensures Balanced(kind, args, list, DecideList(kind, args, FoundList(list)))
  {
    hide Balanced, DecideList;
    match kind
    case LPush => PushBalanced(kind, args, list);
    case RPush => PushBalanced(kind, args, list);
    case LPop => PopBalanced(kind, args, list);
    case RPop => PopBalanced(kind, args, list);
    case _ => ReadBalanced(kind, args, list);
  }

  /** LLEN answers the number of stored elements. */
  lemma LengthDecision(args: seq<Bytes>, list: seq<Bytes>)
    requires |args| == 1
    ensures DecideList(LLen, args, FoundList(list)) == Answer(Integer(|list|))
  {
  }

  ghost predicate HoldsList(s: Store, key: Bytes, span: Span) {
    Holds(s, key, FoundList(ListOf(At(s, key, span))), span)
  }

  lemma ListKeyStep(cmd: Command, kind: Kind, s: Store, env: Env, key: Bytes, list: seq<Bytes>, span: Span)
    requires Works(cmd, kind, key) && ListKind(kind) && Holds(s, key, FoundList(list), span) && Meets(env, span)
    ensures ListArity(kind, cmd.args)
    ensures var d := DecideList(kind, cmd.args, FoundList(list));
            var r := Exec(cmd, s, env);
            r.outcome == d.outcome && Holds(r.store, key, Next(FoundList(list), d.write), span)
  {
    hide KindOf, DecideList, Exec, Plan, Decide, Holds;
    ListPlan(kind, cmd, FoundList(list));
    KeyStep(cmd, kind, s, env, key, FoundList(list), span);
  }

  lemma WorkingListConserves(cmd: Command, s: Store, env: Env, key: Bytes, span: Span)
    requires WorksIn(cmd, key, ListKind) && HoldsList(s, key, span) && Meets(env, span)
    ensures var r := Exec(cmd, s, env);
            && HoldsList(r.store, key, span)
            && multiset(ListOf(At(r.store, key, span))) + Popped(cmd, r.outcome, key)
               == multiset(ListOf(At(s, key, span))) + Pushed(cmd, key)
  {
    hide KindOf, DecideList, Exec, Plan, Decide, At, Holds, Meets, ListOf, FoundList;
    var kind, list := KindOf(cmd.name).value, ListOf(At(s, key, span));
    ListKeyStep(cmd, kind, s, env, key, list, span);
    ListBalanced(kind, cmd.args, list);
    var next := Next(FoundList(list), DecideList(kind, cmd.args, FoundList(list)).write);
    HeldIsAt(Exec(cmd, s, env).store, key, next, env, span);
  }

  lemma ListConserves(cmd: Command, s: Store, env: Env, key: Bytes, span: Span)
    requires InFamily(cmd, key, ListKind) && HoldsList(s, key, span) && Meets(env, span)
    ensures var r := Exec(cmd, s, env);
            && HoldsList(r.store, key, span)
            && multiset(ListOf(At(r.store, key, span))) + Popped(cmd, r.outcome, key)
               == multiset(ListOf(At(s, key, span))) + Pushed(cmd, key)
  {
    hide KindOf, Exec, Plan;
    if WorksIn(cmd, key, ListKind) {
      WorkingListConserves(cmd, s, env, key, span);
    } else {
      hide At, Holds, Meets;
      var found := FoundList(ListOf(At(s, key, span)));
      OthersHold(cmd, s, env, key, found, span);
      HeldIsAt(s, key, found, env, span);
      HeldIsAt(Exec(cmd, s, env).store, key, found, env, span);
    }
  }

  ghost function PushedAll(steps: seq<Step>, key: Bytes): multiset<Bytes> {
    if steps == [] then multiset{} else Pushed(steps[0].cmd, key) + PushedAll(steps[1..], key)
  }

  ghost function PoppedAll(steps: seq<Step>, outcomes: seq<Outcome>, key: Bytes): multiset<Bytes>
    requires |steps| == |outcomes|
  {
    if steps == [] then multiset{} else Popped(steps[0].cmd, outcomes[0], key) + PoppedAll(steps[1..], outcomes[1..], key)
  }

  lemma Ledger(a: multiset<Bytes>, b: multiset<Bytes>, c: multiset<Bytes>, in1: multiset<Bytes>, in2: multiset<Bytes>,
               out1: multiset<Bytes>, out2: multiset<Bytes>)
    requires b + out1 == a + in1 && c + out2 == b + in2
    ensures c + (out1 + out2) == a + (in1 + in2)
  {
    assert c + (out1 + out2) == (c + out2) + out1;
    assert (b + in2) + out1 == (b + out1) + in2;
    assert (a + in1) + in2 == a + (in1 + in2);
  }

  /** Conservation of lists: over any run, what is stored plus what the pop replies carried
      away is what was stored plus what was pushed, element by element. */
  lemma {:induction false} ListRun(s: Store, steps: seq<Step>, key: Bytes, span: Span)
    requires HoldsList(s, key, span) && MeetAll(steps, span)
    requires forall i :: 0 <= i < |steps| ==> InFamily(steps[i].cmd, key, ListKind)
    ensures |RunOutcomes(s, steps)| == |steps|
    ensures HoldsList(RunStore(s, steps), key, span)
    ensures multiset(ListOf(At(RunStore(s, steps), key, span))) + PoppedAll(steps, RunOutcomes(s, steps), key)
            == multiset(ListOf(At(s, key, span))) + PushedAll(steps, key)
    decreases |steps|
  {
    hide Exec, Popped, Pushed, HoldsList, ListOf, InFamily;
    OutcomesSize(s, steps);
    if steps != [] {
      var r := Exec(steps[0].cmd, s, steps[0].env);
      ListConserves(steps[0].cmd, s, steps[0].env, key, span);
      ListRun(r.store, steps[1..], key, span);
      assert RunOutcomes(s, steps)[1..] == RunOutcomes(r.store, steps[1..]);
      Ledger(multiset(ListOf(At(s, key, span))), multiset(ListOf(At(r.store, key, span))),
             multiset(ListOf(At(RunStore(s, steps), key, span))),
             Pushed(steps[0].cmd, key), PushedAll(steps[1..], key),
             Popped(steps[0].cmd, r.outcome, key), PoppedAll(steps[1..], RunOutcomes(r.store, steps[1..]), key));
    }
  }

  lemma PushOneDecision(left: bool, args: seq<Bytes>, list: seq<Bytes>, key: Bytes, x: Bytes)
    requires args == [key, x]
    ensures DecideList(if left then LPush else RPush, args, FoundList(list)).write
            == Put(List(if left then [x] + list else list + [x]), 0)
  {
    PushDecision(if left then LPush else RPush, args, list);
    hide DecideList;
    assert args[1..] == [x] && [x][1..] == [];
    assert PushFront(list, [x]) == PushFront([x] + list, []);
  }

  lemma PopOneDecision(left: bool, args: seq<Bytes>, list: seq<Bytes>, x: Bytes)
    requires |args| == 1
    ensures DecideList(if left then LPop else RPop, args, FoundList(if left then [x] + list else list + [x]))
            == Decision(Reply(BulkString(x)), PutOrDrop(List(list), list == []))
  {
    var list' := if left then [x] + list else list + [x];
    PopDecision(if left then LPop else RPop, args, list');
    hide DecideList;
    assert ([x] + list)[1..] == list && (list + [x])[..|list|] == list;
  }

  /** A pop undoes a push at the same end, under any clock and sweeps. */
  lemma PushPopInverse(push: Command, pop: Command, left: bool, x: Bytes, s: Store, e1: Env, e2: Env, key: Bytes, span: Span)
    requires HoldsList(s, key, span) && Meets(e1, span) && Meets(e2, span)
    requires Works(push, if left then LPush else RPush, key) && push.args == [key, x]
    requires Works(pop, if left then LPop else RPop, key)
    ensures var pushed := Exec(push, s, e1).store;
            var r := Exec(pop, pushed, e2);
            && r.outcome == Reply(BulkString(x))
            && Holds(r.store, key, FoundList(ListOf(At(s, key, span))), span)
  {
    hide Exec, KindOf, Plan, Decide, DecideList, Works, Holds;
    var list := ListOf(At(s, key, span));
    var list' := if left then [x] + list else list + [x];
    ListKeyStep(push, if left then LPush else RPush, s, e1, key, list, span);
    PushOneDecision(left, push.args, list, key, x);
    ListKeyStep(pop, if left then LPop else RPop, Exec(push, s, e1).store, e2, key, list', span);
    PopOneDecision(left, pop.args, list, x);
  }

  /** A pop takes what LINDEX shows at its end: position 0 on the left, -1 on the right. */
  lemma PopTakesTheEnd(args: seq<Bytes>, list: seq<Bytes>, left: bool)
    requires |args| == 1 && list != []
    ensures IndexOf(list, if left then 0 else -1).Some?
    ensures DecideList(if left then LPop else RPop, args, FoundList(list)).outcome
            == Reply(BulkString(IndexOf(list, if left then 0 else -1).value))
  {
    PopDecision(if left then LPop else RPop, args, list);
    hide DecideList;
  }

  lemma Sizes(s: seq<Bytes>, m: multiset<Bytes>)
    ensures |multiset(s) + m| == |s| + |m|
  {
  }

  /** After any run, LLEN answers what was there plus the pushed minus the popped. */
  lemma LengthReported(s: Store, steps: seq<Step>, key: Bytes, llen: Command, env: Env, span: Span)
    requires HoldsList(s, key, span) && Works(llen, LLen, key) && Meets(env, span) && MeetAll(steps, span)
    requires forall i :: 0 <= i < |steps| ==> InFamily(steps[i].cmd, key, ListKind)
    ensures |RunOutcomes(s, steps)| == |steps|
    ensures Exec(llen, RunStore(s, steps), env).outcome
            == Reply(Integer(|ListOf(At(s, key, span))| + |PushedAll(steps, key)| - |PoppedAll(steps, RunOutcomes(s, steps), key)|))
  {
    hide Exec, KindOf, Plan, Decide, DecideList, RunStore, RunOutcomes, PushedAll, PoppedAll, Works, InFamily, ListOf;
    ListRun(s, steps, key, span);
    var s' := RunStore(s, steps);
    var list := ListOf(At(s', key, span));
    ListKeyStep(llen, LLen, s', env, key, list, span);
    LengthDecision(llen.args, list);
    var pushed, popped := PushedAll(steps, key), PoppedAll(steps, RunOutcomes(s, steps), key);
    Sizes(list, popped);
    Sizes(ListOf(At(s, key, span)), pushed);
  }

  // ---- sets ------------------------------------------------------------------------------------

  function MembersOf(found: Option<Value>): set<Bytes> {
    if found.Some? && found.value.Set? then found.value.members else {}
  }

  function FoundSet(members: set<Bytes>): Option<Value> {
    if members == {} then None else Some(Set(members))
  }

  lemma {:induction false} SetOfMember(items: seq<Bytes>, x: Bytes)
    ensures x in SetOf(items) <==> x in items
    decreases |items|
  {
    if items != [] {
      SetOfMember(items[..|items| - 1], x);
      assert items == items[..|items| - 1] + [items[|items| - 1]];
    }
  }

  /** Whether a command of this kind leaves `x` in the set that had it or not. */
  ghost predicate Says(kind: Kind, args: seq<Bytes>, x: Bytes, before: bool)
    requires |args| > 0
  {
    if kind.SAdd? && x in args[1..] then true
    else if kind.SRem? && x in args[1..] then false
    else before
  }

  /** What the reply reports as gained or lost. */
  ghost function Gain(kind: Kind, outcome: Outcome): int {
    if outcome.Reply? && outcome.value.Integer? then
      if kind.SAdd? || kind.HSet? then outcome.value.number
      else if kind.SRem? || kind.HDel? then -outcome.value.number
      else 0
    else 0
  }

  ghost predicate SetStepOk(kind: Kind, args: seq<Bytes>, members: set<Bytes>, d: Decision)
    requires |args| > 0
  {
    var next := Next(FoundSet(members), d.write);
    && next == FoundSet(MembersOf(next))
    && |MembersOf(next)| == |members| + Gain(kind, d.outcome)
    && (forall x :: x in MembersOf(next) <==> Says(kind, args, x, x in members))
  }

  lemma AddOk(args: seq<Bytes>, members: set<Bytes>)
    requires |args| >= 2
    ensures SetStepOk(SAdd, args, members, DecideSet(SAdd, args, FoundSet(members)))
  {
    var members' := members + SetOf(args[1..]);
    SetOfInhabited(args[1..]);
    forall x ensures x in members' <==> Says(SAdd, args, x, x in members) {
      SetOfMember(args[1..], x);
    }
    hide SetOf;
    assert DecideSet(SAdd, args, FoundSet(members)) == Decision(Reply(Integer(|members'| - |members|)), Put(Set(members'), 0));
  }

  lemma RemoveOk(args: seq<Bytes>, members: set<Bytes>)
    requires |args| >= 2
    ensures SetStepOk(SRem, args, members, DecideSet(SRem, args, FoundSet(members)))
  {
    var members' := members - SetOf(args[1..]);
    forall x ensures x in members' <==> Says(SRem, args, x, x in members) {
      SetOfMember(args[1..], x);
    }
    hide SetOf;
    if members != {} {
      assert DecideSet(SRem, args, FoundSet(members))
             == Decision(Reply(Integer(|members| - |members'|)), PutOrDrop(Set(members'), members' == {}));
    }
  }

  lemma SetDecisionOk(kind: Kind, args: seq<Bytes>, members: set<Bytes>)
    requires SetKind(kind) && SetArity(kind, args)
    ensures SetStepOk(kind, args, members, DecideSet(kind, args, FoundSet(members)))
  {
    if kind == SAdd {
      AddOk(args, members);
    } else if kind == SRem {
      RemoveOk(args, members);
    }
  }

  ghost predicate HoldsSet(s: Store, key: Bytes, span: Span) {
    Holds(s, key, FoundSet(MembersOf(At(s, key, span))), span)
  }

  ghost predicate SaysAt(cmd: Command, key: Bytes, x: Bytes, before: bool) {
    if WorksIn(cmd, key, SetKind) then Says(KindOf(cmd.name).value, cmd.args, x, before) else before
  }

  ghost function GainAt(cmd: Command, outcome: Outcome, key: Bytes, family: Kind -> bool): int {
    if WorksIn(cmd, key, family) then Gain(KindOf(cmd.name).value, outcome) else 0
  }

  lemma SetConserves(cmd: Command, s: Store, env: Env, key: Bytes, span: Span)
    requires InFamily(cmd, key, SetKind) && HoldsSet(s, key, span) && Meets(env, span)
    ensures var r := Exec(cmd, s, env);
            var members, members' := MembersOf(At(s, key, span)), MembersOf(At(r.store, key, span));
            && HoldsSet(r.store, key, span)
            && |members'| == |members| + GainAt(cmd, r.outcome, key, SetKind)
            && forall x :: x in members' <==> SaysAt(cmd, key, x, x in members)
  {
    hide KindOf, Exec, Plan, Decide, DecideSet, At, Holds, Meets;
    var members := MembersOf(At(s, key, span));
    if WorksIn(cmd, key, SetKind) {
      var kind := KindOf(cmd.name).value;
      SetPlan(kind, cmd, FoundSet(members));
      KeyStep(cmd, kind, s, env, key, FoundSet(members), span);
      SetDecisionOk(kind, cmd.args, members);
      var next := Next(FoundSet(members), DecideSet(kind, cmd.args, FoundSet(members)).write);
      HeldIsAt(Exec(cmd, s, env).store, key, next, env, span);
    } else {
      OthersHold(cmd, s, env, key, FoundSet(members), span);
      HeldIsAt(s, key, FoundSet(members), env, span);
      HeldIsAt(Exec(cmd, s, env).store, key, FoundSet(members), env, span);
    }
  }

  ghost function GainAll(steps: seq<Step>, outcomes: seq<Outcome>, key: Bytes, family: Kind -> bool): int
    requires |steps| == |outcomes|
  {
    if steps == [] then 0
    else GainAt(steps[0].cmd, outcomes[0], key, family) + GainAll(steps[1..], outcomes[1..], key, family)
  }

  ghost predicate SaysAll(steps: seq<Step>, key: Bytes, x: Bytes, before: bool)
    decreases |steps|
  {
    if steps == [] then before else SaysAll(steps[1..], key, x, SaysAt(steps[0].cmd, key, x, before))
  }

  /** Conservation of sets: over any run the cardinality changes by exactly what the replies of
      SADD and SREM report, and a member is stored exactly when the last command on it added it. */
  lemma {:induction false} SetRun(s: Store, steps: seq<Step>, key: Bytes, span: Span)
    requires HoldsSet(s, key, span) && MeetAll(steps, span)
    requires forall i :: 0 <= i < |steps| ==> InFamily(steps[i].cmd, key, SetKind)
    ensures |RunOutcomes(s, steps)| == |steps|
    ensures var members, members' := MembersOf(At(s, key, span)), MembersOf(At(RunStore(s, steps), key, span));
            && HoldsSet(RunStore(s, steps), key, span)
            && |members'| == |members| + GainAll(steps, RunOutcomes(s, steps), key, SetKind)
            && forall x :: x in members' <==> SaysAll(steps, key, x, x in members)
    decreases |steps|
  {
    hide Exec, HoldsSet, MembersOf, InFamily, SaysAt, GainAt;
    OutcomesSize(s, steps);
    if steps != [] {
      var r := Exec(steps[0].cmd, s, steps[0].env);
      SetConserves(steps[0].cmd, s, steps[0].env, key, span);
      SetRun(r.store, steps[1..], key, span);
      assert RunOutcomes(s, steps)[1..] == RunOutcomes(r.store, steps[1..]);
    }
  }

  lemma SetReadDecision(kind: Kind, args: seq<Bytes>, members: set<Bytes>)
    requires (kind == SCard && |args| == 1) || (kind == SIsMember && |args| == 2)
    ensures DecideSet(kind, args, FoundSet(members))
            == Answer(if kind == SCard then Integer(|members|) else Integer(if args[1] in members then 1 else 0))
  {
  }

  /** After any run, SCARD answers what was there plus the reported gains, and SISMEMBER whether
      the last command on the member added it. */
  lemma SetReported(s: Store, steps: seq<Step>, key: Bytes, kind: Kind, read: Command, env: Env, span: Span)
    requires HoldsSet(s, key, span) && (kind == SCard || kind == SIsMember)
    requires Works(read, kind, key) && Meets(env, span) && MeetAll(steps, span)
    requires forall i :: 0 <= i < |steps| ==> InFamily(steps[i].cmd, key, SetKind)
    ensures SetArity(kind, read.args) && |RunOutcomes(s, steps)| == |steps|
    ensures var members := MembersOf(At(s, key, span));
            Exec(read, RunStore(s, steps), env).outcome
            == Reply(if kind == SCard then Integer(|members| + GainAll(steps, RunOutcomes(s, steps), key, SetKind))
                     else Integer(if SaysAll(steps, key, read.args[1], read.args[1] in members) then 1 else 0))
  {
    hide Exec, KindOf, Plan, Decide, DecideSet, RunStore, RunOutcomes, GainAll, SaysAll, At, Holds, Meets,
      MembersOf, FoundSet, InFamily;
    SetRun(s, steps, key, span);
    var s' := RunStore(s, steps);
    var members := MembersOf(At(s', key, span));
    SetPlan(kind, read, FoundSet(members));
    SetReadDecision(kind, read.args, members);
    KeyStep(read, kind, s', env, key, FoundSet(members), span);
  }

  // ---- hashes ----------------------------------------------------------------------------------

  function FieldsOf(found: Option<Value>): map<Bytes, Bytes> {
    if found.Some? && found.value.Hash? then found.value.fields else map[]
  }

  function FoundHash(fields: map<Bytes, Bytes>): Option<Value> {
    if fields.Keys == {} then None else Some(Hash(fields))
  }

  function Field(fields: map<Bytes, Bytes>, f: Bytes): Option<Bytes> {
    if f in fields then Some(fields[f]) else None
  }

  /** The value of the last pair for a field. */
  function LastPair(pairs: seq<Bytes>, f: Bytes): Option<Bytes>
    requires |pairs| % 2 == 0
    decreases |pairs|
  {
    if pairs == [] then None
    else
      var later := LastPair(pairs[2..], f);
      if later.Some? then later else if pairs[0] == f then Some(pairs[1]) else None
  }

  lemma {:induction false} PutFieldsLast(fields: map<Bytes, Bytes>, pairs: seq<Bytes>, f: Bytes)
    requires |pairs| % 2 == 0
    ensures Field(PutFields(fields, pairs), f)
            == if LastPair(pairs, f).Some? then LastPair(pairs, f) else Field(fields, f)
    decreases |pairs|
  {
    if pairs != [] {
      PutFieldsLast(fields[pairs[0] := pairs[1]], pairs[2..], f);
    }
  }

  ghost function Leaves(kind: Kind, args: seq<Bytes>, f: Bytes, before: Option<Bytes>): Option<Bytes>
    requires |args| > 0 && (kind.HSet? ==> |args| % 2 == 1)
  {
    if kind.HSet? && LastPair(args[1..], f).Some? then LastPair(args[1..], f)
    else if kind.HDel? && f in args[1..] then None
    else before
  }

  ghost predicate HashStepOk(kind: Kind, args: seq<Bytes>, fields: map<Bytes, Bytes>, d: Decision)
    requires |args| > 0 && (kind.HSet? ==> |args| % 2 == 1)
  {
    var next := Next(FoundHash(fields), d.write);
    && next == FoundHash(FieldsOf(next))
    && |FieldsOf(next).Keys| == |fields.Keys| + Gain(kind, d.outcome)
    && (forall f :: Field(FieldsOf(next), f) == Leaves(kind, args, f, Field(fields, f)))
  }

  lemma FoundHashFields(fields: map<Bytes, Bytes>)
    ensures FieldsOf(FoundHash(fields)) == fields
  {
  }

  lemma PutDecision(args: seq<Bytes>, fields: map<Bytes, Bytes>)
    requires |args| >= 3 && |args| % 2 == 1
    ensures var fields' := PutFields(fields, args[1..]);
            DecideHash(HSet, args, FoundHash(fields))
            == Decision(Reply(Integer(|fields'.Keys| - |fields.Keys|)), Put(Hash(fields'), 0))
  {
    FoundHashFields(fields);
    hide PutFields;
  }

  lemma PutOk(args: seq<Bytes>, fields: map<Bytes, Bytes>)
    requires |args| >= 3 && |args| % 2 == 1
    ensures HashStepOk(HSet, args, fields, DecideHash(HSet, args, FoundHash(fields)))
  {
    hide PutFields, LastPair, DecideHash;
    var fields' := PutFields(fields, args[1..]);
    PutDecision(args, fields);
    PutFieldsGrows(fields, args[1..]);
    forall f ensures Field(fields', f) == Leaves(HSet, args, f, Field(fields, f)) {
      PutFieldsLast(fields, args[1..], f);
    }
  }

  lemma DeleteOk(args: seq<Bytes>, fields: map<Bytes, Bytes>)
    requires |args| >= 2
    ensures HashStepOk(HDel, args, fields, DecideHash(HDel, args, FoundHash(fields)))
  {
    var fields' := WithoutFields(fields, args[1..]);
    forall f ensures Field(fields', f) == Leaves(HDel, args, f, Field(fields, f)) {
      SetOfMember(args[1..], f);
    }
    hide SetOf, WithoutFields;
    if fields.Keys != {} {
      assert DecideHash(HDel, args, FoundHash(fields))
             == Decision(Reply(Integer(|fields.Keys| - |fields'.Keys|)), PutOrDrop(Hash(fields'), fields'.Keys == {}));
      hide DecideHash;
      if fields'.Keys == {} { assert fields' == map[]; }
    }
  }

  lemma HashDecisionOk(kind: Kind, args: seq<Bytes>, fields: map<Bytes, Bytes>)
    requires HashKind(kind) && HashArity(kind, args)
    ensures HashStepOk(kind, args, fields, DecideHash(kind, args, FoundHash(fields)))
  {
    FoundHashFields(fields);
    if kind == HSet {
      PutOk(args, fields);
    } else if kind == HDel {
      DeleteOk(args, fields);
    }
  }

  ghost predicate HoldsHash(s: Store, key: Bytes, span: Span) {
    Holds(s, key, FoundHash(FieldsOf(At(s, key, span))), span)
  }

  ghost function LeavesAt(cmd: Command, key: Bytes, f: Bytes, before: Option<Bytes>): Option<Bytes> {
    if WorksIn(cmd, key, HashKind) && HashArity(KindOf(cmd.name).value, cmd.args)
    then Leaves(KindOf(cmd.name).value, cmd.args, f, before) else before
  }

  lemma HashConserves(cmd: Command, s: Store, env: Env, key: Bytes, span: Span)
    requires InFamily(cmd, key, HashKind) && HoldsHash(s, key, span) && Meets(env, span)
    ensures var r := Exec(cmd, s, env);
            var fields, fields' := FieldsOf(At(s, key, span)), FieldsOf(At(r.store, key, span));
            && HoldsHash(r.store, key, span)
            && |fields'.Keys| == |fields.Keys| + GainAt(cmd, r.outcome, key, HashKind)
            && forall f :: Field(fields', f) == LeavesAt(cmd, key, f, Field(fields, f))
  {
    hide KindOf, Exec, Plan, Decide, DecideHash, Field, At, Holds, Meets;
    var fields := FieldsOf(At(s, key, span));
    if WorksIn(cmd, key, HashKind) {
      var kind := KindOf(cmd.name).value;
      HashPlan(kind, cmd, FoundHash(fields));
      KeyStep(cmd, kind, s, env, key, FoundHash(fields), span);
      HashDecisionOk(kind, cmd.args, fields);
      var next := Next(FoundHash(fields), DecideHash(kind, cmd.args, FoundHash(fields)).write);
      HeldIsAt(Exec(cmd, s, env).store, key, next, env, span);
    } else {
      OthersHold(cmd, s, env, key, FoundHash(fields), span);
      HeldIsAt(s, key, FoundHash(fields), env, span);
      HeldIsAt(Exec(cmd, s, env).store, key, FoundHash(fields), env, span);
    }
  }

  ghost function LeavesAll(steps: seq<Step>, key: Bytes, f: Bytes, before: Option<Bytes>): Option<Bytes>
    decreases |steps|
  {
    if steps == [] then before else LeavesAll(steps[1..], key, f, LeavesAt(steps[0].cmd, key, f, before))
  }

  /** Conservation of hashes: over any run the number of fields changes by exactly what the
      replies of HSET and HDEL report, and each field holds its last HSET value, if any. */
  lemma {:induction false} HashRun(s: Store, steps: seq<Step>, key: Bytes, span: Span)
    requires HoldsHash(s, key, span) && MeetAll(steps, span)
    requires forall i :: 0 <= i < |steps| ==> InFamily(steps[i].cmd, key, HashKind)
    ensures |RunOutcomes(s, steps)| == |steps|
    ensures var fields, fields' := FieldsOf(At(s, key, span)), FieldsOf(At(RunStore(s, steps), key, span));
            && HoldsHash(RunStore(s, steps), key, span)
            && |fields'.Keys| == |fields.Keys| + GainAll(steps, RunOutcomes(s, steps), key, HashKind)
            && forall f :: Field(fields', f) == LeavesAll(steps, key, f, Field(fields, f))
    decreases |steps|
  {
    hide Exec, HoldsHash, FieldsOf, InFamily, LeavesAt, GainAt, Field;
    OutcomesSize(s, steps);
    if steps != [] {
      var r := Exec(steps[0].cmd, s, steps[0].env);
      HashConserves(steps[0].cmd, s, steps[0].env, key, span);
      HashRun(r.store, steps[1..], key, span);
      assert RunOutcomes(s, steps)[1..] == RunOutcomes(r.store, steps[1..]);
    }
  }

  lemma HashReadDecision(kind: Kind, args: seq<Bytes>, fields: map<Bytes, Bytes>)
    requires (kind == HLen && |args| == 1) || ((kind == HGet || kind == HExists) && |args| == 2)
    ensures DecideHash(kind, args, FoundHash(fields))
            == Answer(if kind == HLen then Integer(|fields.Keys|)
                      else if kind == HExists then Integer(if Field(fields, args[1]).Some? then 1 else 0)
                      else match Field(fields, args[1]) case None => Null case Some(v) => BulkString(v))
  {
    FoundHashFields(fields);
  }

  /** After any run, HLEN answers what was there plus the reported gains, and HGET the value that
      the last command on the field left. */
  lemma HashReported(s: Store, steps: seq<Step>, key: Bytes, kind: Kind, read: Command, env: Env, span: Span)
    requires HoldsHash(s, key, span) && (kind == HLen || kind == HExists || kind == HGet)
    requires Works(read, kind, key) && Meets(env, span) && MeetAll(steps, span)
    requires forall i :: 0 <= i < |steps| ==> InFamily(steps[i].cmd, key, HashKind)
    ensures HashArity(kind, read.args) && |RunOutcomes(s, steps)| == |steps|
    ensures var fields := FieldsOf(At(s, key, span));
            Exec(read, RunStore(s, steps), env).outcome
            == Reply(if kind == HLen then Integer(|fields.Keys| + GainAll(steps, RunOutcomes(s, steps), key, HashKind))
                     else var left := LeavesAll(steps, key, read.args[1], Field(fields, read.args[1]));
                          if kind == HExists then Integer(if left.Some? then 1 else 0)
                          else match left case None => Null case Some(v) => BulkString(v))
  {
    hide Exec, KindOf, Plan, Decide, DecideHash, RunStore, RunOutcomes, GainAll, LeavesAll, Field, At, Holds,
      Meets, FieldsOf,
      FoundHash, InFamily;
    HashRun(s, steps, key, span);
    var s' := RunStore(s, steps);
    var fields := FieldsOf(At(s', key, span));
    HashPlan(kind, read, FoundHash(fields));
    HashReadDecision(kind, read.args, fields);
    KeyStep(read, kind, s', env, key, FoundHash(fields), span);
  }

  // ---- whole collections and wrong types -------------------------------------------------------

  /** SMEMBERS and HGETALL carry the whole collection, and an empty array for an absent key. */
  lemma WholeOutcome(read: Command, kind: Kind, s: Store, env: Env, key: Bytes, span: Span)
    requires Works(read, kind, key) && Meets(env, span)
    requires (kind == SMembers && HoldsSet(s, key, span)) || (kind == HGetAll && HoldsHash(s, key, span))
    ensures var out, found := Exec(read, s, env).outcome, At(s, key, span);
            if found.None? then out == Reply(Array([]))
            else out == if kind == SMembers then Members(MembersOf(found)) else Fields(FieldsOf(found))
  {
    KeyStep(read, kind, s, env, key, At(s, key, span), span);
    hide Exec, KindOf;
  }

  predicate OfFamily(kind: Kind, v: Value) {
    && (StringKind(kind) ==> v.Str?)
    && (ListKind(kind) ==> v.List?)
    && (SetKind(kind) ==> v.Set?)
    && (HashKind(kind) ==> v.Hash?)
  }

  lemma StringMismatch(kind: Kind, cmd: Command, v: Value)
    requires StringKind(kind) && kind != SetKey && Plan(kind, cmd).OnKey? && !v.Str?
    ensures Decide(kind, cmd, Some(v)) == Decision(Throw, Keep)
  {
    hide OptionsOf, ParseInt;
  }

  lemma CollectionMismatch(kind: Kind, cmd: Command, v: Value)
    requires Plan(kind, cmd).OnKey? && !StringKind(kind) && !OfFamily(kind, v)
    ensures Decide(kind, cmd, Some(v)) == Refuse(WrongType)
  {
    if ListKind(kind) {
      ListPlan(kind, cmd, Some(v));
    } else if SetKind(kind) {
      SetPlan(kind, cmd, Some(v));
    } else {
      HashIsRest(kind, cmd);
      HashPlan(kind, cmd, Some(v));
    }
    hide Plan, Decide, SetOf, PutFields, PushFront;
  }

  /** A command on a value of another type: the collection commands refuse with WRONGTYPE, GET
      and the counters throw; in both cases the value stays. */
  lemma WrongTypeOutcome(cmd: Command, kind: Kind, s: Store, env: Env, key: Bytes, v: Value, span: Span)
    requires Works(cmd, kind, key) && Holds(s, key, Some(v), span) && !OfFamily(kind, v) && Meets(env, span)
    ensures Exec(cmd, s, env).outcome == if StringKind(kind) then Throw else Failed(WrongType)
    ensures Holds(Exec(cmd, s, env).store, key, Some(v), span)
  {
    hide Exec, KindOf, Plan, Decide;
    KeyStep(cmd, kind, s, env, key, Some(v), span);
    if StringKind(kind) {
      StringMismatch(kind, cmd, v);
    } else {
      CollectionMismatch(kind, cmd, v);
    }
  }
}
