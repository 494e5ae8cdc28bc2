/** What every command keeps: failures and reads change nothing, no empty collection is ever
    stored, a command touches only the keys it names, and commands on disjoint keys commute. */
module StoreTheorems {
  import opened Bytes
  import opened Store
  import opened Commands
  import opened Runs

  /** No sweep runs. By `Runs.SweepTransparency` this loses nothing that can be seen. */
  ghost predicate Quiet(env: Env) {
    forall i: nat :: env(i).sweeps == []
  }

  // ---- reads and failures write nothing ------------------------------------------------------

  predicate WriteKind(kind: Kind) {
    match kind
    case Del => true
    case Expire => true
    case Persist => true
    case SetKey => true
    case Incr => true
    case Decr => true
    case IncrBy => true
    case DecrBy => true
    case LPush => true
    case RPush => true
    case LPop => true
    case RPop => true
    case SAdd => true
    case SRem => true
    case HSet => true
    case HDel => true
    case _ => false
  }

  lemma LoggedAreWrites4(name: Bytes)
    requires IsWrite(name) && |name| == 4
    ensures KindOf(name).Some? && WriteKind(KindOf(name).value)
  {
  }

  lemma LoggedAreWrites(name: Bytes)
    requires IsWrite(name)
    ensures KindOf(name).Some? && WriteKind(KindOf(name).value)
  {
    if |name| == 4 {
      LoggedAreWrites4(name);
    }
  }

  lemma WritesAreLogged(name: Bytes)
    requires KindOf(name).Some? && WriteKind(KindOf(name).value)
    ensures IsWrite(name)
  {
  }

  /** The two tables, of handlers and of logged commands, agree. */
  lemma LoggedKinds(name: Bytes)
    ensures IsWrite(name) <==> KindOf(name).Some? && WriteKind(KindOf(name).value)
  {
    hide IsWrite, KindOf, WriteKind;
    if IsWrite(name) {
      LoggedAreWrites(name);
    } else if KindOf(name).Some? && WriteKind(KindOf(name).value) {
      WritesAreLogged(name);
    }
  }

  lemma DecideKeeps(kind: Kind, cmd: Command, found: Option<Value>)
    requires Plan(kind, cmd).OnKey?
    ensures var d := Decide(kind, cmd, found);
            !WriteKind(kind) || IsFailure(d.outcome) ==> d.write.Keep?
  {
    hide ParseInt, IntText, OptionsOf, Upper, PushFront, PutFields, SetOf, WithoutFields, RangeOf, IndexOf;
  }

  /** The sweeps that the clock readings of a command report, or some of them. */
  ghost predicate DrawnFrom(times: seq<Time>, env: Env) {
    forall k :: 0 <= k < |times| ==> SweptIn(times[k], env)
  }

  ghost predicate SweptIn(t: Time, env: Env) {
    exists i: nat :: t in env(i).sweeps
  }

  lemma QuietTimes(times: seq<Time>, env: Env)
    requires Quiet(env) && DrawnFrom(times, env)
    ensures times == []
  {
    var first := if times == [] then 0 else times[0];
    forall i: nat ensures first !in env(i).sweeps {
      assert env(i).sweeps == [];
    }
  }

  lemma {:induction false} SweptTwice(s: Store, a: seq<Time>, b: seq<Time>)
    ensures SweptAll(SweptAll(s, a), b) == SweptAll(s, a + b)
    decreases |a|
  {
    if a == [] {
      assert a + b == b;
    } else {
      assert (a + b)[1..] == a[1..] + b;
      SweptTwice(Swept(s, a[0]), a[1..], b);
    }
  }

  lemma {:induction false} CountOnlySweeps(s: Store, keys: seq<Bytes>, i: nat, count: int, env: Env)
    returns (times: seq<Time>)
    requires i <= |keys|
    ensures CountFrom(s, keys, i, count, env).store == SweptAll(s, times) && DrawnFrom(times, env)
    decreases |keys| - i
  {
    if i == |keys| {
      times := [];
    } else {
      var s' := SweptAll(s, env(i).sweeps);
      var rest := CountOnlySweeps(s', keys, i + 1, count + (if Alive(s', keys[i], env(i).now) then 1 else 0), env);
      SweptTwice(s, env(i).sweeps, rest);
      times := env(i).sweeps + rest;
    }
  }

  lemma {:induction false} DelReplies(s: Store, keys: seq<Bytes>, i: nat, count: int, env: Env)
    requires i <= |keys|
    ensures var r := DelFrom(s, keys, i, count, env).outcome; r.Reply? && r.value.Integer?
    decreases |keys| - i
  {
    if i < |keys| {
      var s' := SweptAll(s, env(i).sweeps);
      DelReplies(s' - {keys[i]}, keys, i + 1, count + (if Alive(s', keys[i], env(i).now) then 1 else 0), env);
    }
  }

  lemma PlanOfRead(kind: Kind, cmd: Command)
    requires !WriteKind(kind)
    ensures var p := Plan(kind, cmd); !p.DelKeys? && !p.ExpireKey? && !p.PersistKey?
  {
  }

  lemma KindOnlySweeps(kind: Kind, cmd: Command, s: Store, env: Env) returns (times: seq<Time>)
    requires !WriteKind(kind) || IsFailure(ExecKind(kind, cmd, s, env).outcome)
    ensures ExecKind(kind, cmd, s, env).store == SweptAll(s, times) && DrawnFrom(times, env)
  {
    if !WriteKind(kind) {
      PlanOfRead(kind, cmd);
    }
    hide Decide, Plan, WriteKind;
    times := env(0).sweeps;
    match Plan(kind, cmd)
    case NoAccess(_) => times := [];
    case OnKey(key) =>
      DecideKeeps(kind, cmd, Lookup(SweptAll(s, times), key, env(0).now));
    case DelKeys(keys) => DelReplies(s, keys, 0, 0, env);
    case CountKeys(keys) => times := CountOnlySweeps(s, keys, 0, 0, env);
    case _ =>
  }

  /** An error reply, an exception or a command that the append-only file does not record leaves
      the store as it was, but for entries that a sweep took while the command ran. */
  lemma FailureAtomic(cmd: Command, s: Store, env: Env) returns (times: seq<Time>)
    requires IsFailure(Exec(cmd, s, env).outcome) || !IsWrite(cmd.name)
    ensures Exec(cmd, s, env).store == SweptAll(s, times) && DrawnFrom(times, env)
    ensures Quiet(env) ==> Exec(cmd, s, env).store == s
  {
    LoggedKinds(cmd.name);
    hide KindOf, ExecKind, IsWrite, WriteKind;
    times := [];
    if KindOf(cmd.name).Some? {
      times := KindOnlySweeps(KindOf(cmd.name).value, cmd, s, env);
    }
    if Quiet(env) {
      QuietTimes(times, env);
    }
  }

  // ---- recorded commands can write -------------------------------------------------------------

  const KEY: Bytes := "k"

  /** One clock reading for a whole command, and no sweep. */
  function Still(now: Time): Env {
    (i: nat) => Tick(now, [], now, now)
  }

  /** One entry, with or without a deadline. */
  function Holding(v: Value, deadline: Option<Time>): Store {
    map[KEY := Entry(v, deadline)]
  }

  /** Running the arguments under this kind, at time 0, changes the store. */
  predicate Changes(kind: Kind, name: Bytes, args: seq<Bytes>, s: Store) {
    ExecKind(kind, Command(name, args), s, Still(0)).store != s
  }

  lemma OneIsAnInteger()
    ensures ParseInt("1") == Some(1)
  {
    PrintParse(1);
    assert IntText(1) == "1";
  }

  lemma GenericChanges(name: Bytes)
    ensures Changes(Del, name, [KEY], Holding(Str(""), None))
    ensures Changes(Persist, name, [KEY], Holding(Str(""), Some(1)))
  {
    var s, keys := Holding(Str(""), None), [KEY];
    assert DelFrom(s, keys, 0, 0, Still(0)).store == s - {KEY};
    var t := Holding(Str(""), Some(1));
    assert Persisted(t, KEY, 0)[KEY] == Entry(Str(""), None);
  }

  lemma ExpireChanges(name: Bytes)
    ensures Changes(Expire, name, [KEY, "1"], Holding(Str(""), None))
  {
    OneIsAnInteger();
    hide ParseInt;
    var s := Holding(Str(""), None);
    assert ExpireAt(s, KEY, 1000, 0, 0)[KEY].deadline.Some?;
  }

  lemma AbsentKeyChanges(kind: Kind, name: Bytes, args: seq<Bytes>)
    requires Plan(kind, Command(name, args)) == OnKey(KEY)
    requires Decide(kind, Command(name, args), None).write.Put?
    ensures Changes(kind, name, args, map[])
  {
    hide Plan, Decide;
    var w := Decide(kind, Command(name, args), None).write;
    assert KEY in Written(map[], KEY, w.value, w.millis, 0);
  }

  lemma LastElementChanges(kind: Kind, name: Bytes, args: seq<Bytes>, v: Value)
    requires Plan(kind, Command(name, args)) == OnKey(KEY)
    requires Decide(kind, Command(name, args), Some(v)).write == Drop
    ensures Changes(kind, name, args, Holding(v, None))
  {
    hide Plan, Decide;
    assert KEY !in Holding(v, None) - {KEY};
  }

  lemma SetChanges(name: Bytes)
    ensures Changes(SetKey, name, [KEY, "x"], map[])
  {
    assert OptionsOf([KEY, "x"]) == Options(SetOptions(0, false, false));
    hide Changes, OptionsOf;
    AbsentKeyChanges(SetKey, name, [KEY, "x"]);
  }

  lemma CounterChanges(name: Bytes)
    ensures Changes(Incr, name, [KEY], map[]) && Changes(Decr, name, [KEY], map[])
    ensures Changes(IncrBy, name, [KEY, "1"], map[]) && Changes(DecrBy, name, [KEY, "1"], map[])
  {
    OneIsAnInteger();
    hide ParseInt, IntText, Changes;
    AbsentKeyChanges(Incr, name, [KEY]);
    AbsentKeyChanges(Decr, name, [KEY]);
    AbsentKeyChanges(IncrBy, name, [KEY, "1"]);
    AbsentKeyChanges(DecrBy, name, [KEY, "1"]);
  }

  lemma AddingChanges(name: Bytes)
    ensures Changes(LPush, name, [KEY, "x"], map[]) && Changes(RPush, name, [KEY, "x"], map[])
    ensures Changes(SAdd, name, [KEY, "x"], map[]) && Changes(HSet, name, [KEY, "x", "y"], map[])
  {
    hide Changes, PushFront, SetOf, PutFields;
    AbsentKeyChanges(LPush, name, [KEY, "x"]);
    AbsentKeyChanges(RPush, name, [KEY, "x"]);
    AbsentKeyChanges(SAdd, name, [KEY, "x"]);
    AbsentKeyChanges(HSet, name, [KEY, "x", "y"]);
  }

  lemma PopChanges(name: Bytes)
    ensures Changes(LPop, name, [KEY], Holding(List(["x"]), None)) && Changes(RPop, name, [KEY], Holding(List(["x"]), None))
  {
    hide Changes;
    LastElementChanges(LPop, name, [KEY], List(["x"]));
    LastElementChanges(RPop, name, [KEY], List(["x"]));
  }

  lemma OneItem(args: seq<Bytes>)
    requires args == [KEY, "x"]
    ensures SetOf(args[1..]) == {"x"}
  {
    assert args[1..] == ["x"] && ["x"][..0] == [];
    assert SetOf(["x"]) == SetOf([]) + {"x"};
  }

  lemma RemoveChanges(name: Bytes)
    ensures Changes(SRem, name, [KEY, "x"], Holding(Set({"x"}), None))
  {
    OneItem([KEY, "x"]);
    hide Changes, SetOf;
    LastElementChanges(SRem, name, [KEY, "x"], Set({"x"}));
  }

  lemma DeleteChanges(name: Bytes)
    ensures Changes(HDel, name, [KEY, "x"], Holding(Hash(map["x" := "y"]), None))
  {
    var args, fields := [KEY, "x"], map["x" := "y"];
    OneItem(args);
    assert WithoutFields(fields, args[1..]).Keys == {};
    hide Changes, SetOf, WithoutFields;
    LastElementChanges(HDel, name, args, Hash(fields));
  }

  lemma WriteKindChanges(kind: Kind, name: Bytes) returns (args: seq<Bytes>, s: Store)
    requires WriteKind(kind)
    ensures Changes(kind, name, args, s)
  {
    hide Changes;
    GenericChanges(name);
    ExpireChanges(name);
    SetChanges(name);
    CounterChanges(name);
    AddingChanges(name);
    PopChanges(name);
    RemoveChanges(name);
    DeleteChanges(name);
    args, s := [KEY], map[];
    match kind
    case Del => s := Holding(Str(""), None);
    case Persist => s := Holding(Str(""), Some(1));
    case Expire => args, s := [KEY, "1"], Holding(Str(""), None);
    case SetKey => args := [KEY, "x"];
    case IncrBy => args := [KEY, "1"];
    case DecrBy => args := [KEY, "1"];
    case LPush => args := [KEY, "x"];
    case RPush => args := [KEY, "x"];
    case LPop => s := Holding(List(["x"]), None);
    case RPop => s := Holding(List(["x"]), None);
    case SAdd => args := [KEY, "x"];
    case SRem => args, s := [KEY, "x"], Holding(Set({"x"}), None);
    case HSet => args := [KEY, "x", "y"];
    case HDel => args, s := [KEY, "x"], Holding(Hash(map["x" := "y"]), None);
    case _ =>
  }

  /** Some arguments, store and clock, without a sweep, on which the command changes the store. */
  ghost predicate CanWrite(name: Bytes) {
    exists args, s, env :: Quiet(env) && Exec(Command(name, args), s, env).store != s
  }

  /** The append-only file records exactly the commands that can change the store. */
  lemma RecordsTheWriters(name: Bytes)
    ensures IsWrite(name) <==> CanWrite(name)
  {
    hide IsWrite, KindOf, WriteKind, ExecKind;
    if IsWrite(name) {
      LoggedKinds(name);
      var args, s := WriteKindChanges(KindOf(name).value, name);
      assert Quiet(Still(0)) && Exec(Command(name, args), s, Still(0)).store != s;
    } else {
      forall args, s, env | Quiet(env) ensures Exec(Command(name, args), s, env).store == s {
        var _ := FailureAtomic(Command(name, args), s, env);
      }
    }
  }

  // ---- with sweeps -----------------------------------------------------------------------------

  /** The environment with its sweeps taken out. */
  ghost function Unswept(env: Env): Env {
    (i: nat) => Tick(env(i).before, [], env(i).now, env(i).later)
  }

  lemma QuietOrderly(env: Env, start: Time, end: Time)
    requires Orderly(env, start, end)
    ensures Quiet(Unswept(env)) && SameClock(env, Unswept(env)) && Orderly(Unswept(env), start, end)
  {
    var quiet := Unswept(env);
    forall i: nat ensures Ordered(quiet(i)) && After(quiet(i), start) && quiet(i).later <= end {
      assert Ordered(env(i)) && After(env(i), start);
    }
    forall i: nat, j: nat | i < j ensures After(quiet(j), quiet(i).later) {
      assert After(env(j), env(i).later);
    }
  }

  /** With sweeps anywhere inside the handler, a command that fails, throws or is not recorded
      changes nothing that a client can see, then or later. */
  lemma FailureInvisible(cmd: Command, s: Store, env: Env, start: Time, end: Time)
    requires Orderly(env, start, end) && start <= end
    requires IsFailure(Exec(cmd, s, env).outcome) || !IsWrite(cmd.name)
    ensures forall t :: t >= end ==> View(Exec(cmd, s, env).store, t) == View(s, t)
  {
    hide Exec, IsWrite, View;
    QuietOrderly(env, start, end);
    ExecHidden(cmd, s, s, env, Unswept(env), start, end);
    var _ := FailureAtomic(cmd, s, Unswept(env));
    forall t | t >= end ensures View(Exec(cmd, s, env).store, t) == View(s, t) {
      ViewLater(Exec(cmd, s, env).store, s, end, t);
    }
  }

  // ---- no empty collections --------------------------------------------------------------------

  predicate Inhabited(v: Value) {
    match v
    case Str(_) => true
    case List(elements) => elements != []
    case Set(members) => members != {}
    case Hash(fields) => fields.Keys != {}
  }

  ghost predicate NoEmpty(s: Store) {
    forall key :: key in s ==> Inhabited(s[key].value)
  }

  lemma {:induction false} PushFrontSize(list: seq<Bytes>, items: seq<Bytes>)
    ensures |PushFront(list, items)| == |list| + |items|
    decreases |items|
  {
    if items != [] {
      PushFrontSize([items[0]] + list, items[1..]);
    }
  }

  lemma {:induction false} PutFieldsGrows(fields: map<Bytes, Bytes>, pairs: seq<Bytes>)
    requires |pairs| % 2 == 0
    ensures fields.Keys <= PutFields(fields, pairs).Keys
    ensures pairs != [] ==> PutFields(fields, pairs).Keys != {}
    decreases |pairs|
  {
    if pairs != [] {
      PutFieldsGrows(fields[pairs[0] := pairs[1]], pairs[2..]);
      assert pairs[0] in fields[pairs[0] := pairs[1]].Keys;
    }
  }

  lemma SetOfInhabited(items: seq<Bytes>)
    requires items != []
    ensures SetOf(items) != {}
  {
    assert items[|items| - 1] in SetOf(items);
  }

  lemma ListPlan(kind: Kind, cmd: Command, found: Option<Value>)
    requires ListKind(kind) && Plan(kind, cmd).OnKey?
    ensures ListArity(kind, cmd.args) && Decide(kind, cmd, found) == DecideList(kind, cmd.args, found)
  {
    hide DecideList;
  }

  lemma SetPlan(kind: Kind, cmd: Command, found: Option<Value>)
    requires SetKind(kind) && Plan(kind, cmd).OnKey?
    ensures SetArity(kind, cmd.args) && Decide(kind, cmd, found) == DecideSet(kind, cmd.args, found)
  {
    hide DecideSet;
  }

  lemma HashPlan(kind: Kind, cmd: Command, found: Option<Value>)
    requires HashKind(kind) && Plan(kind, cmd).OnKey?
    ensures HashArity(kind, cmd.args) && Decide(kind, cmd, found) == DecideHash(kind, cmd.args, found)
  {
    hide DecideHash;
  }

  lemma ListPutsInhabited(kind: Kind, args: seq<Bytes>, found: Option<Value>)
    requires ListKind(kind) && ListArity(kind, args)
    ensures var d := DecideList(kind, args, found);
            d.write.Put? ==> Inhabited(d.write.value)
  {
    if kind == LPush && (found.None? || found.value.List?) {
      PushFrontSize(if found.None? then [] else found.value.elements, args[1..]);
    }
    hide ParseInt, PushFront, RangeOf, IndexOf;
  }

  lemma SetPutsInhabited(kind: Kind, args: seq<Bytes>, found: Option<Value>)
    requires SetKind(kind) && SetArity(kind, args)
    ensures var d := DecideSet(kind, args, found);
            d.write.Put? ==> Inhabited(d.write.value)
  {
    if kind == SAdd {
      SetOfInhabited(args[1..]);
    }
    hide SetOf;
  }

  lemma HashPutsInhabited(kind: Kind, args: seq<Bytes>, found: Option<Value>)
    requires HashKind(kind) && HashArity(kind, args)
    ensures var d := DecideHash(kind, args, found);
            d.write.Put? ==> Inhabited(d.write.value)
  {
    if kind == HSet && (found.None? || found.value.Hash?) {
      PutFieldsGrows(if found.None? then map[] else found.value.fields, args[1..]);
    }
    hide PutFields, WithoutFields;
  }

  lemma StringPutsStrings(kind: Kind, cmd: Command, found: Option<Value>)
    requires StringKind(kind) && Plan(kind, cmd).OnKey?
    ensures var d := Decide(kind, cmd, found);
            d.write.Put? ==> d.write.value.Str?
  {
    hide ParseInt, OptionsOf;
  }

  lemma HashIsRest(kind: Kind, cmd: Command)
    requires Plan(kind, cmd).OnKey? && !StringKind(kind) && !ListKind(kind) && !SetKind(kind)
    ensures HashKind(kind)
  {
  }

  lemma DecidePutsInhabited(kind: Kind, cmd: Command, found: Option<Value>)
    requires Plan(kind, cmd).OnKey?
    ensures var d := Decide(kind, cmd, found);
            d.write.Put? ==> Inhabited(d.write.value)
  {
    hide Decide, DecideList, DecideSet, DecideHash, Plan;
    if ListKind(kind) {
      ListPlan(kind, cmd, found);
      ListPutsInhabited(kind, cmd.args, found);
    } else if SetKind(kind) {
      SetPlan(kind, cmd, found);
      SetPutsInhabited(kind, cmd.args, found);
    } else if StringKind(kind) {
      StringPutsStrings(kind, cmd, found);
    } else {
      HashIsRest(kind, cmd);
      HashPlan(kind, cmd, found);
      HashPutsInhabited(kind, cmd.args, found);
    }
  }

  lemma {:induction false} SweptAllSub(s: Store, times: seq<Time>)
    ensures forall key :: key in SweptAll(s, times) ==> key in s && SweptAll(s, times)[key] == s[key]
    decreases |times|
  {
    if times != [] {
      SweptAllSub(Swept(s, times[0]), times[1..]);
    }
  }

  lemma {:induction false} DelSub(s: Store, keys: seq<Bytes>, i: nat, count: int, env: Env)
    requires i <= |keys|
    ensures var r := DelFrom(s, keys, i, count, env).store;
            forall key :: key in r ==> key in s && r[key] == s[key]
    decreases |keys| - i
  {
    if i < |keys| {
      var s' := SweptAll(s, env(i).sweeps);
      SweptAllSub(s, env(i).sweeps);
      DelSub(s' - {keys[i]}, keys, i + 1, count + (if Alive(s', keys[i], env(i).now) then 1 else 0), env);
    }
  }

  lemma {:induction false} CountSub(s: Store, keys: seq<Bytes>, i: nat, count: int, env: Env)
    requires i <= |keys|
    ensures var r := CountFrom(s, keys, i, count, env).store;
            forall key :: key in r ==> key in s && r[key] == s[key]
    decreases |keys| - i
  {
    if i < |keys| {
      var s' := SweptAll(s, env(i).sweeps);
      SweptAllSub(s, env(i).sweeps);
      CountSub(s', keys, i + 1, count + (if Alive(s', keys[i], env(i).now) then 1 else 0), env);
    }
  }

  lemma ExecNoEmpty(cmd: Command, s: Store, env: Env)
    requires NoEmpty(s)
    ensures NoEmpty(Exec(cmd, s, env).store)
  {
    hide KindOf, Decide, Plan;
    if KindOf(cmd.name).Some? {
      var kind := KindOf(cmd.name).value;
      var s' := SweptAll(s, env(0).sweeps);
      SweptAllSub(s, env(0).sweeps);
      match Plan(kind, cmd)
      case NoAccess(_) =>
      case OnKey(key) =>
        SweptAllSub(s', env(1).sweeps);
        DecidePutsInhabited(kind, cmd, Lookup(s', key, env(0).now));
      case DelKeys(keys) => DelSub(s, keys, 0, 0, env);
      case CountKeys(keys) => CountSub(s, keys, 0, 0, env);
      case _ =>
    }
  }

  /** In every state that commands and sweeps can reach, no stored collection is empty. */
  lemma {:induction false} ReachableNoEmpty(s: Store, steps: seq<Step>)
    requires NoEmpty(s)
    ensures NoEmpty(RunStore(s, steps))
    decreases |steps|
  {
    hide Exec;
    if steps != [] {
      ExecNoEmpty(steps[0].cmd, s, steps[0].env);
      ReachableNoEmpty(Exec(steps[0].cmd, s, steps[0].env).store, steps[1..]);
    }
  }

  // ---- commands on disjoint keys commute -------------------------------------------------------

  function KeysOf(cmd: Command): set<Bytes> {
    match KindOf(cmd.name)
    case None => {}
    case Some(kind) =>
      match Plan(kind, cmd)
      case NoAccess(_) => {}
      case OnKey(key) => {key}
      case DelKeys(keys) => set key | key in keys
      case CountKeys(keys) => set key | key in keys
      case ExpireKey(key, _) => {key}
      case TtlKey(key) => {key}
      case PersistKey(key) => {key}
  }

  ghost predicate SameAt(s1: Store, s2: Store, key: Bytes) {
    (key in s1 <==> key in s2) && (key in s1 ==> s1[key] == s2[key])
  }

  ghost predicate AgreeOn(s1: Store, s2: Store, keys: set<Bytes>) {
    forall key :: key in keys ==> SameAt(s1, s2, key)
  }

  lemma SameEverywhere(s1: Store, s2: Store)
    requires forall key :: SameAt(s1, s2, key)
    ensures s1 == s2
  {
    assert forall key :: key in s1 ==> SameAt(s1, s2, key);
    assert forall key :: key in s2 ==> SameAt(s1, s2, key);
  }

  lemma {:induction false} SweptAgree(s1: Store, s2: Store, times: seq<Time>, key: Bytes)
    requires SameAt(s1, s2, key)
    ensures SameAt(SweptAll(s1, times), SweptAll(s2, times), key)
    decreases |times|
  {
    if times != [] {
      SweptAgree(Swept(s1, times[0]), Swept(s2, times[0]), times[1..], key);
    }
  }

  lemma {:induction false} DelFrame(s: Store, keys: seq<Bytes>, i: nat, count: int, env: Env) returns (times: seq<Time>)
    requires i <= |keys|
    ensures DrawnFrom(times, env)
    ensures forall key :: key !in keys ==> SameAt(DelFrom(s, keys, i, count, env).store, SweptAll(s, times), key)
    decreases |keys| - i
  {
    if i == |keys| {
      times := [];
    } else {
      var s' := SweptAll(s, env(i).sweeps);
      var rest := DelFrame(s' - {keys[i]}, keys, i + 1, count + (if Alive(s', keys[i], env(i).now) then 1 else 0), env);
      times := env(i).sweeps + rest;
      SweptTwice(s, env(i).sweeps, rest);
      forall key | key !in keys ensures SameAt(DelFrom(s, keys, i, count, env).store, SweptAll(s, times), key) {
        SweptAgree(s' - {keys[i]}, s', rest, key);
      }
    }
  }

  lemma {:induction false} DelLocal(s1: Store, s2: Store, keys: seq<Bytes>, i: nat, count: int, env: Env, key: Bytes)
    requires i <= |keys| && SameAt(s1, s2, key)
    requires forall k :: k in keys[i..] ==> SameAt(s1, s2, k)
    ensures var r1, r2 := DelFrom(s1, keys, i, count, env), DelFrom(s2, keys, i, count, env);
            r1.outcome == r2.outcome && SameAt(r1.store, r2.store, key)
    decreases |keys| - i
  {
    if i < |keys| {
      assert keys[i..] == [keys[i]] + keys[i + 1..];
      var t1, t2 := SweptAll(s1, env(i).sweeps), SweptAll(s2, env(i).sweeps);
      forall k | k == key || k in keys[i..] ensures SameAt(t1, t2, k) {
        SweptAgree(s1, s2, env(i).sweeps, k);
      }
      assert SameAt(t1, t2, keys[i]);
      forall k | k == key || k in keys[i + 1..] ensures SameAt(t1 - {keys[i]}, t2 - {keys[i]}, k) {
        assert SameAt(t1, t2, k);
      }
      hide SweptAll;
      DelLocal(t1 - {keys[i]}, t2 - {keys[i]}, keys, i + 1, count + (if Alive(t1, keys[i], env(i).now) then 1 else 0), env, key);
    }
  }

  lemma {:induction false} CountLocal(s1: Store, s2: Store, keys: seq<Bytes>, i: nat, count: int, env: Env, key: Bytes)
    requires i <= |keys| && SameAt(s1, s2, key)
    requires forall k :: k in keys[i..] ==> SameAt(s1, s2, k)
    ensures var r1, r2 := CountFrom(s1, keys, i, count, env), CountFrom(s2, keys, i, count, env);
            r1.outcome == r2.outcome && SameAt(r1.store, r2.store, key)
    decreases |keys| - i
  {
    if i < |keys| {
      assert keys[i..] == [keys[i]] + keys[i + 1..];
      var t1, t2 := SweptAll(s1, env(i).sweeps), SweptAll(s2, env(i).sweeps);
      forall k | k == key || k in keys[i..] ensures SameAt(t1, t2, k) {
        SweptAgree(s1, s2, env(i).sweeps, k);
      }
      assert SameAt(t1, t2, keys[i]);
      hide SweptAll;
      CountLocal(t1, t2, keys, i + 1, count + (if Alive(t1, keys[i], env(i).now) then 1 else 0), env, key);
    }
  }

  /** A command changes nothing outside the keys it names, but for what sweeps took meanwhile. */
  lemma ExecFrame(cmd: Command, s: Store, env: Env) returns (times: seq<Time>)
    ensures DrawnFrom(times, env)
    ensures forall key :: key !in KeysOf(cmd) ==> SameAt(Exec(cmd, s, env).store, SweptAll(s, times), key)
  {
    hide KindOf, Decide, Plan;
    times := [];
    if KindOf(cmd.name).Some? {
      times := env(0).sweeps;
      match Plan(KindOf(cmd.name).value, cmd)
      case NoAccess(_) => times := [];
      case OnKey(key) =>
        var write := Decide(KindOf(cmd.name).value, cmd, Lookup(SweptAll(s, times), key, env(0).now)).write;
        if !write.Keep? {
          SweptTwice(s, env(0).sweeps, env(1).sweeps);
          times := env(0).sweeps + env(1).sweeps;
        }
        hide SweptAll;
      case DelKeys(keys) => times := DelFrame(s, keys, 0, 0, env);
      case CountKeys(keys) => times := CountOnlySweeps(s, keys, 0, 0, env);
      case _ => hide SweptAll;
    }
  }

  lemma QuietFrame(cmd: Command, s: Store, env: Env, key: Bytes)
    requires Quiet(env) && key !in KeysOf(cmd)
    ensures SameAt(Exec(cmd, s, env).store, s, key)
  {
    hide Exec, KeysOf;
    var times := ExecFrame(cmd, s, env);
    QuietTimes(times, env);
  }

  lemma ApplyLocal(s1: Store, s2: Store, key: Bytes, write: Write, t: Tick)
    requires SameAt(s1, s2, key)
    ensures SameAt(Apply(s1, key, write, t), Apply(s2, key, write, t), key)
  {
    SweptAgree(s1, s2, t.sweeps, key);
    hide SweptAll;
  }

  /** Its reply and what it leaves at its keys depend only on what is at its keys. */
  lemma ExecLocal(cmd: Command, s1: Store, s2: Store, env: Env)
    requires AgreeOn(s1, s2, KeysOf(cmd))
    ensures Exec(cmd, s1, env).outcome == Exec(cmd, s2, env).outcome
    ensures AgreeOn(Exec(cmd, s1, env).store, Exec(cmd, s2, env).store, KeysOf(cmd))
  {
    hide KindOf, Decide, Plan;
    if KindOf(cmd.name).Some? && KeysOf(cmd) != {} {
      forall key | key in KeysOf(cmd)
        ensures Exec(cmd, s1, env).outcome == Exec(cmd, s2, env).outcome
        ensures SameAt(Exec(cmd, s1, env).store, Exec(cmd, s2, env).store, key)
      {
        ExecLocalAt(cmd, s1, s2, env, key);
      }
    } else if KindOf(cmd.name).Some? {
      ExecKeyless(cmd, s1, s2, env);
    }
  }

  lemma ExecKeyless(cmd: Command, s1: Store, s2: Store, env: Env)
    requires KindOf(cmd.name).Some? && KeysOf(cmd) == {}
    ensures Exec(cmd, s1, env).outcome == Exec(cmd, s2, env).outcome
  {
    hide KindOf, Decide, Plan;
    match Plan(KindOf(cmd.name).value, cmd)
    case DelKeys(keys) => assert keys == [] || keys[0] in KeysOf(cmd);
    case CountKeys(keys) => assert keys == [] || keys[0] in KeysOf(cmd);
    case _ =>
  }

  lemma ExecLocalAt(cmd: Command, s1: Store, s2: Store, env: Env, key: Bytes)
    requires KindOf(cmd.name).Some? && key in KeysOf(cmd) && AgreeOn(s1, s2, KeysOf(cmd))
    ensures Exec(cmd, s1, env).outcome == Exec(cmd, s2, env).outcome
    ensures SameAt(Exec(cmd, s1, env).store, Exec(cmd, s2, env).store, key)
  {
    hide KindOf, Decide, Plan;
    var kind := KindOf(cmd.name).value;
    var t1, t2 := SweptAll(s1, env(0).sweeps), SweptAll(s2, env(0).sweeps);
    SweptAgree(s1, s2, env(0).sweeps, key);
    match Plan(kind, cmd)
    case NoAccess(_) =>
    case OnKey(k) =>
      ApplyLocal(t1, t2, key, Decide(kind, cmd, Lookup(t1, key, env(0).now)).write, env(1));
      hide SweptAll, Apply;
    case DelKeys(keys) =>
      assert keys[0..] == keys;
      DelLocal(s1, s2, keys, 0, 0, env, key);
      hide DelFrom, SweptAll;
    case CountKeys(keys) =>
      assert keys[0..] == keys;
      CountLocal(s1, s2, keys, 0, 0, env, key);
      hide CountFrom, SweptAll;
    case _ => hide SweptAll;
  }

  /** Two commands that name disjoint keys give the same replies and the same store in either
      order, for every pair of commands, each at its own clock readings. */
  lemma DisjointCommute(a: Command, b: Command, s: Store, ea: Env, eb: Env)
    requires KeysOf(a) !! KeysOf(b) && Quiet(ea) && Quiet(eb)
    ensures var ra, rb := Exec(a, s, ea), Exec(b, s, eb);
            var ab, ba := Exec(b, ra.store, eb), Exec(a, rb.store, ea);
            ab.outcome == rb.outcome && ba.outcome == ra.outcome && ab.store == ba.store
  {
    hide Exec, KeysOf;
    var sa, sb := Exec(a, s, ea).store, Exec(b, s, eb).store;
    forall key | key in KeysOf(b) ensures SameAt(sa, s, key) { QuietFrame(a, s, ea, key); }
    forall key | key in KeysOf(a) ensures SameAt(sb, s, key) { QuietFrame(b, s, eb, key); }
    ExecLocal(b, sa, s, eb);
    ExecLocal(a, sb, s, ea);
    var ab, ba := Exec(b, sa, eb).store, Exec(a, sb, ea).store;
    forall key ensures SameAt(ab, ba, key) {
      if key !in KeysOf(b) {
        QuietFrame(b, sa, eb, key);
        if key in KeysOf(a) {
          assert SameAt(ba, sa, key);
        } else {
          QuietFrame(a, s, ea, key);
          QuietFrame(b, s, eb, key);
          QuietFrame(a, sb, ea, key);
        }
      } else {
        QuietFrame(a, sb, ea, key);
        assert SameAt(ab, sb, key);
      }
    }
    SameEverywhere(ab, ba);
  }

  lemma StillClock(env: Env, t: Time)
    requires Orderly(env, t, t)
    ensures SameClock(env, Still(t)) && Orderly(Still(t), t, t)
  {
    forall i: nat ensures env(i).before == t && env(i).now == t && env(i).later == t {
      assert Ordered(env(i)) && After(env(i), t);
    }
  }

  /** The same at one instant, with any sweeps running before, between and inside the commands:
      in both orders the replies are those of the commands alone, and what can be seen then and
      later is the same. */
  lemma DisjointCommuteSwept(a: Command, b: Command, s: Store, ea: Env, eb: Env, ea': Env, eb': Env, t: Time)
    requires KeysOf(a) !! KeysOf(b)
    requires Orderly(ea, t, t) && Orderly(eb, t, t) && Orderly(ea', t, t) && Orderly(eb', t, t)
    ensures var ra, rb := Exec(a, s, ea), Exec(b, s, eb');
            var ab, ba := Exec(b, ra.store, eb), Exec(a, rb.store, ea');
            && ab.outcome == rb.outcome && ba.outcome == ra.outcome
            && forall later :: later >= t ==> View(ab.store, later) == View(ba.store, later)
  {
    hide Exec, KeysOf, View, Orderly;
    var e := Still(t);
    StillClock(ea, t);
    StillClock(eb, t);
    StillClock(ea', t);
    StillClock(eb', t);
    DisjointCommute(a, b, s, e, e);
    ExecHidden(a, s, s, ea, e, t, t);
    ExecHidden(b, s, s, eb', e, t, t);
    var sa, sb := Exec(a, s, ea).store, Exec(b, s, eb').store;
    ExecHidden(b, sa, Exec(a, s, e).store, eb, e, t, t);
    ExecHidden(a, sb, Exec(b, s, e).store, ea', e, t, t);
    var ab, ba := Exec(b, sa, eb).store, Exec(a, sb, ea').store;
    forall later | later >= t ensures View(ab, later) == View(ba, later) {
      ViewLater(ab, ba, t, later);
    }
  }

  // ---- without deadlines there is no clock -------------------------------------------------------

  ghost predicate Timeless(s: Store) {
    forall key :: key in s ==> s[key].deadline.None?
  }

  /** The command sets no deadline: it is not EXPIRE, nor SET with a valid EX or PX. */
  predicate SetsNoDeadline(cmd: Command) {
    match KindOf(cmd.name)
    case Some(Expire) => false
    case Some(SetKey) => OptionsOf(cmd.args).Options? ==> OptionsOf(cmd.args).options.millis <= 0
    case _ => true
  }

  lemma {:induction false} TimelessSweeps(s: Store, times: seq<Time>)
    requires Timeless(s)
    ensures SweptAll(s, times) == s
    decreases |times|
  {
    if times != [] {
      assert Swept(s, times[0]) == s;
      TimelessSweeps(s, times[1..]);
    }
  }

  lemma {:induction false} TimelessDel(s: Store, keys: seq<Bytes>, i: nat, count: int, e1: Env, e2: Env)
    requires i <= |keys| && Timeless(s)
    ensures DelFrom(s, keys, i, count, e1) == DelFrom(s, keys, i, count, e2)
    ensures Timeless(DelFrom(s, keys, i, count, e1).store)
    decreases |keys| - i
  {
    if i < |keys| {
      TimelessSweeps(s, e1(i).sweeps);
      TimelessSweeps(s, e2(i).sweeps);
      TimelessDel(s - {keys[i]}, keys, i + 1, count + (if Alive(s, keys[i], e1(i).now) then 1 else 0), e1, e2);
    }
  }

  lemma {:induction false} TimelessCount(s: Store, keys: seq<Bytes>, i: nat, count: int, e1: Env, e2: Env)
    requires i <= |keys| && Timeless(s)
    ensures CountFrom(s, keys, i, count, e1) == CountFrom(s, keys, i, count, e2)
    ensures CountFrom(s, keys, i, count, e1).store == s
    decreases |keys| - i
  {
    if i < |keys| {
      TimelessSweeps(s, e1(i).sweeps);
      TimelessSweeps(s, e2(i).sweeps);
      TimelessCount(s, keys, i + 1, count + (if Alive(s, keys[i], e1(i).now) then 1 else 0), e1, e2);
    }
  }

  lemma PutsNoDeadline(kind: Kind, cmd: Command, found: Option<Value>)
    requires KindOf(cmd.name) == Some(kind) && SetsNoDeadline(cmd) && Plan(kind, cmd).OnKey?
    ensures var w := Decide(kind, cmd, found).write; w.Put? ==> w.millis <= 0
  {
    hide KindOf, ParseInt, IntText, OptionsOf, PushFront, PutFields, SetOf, WithoutFields, RangeOf, IndexOf;
  }

  lemma PlanSetsNoDeadline(kind: Kind, cmd: Command)
    requires KindOf(cmd.name) == Some(kind) && SetsNoDeadline(cmd)
    ensures !Plan(kind, cmd).ExpireKey?
  {
    hide KindOf, OptionsOf;
  }

  /** On a store without deadlines, a command that sets none has one effect and one reply,
      whatever the clock reads and the sweeps do, and leaves a store without deadlines. */
  lemma ClockFree(cmd: Command, s: Store, e1: Env, e2: Env)
    requires Timeless(s) && SetsNoDeadline(cmd)
    ensures Exec(cmd, s, e1) == Exec(cmd, s, e2)
    ensures Timeless(Exec(cmd, s, e1).store)
  {
    if KindOf(cmd.name).Some? {
      var kind := KindOf(cmd.name).value;
      PlanSetsNoDeadline(kind, cmd);
      TimelessSweeps(s, e1(0).sweeps);
      TimelessSweeps(s, e1(1).sweeps);
      TimelessSweeps(s, e2(0).sweeps);
      TimelessSweeps(s, e2(1).sweeps);
      match Plan(kind, cmd)
      case OnKey(key) =>
        PutsNoDeadline(kind, cmd, Lookup(s, key, e1(0).now));
        hide KindOf, Plan, Decide;
        assert Lookup(s, key, e1(0).now) == Lookup(s, key, e2(0).now);
      case DelKeys(keys) =>
        hide KindOf, Plan, Decide;
        TimelessDel(s, keys, 0, 0, e1, e2);
      case CountKeys(keys) =>
        hide KindOf, Plan, Decide;
        TimelessCount(s, keys, 0, 0, e1, e2);
      case _ =>
        hide KindOf, Plan, Decide;
    }
  }
}
