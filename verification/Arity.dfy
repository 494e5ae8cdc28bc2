/** How many arguments each command takes. */
module Arity {
  import opened Bytes
  import opened Store
  import opened Commands
  import opened StoreTheorems
  import opened Names
  import opened Replies

  predicate GenericTakes(name: Bytes, n: nat) {
    if name == "PING" then n <= 1
    else if name == "HEALTH" then n == 0
    else if name == "DEL" || name == "EXISTS" then n >= 1
    else if name == "EXPIRE" then n == 2
    else n == 1
  }

  predicate StringTakes(name: Bytes, n: nat) {
    if name == "SET" then n >= 2 else if name == "INCRBY" || name == "DECRBY" then n == 2 else n == 1
  }

  predicate ListTakes(name: Bytes, n: nat) {
    if name == "LPUSH" || name == "RPUSH" then n >= 2
    else if name == "LRANGE" then n == 3
    else if name == "LINDEX" then n == 2
    else n == 1
  }

  predicate SetTakes(name: Bytes, n: nat) {
    if name == "SADD" || name == "SREM" then n >= 2 else if name == "SISMEMBER" then n == 2 else n == 1
  }

  /** HSET takes a key and pairs. */
  predicate HashTakes(name: Bytes, n: nat) {
    if name == "HSET" then n >= 3 && n % 2 == 1
    else if name == "HDEL" then n >= 2
    else if name == "HGET" || name == "HEXISTS" then n == 2
    else n == 1
  }

  predicate Wrong(out: Outcome, name: Bytes) {
    out == Failed(WrongArgs(name))
  }

  /** The command is refused before the store is looked at, and for nothing but its arguments. */
  ghost predicate Admits(kind: Kind, cmd: Command) {
    Plan(kind, cmd) != NoAccess(Failed(WrongArgs(cmd.name)))
  }

  lemma DecideNotWrong(kind: Kind, cmd: Command, found: Option<Value>)
    requires Plan(kind, cmd).OnKey?
    ensures !Wrong(Decide(kind, cmd, found).outcome, cmd.name)
  {
    hide ParseInt, IntText, OptionsOf, PushFront, PutFields, SetOf, WithoutFields, RangeOf, IndexOf;
  }

  lemma AdmitsIs(kind: Kind, cmd: Command, s: Store, env: Env)
    requires KindOf(cmd.name) == Some(kind)
    ensures Wrong(Exec(cmd, s, env).outcome, cmd.name) <==> !Admits(kind, cmd)
    ensures !Admits(kind, cmd) ==> Exec(cmd, s, env) == Executed(Failed(WrongArgs(cmd.name)), s)
  {
    hide KindOf, Decide, Plan;
    match Plan(kind, cmd)
    case OnKey(key) =>
      var found := Lookup(SweptAll(s, env(0).sweeps), key, env(0).now);
      DecideNotWrong(kind, cmd, found);
    case DelKeys(keys) => DelReplies(s, keys, 0, 0, env);
    case CountKeys(keys) => CountsReply(s, keys, 0, 0, env);
    case _ =>
  }

  lemma GenericAdmits(cmd: Command)
    requires Generic(cmd.name)
    ensures KindOf(cmd.name).Some? && (Admits(KindOf(cmd.name).value, cmd) <==> GenericTakes(cmd.name, |cmd.args|))
  {
    GenericNames();
    hide KindOf, ParseInt;
  }

  lemma StringPlans(cmd: Command)
    ensures Admits(SetKey, cmd) <==> |cmd.args| >= 2
    ensures Admits(IncrBy, cmd) == Admits(DecrBy, cmd) && (Admits(IncrBy, cmd) <==> |cmd.args| == 2)
    ensures Admits(Get, cmd) == Admits(Incr, cmd) == Admits(Decr, cmd) && (Admits(Get, cmd) <==> |cmd.args| == 1)
  {
    ScanFaults(cmd.args, 2, SetOptions(0, false, false));
    hide ParseInt, ScanOptions;
  }

  lemma StringAdmits(cmd: Command)
    requires Strings(cmd.name)
    ensures KindOf(cmd.name).Some? && (Admits(KindOf(cmd.name).value, cmd) <==> StringTakes(cmd.name, |cmd.args|))
  {
    StringNames();
    StringPlans(cmd);
    hide KindOf, Admits;
  }

  lemma ListAdmits(cmd: Command)
    requires Lists(cmd.name)
    ensures KindOf(cmd.name).Some? && (Admits(KindOf(cmd.name).value, cmd) <==> ListTakes(cmd.name, |cmd.args|))
  {
    PushPopNames();
    ListReadNames();
    hide KindOf, ParseInt;
  }

  lemma SetAdmits(cmd: Command)
    requires Sets(cmd.name)
    ensures KindOf(cmd.name).Some? && (Admits(KindOf(cmd.name).value, cmd) <==> SetTakes(cmd.name, |cmd.args|))
  {
    SetNames();
    hide KindOf, ParseInt;
  }

  lemma HashAdmits(cmd: Command)
    requires Hashes(cmd.name)
    ensures KindOf(cmd.name).Some? && (Admits(KindOf(cmd.name).value, cmd) <==> HashTakes(cmd.name, |cmd.args|))
  {
    HashWriteNames();
    HashReadNames();
    HashSizeNames();
    hide KindOf, ParseInt;
  }

  /** A command is refused for the number of its arguments exactly when it does not take that many,
      and then nothing changes. */
  lemma ArityLaw(cmd: Command, s: Store, env: Env)
    ensures var out, n := Exec(cmd, s, env).outcome, |cmd.args|;
            && (Generic(cmd.name) ==> (Wrong(out, cmd.name) <==> !GenericTakes(cmd.name, n)))
            && (Strings(cmd.name) ==> (Wrong(out, cmd.name) <==> !StringTakes(cmd.name, n)))
            && (Lists(cmd.name) ==> (Wrong(out, cmd.name) <==> !ListTakes(cmd.name, n)))
            && (Sets(cmd.name) ==> (Wrong(out, cmd.name) <==> !SetTakes(cmd.name, n)))
            && (Hashes(cmd.name) ==> (Wrong(out, cmd.name) <==> !HashTakes(cmd.name, n)))
    ensures Wrong(Exec(cmd, s, env).outcome, cmd.name) ==> Exec(cmd, s, env).store == s
  {
    hide Exec, KindOf, Generic, Strings, Lists, Sets, Hashes, GenericTakes, StringTakes, ListTakes, SetTakes, HashTakes, Admits;
    if KindOf(cmd.name).Some? {
      AdmitsIs(KindOf(cmd.name).value, cmd, s, env);
    } else {
      UnknownIsNotWrong(cmd, s, env);
    }
    if Generic(cmd.name) { GenericAdmits(cmd); }
    if Strings(cmd.name) { StringAdmits(cmd); }
    if Lists(cmd.name) { ListAdmits(cmd); }
    if Sets(cmd.name) { SetAdmits(cmd); }
    if Hashes(cmd.name) { HashAdmits(cmd); }
  }

  lemma UnknownIsNotWrong(cmd: Command, s: Store, env: Env)
    requires KindOf(cmd.name).None?
    ensures !Wrong(Exec(cmd, s, env).outcome, cmd.name)
  {
    hide KindOf;
  }
}
