/** SET with its options, GET after it, and the key counts of DEL and EXISTS, against their meaning. */
module Strings {
  import opened Bytes
  import opened Numbers
  import opened Names
  import opened Resp
  import opened Store
  import opened Commands
  import opened Runs
  import opened StoreTheorems
  import opened Expiry

  // ---- the options of SET --------------------------------------------------------------------

  datatype SetOption = Ex(seconds: int) | Px(millis: int) | Nx | Xx

  /** The arguments from position `i` on spell these options, in any letter case. */
  ghost predicate Spells(args: seq<Bytes>, i: nat, opts: seq<SetOption>)
    decreases |opts|
  {
    if opts == [] then i >= |args|
    else if i >= |args| then false
    else
      match opts[0]
      case Nx => Spelling(args[i], "NX") && Spells(args, i + 1, opts[1..])
      case Xx => Spelling(args[i], "XX") && Spells(args, i + 1, opts[1..])
      case Ex(n) => Spelling(args[i], "EX") && Amount(args, i + 1, n) && Spells(args, i + 2, opts[1..])
      case Px(n) => Spelling(args[i], "PX") && Amount(args, i + 1, n) && Spells(args, i + 2, opts[1..])
  }

  ghost predicate Amount(args: seq<Bytes>, i: nat, n: int) {
    i < |args| && DenotesInt64(args[i], n) && n > 0
  }

  /** The last lifetime named, in milliseconds; `otherwise` when none is. */
  function LastTtl(opts: seq<SetOption>, otherwise: int): int {
    if opts == [] then otherwise
    else
      match opts[|opts| - 1]
      case Ex(n) => n * 1000
      case Px(n) => n
      case _ => LastTtl(opts[..|opts| - 1], otherwise)
  }

  lemma {:induction false} LastTtlFront(opts: seq<SetOption>, otherwise: int)
    requires opts != []
    ensures LastTtl(opts, otherwise)
            == LastTtl(opts[1..], match opts[0] case Ex(n) => n * 1000 case Px(n) => n case _ => otherwise)
    decreases |opts|
  {
    var last := |opts| - 1;
    if last > 0 {
      assert opts[1..][..last - 1] == opts[..last][1..];
      LastTtlFront(opts[..last], otherwise);
    } else {
      assert opts[..0] == [] && opts[1..] == [];
    }
  }

  lemma Flags(text: Bytes)
    ensures forall word :: Upper(text) == word <==> Spelling(text, word)
  {
    forall word ensures Upper(text) == word <==> Spelling(text, word) {
      UpperIsSpelling(text, word);
    }
  }

  lemma Amounts(text: Bytes)
    ensures forall n :: ParseInt(text) == Some(n) <==> DenotesInt64(text, n)
  {
    forall n ensures ParseInt(text) == Some(n) <==> DenotesInt64(text, n) {
      ParseMeaning(text, n);
    }
  }

  lemma {:induction false} ScanRead(args: seq<Bytes>, i: nat, opts: seq<SetOption>, o: SetOptions)
    requires Spells(args, i, opts)
    ensures ScanOptions(args, i, o)
            == Options(SetOptions(LastTtl(opts, o.millis), o.nx || Nx in opts, o.xx || Xx in opts))
    decreases |opts|
  {
    hide ParseInt, Upper, Spelling, DenotesInt64;
    if opts != [] {
      Flags(args[i]);
      if i + 1 < |args| {
        Amounts(args[i + 1]);
      }
      LastTtlFront(opts, o.millis);
      assert opts == [opts[0]] + opts[1..];
      hide LastTtl;
      match opts[0]
      case Nx => ScanRead(args, i + 1, opts[1..], o.(nx := true));
      case Xx => ScanRead(args, i + 1, opts[1..], o.(xx := true));
      case Ex(n) => ScanRead(args, i + 2, opts[1..], o.(millis := n * 1000));
      case Px(n) => ScanRead(args, i + 2, opts[1..], o.(millis := n));
    }
  }

  lemma {:induction false} ScanSpelled(args: seq<Bytes>, i: nat, o: SetOptions) returns (opts: seq<SetOption>)
    requires ScanOptions(args, i, o).Options?
    ensures Spells(args, i, opts)
    decreases |args| - i
  {
    hide ParseInt, Upper, Spelling, DenotesInt64;
    if i >= |args| {
      return [];
    }
    Flags(args[i]);
    if i + 1 < |args| {
      Amounts(args[i + 1]);
    }
    var flag := Upper(args[i]);
    var rest, first;
    if flag == "NX" {
      first := Nx;
      rest := ScanSpelled(args, i + 1, o.(nx := true));
    } else if flag == "XX" {
      first := Xx;
      rest := ScanSpelled(args, i + 1, o.(xx := true));
    } else {
      var n := ParseInt(args[i + 1]).value;
      first := if flag == "EX" then Ex(n) else Px(n);
      rest := ScanSpelled(args, i + 2, o.(millis := if flag == "EX" then n * 1000 else n));
    }
    opts := [first] + rest;
    assert opts[1..] == rest;
  }

  /** The option loop accepts exactly the arguments that spell a list of options, and reads off
      that list the flags it mentions and its last lifetime. */
  lemma OptionsMeaning(args: seq<Bytes>)
    ensures OptionsOf(args).Options? <==> exists opts :: Spells(args, 2, opts)
    ensures forall opts :: Spells(args, 2, opts) ==>
              OptionsOf(args) == Options(SetOptions(LastTtl(opts, 0), Nx in opts, Xx in opts))
  {
    hide ScanOptions, Spells, LastTtl;
    if OptionsOf(args).Options? {
      var opts := ScanSpelled(args, 2, SetOptions(0, false, false));
    }
    forall opts | Spells(args, 2, opts)
      ensures OptionsOf(args) == Options(SetOptions(LastTtl(opts, 0), Nx in opts, Xx in opts))
    {
      ScanRead(args, 2, opts, SetOptions(0, false, false));
    }
  }

  // ---- SET -----------------------------------------------------------------------------------

  lemma SetDecision(cmd: Command, s: Store, env: Env, opts: seq<SetOption>)
    requires cmd.name == "SET" && |cmd.args| >= 2 && Spells(cmd.args, 2, opts)
    requires !(Nx in opts && Xx in opts)
    ensures var s' := SweptAll(s, env(0).sweeps);
            var present := Alive(s', cmd.args[0], env(0).now);
            Exec(cmd, s, env)
            == if (Nx in opts && present) || (Xx in opts && !present) then Executed(Reply(Null), s')
               else Executed(Reply(SimpleString("OK")),
                             Written(SweptAll(s', env(1).sweeps), cmd.args[0], Str(cmd.args[1]), LastTtl(opts, 0), env(1).before))
  {
    StringNames();
    OptionsMeaning(cmd.args);
    hide OptionsOf, Spells, LastTtl, SweptAll, Written, KindOf;
  }

  /** SET with options that are spelled well: NX refuses a live key and XX an absent one, with a
      null and with nothing changed; otherwise the key holds the value, for ever or until the
      last lifetime named runs out. Sweeps may run at any point. */
  lemma SetStores(cmd: Command, s: Store, env: Env, start: Time, end: Time, opts: seq<SetOption>, t: Time)
    requires cmd.name == "SET" && |cmd.args| >= 2 && Spells(cmd.args, 2, opts)
    requires !(Nx in opts && Xx in opts)
    requires Orderly(env, start, end) && start <= end <= t
    ensures var key, ttl := cmd.args[0], LastTtl(opts, 0);
            var present := Alive(s, key, env(0).now);
            var r := Exec(cmd, s, env);
            if (Nx in opts && present) || (Xx in opts && !present)
            then r.outcome == Reply(Null) && View(r.store, t) == View(s, t)
            else && r.outcome == Reply(SimpleString("OK"))
                 && Lookup(r.store, key, t)
                    == if ttl <= 0 || t < env(1).before + ttl * NANOS_PER_MILLI then Some(Str(cmd.args[1])) else None
  {
    assert Ordered(env(0));
    SweptSame(s, env(0), cmd.args[0]);
    SetDecision(cmd, s, env, opts);
    SweptAllView(s, env(0).sweeps, t);
    var s2 := SweptAll(SweptAll(s, env(0).sweeps), env(1).sweeps);
    WrittenLifetime(s2, cmd.args[0], Str(cmd.args[1]), LastTtl(opts, 0), env(1).before, t);
    hide Exec, Spells, LastTtl, SweptAll, Written, KindOf, View, Lookup, Alive;
  }

  /** The arguments from position `i` on are options up to the first that is not one, and that one
      is at fault: no option word, a lifetime without an amount, or an amount that is no positive
      int64. */
  ghost predicate Stops(args: seq<Bytes>, i: nat, fault: Fault)
    decreases |args| - i
  {
    if i >= |args| then false
    else if Spelling(args[i], "NX") || Spelling(args[i], "XX") then Stops(args, i + 1, fault)
    else if !Spelling(args[i], "EX") && !Spelling(args[i], "PX") then fault == SyntaxError
    else if i + 1 == |args| then fault == SyntaxError
    else if IsLifetime(args[i + 1]) then Stops(args, i + 2, fault)
    else fault == BadExpireTime
  }

  ghost predicate IsLifetime(text: Bytes) {
    exists n :: DenotesInt64(text, n) && n > 0
  }

  lemma {:induction false} ScanStops(args: seq<Bytes>, i: nat, o: SetOptions, fault: Fault)
    ensures ScanOptions(args, i, o) == Rejected(fault) <==> Stops(args, i, fault)
    decreases |args| - i
  {
    hide ParseInt, Upper, Spelling, DenotesInt64;
    if i < |args| {
      Flags(args[i]);
      var flag := Upper(args[i]);
      if flag == "NX" {
        ScanStops(args, i + 1, o.(nx := true), fault);
      } else if flag == "XX" {
        ScanStops(args, i + 1, o.(xx := true), fault);
      } else if (flag == "EX" || flag == "PX") && i + 1 < |args| {
        Amounts(args[i + 1]);
        if ParseInt(args[i + 1]).Some? && ParseInt(args[i + 1]).value > 0 {
          var n := ParseInt(args[i + 1]).value;
          assert DenotesInt64(args[i + 1], n);
          ScanStops(args, i + 2, o.(millis := if flag == "EX" then n * 1000 else n), fault);
        }
      }
    }
  }

  /** What SET is refused with: the number of its arguments; the first that is at fault; or NX and
      XX together. In every other case it is not refused. */
  ghost predicate SetFault(args: seq<Bytes>, fault: Fault) {
    if |args| < 2 then fault == WrongArgs("SET")
    else Stops(args, 2, fault) || (fault == NxWithXx && exists opts :: Spells(args, 2, opts) && Nx in opts && Xx in opts)
  }

  lemma SetPlanFault(cmd: Command, fault: Fault)
    requires cmd.name == "SET"
    ensures Plan(SetKey, cmd) == NoAccess(Failed(fault)) <==> SetFault(cmd.args, fault)
    ensures Plan(SetKey, cmd).NoAccess? ==> Plan(SetKey, cmd).outcome.Failed?
    ensures Plan(SetKey, cmd).NoAccess? || Plan(SetKey, cmd).OnKey?
  {
    OptionsMeaning(cmd.args);
    ScanStops(cmd.args, 2, SetOptions(0, false, false), fault);
    hide ScanOptions, Stops, Spells, LastTtl;
  }

  /** SET is refused with exactly that error, and then nothing changes. */
  lemma SetRefused(cmd: Command, s: Store, env: Env, fault: Fault)
    requires cmd.name == "SET"
    ensures Exec(cmd, s, env).outcome == Failed(fault) <==> SetFault(cmd.args, fault)
    ensures Exec(cmd, s, env).outcome.Failed? ==> Exec(cmd, s, env).store == s
  {
    StringNames();
    SetPlanFault(cmd, fault);
    hide KindOf, Plan, Decide, SetFault;
    if Plan(SetKey, cmd).OnKey? {
      SetNeverFails(cmd, Lookup(SweptAll(s, env(0).sweeps), Plan(SetKey, cmd).key, env(0).now));
    }
  }

  lemma SetNeverFails(cmd: Command, found: Option<Value>)
    requires Plan(SetKey, cmd).OnKey?
    ensures !Decide(SetKey, cmd, found).outcome.Failed?
  {
    hide OptionsOf;
  }

  // ---- GET -----------------------------------------------------------------------------------

  /** GET answers the string that is seen at its clock reading, null when none is, and throws on a
      value of another type; sweeps make no difference. */
  lemma GetAnswers(cmd: Command, s: Store, env: Env)
    requires cmd.name == "GET" && |cmd.args| == 1 && Ordered(env(0))
    ensures Exec(cmd, s, env).outcome
            == match Lookup(s, cmd.args[0], env(0).now)
               case None => Reply(Null)
               case Some(Str(data)) => Reply(BulkString(data))
               case Some(_) => Throw
  {
    StringNames();
    SweptSame(s, env(0), cmd.args[0]);
    hide KindOf, SweptAll;
  }

  ghost predicate NamesNot(steps: seq<Step>, key: Bytes) {
    forall i :: 0 <= i < |steps| ==> key !in KeysOf(steps[i].cmd)
  }

  lemma {:induction false} RunKeepsKey(s: Store, steps: seq<Step>, key: Bytes, start: Time, t: Time)
    requires Timely(steps, start) && NamesNot(steps, key) && EndOf(steps, start) <= t
    ensures Lookup(RunStore(s, steps), key, t) == Lookup(s, key, t)
    decreases |steps|
  {
    hide Exec, KeysOf, Orderly, Lookup;
    if steps != [] {
      var a := steps[0];
      EndsLater(steps[1..], a.end);
      OthersKeepLifetime(a.cmd, s, a.env, start, a.end, key, t);
      RunKeepsKey(Exec(a.cmd, s, a.env).store, steps[1..], key, a.end, t);
    }
  }

  /** SET, then any commands that do not name the key, then GET: the answer is the value, until the
      last lifetime that SET named runs out, and null from then on, with any sweeps at any points. */
  lemma SetThenGet(put: Command, opts: seq<SetOption>, s: Store, e1: Env, steps: seq<Step>, get: Command, e2: Env,
                   start: Time, end: Time)
    requires put.name == "SET" && |put.args| >= 2 && Spells(put.args, 2, opts) && !(Nx in opts && Xx in opts)
    requires get == Command("GET", [put.args[0]]) && Orderly(e1, start, end) && start <= end
    requires var present := Alive(s, put.args[0], e1(0).now); !(Nx in opts && present) && !(Xx in opts && !present)
    requires Timely(steps, end) && NamesNot(steps, put.args[0])
    requires Ordered(e2(0)) && EndOf(steps, end) <= e2(0).now
    ensures var ttl := LastTtl(opts, 0);
            Exec(get, RunStore(Exec(put, s, e1).store, steps), e2).outcome
            == Reply(if ttl <= 0 || e2(0).now < e1(1).before + ttl * NANOS_PER_MILLI then BulkString(put.args[1]) else Null)
  {
    hide Exec, KeysOf, Orderly, Lookup, Spells, LastTtl, RunStore, NamesNot, Alive;
    var t := e2(0).now;
    EndsLater(steps, end);
    SetStores(put, s, e1, start, end, opts, t);
    RunKeepsKey(Exec(put, s, e1).store, steps, put.args[0], end, t);
    GetAnswers(get, RunStore(Exec(put, s, e1).store, steps), e2);
  }

  // ---- DEL and EXISTS ------------------------------------------------------------------------

  /** The positions from `i` on that name a key alive at their own reading of the clock. */
  ghost function LivePositions(s: Store, keys: seq<Bytes>, i: nat, env: Env): set<nat> {
    set j: nat | i <= j < |keys| && Alive(s, keys[j], env(j).now)
  }

  /** Those among them that name their key for the first time. */
  ghost function FirstLive(s: Store, keys: seq<Bytes>, i: nat, env: Env): set<nat> {
    set j: nat | i <= j < |keys| && keys[j] !in keys[i..j] && Alive(s, keys[j], env(j).now)
  }

  /** A sweep before one reading hides nothing from that reading or a later one. */
  lemma SweptBefore(s: Store, env: Env, start: Time, end: Time, i: nat, j: nat, key: Bytes)
    requires Orderly(env, start, end) && i <= j
    ensures Alive(SweptAll(s, env(i).sweeps), key, env(j).now) == Alive(s, key, env(j).now)
  {
    assert Ordered(env(i)) && env(i).now <= env(i).later;
    assert i < j ==> After(env(j), env(i).later);
    SweptAllView(s, env(i).sweeps, env(j).now);
    SameView(SweptAll(s, env(i).sweeps), s, key, env(j).now);
  }

  lemma NoneLeft(s: Store, keys: seq<Bytes>, env: Env)
    ensures FirstLive(s, keys, |keys|, env) == {} && LivePositions(s, keys, |keys|, env) == {}
  {
    hide Alive;
  }

  lemma FirstLiveStep(s: Store, keys: seq<Bytes>, i: nat, env: Env, start: Time, end: Time)
    requires i < |keys| && Orderly(env, start, end)
    ensures var s' := SweptAll(s, env(i).sweeps);
            var later := FirstLive(s' - {keys[i]}, keys, i + 1, env);
            && i !in later
            && FirstLive(s, keys, i, env) == if Alive(s', keys[i], env(i).now) then later + {i} else later
  {
    var s' := SweptAll(s, env(i).sweeps);
    SweptBefore(s, env, start, end, i, i, keys[i]);
    forall j: nat | i < j < |keys|
      ensures j in FirstLive(s, keys, i, env) <==> j in FirstLive(s' - {keys[i]}, keys, i + 1, env)
    {
      SweptBefore(s, env, start, end, i, j, keys[j]);
      assert keys[i..j] == [keys[i]] + keys[i + 1..j];
    }
    assert keys[i..i] == [];
    hide SweptAll, Orderly;
  }

  /** DEL answers how many different keys it was given that were alive when it came to them first,
      with any sweeps meanwhile. */
  lemma {:induction false} DelCounts(s: Store, keys: seq<Bytes>, i: nat, count: int, env: Env, start: Time, end: Time)
    requires i <= |keys| && Orderly(env, start, end)
    ensures DelFrom(s, keys, i, count, env).outcome == Reply(Integer(count + |FirstLive(s, keys, i, env)|))
    decreases |keys| - i
  {
    hide FirstLive, Alive, SweptAll, Orderly;
    if i == |keys| {
      NoneLeft(s, keys, env);
    } else {
      FirstLiveStep(s, keys, i, env, start, end);
      var s' := SweptAll(s, env(i).sweeps);
      DelCounts(s' - {keys[i]}, keys, i + 1, count + (if Alive(s', keys[i], env(i).now) then 1 else 0), env, start, end);
    }
  }

  lemma LivePositionsStep(s: Store, keys: seq<Bytes>, i: nat, env: Env, start: Time, end: Time)
    requires i < |keys| && Orderly(env, start, end)
    ensures var s' := SweptAll(s, env(i).sweeps);
            var later := LivePositions(s', keys, i + 1, env);
            && i !in later
            && LivePositions(s, keys, i, env) == if Alive(s', keys[i], env(i).now) then later + {i} else later
  {
    var s' := SweptAll(s, env(i).sweeps);
    forall j: nat | i <= j < |keys| ensures Alive(s', keys[j], env(j).now) == Alive(s, keys[j], env(j).now) {
      SweptBefore(s, env, start, end, i, j, keys[j]);
    }
    hide SweptAll, Orderly, Alive;
  }

  /** EXISTS answers how many of the positions it was given name a key alive when it came to them. */
  lemma {:induction false} ExistsCounts(s: Store, keys: seq<Bytes>, i: nat, count: int, env: Env, start: Time, end: Time)
    requires i <= |keys| && Orderly(env, start, end)
    ensures CountFrom(s, keys, i, count, env).outcome == Reply(Integer(count + |LivePositions(s, keys, i, env)|))
    decreases |keys| - i
  {
    hide LivePositions, Alive, SweptAll, Orderly;
    if i == |keys| {
      NoneLeft(s, keys, env);
    } else {
      LivePositionsStep(s, keys, i, env, start, end);
      var s' := SweptAll(s, env(i).sweeps);
      ExistsCounts(s', keys, i + 1, count + (if Alive(s', keys[i], env(i).now) then 1 else 0), env, start, end);
    }
  }

  lemma {:induction false} DelGone(s: Store, keys: seq<Bytes>, i: nat, count: int, env: Env, key: Bytes)
    requires i <= |keys| && (key in keys[i..] || key !in s)
    ensures key !in DelFrom(s, keys, i, count, env).store
    decreases |keys| - i
  {
    if i < |keys| {
      assert keys[i..] == [keys[i]] + keys[i + 1..];
      var s' := SweptAll(s, env(i).sweeps);
      SweptAllSub(s, env(i).sweeps);
      hide SweptAll;
      DelGone(s' - {keys[i]}, keys, i + 1, count + (if Alive(s', keys[i], env(i).now) then 1 else 0), env, key);
    }
  }

  /** DEL counts over all its arguments, and none of them is in the store afterwards. */
  lemma DelCommand(cmd: Command, s: Store, env: Env, start: Time, end: Time)
    requires cmd.name == "DEL" && cmd.args != [] && Orderly(env, start, end)
    ensures Exec(cmd, s, env).outcome == Reply(Integer(|FirstLive(s, cmd.args, 0, env)|))
    ensures forall key :: key in cmd.args ==> key !in Exec(cmd, s, env).store
  {
    GenericNames();
    hide KindOf, FirstLive, Orderly, DelFrom;
    DelCounts(s, cmd.args, 0, 0, env, start, end);
    assert cmd.args[0..] == cmd.args;
    forall key | key in cmd.args ensures key !in Exec(cmd, s, env).store {
      DelGone(s, cmd.args, 0, 0, env, key);
    }
  }

  /** EXISTS counts over all its arguments. */
  lemma ExistsCommand(cmd: Command, s: Store, env: Env, start: Time, end: Time)
    requires cmd.name == "EXISTS" && cmd.args != [] && Orderly(env, start, end)
    ensures Exec(cmd, s, env).outcome == Reply(Integer(|LivePositions(s, cmd.args, 0, env)|))
  {
    GenericNames();
    hide KindOf, LivePositions, Orderly, CountFrom;
    ExistsCounts(s, cmd.args, 0, 0, env, start, end);
  }
}
