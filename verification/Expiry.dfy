/** How long a key lives: a deadline is exact to the clock tick, and TTL tells it in seconds. */
module Expiry {
  import opened Bytes
  import opened Numbers
  import opened Names
  import opened Resp
  import opened Store
  import opened Commands
  import opened Runs
  import opened StoreTheorems

  const NANOS_PER_SECOND: int := 1_000_000_000

  /** A key set with a time to live is seen at exactly the clock readings before its deadline;
      set without one, always. */
  lemma WrittenLifetime(s: Store, key: Bytes, value: Value, millis: int, before: Time, t: Time)
    ensures Lookup(Written(s, key, value, millis, before), key, t)
            == if millis <= 0 || t < before + millis * NANOS_PER_MILLI then Some(value) else None
  {
  }

  /** EXPIRE replaces the lifetime of a key that is alive, and does not revive one that is not;
      PERSIST removes it. The value stays. */
  lemma ExpireLifetime(s: Store, key: Bytes, millis: int, now: Time, later: Time, t: Time)
    requires now <= t
    ensures Lookup(ExpireAt(s, key, millis, now, later), key, t)
            == if Alive(s, key, now) && t < later + millis * NANOS_PER_MILLI then Some(s[key].value) else None
    ensures Lookup(Persisted(s, key, now), key, t) == Lookup(s, key, now)
  {
  }

  /** Any sweeps leave exactly the entries that were not past their deadline at any of them. */
  lemma {:induction false} SweepsExact(s: Store, times: seq<Time>, key: Bytes)
    ensures var s' := SweptAll(s, times);
            && (key in s' ==> key in s && s'[key] == s[key])
            && (key in s' <==>
                  && key in s
                  && (s[key].deadline.None? || forall i :: 0 <= i < |times| ==> times[i] < s[key].deadline.value))
    decreases |times|
  {
    if times != [] {
      SweepsExact(Swept(s, times[0]), times[1..], key);
      assert times == [times[0]] + times[1..];
    }
  }

  /** A command that does not name the key, under any sweeps, neither shortens nor extends its
      life: it is seen afterwards exactly when it would have been without the command. */
  lemma OthersKeepLifetime(cmd: Command, s: Store, env: Env, start: Time, end: Time, key: Bytes, t: Time)
    requires Orderly(env, start, end) && start <= end <= t && key !in KeysOf(cmd)
    ensures Lookup(Exec(cmd, s, env).store, key, t) == Lookup(s, key, t)
  {
    hide Exec, KeysOf;
    var quiet := Unswept(env);
    QuietOrderly(env, start, end);
    ExecHidden(cmd, s, s, env, quiet, start, end);
    var a, b := Exec(cmd, s, env).store, Exec(cmd, s, quiet).store;
    ViewLater(a, b, end, t);
    SameView(a, b, key, t);
    QuietFrame(cmd, s, quiet, key);
  }

  /** The answer `n` fits the key: -2 exactly for an absent key, -1 exactly for one without a
      deadline, and otherwise the deadline is less than n seconds and a millisecond away and, unless
      n is 0, more than n - 1 seconds. */
  ghost predicate Brackets(n: int, s: Store, key: Bytes, now: Time, later: Time) {
    && (n == -2 <==> !Alive(s, key, now))
    && (n == -1 <==> Alive(s, key, now) && s[key].deadline.None?)
    && (Alive(s, key, now) && s[key].deadline.Some? ==>
          var left := s[key].deadline.value - later;
          && n >= 0 && left < n * NANOS_PER_SECOND + NANOS_PER_MILLI
          && (n > 0 ==> (n - 1) * NANOS_PER_SECOND < left))
  }

  /** TTL rounds up. */
  lemma TtlBrackets(s: Store, key: Bytes, now: Time, later: Time)
    requires now <= later
    ensures Brackets(WholeSeconds(Remaining(s, key, now, later)), s, key, now, later)
  {
    if Alive(s, key, now) && s[key].deadline.Some? {
      var left := s[key].deadline.value - later;
      if left >= 0 {
        var millis := left / NANOS_PER_MILLI;
        assert millis * NANOS_PER_MILLI <= left < (millis + 1) * NANOS_PER_MILLI;
      }
    }
  }

  // ---- the commands ------------------------------------------------------------------------------

  /** The sweeps before a reading hide nothing from it. */
  lemma SweptSame(s: Store, t: Tick, key: Bytes)
    requires Ordered(t)
    ensures var s' := SweptAll(s, t.sweeps);
            Alive(s', key, t.now) == Alive(s, key, t.now) && (Alive(s, key, t.now) ==> s'[key] == s[key])
  {
    SweptAllView(s, t.sweeps, t.now);
    SameView(SweptAll(s, t.sweeps), s, key, t.now);
  }

  /** EXPIRE answers whether the key was alive; a live key is seen from then on until its seconds,
      counted from the second clock reading, run out, and no other is. */
  lemma ExpireCommand(cmd: Command, s: Store, env: Env, start: Time, end: Time, seconds: int, t: Time)
    requires cmd.name == "EXPIRE" && |cmd.args| == 2 && DenotesInt64(cmd.args[1], seconds) && seconds >= 0
    requires Orderly(env, start, end) && start <= end <= t
    ensures var key, r := cmd.args[0], Exec(cmd, s, env);
            var alive := Alive(s, key, env(0).now);
            && r.outcome == Reply(Integer(if alive then 1 else 0))
            && Lookup(r.store, key, t)
               == if alive && t < env(0).later + seconds * NANOS_PER_SECOND then Some(s[key].value) else None
  {
    GenericNames();
    ParseMeaning(cmd.args[1], seconds);
    hide ParseInt, KindOf, DenotesInt64;
    assert Ordered(env(0)) && env(0).later <= end;
    SweptSame(s, env(0), cmd.args[0]);
    var s' := SweptAll(s, env(0).sweeps);
    assert Exec(cmd, s, env).store == ExpireAt(s', cmd.args[0], seconds * 1000, env(0).now, env(0).later);
    ExpireLifetime(s', cmd.args[0], seconds * 1000, env(0).now, env(0).later, t);
    hide Exec, SweptAll, ExpireAt, Lookup, Orderly;
  }

  /** Seconds that denote no int64, or are negative, are refused. */
  lemma ExpireRefused(cmd: Command, s: Store, env: Env)
    requires cmd.name == "EXPIRE" && |cmd.args| == 2
    requires forall seconds :: DenotesInt64(cmd.args[1], seconds) ==> seconds < 0
    ensures Exec(cmd, s, env) == Executed(Failed(NotAnInteger), s)
  {
    GenericNames();
    if ParseInt(cmd.args[1]).Some? {
      ParseMeaning(cmd.args[1], ParseInt(cmd.args[1]).value);
    }
    hide ParseInt, KindOf, DenotesInt64;
  }

  /** PERSIST answers whether the key was alive; a live key is seen from then on for ever. */
  lemma PersistCommand(cmd: Command, s: Store, env: Env, start: Time, end: Time, t: Time)
    requires cmd.name == "PERSIST" && |cmd.args| == 1
    requires Orderly(env, start, end) && start <= end <= t
    ensures var key, r := cmd.args[0], Exec(cmd, s, env);
            var alive := Alive(s, key, env(0).now);
            && r.outcome == Reply(Integer(if alive then 1 else 0))
            && Lookup(r.store, key, t) == if alive then Some(s[key].value) else None
  {
    GenericNames();
    hide KindOf;
    assert Ordered(env(0)) && env(0).later <= end;
    SweptSame(s, env(0), cmd.args[0]);
    var s' := SweptAll(s, env(0).sweeps);
    assert Exec(cmd, s, env).store == Persisted(s', cmd.args[0], env(0).now);
    ExpireLifetime(s', cmd.args[0], 0, env(0).now, env(0).later, t);
    hide Exec, SweptAll, Persisted, Orderly;
  }

  /** TTL answers with such a number and changes nothing that can be seen. */
  lemma TtlCommand(cmd: Command, s: Store, env: Env, start: Time, end: Time, t: Time)
    requires cmd.name == "TTL" && |cmd.args| == 1
    requires Orderly(env, start, end) && start <= end <= t
    ensures var r := Exec(cmd, s, env);
            && r.outcome.Reply? && r.outcome.value.Integer?
            && Brackets(r.outcome.value.number, s, cmd.args[0], env(0).now, env(0).later)
            && View(r.store, t) == View(s, t)
  {
    GenericNames();
    hide KindOf;
    assert Ordered(env(0)) && env(0).later <= end;
    SweptSame(s, env(0), cmd.args[0]);
    var s' := SweptAll(s, env(0).sweeps);
    assert Exec(cmd, s, env) == Executed(Reply(Integer(WholeSeconds(Remaining(s', cmd.args[0], env(0).now, env(0).later)))), s');
    TtlBrackets(s', cmd.args[0], env(0).now, env(0).later);
    SweptAllView(s, env(0).sweeps, t);
    hide Exec, SweptAll, WholeSeconds, Remaining, Orderly, View;
  }
}
