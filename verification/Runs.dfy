/** Runs of commands under a clock that does not go back, and the sweep's invisibility. */
module Runs {
  import opened Bytes
  import opened Store
  import opened Commands

  // ---- time ------------------------------------------------------------------------------

  /** Everything in the tick happens at `time` or after it. */
  ghost predicate After(t: Tick, time: Time) {
    time <= t.before && time <= t.now && forall i :: 0 <= i < |t.sweeps| ==> time <= t.sweeps[i]
  }

  /** The sweeps took the lock before the operation did, so it reads a later clock. */
  ghost predicate Ordered(t: Tick) {
    && t.before <= t.later && t.now <= t.later
    && forall i :: 0 <= i < |t.sweeps| ==> t.sweeps[i] <= t.now
  }

  /** The ticks of one command lie between `start` and `end`, one after the other. */
  ghost predicate Orderly(env: Env, start: Time, end: Time) {
    && (forall i: nat :: Ordered(env(i)) && After(env(i), start) && env(i).later <= end)
    && (forall i: nat, j: nat :: i < j ==> After(env(j), env(i).later))
  }

  /** Two environments with the same clock readings; their sweeps may differ in any way. */
  ghost predicate SameClock(e1: Env, e2: Env) {
    forall i: nat :: e1(i).before == e2(i).before && e1(i).now == e2(i).now && e1(i).later == e2(i).later
  }

  // ---- runs ------------------------------------------------------------------------------

  /** A command, its environment, and a time by which it is over. */
  datatype Step = Step(cmd: Command, env: Env, end: Time)

  function RunStore(s: Store, steps: seq<Step>): Store
    decreases |steps|
  {
    if steps == [] then s else RunStore(Exec(steps[0].cmd, s, steps[0].env).store, steps[1..])
  }

  function RunOutcomes(s: Store, steps: seq<Step>): seq<Outcome>
    decreases |steps|
  {
    if steps == [] then []
    else
      var r := Exec(steps[0].cmd, s, steps[0].env);
      [r.outcome] + RunOutcomes(r.store, steps[1..])
  }

  ghost predicate Timely(steps: seq<Step>, start: Time)
    decreases |steps|
  {
    steps == [] || (start <= steps[0].end && Orderly(steps[0].env, start, steps[0].end) && Timely(steps[1..], steps[0].end))
  }

  ghost function EndOf(steps: seq<Step>, start: Time): Time {
    if steps == [] then start else steps[|steps| - 1].end
  }

  // ---- what is visible ---------------------------------------------------------------------

  lemma {:induction false} EndsLater(steps: seq<Step>, start: Time)
    requires Timely(steps, start)
    ensures start <= EndOf(steps, start)
    decreases |steps|
  {
    hide Orderly;
    if steps != [] {
      EndsLater(steps[1..], steps[0].end);
    }
  }

  /** The entries that are not expired at a time: all that any operation can see from then on. */
  ghost function View(s: Store, now: Time): Store {
    Swept(s, now)
  }

  lemma ViewLater(s1: Store, s2: Store, t: Time, t': Time)
    requires View(s1, t) == View(s2, t) && t <= t'
    ensures View(s1, t') == View(s2, t')
  {
    assert View(s1, t') == View(View(s1, t), t');
    assert View(s2, t') == View(View(s2, t), t');
  }

  lemma {:induction false} SweptAllView(s: Store, times: seq<Time>, now: Time)
    requires forall i :: 0 <= i < |times| ==> times[i] <= now
    ensures View(SweptAll(s, times), now) == View(s, now)
    decreases |times|
  {
    if times != [] {
      SweptAllView(Swept(s, times[0]), times[1..], now);
      assert View(Swept(s, times[0]), now) == View(s, now);
    }
  }

  /** After the sweeps of two ticks with one clock, the same entries are visible. */
  lemma SweepsHidden(s1: Store, s2: Store, t1: Tick, t2: Tick, start: Time)
    requires View(s1, start) == View(s2, start)
    requires Ordered(t1) && Ordered(t2) && After(t1, start) && t1.now == t2.now
    ensures View(SweptAll(s1, t1.sweeps), t1.now) == View(SweptAll(s2, t2.sweeps), t1.now)
  {
    ViewLater(s1, s2, start, t1.now);
    SweptAllView(s1, t1.sweeps, t1.now);
    SweptAllView(s2, t2.sweeps, t1.now);
  }

  lemma SameView(s1: Store, s2: Store, key: Bytes, now: Time)
    requires View(s1, now) == View(s2, now)
    ensures Alive(s1, key, now) == Alive(s2, key, now)
    ensures Alive(s1, key, now) ==> s1[key] == s2[key]
    ensures Lookup(s1, key, now) == Lookup(s2, key, now)
  {
    assert Alive(s1, key, now) == (key in View(s1, now));
    assert Alive(s2, key, now) == (key in View(s2, now));
  }

  lemma ViewUpdate(s1: Store, s2: Store, key: Bytes, e: Entry, now: Time)
    requires View(s1, now) == View(s2, now)
    ensures View(s1[key := e], now) == View(s2[key := e], now)
    ensures View(s1 - {key}, now) == View(s2 - {key}, now)
  {
    forall k | k != key
      ensures Alive(s1[key := e], k, now) == Alive(s2[key := e], k, now)
      ensures Alive(s1[key := e], k, now) ==> s1[k] == s2[k]
    {
      SameView(s1, s2, k, now);
    }
    assert View(s1[key := e], now) == View(s2[key := e], now);
    assert View(s1 - {key}, now) == View(s1, now) - {key};
    assert View(s2 - {key}, now) == View(s2, now) - {key};
  }

  // ---- sweep transparency --------------------------------------------------------------------

  lemma ApplyHidden(s1: Store, s2: Store, key: Bytes, write: Write, t1: Tick, t2: Tick, start: Time, end: Time)
    requires View(s1, start) == View(s2, start) && start <= end
    requires Ordered(t1) && Ordered(t2) && After(t1, start) && After(t2, start)
    requires t1.before == t2.before && t1.now == t2.now && t1.later <= end
    ensures View(Apply(s1, key, write, t1), end) == View(Apply(s2, key, write, t2), end)
  {
    if write.Keep? {
      ViewLater(s1, s2, start, end);
    } else {
      var r1, r2 := SweptAll(s1, t1.sweeps), SweptAll(s2, t2.sweeps);
      SweepsHidden(s1, s2, t1, t2, start);
      ViewLater(r1, r2, t1.now, end);
      if write.Put? {
        ViewUpdate(r1, r2, key, Written(r1, key, write.value, write.millis, t1.before)[key], end);
      } else {
        ViewUpdate(r1, r2, key, Entry(Str(""), None), end);
      }
    }
  }

  lemma {:induction false} DelHidden(s1: Store, s2: Store, keys: seq<Bytes>, i: nat, count: int, e1: Env, e2: Env,
                                     now: Time, start: Time, end: Time)
    requires i <= |keys| && View(s1, now) == View(s2, now) && now <= end
    requires Orderly(e1, start, end) && Orderly(e2, start, end) && SameClock(e1, e2)
    requires After(e1(i), now)
    ensures var r1, r2 := DelFrom(s1, keys, i, count, e1), DelFrom(s2, keys, i, count, e2);
            r1.outcome == r2.outcome && View(r1.store, end) == View(r2.store, end)
    decreases |keys| - i
  {
    if i == |keys| {
      ViewLater(s1, s2, now, end);
    } else {
      var t1, t2 := e1(i), e2(i);
      var r1, r2 := SweptAll(s1, t1.sweeps), SweptAll(s2, t2.sweeps);
      SweepsHidden(s1, s2, t1, t2, now);
      SameView(r1, r2, keys[i], t1.now);
      ViewUpdate(r1, r2, keys[i], Entry(Str(""), None), t1.now);
      var n := if Alive(r1, keys[i], t1.now) then 1 else 0;
      assert After(e1(i + 1), t1.now) by { assert After(e1(i + 1), t1.later); }
      DelHidden(r1 - {keys[i]}, r2 - {keys[i]}, keys, i + 1, count + n, e1, e2, t1.now, start, end);
    }
  }

  lemma {:induction false} CountHidden(s1: Store, s2: Store, keys: seq<Bytes>, i: nat, count: int, e1: Env, e2: Env,
                                       now: Time, start: Time, end: Time)
    requires i <= |keys| && View(s1, now) == View(s2, now) && now <= end
    requires Orderly(e1, start, end) && Orderly(e2, start, end) && SameClock(e1, e2)
    requires After(e1(i), now)
    ensures var r1, r2 := CountFrom(s1, keys, i, count, e1), CountFrom(s2, keys, i, count, e2);
            r1.outcome == r2.outcome && View(r1.store, end) == View(r2.store, end)
    decreases |keys| - i
  {
    if i == |keys| {
      ViewLater(s1, s2, now, end);
    } else {
      var t1, t2 := e1(i), e2(i);
      var r1, r2 := SweptAll(s1, t1.sweeps), SweptAll(s2, t2.sweeps);
      SweepsHidden(s1, s2, t1, t2, now);
      SameView(r1, r2, keys[i], t1.now);
      var n := if Alive(r1, keys[i], t1.now) then 1 else 0;
      assert After(e1(i + 1), t1.now) by { assert After(e1(i + 1), t1.later); }
      CountHidden(r1, r2, keys, i + 1, count + n, e1, e2, t1.now, start, end);
    }
  }

  lemma OnKeyHidden(kind: Kind, cmd: Command, s1: Store, s2: Store, e1: Env, e2: Env, start: Time, end: Time)
    requires Plan(kind, cmd).OnKey?
    requires View(s1, start) == View(s2, start)
    requires Orderly(e1, start, end) && Orderly(e2, start, end) && SameClock(e1, e2)
    ensures var r1, r2 := ExecKind(kind, cmd, s1, e1), ExecKind(kind, cmd, s2, e2);
            r1.outcome == r2.outcome && View(r1.store, end) == View(r2.store, end)
  {
    hide Decide, SweptAll, View, Lookup, Apply;
    var key := Plan(kind, cmd).key;
    var r1, r2 := SweptAll(s1, e1(0).sweeps), SweptAll(s2, e2(0).sweeps);
    SweepsHidden(s1, s2, e1(0), e2(0), start);
    SameView(r1, r2, key, e1(0).now);
    var d := Decide(kind, cmd, Lookup(r1, key, e1(0).now));
    ApplyHidden(r1, r2, key, d.write, e1(1), e2(1), e1(0).now, end);
  }

  lemma ExpireHidden(s1: Store, s2: Store, key: Bytes, millis: int, now: Time, later: Time, end: Time)
    requires View(s1, now) == View(s2, now) && now <= end
    ensures View(ExpireAt(s1, key, millis, now, later), end) == View(ExpireAt(s2, key, millis, now, later), end)
  {
    hide View;
    SameView(s1, s2, key, now);
    ViewLater(s1, s2, now, end);
    if Alive(s1, key, now) {
      ViewUpdate(s1, s2, key, s1[key].(deadline := Some(DeadlineAfter(later, millis))), end);
    }
  }

  lemma PersistHidden(s1: Store, s2: Store, key: Bytes, now: Time, end: Time)
    requires View(s1, now) == View(s2, now) && now <= end
    ensures View(Persisted(s1, key, now), end) == View(Persisted(s2, key, now), end)
  {
    hide View;
    SameView(s1, s2, key, now);
    ViewLater(s1, s2, now, end);
    if Alive(s1, key, now) {
      ViewUpdate(s1, s2, key, s1[key].(deadline := None), end);
    }
  }

  lemma GenericHidden(kind: Kind, cmd: Command, s1: Store, s2: Store, e1: Env, e2: Env, start: Time, end: Time)
    requires var p := Plan(kind, cmd); p.ExpireKey? || p.TtlKey? || p.PersistKey?
    requires View(s1, start) == View(s2, start)
    requires Orderly(e1, start, end) && Orderly(e2, start, end) && SameClock(e1, e2)
    ensures var r1, r2 := ExecKind(kind, cmd, s1, e1), ExecKind(kind, cmd, s2, e2);
            r1.outcome == r2.outcome && View(r1.store, end) == View(r2.store, end)
  {
    hide Decide, SweptAll, View, Plan, ExpireAt, Persisted, Alive;
    var t := e1(0);
    var r1, r2 := SweptAll(s1, t.sweeps), SweptAll(s2, e2(0).sweeps);
    SweepsHidden(s1, s2, t, e2(0), start);
    match Plan(kind, cmd)
    case ExpireKey(key, millis) =>
      SameView(r1, r2, key, t.now);
      ExpireHidden(r1, r2, key, millis, t.now, t.later, end);
    case TtlKey(key) =>
      SameView(r1, r2, key, t.now);
      ViewLater(r1, r2, t.now, end);
    case PersistKey(key) =>
      SameView(r1, r2, key, t.now);
      PersistHidden(r1, r2, key, t.now, end);
  }

  /** One command: whatever sweeps run before and inside it, the reply and everything visible
      afterwards are the same. */
  lemma ExecHidden(cmd: Command, s1: Store, s2: Store, e1: Env, e2: Env, start: Time, end: Time)
    requires start <= end && View(s1, start) == View(s2, start)
    requires Orderly(e1, start, end) && Orderly(e2, start, end) && SameClock(e1, e2)
    ensures var r1, r2 := Exec(cmd, s1, e1), Exec(cmd, s2, e2);
            r1.outcome == r2.outcome && View(r1.store, end) == View(r2.store, end)
  {
    hide Decide, SweptAll, View, KindOf, Plan;
    ViewLater(s1, s2, start, end);
    match KindOf(cmd.name)
    case None =>
    case Some(kind) =>
      match Plan(kind, cmd) {
        case NoAccess(_) =>
        case OnKey(_) => OnKeyHidden(kind, cmd, s1, s2, e1, e2, start, end);
        case DelKeys(keys) => DelHidden(s1, s2, keys, 0, 0, e1, e2, start, start, end);
        case CountKeys(keys) => CountHidden(s1, s2, keys, 0, 0, e1, e2, start, start, end);
        case _ => GenericHidden(kind, cmd, s1, s2, e1, e2, start, end);
      }
  }

  /** The same commands at the same clock readings, with any sweeps in either run. */
  ghost predicate SameButSweeps(steps1: seq<Step>, steps2: seq<Step>) {
    && |steps1| == |steps2|
    && forall i :: 0 <= i < |steps1| ==>
         steps1[i].cmd == steps2[i].cmd && steps1[i].end == steps2[i].end && SameClock(steps1[i].env, steps2[i].env)
  }

  /** Sweep transparency: over whole runs, sweeps at any points, also between the lookup and
      the write of one handler, change no reply and nothing visible afterwards. */
  lemma {:induction false} SweepTransparency(s1: Store, s2: Store, steps1: seq<Step>, steps2: seq<Step>, start: Time)
    requires SameButSweeps(steps1, steps2) && Timely(steps1, start) && Timely(steps2, start)
    requires View(s1, start) == View(s2, start)
    ensures RunOutcomes(s1, steps1) == RunOutcomes(s2, steps2)
    ensures forall t :: t >= EndOf(steps1, start) ==> View(RunStore(s1, steps1), t) == View(RunStore(s2, steps2), t)
    decreases |steps1|
  {
    hide Exec, View;
    if steps1 == [] {
      forall t | t >= start ensures View(s1, t) == View(s2, t) {
        ViewLater(s1, s2, start, t);
      }
    } else {
      var a, b := steps1[0], steps2[0];
      ExecHidden(a.cmd, s1, s2, a.env, b.env, start, a.end);
      SweepTransparency(Exec(a.cmd, s1, a.env).store, Exec(b.cmd, s2, b.env).store, steps1[1..], steps2[1..], a.end);
    }
  }
}
