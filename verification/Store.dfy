/** The keyed store with deadlines: what each operation does to a map of entries, and the
    object that holds the map.

    Time is in nanoseconds. The clock and the background sweep are the environment: every
    store operation takes a `Tick`, which says what happened between the previous operation
    and this one taking the lock, and what the clock reads inside.
 */
module Store {
  import opened Bytes

  type Time = int

  const NANOS_PER_MILLI: int := 1_000_000

  datatype Value =
    | Str(data: Bytes)
    | List(elements: seq<Bytes>)
    | Set(members: set<Bytes>)
    | Hash(fields: map<Bytes, Bytes>)

  datatype Entry = Entry(value: Value, deadline: Option<Time>)

  type Store = map<Bytes, Entry>

  /** The environment of one store operation: the clock as `set` reads it before it waits
      for the lock; the sweeps that take the lock first; and the clock as the operation
      reads it under the lock, once or twice. */
  datatype Tick = Tick(before: Time, sweeps: seq<Time>, now: Time, later: Time)

  /** One tick for each store operation that a command performs. */
  type Env = nat -> Tick

  predicate Expired(e: Entry, now: Time) {
    e.deadline.Some? && now >= e.deadline.value
  }

  predicate Alive(s: Store, key: Bytes, now: Time) {
    key in s && !Expired(s[key], now)
  }

  /** One pass of the background sweep. */
  function Swept(s: Store, now: Time): Store {
    map key | key in s && !Expired(s[key], now) :: s[key]
  }

  function SweptAll(s: Store, times: seq<Time>): Store {
    if times == [] then s else SweptAll(Swept(s, times[0]), times[1..])
  }

  function Lookup(s: Store, key: Bytes, now: Time): Option<Value> {
    if Alive(s, key, now) then Some(s[key].value) else None
  }

  function DeadlineAfter(now: Time, millis: int): Time {
    now + millis * NANOS_PER_MILLI
  }

  function Written(s: Store, key: Bytes, value: Value, millis: int, now: Time): Store {
    s[key := Entry(value, if millis > 0 then Some(DeadlineAfter(now, millis)) else None)]
  }

  function ExpireAt(s: Store, key: Bytes, millis: int, now: Time, later: Time): Store {
    if Alive(s, key, now) then s[key := s[key].(deadline := Some(DeadlineAfter(later, millis)))] else s
  }

  function Persisted(s: Store, key: Bytes, now: Time): Store {
    if Alive(s, key, now) then s[key := s[key].(deadline := None)] else s
  }

  /** Remaining milliseconds, cut off below at zero; -1 without a deadline, -2 when absent. */
  function Remaining(s: Store, key: Bytes, now: Time, later: Time): int {
    if !Alive(s, key, now) then -2
    else if s[key].deadline.None? then -1
    else
      var left := s[key].deadline.value - later;
      if left < 0 then 0 else left / NANOS_PER_MILLI
  }

  class KvStore {
    var data: Store

    constructor ()
      ensures data == map[]
    {
      data := map[];
    }

    /** The loop of `run_expiry`: visit every entry and erase the expired ones. */
    method Sweep(now: Time)
      modifies this
      ensures data == Swept(old(data), now)
    {
      var unvisited := data.Keys;
      while unvisited != {}
        invariant unvisited <= data.Keys <= old(data).Keys
        invariant forall key :: key in data ==> data[key] == old(data)[key]
        invariant forall key :: key in old(data) && !Expired(old(data)[key], now) ==> key in data
        invariant forall key :: key in data && key !in unvisited ==> !Expired(data[key], now)
        decreases |unvisited|
      {
        var key :| key in unvisited;
        unvisited := unvisited - {key};
        if Expired(data[key], now) {
          data := data - {key};
        }
      }
    }

    /** The sweeps that take the lock before the next operation does. */
    method Sweeps(times: seq<Time>)
      modifies this
      ensures data == SweptAll(old(data), times)
    {
      for i := 0 to |times|
        invariant SweptAll(data, times[i..]) == SweptAll(old(data), times)
      {
        assert times[i..][0] == times[i] && times[i..][1..] == times[i + 1..];
        Sweep(times[i]);
      }
    }

    method Set(key: Bytes, value: Value, millis: int, t: Tick)
      modifies this
      ensures data == Written(SweptAll(old(data), t.sweeps), key, value, millis, t.before)
    {
      var deadline := None;
      if millis > 0 {
        deadline := Some(DeadlineAfter(t.before, millis));
      }
      Sweeps(t.sweeps);
      data := data[key := Entry(value, deadline)];
    }

    method Get(key: Bytes, t: Tick) returns (r: Option<Value>)
      modifies this
      ensures data == SweptAll(old(data), t.sweeps)
      ensures r == Lookup(data, key, t.now)
    {
      Sweeps(t.sweeps);
      if key !in data || Expired(data[key], t.now) {
        return None;
      }
      return Some(data[key].value);
    }

    method Del(key: Bytes, t: Tick) returns (removed: int)
      modifies this
      ensures data == SweptAll(old(data), t.sweeps) - {key}
      ensures removed == if Alive(SweptAll(old(data), t.sweeps), key, t.now) then 1 else 0
    {
      Sweeps(t.sweeps);
      if key !in data {
        return 0;
      }
      var alive := !Expired(data[key], t.now);
      data := data - {key};
      return if alive then 1 else 0;
    }

    method Exists(key: Bytes, t: Tick) returns (r: bool)
      modifies this
      ensures data == SweptAll(old(data), t.sweeps)
      ensures r == Alive(data, key, t.now)
    {
      Sweeps(t.sweeps);
      r := key in data && !Expired(data[key], t.now);
    }

    method Expire(key: Bytes, millis: int, t: Tick) returns (r: bool)
      modifies this
      ensures data == ExpireAt(SweptAll(old(data), t.sweeps), key, millis, t.now, t.later)
      ensures r == Alive(SweptAll(old(data), t.sweeps), key, t.now)
    {
      Sweeps(t.sweeps);
      if key !in data || Expired(data[key], t.now) {
        return false;
      }
      data := data[key := data[key].(deadline := Some(DeadlineAfter(t.later, millis)))];
      return true;
    }

    method Ttl(key: Bytes, t: Tick) returns (r: int)
      modifies this
      ensures data == SweptAll(old(data), t.sweeps)
      ensures r == Remaining(data, key, t.now, t.later)
    {
      Sweeps(t.sweeps);
      if key !in data || Expired(data[key], t.now) {
        return -2;
      }
      if data[key].deadline.None? {
        return -1;
      }
      var left := data[key].deadline.value - t.later;
      return if left < 0 then 0 else left / NANOS_PER_MILLI;
    }

    method Persist(key: Bytes, t: Tick) returns (r: bool)
      modifies this
      ensures data == Persisted(SweptAll(old(data), t.sweeps), key, t.now)
      ensures r == Alive(SweptAll(old(data), t.sweeps), key, t.now)
    {
      Sweeps(t.sweeps);
      if key !in data || Expired(data[key], t.now) {
        return false;
      }
      data := data[key := data[key].(deadline := None)];
      return true;
    }
  }
}
