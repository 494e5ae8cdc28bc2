/** Commands and their meaning over the store.

    Every handler is one of a few shapes. It answers without touching the store (`NoAccess`);
    or it looks one key up, decides on a reply and a write from what it found, and performs
    the write (`OnKey`, with `Decide`); or it is one of the generic commands, which are a
    store operation, or a loop of them, over their keys. `Exec` gives a command its effect on
    the store under any clock and any sweeps between its store operations.
 */
module Commands {
  import opened Bytes
  import opened Resp
  import opened Store

  // ---- commands ------------------------------------------------------------------------

  datatype Command = Command(name: Bytes, args: seq<Bytes>)

  predicate AllBulk(vs: seq<RespValue>) {
    forall i :: 0 <= i < |vs| ==> vs[i].BulkString?
  }

  function Datas(vs: seq<RespValue>): (r: seq<Bytes>)
    requires AllBulk(vs)
    ensures |r| == |vs| && forall i :: 0 <= i < |vs| ==> r[i] == vs[i].data
  {
    if vs == [] then [] else [vs[0].data] + Datas(vs[1..])
  }

  function ParseCommand(v: RespValue): Option<Command> {
    if !v.Array? || v.elements == [] || !AllBulk(v.elements) then None
    else Some(Command(Upper(v.elements[0].data), Datas(v.elements[1..])))
  }

  datatype Kind =
    | Ping | Del | Exists | Expire | Ttl | Persist | Health
    | SetKey | Get | Incr | Decr | IncrBy | DecrBy
    | LPush | RPush | LPop | RPop | LLen | LRange | LIndex
    | SAdd | SRem | SMembers | SIsMember | SCard
    | HSet | HGet | HDel | HGetAll | HExists | HLen
    | Unmodelled  // INFO, READY, METRICS, PUBLISH: registered, none of them writes the store

  predicate StringKind(kind: Kind) {
    kind.SetKey? || kind.Get? || kind.Incr? || kind.Decr? || kind.IncrBy? || kind.DecrBy?
  }

  predicate ListKind(kind: Kind) {
    kind.LPush? || kind.RPush? || kind.LPop? || kind.RPop? || kind.LLen? || kind.LRange? || kind.LIndex?
  }

  predicate SetKind(kind: Kind) {
    kind.SAdd? || kind.SRem? || kind.SMembers? || kind.SIsMember? || kind.SCard?
  }

  predicate HashKind(kind: Kind) {
    kind.HSet? || kind.HGet? || kind.HDel? || kind.HGetAll? || kind.HExists? || kind.HLen?
  }

  /** The table filled by `make_default`. */
  function GenericKindOf(name: Bytes): Option<Kind> {
    if name == "PING" then Some(Ping)
    else if name == "DEL" then Some(Del)
    else if name == "EXISTS" then Some(Exists)
    else if name == "EXPIRE" then Some(Expire)
    else if name == "TTL" then Some(Ttl)
    else if name == "PERSIST" then Some(Persist)
    else if name == "HEALTH" then Some(Health)
    else None
  }

  function StringKindOf(name: Bytes): Option<Kind> {
    if name == "SET" then Some(SetKey)
    else if name == "GET" then Some(Get)
    else if name == "INCR" then Some(Incr)
    else if name == "DECR" then Some(Decr)
    else if name == "INCRBY" then Some(IncrBy)
    else if name == "DECRBY" then Some(DecrBy)
    else None
  }

  function ListKindOf(name: Bytes): Option<Kind> {
    if name == "LPUSH" then Some(LPush)
    else if name == "RPUSH" then Some(RPush)
    else if name == "LPOP" then Some(LPop)
    else if name == "RPOP" then Some(RPop)
    else if name == "LLEN" then Some(LLen)
    else if name == "LRANGE" then Some(LRange)
    else if name == "LINDEX" then Some(LIndex)
    else None
  }

  function SetKindOf(name: Bytes): Option<Kind> {
    if name == "SADD" then Some(SAdd)
    else if name == "SREM" then Some(SRem)
    else if name == "SMEMBERS" then Some(SMembers)
    else if name == "SISMEMBER" then Some(SIsMember)
    else if name == "SCARD" then Some(SCard)
    else None
  }

  function HashKindOf(name: Bytes): Option<Kind> {
    if name == "HSET" then Some(HSet)
    else if name == "HGET" then Some(HGet)
    else if name == "HDEL" then Some(HDel)
    else if name == "HGETALL" then Some(HGetAll)
    else if name == "HEXISTS" then Some(HExists)
    else if name == "HLEN" then Some(HLen)
    else None
  }

  function KindOf(name: Bytes): Option<Kind> {
    if GenericKindOf(name).Some? then GenericKindOf(name)
    else if StringKindOf(name).Some? then StringKindOf(name)
    else if ListKindOf(name).Some? then ListKindOf(name)
    else if SetKindOf(name).Some? then SetKindOf(name)
    else if HashKindOf(name).Some? then HashKindOf(name)
    else if name in {"INFO", "READY", "METRICS", "PUBLISH"} then Some(Unmodelled)
    else None
  }

  /** The commands the append-only file records. */
  predicate IsWrite(name: Bytes) {
    name in {"SET", "DEL", "EXPIRE", "PERSIST", "INCR", "INCRBY", "DECR", "DECRBY",
             "LPUSH", "RPUSH", "LPOP", "RPOP", "SADD", "SREM", "HSET", "HDEL"}
  }

  // ---- outcomes ------------------------------------------------------------------------

  datatype Fault =
    | UnknownCommand(name: Bytes)
    | WrongArgs(name: Bytes)
    | SyntaxError
    | BadExpireTime
    | NxWithXx
    | NotAnInteger
    | WouldOverflow
    | WrongType

  // Texts of more than about forty characters are written in two parts: the verifier does not
  // look into longer literals.
  function FaultText(fault: Fault): Bytes {
    match fault
    case UnknownCommand(name) => "ERR unknown command '" + name + "'"
    case WrongArgs(name) => "ERR wrong number of arguments for '" + name + "' command"
    case SyntaxError => "ERR syntax error"
    case BadExpireTime => "ERR invalid expire time " + "in 'set' command"
    case NxWithXx => "ERR XX and NX options at the " + "same time are not compatible"
    case NotAnInteger => "ERR value is not an integer " + "or out of range"
    case WouldOverflow => "ERR increment or decrement " + "would overflow"
    case WrongType => "WRONGTYPE Operation against a " + "key holding the wrong kind of value"
  }

  /** A reply; an error reply; an array reply listing a hash table in whatever order the table
      iterates; an exception; or a reply made from server statistics or the broker. */
  datatype Outcome =
    | Reply(value: RespValue)
    | Failed(fault: Fault)
    | Members(members: set<Bytes>)
    | Fields(fields: map<Bytes, Bytes>)
    | Throw
    | External

  predicate IsFailure(out: Outcome) {
    out.Failed? || out.Throw?
  }

  // ---- options of SET ------------------------------------------------------------------

  /** `millis == 0` is no expiry. */
  datatype SetOptions = SetOptions(millis: int, nx: bool, xx: bool)

  datatype Scanned = Options(options: SetOptions) | Rejected(fault: Fault)

  function ScanOptions(args: seq<Bytes>, i: nat, o: SetOptions): Scanned
    decreases |args| - i
  {
    if i >= |args| then Options(o)
    else
      var flag := Upper(args[i]);
      if flag == "NX" then ScanOptions(args, i + 1, o.(nx := true))
      else if flag == "XX" then ScanOptions(args, i + 1, o.(xx := true))
      else if flag == "EX" || flag == "PX" then
        if i + 1 >= |args| then Rejected(SyntaxError)
        else
          match ParseInt(args[i + 1])
          case None => Rejected(BadExpireTime)
          case Some(n) =>
            if n <= 0 then Rejected(BadExpireTime)
            else ScanOptions(args, i + 2, o.(millis := if flag == "EX" then n * 1000 else n))
      else Rejected(SyntaxError)
  }

  function OptionsOf(args: seq<Bytes>): Scanned {
    ScanOptions(args, 2, SetOptions(0, false, false))
  }

  // ---- what a command does before it reaches the store ------------------------------------

  datatype Access =
    | NoAccess(outcome: Outcome)
    | OnKey(key: Bytes)
    | DelKeys(keys: seq<Bytes>)
    | CountKeys(keys: seq<Bytes>)
    | ExpireKey(key: Bytes, millis: int)
    | TtlKey(key: Bytes)
    | PersistKey(key: Bytes)

  function WithArity(ok: bool, cmd: Command): Access
    requires ok ==> |cmd.args| > 0
  {
    if ok then OnKey(cmd.args[0]) else NoAccess(Failed(WrongArgs(cmd.name)))
  }

  function Plan(kind: Kind, cmd: Command): Access {
    var n := |cmd.args|;
    var wrong := NoAccess(Failed(WrongArgs(cmd.name)));
    match kind
    case Ping =>
      if n == 0 then NoAccess(Reply(SimpleString("PONG")))
      else if n == 1 then NoAccess(Reply(BulkString(cmd.args[0])))
      else wrong
    case Health => if n == 0 then NoAccess(Reply(SimpleString("OK"))) else wrong
    case Unmodelled => NoAccess(External)
    case Del => if n == 0 then wrong else DelKeys(cmd.args)
    case Exists => if n == 0 then wrong else CountKeys(cmd.args)
    case Expire =>
      if n != 2 then wrong
      else if ParseInt(cmd.args[1]).None? || ParseInt(cmd.args[1]).value < 0 then NoAccess(Failed(NotAnInteger))
      else ExpireKey(cmd.args[0], ParseInt(cmd.args[1]).value * 1000)
    case Ttl => if n != 1 then wrong else TtlKey(cmd.args[0])
    case Persist => if n != 1 then wrong else PersistKey(cmd.args[0])
    case SetKey =>
      if n < 2 then wrong
      else
        (match OptionsOf(cmd.args)
         case Rejected(fault) => NoAccess(Failed(fault))
         case Options(o) => if o.nx && o.xx then NoAccess(Failed(NxWithXx)) else OnKey(cmd.args[0]))
    case IncrBy =>
      if n != 2 then wrong
      else if ParseInt(cmd.args[1]).None? then NoAccess(Failed(NotAnInteger))
      else OnKey(cmd.args[0])
    case DecrBy =>
      if n != 2 then wrong
      else if ParseInt(cmd.args[1]).None? then NoAccess(Failed(NotAnInteger))
      else if ParseInt(cmd.args[1]).value == INT64_MIN then NoAccess(Failed(WouldOverflow))
      else OnKey(cmd.args[0])
    case Get => WithArity(n == 1, cmd)
    case Incr => WithArity(n == 1, cmd)
    case Decr => WithArity(n == 1, cmd)
    case LPush => WithArity(n >= 2, cmd)
    case RPush => WithArity(n >= 2, cmd)
    case LPop => WithArity(n == 1, cmd)
    case RPop => WithArity(n == 1, cmd)
    case LLen => WithArity(n == 1, cmd)
    case LRange => WithArity(n == 3, cmd)
    case LIndex => WithArity(n == 2, cmd)
    case SAdd => WithArity(n >= 2, cmd)
    case SRem => WithArity(n >= 2, cmd)
    case SMembers => WithArity(n == 1, cmd)
    case SIsMember => WithArity(n == 2, cmd)
    case SCard => WithArity(n == 1, cmd)
    case HSet => WithArity(n >= 3 && n % 2 == 1, cmd)
    case HGet => WithArity(n == 2, cmd)
    case HDel => WithArity(n >= 2, cmd)
    case HGetAll => WithArity(n == 1, cmd)
    case HExists => WithArity(n == 2, cmd)
    case HLen => WithArity(n == 1, cmd)
  }

  // ---- what a command decides from the value it found --------------------------------------

  /** What happens to the key: nothing, an overwrite with a time to live (0: none), a removal. */
  datatype Write = Keep | Put(value: Value, millis: int) | Drop

  datatype Decision = Decision(outcome: Outcome, write: Write)

  function Answer(v: RespValue): Decision {
    Decision(Reply(v), Keep)
  }

  function Refuse(fault: Fault): Decision {
    Decision(Failed(fault), Keep)
  }

  function Bit(b: bool): RespValue {
    Integer(if b then 1 else 0)
  }

  /** INCR and its relatives. Reading a non-string throws. */
  function Add(found: Option<Value>, delta: int): Decision {
    match found
    case None => AddTo(0, delta)
    case Some(Str(data)) =>
      (match ParseInt(data)
       case None => Refuse(NotAnInteger)
       case Some(n) => AddTo(n, delta))
    case Some(_) => Decision(Throw, Keep)
  }

  function AddTo(n: int, delta: int): Decision {
    if (delta > 0 && n > INT64_MAX - delta) || (delta < 0 && n < INT64_MIN - delta)
    then Refuse(WouldOverflow)
    else Decision(Reply(Integer(n + delta)), Put(Str(IntText(n + delta)), 0))
  }

  function PushFront(list: seq<Bytes>, items: seq<Bytes>): seq<Bytes>
    decreases |items|
  {
    if items == [] then list else PushFront([items[0]] + list, items[1..])
  }

  /** The half-open slice of an n-element list that the inclusive `start..stop` names. */
  function Clamp(n: nat, start: int, stop: int): (r: (nat, nat))
    ensures r.0 <= r.1 <= n
  {
    var a := if start < 0 then start + n else start;
    var b := if stop < 0 then stop + n else stop;
    var a' := if a < 0 then 0 else a;
    var b' := if b >= n then n - 1 else b;
    if a' <= b' then (a', b' + 1) else (0, 0)
  }

  function Bulks(items: seq<Bytes>): (r: seq<RespValue>)
    ensures |r| == |items| && forall i :: 0 <= i < |items| ==> r[i] == BulkString(items[i])
  {
    if items == [] then [] else [BulkString(items[0])] + Bulks(items[1..])
  }

  /** Each field of the listing followed by its value. */
  function Pairs(listing: seq<Bytes>, fields: map<Bytes, Bytes>): seq<Bytes> {
    if listing == [] then []
    else (if listing[0] in fields then [listing[0], fields[listing[0]]] else []) + Pairs(listing[1..], fields)
  }

  function RangeOf(list: seq<Bytes>, start: int, stop: int): seq<Bytes> {
    var r := Clamp(|list|, start, stop);
    list[r.0..r.1]
  }

  function IndexOf(list: seq<Bytes>, index: int): Option<Bytes> {
    var i := if index < 0 then index + |list| else index;
    if i < 0 || i >= |list| then None else Some(list[i])
  }

  function SetOf(items: seq<Bytes>): set<Bytes> {
    if items == [] then {} else SetOf(items[..|items| - 1]) + {items[|items| - 1]}
  }

  /** Field and value alternate in `pairs`; a later pair wins over an earlier one. */
  function PutFields(fields: map<Bytes, Bytes>, pairs: seq<Bytes>): map<Bytes, Bytes>
    requires |pairs| % 2 == 0
    decreases |pairs|
  {
    if pairs == [] then fields else PutFields(fields[pairs[0] := pairs[1]], pairs[2..])
  }

  function WithoutFields(fields: map<Bytes, Bytes>, items: seq<Bytes>): map<Bytes, Bytes> {
    map f | f in fields && f !in SetOf(items) :: fields[f]
  }

  /** A collection that becomes empty is removed. */
  function PutOrDrop(v: Value, empty: bool): Write {
    if empty then Drop else Put(v, 0)
  }

  function DecideString(kind: Kind, args: seq<Bytes>, found: Option<Value>): Decision
    requires StringKind(kind)
    requires kind == SetKey ==> |args| >= 2 && OptionsOf(args).Options?
    requires (kind.IncrBy? || kind.DecrBy?) ==> |args| == 2 && ParseInt(args[1]).Some?
  {
    match kind
    case SetKey =>
      var o := OptionsOf(args).options;
      if (o.nx && found.Some?) || (o.xx && found.None?) then Answer(Null)
      else Decision(Reply(SimpleString("OK")), Put(Str(args[1]), o.millis))
    case Get =>
      (match found
       case None => Answer(Null)
       case Some(Str(data)) => Answer(BulkString(data))
       case Some(_) => Decision(Throw, Keep))
    case Incr => Add(found, 1)
    case Decr => Add(found, -1)
    case IncrBy => Add(found, ParseInt(args[1]).value)
    case DecrBy => Add(found, -ParseInt(args[1]).value)
  }

  predicate ListArity(kind: Kind, args: seq<Bytes>) {
    if kind.LRange? then |args| == 3
    else if kind.LIndex? then |args| == 2
    else if kind.LPush? || kind.RPush? then |args| >= 2
    else |args| == 1
  }

  function DecideList(kind: Kind, args: seq<Bytes>, found: Option<Value>): Decision
    requires ListKind(kind) && ListArity(kind, args)
  {
    if found.Some? && !found.value.List? then Refuse(WrongType)
    else
      var list := if found.None? then [] else found.value.elements;
      match kind
      case LPush =>
        var list' := PushFront(list, args[1..]);
        Decision(Reply(Integer(|list'|)), Put(List(list'), 0))
      case RPush =>
        var list' := list + args[1..];
        Decision(Reply(Integer(|list'|)), Put(List(list'), 0))
      case LPop =>
        if list == [] then Answer(Null)
        else Decision(Reply(BulkString(list[0])), PutOrDrop(List(list[1..]), |list| == 1))
      case RPop =>
        if list == [] then Answer(Null)
        else Decision(Reply(BulkString(list[|list| - 1])), PutOrDrop(List(list[..|list| - 1]), |list| == 1))
      case LLen => Answer(Integer(|list|))
      case LRange =>
        if found.None? then Answer(Array([]))
        else if ParseInt(args[1]).None? || ParseInt(args[2]).None? then Refuse(NotAnInteger)
        else Answer(Array(Bulks(RangeOf(list, ParseInt(args[1]).value, ParseInt(args[2]).value))))
      case LIndex =>
        if found.None? then Answer(Null)
        else if ParseInt(args[1]).None? then Refuse(NotAnInteger)
        else
          match IndexOf(list, ParseInt(args[1]).value)
          case None => Answer(Null)
          case Some(item) => Answer(BulkString(item))
  }

  predicate SetArity(kind: Kind, args: seq<Bytes>) {
    if kind.SIsMember? then |args| == 2
    else if kind.SAdd? || kind.SRem? then |args| >= 2
    else |args| == 1
  }

  function DecideSet(kind: Kind, args: seq<Bytes>, found: Option<Value>): Decision
    requires SetKind(kind) && SetArity(kind, args)
  {
    if found.Some? && !found.value.Set? then Refuse(WrongType)
    else
      var members := if found.None? then {} else found.value.members;
      match kind
      case SAdd =>
        var members' := members + SetOf(args[1..]);
        Decision(Reply(Integer(|members'| - |members|)), Put(Set(members'), 0))
      case SRem =>
        if found.None? then Answer(Integer(0))
        else
          var members' := members - SetOf(args[1..]);
          Decision(Reply(Integer(|members| - |members'|)), PutOrDrop(Set(members'), members' == {}))
      case SMembers => if found.None? then Answer(Array([])) else Decision(Members(members), Keep)
      case SIsMember => Answer(Bit(args[1] in members))
      case SCard => Answer(Integer(|members|))
  }

  predicate HashArity(kind: Kind, args: seq<Bytes>) {
    if kind.HGet? || kind.HExists? then |args| == 2
    else if kind.HSet? then |args| >= 3 && |args| % 2 == 1
    else if kind.HDel? then |args| >= 2
    else |args| == 1
  }

  function DecideHash(kind: Kind, args: seq<Bytes>, found: Option<Value>): Decision
    requires HashKind(kind) && HashArity(kind, args)
  {
    if found.Some? && !found.value.Hash? then Refuse(WrongType)
    else
      var fields := if found.None? then map[] else found.value.fields;
      match kind
      case HSet =>
        var fields' := PutFields(fields, args[1..]);
        Decision(Reply(Integer(|fields'.Keys| - |fields.Keys|)), Put(Hash(fields'), 0))
      case HGet => Answer(if args[1] in fields then BulkString(fields[args[1]]) else Null)
      case HDel =>
        if found.None? then Answer(Integer(0))
        else
          var fields' := WithoutFields(fields, args[1..]);
          Decision(Reply(Integer(|fields.Keys| - |fields'.Keys|)), PutOrDrop(Hash(fields'), fields'.Keys == {}))
      case HGetAll => if found.None? then Answer(Array([])) else Decision(Fields(fields), Keep)
      case HExists => Answer(Bit(args[1] in fields))
      case HLen => Answer(Integer(|fields.Keys|))
  }

  function Decide(kind: Kind, cmd: Command, found: Option<Value>): Decision
    requires Plan(kind, cmd).OnKey?
  {
    if StringKind(kind) then DecideString(kind, cmd.args, found)
    else if ListKind(kind) then DecideList(kind, cmd.args, found)
    else if SetKind(kind) then DecideSet(kind, cmd.args, found)
    else DecideHash(kind, cmd.args, found)
  }

  /** What TTL answers for a remaining time in milliseconds, rounded up; -1 and -2 are kept. */
  function WholeSeconds(millis: int): int {
    if millis < 0 then millis else (millis + 999) / 1000
  }

  // ---- effect on the store -------------------------------------------------------------

  datatype Executed = Executed(outcome: Outcome, store: Store)

  function Apply(s: Store, key: Bytes, write: Write, t: Tick): Store {
    match write
    case Keep => s
    case Put(value, millis) => Written(SweptAll(s, t.sweeps), key, value, millis, t.before)
    case Drop => SweptAll(s, t.sweeps) - {key}
  }

  /** DEL over its keys from the `i`-th on, with `count` removed so far. */
  function DelFrom(s: Store, keys: seq<Bytes>, i: nat, count: int, env: Env): Executed
    requires i <= |keys|
    decreases |keys| - i
  {
    if i == |keys| then Executed(Reply(Integer(count)), s)
    else
      var s' := SweptAll(s, env(i).sweeps);
      DelFrom(s' - {keys[i]}, keys, i + 1, count + (if Alive(s', keys[i], env(i).now) then 1 else 0), env)
  }

  /** EXISTS over its keys from the `i`-th on, with `count` found so far. */
  function CountFrom(s: Store, keys: seq<Bytes>, i: nat, count: int, env: Env): Executed
    requires i <= |keys|
    decreases |keys| - i
  {
    if i == |keys| then Executed(Reply(Integer(count)), s)
    else
      var s' := SweptAll(s, env(i).sweeps);
      CountFrom(s', keys, i + 1, count + (if Alive(s', keys[i], env(i).now) then 1 else 0), env)
  }

  function ExecKind(kind: Kind, cmd: Command, s: Store, env: Env): Executed {
    match Plan(kind, cmd)
    case NoAccess(outcome) => Executed(outcome, s)
    case OnKey(key) =>
      var s' := SweptAll(s, env(0).sweeps);
      var d := Decide(kind, cmd, Lookup(s', key, env(0).now));
      Executed(d.outcome, Apply(s', key, d.write, env(1)))
    case DelKeys(keys) => DelFrom(s, keys, 0, 0, env)
    case CountKeys(keys) => CountFrom(s, keys, 0, 0, env)
    case ExpireKey(key, millis) =>
      var s' := SweptAll(s, env(0).sweeps);
      Executed(Reply(Bit(Alive(s', key, env(0).now))), ExpireAt(s', key, millis, env(0).now, env(0).later))
    case TtlKey(key) =>
      var s' := SweptAll(s, env(0).sweeps);
      var millis := Remaining(s', key, env(0).now, env(0).later);
      Executed(Reply(Integer(WholeSeconds(millis))), s')
    case PersistKey(key) =>
      var s' := SweptAll(s, env(0).sweeps);
      Executed(Reply(Bit(Alive(s', key, env(0).now))), Persisted(s', key, env(0).now))
  }

  /** The dispatcher. */
  function Exec(cmd: Command, s: Store, env: Env): Executed {
    match KindOf(cmd.name)
    case None => Executed(Failed(UnknownCommand(cmd.name)), s)
    case Some(kind) => ExecKind(kind, cmd, s, env)
  }
}
