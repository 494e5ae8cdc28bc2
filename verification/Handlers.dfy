/** The command handlers as the loops and updates they are, each proved to have the effect
    that `Commands.ExecKind` gives its command. */
module Handlers {
  import opened Bytes
  import opened Resp
  import opened Store
  import opened Commands

  method ParseCommandValue(v: RespValue) returns (r: Option<Command>)
    ensures r == ParseCommand(v)
  {
    if !v.Array? || v.elements == [] || !v.elements[0].BulkString? {
      return None;
    }
    var name := Upper(v.elements[0].data);
    var args := [];
    for i := 1 to |v.elements|
      invariant AllBulk(v.elements[..i]) && args == Datas(v.elements[1..i])
    {
      if !v.elements[i].BulkString? {
        return None;
      }
      assert v.elements[1..i + 1] == v.elements[1..i] + [v.elements[i]];
      args := args + [v.elements[i].data];
    }
    assert v.elements[1..|v.elements|] == v.elements[1..];
    assert v.elements[..|v.elements|] == v.elements;
    return Some(Command(name, args));
  }

  function Wrong(cmd: Command): Outcome {
    Failed(WrongArgs(cmd.name))
  }

  // ---- the shared shape ------------------------------------------------------------------

  /** A decision on what a lookup in `s` found, carried out. */
  ghost function Finish(s: Store, key: Bytes, d: Decision, env: Env): Executed {
    Executed(d.outcome, Apply(s, key, d.write, env(1)))
  }

  lemma ListStep(kind: Kind, cmd: Command, s: Store, env: Env)
    requires ListKind(kind) && ListArity(kind, cmd.args) && Plan(kind, cmd).OnKey?
    ensures var s' := SweptAll(s, env(0).sweeps);
            ExecKind(kind, cmd, s, env)
            == Finish(s', cmd.args[0], DecideList(kind, cmd.args, Lookup(s', cmd.args[0], env(0).now)), env)
  {
    hide SweptAll, Lookup, Apply, DecideList;
  }

  lemma SetStep(kind: Kind, cmd: Command, s: Store, env: Env)
    requires SetKind(kind) && SetArity(kind, cmd.args) && Plan(kind, cmd).OnKey?
    ensures var s' := SweptAll(s, env(0).sweeps);
            ExecKind(kind, cmd, s, env)
            == Finish(s', cmd.args[0], DecideSet(kind, cmd.args, Lookup(s', cmd.args[0], env(0).now)), env)
  {
    hide SweptAll, Lookup, Apply, DecideSet;
  }

  lemma HashStep(kind: Kind, cmd: Command, s: Store, env: Env)
    requires HashKind(kind) && HashArity(kind, cmd.args) && Plan(kind, cmd).OnKey?
    ensures var s' := SweptAll(s, env(0).sweeps);
            ExecKind(kind, cmd, s, env)
            == Finish(s', cmd.args[0], DecideHash(kind, cmd.args, Lookup(s', cmd.args[0], env(0).now)), env)
  {
    hide SweptAll, Lookup, Apply, DecideHash;
  }

  // ---- strings -------------------------------------------------------------------------

  /** The option loop of SET. */
  method ScanSetOptions(args: seq<Bytes>) returns (r: Scanned)
    requires |args| >= 2
    ensures r == OptionsOf(args)
  {
    var millis, nx, xx := 0, false, false;
    var i := 2;
    while i < |args|
      invariant ScanOptions(args, i, SetOptions(millis, nx, xx)) == OptionsOf(args)
    {
      var flag := Upper(args[i]);
      if flag == "NX" {
        nx := true;
      } else if flag == "XX" {
        xx := true;
      } else if flag == "EX" || flag == "PX" {
        if i + 1 >= |args| {
          return Rejected(SyntaxError);
        }
        i := i + 1;
        var n := ParseInt(args[i]);
        if n.None? || n.value <= 0 {
          return Rejected(BadExpireTime);
        }
        millis := if flag == "EX" then n.value * 1000 else n.value;
      } else {
        return Rejected(SyntaxError);
      }
      i := i + 1;
    }
    return Options(SetOptions(millis, nx, xx));
  }

  method CmdSet(cmd: Command, store: KvStore, env: Env) returns (out: Outcome)
    modifies store
    ensures Executed(out, store.data) == ExecKind(SetKey, cmd, old(store.data), env)
  {
    if |cmd.args| < 2 {
      return Wrong(cmd);
    }
    var scanned := ScanSetOptions(cmd.args);
    if scanned.Rejected? {
      return Failed(scanned.fault);
    }
    var SetOptions(millis, nx, xx) := scanned.options;
    if nx && xx {
      return Failed(NxWithXx);
    }
    var present := store.Exists(cmd.args[0], env(0));
    if (nx && present) || (xx && !present) {
      return Reply(Null);
    }
    store.Set(cmd.args[0], Str(cmd.args[1]), millis, env(1));
    return Reply(SimpleString("OK"));
  }

  method CmdGet(cmd: Command, store: KvStore, env: Env) returns (out: Outcome)
    modifies store
    ensures Executed(out, store.data) == ExecKind(Get, cmd, old(store.data), env)
  {
    if |cmd.args| != 1 {
      return Wrong(cmd);
    }
    var found := store.Get(cmd.args[0], env(0));
    match found
    case None => return Reply(Null);
    case Some(Str(data)) => return Reply(BulkString(data));
    case Some(_) => return Throw;
  }

  /** INCR and its relatives. No int64 subtraction or addition in it leaves the int64 range. */
  method ApplyDelta(key: Bytes, delta: int, store: KvStore, env: Env) returns (out: Outcome)
    requires INT64_MIN <= delta <= INT64_MAX
    modifies store
    ensures var s := SweptAll(old(store.data), env(0).sweeps);
            var d := Add(Lookup(s, key, env(0).now), delta);
            Executed(out, store.data) == Executed(d.outcome, Apply(s, key, d.write, env(1)))
  {
    var current := store.Get(key, env(0));
    var num := 0;
    if current.Some? {
      if !current.value.Str? {
        return Throw;
      }
      var n := ParseInt(current.value.data);
      if n.None? {
        return Failed(NotAnInteger);
      }
      num := n.value;
    }
    assert delta > 0 ==> IsInt64(INT64_MAX - delta);
    assert delta < 0 ==> IsInt64(INT64_MIN - delta);
    if (delta > 0 && num > INT64_MAX - delta) || (delta < 0 && num < INT64_MIN - delta) {
      return Failed(WouldOverflow);
    }
    num := num + delta;
    assert IsInt64(num);
    store.Set(key, Str(IntText(num)), 0, env(1));
    return Reply(Integer(num));
  }

  method CmdIncr(cmd: Command, store: KvStore, env: Env) returns (out: Outcome)
    modifies store
    ensures Executed(out, store.data) == ExecKind(Incr, cmd, old(store.data), env)
  {
    if |cmd.args| != 1 {
      return Wrong(cmd);
    }
    out := ApplyDelta(cmd.args[0], 1, store, env);
  }

  method CmdDecr(cmd: Command, store: KvStore, env: Env) returns (out: Outcome)
    modifies store
    ensures Executed(out, store.data) == ExecKind(Decr, cmd, old(store.data), env)
  {
    if |cmd.args| != 1 {
      return Wrong(cmd);
    }
    out := ApplyDelta(cmd.args[0], -1, store, env);
  }

  method CmdIncrBy(cmd: Command, store: KvStore, env: Env) returns (out: Outcome)
    modifies store
    ensures Executed(out, store.data) == ExecKind(IncrBy, cmd, old(store.data), env)
  {
    if |cmd.args| != 2 {
      return Wrong(cmd);
    }
    var delta := ParseInt(cmd.args[1]);
    if delta.None? {
      return Failed(NotAnInteger);
    }
    out := ApplyDelta(cmd.args[0], delta.value, store, env);
  }

  method CmdDecrBy(cmd: Command, store: KvStore, env: Env) returns (out: Outcome)
    modifies store
    ensures Executed(out, store.data) == ExecKind(DecrBy, cmd, old(store.data), env)
  {
    if |cmd.args| != 2 {
      return Wrong(cmd);
    }
    var delta := ParseInt(cmd.args[1]);
    if delta.None? {
      return Failed(NotAnInteger);
    }
    if delta.value == INT64_MIN {
      return Failed(WouldOverflow);
    }
    out := ApplyDelta(cmd.args[0], -delta.value, store, env);
  }

  // ---- lists ---------------------------------------------------------------------------

  /** The loops of LPUSH and RPUSH. */
  method PushAll(kind: Kind, list: seq<Bytes>, items: seq<Bytes>) returns (list': seq<Bytes>)
    requires kind == LPush || kind == RPush
    ensures list' == if kind == LPush then PushFront(list, items) else list + items
  {
    list' := list;
    for i := 0 to |items|
      invariant kind == LPush ==> PushFront(list', items[i..]) == PushFront(list, items)
      invariant kind == RPush ==> list' == list + items[..i]
    {
      assert items[i..][1..] == items[i + 1..];
      list' := if kind == LPush then [items[i]] + list' else list' + [items[i]];
    }
  }

  method CmdPush(kind: Kind, cmd: Command, store: KvStore, env: Env) returns (out: Outcome)
    requires kind == LPush || kind == RPush
    modifies store
    ensures Executed(out, store.data) == ExecKind(kind, cmd, old(store.data), env)
  {
    if |cmd.args| < 2 {
      return Wrong(cmd);
    }
    ListStep(kind, cmd, store.data, env);
    hide ExecKind, Plan, Lookup, SweptAll;
    var found := store.Get(cmd.args[0], env(0));
    if found.Some? && !found.value.List? {
      return Failed(WrongType);
    }
    var list := if found.None? then [] else found.value.elements;
    list := PushAll(kind, list, cmd.args[1..]);
    store.Set(cmd.args[0], List(list), 0, env(1));
    return Reply(Integer(|list|));
  }

  method CmdPop(kind: Kind, cmd: Command, store: KvStore, env: Env) returns (out: Outcome)
    requires kind == LPop || kind == RPop
    modifies store
    ensures Executed(out, store.data) == ExecKind(kind, cmd, old(store.data), env)
  {
    if |cmd.args| != 1 {
      return Wrong(cmd);
    }
    ListStep(kind, cmd, store.data, env);
    hide ExecKind, Plan, Lookup, SweptAll;
    var found := store.Get(cmd.args[0], env(0));
    if found.None? {
      return Reply(Null);
    }
    if !found.value.List? {
      return Failed(WrongType);
    }
    var list := found.value.elements;
    if list == [] {
      return Reply(Null);
    }
    var last := |list| - 1;
    var element := if kind == LPop then list[0] else list[last];
    list := if kind == LPop then list[1..] else list[..last];
    if list == [] {
      var _ := store.Del(cmd.args[0], env(1));
    } else {
      store.Set(cmd.args[0], List(list), 0, env(1));
    }
    return Reply(BulkString(element));
  }

  method CmdLLen(cmd: Command, store: KvStore, env: Env) returns (out: Outcome)
    modifies store
    ensures Executed(out, store.data) == ExecKind(LLen, cmd, old(store.data), env)
  {
    if |cmd.args| != 1 {
      return Wrong(cmd);
    }
    ListStep(LLen, cmd, store.data, env);
    hide ExecKind, Plan, Lookup, SweptAll;
    var found := store.Get(cmd.args[0], env(0));
    match found
    case None => return Reply(Integer(0));
    case Some(List(list)) => return Reply(Integer(|list|));
    case Some(_) => return Failed(WrongType);
  }

  /** The loop of LRANGE, with every element access in bounds. */
  method CollectRange(list: seq<Bytes>, first: int, last: int) returns (items: seq<RespValue>)
    ensures items == Bulks(RangeOf(list, first, last))
  {
    var n := |list|;
    var start, stop := first, last;
    if start < 0 {
      start := start + n;
    }
    if stop < 0 {
      stop := stop + n;
    }
    if start < 0 {
      start := 0;
    }
    if stop >= n {
      stop := n - 1;
    }
    assert Clamp(n, first, last) == if start <= stop then (start, stop + 1) else (0, 0);
    hide Clamp, Bulks;
    items := [];
    if start <= stop {
      items := CollectSlice(list, start, stop);
    }
  }

  method CollectSlice(list: seq<Bytes>, start: nat, stop: nat) returns (items: seq<RespValue>)
    requires start <= stop < |list|
    ensures items == Bulks(list[start..stop + 1])
  {
    items := [];
    var i := start;
    while i <= stop
      invariant start <= i <= stop + 1
      invariant |items| == i - start
      invariant forall j :: 0 <= j < |items| ==> items[j] == BulkString(list[start + j])
    {
      items := items + [BulkString(list[i])];
      i := i + 1;
    }
  }

  method CmdLRange(cmd: Command, store: KvStore, env: Env) returns (out: Outcome)
    modifies store
    ensures Executed(out, store.data) == ExecKind(LRange, cmd, old(store.data), env)
  {
    if |cmd.args| != 3 {
      return Wrong(cmd);
    }
    ListStep(LRange, cmd, store.data, env);
    hide ExecKind, Plan, Lookup, SweptAll;
    var found := store.Get(cmd.args[0], env(0));
    if found.None? {
      return Reply(Array([]));
    }
    if !found.value.List? {
      return Failed(WrongType);
    }
    var start, stop := ParseInt(cmd.args[1]), ParseInt(cmd.args[2]);
    if start.None? || stop.None? {
      return Failed(NotAnInteger);
    }
    var items := CollectRange(found.value.elements, start.value, stop.value);
    return Reply(Array(items));
  }

  method CmdLIndex(cmd: Command, store: KvStore, env: Env) returns (out: Outcome)
    modifies store
    ensures Executed(out, store.data) == ExecKind(LIndex, cmd, old(store.data), env)
  {
    if |cmd.args| != 2 {
      return Wrong(cmd);
    }
    ListStep(LIndex, cmd, store.data, env);
    hide ExecKind, Plan, Lookup, SweptAll;
    var found := store.Get(cmd.args[0], env(0));
    if found.None? {
      return Reply(Null);
    }
    if !found.value.List? {
      return Failed(WrongType);
    }
    var index := ParseInt(cmd.args[1]);
    if index.None? {
      return Failed(NotAnInteger);
    }
    var list := found.value.elements;
    var i := index.value;
    if i < 0 {
      i := i + |list|;
    }
    if i < 0 || i >= |list| {
      return Reply(Null);
    }
    return Reply(BulkString(list[i]));
  }

  // ---- sets ----------------------------------------------------------------------------

  lemma SetOfSnoc(items: seq<Bytes>, i: nat)
    requires i < |items|
    ensures SetOf(items[..i + 1]) == SetOf(items[..i]) + {items[i]}
  {
    assert items[..i + 1][..i] == items[..i];
  }

  /** The loop of SADD: a repeated or present member is not counted. */
  method AddMembers(members: set<Bytes>, items: seq<Bytes>) returns (members': set<Bytes>, added: int)
    ensures members' == members + SetOf(items)
    ensures added == |members'| - |members|
  {
    assert SetOf(items[..0]) == {};
    hide SetOf;
    members', added := members, 0;
    for i := 0 to |items|
      invariant members' == members + SetOf(items[..i])
      invariant added == |members'| - |members|
    {
      SetOfSnoc(items, i);
      if items[i] !in members' {
        members', added := members' + {items[i]}, added + 1;
      }
    }
    assert items[..|items|] == items;
  }

  /** The loop of SREM: a repeated or absent member is not counted. */
  method RemoveMembers(members: set<Bytes>, items: seq<Bytes>) returns (members': set<Bytes>, removed: int)
    ensures members' == members - SetOf(items)
    ensures removed == |members| - |members'|
  {
    assert SetOf(items[..0]) == {};
    hide SetOf;
    members', removed := members, 0;
    for i := 0 to |items|
      invariant members' == members - SetOf(items[..i])
      invariant removed == |members| - |members'|
    {
      SetOfSnoc(items, i);
      if items[i] in members' {
        members', removed := members' - {items[i]}, removed + 1;
      }
    }
    assert items[..|items|] == items;
  }

  lemma SAddDecision(args: seq<Bytes>, found: Option<Value>, members: set<Bytes>)
    requires |args| >= 2 && found == (if found.None? && members == {} then None else Some(Set(members)))
    ensures var members' := members + SetOf(args[1..]);
            DecideSet(SAdd, args, found) == Decision(Reply(Integer(|members'| - |members|)), Put(Set(members'), 0))
  {
    hide SetOf;
  }

  lemma SRemDecision(args: seq<Bytes>, members: set<Bytes>)
    requires |args| >= 2
    ensures var members' := members - SetOf(args[1..]);
            DecideSet(SRem, args, Some(Set(members)))
            == Decision(Reply(Integer(|members| - |members'|)), PutOrDrop(Set(members'), members' == {}))
  {
    hide SetOf;
  }

  method CmdSAdd(cmd: Command, store: KvStore, env: Env) returns (out: Outcome)
    modifies store
    ensures Executed(out, store.data) == ExecKind(SAdd, cmd, old(store.data), env)
  {
    if |cmd.args| < 2 {
      return Wrong(cmd);
    }
    SetStep(SAdd, cmd, store.data, env);
    hide ExecKind, Plan, Lookup, SweptAll, SetOf;
    var found := store.Get(cmd.args[0], env(0));
    if found.Some? && !found.value.Set? {
      return Failed(WrongType);
    }
    var members := if found.None? then {} else found.value.members;
    SAddDecision(cmd.args, found, members);
    hide DecideSet, Written;
    var added;
    members, added := AddMembers(members, cmd.args[1..]);
    store.Set(cmd.args[0], Set(members), 0, env(1));
    return Reply(Integer(added));
  }

  method CmdSRem(cmd: Command, store: KvStore, env: Env) returns (out: Outcome)
    modifies store
    ensures Executed(out, store.data) == ExecKind(SRem, cmd, old(store.data), env)
  {
    if |cmd.args| < 2 {
      return Wrong(cmd);
    }
    SetStep(SRem, cmd, store.data, env);
    hide ExecKind, Plan, Lookup, SweptAll, SetOf;
    var found := store.Get(cmd.args[0], env(0));
    if found.None? {
      return Reply(Integer(0));
    }
    if !found.value.Set? {
      return Failed(WrongType);
    }
    SRemDecision(cmd.args, found.value.members);
    hide DecideSet, Written;
    var members, removed := RemoveMembers(found.value.members, cmd.args[1..]);
    if members == {} {
      var _ := store.Del(cmd.args[0], env(1));
    } else {
      store.Set(cmd.args[0], Set(members), 0, env(1));
    }
    return Reply(Integer(removed));
  }

  lemma SetReadAnswer(kind: Kind, args: seq<Bytes>, found: Option<Value>)
    requires (kind.SMembers? || kind.SIsMember? || kind.SCard?) && SetArity(kind, args)
    ensures DecideSet(kind, args, found)
            == match found
               case None => Answer(if kind == SMembers then Array([]) else Integer(0))
               case Some(Set(members)) =>
                 if kind == SMembers then Decision(Members(members), Keep)
                 else if kind == SCard then Answer(Integer(|members|))
                 else Answer(Bit(args[1] in members))
               case Some(_) => Refuse(WrongType)
  {
    hide SetOf;
  }

  method CmdSetRead(kind: Kind, cmd: Command, store: KvStore, env: Env) returns (out: Outcome)
    requires (kind.SMembers? || kind.SIsMember? || kind.SCard?)
    modifies store
    ensures Executed(out, store.data) == ExecKind(kind, cmd, old(store.data), env)
  {
    if |cmd.args| != if kind == SIsMember then 2 else 1 {
      return Wrong(cmd);
    }
    SetStep(kind, cmd, store.data, env);
    hide ExecKind, Plan, Lookup, SweptAll, DecideSet;
    var found := store.Get(cmd.args[0], env(0));
    SetReadAnswer(kind, cmd.args, found);
    if found.None? {
      return Reply(if kind == SMembers then Array([]) else Integer(0));
    }
    if !found.value.Set? {
      return Failed(WrongType);
    }
    var members := found.value.members;
    if kind == SMembers {
      return Members(members);
    }
    return Reply(if kind == SCard then Integer(|members|) else Bit(cmd.args[1] in members));
  }

  /** The loop of SMEMBERS; `listing` is the order in which the table is walked. */
  method ListMembers(listing: seq<Bytes>) returns (items: seq<RespValue>)
    ensures items == Bulks(listing)
  {
    items := [];
    for i := 0 to |listing|
      invariant |items| == i && forall j :: 0 <= j < i ==> items[j] == BulkString(listing[j])
    {
      items := items + [BulkString(listing[i])];
    }
  }

  // ---- hashes --------------------------------------------------------------------------

  /** The loop of HSET over field and value pairs. */
  method PutPairs(fields: map<Bytes, Bytes>, pairs: seq<Bytes>) returns (fields': map<Bytes, Bytes>, added: int)
    requires |pairs| % 2 == 0
    ensures fields' == PutFields(fields, pairs)
    ensures added == |fields'.Keys| - |fields.Keys|
  {
    fields', added := fields, 0;
    var i := 0;
    while i < |pairs|
      invariant 0 <= i <= |pairs| && i % 2 == 0
      invariant PutFields(fields', pairs[i..]) == PutFields(fields, pairs)
      invariant added == |fields'.Keys| - |fields.Keys|
    {
      assert pairs[i..][2..] == pairs[i + 2..];
      if pairs[i] !in fields' {
        added := added + 1;
      }
      fields' := fields'[pairs[i] := pairs[i + 1]];
      i := i + 2;
    }
  }

  /** The loop of HDEL. */
  method RemoveFields(fields: map<Bytes, Bytes>, items: seq<Bytes>) returns (fields': map<Bytes, Bytes>, removed: int)
    ensures fields' == WithoutFields(fields, items)
    ensures removed == |fields.Keys| - |fields'.Keys|
  {
    assert SetOf(items[..0]) == {};
    hide SetOf;
    fields', removed := fields, 0;
    for i := 0 to |items|
      invariant fields'.Keys == fields.Keys - SetOf(items[..i])
      invariant forall f :: f in fields' ==> fields'[f] == fields[f]
      invariant removed == |fields.Keys| - |fields'.Keys|
    {
      SetOfSnoc(items, i);
      if items[i] in fields' {
        ghost var keys := fields'.Keys;
        fields', removed := fields' - {items[i]}, removed + 1;
        assert fields'.Keys == keys - {items[i]};
      }
    }
    assert items[..|items|] == items;
    assert fields'.Keys == WithoutFields(fields, items).Keys;
  }

  lemma PairsStep(listing: seq<Bytes>, fields: map<Bytes, Bytes>, i: nat)
    requires i < |listing| && listing[i] in fields
    ensures var f := listing[i];
            Bulks(Pairs(listing[i..], fields))
            == [BulkString(f), BulkString(fields[f])] + Bulks(Pairs(listing[i + 1..], fields))
  {
    var f, rest := listing[i], Pairs(listing[i + 1..], fields);
    assert listing[i..][0] == f && listing[i..][1..] == listing[i + 1..];
    hide Pairs;
    assert Bulks([f, fields[f]] + rest) == [BulkString(f), BulkString(fields[f])] + Bulks(rest);
  }

  /** The loop of HGETALL over the entries of the table. */
  method ListFields(listing: seq<Bytes>, fields: map<Bytes, Bytes>) returns (items: seq<RespValue>)
    requires forall f :: f in listing ==> f in fields
    ensures items == Bulks(Pairs(listing, fields))
  {
    hide Bulks;
    items := [];
    assert listing[0..] == listing && [] + Bulks(Pairs(listing, fields)) == Bulks(Pairs(listing, fields));
    for i := 0 to |listing|
      invariant items + Bulks(Pairs(listing[i..], fields)) == Bulks(Pairs(listing, fields))
    {
      PairsStep(listing, fields, i);
      var f := listing[i];
      ghost var rest := Bulks(Pairs(listing[i + 1..], fields));
      assert items + ([BulkString(f), BulkString(fields[f])] + rest) == items + [BulkString(f), BulkString(fields[f])] + rest;
      items := items + [BulkString(f), BulkString(fields[f])];
    }
    assert Pairs(listing[|listing|..], fields) == [] && items + [] == items;
  }

  method CmdHSet(cmd: Command, store: KvStore, env: Env) returns (out: Outcome)
    modifies store
    ensures Executed(out, store.data) == ExecKind(HSet, cmd, old(store.data), env)
  {
    if |cmd.args| < 3 || |cmd.args| % 2 == 0 {
      return Wrong(cmd);
    }
    HashStep(HSet, cmd, store.data, env);
    hide ExecKind, Plan, Lookup, SweptAll;
    var found := store.Get(cmd.args[0], env(0));
    if found.Some? && !found.value.Hash? {
      return Failed(WrongType);
    }
    var fields := if found.None? then map[] else found.value.fields;
    var added;
    fields, added := PutPairs(fields, cmd.args[1..]);
    store.Set(cmd.args[0], Hash(fields), 0, env(1));
    return Reply(Integer(added));
  }

  lemma HDelDecision(args: seq<Bytes>, fields: map<Bytes, Bytes>)
    requires |args| >= 2
    ensures var fields' := WithoutFields(fields, args[1..]);
            DecideHash(HDel, args, Some(Hash(fields)))
            == Decision(Reply(Integer(|fields.Keys| - |fields'.Keys|)), PutOrDrop(Hash(fields'), fields'.Keys == {}))
  {
    hide WithoutFields;
  }

  method CmdHDel(cmd: Command, store: KvStore, env: Env) returns (out: Outcome)
    modifies store
    ensures Executed(out, store.data) == ExecKind(HDel, cmd, old(store.data), env)
  {
    if |cmd.args| < 2 {
      return Wrong(cmd);
    }
    HashStep(HDel, cmd, store.data, env);
    hide ExecKind, Plan, Lookup, SweptAll, WithoutFields, SetOf;
    var found := store.Get(cmd.args[0], env(0));
    if found.None? {
      return Reply(Integer(0));
    }
    if !found.value.Hash? {
      return Failed(WrongType);
    }
    HDelDecision(cmd.args, found.value.fields);
    hide DecideHash, Written;
    var fields, removed := RemoveFields(found.value.fields, cmd.args[1..]);
    if fields.Keys == {} {
      var _ := store.Del(cmd.args[0], env(1));
    } else {
      store.Set(cmd.args[0], Hash(fields), 0, env(1));
    }
    return Reply(Integer(removed));
  }

  method CmdHashRead(kind: Kind, cmd: Command, store: KvStore, env: Env) returns (out: Outcome)
    requires (kind.HGet? || kind.HGetAll? || kind.HExists? || kind.HLen?)
    modifies store
    ensures Executed(out, store.data) == ExecKind(kind, cmd, old(store.data), env)
  {
    if |cmd.args| != if kind == HGet || kind == HExists then 2 else 1 {
      return Wrong(cmd);
    }
    HashStep(kind, cmd, store.data, env);
    hide ExecKind, Plan, Lookup, SweptAll;
    var found := store.Get(cmd.args[0], env(0));
    if found.None? {
      return Reply(if kind == HGet then Null else if kind == HGetAll then Array([]) else Integer(0));
    }
    if !found.value.Hash? {
      return Failed(WrongType);
    }
    var fields := found.value.fields;
    match kind
    case HGet => return Reply(if cmd.args[1] in fields then BulkString(fields[cmd.args[1]]) else Null);
    case HGetAll => return Fields(fields);
    case HExists => return Reply(Bit(cmd.args[1] in fields));
    case HLen => return Reply(Integer(|fields.Keys|));
  }

  // ---- generic commands ------------------------------------------------------------------

  method CmdDel(cmd: Command, store: KvStore, env: Env) returns (out: Outcome)
    modifies store
    ensures Executed(out, store.data) == ExecKind(Del, cmd, old(store.data), env)
  {
    if cmd.args == [] {
      return Wrong(cmd);
    }
    var count := 0;
    for i := 0 to |cmd.args|
      invariant DelFrom(store.data, cmd.args, i, count, env) == DelFrom(old(store.data), cmd.args, 0, 0, env)
    {
      var removed := store.Del(cmd.args[i], env(i));
      count := count + removed;
    }
    return Reply(Integer(count));
  }

  method CmdExists(cmd: Command, store: KvStore, env: Env) returns (out: Outcome)
    modifies store
    ensures Executed(out, store.data) == ExecKind(Exists, cmd, old(store.data), env)
  {
    if cmd.args == [] {
      return Wrong(cmd);
    }
    var count := 0;
    for i := 0 to |cmd.args|
      invariant CountFrom(store.data, cmd.args, i, count, env) == CountFrom(old(store.data), cmd.args, 0, 0, env)
    {
      var present := store.Exists(cmd.args[i], env(i));
      if present {
        count := count + 1;
      }
    }
    return Reply(Integer(count));
  }

  method CmdExpire(cmd: Command, store: KvStore, env: Env) returns (out: Outcome)
    modifies store
    ensures Executed(out, store.data) == ExecKind(Expire, cmd, old(store.data), env)
  {
    if |cmd.args| != 2 {
      return Wrong(cmd);
    }
    var seconds := ParseInt(cmd.args[1]);
    if seconds.None? || seconds.value < 0 {
      return Failed(NotAnInteger);
    }
    var ok := store.Expire(cmd.args[0], seconds.value * 1000, env(0));
    return Reply(Bit(ok));
  }

  method CmdTtl(cmd: Command, store: KvStore, env: Env) returns (out: Outcome)
    modifies store
    ensures Executed(out, store.data) == ExecKind(Ttl, cmd, old(store.data), env)
  {
    if |cmd.args| != 1 {
      return Wrong(cmd);
    }
    var millis := store.Ttl(cmd.args[0], env(0));
    if millis < 0 {
      return Reply(Integer(millis));
    }
    return Reply(Integer((millis + 999) / 1000));
  }

  method CmdPersist(cmd: Command, store: KvStore, env: Env) returns (out: Outcome)
    modifies store
    ensures Executed(out, store.data) == ExecKind(Persist, cmd, old(store.data), env)
  {
    if |cmd.args| != 1 {
      return Wrong(cmd);
    }
    var ok := store.Persist(cmd.args[0], env(0));
    return Reply(Bit(ok));
  }

  // ---- dispatcher ------------------------------------------------------------------------

  method DispatchKind(kind: Kind, cmd: Command, store: KvStore, env: Env) returns (out: Outcome)
    modifies store
    ensures Executed(out, store.data) == ExecKind(kind, cmd, old(store.data), env)
  {
    hide ExecKind, Plan;
    match kind
    case SetKey => out := CmdSet(cmd, store, env);
    case Get => out := CmdGet(cmd, store, env);
    case Incr => out := CmdIncr(cmd, store, env);
    case Decr => out := CmdDecr(cmd, store, env);
    case IncrBy => out := CmdIncrBy(cmd, store, env);
    case DecrBy => out := CmdDecrBy(cmd, store, env);
    case LPush => out := CmdPush(LPush, cmd, store, env);
    case RPush => out := CmdPush(RPush, cmd, store, env);
    case LPop => out := CmdPop(LPop, cmd, store, env);
    case RPop => out := CmdPop(RPop, cmd, store, env);
    case LLen => out := CmdLLen(cmd, store, env);
    case LRange => out := CmdLRange(cmd, store, env);
    case LIndex => out := CmdLIndex(cmd, store, env);
    case SAdd => out := CmdSAdd(cmd, store, env);
    case SRem => out := CmdSRem(cmd, store, env);
    case SMembers => out := CmdSetRead(SMembers, cmd, store, env);
    case SIsMember => out := CmdSetRead(SIsMember, cmd, store, env);
    case SCard => out := CmdSetRead(SCard, cmd, store, env);
    case HSet => out := CmdHSet(cmd, store, env);
    case HDel => out := CmdHDel(cmd, store, env);
    case HGet => out := CmdHashRead(HGet, cmd, store, env);
    case HGetAll => out := CmdHashRead(HGetAll, cmd, store, env);
    case HExists => out := CmdHashRead(HExists, cmd, store, env);
    case HLen => out := CmdHashRead(HLen, cmd, store, env);
    case Del => out := CmdDel(cmd, store, env);
    case Exists => out := CmdExists(cmd, store, env);
    case Expire => out := CmdExpire(cmd, store, env);
    case Ttl => out := CmdTtl(cmd, store, env);
    case Persist => out := CmdPersist(cmd, store, env);
    case _ =>
      out := PlanOutcome(kind, cmd, store.data, env);
  }

  function PlanOutcome(kind: Kind, cmd: Command, ghost s: Store, ghost env: Env): (out: Outcome)
    requires kind == Ping || kind == Health || kind == Unmodelled
    ensures Executed(out, s) == ExecKind(kind, cmd, s, env)
  {
    Plan(kind, cmd).outcome
  }

  method Dispatch(cmd: Command, store: KvStore, env: Env) returns (out: Outcome)
    modifies store
    ensures Executed(out, store.data) == Exec(cmd, old(store.data), env)
  {
    match KindOf(cmd.name)
    case None => return Failed(UnknownCommand(cmd.name));
    case Some(kind) => out := DispatchKind(kind, cmd, store, env);
  }
}
