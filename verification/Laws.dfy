/** What each command does, from the name that the client sends: its answer, and what the key holds
    afterwards. The key is followed over a span of time, as in Families.dfy, with any sweeps. */
module Laws {
  import opened Bytes
  import opened Numbers
  import opened Names
  import opened Resp
  import opened Store
  import opened Commands
  import opened Families
  import opened Lists
  import StoreTheorems

  // ---- strings -----------------------------------------------------------------------------------

  lemma GetWorks(key: Bytes)
    ensures Works(Command("GET", [key]), Get, key)
  {
    StringNames();
    hide KindOf;
  }

  lemma GetDecision(cmd: Command, found: Option<Value>)
    requires |cmd.args| == 1 && (found.None? || found.value.Str?)
    ensures Plan(Get, cmd) == OnKey(cmd.args[0])
    ensures Decide(Get, cmd, found) == Answer(if found.None? then Null else BulkString(found.value.data))
  {
  }

  /** GET answers the string, or null on an absent key, and leaves it. */
  lemma GetLaw(s: Store, env: Env, key: Bytes, found: Option<Value>, span: Span)
    requires (found.None? || found.value.Str?) && Holds(s, key, found, span) && Meets(env, span)
    ensures var r := Exec(Command("GET", [key]), s, env);
            && r.outcome == Reply(if found.None? then Null else BulkString(found.value.data))
            && Holds(r.store, key, found, span)
  {
    hide Exec, Holds, Meets, Plan, Decide, KindOf;
    var cmd := Command("GET", [key]);
    GetWorks(key);
    GetDecision(cmd, found);
    KeyStep(cmd, Get, s, env, key, found, span);
  }

  // ---- lists -------------------------------------------------------------------------------------

  function Reversed(items: seq<Bytes>): (r: seq<Bytes>)
    ensures |r| == |items| && forall i :: 0 <= i < |items| ==> r[i] == items[|items| - 1 - i]
  {
    seq(|items|, i requires 0 <= i < |items| => items[|items| - 1 - i])
  }

  lemma PushFrontIs(list: seq<Bytes>, items: seq<Bytes>)
    ensures PushFront(list, items) == Reversed(items) + list
  {
    hide PushFront;
    if list + items != [] {
      PushFrontReverses(list, items, 0);
    } else {
      PushFrontNothing();
    }
    forall i | 0 <= i < |list| + |items| ensures PushFront(list, items)[i] == (Reversed(items) + list)[i] {
      PushFrontReverses(list, items, i);
    }
  }

  lemma PushFrontNothing()
    ensures PushFront([], []) == []
  {
  }

  lemma PushWorks(left: bool, key: Bytes, items: seq<Bytes>) returns (cmd: Command)
    requires items != []
    ensures cmd == Command(if left then "LPUSH" else "RPUSH", [key] + items)
    ensures Works(cmd, if left then LPush else RPush, key) && cmd.args[1..] == items
  {
    PushPopNames();
    hide KindOf;
    cmd := Command(if left then "LPUSH" else "RPUSH", [key] + items);
    assert cmd.args[1..] == items;
  }

  /** LPUSH puts its items in front, the last one first, and answers the new length. */
  lemma LPushLaw(s: Store, env: Env, key: Bytes, items: seq<Bytes>, list: seq<Bytes>, span: Span)
    requires items != [] && Holds(s, key, FoundList(list), span) && Meets(env, span)
    ensures var r := Exec(Command("LPUSH", [key] + items), s, env);
            && r.outcome == Reply(Integer(|list| + |items|))
            && Holds(r.store, key, Some(List(Reversed(items) + list)), span)
  {
    var cmd := PushWorks(true, key, items);
    PushDecision(LPush, cmd.args, list);
    PushFrontIs(list, items);
    hide Exec, Works, Holds, Meets, DecideList, PushFront, FoundList;
    ListKeyStep(cmd, LPush, s, env, key, list, span);
  }

  /** RPUSH puts its items at the end, in their order, and answers the new length. */
  lemma RPushLaw(s: Store, env: Env, key: Bytes, items: seq<Bytes>, list: seq<Bytes>, span: Span)
    requires items != [] && Holds(s, key, FoundList(list), span) && Meets(env, span)
    ensures var r := Exec(Command("RPUSH", [key] + items), s, env);
            && r.outcome == Reply(Integer(|list| + |items|))
            && Holds(r.store, key, Some(List(list + items)), span)
  {
    var cmd := PushWorks(false, key, items);
    PushDecision(RPush, cmd.args, list);
    hide Exec, Works, Holds, Meets, DecideList, PushFront, FoundList;
    ListKeyStep(cmd, RPush, s, env, key, list, span);
  }

  lemma PopWorks(left: bool, key: Bytes) returns (cmd: Command)
    ensures cmd == Command(if left then "LPOP" else "RPOP", [key]) && Works(cmd, if left then LPop else RPop, key)
  {
    PushPopNames();
    hide KindOf;
    cmd := Command(if left then "LPOP" else "RPOP", [key]);
  }

  lemma PopNothing(kind: Kind, args: seq<Bytes>)
    requires (kind == LPop || kind == RPop) && |args| == 1
    ensures DecideList(kind, args, FoundList([])) == Answer(Null)
  {
  }

  /** LPOP takes the first element, answers it and leaves the others; a key whose list is empty is
      absent. On an absent key it answers null. */
  lemma LPopLaw(s: Store, env: Env, key: Bytes, list: seq<Bytes>, span: Span)
    requires Holds(s, key, FoundList(list), span) && Meets(env, span)
    ensures var r := Exec(Command("LPOP", [key]), s, env);
            if list == [] then r.outcome == Reply(Null) && Holds(r.store, key, None, span)
            else r.outcome == Reply(BulkString(list[0])) && Holds(r.store, key, FoundList(list[1..]), span)
  {
    var cmd := PopWorks(true, key);
    if list == [] {
      PopNothing(LPop, cmd.args);
    } else {
      PopDecision(LPop, cmd.args, list);
    }
    hide Exec, Works, Holds, Meets, DecideList;
    ListKeyStep(cmd, LPop, s, env, key, list, span);
  }

  /** RPOP takes the last one. */
  lemma RPopLaw(s: Store, env: Env, key: Bytes, list: seq<Bytes>, span: Span)
    requires Holds(s, key, FoundList(list), span) && Meets(env, span)
    ensures var r := Exec(Command("RPOP", [key]), s, env);
            if list == [] then r.outcome == Reply(Null) && Holds(r.store, key, None, span)
            else && r.outcome == Reply(BulkString(list[|list| - 1]))
                 && Holds(r.store, key, FoundList(list[..|list| - 1]), span)
  {
    var cmd := PopWorks(false, key);
    if list == [] {
      PopNothing(RPop, cmd.args);
    } else {
      PopDecision(RPop, cmd.args, list);
    }
    hide Exec, Works, Holds, Meets, DecideList;
    ListKeyStep(cmd, RPop, s, env, key, list, span);
  }

  lemma LengthWorks(key: Bytes)
    ensures Works(Command("LLEN", [key]), LLen, key)
  {
    ListReadNames();
    hide KindOf;
  }

  /** LLEN answers the length, and leaves the list. */
  lemma LLenLaw(s: Store, env: Env, key: Bytes, list: seq<Bytes>, span: Span)
    requires Holds(s, key, FoundList(list), span) && Meets(env, span)
    ensures var r := Exec(Command("LLEN", [key]), s, env);
            r.outcome == Reply(Integer(|list|)) && Holds(r.store, key, FoundList(list), span)
  {
    hide Exec, Works, Holds, Meets, DecideList, FoundList;
    var cmd := Command("LLEN", [key]);
    LengthWorks(key);
    LengthDecision(cmd.args, list);
    ListKeyStep(cmd, LLen, s, env, key, list, span);
  }

  lemma RangeWorks(key: Bytes, first: Bytes, last: Bytes)
    ensures Works(Command("LRANGE", [key, first, last]), LRange, key)
  {
    ListReadNames();
    hide KindOf;
  }

  lemma RangeRead(args: seq<Bytes>, list: seq<Bytes>)
    requires |args| == 3
    ensures DecideList(LRange, args, FoundList(list))
            == if list == [] then Answer(Array([]))
               else if ParseInt(args[1]).None? || ParseInt(args[2]).None? then Refuse(NotAnInteger)
               else Answer(Array(Bulks(RangeOf(list, ParseInt(args[1]).value, ParseInt(args[2]).value))))
  {
    hide ParseInt, RangeOf;
  }

  /** LRANGE answers with the elements between the two positions; negative ones count from the end. */
  lemma LRangeLaw(s: Store, env: Env, key: Bytes, first: Bytes, last: Bytes, a: int, b: int, list: seq<Bytes>, span: Span)
    requires Holds(s, key, FoundList(list), span) && Meets(env, span)
    requires DenotesInt64(first, a) && DenotesInt64(last, b)
    ensures Exec(Command("LRANGE", [key, first, last]), s, env).outcome
            == Reply(Array(Bulks(Within(list, 0, Position(|list|, a), Position(|list|, b)))))
  {
    RangeWorks(key, first, last);
    ParseMeaning(first, a);
    ParseMeaning(last, b);
    RangeMeaning(list, a, b);
    var cmd := Command("LRANGE", [key, first, last]);
    RangeRead(cmd.args, list);
    WithinEmpty(Position(|list|, a), Position(|list|, b));
    hide Exec, Works, Holds, Meets, DecideList, FoundList, ParseInt, RangeOf, Within, DenotesInt64, Position;
    ListKeyStep(cmd, LRange, s, env, key, list, span);
  }

  lemma WithinEmpty(first: int, last: int)
    ensures Bulks(Within([], 0, first, last)) == []
  {
  }

  /** On a list, a position that denotes no int64 is refused. */
  lemma LRangeRefused(s: Store, env: Env, key: Bytes, first: Bytes, last: Bytes, list: seq<Bytes>, span: Span)
    requires Holds(s, key, FoundList(list), span) && Meets(env, span) && list != []
    requires (forall n :: !DenotesInt64(first, n)) || (forall n :: !DenotesInt64(last, n))
    ensures Exec(Command("LRANGE", [key, first, last]), s, env).outcome == Failed(NotAnInteger)
  {
    RangeWorks(key, first, last);
    NotParsed(first);
    NotParsed(last);
    var cmd := Command("LRANGE", [key, first, last]);
    RangeRead(cmd.args, list);
    hide Exec, Works, Holds, Meets, DecideList, FoundList, ParseInt, RangeOf, DenotesInt64;
    ListKeyStep(cmd, LRange, s, env, key, list, span);
  }

  lemma NotParsed(text: Bytes)
    ensures (forall n :: !DenotesInt64(text, n)) ==> ParseInt(text) == None
  {
    if ParseInt(text).Some? {
      ParseMeaning(text, ParseInt(text).value);
    }
  }

  lemma IndexRead(args: seq<Bytes>, list: seq<Bytes>)
    requires |args| == 2
    ensures DecideList(LIndex, args, FoundList(list))
            == if list == [] then Answer(Null)
               else if ParseInt(args[1]).None? then Refuse(NotAnInteger)
               else match IndexOf(list, ParseInt(args[1]).value)
                    case None => Answer(Null)
                    case Some(item) => Answer(BulkString(item))
  {
    hide ParseInt;
  }

  lemma IndexWorks(key: Bytes, index: Bytes)
    ensures Works(Command("LINDEX", [key, index]), LIndex, key)
  {
    ListReadNames();
    hide KindOf;
  }

  /** LINDEX answers the element at the position, or null when there is none. */
  lemma LIndexLaw(s: Store, env: Env, key: Bytes, index: Bytes, a: int, list: seq<Bytes>, span: Span)
    requires Holds(s, key, FoundList(list), span) && Meets(env, span) && DenotesInt64(index, a)
    ensures var p := Position(|list|, a);
            Exec(Command("LINDEX", [key, index]), s, env).outcome
            == Reply(if 0 <= p < |list| then BulkString(list[p]) else Null)
  {
    IndexWorks(key, index);
    ParseMeaning(index, a);
    var cmd := Command("LINDEX", [key, index]);
    IndexRead(cmd.args, list);
    hide Exec, Works, Holds, Meets, DecideList, FoundList, ParseInt, DenotesInt64;
    ListKeyStep(cmd, LIndex, s, env, key, list, span);
  }

  /** On a list, a position that denotes no int64 is refused. */
  lemma LIndexRefused(s: Store, env: Env, key: Bytes, index: Bytes, list: seq<Bytes>, span: Span)
    requires Holds(s, key, FoundList(list), span) && Meets(env, span) && list != [] && forall n :: !DenotesInt64(index, n)
    ensures Exec(Command("LINDEX", [key, index]), s, env).outcome == Failed(NotAnInteger)
  {
    IndexWorks(key, index);
    NotParsed(index);
    var cmd := Command("LINDEX", [key, index]);
    IndexRead(cmd.args, list);
    hide Exec, Works, Holds, Meets, DecideList, FoundList, ParseInt, DenotesInt64;
    ListKeyStep(cmd, LIndex, s, env, key, list, span);
  }

  /** The arguments after the key. */
  lemma Rest(key: Bytes, items: seq<Bytes>)
    ensures ([key] + items)[0] == key && ([key] + items)[1..] == items
  {
  }

  // ---- sets --------------------------------------------------------------------------------------

  ghost function Elements(items: seq<Bytes>): set<Bytes> {
    set x | x in items
  }

  lemma ElementsAre(items: seq<Bytes>)
    ensures SetOf(items) == Elements(items)
  {
    forall x ensures x in SetOf(items) <==> x in items { SetOfMember(items, x); }
    hide SetOf;
  }

  lemma SetDecisions(args: seq<Bytes>, members: set<Bytes>)
    requires |args| >= 2
    ensures var more := members + SetOf(args[1..]);
            DecideSet(SAdd, args, FoundSet(members)) == Decision(Reply(Integer(|more| - |members|)), Put(Set(more), 0))
    ensures var less := members - SetOf(args[1..]);
            DecideSet(SRem, args, FoundSet(members))
            == if members == {} then Answer(Integer(0))
               else Decision(Reply(Integer(|members| - |less|)), PutOrDrop(Set(less), less == {}))
  {
    hide SetOf;
  }

  lemma SetWorks(cmd: Command, kind: Kind, key: Bytes)
    requires (cmd.name == "SADD" && kind == SAdd && |cmd.args| >= 2) || (cmd.name == "SREM" && kind == SRem && |cmd.args| >= 2)
             || (cmd.name == "SMEMBERS" && kind == SMembers && |cmd.args| == 1)
             || (cmd.name == "SISMEMBER" && kind == SIsMember && |cmd.args| == 2)
             || (cmd.name == "SCARD" && kind == SCard && |cmd.args| == 1)
    requires cmd.args[0] == key
    ensures Works(cmd, kind, key)
  {
    SetNames();
    hide KindOf;
  }

  /** SADD adds its items and answers how many were new, each counted once. */
  lemma SAddLaw(s: Store, env: Env, key: Bytes, items: seq<Bytes>, members: set<Bytes>, span: Span)
    requires items != [] && Holds(s, key, FoundSet(members), span) && Meets(env, span)
    ensures var r := Exec(Command("SADD", [key] + items), s, env);
            var after := members + Elements(items);
            r.outcome == Reply(Integer(|after| - |members|)) && Holds(r.store, key, Some(Set(after)), span)
  {
    hide Exec, Works, Holds, Meets, FoundSet;
    var cmd := Command("SADD", [key] + items);
    Rest(key, items);
    SetWorks(cmd, SAdd, key);
    SetChanges(cmd, SAdd, s, env, key, members, span);
  }

  lemma SetChanges(cmd: Command, kind: Kind, s: Store, env: Env, key: Bytes, members: set<Bytes>, span: Span)
    requires (kind == SAdd || kind == SRem) && Works(cmd, kind, key) && |cmd.args| >= 2
    requires Holds(s, key, FoundSet(members), span) && Meets(env, span)
    ensures var r := Exec(cmd, s, env);
            var after := if kind == SAdd then members + Elements(cmd.args[1..]) else members - Elements(cmd.args[1..]);
            && r.outcome == Reply(Integer(if kind == SAdd then |after| - |members| else |members| - |after|))
            && Holds(r.store, key, if kind == SAdd then Some(Set(after)) else FoundSet(after), span)
  {
    hide Exec, Works, Holds, Meets, DecideSet, SetOf;
    ElementsAre(cmd.args[1..]);
    SetDecisions(cmd.args, members);
    SetKeyStep(cmd, kind, s, env, key, members, span);
  }

  lemma SetKeyStep(cmd: Command, kind: Kind, s: Store, env: Env, key: Bytes, members: set<Bytes>, span: Span)
    requires Works(cmd, kind, key) && SetKind(kind) && Holds(s, key, FoundSet(members), span) && Meets(env, span)
    ensures SetArity(kind, cmd.args)
    ensures var d := DecideSet(kind, cmd.args, FoundSet(members));
            var r := Exec(cmd, s, env);
            r.outcome == d.outcome && Holds(r.store, key, Next(FoundSet(members), d.write), span)
  {
    hide KindOf, DecideSet, Exec, Plan, Decide, Holds, FoundSet;
    StoreTheorems.SetPlan(kind, cmd, FoundSet(members));
    KeyStep(cmd, kind, s, env, key, FoundSet(members), span);
  }

  /** SREM removes its items and answers how many were there; an emptied key is absent. */
  lemma SRemLaw(s: Store, env: Env, key: Bytes, items: seq<Bytes>, members: set<Bytes>, span: Span)
    requires items != [] && Holds(s, key, FoundSet(members), span) && Meets(env, span)
    ensures var r := Exec(Command("SREM", [key] + items), s, env);
            var after := members - Elements(items);
            r.outcome == Reply(Integer(|members| - |after|)) && Holds(r.store, key, FoundSet(after), span)
  {
    hide Exec, Works, Holds, Meets, FoundSet;
    var cmd := Command("SREM", [key] + items);
    Rest(key, items);
    SetWorks(cmd, SRem, key);
    SetChanges(cmd, SRem, s, env, key, members, span);
  }

  /** SCARD, SISMEMBER and SMEMBERS answer size, membership and the whole set, and leave it. */
  lemma SetReadLaw(s: Store, env: Env, key: Bytes, x: Bytes, members: set<Bytes>, span: Span)
    requires Holds(s, key, FoundSet(members), span) && Meets(env, span)
    ensures Exec(Command("SCARD", [key]), s, env).outcome == Reply(Integer(|members|))
    ensures Exec(Command("SISMEMBER", [key, x]), s, env).outcome == Reply(Integer(if x in members then 1 else 0))
    ensures Exec(Command("SMEMBERS", [key]), s, env).outcome == if members == {} then Reply(Array([])) else Members(members)
    ensures Holds(Exec(Command("SCARD", [key]), s, env).store, key, FoundSet(members), span)
    ensures Holds(Exec(Command("SISMEMBER", [key, x]), s, env).store, key, FoundSet(members), span)
    ensures Holds(Exec(Command("SMEMBERS", [key]), s, env).store, key, FoundSet(members), span)
  {
    var card, has, all := Command("SCARD", [key]), Command("SISMEMBER", [key, x]), Command("SMEMBERS", [key]);
    SetWorks(card, SCard, key);
    SetWorks(has, SIsMember, key);
    SetWorks(all, SMembers, key);
    SetReads(card.args, has.args, members);
    hide Exec, Works, Holds, Meets, DecideSet, FoundSet;
    SetKeyStep(card, SCard, s, env, key, members, span);
    SetKeyStep(has, SIsMember, s, env, key, members, span);
    SetKeyStep(all, SMembers, s, env, key, members, span);
  }

  lemma SetReads(one: seq<Bytes>, two: seq<Bytes>, members: set<Bytes>)
    requires |one| == 1 && |two| == 2
    ensures DecideSet(SCard, one, FoundSet(members)) == Answer(Integer(|members|))
    ensures DecideSet(SIsMember, two, FoundSet(members)) == Answer(Integer(if two[1] in members then 1 else 0))
    ensures DecideSet(SMembers, one, FoundSet(members))
            == Decision(if members == {} then Reply(Array([])) else Members(members), Keep)
  {
  }

  // ---- hashes ------------------------------------------------------------------------------------

  lemma HashKeyStep(cmd: Command, kind: Kind, s: Store, env: Env, key: Bytes, fields: map<Bytes, Bytes>, span: Span)
    requires Works(cmd, kind, key) && HashKind(kind) && Holds(s, key, FoundHash(fields), span) && Meets(env, span)
    ensures HashArity(kind, cmd.args)
    ensures var d := DecideHash(kind, cmd.args, FoundHash(fields));
            var r := Exec(cmd, s, env);
            r.outcome == d.outcome && Holds(r.store, key, Next(FoundHash(fields), d.write), span)
  {
    hide KindOf, DecideHash, Exec, Plan, Decide, Holds, FoundHash;
    StoreTheorems.HashPlan(kind, cmd, FoundHash(fields));
    KeyStep(cmd, kind, s, env, key, FoundHash(fields), span);
  }

  lemma HashWorks(cmd: Command, kind: Kind, key: Bytes)
    requires (cmd.name == "HSET" && kind == HSet && |cmd.args| >= 3 && |cmd.args| % 2 == 1)
             || (cmd.name == "HDEL" && kind == HDel && |cmd.args| >= 2)
             || (cmd.name == "HGET" && kind == HGet && |cmd.args| == 2)
             || (cmd.name == "HGETALL" && kind == HGetAll && |cmd.args| == 1)
             || (cmd.name == "HEXISTS" && kind == HExists && |cmd.args| == 2)
             || (cmd.name == "HLEN" && kind == HLen && |cmd.args| == 1)
    requires cmd.args[0] == key
    ensures Works(cmd, kind, key)
  {
    HashWriteNames();
    HashReadNames();
    HashSizeNames();
    hide KindOf;
  }

  lemma HashPuts(cmd: Command, s: Store, env: Env, key: Bytes, pairs: seq<Bytes>, fields: map<Bytes, Bytes>, span: Span)
    requires |pairs| % 2 == 0 && pairs != [] && Works(cmd, HSet, key) && cmd.args == [key] + pairs
    requires Holds(s, key, FoundHash(fields), span) && Meets(env, span)
    ensures var r := Exec(cmd, s, env);
            var after := PutFields(fields, pairs);
            r.outcome == Reply(Integer(|after.Keys| - |fields.Keys|)) && Holds(r.store, key, Some(Hash(after)), span)
  {
    hide Exec, Works, Holds, Meets, DecideHash, PutFields, FoundHash;
    Rest(key, pairs);
    PutDecision(cmd.args, fields);
    HashKeyStep(cmd, HSet, s, env, key, fields, span);
  }

  /** HSET gives each field it names the last value it names for it, leaves the others, and answers
      how many fields are new. */
  lemma HSetLaw(s: Store, env: Env, key: Bytes, pairs: seq<Bytes>, fields: map<Bytes, Bytes>, span: Span)
    returns (after: map<Bytes, Bytes>)
    requires pairs != [] && |pairs| % 2 == 0 && Holds(s, key, FoundHash(fields), span) && Meets(env, span)
    ensures forall f :: Field(after, f) == if LastPair(pairs, f).Some? then LastPair(pairs, f) else Field(fields, f)
    ensures var r := Exec(Command("HSET", [key] + pairs), s, env);
            r.outcome == Reply(Integer(|after.Keys| - |fields.Keys|)) && Holds(r.store, key, Some(Hash(after)), span)
  {
    hide Exec, Works, Holds, Meets, PutFields, FoundHash, Field, LastPair;
    var cmd := Command("HSET", [key] + pairs);
    Rest(key, pairs);
    HashWorks(cmd, HSet, key);
    HashPuts(cmd, s, env, key, pairs, fields, span);
    after := PutFields(fields, pairs);
    forall f ensures Field(after, f) == if LastPair(pairs, f).Some? then LastPair(pairs, f) else Field(fields, f) {
      PutFieldsLast(fields, pairs, f);
    }
  }

  ghost function Kept(fields: map<Bytes, Bytes>, items: seq<Bytes>): map<Bytes, Bytes> {
    map f | f in fields && f !in items :: fields[f]
  }

  lemma KeptIs(fields: map<Bytes, Bytes>, items: seq<Bytes>)
    ensures WithoutFields(fields, items) == Kept(fields, items)
  {
    forall x ensures x in SetOf(items) <==> x in items { SetOfMember(items, x); }
    hide SetOf;
  }

  lemma DeleteDecision(args: seq<Bytes>, fields: map<Bytes, Bytes>)
    requires |args| >= 2
    ensures var less := WithoutFields(fields, args[1..]);
            DecideHash(HDel, args, FoundHash(fields))
            == if fields.Keys == {} then Answer(Integer(0))
               else Decision(Reply(Integer(|fields.Keys| - |less.Keys|)), PutOrDrop(Hash(less), less.Keys == {}))
  {
    FoundHashFields(fields);
    hide WithoutFields;
  }

  /** HDEL removes the fields it names and answers how many were there; an emptied key is absent. */
  lemma HDelLaw(s: Store, env: Env, key: Bytes, items: seq<Bytes>, fields: map<Bytes, Bytes>, span: Span)
    requires items != [] && Holds(s, key, FoundHash(fields), span) && Meets(env, span)
    ensures var r := Exec(Command("HDEL", [key] + items), s, env);
            var after := Kept(fields, items);
            r.outcome == Reply(Integer(|fields.Keys| - |after.Keys|)) && Holds(r.store, key, FoundHash(after), span)
  {
    hide Exec, Works, Holds, Meets, FoundHash, Kept;
    var cmd := Command("HDEL", [key] + items);
    Rest(key, items);
    HashWorks(cmd, HDel, key);
    HashDrops(cmd, s, env, key, fields, span);
  }

  lemma HashDrops(cmd: Command, s: Store, env: Env, key: Bytes, fields: map<Bytes, Bytes>, span: Span)
    requires Works(cmd, HDel, key) && |cmd.args| >= 2 && Holds(s, key, FoundHash(fields), span) && Meets(env, span)
    ensures var r := Exec(cmd, s, env);
            var after := Kept(fields, cmd.args[1..]);
            r.outcome == Reply(Integer(|fields.Keys| - |after.Keys|)) && Holds(r.store, key, FoundHash(after), span)
  {
    hide Exec, Works, Holds, Meets, DecideHash, WithoutFields, Kept;
    KeptIs(fields, cmd.args[1..]);
    DeleteDecision(cmd.args, fields);
    KeptOfNothing(fields, cmd.args[1..]);
    HashKeyStep(cmd, HDel, s, env, key, fields, span);
  }

  lemma KeptOfNothing(fields: map<Bytes, Bytes>, items: seq<Bytes>)
    ensures fields.Keys == {} ==> Kept(fields, items).Keys == {}
  {
  }

  /** HGET, HEXISTS, HLEN and HGETALL answer the value, the presence, the size and all fields. */
  lemma HashReadLaw(s: Store, env: Env, key: Bytes, f: Bytes, fields: map<Bytes, Bytes>, span: Span)
    requires Holds(s, key, FoundHash(fields), span) && Meets(env, span)
    ensures Exec(Command("HGET", [key, f]), s, env).outcome == Reply(if f in fields then BulkString(fields[f]) else Null)
    ensures Exec(Command("HEXISTS", [key, f]), s, env).outcome == Reply(Integer(if f in fields then 1 else 0))
    ensures Exec(Command("HLEN", [key]), s, env).outcome == Reply(Integer(|fields.Keys|))
    ensures Exec(Command("HGETALL", [key]), s, env).outcome
            == if fields.Keys == {} then Reply(Array([])) else Fields(fields)
  {
    var get, has := Command("HGET", [key, f]), Command("HEXISTS", [key, f]);
    var size, all := Command("HLEN", [key]), Command("HGETALL", [key]);
    HashWorks(get, HGet, key);
    HashWorks(has, HExists, key);
    HashWorks(size, HLen, key);
    HashWorks(all, HGetAll, key);
    HashReads(size.args, get.args, fields);
    hide Exec, Works, Holds, Meets, DecideHash, FoundHash;
    HashKeyStep(get, HGet, s, env, key, fields, span);
    HashKeyStep(has, HExists, s, env, key, fields, span);
    HashKeyStep(size, HLen, s, env, key, fields, span);
    HashKeyStep(all, HGetAll, s, env, key, fields, span);
  }

  lemma HashReads(one: seq<Bytes>, two: seq<Bytes>, fields: map<Bytes, Bytes>)
    requires |one| == 1 && |two| == 2
    ensures DecideHash(HGet, two, FoundHash(fields)) == Answer(if two[1] in fields then BulkString(fields[two[1]]) else Null)
    ensures DecideHash(HExists, two, FoundHash(fields)) == Answer(Integer(if two[1] in fields then 1 else 0))
    ensures DecideHash(HLen, one, FoundHash(fields)) == Answer(Integer(|fields.Keys|))
    ensures DecideHash(HGetAll, one, FoundHash(fields))
            == Decision(if fields.Keys == {} then Reply(Array([])) else Fields(fields), Keep)
  {
    FoundHashFields(fields);
  }

  // ---- PING and HEALTH ---------------------------------------------------------------------------

  lemma PingLaw(s: Store, env: Env, text: Bytes)
    ensures Exec(Command("PING", []), s, env) == Executed(Reply(SimpleString("PONG")), s)
    ensures Exec(Command("PING", [text]), s, env) == Executed(Reply(BulkString(text)), s)
    ensures Exec(Command("HEALTH", []), s, env) == Executed(Reply(SimpleString("OK")), s)
  {
    GenericNames();
    hide KindOf;
  }
}
