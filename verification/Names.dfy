/** The names that clients send: which command each one is, and in which letters it may be written.
    The laws of the commands start from these names. */
module Names {
  import opened Bytes
  import opened Resp
  import opened Store
  import opened Commands

  // ---- which command a name is ------------------------------------------------------------------

  lemma GenericNames()
    ensures KindOf("PING") == Some(Ping)
    ensures KindOf("DEL") == Some(Del)
    ensures KindOf("EXISTS") == Some(Exists)
    ensures KindOf("EXPIRE") == Some(Expire)
    ensures KindOf("TTL") == Some(Ttl)
    ensures KindOf("PERSIST") == Some(Persist)
    ensures KindOf("HEALTH") == Some(Health)
  {
  }

  lemma StringNames()
    ensures KindOf("SET") == Some(SetKey)
    ensures KindOf("GET") == Some(Get)
    ensures KindOf("INCR") == Some(Incr)
    ensures KindOf("DECR") == Some(Decr)
    ensures KindOf("INCRBY") == Some(IncrBy)
    ensures KindOf("DECRBY") == Some(DecrBy)
  {
  }

  lemma PushPopNames()
    ensures KindOf("LPUSH") == Some(LPush)
    ensures KindOf("RPUSH") == Some(RPush)
    ensures KindOf("LPOP") == Some(LPop)
    ensures KindOf("RPOP") == Some(RPop)
  {
  }

  lemma ListReadNames()
    ensures KindOf("LLEN") == Some(LLen)
    ensures KindOf("LRANGE") == Some(LRange)
    ensures KindOf("LINDEX") == Some(LIndex)
  {
  }

  lemma SetNames()
    ensures KindOf("SADD") == Some(SAdd)
    ensures KindOf("SREM") == Some(SRem)
    ensures KindOf("SMEMBERS") == Some(SMembers)
    ensures KindOf("SISMEMBER") == Some(SIsMember)
    ensures KindOf("SCARD") == Some(SCard)
  {
  }

  lemma HashWriteNames()
    ensures KindOf("HSET") == Some(HSet)
    ensures KindOf("HDEL") == Some(HDel)
  {
  }

  lemma HashReadNames()
    ensures KindOf("HGET") == Some(HGet)
    ensures KindOf("HGETALL") == Some(HGetAll)
  {
  }

  lemma HashSizeNames()
    ensures KindOf("HEXISTS") == Some(HExists)
    ensures KindOf("HLEN") == Some(HLen)
  {
  }

  /** The commands that are registered, and nothing else is. */
  predicate Registered(name: Bytes) {
    || Generic(name) || Strings(name) || Lists(name) || Sets(name) || Hashes(name)
    || name == "INFO" || name == "READY" || name == "METRICS" || name == "PUBLISH"
  }

  predicate Generic(name: Bytes) {
    || name == "PING" || name == "DEL" || name == "EXISTS" || name == "EXPIRE" || name == "TTL"
    || name == "PERSIST" || name == "HEALTH"
  }

  predicate Strings(name: Bytes) {
    || name == "SET" || name == "GET" || name == "INCR" || name == "DECR" || name == "INCRBY" || name == "DECRBY"
  }

  predicate Lists(name: Bytes) {
    || name == "LPUSH" || name == "RPUSH" || name == "LPOP" || name == "RPOP" || name == "LLEN"
    || name == "LRANGE" || name == "LINDEX"
  }

  predicate Sets(name: Bytes) {
    name == "SADD" || name == "SREM" || name == "SMEMBERS" || name == "SISMEMBER" || name == "SCARD"
  }

  predicate Hashes(name: Bytes) {
    || name == "HSET" || name == "HGET" || name == "HDEL" || name == "HGETALL" || name == "HEXISTS" || name == "HLEN"
  }

  lemma FamilyNames(name: Bytes)
    ensures GenericKindOf(name).Some? <==> Generic(name)
    ensures StringKindOf(name).Some? <==> Strings(name)
    ensures ListKindOf(name).Some? <==> Lists(name)
    ensures SetKindOf(name).Some? <==> Sets(name)
    ensures HashKindOf(name).Some? <==> Hashes(name)
  {
  }

  /** Any other name is answered with an error that repeats it, and changes nothing. */
  lemma UnknownRefused(cmd: Command, s: Store, env: Env)
    ensures Exec(cmd, s, env) == Executed(Failed(UnknownCommand(cmd.name)), s) || Registered(cmd.name)
    ensures Registered(cmd.name) <==> KindOf(cmd.name).Some?
  {
    FamilyNames(cmd.name);
    hide GenericKindOf, StringKindOf, ListKindOf, SetKindOf, HashKindOf, Generic, Strings, Lists, Sets, Hashes;
  }

  // ---- letters ----------------------------------------------------------------------------------

  const LOWER: Bytes := "abcdefghijklmnopqrstuvwxyz"
  const CAPITAL: Bytes := "ABCDEFGHIJKLMNOPQRSTUVWXYZ"

  /** The text spells the word, each small letter standing for its capital. */
  ghost predicate Spelling(text: Bytes, word: Bytes) {
    && |text| == |word|
    && forall i :: 0 <= i < |text| ==> Letter(text[i], word[i])
  }

  ghost predicate Letter(c: char, capital: char) {
    || (exists k :: 0 <= k < 26 && c == LOWER[k] && capital == CAPITAL[k])
    || (c == capital && c !in LOWER)
  }

  lemma LetterAt(k: nat)
    requires k < 26
    ensures LOWER[k] as int == 'a' as int + k && CAPITAL[k] as int == 'A' as int + k
  {
  }

  lemma LowerAre(c: char)
    ensures c in LOWER <==> 'a' <= c <= 'z'
  {
    if 'a' <= c <= 'z' {
      var k := c as int - 'a' as int;
      LetterAt(k);
      assert LOWER[k] == c;
    } else {
      forall j | 0 <= j < 26 ensures LOWER[j] != c { LetterAt(j); }
      assert |LOWER| == 26;
    }
  }

  lemma SmallIsUpper(c: char, capital: char)
    requires 'a' <= c <= 'z'
    ensures (exists k :: 0 <= k < 26 && c == LOWER[k] && capital == CAPITAL[k]) <==> UpperChar(c) == capital
  {
    forall k | 0 <= k < 26
      ensures c == LOWER[k] <==> k == c as int - 'a' as int
      ensures CAPITAL[k] as int == 'A' as int + k
    {
      LetterAt(k);
    }
    var k := c as int - 'a' as int;
    assert c == LOWER[k];
  }

  lemma LetterIsUpper(c: char, capital: char)
    ensures Letter(c, capital) <==> UpperChar(c) == capital
  {
    LowerAre(c);
    if 'a' <= c <= 'z' {
      SmallIsUpper(c, capital);
    } else {
      forall k | 0 <= k < 26 ensures c != LOWER[k] { assert LOWER[k] in LOWER; }
    }
  }

  lemma UpperIsSpelling(text: Bytes, word: Bytes)
    ensures Upper(text) == word <==> Spelling(text, word)
  {
    forall c, capital ensures Letter(c, capital) <==> UpperChar(c) == capital {
      LetterIsUpper(c, capital);
    }
    hide Letter, UpperChar;
  }

  /** A request is a non-empty array of bulk strings; its first one is the name, in any letters, and
      the others are the arguments, as they are. Nothing else is a request. */
  lemma RequestMeaning(v: RespValue, cmd: Command)
    ensures ParseCommand(v) == Some(cmd)
            <==> v.Array? && exists text :: Spelling(text, cmd.name) && v.elements == [BulkString(text)] + Bulks(cmd.args)
  {
    if ParseCommand(v) == Some(cmd) {
      var text := v.elements[0].data;
      UpperIsSpelling(text, cmd.name);
      assert v.elements == [BulkString(text)] + Bulks(cmd.args);
    } else if v.Array? && exists text :: Spelling(text, cmd.name) && v.elements == [BulkString(text)] + Bulks(cmd.args) {
      var text :| Spelling(text, cmd.name) && v.elements == [BulkString(text)] + Bulks(cmd.args);
      UpperIsSpelling(text, cmd.name);
      RequestParses(v, text, cmd);
    }
  }

  lemma RequestParses(v: RespValue, text: Bytes, cmd: Command)
    requires v.Array? && v.elements == [BulkString(text)] + Bulks(cmd.args) && Upper(text) == cmd.name
    ensures ParseCommand(v) == Some(cmd)
  {
    var rest := v.elements[1..];
    assert rest == Bulks(cmd.args);
    assert AllBulk(v.elements);
    assert Datas(rest) == cmd.args;
  }
}
