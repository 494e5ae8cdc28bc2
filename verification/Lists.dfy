/** What LRANGE and LINDEX name. */
module Lists {
  import opened Bytes
  import opened Resp
  import opened Store
  import opened Commands
  import opened Families

  /** A negative index counts from the end. */
  function Position(n: nat, index: int): int {
    if index < 0 then index + n else index
  }

  /** The elements whose position, counted from `i`, lies between two positions. */
  function Within(list: seq<Bytes>, i: int, first: int, last: int): seq<Bytes>
    decreases |list|
  {
    if list == [] then []
    else (if first <= i <= last then [list[0]] else []) + Within(list[1..], i + 1, first, last)
  }

  lemma {:induction false} WithinNone(list: seq<Bytes>, i: int, first: int, last: int)
    requires list == [] || first > last || last < i || first >= i + |list|
    ensures Within(list, i, first, last) == []
    decreases |list|
  {
    if list != [] {
      WithinNone(list[1..], i + 1, first, last);
    }
  }

  lemma {:induction false} WithinSome(list: seq<Bytes>, i: int, first: int, last: int, a: nat, b: nat)
    requires a < b <= |list|
    requires i + a == if first < i then i else first
    requires i + b == if last + 1 < i + |list| then last + 1 else i + |list|
    ensures Within(list, i, first, last) == list[a..b]
    decreases |list|
  {
    var tail := list[1..];
    if a > 0 {
      assert list[a..b] == tail[a - 1..b - 1] by { hide Within; }
      WithinSome(tail, i + 1, first, last, a - 1, b - 1);
    } else if b > 1 {
      assert list[0..b] == [list[0]] + tail[0..b - 1] by { hide Within; }
      WithinSome(tail, i + 1, first, last, 0, b - 1);
    } else {
      WithinNone(tail, i + 1, first, last);
      assert list[0..1] == [list[0]];
    }
  }

  /** LRANGE is the inclusive slice, for all indices, in or out of bounds. */
  lemma RangeMeaning(list: seq<Bytes>, start: int, stop: int)
    ensures RangeOf(list, start, stop) == Within(list, 0, Position(|list|, start), Position(|list|, stop))
  {
    hide Within;
    var r := Clamp(|list|, start, stop);
    var first, last := Position(|list|, start), Position(|list|, stop);
    if r.0 < r.1 {
      WithinSome(list, 0, first, last, r.0, r.1);
    } else {
      WithinNone(list, 0, first, last);
    }
  }

  lemma {:induction false} WithinJoins(list: seq<Bytes>, i: int, a: int, b: int, c: int)
    requires a <= b <= c
    ensures Within(list, i, a, b) + Within(list, i, b + 1, c) == Within(list, i, a, c) || i > b
    ensures i > b ==> Within(list, i, a, b) == [] && Within(list, i, b + 1, c) == Within(list, i, a, c)
    decreases |list|
  {
    if list != [] {
      WithinJoins(list[1..], i + 1, a, b, c);
    }
  }

  /** `LRANGE k i i` is the one element of `LINDEX k i`, or empty exactly when that is null. */
  lemma RangeIsIndex(list: seq<Bytes>, i: int)
    ensures RangeOf(list, i, i) == match IndexOf(list, i) case None => [] case Some(item) => [item]
  {
    var p := Position(|list|, i);
    if 0 <= p < |list| {
      assert list[p..p + 1] == [list[p]];
    }
  }

  /** Adjacent ranges join. */
  lemma RangesJoin(list: seq<Bytes>, a: int, b: int, c: int)
    requires 0 <= a <= b <= c
    ensures RangeOf(list, a, b) + RangeOf(list, b + 1, c) == RangeOf(list, a, c)
  {
    hide RangeOf, Within;
    RangeMeaning(list, a, b);
    RangeMeaning(list, b + 1, c);
    RangeMeaning(list, a, c);
    WithinJoins(list, 0, a, b, c);
  }

  lemma RangeDecision(args: seq<Bytes>, list: seq<Bytes>, a: int, b: int)
    requires |args| == 3 && ParseInt(args[1]) == Some(a) && ParseInt(args[2]) == Some(b)
    ensures DecideList(LRange, args, FoundList(list)).outcome == Reply(Array(Bulks(RangeOf(list, a, b))))
  {
    hide ParseInt;
  }

  /** LRANGE answers with the elements between the two positions, in order, and with no other. */
  lemma RangeReported(cmd: Command, s: Store, env: Env, key: Bytes, a: int, b: int, span: Span)
    requires HoldsList(s, key, span) && Works(cmd, LRange, key) && Meets(env, span)
    requires |cmd.args| == 3 && ParseInt(cmd.args[1]) == Some(a) && ParseInt(cmd.args[2]) == Some(b)
    ensures var list := ListOf(At(s, key, span));
            Exec(cmd, s, env).outcome
            == Reply(Array(Bulks(Within(list, 0, Position(|list|, a), Position(|list|, b)))))
  {
    var list := ListOf(At(s, key, span));
    RangeMeaning(list, a, b);
    RangeDecision(cmd.args, list, a, b);
    hide Exec, KindOf, Plan, Decide, DecideList, RangeOf, Within, Works, ParseInt, ListOf, At;
    ListKeyStep(cmd, LRange, s, env, key, list, span);
  }

  lemma IndexDecision(args: seq<Bytes>, list: seq<Bytes>, a: int)
    requires |args| == 2 && ParseInt(args[1]) == Some(a)
    ensures DecideList(LIndex, args, FoundList(list)).outcome
            == Reply(match IndexOf(list, a) case None => Null case Some(item) => BulkString(item))
  {
    hide ParseInt;
  }

  /** LINDEX answers with the element at the position, or null when there is none. */
  lemma IndexReported(cmd: Command, s: Store, env: Env, key: Bytes, a: int, span: Span)
    requires HoldsList(s, key, span) && Works(cmd, LIndex, key) && Meets(env, span)
    requires |cmd.args| == 2 && ParseInt(cmd.args[1]) == Some(a)
    ensures var list := ListOf(At(s, key, span));
            var p := Position(|list|, a);
            Exec(cmd, s, env).outcome == Reply(if 0 <= p < |list| then BulkString(list[p]) else Null)
  {
    var list := ListOf(At(s, key, span));
    IndexDecision(cmd.args, list, a);
    hide Exec, KindOf, Plan, Decide, DecideList, Works, ParseInt, ListOf, At;
    ListKeyStep(cmd, LIndex, s, env, key, list, span);
  }
}
