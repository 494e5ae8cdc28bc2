/** The publish/subscribe broker, and its agreement with what the connections believe. */
module PubSub {
  import opened Bytes

  type Id = nat

  /** The callback a connection registers: push a message for the channel to the connection. */
  datatype Callback = Push(conn: Id, channel: Bytes)

  datatype Subscriber = Subscriber(id: Id, write: Callback)

  type Channels = map<Bytes, seq<Subscriber>>

  function SubsOf(channels: Channels, channel: Bytes): seq<Subscriber> {
    if channel in channels then channels[channel] else []
  }

  predicate Listed(subs: seq<Subscriber>, id: Id) {
    exists i :: 0 <= i < |subs| && subs[i].id == id
  }

  /** The subscriber keeps its place if it has one, and goes last otherwise. */
  function Enrolled(subs: seq<Subscriber>, id: Id, write: Callback): seq<Subscriber> {
    if subs == [] then [Subscriber(id, write)]
    else if subs[0].id == id then [Subscriber(id, write)] + subs[1..]
    else [subs[0]] + Enrolled(subs[1..], id, write)
  }

  function Without(subs: seq<Subscriber>, id: Id): (r: seq<Subscriber>)
    ensures |r| <= |subs|
  {
    if subs == [] then []
    else if subs[0].id == id then Without(subs[1..], id)
    else [subs[0]] + Without(subs[1..], id)
  }

  function Subscribed(channels: Channels, channel: Bytes, id: Id, write: Callback): Channels {
    channels[channel := Enrolled(SubsOf(channels, channel), id, write)]
  }

  /** A channel that loses its last subscriber is erased. */
  function Unsubscribed(channels: Channels, channel: Bytes, id: Id): Channels {
    if channel !in channels then channels
    else if Without(channels[channel], id) == [] then channels - {channel}
    else channels[channel := Without(channels[channel], id)]
  }

  function UnsubscribedAll(channels: Channels, id: Id): Channels {
    map c | c in channels && Without(channels[c], id) != [] :: Without(channels[c], id)
  }

  /** The channels that an `unsubscribe_all` leaves. */
  function Left(channels: Channels, id: Id): set<Bytes> {
    set c | c in channels && |Without(channels[c], id)| != |channels[c]|
  }

  /** A sequence that names each element of the set once, and nothing else. */
  ghost predicate Listing(items: seq<Bytes>, s: set<Bytes>) {
    Distinct(items) && forall x :: x in items <==> x in s
  }

  /** The order in which a hash table with these keys iterates. */
  ghost predicate ListsAll(order: set<Bytes> -> seq<Bytes>) {
    forall s :: Listing(order(s), s)
  }

  /** The items that lie in the set, in their order. */
  function Among(items: seq<Bytes>, s: set<Bytes>): (r: seq<Bytes>)
    ensures forall x :: x in r <==> x in items && x in s
  {
    if items == [] then []
    else
      var last := |items| - 1;
      assert items == items[..last] + [items[last]];
      Among(items[..last], s) + (if items[last] in s then [items[last]] else [])
  }

  lemma {:induction false} AmongDistinct(items: seq<Bytes>, s: set<Bytes>)
    requires Distinct(items)
    ensures Distinct(Among(items, s))
    decreases |items|
  {
    if items != [] {
      var last := |items| - 1;
      AmongDistinct(items[..last], s);
      assert items[last] !in items[..last];
    }
  }

  function Callbacks(subs: seq<Subscriber>): (r: seq<Callback>)
    ensures |r| == |subs| && forall i :: 0 <= i < |subs| ==> r[i] == subs[i].write
  {
    if subs == [] then [] else [subs[0].write] + Callbacks(subs[1..])
  }

  ghost predicate Distinct<T>(s: seq<T>) {
    forall i, j :: 0 <= i < j < |s| ==> s[i] != s[j]
  }

  lemma {:induction false} WithoutConcat(a: seq<Subscriber>, b: seq<Subscriber>, id: Id)
    ensures Without(a + b, id) == Without(a, id) + Without(b, id)
    decreases |a|
  {
    if a == [] {
      assert a + b == b;
    } else {
      WithoutConcat(a[1..], b, id);
      assert (a + b)[1..] == a[1..] + b;
    }
  }

  /** The table when the channels outside `unvisited` have been visited. */
  ghost function Partly(channels: Channels, id: Id, unvisited: set<Bytes>): Channels {
    map c | c in channels && (c in unvisited || Without(channels[c], id) != [])
      :: if c in unvisited then channels[c] else Without(channels[c], id)
  }

  lemma PartlyNone(channels: Channels, id: Id)
    ensures Partly(channels, id, channels.Keys) == channels
  {
  }

  lemma PartlyAll(channels: Channels, id: Id)
    ensures Partly(channels, id, {}) == UnsubscribedAll(channels, id)
  {
  }

  lemma PartlyStep(channels: Channels, id: Id, unvisited: set<Bytes>, c: Bytes)
    requires c in unvisited && unvisited <= channels.Keys
    ensures var now := Partly(channels, id, unvisited);
            && c in now && now[c] == channels[c]
            && Unsubscribed(now, c, id) == Partly(channels, id, unvisited - {c})
            && (c in Left(now, id) <==> c in Left(channels, id))
  {
    hide Without;
  }

  /** The items from position `i` on. */
  ghost function Ahead(items: seq<Bytes>, i: nat): set<Bytes>
    requires i <= |items|
  {
    set x | x in items[i..]
  }

  lemma AheadStep(items: seq<Bytes>, i: nat)
    requires i < |items| && Distinct(items)
    ensures items[i] in Ahead(items, i) && Ahead(items, i) - {items[i]} == Ahead(items, i + 1)
  {
    assert items[i..] == [items[i]] + items[i + 1..];
    assert items[i] !in items[i + 1..];
  }

  lemma AmongStep(items: seq<Bytes>, i: nat, s: set<Bytes>)
    requires i < |items|
    ensures Among(items[..i + 1], s) == Among(items[..i], s) + (if items[i] in s then [items[i]] else [])
  {
    assert items[..i + 1][..i] == items[..i];
  }

  lemma LeftAreKeys(channels: Channels, id: Id)
    ensures Left(channels, id) <= channels.Keys
  {
  }

  class PubSubBroker {
    var channels: Channels

    constructor ()
      ensures channels == map[]
    {
      channels := map[];
    }

    method Subscribe(channel: Bytes, id: Id, write: Callback) returns (count: nat)
      modifies this
      ensures channels == Subscribed(old(channels), channel, id, write)
      ensures count == |channels[channel]|
    {
      var subs := Enroll(SubsOf(channels, channel), id, write);
      channels := channels[channel := subs];
      count := |subs|;
    }

    method Unsubscribe(channel: Bytes, id: Id) returns (count: nat)
      modifies this
      ensures channels == Unsubscribed(old(channels), channel, id)
      ensures count == |SubsOf(channels, channel)|
    {
      if channel !in channels {
        return 0;
      }
      var subs := RemoveIf(channels[channel], id);
      count := |subs|;
      if subs == [] {
        channels := channels - {channel};
      } else {
        channels := channels[channel := subs];
      }
    }

    /** Visits every channel, erasing those it empties on the way; `listing` is the order in which
        the table is walked. */
    method UnsubscribeAll(id: Id, listing: seq<Bytes>) returns (removed: seq<Bytes>)
      requires Listing(listing, channels.Keys)
      modifies this
      ensures channels == UnsubscribedAll(old(channels), id)
      ensures removed == Among(listing, Left(old(channels), id)) && Listing(removed, Left(old(channels), id))
    {
      removed := [];
      ghost var before := channels;
      assert Ahead(listing, 0) == before.Keys;
      PartlyNone(before, id);
      AmongDistinct(listing, Left(before, id));
      assert Among(listing[..0], Left(before, id)) == [];
      hide Without, Unsubscribed, Partly, Left, Among;
      for i := 0 to |listing|
        invariant channels == Partly(before, id, Ahead(listing, i))
        invariant removed == Among(listing[..i], Left(before, id))
      {
        AheadStep(listing, i);
        PartlyStep(before, id, Ahead(listing, i), listing[i]);
        AmongStep(listing, i, Left(before, id));
        var leaves := Visit(listing[i], id);
        if leaves {
          removed := removed + [listing[i]];
        }
      }
      PartlyAll(before, id);
      assert Ahead(listing, |listing|) == {} && listing[..|listing|] == listing;
      LeftAreKeys(before, id);
    }

    method Visit(c: Bytes, id: Id) returns (left: bool)
      requires c in channels
      modifies this
      ensures channels == Unsubscribed(old(channels), c, id)
      ensures left <==> c in Left(old(channels), id)
    {
      var subs := RemoveIf(channels[c], id);
      left := |subs| != |channels[c]|;
      if subs == [] {
        channels := channels - {c};
      } else {
        channels := channels[c := subs];
      }
    }

    /** Takes a snapshot of the callbacks and invokes them in list order. */
    method Publish(channel: Bytes) returns (invoked: seq<Callback>)
      ensures invoked == Callbacks(SubsOf(channels, channel))
    {
      invoked := [];
      if channel !in channels {
        return;
      }
      var subs := channels[channel];
      for i := 0 to |subs|
        invariant invoked == Callbacks(subs[..i])
      {
        assert subs[..i + 1] == subs[..i] + [subs[i]];
        invoked := invoked + [subs[i].write];
      }
      assert subs[..|subs|] == subs;
    }
  }

  /** The loop of `subscribe`: replace the callback in place, or append. */
  method Enroll(subs: seq<Subscriber>, id: Id, write: Callback) returns (r: seq<Subscriber>)
    ensures r == Enrolled(subs, id, write)
  {
    var i := 0;
    while i < |subs|
      invariant 0 <= i <= |subs|
      invariant forall j :: 0 <= j < i ==> subs[j].id != id
    {
      if subs[i].id == id {
        EnrolledPresent(subs, id, write, i);
        return subs[i := Subscriber(id, write)];
      }
      i := i + 1;
    }
    EnrolledAbsent(subs, id, write);
    return subs + [Subscriber(id, write)];
  }

  lemma {:induction false} EnrolledPresent(subs: seq<Subscriber>, id: Id, write: Callback, i: nat)
    requires i < |subs| && subs[i].id == id && forall j :: 0 <= j < i ==> subs[j].id != id
    ensures Enrolled(subs, id, write) == subs[i := Subscriber(id, write)]
    decreases |subs|
  {
    if i > 0 {
      assert subs[0].id != id;
      EnrolledPresent(subs[1..], id, write, i - 1);
    }
  }

  lemma {:induction false} EnrolledAbsent(subs: seq<Subscriber>, id: Id, write: Callback)
    requires forall j :: 0 <= j < |subs| ==> subs[j].id != id
    ensures Enrolled(subs, id, write) == subs + [Subscriber(id, write)]
    decreases |subs|
  {
    if subs != [] {
      assert subs[0].id != id;
      EnrolledAbsent(subs[1..], id, write);
    }
  }

  /** `std::remove_if` and `erase`. */
  method RemoveIf(subs: seq<Subscriber>, id: Id) returns (kept: seq<Subscriber>)
    ensures kept == Without(subs, id)
  {
    kept := [];
    for i := 0 to |subs|
      invariant kept == Without(subs[..i], id)
    {
      assert subs[..i + 1] == subs[..i] + [subs[i]];
      WithoutConcat(subs[..i], [subs[i]], id);
      if subs[i].id != id {
        kept := kept + [subs[i]];
      }
    }
    assert subs[..|subs|] == subs;
  }

  // ---- the broker and many connections -----------------------------------------------------------

  /** The broker's table and, for each connection, the channels it believes it is on. */
  datatype Hub = Hub(channels: Channels, believed: map<Id, set<Bytes>>)

  datatype Action =
    | Join(id: Id, wanted: seq<Bytes>)       // SUBSCRIBE
    | Leave(id: Id, unwanted: seq<Bytes>)    // UNSUBSCRIBE with channels
    | LeaveAll(id: Id)                       // UNSUBSCRIBE without

  function Believes(h: Hub, id: Id): set<Bytes> {
    if id in h.believed then h.believed[id] else {}
  }

  function JoinOne(h: Hub, id: Id, channel: Bytes): Hub {
    Hub(Subscribed(h.channels, channel, id, Push(id, channel)), h.believed[id := Believes(h, id) + {channel}])
  }

  function LeaveOne(h: Hub, id: Id, channel: Bytes): Hub {
    Hub(Unsubscribed(h.channels, channel, id), h.believed[id := Believes(h, id) - {channel}])
  }

  function JoinEach(h: Hub, id: Id, wanted: seq<Bytes>): Hub
    decreases |wanted|
  {
    if wanted == [] then h else JoinEach(JoinOne(h, id, wanted[0]), id, wanted[1..])
  }

  function LeaveEach(h: Hub, id: Id, unwanted: seq<Bytes>): Hub
    decreases |unwanted|
  {
    if unwanted == [] then h else LeaveEach(LeaveOne(h, id, unwanted[0]), id, unwanted[1..])
  }

  function Act(h: Hub, action: Action): Hub {
    match action
    case Join(id, wanted) => JoinEach(h, id, wanted)
    case Leave(id, unwanted) => LeaveEach(h, id, unwanted)
    case LeaveAll(id) =>
      Hub(UnsubscribedAll(h.channels, id), h.believed[id := Believes(h, id) - Left(h.channels, id)])
  }

  /** No channel is empty or lists an id twice, and every callback goes where it should. */
  ghost predicate Proper(subs: seq<Subscriber>, channel: Bytes) {
    && subs != []
    && (forall i, j :: 0 <= i < j < |subs| ==> subs[i].id != subs[j].id)
    && (forall i :: 0 <= i < |subs| ==> subs[i].write == Push(subs[i].id, channel))
  }

  ghost predicate Agreed(h: Hub) {
    && (forall c :: c in h.channels ==> Proper(h.channels[c], c))
    && (forall id, c :: c in Believes(h, id) <==> Listed(SubsOf(h.channels, c), id))
  }

  lemma {:induction false} EnrolledLists(subs: seq<Subscriber>, id: Id, write: Callback, other: Id)
    ensures Listed(Enrolled(subs, id, write), other) <==> other == id || Listed(subs, other)
    decreases |subs|
  {
    var r := Enrolled(subs, id, write);
    if subs == [] {
      assert r[0].id == id;
    } else {
      EnrolledLists(subs[1..], id, write, other);
      ListedCons(subs, other);
      ListedCons(r, other);
      ListedCons([Subscriber(id, write)] + subs[1..], other);
    }
  }

  lemma ListedCons(subs: seq<Subscriber>, id: Id)
    requires subs != []
    ensures Listed(subs, id) <==> subs[0].id == id || Listed(subs[1..], id)
  {
    if Listed(subs, id) {
      var i :| 0 <= i < |subs| && subs[i].id == id;
      assert i > 0 ==> subs[1..][i - 1].id == id;
    }
    if Listed(subs[1..], id) {
      var i :| 0 <= i < |subs[1..]| && subs[1..][i].id == id;
      assert subs[i + 1].id == id;
    }
  }

  lemma {:induction false} WithoutLists(subs: seq<Subscriber>, id: Id, other: Id)
    ensures Listed(Without(subs, id), other) <==> other != id && Listed(subs, other)
    decreases |subs|
  {
    if subs != [] {
      WithoutLists(subs[1..], id, other);
      ListedCons(subs, other);
      if subs[0].id != id {
        ListedCons(Without(subs, id), other);
      }
    }
  }

  lemma {:induction false} EnrolledProper(subs: seq<Subscriber>, id: Id, channel: Bytes)
    requires subs == [] || Proper(subs, channel)
    ensures Proper(Enrolled(subs, id, Push(id, channel)), channel)
    decreases |subs|
  {
    if subs != [] && subs[0].id != id {
      var tail := Enrolled(subs[1..], id, Push(id, channel));
      EnrolledProper(subs[1..], id, channel);
      forall j | 0 <= j < |tail| ensures tail[j].id != subs[0].id {
        assert Listed(tail, tail[j].id);
        EnrolledLists(subs[1..], id, Push(id, channel), tail[j].id);
        if tail[j].id != id {
          var k :| 0 <= k < |subs[1..]| && subs[1..][k].id == tail[j].id;
          assert subs[k + 1].id != subs[0].id;
        }
      }
    }
  }

  lemma {:induction false} WithoutProper(subs: seq<Subscriber>, id: Id, channel: Bytes)
    requires subs == [] || Proper(subs, channel)
    ensures Without(subs, id) == [] || Proper(Without(subs, id), channel)
    decreases |subs|
  {
    if subs != [] {
      WithoutProper(subs[1..], id, channel);
      var tail := Without(subs[1..], id);
      forall j | 0 <= j < |tail| ensures tail[j].id != subs[0].id {
        assert Listed(tail, tail[j].id);
        WithoutLists(subs[1..], id, tail[j].id);
        var k :| 0 <= k < |subs[1..]| && subs[1..][k].id == tail[j].id;
        assert subs[k + 1].id != subs[0].id;
      }
    }
  }

  /** A list gets shorter exactly when it listed the id. */
  lemma {:induction false} WithoutShorter(subs: seq<Subscriber>, id: Id)
    ensures |Without(subs, id)| != |subs| <==> Listed(subs, id)
    decreases |subs|
  {
    if subs != [] {
      WithoutShorter(subs[1..], id);
      ListedCons(subs, id);
    }
  }

  lemma JoinOneAgrees(h: Hub, id: Id, channel: Bytes)
    requires Agreed(h)
    ensures Agreed(JoinOne(h, id, channel))
  {
    hide Enrolled;
    var h' := JoinOne(h, id, channel);
    EnrolledProper(SubsOf(h.channels, channel), id, channel);
    forall other, c ensures c in Believes(h', other) <==> Listed(SubsOf(h'.channels, c), other) {
      EnrolledLists(SubsOf(h.channels, channel), id, Push(id, channel), other);
      assert c in Believes(h, other) <==> Listed(SubsOf(h.channels, c), other);
    }
  }

  lemma LeaveOneAgrees(h: Hub, id: Id, channel: Bytes)
    requires Agreed(h)
    ensures Agreed(LeaveOne(h, id, channel))
  {
    hide Without;
    var h' := LeaveOne(h, id, channel);
    var subs := SubsOf(h.channels, channel);
    WithoutProper(subs, id, channel);
    assert SubsOf(h'.channels, channel) == Without(subs, id) by { WithoutEmpty(id); }
    forall other, c ensures c in Believes(h', other) <==> Listed(SubsOf(h'.channels, c), other) {
      WithoutLists(subs, id, other);
      assert c in Believes(h, other) <==> Listed(SubsOf(h.channels, c), other);
      assert c != channel ==> SubsOf(h'.channels, c) == SubsOf(h.channels, c);
    }
  }

  lemma WithoutEmpty(id: Id)
    ensures Without([], id) == []
  {
  }

  lemma LeaveAllAgrees(h: Hub, id: Id)
    requires Agreed(h)
    ensures Agreed(Act(h, LeaveAll(id)))
    ensures Believes(Act(h, LeaveAll(id)), id) == {}
    ensures Left(h.channels, id) == Believes(h, id)
  {
    hide Without;
    var h' := Act(h, LeaveAll(id));
    WithoutEmpty(id);
    forall c ensures SubsOf(h'.channels, c) == Without(SubsOf(h.channels, c), id) {
    }
    forall c | c in h'.channels ensures Proper(h'.channels[c], c) {
      WithoutProper(h.channels[c], id, c);
    }
    forall c ensures c in Left(h.channels, id) <==> c in Believes(h, id) {
      WithoutShorter(SubsOf(h.channels, c), id);
      assert c in Believes(h, id) <==> Listed(SubsOf(h.channels, c), id);
    }
    forall other, c ensures c in Believes(h', other) <==> Listed(SubsOf(h'.channels, c), other) {
      WithoutLists(SubsOf(h.channels, c), id, other);
      assert c in Believes(h, other) <==> Listed(SubsOf(h.channels, c), other);
    }
  }

  lemma {:induction false} JoinAgrees(h: Hub, id: Id, wanted: seq<Bytes>)
    requires Agreed(h)
    ensures Agreed(JoinEach(h, id, wanted))
    decreases |wanted|
  {
    hide Agreed, JoinOne;
    if wanted != [] {
      JoinOneAgrees(h, id, wanted[0]);
      JoinAgrees(JoinOne(h, id, wanted[0]), id, wanted[1..]);
    }
  }

  lemma {:induction false} LeaveAgrees(h: Hub, id: Id, unwanted: seq<Bytes>)
    requires Agreed(h)
    ensures Agreed(LeaveEach(h, id, unwanted))
    decreases |unwanted|
  {
    hide Agreed, LeaveOne;
    if unwanted != [] {
      LeaveOneAgrees(h, id, unwanted[0]);
      LeaveAgrees(LeaveOne(h, id, unwanted[0]), id, unwanted[1..]);
    }
  }

  /** Every action keeps agreement: a connection believes it is on a channel exactly when the
      broker lists it there; no channel is empty or lists a connection twice. */
  lemma ActAgrees(h: Hub, action: Action)
    requires Agreed(h)
    ensures Agreed(Act(h, action))
  {
    hide Agreed;
    match action
    case Join(id, wanted) => JoinAgrees(h, id, wanted);
    case Leave(id, unwanted) => LeaveAgrees(h, id, unwanted);
    case LeaveAll(id) => LeaveAllAgrees(h, id);
  }

  // ---- other subscribers ---------------------------------------------------------------------

  lemma {:induction false} EnrolledOthers(subs: seq<Subscriber>, id: Id, write: Callback)
    ensures Without(Enrolled(subs, id, write), id) == Without(subs, id)
    decreases |subs|
  {
    if subs != [] && subs[0].id != id {
      EnrolledOthers(subs[1..], id, write);
    }
  }

  lemma {:induction false} WithoutTwice(subs: seq<Subscriber>, id: Id)
    ensures Without(Without(subs, id), id) == Without(subs, id)
    decreases |subs|
  {
    if subs != [] {
      WithoutTwice(subs[1..], id);
    }
  }

  lemma {:induction false} JoinOthers(h: Hub, id: Id, wanted: seq<Bytes>, c: Bytes)
    ensures Without(SubsOf(JoinEach(h, id, wanted).channels, c), id) == Without(SubsOf(h.channels, c), id)
    decreases |wanted|
  {
    if wanted != [] {
      EnrolledOthers(SubsOf(h.channels, wanted[0]), id, Push(id, wanted[0]));
      hide Enrolled, Without;
      JoinOthers(JoinOne(h, id, wanted[0]), id, wanted[1..], c);
    }
  }

  lemma {:induction false} LeaveOthers(h: Hub, id: Id, unwanted: seq<Bytes>, c: Bytes)
    ensures Without(SubsOf(LeaveEach(h, id, unwanted).channels, c), id) == Without(SubsOf(h.channels, c), id)
    decreases |unwanted|
  {
    if unwanted != [] {
      WithoutTwice(SubsOf(h.channels, unwanted[0]), id);
      WithoutEmpty(id);
      hide Without;
      LeaveOthers(LeaveOne(h, id, unwanted[0]), id, unwanted[1..], c);
    }
  }

  /** No action of one connection disturbs another: leaving the actor out, every channel lists
      the same subscribers in the same order before and after. */
  lemma OthersUndisturbed(h: Hub, action: Action, c: Bytes)
    ensures Without(SubsOf(Act(h, action).channels, c), action.id) == Without(SubsOf(h.channels, c), action.id)
  {
    match action
    case Join(id, wanted) => JoinOthers(h, id, wanted, c);
    case Leave(id, unwanted) => LeaveOthers(h, id, unwanted, c);
    case LeaveAll(id) =>
      WithoutTwice(SubsOf(h.channels, c), id);
      WithoutEmpty(id);
      hide Without;
  }

  /** In an agreed state, publishing reaches exactly the connections that believe they are on
      the channel, each once, with that channel's callback. */
  lemma PublishReaches(h: Hub, channel: Bytes)
    requires Agreed(h)
    ensures var invoked := Callbacks(SubsOf(h.channels, channel));
            && Distinct(invoked)
            && (forall id :: Push(id, channel) in invoked <==> channel in Believes(h, id))
            && (forall i :: 0 <= i < |invoked| ==> invoked[i].channel == channel)
  {
    var subs := SubsOf(h.channels, channel);
    var invoked := Callbacks(subs);
    forall id ensures Push(id, channel) in invoked <==> channel in Believes(h, id) {
      assert channel in Believes(h, id) <==> Listed(subs, id);
      if Push(id, channel) in invoked {
        var i :| 0 <= i < |invoked| && invoked[i] == Push(id, channel);
        assert subs[i].id == id;
      }
      if Listed(subs, id) {
        var i :| 0 <= i < |subs| && subs[i].id == id;
        assert invoked[i] == Push(id, channel);
      }
    }
  }
}
