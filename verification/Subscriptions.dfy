/** A connection's SUBSCRIBE and UNSUBSCRIBE are the actions of the hub in PubSub.dfy. */
module Subscriptions {
  import opened Bytes
  import opened Commands
  import opened PubSub
  import opened Connection
  import opened Families

  /** The hub and the connection show the same table and the same beliefs of the connection. */
  ghost predicate Shows(cfg: Config, h: Hub, w: World) {
    h.channels == w.channels && Believes(h, cfg.id) == w.conn.subscribed
  }

  ghost predicate OthersKeep(h: Hub, h': Hub, id: Id) {
    forall other :: other != id ==> Believes(h', other) == Believes(h, other)
  }

  lemma SetOfFront(items: seq<Bytes>)
    requires items != []
    ensures SetOf(items) == {items[0]} + SetOf(items[1..])
  {
    forall x ensures x in SetOf(items) <==> x in {items[0]} + SetOf(items[1..]) {
      SetOfMember(items, x);
      SetOfMember(items[1..], x);
      assert items == [items[0]] + items[1..];
    }
  }

  lemma {:induction false} JoinsShow(h: Hub, id: Id, wanted: seq<Bytes>, replies: Bytes)
    ensures var h' := JoinEach(h, id, wanted);
            && h'.channels == SubscribeEach(h.channels, id, wanted, replies).0
            && Believes(h', id) == Believes(h, id) + SetOf(wanted) && OthersKeep(h, h', id)
    decreases |wanted|
  {
    if wanted != [] {
      hide Subscribed, SubscribeReply;
      SetOfFront(wanted);
      var h1 := JoinOne(h, id, wanted[0]);
      JoinsShow(h1, id, wanted[1..], replies + SubscribeReply("subscribe", wanted[0], |h1.channels[wanted[0]]|));
    }
  }

  lemma {:induction false} LeavesShow(h: Hub, id: Id, unwanted: seq<Bytes>, replies: Bytes)
    ensures var h' := LeaveEach(h, id, unwanted);
            && h'.channels == UnsubscribeEach(h.channels, id, unwanted, replies).0
            && Believes(h', id) == Believes(h, id) - SetOf(unwanted) && OthersKeep(h, h', id)
    decreases |unwanted|
  {
    if unwanted != [] {
      hide Unsubscribed, SubscribeReply;
      SetOfFront(unwanted);
      var h1 := LeaveOne(h, id, unwanted[0]);
      LeavesShow(h1, id, unwanted[1..],
                 replies + SubscribeReply("unsubscribe", unwanted[0], |SubsOf(h1.channels, unwanted[0])|));
    }
  }

  lemma WriteKeepsSubscribed(cfg: Config, c: Conn, data: Bytes)
    ensures DoWrite(cfg, c, data).subscribed == c.subscribed
  {
  }

  /** SUBSCRIBE on a connection is the hub's join, so what PubSub.dfy proves of actions holds of it. */
  lemma SubscribeJoins(cfg: Config, w: World, h: Hub, args: seq<Bytes>)
    requires cfg.brokered && args != [] && Shows(cfg, h, w)
    ensures var h' := Act(h, Join(cfg.id, args));
            Shows(cfg, h', HandleSubscribe(cfg, w, args)) && OthersKeep(h, h', cfg.id)
  {
    JoinsShow(h, cfg.id, args, "");
    var c := w.conn.(subscribed := w.conn.subscribed + SetOf(args));
    WriteKeepsSubscribed(cfg, c, SubscribeEach(w.channels, cfg.id, args, "").1);
    hide DoWrite, SubscribeEach, SetOf, JoinEach;
  }

  /** UNSUBSCRIBE, with channels or without, is the hub's leave. */
  lemma UnsubscribeLeaves(cfg: Config, w: World, h: Hub, args: seq<Bytes>, order: set<Bytes> -> seq<Bytes>)
    requires cfg.brokered && Shows(cfg, h, w) && Listing(order(w.channels.Keys), w.channels.Keys)
    ensures var h' := Act(h, if args == [] then LeaveAll(cfg.id) else Leave(cfg.id, args));
            Shows(cfg, h', HandleUnsubscribe(cfg, w, args, order)) && OthersKeep(h, h', cfg.id)
  {
    if args == [] {
      var left := Among(order(w.channels.Keys), Left(w.channels, cfg.id));
      LeftAreKeys(w.channels, cfg.id);
      assert SetOf(left) == Left(w.channels, cfg.id) by {
        forall x ensures x in SetOf(left) <==> x in Left(w.channels, cfg.id) { SetOfMember(left, x); }
      }
      var c := w.conn.(subscribed := w.conn.subscribed - SetOf(left));
      WriteKeepsSubscribed(cfg, c, if left == [] then SubscribeReply("unsubscribe", "", 0) else LeftReplies(left));
    } else {
      LeavesShow(h, cfg.id, args, "");
      var c := w.conn.(subscribed := w.conn.subscribed - SetOf(args));
      WriteKeepsSubscribed(cfg, c, UnsubscribeEach(w.channels, cfg.id, args, "").1);
    }
    hide DoWrite, UnsubscribeEach, SetOf, LeaveEach, Left, UnsubscribedAll, SubscribeReply, LeftReplies;
  }
}
