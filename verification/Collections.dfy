/** What SMEMBERS and HGETALL send: the whole collection, whatever the order of the table. */
module Collections {
  import opened Bytes
  import opened Resp
  import opened Store
  import opened Commands
  import opened PubSub
  import opened Connection
  import opened Families

  lemma {:induction false} PairsAt(listing: seq<Bytes>, fields: map<Bytes, Bytes>, j: nat)
    requires (forall f :: f in listing ==> f in fields) && j < |listing|
    ensures |Pairs(listing, fields)| == 2 * |listing|
    ensures Pairs(listing, fields)[2 * j] == listing[j] && Pairs(listing, fields)[2 * j + 1] == fields[listing[j]]
    decreases |listing|
  {
    if |listing| > 1 {
      PairsAt(listing[1..], fields, if j == 0 then 0 else j - 1);
    }
  }

  /** The reply lists the members, each once. */
  ghost predicate ListsMembers(reply: RespValue, members: set<Bytes>) {
    && reply.Array? && |reply.elements| == |members|
    && forall x :: x in members <==> BulkString(x) in reply.elements
  }

  /** The reply lists the fields, each once, followed by its value. */
  ghost predicate ListsFields(reply: RespValue, fields: map<Bytes, Bytes>) {
    && reply.Array? && |reply.elements| == 2 * |fields.Keys|
    && forall f :: f in fields ==>
         exists j :: 0 <= j < |fields.Keys| && reply.elements[2 * j] == BulkString(f)
                     && reply.elements[2 * j + 1] == BulkString(fields[f])
  }

  lemma {:induction false} ListingSize(items: seq<Bytes>, s: set<Bytes>)
    requires Listing(items, s)
    ensures |items| == |s|
    decreases |items|
  {
    if items == [] {
      assert s == {};
    } else {
      var last := |items| - 1;
      assert items == items[..last] + [items[last]] && items[last] !in items[..last];
      ListingSize(items[..last], s - {items[last]});
    }
  }

  lemma MembersListed(listing: seq<Bytes>, members: set<Bytes>)
    requires Listing(listing, members)
    ensures ListsMembers(Array(Bulks(listing)), members)
  {
    ListingSize(listing, members);
    forall x ensures x in members <==> BulkString(x) in Bulks(listing) {
      if x in members {
        var i :| 0 <= i < |listing| && listing[i] == x;
        assert Bulks(listing)[i] == BulkString(x);
      }
    }
  }

  lemma FieldsListed(listing: seq<Bytes>, fields: map<Bytes, Bytes>)
    requires Listing(listing, fields.Keys)
    ensures ListsFields(Array(Bulks(Pairs(listing, fields))), fields)
  {
    ListingSize(listing, fields.Keys);
    var pairs := Pairs(listing, fields);
    if listing != [] {
      PairsAt(listing, fields, 0);
    }
    forall f | f in fields
      ensures exists j :: 0 <= j < |fields.Keys| && Bulks(pairs)[2 * j] == BulkString(f)
                          && Bulks(pairs)[2 * j + 1] == BulkString(fields[f])
    {
      assert f in listing;
      var j :| 0 <= j < |listing| && listing[j] == f;
      PairsAt(listing, fields, j);
      assert Bulks(pairs)[2 * j] == BulkString(f);
    }
  }

  lemma NothingListed()
    ensures ListsMembers(Array([]), {}) && ListsFields(Array([]), map[])
  {
  }

  /** SMEMBERS and HGETALL answer with the whole collection, whatever the order of the table. */
  lemma WholeReported(read: Command, kind: Kind, s: Store, scene: Scene, key: Bytes, span: Span)
    requires ListsAll(scene.order) && Works(read, kind, key) && Meets(scene.env, span)
    requires (kind == SMembers && HoldsSet(s, key, span)) || (kind == HGetAll && HoldsHash(s, key, span))
    ensures var out := Exec(read, s, scene.env).outcome;
            && !out.Throw?
            && var reply := ReplyValue(scene, read, out);
               if kind == SMembers then ListsMembers(reply, MembersOf(At(s, key, span)))
               else ListsFields(reply, FieldsOf(At(s, key, span)))
  {
    hide Exec, Works, Meets, HoldsSet, HoldsHash, Pairs, Listing, At, ListsMembers, ListsFields;
    WholeOutcome(read, kind, s, scene.env, key, span);
    NothingListed();
    var members, fields := MembersOf(At(s, key, span)), FieldsOf(At(s, key, span));
    assert Listing(scene.order(members), members) && Listing(scene.order(fields.Keys), fields.Keys);
    hide ListsAll;
    if kind == SMembers {
      MembersListed(scene.order(members), members);
    } else {
      FieldsListed(scene.order(fields.Keys), fields);
    }
  }
}
