/** Editor rooms (the room handlers of backend/app/main.py): the `rooms`,
    `room_members` and `documents` tables, room creation with its owner and
    document, the caller's room list, and joins by invite slug. */
module Rooms {
  import opened Common
  import opened Query
  import opened Sorting

  datatype Room = Room(id: Id, name: string, inviteSlug: string, createdBy: string, createdAt: int, updatedAt: int)

  datatype RoomMember = RoomMember(id: Id, roomId: Id, userId: string, role: string)

  /** The unique key of `room_members`. */
  datatype MemberKey = MemberKey(roomId: Id, userId: string)

  datatype Document = Document(id: Id, roomId: Id, content: string, language: string)

  /** `RoomWithDocument`: a room and what is known of its document. */
  datatype RoomWithDocument = RoomWithDocument(
    id: Id, name: string, inviteSlug: string, createdBy: string, createdAt: int, updatedAt: int,
    documentId: Option<Id>, documentContent: string, documentLanguage: string)

  const DefaultName: string := "Untitled Room"
  const MaxName: nat := 255
  const DefaultDocLanguage: string := "javascript"
  const OwnerRole: string := "owner"
  const MemberRole: string := "member"

  function RoomId(r: Room): int { r.id }
  function RoomAt(r: Room): int { r.createdAt }
  function SlugOf(r: Room): string { r.inviteSlug }
  /** The sort key of `order("updated_at", desc=True)`. */
  function NegUpdatedAt(r: Room): int { -r.updatedAt }
  function WithId(id: Id): Room -> bool { (r: Room) => r.id == id }
  function SlugIs(slug: string): Room -> bool { (r: Room) => r.inviteSlug == slug }
  function IdIn(ids: seq<Id>): Room -> bool { (r: Room) => r.id in ids }

  function KeyOf(m: RoomMember): MemberKey { MemberKey(m.roomId, m.userId) }
  function ByUser(u: string): RoomMember -> bool { (m: RoomMember) => m.userId == u }
  /** The upsert writes the given columns and keeps the row's id. */
  function KeepId(prev: RoomMember, x: RoomMember): RoomMember { x.(id := prev.id) }

  function DocRoom(d: Document): Id { d.roomId }
  function ForRoom(rid: Id): Document -> bool { (d: Document) => d.roomId == rid }

  predicate IsMember(members: seq<RoomMember>, roomId: Id, user: string) {
    Exists(members, KeyIs(KeyOf, MemberKey(roomId, user)))
  }

  function MemberOf(members: seq<RoomMember>, user: string): Room -> bool {
    (r: Room) => IsMember(members, r.id, user)
  }

  /** A room with its document; a room without one gets no document id, empty
      content and "javascript". */
  function WithDocument(r: Room, docs: seq<Document>): (v: RoomWithDocument)
    ensures v.id == r.id && v.name == r.name && v.inviteSlug == r.inviteSlug && v.createdBy == r.createdBy
    ensures Find(docs, ForRoom(r.id)).None? <==> v.documentId.None?
    ensures Find(docs, ForRoom(r.id)).None? ==> v.documentContent == "" && v.documentLanguage == DefaultDocLanguage
    ensures v.documentId.Some? ==>
      exists k :: && 0 <= k < |docs| && docs[k].roomId == r.id && docs[k].id == v.documentId.value
                  && v.documentContent == docs[k].content && v.documentLanguage == docs[k].language
  {
    match Find(docs, ForRoom(r.id))
    case Some(k) => RoomWithDocument(r.id, r.name, r.inviteSlug, r.createdBy, r.createdAt, r.updatedAt,
                                     Some(docs[k].id), docs[k].content, docs[k].language)
    case None => RoomWithDocument(r.id, r.name, r.inviteSlug, r.createdBy, r.createdAt, r.updatedAt,
                                  None, "", DefaultDocLanguage)
  }

  class RoomTables {
    var rooms: seq<Room>
    var members: seq<RoomMember>
    var documents: seq<Document>
    var nextId: nat
    var clock: int

    /** Rooms are stamped by the store and their invite slugs are unique;
        memberships are unique per (room, user); a room has at most one
        document; memberships and documents name handed-out room ids. */
    ghost predicate Valid()
      reads this
    {
      TablesValid(rooms, members, documents, nextId, clock)
    }

    /** The tables as earlier requests left them; `updated_at` is whatever the
        store recorded. */
    constructor (rooms0: seq<Room>, members0: seq<RoomMember>, documents0: seq<Document>, nextId0: nat, clock0: int)
      requires Stamped(rooms0, RoomId, RoomAt, nextId0, clock0) && UniqueBy(rooms0, SlugOf)
      requires UniqueBy(members0, KeyOf) && UniqueBy(documents0, DocRoom)
      requires forall i :: 0 <= i < |members0| ==> members0[i].roomId < nextId0
      requires forall i :: 0 <= i < |documents0| ==> documents0[i].roomId < nextId0
      ensures Valid()
      ensures rooms == rooms0 && members == members0 && documents == documents0
      ensures nextId == nextId0 && clock == clock0
    {
      rooms := rooms0;
      members := members0;
      documents := documents0;
      nextId := nextId0;
      clock := clock0;
    }

    /** `create_room`: the name defaults to "Untitled Room" and must be 1..255
        characters; the creator becomes the owner and the room gets an empty
        "javascript" document. `slug` is the freshly generated invite slug. */
    method CreateRoom(caller: Caller, name: Option<string>, slug: string) returns (r: Result<RoomWithDocument>)
      requires Valid()
      requires forall i :: 0 <= i < |rooms| ==> rooms[i].inviteSlug != slug
      modifies this
      ensures Valid()
      ensures !Within(Given(name, DefaultName), 1, MaxName) ==>
        && r == Err(Unprocessable)
        && rooms == old(rooms) && members == old(members) && documents == old(documents)
        && nextId == old(nextId) && clock == old(clock)
      ensures Within(Given(name, DefaultName), 1, MaxName) ==>
        var room := Room(old(nextId), Given(name, DefaultName), slug, caller.sub, old(clock), old(clock));
        var doc := Document(old(nextId) + 2, room.id, "", DefaultDocLanguage);
        && rooms == old(rooms) + [room]
        && members == old(members) + [RoomMember(old(nextId) + 1, room.id, caller.sub, OwnerRole)]
        && documents == old(documents) + [doc]
        && r == Ok(RoomWithDocument(room.id, room.name, slug, caller.sub, room.createdAt, room.updatedAt,
                                    Some(doc.id), "", DefaultDocLanguage))
        && nextId == old(nextId) + 3 && clock == old(clock) + 1
    {
      var n := Given(name, DefaultName);
      if !Within(n, 1, MaxName) {
        return Err(Unprocessable);
      }
      var room := Room(nextId, n, slug, caller.sub, clock, clock);
      var member := RoomMember(nextId + 1, room.id, caller.sub, OwnerRole);
      var doc := Document(nextId + 2, room.id, "", DefaultDocLanguage);
      CreateKeepsValid(rooms, members, documents, nextId, clock, room, member, doc);
      rooms := rooms + [room];
      members := members + [member];
      documents := documents + [doc];
      nextId := nextId + 3;
      clock := clock + 1;
      r := Ok(RoomWithDocument(room.id, n, slug, caller.sub, room.createdAt, room.updatedAt, Some(doc.id), "", DefaultDocLanguage));
    }

    /** `list_rooms`: the rooms the caller belongs to, most recently updated
        first. */
    method ListRooms(caller: Caller) returns (r: seq<Room>)
      requires Valid()
      ensures multiset(r) == multiset(Filter(rooms, MemberOf(members, caller.sub)))
      ensures forall i :: 0 <= i < |r| ==> r[i] in rooms && IsMember(members, r[i].id, caller.sub)
      ensures forall k :: 0 <= k < |rooms| && IsMember(members, rooms[k].id, caller.sub) ==> rooms[k] in r
      ensures forall i, j :: 0 <= i < j < |r| ==> r[i].updatedAt >= r[j].updatedAt
      ensures (forall i :: 0 <= i < |members| ==> members[i].userId != caller.sub) ==> r == []
    {
      var mine := Filter(members, ByUser(caller.sub));
      if mine == [] {
        NoMembershipNoRooms(rooms, members, caller.sub);
        return [];
      }
      var ids := seq(|mine|, i requires 0 <= i < |mine| => mine[i].roomId);
      SelectedByMembership(rooms, members, caller.sub, mine, ids);
      var selected := Filter(rooms, IdIn(ids));
      r := SortBy(selected, NegUpdatedAt);
      SortedRooms(rooms, members, caller.sub, r);
      assert mine[0] in members && mine[0].userId == caller.sub;
      var j0 :| 0 <= j0 < |members| && members[j0] == mine[0];
      assert members[j0].userId == caller.sub;
    }

    /** `get_room`: 404 for a missing room, then 403 for a non-member. */
    method GetRoom(roomId: Id, caller: Caller) returns (r: Result<RoomWithDocument>)
      requires Valid()
      ensures Find(rooms, WithId(roomId)).None? ==> r == Err(NotFound)
      ensures Find(rooms, WithId(roomId)).Some? && !IsMember(members, roomId, caller.sub) ==> r == Err(Forbidden)
      ensures Find(rooms, WithId(roomId)).Some? && IsMember(members, roomId, caller.sub) ==>
        r == Ok(WithDocument(rooms[Find(rooms, WithId(roomId)).value], documents))
      ensures r.Ok? ==> r.value.id == roomId
    {
      var found := Find(rooms, WithId(roomId));
      if found.None? {
        return Err(NotFound);
      }
      if !IsMember(members, roomId, caller.sub) {
        return Err(Forbidden);
      }
      r := Ok(WithDocument(rooms[found.value], documents));
    }

    /** `join_room`: 422 for an empty slug, 404 for an unknown one; otherwise
        the caller's membership is upserted with role "member", leaving one row
        for the pair. */
    method JoinRoom(caller: Caller, slug: string) returns (r: Result<RoomWithDocument>)
      requires Valid()
      modifies this
      ensures Valid()
      ensures rooms == old(rooms) && documents == old(documents) && clock == old(clock)
      ensures slug == "" ==> r == Err(Unprocessable) && members == old(members) && nextId == old(nextId)
      ensures slug != "" && Find(old(rooms), SlugIs(slug)).None? ==>
        r == Err(NotFound) && members == old(members) && nextId == old(nextId)
      ensures slug != "" && Find(old(rooms), SlugIs(slug)).Some? ==>
        var room := old(rooms)[Find(old(rooms), SlugIs(slug)).value];
        && r == Ok(WithDocument(room, documents))
        && members == Upsert(old(members), KeyOf, RoomMember(old(nextId), room.id, caller.sub, MemberRole), KeepId)
        && |Filter(members, KeyIs(KeyOf, MemberKey(room.id, caller.sub)))| == 1
        && nextId == old(nextId) + 1
    {
      if slug == "" {
        return Err(Unprocessable);
      }
      var found := Find(rooms, SlugIs(slug));
      if found.None? {
        return Err(NotFound);
      }
      var room := rooms[found.value];
      var x := RoomMember(nextId, room.id, caller.sub, MemberRole);
      UpsertUnique(members, KeyOf, x, KeepId);
      var joined := Upsert(members, KeyOf, x, KeepId);
      forall i | 0 <= i < |joined| ensures joined[i].roomId < nextId + 1 {
        if joined[i] in members {
          var j :| 0 <= j < |members| && members[j] == joined[i];
        }
      }
      StampedGrow(rooms, RoomId, RoomAt, nextId, clock, nextId + 1, clock);
      members := joined;
      nextId := nextId + 1;
      r := Ok(WithDocument(room, documents));
    }
  }

  /** What the tables keep between requests: ids and stamps ascending and
      below the counters, one room per slug, one membership per room and
      user, one document per room, and members and documents only of rooms
      that were created. */
  ghost predicate TablesValid(rooms: seq<Room>, members: seq<RoomMember>, documents: seq<Document>, nextId: int, clock: int) {
    && Stamped(rooms, RoomId, RoomAt, nextId, clock)
    && UniqueBy(rooms, SlugOf)
    && UniqueBy(members, KeyOf)
    && UniqueBy(documents, DocRoom)
    && (forall i :: 0 <= i < |members| ==> members[i].roomId < nextId)
    && (forall i :: 0 <= i < |documents| ==> documents[i].roomId < nextId)
  }

  /** Creating a room with fresh counters, its owner row and its document
      keeps the tables valid. */
  lemma CreateKeepsValid(rooms: seq<Room>, members: seq<RoomMember>, documents: seq<Document>, nextId: int, clock: int,
                         room: Room, member: RoomMember, doc: Document)
    requires TablesValid(rooms, members, documents, nextId, clock)
    requires forall i :: 0 <= i < |rooms| ==> rooms[i].inviteSlug != room.inviteSlug
    requires room.id == nextId && room.createdAt == clock && member.roomId == nextId && doc.roomId == nextId
    ensures TablesValid(rooms + [room], members + [member], documents + [doc], nextId + 3, clock + 1)
  {
    StampedAppend(rooms, room, RoomId, RoomAt, nextId, clock);
    StampedGrow(rooms + [room], RoomId, RoomAt, nextId + 1, clock + 1, nextId + 3, clock + 1);
    UniqueByAppend(rooms, room, SlugOf);
    forall i | 0 <= i < |members| ensures KeyOf(members[i]) != KeyOf(member) {
      assert members[i].roomId < nextId;
    }
    UniqueByAppend(members, member, KeyOf);
    forall i | 0 <= i < |documents| ensures DocRoom(documents[i]) != DocRoom(doc) {
      assert documents[i].roomId < nextId;
    }
    UniqueByAppend(documents, doc, DocRoom);
    var members' := members + [member];
    var documents' := documents + [doc];
    assert forall i :: 0 <= i < |members'| ==> members'[i].roomId < nextId + 3;
    assert forall i :: 0 <= i < |documents'| ==> documents'[i].roomId < nextId + 3;
  }

  /** The `in_("id", room_ids)` query selects exactly the caller's rooms. */
  lemma SelectedByMembership(rooms: seq<Room>, members: seq<RoomMember>, me: string, mine: seq<RoomMember>, ids: seq<Id>)
    requires mine == Filter(members, ByUser(me))
    requires |ids| == |mine| && forall i :: 0 <= i < |mine| ==> ids[i] == mine[i].roomId
    ensures Filter(rooms, IdIn(ids)) == Filter(rooms, MemberOf(members, me))
  {
    forall k | 0 <= k < |rooms| ensures IdIn(ids)(rooms[k]) <==> MemberOf(members, me)(rooms[k]) {
      if IsMember(members, rooms[k].id, me) {
        MembershipListed(members, me, mine, ids, rooms[k].id);
      }
      if rooms[k].id in ids {
        ListedMembership(members, me, mine, ids, rooms[k].id);
      }
    }
    FilterEquiv(rooms, IdIn(ids), MemberOf(members, me));
  }

  /** A room the caller belongs to has its id among the selected ids. */
  lemma MembershipListed(members: seq<RoomMember>, me: string, mine: seq<RoomMember>, ids: seq<Id>, rid: Id)
    requires mine == Filter(members, ByUser(me))
    requires |ids| == |mine| && forall i :: 0 <= i < |mine| ==> ids[i] == mine[i].roomId
    requires IsMember(members, rid, me)
    ensures rid in ids
  {
    var j :| 0 <= j < |members| && KeyIs(KeyOf, MemberKey(rid, me))(members[j]);
    assert KeyOf(members[j]) == MemberKey(rid, me);
    assert ByUser(me)(members[j]);
    assert members[j] in mine;
    var t :| 0 <= t < |mine| && mine[t] == members[j];
    assert ids[t] == rid;
  }

  /** A selected id is a room the caller belongs to. */
  lemma ListedMembership(members: seq<RoomMember>, me: string, mine: seq<RoomMember>, ids: seq<Id>, rid: Id)
    requires mine == Filter(members, ByUser(me))
    requires |ids| == |mine| && forall i :: 0 <= i < |mine| ==> ids[i] == mine[i].roomId
    requires rid in ids
    ensures IsMember(members, rid, me)
  {
    var t :| 0 <= t < |ids| && ids[t] == rid;
    assert mine[t] in members && ByUser(me)(mine[t]);
    var j :| 0 <= j < |members| && members[j] == mine[t];
    assert KeyIs(KeyOf, MemberKey(rid, me))(members[j]);
  }

  /** A caller without memberships belongs to no room. */
  lemma NoMembershipNoRooms(rooms: seq<Room>, members: seq<RoomMember>, me: string)
    requires Filter(members, ByUser(me)) == []
    ensures forall j :: 0 <= j < |members| ==> members[j].userId != me
    ensures Filter(rooms, MemberOf(members, me)) == []
  {
    assert forall j :: 0 <= j < |members| ==> members[j].userId != me;
    forall k | 0 <= k < |rooms| ensures !MemberOf(members, me)(rooms[k]) {
      forall j | 0 <= j < |members| ensures !KeyIs(KeyOf, MemberKey(rooms[k].id, me))(members[j]) {
        assert KeyOf(members[j]).userId != me;
      }
    }
    FilterNone(rooms, MemberOf(members, me));
  }

  /** Sorting the caller's rooms by descending `updated_at` keeps exactly
      those rooms. */
  lemma SortedRooms(rooms: seq<Room>, members: seq<RoomMember>, me: string, r: seq<Room>)
    requires multiset(r) == multiset(Filter(rooms, MemberOf(members, me))) && NonDecreasing(r, NegUpdatedAt)
    ensures forall i :: 0 <= i < |r| ==> r[i] in rooms && IsMember(members, r[i].id, me)
    ensures forall k :: 0 <= k < |rooms| && IsMember(members, rooms[k].id, me) ==> rooms[k] in r
    ensures forall i, j :: 0 <= i < j < |r| ==> r[i].updatedAt >= r[j].updatedAt
  {
    var selected := Filter(rooms, MemberOf(members, me));
    forall i | 0 <= i < |r| ensures r[i] in rooms && IsMember(members, r[i].id, me) {
      assert r[i] in multiset(selected);
      assert MemberOf(members, me)(r[i]);
    }
    forall k | 0 <= k < |rooms| && IsMember(members, rooms[k].id, me) ensures rooms[k] in r {
      assert MemberOf(members, me)(rooms[k]);
      assert rooms[k] in multiset(selected);
    }
    forall i, j | 0 <= i < j < |r| ensures r[i].updatedAt >= r[j].updatedAt {
      assert NegUpdatedAt(r[i]) <= NegUpdatedAt(r[j]);
    }
  }

  /** Joining twice by slug leaves the table as one join left it: the role is
      "member" after either. */
  lemma JoinTwiceOneRow(members: seq<RoomMember>, roomId: Id, caller: Caller, id1: Id, id2: Id)
    requires UniqueBy(members, KeyOf)
    ensures var once := Upsert(members, KeyOf, RoomMember(id1, roomId, caller.sub, MemberRole), KeepId);
            && Upsert(once, KeyOf, RoomMember(id2, roomId, caller.sub, MemberRole), KeepId) == once
            && |Filter(once, KeyIs(KeyOf, MemberKey(roomId, caller.sub)))| == 1
  {
    var x1 := RoomMember(id1, roomId, caller.sub, MemberRole);
    UpsertTwice(members, KeyOf, x1, RoomMember(id2, roomId, caller.sub, MemberRole), KeepId);
    UpsertUnique(members, KeyOf, x1, KeepId);
  }
}
