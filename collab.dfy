/** Collaborative coding rooms (backend/app/routers/collab.py): the
    `collab_rooms` and `collab_room_members` tables, per-room member counts,
    creator-only deletion, idempotent joins and member-only code saves. */
module Collab {
  import opened Common
  import opened Query

  /** A `collab_rooms` row. `description` and `language` are stored as the
      request gave them and may be null. */
  datatype CollabRoom = CollabRoom(
    id: Id, name: string, description: Option<string>, language: Option<string>, code: string,
    createdBy: string, creatorEmail: string, isActive: bool, createdAt: int)

  /** A `collab_room_members` row; `user_color` is always written as null and
      is not kept. */
  datatype CollabMember = CollabMember(id: Id, roomId: Id, userId: string, userEmail: string)

  /** The unique key of `collab_room_members`. */
  datatype MemberKey = MemberKey(roomId: Id, userId: string)

  /** The request body of `create_collab_room`. */
  datatype CollabRoomCreate = CollabRoomCreate(name: string, description: Option<string>, language: Option<string>)

  /** `CollabRoomResponse`. */
  datatype RoomSummary = RoomSummary(
    id: Id, name: string, description: string, language: string, code: string,
    createdBy: string, creatorEmail: string, isActive: bool, createdAt: int, memberCount: nat)

  /** `CollabRoomDetail`. */
  datatype RoomDetail = RoomDetail(
    id: Id, name: string, description: string, language: string, code: string,
    createdBy: string, creatorEmail: string, isActive: bool, createdAt: int, isMember: bool)

  const DefaultLanguage: string := "python"

  function RoomId(r: CollabRoom): int { r.id }
  function RoomAt(r: CollabRoom): int { r.createdAt }
  function Creator(r: CollabRoom): string { r.createdBy }
  function IsActive(): CollabRoom -> bool { (r: CollabRoom) => r.isActive }
  function WithId(id: Id): CollabRoom -> bool { (r: CollabRoom) => r.id == id }
  function ActiveWithId(id: Id): CollabRoom -> bool { (r: CollabRoom) => r.id == id && r.isActive }

  function KeyOf(m: CollabMember): MemberKey { MemberKey(m.roomId, m.userId) }
  function InRoom(rid: Id): CollabMember -> bool { (m: CollabMember) => m.roomId == rid }
  function InRooms(ids: seq<Id>): CollabMember -> bool { (m: CollabMember) => m.roomId in ids }

  /** How the upsert treats an existing membership: the given columns are
      written, the row keeps its id. */
  function KeepId(prev: CollabMember, x: CollabMember): CollabMember { x.(id := prev.id) }

  /** The number of membership rows of a room. */
  function MemberCount(members: seq<CollabMember>, rid: Id): nat {
    |Filter(members, InRoom(rid))|
  }

  lemma MemberCountZero(members: seq<CollabMember>, rid: Id)
    ensures MemberCount(members, rid) == 0 <==> forall i :: 0 <= i < |members| ==> members[i].roomId != rid
  {
    var f := Filter(members, InRoom(rid));
    if f != [] {
      assert InRoom(rid)(f[0]);
    }
  }

  /** `member_counts.get(rid, 0)`. */
  function CountGet(counts: map<Id, nat>, rid: Id): nat {
    if rid in counts then counts[rid] else 0
  }

  /** A room as `CollabRoomResponse` shows it: missing or empty text fields
      replaced by their defaults. */
  function Summary(r: CollabRoom, count: nat): (s: RoomSummary)
    ensures s.id == r.id && s.name == r.name && s.createdBy == r.createdBy && s.isActive == r.isActive
    ensures s.description == OrDefault(r.description, "") && s.language == OrDefault(r.language, DefaultLanguage)
    ensures s.createdAt == r.createdAt && s.memberCount == count
  {
    RoomSummary(r.id, r.name, OrDefault(r.description, ""), OrDefault(r.language, DefaultLanguage),
                OrDefault(Some(r.code), ""), r.createdBy, r.creatorEmail, r.isActive, r.createdAt, count)
  }

  /** A room as `CollabRoomDetail` shows it. */
  function Detail(r: CollabRoom, isMember: bool): (d: RoomDetail)
    ensures d.id == r.id && d.code == r.code && d.isMember == isMember
    ensures d.description == OrDefault(r.description, "") && d.language == OrDefault(r.language, DefaultLanguage)
  {
    RoomDetail(r.id, r.name, OrDefault(r.description, ""), OrDefault(r.language, DefaultLanguage),
               OrDefault(Some(r.code), ""), r.createdBy, r.creatorEmail, r.isActive, r.createdAt, isMember)
  }

  /** The loop filling `member_counts`: each room id seen is counted once per
      membership row. */
  method CountMembers(ms: seq<CollabMember>) returns (counts: map<Id, nat>)
    ensures forall rid :: CountGet(counts, rid) == MemberCount(ms, rid)
  {
    counts := map[];
    var i := 0;
    while i < |ms|
      invariant 0 <= i <= |ms|
      invariant forall rid :: CountGet(counts, rid) == MemberCount(ms[..i], rid)
    {
      var rid := ms[i].roomId;
      var next := counts[rid := CountGet(counts, rid) + 1];
      forall q ensures CountGet(next, q) == MemberCount(ms[..i + 1], q) {
        assert ms[..i + 1] == ms[..i] + [ms[i]];
        FilterSnoc(ms[..i], ms[i], InRoom(q));
        assert CountGet(counts, q) == MemberCount(ms[..i], q);
        assert MemberCount(ms[..i + 1], q) == MemberCount(ms[..i], q) + (if q == rid then 1 else 0);
      }
      counts := next;
      i := i + 1;
    }
    assert ms[..i] == ms;
  }

  /** The response list of `list_collab_rooms` for the listed rooms: the
      memberships of those rooms are fetched and counted, and each room gets
      its own count, or 0. */
  method CountedSummaries(active: seq<CollabRoom>, members: seq<CollabMember>) returns (r: seq<RoomSummary>)
    ensures |r| == |active|
    ensures forall i :: 0 <= i < |r| ==> r[i] == Summary(active[i], MemberCount(members, active[i].id))
  {
    var ids := seq(|active|, i requires 0 <= i < |active| => active[i].id);
    var ms := Filter(members, InRooms(ids));
    var counts := CountMembers(ms);
    forall i | 0 <= i < |active| ensures CountGet(counts, active[i].id) == MemberCount(members, active[i].id) {
      assert active[i].id == ids[i];
      FilterNarrow(members, InRooms(ids), InRoom(active[i].id));
    }
    r := seq(|active|, i requires 0 <= i < |active| => Summary(active[i], CountGet(counts, active[i].id)));
  }

  /** What the response of `list_collab_rooms` shows of the rooms table. */
  lemma ListedRooms(rooms: seq<CollabRoom>, members: seq<CollabMember>, r: seq<RoomSummary>)
    requires Ascending(rooms, RoomAt)
    requires var active := NewestFirst(rooms, IsActive());
      && |r| == |active|
      && forall i :: 0 <= i < |r| ==> r[i] == Summary(active[i], MemberCount(members, active[i].id))
    ensures forall i :: 0 <= i < |r| ==> r[i].isActive
    ensures forall j :: 0 <= j < |rooms| && rooms[j].isActive ==> exists i :: 0 <= i < |r| && r[i].id == rooms[j].id
    ensures forall i, j :: 0 <= i < j < |r| ==> r[i].createdAt > r[j].createdAt
  {
    var active := NewestFirst(rooms, IsActive());
    forall i | 0 <= i < |r| ensures r[i].id == active[i].id && r[i].isActive == active[i].isActive && r[i].createdAt == active[i].createdAt {
      assert r[i] == Summary(active[i], MemberCount(members, active[i].id));
    }
    NewestFirstFacts(rooms, IsActive(), RoomAt);
    forall i | 0 <= i < |r| ensures r[i].isActive {
      assert IsActive()(active[i]);
    }
    forall j | 0 <= j < |rooms| && rooms[j].isActive ensures exists i :: 0 <= i < |r| && r[i].id == rooms[j].id {
      assert IsActive()(rooms[j]);
      var i :| 0 <= i < |active| && active[i] == rooms[j];
      assert r[i].id == rooms[j].id;
    }
    forall i, j | 0 <= i < j < |r| ensures r[i].createdAt > r[j].createdAt {
      assert RoomAt(active[i]) > RoomAt(active[j]);
    }
  }

  /** Two joins of one user, the second with a fresh id of its own, leave the
      table as the first left it, with exactly one row for the pair. */
  lemma JoinTwiceOneRow(members: seq<CollabMember>, roomId: Id, caller: Caller, id1: Id, id2: Id)
    requires UniqueBy(members, KeyOf)
    ensures var x1 := CollabMember(id1, roomId, caller.sub, EmailOf(caller));
            var x2 := CollabMember(id2, roomId, caller.sub, EmailOf(caller));
            var once := Upsert(members, KeyOf, x1, KeepId);
            && Upsert(once, KeyOf, x2, KeepId) == once
            && |Filter(once, KeyIs(KeyOf, MemberKey(roomId, caller.sub)))| == 1
  {
    var x1 := CollabMember(id1, roomId, caller.sub, EmailOf(caller));
    var x2 := CollabMember(id2, roomId, caller.sub, EmailOf(caller));
    UpsertTwice(members, KeyOf, x1, x2, KeepId);
    UpsertUnique(members, KeyOf, x1, KeepId);
  }

  /** What the tables keep between requests: rooms stamped by the store, one
      membership per (room, user), and memberships only of rooms that were
      created. */
  ghost predicate TablesValid(rooms: seq<CollabRoom>, members: seq<CollabMember>, nextId: int, clock: int) {
    && Stamped(rooms, RoomId, RoomAt, nextId, clock)
    && UniqueBy(members, KeyOf)
    && (forall i :: 0 <= i < |members| ==> members[i].roomId < nextId)
  }

  /** Upserting a membership of an existing room, while the id counter moves
      on, keeps the tables valid and leaves one row for the pair. */
  lemma JoinKeepsValid(rooms: seq<CollabRoom>, members: seq<CollabMember>, nextId: int, clock: int, x: CollabMember)
    requires TablesValid(rooms, members, nextId, clock) && x.roomId < nextId
    ensures TablesValid(rooms, Upsert(members, KeyOf, x, KeepId), nextId + 1, clock)
    ensures |Filter(Upsert(members, KeyOf, x, KeepId), KeyIs(KeyOf, KeyOf(x)))| == 1
  {
    UpsertUnique(members, KeyOf, x, KeepId);
    var joined := Upsert(members, KeyOf, x, KeepId);
    forall i | 0 <= i < |joined| ensures joined[i].roomId < nextId + 1 {
      if joined[i] in members {
        var j :| 0 <= j < |members| && members[j] == joined[i];
      }
    }
    StampedGrow(rooms, RoomId, RoomAt, nextId, clock, nextId + 1, clock);
  }

  class CollabTables {
    var rooms: seq<CollabRoom>
    var members: seq<CollabMember>
    var nextId: nat
    var clock: int

    /** Rooms are stamped by the store; memberships are unique per (room,
        user), as the upsert's conflict target requires, and name rooms the
        store has handed out. */
    ghost predicate Valid()
      reads this
    {
      TablesValid(rooms, members, nextId, clock)
    }

    /** The tables as other clients left them, possibly with inactive rooms. */
    constructor (rooms0: seq<CollabRoom>, members0: seq<CollabMember>, nextId0: nat, clock0: int)
      requires Stamped(rooms0, RoomId, RoomAt, nextId0, clock0)
      requires UniqueBy(members0, KeyOf)
      requires forall i :: 0 <= i < |members0| ==> members0[i].roomId < nextId0
      ensures Valid()
      ensures rooms == rooms0 && members == members0 && nextId == nextId0 && clock == clock0
    {
      rooms := rooms0;
      members := members0;
      nextId := nextId0;
      clock := clock0;
    }

    /** `list_collab_rooms`: the active rooms newest first, each with the
        number of its membership rows. */
    method ListCollabRooms(caller: Caller) returns (r: seq<RoomSummary>)
      requires Valid()
      ensures var active := NewestFirst(rooms, IsActive());
        && |r| == |active|
        && forall i :: 0 <= i < |r| ==> r[i] == Summary(active[i], MemberCount(members, active[i].id))
      ensures forall i :: 0 <= i < |r| ==> r[i].isActive
      ensures forall j :: 0 <= j < |rooms| && rooms[j].isActive ==> exists i :: 0 <= i < |r| && r[i].id == rooms[j].id
      ensures forall i, j :: 0 <= i < j < |r| ==> r[i].createdAt > r[j].createdAt
    {
      StampedAscending(rooms, RoomId, RoomAt, nextId, clock);
      var active := NewestFirst(rooms, IsActive());
      if active == [] {
        r := [];
      } else {
        r := CountedSummaries(active, members);
      }
      ListedRooms(rooms, members, r);
    }

    /** `create_collab_room`: empty code, the creator as its only member, and a
        reported member count of 1 that the table bears out. */
    method CreateCollabRoom(caller: Caller, body: CollabRoomCreate) returns (r: RoomSummary)
      requires Valid()
      modifies this
      ensures Valid()
      ensures var room := CollabRoom(old(nextId), body.name, body.description, body.language, "",
                                     caller.sub, EmailOf(caller), true, old(clock));
        && rooms == old(rooms) + [room]
        && members == old(members) + [CollabMember(old(nextId) + 1, room.id, caller.sub, EmailOf(caller))]
        && r == Summary(room, 1)
      ensures MemberCount(members, r.id) == r.memberCount
      ensures nextId == old(nextId) + 2 && clock == old(clock) + 1
    {
      var room := CollabRoom(nextId, body.name, body.description, body.language, "",
                             caller.sub, EmailOf(caller), true, clock);
      var member := CollabMember(nextId + 1, room.id, caller.sub, EmailOf(caller));
      StampedAppend(rooms, room, RoomId, RoomAt, nextId, clock);
      StampedGrow(rooms + [room], RoomId, RoomAt, nextId + 1, clock + 1, nextId + 2, clock + 1);
      UniqueByAppend(members, member, KeyOf);
      FilterNone(members, InRoom(room.id));
      FilterSnoc(members, member, InRoom(room.id));
      rooms := rooms + [room];
      members := members + [member];
      nextId := nextId + 2;
      clock := clock + 1;
      r := Summary(room, 1);
    }

    /** `get_collab_room`: 404 unless the room exists and is active. */
    method GetCollabRoom(roomId: Id, caller: Caller) returns (r: Result<RoomDetail>)
      requires Valid()
      ensures r == Err(NotFound) <==> forall k :: 0 <= k < |rooms| ==> !(rooms[k].id == roomId && rooms[k].isActive)
      ensures r.Err? ==> r == Err(NotFound)
      ensures r.Ok? ==>
        && (exists k :: 0 <= k < |rooms| && rooms[k].id == roomId && rooms[k].isActive && r.value == Detail(rooms[k], r.value.isMember))
        && (r.value.isMember <==> exists i :: 0 <= i < |members| && KeyOf(members[i]) == MemberKey(roomId, caller.sub))
    {
      var found := Find(rooms, ActiveWithId(roomId));
      if found.None? {
        return Err(NotFound);
      }
      var isMember := Exists(members, KeyIs(KeyOf, MemberKey(roomId, caller.sub)));
      r := Ok(Detail(rooms[found.value], isMember));
      assert rooms[found.value].id == roomId && rooms[found.value].isActive;
    }

    /** `delete_collab_room`: 404 for a missing room (active or not), 403
        unless the caller created it; otherwise exactly that room goes.
        Memberships are left as they are. */
    method DeleteCollabRoom(roomId: Id, caller: Caller) returns (r: Result<()>)
      requires Valid()
      modifies this
      ensures Valid()
      ensures members == old(members) && nextId == old(nextId) && clock == old(clock)
      ensures var a := FindOwned(old(rooms), WithId(roomId), Creator, caller.sub);
        && (a.Err? ==> r == Err(a.failure) && rooms == old(rooms))
        && (a.Ok? ==> r == Ok(()) && rooms == RemoveAt(old(rooms), a.value))
    {
      var a := FindOwned(rooms, WithId(roomId), Creator, caller.sub);
      if a.Err? {
        return Err(a.failure);
      }
      StampedRemove(rooms, a.value, RoomId, RoomAt, nextId, clock);
      rooms := RemoveAt(rooms, a.value);
      r := Ok(());
    }

    /** `join_collab_room`: 404 unless the room is active; otherwise the
        caller's membership is upserted, leaving exactly one row for the pair. */
    method JoinCollabRoom(roomId: Id, caller: Caller) returns (r: Result<RoomDetail>)
      requires Valid()
      modifies this
      ensures Valid()
      ensures rooms == old(rooms) && clock == old(clock)
      ensures Find(old(rooms), ActiveWithId(roomId)).None? ==>
        r == Err(NotFound) && members == old(members) && nextId == old(nextId)
      ensures Find(old(rooms), ActiveWithId(roomId)).Some? ==>
        && r == Ok(Detail(old(rooms)[Find(old(rooms), ActiveWithId(roomId)).value], true))
        && members == Upsert(old(members), KeyOf, CollabMember(old(nextId), roomId, caller.sub, EmailOf(caller)), KeepId)
        && |Filter(members, KeyIs(KeyOf, MemberKey(roomId, caller.sub)))| == 1
        && nextId == old(nextId) + 1
    {
      var found := Find(rooms, ActiveWithId(roomId));
      if found.None? {
        return Err(NotFound);
      }
      var x := CollabMember(nextId, roomId, caller.sub, EmailOf(caller));
      assert roomId < nextId by { assert rooms[found.value].id == roomId; }
      JoinKeepsValid(rooms, members, nextId, clock, x);
      members := Upsert(members, KeyOf, x, KeepId);
      nextId := nextId + 1;
      r := Ok(Detail(rooms[found.value], true));
    }

    /** `leave_collab_room`: the caller's membership of that room goes, if
        there is one; no error either way. */
    method LeaveCollabRoom(roomId: Id, caller: Caller)
      requires Valid()
      modifies this
      ensures Valid()
      ensures rooms == old(rooms) && nextId == old(nextId) && clock == old(clock)
      ensures members == DeleteKey(old(members), KeyOf, MemberKey(roomId, caller.sub))
    {
      var left := DeleteKey(members, KeyOf, MemberKey(roomId, caller.sub));
      DeleteKeyUnique(members, KeyOf, MemberKey(roomId, caller.sub));
      var n := nextId;
      FilterKeeps(members, KeyIsNot(KeyOf, MemberKey(roomId, caller.sub)), (m: CollabMember) => m.roomId < n);
      members := left;
    }

    /** `save_collab_room_code`: 403 for a non-member, then 404 for a missing
        room; otherwise only that room's `code` changes. */
    method SaveCollabRoomCode(roomId: Id, caller: Caller, code: string) returns (r: Result<()>)
      requires Valid()
      modifies this
      ensures Valid()
      ensures members == old(members) && nextId == old(nextId) && clock == old(clock)
      ensures !Exists(old(members), KeyIs(KeyOf, MemberKey(roomId, caller.sub))) ==>
        r == Err(Forbidden) && rooms == old(rooms)
      ensures Exists(old(members), KeyIs(KeyOf, MemberKey(roomId, caller.sub))) && Find(old(rooms), WithId(roomId)).None? ==>
        r == Err(NotFound) && rooms == old(rooms)
      ensures Exists(old(members), KeyIs(KeyOf, MemberKey(roomId, caller.sub))) && Find(old(rooms), WithId(roomId)).Some? ==>
        var k := Find(old(rooms), WithId(roomId)).value;
        r == Ok(()) && rooms == old(rooms)[k := old(rooms)[k].(code := code)]
    {
      if !Exists(members, KeyIs(KeyOf, MemberKey(roomId, caller.sub))) {
        return Err(Forbidden);
      }
      var found := Find(rooms, WithId(roomId));
      if found.None? {
        return Err(NotFound);
      }
      var k := found.value;
      var row := rooms[k].(code := code);
      StampedReplace(rooms, k, row, RoomId, RoomAt, nextId, clock);
      rooms := rooms[k := row];
      r := Ok(());
    }
  }

  /** Leaving removes only the caller's membership of that room, and leaving
      twice is leaving once. */
  lemma LeaveScoped(members: seq<CollabMember>, roomId: Id, caller: Caller, other: MemberKey)
    requires other != MemberKey(roomId, caller.sub)
    ensures var left := DeleteKey(members, KeyOf, MemberKey(roomId, caller.sub));
      && Filter(left, KeyIs(KeyOf, other)) == Filter(members, KeyIs(KeyOf, other))
      && (forall i :: 0 <= i < |left| ==> KeyOf(left[i]) != MemberKey(roomId, caller.sub))
      && DeleteKey(left, KeyOf, MemberKey(roomId, caller.sub)) == left
  {
    DeleteKeyFacts(members, KeyOf, MemberKey(roomId, caller.sub), other);
  }
}
