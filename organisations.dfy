/** Organisations (backend/app/routers/organisations.py): the `organisations`,
    `organisation_members` and `org_chat_messages` tables, joins by invite
    code, and membership-gated reads and chat. */
module Organisations {
  import opened Common
  import opened Query
  import opened Text

  /** An `organisations` row; `invite_code` is filled in by the store. */
  datatype Organisation = Organisation(id: Id, name: string, createdBy: string, inviteCode: string, createdAt: int)

  datatype OrgMember = OrgMember(id: Id, organisationId: Id, userId: string, role: string)

  /** The unique key of `organisation_members`. */
  datatype OrgKey = OrgKey(organisationId: Id, userId: string)

  datatype OrgChatMessage = OrgChatMessage(id: Id, organisationId: Id, userId: string, content: string, createdAt: int)

  const DefaultName: string := "New Organisation"
  const AdminRole: string := "admin"
  const MemberRole: string := "member"

  function OrgId(o: Organisation): int { o.id }
  function OrgAt(o: Organisation): int { o.createdAt }
  function InviteOf(o: Organisation): string { o.inviteCode }
  function WithId(id: Id): Organisation -> bool { (o: Organisation) => o.id == id }
  function InviteIs(code: string): Organisation -> bool { (o: Organisation) => o.inviteCode == code }
  function IdIn(ids: seq<Id>): Organisation -> bool { (o: Organisation) => o.id in ids }

  function KeyOf(m: OrgMember): OrgKey { OrgKey(m.organisationId, m.userId) }
  function ByUser(u: string): OrgMember -> bool { (m: OrgMember) => m.userId == u }
  function InOrg(id: Id): OrgMember -> bool { (m: OrgMember) => m.organisationId == id }
  /** The upsert writes the given columns and keeps the row's id. */
  function KeepId(prev: OrgMember, x: OrgMember): OrgMember { x.(id := prev.id) }

  function MessageId(m: OrgChatMessage): int { m.id }
  function MessageAt(m: OrgChatMessage): int { m.createdAt }
  function ChatIn(id: Id): OrgChatMessage -> bool { (m: OrgChatMessage) => m.organisationId == id }

  /** The membership check every gated handler starts with. */
  predicate IsMember(members: seq<OrgMember>, orgId: Id, user: string) {
    Exists(members, KeyIs(KeyOf, OrgKey(orgId, user)))
  }

  /** Organisations `user` belongs to, as a condition on the organisation. */
  function MemberOf(members: seq<OrgMember>, user: string): Organisation -> bool {
    (o: Organisation) => IsMember(members, o.id, user)
  }

  class OrgTables {
    var orgs: seq<Organisation>
    var members: seq<OrgMember>
    var chat: seq<OrgChatMessage>
    var nextId: nat
    var clock: int

    /** Both row tables are stamped by the store; invite codes are unique;
        memberships are unique per (organisation, user) and name handed-out
        organisation ids. */
    ghost predicate Valid()
      reads this
    {
      && Stamped(orgs, OrgId, OrgAt, nextId, clock)
      && Stamped(chat, MessageId, MessageAt, nextId, clock)
      && UniqueBy(orgs, InviteOf)
      && UniqueBy(members, KeyOf)
      && (forall i :: 0 <= i < |members| ==> members[i].organisationId < nextId)
    }

    constructor ()
      ensures Valid() && orgs == [] && members == [] && chat == [] && nextId == 0 && clock == 0
    {
      orgs := [];
      members := [];
      chat := [];
      nextId := 0;
      clock := 0;
    }

    /** `get_my_organisations`: exactly the organisations the caller belongs to. */
    method GetMyOrganisations(caller: Caller) returns (r: seq<Organisation>)
      requires Valid()
      ensures r == Filter(orgs, MemberOf(members, caller.sub))
      ensures (forall i :: 0 <= i < |members| ==> members[i].userId != caller.sub) ==> r == []
    {
      var mine := Filter(members, ByUser(caller.sub));
      if mine == [] {
        assert forall j :: 0 <= j < |members| ==> members[j].userId != caller.sub;
        forall k | 0 <= k < |orgs| ensures !MemberOf(members, caller.sub)(orgs[k]) {
          forall j | 0 <= j < |members| ensures !KeyIs(KeyOf, OrgKey(orgs[k].id, caller.sub))(members[j]) {
            assert members[j].userId != caller.sub;
          }
        }
        FilterNone(orgs, MemberOf(members, caller.sub));
        return [];
      }
      var ids := seq(|mine|, i requires 0 <= i < |mine| => mine[i].organisationId);
      SelectedByMembership(orgs, members, caller.sub, mine, ids);
      r := Filter(orgs, IdIn(ids));
      assert mine[0] in members && mine[0].userId == caller.sub;
      var j0 :| 0 <= j0 < |members| && members[j0] == mine[0];
      assert members[j0].userId == caller.sub;
    }

    /** `create_organisation`: the name defaults to "New Organisation" and the
        creator becomes an admin. `inviteCode` is the value the store fills in. */
    method CreateOrganisation(caller: Caller, name: Option<string>, inviteCode: string) returns (r: Organisation)
      requires Valid()
      requires forall i :: 0 <= i < |orgs| ==> orgs[i].inviteCode != inviteCode
      modifies this
      ensures Valid()
      ensures r == Organisation(old(nextId), OrDefault(name, DefaultName), caller.sub, inviteCode, old(clock))
      ensures orgs == old(orgs) + [r] && chat == old(chat)
      ensures members == old(members) + [OrgMember(old(nextId) + 1, r.id, caller.sub, AdminRole)]
      ensures nextId == old(nextId) + 2 && clock == old(clock) + 1
    {
      r := Organisation(nextId, OrDefault(name, DefaultName), caller.sub, inviteCode, clock);
      var m := OrgMember(nextId + 1, r.id, caller.sub, AdminRole);
      StampedAppend(orgs, r, OrgId, OrgAt, nextId, clock);
      StampedGrow(orgs + [r], OrgId, OrgAt, nextId + 1, clock + 1, nextId + 2, clock + 1);
      StampedGrow(chat, MessageId, MessageAt, nextId, clock, nextId + 2, clock + 1);
      UniqueByAppend(orgs, r, InviteOf);
      UniqueByAppend(members, m, KeyOf);
      orgs := orgs + [r];
      members := members + [m];
      nextId := nextId + 2;
      clock := clock + 1;
    }

    /** `join_organisation_by_code`: 400 for a missing or empty code, 404 for
        an unknown one; otherwise the caller's membership is upserted with role
        "member", leaving one row for the pair. */
    method JoinOrganisationByCode(caller: Caller, inviteCode: Option<string>) returns (r: Result<Id>)
      requires Valid()
      modifies this
      ensures Valid()
      ensures orgs == old(orgs) && chat == old(chat) && clock == old(clock)
      ensures inviteCode.None? || inviteCode.value == "" ==>
        r == Err(BadRequest) && members == old(members) && nextId == old(nextId)
      ensures inviteCode.Some? && inviteCode.value != "" && Find(old(orgs), InviteIs(inviteCode.value)).None? ==>
        r == Err(NotFound) && members == old(members) && nextId == old(nextId)
      ensures inviteCode.Some? && inviteCode.value != "" && Find(old(orgs), InviteIs(inviteCode.value)).Some? ==>
        var org := old(orgs)[Find(old(orgs), InviteIs(inviteCode.value)).value];
        && r == Ok(org.id)
        && members == Upsert(old(members), KeyOf, OrgMember(old(nextId), org.id, caller.sub, MemberRole), KeepId)
        && |Filter(members, KeyIs(KeyOf, OrgKey(org.id, caller.sub)))| == 1
        && nextId == old(nextId) + 1
    {
      if inviteCode.None? || inviteCode.value == "" {
        return Err(BadRequest);
      }
      var found := Find(orgs, InviteIs(inviteCode.value));
      if found.None? {
        return Err(NotFound);
      }
      var org := orgs[found.value];
      var x := OrgMember(nextId, org.id, caller.sub, MemberRole);
      UpsertUnique(members, KeyOf, x, KeepId);
      var joined := Upsert(members, KeyOf, x, KeepId);
      forall i | 0 <= i < |joined| ensures joined[i].organisationId < nextId + 1 {
        if joined[i] in members {
          var j :| 0 <= j < |members| && members[j] == joined[i];
        }
      }
      StampedGrow(orgs, OrgId, OrgAt, nextId, clock, nextId + 1, clock);
      StampedGrow(chat, MessageId, MessageAt, nextId, clock, nextId + 1, clock);
      members := joined;
      nextId := nextId + 1;
      r := Ok(org.id);
    }

    /** `get_organisation`: 404 for a missing organisation, then 403 for a
        non-member. */
    method GetOrganisation(orgId: Id, caller: Caller) returns (r: Result<Organisation>)
      requires Valid()
      ensures Find(orgs, WithId(orgId)).None? ==> r == Err(NotFound)
      ensures Find(orgs, WithId(orgId)).Some? && !IsMember(members, orgId, caller.sub) ==> r == Err(Forbidden)
      ensures Find(orgs, WithId(orgId)).Some? && IsMember(members, orgId, caller.sub) ==>
        r == Ok(orgs[Find(orgs, WithId(orgId)).value])
      ensures r.Ok? ==> r.value in orgs && r.value.id == orgId
    {
      var found := Find(orgs, WithId(orgId));
      if found.None? {
        return Err(NotFound);
      }
      if !IsMember(members, orgId, caller.sub) {
        return Err(Forbidden);
      }
      r := Ok(orgs[found.value]);
    }

    /** `list_organisation_members`: 403 for a non-member; otherwise every
        membership of the organisation. */
    method ListOrganisationMembers(orgId: Id, caller: Caller) returns (r: Result<seq<OrgMember>>)
      requires Valid()
      ensures !IsMember(members, orgId, caller.sub) ==> r == Err(Forbidden)
      ensures IsMember(members, orgId, caller.sub) ==> r == Ok(Filter(members, InOrg(orgId)))
      ensures r.Ok? ==> exists i :: 0 <= i < |r.value| && r.value[i].userId == caller.sub
    {
      if !IsMember(members, orgId, caller.sub) {
        return Err(Forbidden);
      }
      var j :| 0 <= j < |members| && KeyIs(KeyOf, OrgKey(orgId, caller.sub))(members[j]);
      var listed := Filter(members, InOrg(orgId));
      assert members[j] in listed;
      r := Ok(listed);
    }

    /** `list_org_chat_messages`: 403 for a non-member; otherwise the
        organisation's messages, oldest first. */
    method ListOrgChatMessages(orgId: Id, caller: Caller) returns (r: Result<seq<OrgChatMessage>>)
      requires Valid()
      ensures !IsMember(members, orgId, caller.sub) ==> r == Err(Forbidden)
      ensures IsMember(members, orgId, caller.sub) ==> r == Ok(Filter(chat, ChatIn(orgId)))
      ensures r.Ok? ==> Ascending(r.value, MessageAt)
    {
      if !IsMember(members, orgId, caller.sub) {
        return Err(Forbidden);
      }
      StampedAscending(chat, MessageId, MessageAt, nextId, clock);
      AscendingFilter(chat, ChatIn(orgId), MessageAt);
      r := Ok(Filter(chat, ChatIn(orgId)));
    }

    /** `leave_organisation`: 404 for a missing organisation; otherwise the
        caller's own membership goes, whatever its role. */
    method LeaveOrganisation(orgId: Id, caller: Caller) returns (r: Result<()>)
      requires Valid()
      modifies this
      ensures Valid()
      ensures orgs == old(orgs) && chat == old(chat) && nextId == old(nextId) && clock == old(clock)
      ensures Find(old(orgs), WithId(orgId)).None? ==> r == Err(NotFound) && members == old(members)
      ensures Find(old(orgs), WithId(orgId)).Some? ==>
        r == Ok(()) && members == DeleteKey(old(members), KeyOf, OrgKey(orgId, caller.sub))
    {
      if Find(orgs, WithId(orgId)).None? {
        return Err(NotFound);
      }
      var left := DeleteKey(members, KeyOf, OrgKey(orgId, caller.sub));
      DeleteKeyUnique(members, KeyOf, OrgKey(orgId, caller.sub));
      var n := nextId;
      FilterKeeps(members, KeyIsNot(KeyOf, OrgKey(orgId, caller.sub)), (m: OrgMember) => m.organisationId < n);
      members := left;
      r := Ok(());
    }

    /** `post_org_chat_message`: 403 for a non-member, 400 when the content is
        blank; otherwise the stripped content is stored. */
    method PostOrgChatMessage(orgId: Id, caller: Caller, content: Option<string>) returns (r: Result<OrgChatMessage>)
      requires Valid()
      modifies this
      ensures Valid()
      ensures orgs == old(orgs) && members == old(members)
      ensures !IsMember(old(members), orgId, caller.sub) ==>
        r == Err(Forbidden) && chat == old(chat) && nextId == old(nextId) && clock == old(clock)
      ensures IsMember(old(members), orgId, caller.sub) && Strip(OrDefault(content, "")) == "" ==>
        r == Err(BadRequest) && chat == old(chat) && nextId == old(nextId) && clock == old(clock)
      ensures IsMember(old(members), orgId, caller.sub) && Strip(OrDefault(content, "")) != "" ==>
        && r == Ok(OrgChatMessage(old(nextId), orgId, caller.sub, Strip(OrDefault(content, "")), old(clock)))
        && chat == old(chat) + [r.value]
        && nextId == old(nextId) + 1 && clock == old(clock) + 1
      ensures r.Ok? ==> r.value.content != "" && Strip(r.value.content) == r.value.content
    {
      if !IsMember(members, orgId, caller.sub) {
        return Err(Forbidden);
      }
      var text := Strip(OrDefault(content, ""));
      if text == "" {
        return Err(BadRequest);
      }
      StripIdempotent(OrDefault(content, ""));
      var row := OrgChatMessage(nextId, orgId, caller.sub, text, clock);
      StampedAppend(chat, row, MessageId, MessageAt, nextId, clock);
      StampedGrow(orgs, OrgId, OrgAt, nextId, clock, nextId + 1, clock + 1);
      chat := chat + [row];
      nextId := nextId + 1;
      clock := clock + 1;
      r := Ok(row);
    }
  }

  /** Joining twice by code leaves the table as one join left it. */
  lemma JoinTwiceOneRow(members: seq<OrgMember>, orgId: Id, caller: Caller, id1: Id, id2: Id)
    requires UniqueBy(members, KeyOf)
    ensures var once := Upsert(members, KeyOf, OrgMember(id1, orgId, caller.sub, MemberRole), KeepId);
            && Upsert(once, KeyOf, OrgMember(id2, orgId, caller.sub, MemberRole), KeepId) == once
            && |Filter(once, KeyIs(KeyOf, OrgKey(orgId, caller.sub)))| == 1
  {
    var x1 := OrgMember(id1, orgId, caller.sub, MemberRole);
    UpsertTwice(members, KeyOf, x1, OrgMember(id2, orgId, caller.sub, MemberRole), KeepId);
    UpsertUnique(members, KeyOf, x1, KeepId);
  }

  /** A join never touches another user's or another organisation's membership. */
  lemma JoinLeavesOthers(members: seq<OrgMember>, orgId: Id, caller: Caller, freshId: Id, other: OrgKey)
    requires other != OrgKey(orgId, caller.sub)
    ensures Filter(Upsert(members, KeyOf, OrgMember(freshId, orgId, caller.sub, MemberRole), KeepId), KeyIs(KeyOf, other))
         == Filter(members, KeyIs(KeyOf, other))
  {
    UpsertLeavesOthers(members, KeyOf, OrgMember(freshId, orgId, caller.sub, MemberRole), KeepId, other);
  }

  /** Leaving removes only the caller's membership of that organisation. */
  lemma LeaveScoped(members: seq<OrgMember>, orgId: Id, caller: Caller, other: OrgKey)
    requires other != OrgKey(orgId, caller.sub)
    ensures var left := DeleteKey(members, KeyOf, OrgKey(orgId, caller.sub));
      && Filter(left, KeyIs(KeyOf, other)) == Filter(members, KeyIs(KeyOf, other))
      && !IsMember(left, orgId, caller.sub)
  {
    DeleteKeyFacts(members, KeyOf, OrgKey(orgId, caller.sub), other);
  }

  /** The `in_("id", org_ids)` query selects exactly the caller's organisations. */
  lemma SelectedByMembership(orgs: seq<Organisation>, members: seq<OrgMember>, me: string, mine: seq<OrgMember>, ids: seq<Id>)
    requires mine == Filter(members, ByUser(me))
    requires |ids| == |mine| && forall i :: 0 <= i < |mine| ==> ids[i] == mine[i].organisationId
    ensures Filter(orgs, IdIn(ids)) == Filter(orgs, MemberOf(members, me))
  {
    forall k | 0 <= k < |orgs| ensures IdIn(ids)(orgs[k]) <==> MemberOf(members, me)(orgs[k]) {
      if IsMember(members, orgs[k].id, me) {
        MembershipListed(members, me, mine, ids, orgs[k].id);
      }
      if orgs[k].id in ids {
        ListedMembership(members, me, mine, ids, orgs[k].id);
      }
    }
    FilterEquiv(orgs, IdIn(ids), MemberOf(members, me));
  }

  /** An organisation the caller belongs to has its id among the selected ids. */
  lemma MembershipListed(members: seq<OrgMember>, me: string, mine: seq<OrgMember>, ids: seq<Id>, oid: Id)
    requires mine == Filter(members, ByUser(me))
    requires |ids| == |mine| && forall i :: 0 <= i < |mine| ==> ids[i] == mine[i].organisationId
    requires IsMember(members, oid, me)
    ensures oid in ids
  {
    var j :| 0 <= j < |members| && KeyIs(KeyOf, OrgKey(oid, me))(members[j]);
    assert KeyOf(members[j]) == OrgKey(oid, me);
    assert ByUser(me)(members[j]);
    assert members[j] in mine;
    var t :| 0 <= t < |mine| && mine[t] == members[j];
    assert ids[t] == oid;
  }

  /** A selected id is an organisation the caller belongs to. */
  lemma ListedMembership(members: seq<OrgMember>, me: string, mine: seq<OrgMember>, ids: seq<Id>, oid: Id)
    requires mine == Filter(members, ByUser(me))
    requires |ids| == |mine| && forall i :: 0 <= i < |mine| ==> ids[i] == mine[i].organisationId
    requires oid in ids
    ensures IsMember(members, oid, me)
  {
    var t :| 0 <= t < |ids| && ids[t] == oid;
    assert mine[t] in members && ByUser(me)(mine[t]);
    var j :| 0 <= j < |members| && members[j] == mine[t];
    assert KeyIs(KeyOf, OrgKey(oid, me))(members[j]);
  }
}
