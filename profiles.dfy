/** Public user profiles (backend/app/routers/profiles.py): the caller's
    create-or-update with its request-body bounds, lookup by username, and a
    profile's submissions and comments newest first. The `profiles` table has
    `user_id` and `username` unique and `username` not null; a write that
    breaks one of these is a store error the handler reports as 500. */
module Profiles {
  import opened Common
  import opened Query
  import Submissions
  import Comments

  datatype Profile = Profile(
    id: Id, userId: string, username: string, bio: Option<string>, avatarUrl: Option<string>, createdAt: int)

  /** `ProfileUpdate` as received: every field may be absent. */
  datatype ProfileUpdate = ProfileUpdate(username: Option<string>, bio: Option<string>, avatarUrl: Option<string>)

  const MaxUsername: nat := 50
  const MaxBio: nat := 500
  const MaxAvatarUrl: nat := 500

  function ProfileId(p: Profile): int { p.id }
  function ProfileAt(p: Profile): int { p.createdAt }
  function UserOf(p: Profile): string { p.userId }
  function NameOf(p: Profile): string { p.username }
  function NameIs(name: string): Profile -> bool { (p: Profile) => p.username == name }

  /** The field bounds of `ProfileUpdate`; an absent field is not checked. */
  predicate Acceptable(b: ProfileUpdate) {
    && (b.username.None? || Within(b.username.value, 1, MaxUsername))
    && (b.bio.None? || |b.bio.value| <= MaxBio)
    && (b.avatarUrl.None? || |b.avatarUrl.value| <= MaxAvatarUrl)
  }

  /** The `updates` dict: the columns whose field is not `None`, with their
      values. */
  function Updates(b: ProfileUpdate): (u: map<string, string>)
    ensures forall c :: c in u ==> c == "username" || c == "bio" || c == "avatar_url"
    ensures "username" in u <==> b.username.Some?
    ensures "bio" in u <==> b.bio.Some?
    ensures "avatar_url" in u <==> b.avatarUrl.Some?
    ensures b.username.Some? ==> u["username"] == b.username.value
    ensures b.bio.Some? ==> u["bio"] == b.bio.value
    ensures b.avatarUrl.Some? ==> u["avatar_url"] == b.avatarUrl.value
    ensures u == map[] <==> b.username.None? && b.bio.None? && b.avatarUrl.None?
  {
    var u0: map<string, string> := map[];
    var u1 := if b.username.Some? then u0["username" := b.username.value] else u0;
    var u2 := if b.bio.Some? then u1["bio" := b.bio.value] else u1;
    var u3 := if b.avatarUrl.Some? then u2["avatar_url" := b.avatarUrl.value] else u2;
    assert b.username.Some? ==> "username" in u3;
    u3
  }

  /** `update(updates)` on one row: the columns in `u` take their new values. */
  function Apply(p: Profile, u: map<string, string>): (q: Profile)
    ensures q.id == p.id && q.userId == p.userId && q.createdAt == p.createdAt
    ensures "username" in u ==> q.username == u["username"]
    ensures "username" !in u ==> q.username == p.username
    ensures "bio" in u ==> q.bio == Some(u["bio"])
    ensures "bio" !in u ==> q.bio == p.bio
    ensures "avatar_url" in u ==> q.avatarUrl == Some(u["avatar_url"])
    ensures "avatar_url" !in u ==> q.avatarUrl == p.avatarUrl
  {
    p.(username := if "username" in u then u["username"] else p.username,
       bio := if "bio" in u then Some(u["bio"]) else p.bio,
       avatarUrl := if "avatar_url" in u then Some(u["avatar_url"]) else p.avatarUrl)
  }

  /** Sending the same update again changes nothing more. */
  lemma ApplyIdempotent(p: Profile, b: ProfileUpdate)
    ensures Apply(Apply(p, Updates(b)), Updates(b)) == Apply(p, Updates(b))
  {
  }

  /** After an update every supplied field reads back as sent and every other
      field as before. */
  lemma ApplyReadsBack(p: Profile, b: ProfileUpdate)
    ensures var q := Apply(p, Updates(b));
      && q.username == Given(b.username, p.username)
      && q.bio == (if b.bio.Some? then b.bio else p.bio)
      && q.avatarUrl == (if b.avatarUrl.Some? then b.avatarUrl else p.avatarUrl)
      && q.id == p.id && q.userId == p.userId && q.createdAt == p.createdAt
  {
  }

  /** A row of another user already holds `name`. */
  predicate TakenByOther(rows: seq<Profile>, name: string, user: string) {
    exists i :: 0 <= i < |rows| && rows[i].username == name && rows[i].userId != user
  }

  /** The columns of `submissions` the profile page selects. */
  datatype SubmissionSummary = SubmissionSummary(
    id: Id, title: string, language: string, status: string, createdAt: int, userEmail: string)

  /** The columns of `comments` the activity page selects. */
  datatype CommentActivity = CommentActivity(id: Id, submissionId: Id, body: string, createdAt: int, userEmail: string)

  function SummaryOf(s: Submissions.Submission): SubmissionSummary {
    SubmissionSummary(s.id, s.title, s.language, s.status, s.createdAt, s.userEmail)
  }

  function ActivityOf(c: Comments.Comment): CommentActivity {
    CommentActivity(c.id, c.submissionId, c.body, c.createdAt, c.userEmail)
  }

  function SubmittedBy(u: string): Submissions.Submission -> bool { (s: Submissions.Submission) => s.userId == u }
  function WrittenBy(u: string): Comments.Comment -> bool { (c: Comments.Comment) => c.userId == u }

  class ProfileTable {
    var rows: seq<Profile>
    var nextId: nat
    var clock: int

    /** Rows are stamped by the store; `user_id` and `username` are unique. */
    ghost predicate Valid()
      reads this
    {
      TableValid(rows, nextId, clock)
    }

    constructor ()
      ensures Valid() && rows == [] && nextId == 0 && clock == 0
    {
      rows := [];
      nextId := 0;
      clock := 0;
    }

    /** `update_my_profile`: 422 for a field out of bounds, 400 when no field
        is given; otherwise the caller's row is updated with the given fields,
        or inserted when there is none. An insert without a username or a
        username held by someone else is refused by the store (500). */
    method UpdateMyProfile(caller: Caller, body: ProfileUpdate) returns (r: Result<Profile>)
      requires Valid()
      modifies this
      ensures Valid()
      ensures r.Err? ==> rows == old(rows) && nextId == old(nextId) && clock == old(clock)
      ensures !Acceptable(body) ==> r == Err(Unprocessable)
      ensures Acceptable(body) && Updates(body) == map[] ==> r == Err(BadRequest)
      ensures Acceptable(body) && Updates(body) != map[] && Find(old(rows), KeyIs(UserOf, caller.sub)).Some? ==>
        var k := Find(old(rows), KeyIs(UserOf, caller.sub)).value;
        var p := Apply(old(rows)[k], Updates(body));
        if TakenByOther(old(rows), p.username, caller.sub) then r == Err(Internal)
        else r == Ok(p) && rows == old(rows)[k := p] && nextId == old(nextId) && clock == old(clock)
      ensures Acceptable(body) && Updates(body) != map[] && Find(old(rows), KeyIs(UserOf, caller.sub)).None? ==>
        if body.username.None? || TakenByOther(old(rows), body.username.value, caller.sub) then r == Err(Internal)
        else
          && r == Ok(Profile(old(nextId), caller.sub, body.username.value, body.bio, body.avatarUrl, old(clock)))
          && rows == old(rows) + [r.value]
          && nextId == old(nextId) + 1 && clock == old(clock) + 1
      ensures r.Ok? ==> r.value in rows && r.value.userId == caller.sub
      ensures r.Ok? ==> |Filter(rows, KeyIs(UserOf, caller.sub))| == 1
      ensures r.Ok? && body.username.Some? ==> r.value.username == body.username.value
      ensures r.Ok? && body.bio.Some? ==> r.value.bio == body.bio
      ensures r.Ok? && body.avatarUrl.Some? ==> r.value.avatarUrl == body.avatarUrl
    {
      if !Acceptable(body) {
        return Err(Unprocessable);
      }
      var updates := Updates(body);
      if updates == map[] {
        return Err(BadRequest);
      }
      var existing := Find(rows, KeyIs(UserOf, caller.sub));
      if existing.Some? {
        r := UpdateOwnRow(caller, body, existing.value);
      } else {
        r := InsertOwnRow(caller, body);
      }
    }

    /** The update branch of `update_my_profile`: the caller's row `k` takes
        the supplied fields, unless another user holds the new username. */
    method UpdateOwnRow(caller: Caller, body: ProfileUpdate, k: nat) returns (r: Result<Profile>)
      requires Valid() && k < |rows| && rows[k].userId == caller.sub
      modifies this
      ensures Valid()
      ensures var p := Apply(old(rows)[k], Updates(body));
        if TakenByOther(old(rows), p.username, caller.sub) then
          r == Err(Internal) && rows == old(rows) && nextId == old(nextId) && clock == old(clock)
        else r == Ok(p) && rows == old(rows)[k := p] && nextId == old(nextId) && clock == old(clock)
      ensures r.Ok? ==> r.value in rows && r.value.userId == caller.sub
      ensures r.Ok? ==> |Filter(rows, KeyIs(UserOf, caller.sub))| == 1
      ensures r.Ok? && body.username.Some? ==> r.value.username == body.username.value
      ensures r.Ok? && body.bio.Some? ==> r.value.bio == body.bio
      ensures r.Ok? && body.avatarUrl.Some? ==> r.value.avatarUrl == body.avatarUrl
    {
      var p := Apply(rows[k], Updates(body));
      if TakenByOther(rows, p.username, caller.sub) {
        return Err(Internal);
      }
      ApplyReadsBack(rows[k], body);
      ReplaceKeepsValid(rows, nextId, clock, k, p, caller.sub);
      rows := rows[k := p];
      assert rows[k] == p;
      r := Ok(p);
    }

    /** The insert branch of `update_my_profile`: a first row for the caller,
        which needs a username no other user holds. */
    method InsertOwnRow(caller: Caller, body: ProfileUpdate) returns (r: Result<Profile>)
      requires Valid() && forall i :: 0 <= i < |rows| ==> rows[i].userId != caller.sub
      modifies this
      ensures Valid()
      ensures if body.username.None? || TakenByOther(old(rows), body.username.value, caller.sub) then
          r == Err(Internal) && rows == old(rows) && nextId == old(nextId) && clock == old(clock)
        else
          && r == Ok(Profile(old(nextId), caller.sub, body.username.value, body.bio, body.avatarUrl, old(clock)))
          && rows == old(rows) + [r.value]
          && nextId == old(nextId) + 1 && clock == old(clock) + 1
      ensures r.Ok? ==> r.value in rows && r.value.userId == caller.sub
      ensures r.Ok? ==> |Filter(rows, KeyIs(UserOf, caller.sub))| == 1
    {
      if body.username.None? || TakenByOther(rows, body.username.value, caller.sub) {
        return Err(Internal);
      }
      var p := Profile(nextId, caller.sub, body.username.value, body.bio, body.avatarUrl, clock);
      AppendKeepsValid(rows, nextId, clock, p);
      rows := rows + [p];
      nextId := nextId + 1;
      clock := clock + 1;
      assert rows[|rows| - 1] == p;
      r := Ok(p);
    }

    /** `get_profile`: the profile holding the username, or 404. */
    method GetProfile(username: string) returns (r: Result<Profile>)
      requires Valid()
      ensures r.Err? <==> forall i :: 0 <= i < |rows| ==> rows[i].username != username
      ensures r.Err? ==> r.failure == NotFound
      ensures r.Ok? ==> r.value in rows && r.value.username == username
    {
      var found := Find(rows, NameIs(username));
      if found.None? {
        return Err(NotFound);
      }
      r := Ok(rows[found.value]);
    }

    /** `get_user_submissions`: 404 for an unknown username; otherwise the
        selected columns of every submission of that profile's user, and only
        those, newest first. */
    method GetUserSubmissions(username: string, subs: Submissions.SubmissionTable)
      returns (r: Result<seq<SubmissionSummary>>)
      requires Valid() && subs.Valid()
      ensures r.Err? <==> forall i :: 0 <= i < |rows| ==> rows[i].username != username
      ensures r.Err? ==> r.failure == NotFound
      ensures r.Ok? ==>
        exists k :: 0 <= k < |rows| && rows[k].username == username && Owns(rows[k].userId, subs.rows, r.value)
    {
      var found := Find(rows, NameIs(username));
      if found.None? {
        return Err(NotFound);
      }
      var uid := rows[found.value].userId;
      StampedAscending(subs.rows, Submissions.SubmissionId, Submissions.SubmissionAt, subs.nextId, subs.clock);
      var own := NewestFirst(subs.rows, SubmittedBy(uid));
      var listed := Project(own, SummaryOf);
      SubmissionsListed(subs.rows, uid, listed);
      r := Ok(listed);
    }

    /** `get_user_activity`: 404 for an unknown username; otherwise the
        selected columns of every comment of that profile's user, and only
        those, newest first. */
    method GetUserActivity(username: string, comments: Comments.CommentTable)
      returns (r: Result<seq<CommentActivity>>)
      requires Valid() && comments.Valid()
      ensures r.Err? <==> forall i :: 0 <= i < |rows| ==> rows[i].username != username
      ensures r.Err? ==> r.failure == NotFound
      ensures r.Ok? ==>
        exists k :: 0 <= k < |rows| && rows[k].username == username && Wrote(rows[k].userId, comments.rows, r.value)
    {
      var found := Find(rows, NameIs(username));
      if found.None? {
        return Err(NotFound);
      }
      var uid := rows[found.value].userId;
      StampedAscending(comments.rows, Comments.CommentId, Comments.CommentAt, comments.nextId, comments.clock);
      var own := NewestFirst(comments.rows, WrittenBy(uid));
      var listed := Project(own, ActivityOf);
      ActivityListed(comments.rows, uid, listed);
      r := Ok(listed);
    }
  }

  /** `listed` is the user's submissions and only those, newest first. */
  ghost predicate Owns(uid: string, subs: seq<Submissions.Submission>, listed: seq<SubmissionSummary>) {
    && |listed| == |Filter(subs, SubmittedBy(uid))|
    && (forall i :: 0 <= i < |listed| ==>
          exists j :: 0 <= j < |subs| && subs[j].userId == uid && listed[i] == SummaryOf(subs[j]))
    && (forall j :: 0 <= j < |subs| && subs[j].userId == uid ==> SummaryOf(subs[j]) in listed)
    && (forall i, j :: 0 <= i < j < |listed| ==> listed[i].createdAt > listed[j].createdAt)
  }

  /** `listed` is the user's comments and only those, newest first. */
  ghost predicate Wrote(uid: string, comments: seq<Comments.Comment>, listed: seq<CommentActivity>) {
    && |listed| == |Filter(comments, WrittenBy(uid))|
    && (forall i :: 0 <= i < |listed| ==>
          exists j :: 0 <= j < |comments| && comments[j].userId == uid && listed[i] == ActivityOf(comments[j]))
    && (forall j :: 0 <= j < |comments| && comments[j].userId == uid ==> ActivityOf(comments[j]) in listed)
    && (forall i, j :: 0 <= i < j < |listed| ==> listed[i].createdAt > listed[j].createdAt)
  }

  lemma SubmissionsListed(subs: seq<Submissions.Submission>, uid: string, listed: seq<SubmissionSummary>)
    requires Ascending(subs, Submissions.SubmissionAt)
    requires listed == Project(NewestFirst(subs, SubmittedBy(uid)), SummaryOf)
    ensures Owns(uid, subs, listed)
  {
    var own := NewestFirst(subs, SubmittedBy(uid));
    NewestFirstFacts(subs, SubmittedBy(uid), Submissions.SubmissionAt);
    ProjectNewestFirst(subs, SubmittedBy(uid), Submissions.SubmissionAt, SummaryOf, listed);
    forall i, j | 0 <= i < j < |listed| ensures listed[i].createdAt > listed[j].createdAt {
      assert Submissions.SubmissionAt(own[i]) > Submissions.SubmissionAt(own[j]);
    }
  }

  lemma ActivityListed(comments: seq<Comments.Comment>, uid: string, listed: seq<CommentActivity>)
    requires Ascending(comments, Comments.CommentAt)
    requires listed == Project(NewestFirst(comments, WrittenBy(uid)), ActivityOf)
    ensures Wrote(uid, comments, listed)
  {
    var own := NewestFirst(comments, WrittenBy(uid));
    NewestFirstFacts(comments, WrittenBy(uid), Comments.CommentAt);
    ProjectNewestFirst(comments, WrittenBy(uid), Comments.CommentAt, ActivityOf, listed);
    forall i, j | 0 <= i < j < |listed| ensures listed[i].createdAt > listed[j].createdAt {
      assert Comments.CommentAt(own[i]) > Comments.CommentAt(own[j]);
    }
  }

  /** What the table keeps between requests: rows stamped by the store and
      `user_id` and `username` unique. */
  ghost predicate TableValid(rows: seq<Profile>, nextId: int, clock: int) {
    && Stamped(rows, ProfileId, ProfileAt, nextId, clock)
    && UniqueBy(rows, UserOf)
    && UniqueBy(rows, NameOf)
  }

  /** Updating the caller's row in place keeps the table valid and the
      caller's row the only one. */
  lemma ReplaceKeepsValid(rows: seq<Profile>, nextId: int, clock: int, k: nat, p: Profile, user: string)
    requires TableValid(rows, nextId, clock) && k < |rows|
    requires rows[k].userId == user && p.userId == user
    requires p.id == rows[k].id && p.createdAt == rows[k].createdAt
    requires !TakenByOther(rows, p.username, user)
    ensures TableValid(rows[k := p], nextId, clock)
    ensures |Filter(rows[k := p], KeyIs(UserOf, user))| == 1
  {
    StampedReplace(rows, k, p, ProfileId, ProfileAt, nextId, clock);
    ReplaceUnique(rows, k, p, user);
    UniqueSingleKey(rows[k := p], UserOf, k);
  }

  /** Inserting a first row for a user, stamped by the counters and with a
      free username, keeps the table valid and makes it that user's only row. */
  lemma AppendKeepsValid(rows: seq<Profile>, nextId: int, clock: int, p: Profile)
    requires TableValid(rows, nextId, clock)
    requires p.id == nextId && p.createdAt == clock
    requires forall i :: 0 <= i < |rows| ==> rows[i].userId != p.userId
    requires !TakenByOther(rows, p.username, p.userId)
    ensures TableValid(rows + [p], nextId + 1, clock + 1)
    ensures |Filter(rows + [p], KeyIs(UserOf, p.userId))| == 1
  {
    StampedAppend(rows, p, ProfileId, ProfileAt, nextId, clock);
    UniqueByAppend(rows, p, UserOf);
    forall i | 0 <= i < |rows| ensures NameOf(rows[i]) != NameOf(p) {
      assert rows[i].userId != p.userId;
    }
    UniqueByAppend(rows, p, NameOf);
    UniqueSingleKey(rows + [p], UserOf, |rows|);
  }

  /** Replacing the caller's row by its update keeps both unique columns
      unique when no other user holds the new username. */
  lemma ReplaceUnique(rows: seq<Profile>, k: nat, p: Profile, user: string)
    requires k < |rows| && UniqueBy(rows, UserOf) && UniqueBy(rows, NameOf)
    requires rows[k].userId == user && p.userId == user
    requires !TakenByOther(rows, p.username, user)
    ensures UniqueBy(rows[k := p], UserOf) && UniqueBy(rows[k := p], NameOf)
  {
    var t := rows[k := p];
    forall i, j | 0 <= i < j < |t| ensures UserOf(t[i]) != UserOf(t[j]) && NameOf(t[i]) != NameOf(t[j]) {
      if i == k {
        assert rows[j].userId != user;
      } else if j == k {
        assert rows[i].userId != user;
      }
    }
  }
}
