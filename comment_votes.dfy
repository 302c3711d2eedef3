/** Per-comment up/down votes (backend/app/routers/comment_votes.py): the
    `comment_votes` table keyed by (comment, voter), the tally over it and the
    upsert/delete handlers that keep one row per key. */
module CommentVotes {
  import opened Common
  import opened Query

  datatype Vote = Vote(commentId: Id, userId: string, vote: int)

  datatype Tally = Tally(upvotes: nat, downvotes: nat, net: int, userVote: int)

  /** The reply of `upsert_vote`: `{vote: 0, net: 0}` after a removal, or the
      stored row. */
  datatype VoteReply = Cleared | Saved(row: Vote)

  function IsKey(c: Id, u: string): Vote -> bool {
    (v: Vote) => v.commentId == c && v.userId == u
  }

  function NotKey(c: Id, u: string): Vote -> bool {
    (v: Vote) => !(v.commentId == c && v.userId == u)
  }

  function OnComment(c: Id): Vote -> bool {
    (v: Vote) => v.commentId == c
  }

  function ByUser(u: string): Vote -> bool {
    (v: Vote) => v.userId == u
  }

  function HasValue(value: int): Vote -> bool {
    (v: Vote) => v.vote == value
  }

  /** `sum(1 for v in votes if v["vote"] == value)`: the number of rows the
      filter on that value keeps. */
  function CountOf(votes: seq<Vote>, value: int): (n: nat)
    ensures n <= |votes|
    ensures n == 0 <==> forall i :: 0 <= i < |votes| ==> votes[i].vote != value
    ensures n == |Filter(votes, HasValue(value))|
  {
    if votes == [] then 0
    else (if votes[0].vote == value then 1 else 0) + CountOf(votes[1..], value)
  }

  /** `next((v["vote"] for v in votes if v["user_id"] == user_id), 0)`. */
  function UserVote(votes: seq<Vote>, user: string): (v: int)
    ensures (forall i :: 0 <= i < |votes| ==> votes[i].userId != user) ==> v == 0
    ensures v != 0 ==> exists i :: 0 <= i < |votes| && votes[i].userId == user && votes[i].vote == v
  {
    match Find(votes, ByUser(user))
    case Some(k) => votes[k].vote
    case None => 0
  }

  /** `_tally`. */
  function TallyOf(votes: seq<Vote>, user: string): (t: Tally)
    ensures t.net == t.upvotes - t.downvotes
    ensures t.upvotes + t.downvotes <= |votes|
  {
    var up := CountOf(votes, 1);
    var down := CountOf(votes, -1);
    CountsDisjoint(votes);
    Tally(up, down, up - down, UserVote(votes, user))
  }

  lemma {:induction false} CountsDisjoint(votes: seq<Vote>)
    ensures CountOf(votes, 1) + CountOf(votes, -1) <= |votes|
  {
    if votes != [] {
      CountsDisjoint(votes[1..]);
    }
  }

  /** The table invariant: every stored vote is +1 or -1, and no two rows
      share a (comment, voter) key. */
  ghost predicate WellFormed(rows: seq<Vote>) {
    && (forall i :: 0 <= i < |rows| ==> rows[i].vote == 1 || rows[i].vote == -1)
    && (forall i, j :: 0 <= i < j < |rows| ==>
          !(rows[i].commentId == rows[j].commentId && rows[i].userId == rows[j].userId))
  }

  /** `delete().eq("comment_id", c).eq("user_id", u)`. */
  function Deleted(rows: seq<Vote>, c: Id, u: string): seq<Vote> {
    Filter(rows, NotKey(c, u))
  }

  /** `update({"vote": v}).eq("comment_id", c).eq("user_id", u)`. */
  function SetVote(rows: seq<Vote>, c: Id, u: string, v: int): (r: seq<Vote>)
    ensures |r| == |rows|
  {
    seq(|rows|, i requires 0 <= i < |rows| =>
      if rows[i].commentId == c && rows[i].userId == u then rows[i].(vote := v) else rows[i])
  }

  /** The state after `upsert_vote` with +1 or -1: the existing row updated,
      or one row inserted. */
  function Upserted(rows: seq<Vote>, c: Id, u: string, v: int): seq<Vote> {
    if Find(rows, IsKey(c, u)).Some? then SetVote(rows, c, u, v) else rows + [Vote(c, u, v)]
  }

  class VoteTable {
    var rows: seq<Vote>

    ghost predicate Valid()
      reads this
    {
      WellFormed(rows)
    }

    constructor ()
      ensures Valid() && rows == []
    {
      rows := [];
    }

    /** `upsert_vote`: 0 deletes the caller's row, +1/-1 update or insert it,
        any other value is a 400 that changes nothing. */
    method UpsertVote(commentId: Id, caller: Caller, vote: int) returns (r: Result<VoteReply>)
      requires Valid()
      modifies this
      ensures Valid()
      ensures vote == 0 ==> r == Ok(Cleared) && rows == Deleted(old(rows), commentId, caller.sub)
      ensures vote != 0 && vote != 1 && vote != -1 ==> r == Err(BadRequest) && rows == old(rows)
      ensures vote == 1 || vote == -1 ==>
        && r == Ok(Saved(Vote(commentId, caller.sub, vote)))
        && rows == Upserted(old(rows), commentId, caller.sub, vote)
    {
      if vote == 0 {
        DeletedWellFormed(rows, commentId, caller.sub);
        rows := Deleted(rows, commentId, caller.sub);
        return Ok(Cleared);
      }
      if vote != 1 && vote != -1 {
        return Err(BadRequest);
      }
      UpsertedWellFormed(rows, commentId, caller.sub, vote);
      var existing := Find(rows, IsKey(commentId, caller.sub));
      if existing.Some? {
        rows := SetVote(rows, commentId, caller.sub, vote);
      } else {
        rows := rows + [Vote(commentId, caller.sub, vote)];
      }
      r := Ok(Saved(Vote(commentId, caller.sub, vote)));
    }

    /** `remove_vote`. */
    method RemoveVote(commentId: Id, caller: Caller)
      requires Valid()
      modifies this
      ensures Valid()
      ensures rows == Deleted(old(rows), commentId, caller.sub)
    {
      DeletedWellFormed(rows, commentId, caller.sub);
      rows := Deleted(rows, commentId, caller.sub);
    }

    /** `get_comment_votes`: the tally of this comment's rows only. */
    method GetCommentVotes(commentId: Id, caller: Caller) returns (t: Tally)
      requires Valid()
      ensures t == TallyOf(Filter(rows, OnComment(commentId)), caller.sub)
      ensures t.net == t.upvotes - t.downvotes
      ensures t.upvotes + t.downvotes == |Filter(rows, OnComment(commentId))|
    {
      var mine := Filter(rows, OnComment(commentId));
      FilterKeeps(rows, OnComment(commentId), (v: Vote) => v.vote == 1 || v.vote == -1);
      CountsCover(mine);
      t := TallyOf(mine, caller.sub);
    }
  }

  /** When every stored vote is +1 or -1, the two counts cover every row. */
  lemma {:induction false} CountsCover(votes: seq<Vote>)
    requires forall i :: 0 <= i < |votes| ==> votes[i].vote == 1 || votes[i].vote == -1
    ensures CountOf(votes, 1) + CountOf(votes, -1) == |votes|
  {
    if votes != [] {
      CountsCover(votes[1..]);
    }
  }

  /** With one row per key, `user_vote` is the value of the caller's own row. */
  lemma UserVoteIsOwnRow(rows: seq<Vote>, c: Id, u: string, k: nat)
    requires WellFormed(rows)
    requires k < |rows| && rows[k].commentId == c && rows[k].userId == u
    ensures TallyOf(Filter(rows, OnComment(c)), u).userVote == rows[k].vote
  {
    var mine := Filter(rows, OnComment(c));
    assert rows[k] in mine;
    var q := (v: Vote) => v.commentId == c && v.userId == u ==> v == rows[k];
    forall i | 0 <= i < |rows| ensures q(rows[i]) {
      if i < k || k < i {
        assert !(rows[i].commentId == rows[k].commentId && rows[i].userId == rows[k].userId);
      }
    }
    FilterKeeps(rows, OnComment(c), q);
    var i :| 0 <= i < |mine| && mine[i] == rows[k];
    match Find(mine, ByUser(u))
    case None =>
      assert false;
    case Some(j) =>
      assert mine[j] == rows[k];
  }

  lemma DeletedWellFormed(rows: seq<Vote>, c: Id, u: string)
    requires WellFormed(rows)
    ensures WellFormed(Deleted(rows, c, u))
  {
    var d := Deleted(rows, c, u);
    FilterKeeps(rows, NotKey(c, u), (v: Vote) => v.vote == 1 || v.vote == -1);
    FilterIsSubsequence(rows, NotKey(c, u));
  }

  /** Every pair of rows a filter keeps comes, in the same order, from two rows
      of the table. */
  lemma {:induction false} FilterIsSubsequence(rows: seq<Vote>, p: Vote -> bool)
    requires WellFormed(rows)
    ensures forall i, j :: 0 <= i < j < |Filter(rows, p)| ==>
      !(Filter(rows, p)[i].commentId == Filter(rows, p)[j].commentId && Filter(rows, p)[i].userId == Filter(rows, p)[j].userId)
  {
    if rows != [] {
      var t := Filter(rows[1..], p);
      assert WellFormed(rows[1..]);
      FilterIsSubsequence(rows[1..], p);
      var h := rows[0];
      FilterKeeps(rows[1..], p, (v: Vote) => !(v.commentId == h.commentId && v.userId == h.userId));
    }
  }

  lemma UpsertedWellFormed(rows: seq<Vote>, c: Id, u: string, v: int)
    requires WellFormed(rows) && (v == 1 || v == -1)
    ensures WellFormed(Upserted(rows, c, u, v))
  {
    var r := Upserted(rows, c, u, v);
    if Find(rows, IsKey(c, u)).None? {
      forall i, j | 0 <= i < j < |r|
        ensures !(r[i].commentId == r[j].commentId && r[i].userId == r[j].userId)
      {
        if j == |rows| {
          assert !IsKey(c, u)(rows[i]);
        }
      }
    }
  }

  /** After a +1/-1 vote the caller's tally on that comment shows exactly that
      value, whatever was stored before. */
  lemma {:induction false} UpsertShowsNewVote(rows: seq<Vote>, c: Id, u: string, v: int)
    requires WellFormed(rows) && (v == 1 || v == -1)
    ensures TallyOf(Filter(Upserted(rows, c, u, v), OnComment(c)), u).userVote == v
  {
    var r := Upserted(rows, c, u, v);
    UpsertedWellFormed(rows, c, u, v);
    match Find(rows, IsKey(c, u))
    case Some(k) =>
      assert r[k] == Vote(c, u, v);
      UserVoteIsOwnRow(r, c, u, k);
    case None =>
      assert r[|rows|] == Vote(c, u, v);
      UserVoteIsOwnRow(r, c, u, |rows|);
  }

  /** A vote touches no other key: every other (comment, voter) pair keeps
      exactly its rows. */
  lemma {:induction false} UpsertLeavesOtherKeys(rows: seq<Vote>, c: Id, u: string, v: int, c2: Id, u2: string)
    requires !(c2 == c && u2 == u)
    ensures Filter(Upserted(rows, c, u, v), IsKey(c2, u2)) == Filter(rows, IsKey(c2, u2))
  {
    if Find(rows, IsKey(c, u)).Some? {
      SetVoteLeavesOtherKeys(rows, c, u, v, c2, u2);
    } else {
      FilterSnoc(rows, Vote(c, u, v), IsKey(c2, u2));
    }
  }

  lemma {:induction false} SetVoteLeavesOtherKeys(rows: seq<Vote>, c: Id, u: string, v: int, c2: Id, u2: string)
    requires !(c2 == c && u2 == u)
    ensures Filter(SetVote(rows, c, u, v), IsKey(c2, u2)) == Filter(rows, IsKey(c2, u2))
  {
    if rows != [] {
      SetVoteLeavesOtherKeys(rows[1..], c, u, v, c2, u2);
      assert SetVote(rows, c, u, v)[1..] == SetVote(rows[1..], c, u, v);
    }
  }

  /** Last write wins: voting twice leaves what voting once with the second
      value leaves. */
  lemma UpsertTwiceLastWins(rows: seq<Vote>, c: Id, u: string, v1: int, v2: int)
    ensures Upserted(Upserted(rows, c, u, v1), c, u, v2) == Upserted(rows, c, u, v2)
  {
    var once := Upserted(rows, c, u, v1);
    match Find(rows, IsKey(c, u))
    case Some(k) =>
      assert IsKey(c, u)(once[k]);
      assert SetVote(SetVote(rows, c, u, v1), c, u, v2) == SetVote(rows, c, u, v2);
    case None =>
      assert IsKey(c, u)(once[|rows|]);
      assert SetVote(once, c, u, v2) == rows + [Vote(c, u, v2)];
  }

  /** Deleting the caller's vote twice is the same as deleting it once. */
  lemma RemoveIdempotent(rows: seq<Vote>, c: Id, u: string)
    ensures Deleted(Deleted(rows, c, u), c, u) == Deleted(rows, c, u)
  {
    FilterAllOrNothing(Deleted(rows, c, u), NotKey(c, u));
  }

  /** The deletion removes the caller's row on that comment and no other row. */
  lemma RemoveOnlyOwnRow(rows: seq<Vote>, c: Id, u: string)
    ensures forall i :: 0 <= i < |rows| && !(rows[i].commentId == c && rows[i].userId == u) ==>
      rows[i] in Deleted(rows, c, u)
    ensures forall i :: 0 <= i < |Deleted(rows, c, u)| ==>
      !(Deleted(rows, c, u)[i].commentId == c && Deleted(rows, c, u)[i].userId == u)
    ensures TallyOf(Filter(Deleted(rows, c, u), OnComment(c)), u).userVote == 0
  {
    var d := Deleted(rows, c, u);
    FilterKeeps(d, OnComment(c), NotKey(c, u));
  }

  /** Clearing a vote that does not exist changes nothing. */
  lemma ClearWithoutVoteIsNoop(rows: seq<Vote>, c: Id, u: string)
    requires Find(rows, IsKey(c, u)).None?
    ensures Deleted(rows, c, u) == rows
  {
    FilterAllOrNothing(rows, NotKey(c, u));
  }

  /** Votes +1 from U1, +1 from U2 and -1 from U3 on one comment tally to
      2 up, 1 down, net 1, and U1's own vote 1. */
  lemma TallyScenario(c: Id)
    ensures TallyOf([Vote(c, "U1", 1), Vote(c, "U2", 1), Vote(c, "U3", -1)], "U1")
         == Tally(2, 1, 1, 1)
    ensures TallyOf([Vote(c, "U1", 1), Vote(c, "U2", 1), Vote(c, "U3", -1)], "U4").userVote == 0
  {
    var votes := [Vote(c, "U1", 1), Vote(c, "U2", 1), Vote(c, "U3", -1)];
    assert votes[1..] == [Vote(c, "U2", 1), Vote(c, "U3", -1)];
    assert votes[1..][1..] == [Vote(c, "U3", -1)];
    assert votes[1..][1..][1..] == [];
    assert CountOf(votes[1..][1..], -1) == 1;
    assert CountOf(votes, 1) == 2 && CountOf(votes, -1) == 1;
    assert Find(votes, ByUser("U1")) == Some(0);
  }
}
