/** Code-review comments (backend/app/routers/comments.py): creation under the
    body bound and author-only edits and deletes. */
module Comments {
  import opened Common
  import opened Query

  datatype Comment = Comment(id: Id, submissionId: Id, userId: string, userEmail: string, body: string, createdAt: int)

  const MaxBody: nat := 2000

  function CommentId(c: Comment): int { c.id }
  function CommentAt(c: Comment): int { c.createdAt }
  function Author(c: Comment): string { c.userId }
  function WithId(id: Id): Comment -> bool { (c: Comment) => c.id == id }

  class CommentTable {
    var rows: seq<Comment>
    var nextId: nat
    var clock: int

    ghost predicate Valid()
      reads this
    {
      Stamped(rows, CommentId, CommentAt, nextId, clock)
    }

    constructor ()
      ensures Valid() && rows == [] && nextId == 0 && clock == 0
    {
      rows := [];
      nextId := 0;
      clock := 0;
    }

    /** `create_comment`: the caller is the author, the e-mail is the caller's
        or ""; the submission is not looked up. */
    method CreateComment(caller: Caller, submissionId: Id, body: string) returns (r: Result<Comment>)
      requires Valid()
      modifies this
      ensures Valid()
      ensures !Within(body, 1, MaxBody) ==>
        r == Err(Unprocessable) && rows == old(rows) && nextId == old(nextId) && clock == old(clock)
      ensures Within(body, 1, MaxBody) ==>
        && r == Ok(Comment(old(nextId), submissionId, caller.sub, EmailOf(caller), body, old(clock)))
        && rows == old(rows) + [r.value]
        && nextId == old(nextId) + 1 && clock == old(clock) + 1
    {
      if !Within(body, 1, MaxBody) {
        return Err(Unprocessable);
      }
      var row := Comment(nextId, submissionId, caller.sub, EmailOf(caller), body, clock);
      StampedAppend(rows, row, CommentId, CommentAt, nextId, clock);
      rows := rows + [row];
      nextId := nextId + 1;
      clock := clock + 1;
      r := Ok(row);
    }

    /** `update_comment`: 404 / 403 change nothing; otherwise only `body` of
        that comment changes. */
    method UpdateComment(commentId: Id, caller: Caller, body: string) returns (r: Result<Comment>)
      requires Valid()
      modifies this
      ensures Valid()
      ensures nextId == old(nextId) && clock == old(clock)
      ensures !Within(body, 1, MaxBody) ==> r == Err(Unprocessable) && rows == old(rows)
      ensures Within(body, 1, MaxBody) ==>
        var a := FindOwned(old(rows), WithId(commentId), Author, caller.sub);
        && (a.Err? ==> r == Err(a.failure) && rows == old(rows))
        && (a.Ok? ==> r == Ok(old(rows)[a.value].(body := body))
                      && rows == old(rows)[a.value := r.value])
    {
      if !Within(body, 1, MaxBody) {
        return Err(Unprocessable);
      }
      var a := FindOwned(rows, WithId(commentId), Author, caller.sub);
      if a.Err? {
        return Err(a.failure);
      }
      var row := rows[a.value].(body := body);
      StampedReplace(rows, a.value, row, CommentId, CommentAt, nextId, clock);
      rows := rows[a.value := row];
      r := Ok(row);
    }

    /** `delete_comment`: 404 / 403 change nothing; otherwise exactly that
        comment goes. */
    method DeleteComment(commentId: Id, caller: Caller) returns (r: Result<()>)
      requires Valid()
      modifies this
      ensures Valid()
      ensures nextId == old(nextId) && clock == old(clock)
      ensures var a := FindOwned(old(rows), WithId(commentId), Author, caller.sub);
        && (a.Err? ==> r == Err(a.failure) && rows == old(rows))
        && (a.Ok? ==> r == Ok(()) && rows == RemoveAt(old(rows), a.value))
    {
      var a := FindOwned(rows, WithId(commentId), Author, caller.sub);
      if a.Err? {
        return Err(a.failure);
      }
      StampedRemove(rows, a.value, CommentId, CommentAt, nextId, clock);
      rows := RemoveAt(rows, a.value);
      r := Ok(());
    }
  }
}
