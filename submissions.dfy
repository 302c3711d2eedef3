/** Code submissions (backend/app/routers/submissions.py): creation with the
    request-body bounds and a fixed initial status, owner-only single-field
    patches and deletes, and the newest-first listing. */
module Submissions {
  import opened Common
  import opened Query

  datatype Submission = Submission(
    id: Id, userId: string, userEmail: string, title: string, code: string,
    language: string, description: string, status: string, createdAt: int)

  /** `SubmissionCreate` as received: `language` and `description` may be
      absent from the body. */
  datatype SubmissionCreate = SubmissionCreate(
    title: string, code: string, language: Option<string>, description: Option<string>)

  const MaxTitle: nat := 255
  const MaxLanguage: nat := 50
  const MaxDescription: nat := 2000
  const MaxStatus: nat := 50
  const DefaultLanguage: string := "python"
  const InitialStatus: string := "pending"
  const PageSize: nat := 50

  function SubmissionId(s: Submission): int { s.id }
  function SubmissionAt(s: Submission): int { s.createdAt }
  function Owner(s: Submission): string { s.userId }
  function WithId(id: Id): Submission -> bool { (s: Submission) => s.id == id }

  /** The fields `SubmissionCreate` accepts once its defaults are filled in. */
  datatype Fields = Fields(title: string, code: string, language: string, description: string)

  /** Body validation of `SubmissionCreate`. */
  function ValidateCreate(b: SubmissionCreate): (r: Result<Fields>)
    ensures r.Ok? <==>
      && Within(b.title, 1, MaxTitle) && b.code != ""
      && |Given(b.language, DefaultLanguage)| <= MaxLanguage
      && |Given(b.description, "")| <= MaxDescription
    ensures r.Err? ==> r.failure == Unprocessable
    ensures r.Ok? ==> r.value.title == b.title && r.value.code == b.code
    ensures r.Ok? && b.language.None? ==> r.value.language == "python"
    ensures r.Ok? && b.description.None? ==> r.value.description == ""
    ensures r.Ok? ==> |r.value.language| <= MaxLanguage && |r.value.description| <= MaxDescription
  {
    var language := Given(b.language, DefaultLanguage);
    var description := Given(b.description, "");
    if Within(b.title, 1, MaxTitle) && b.code != "" && |language| <= MaxLanguage && |description| <= MaxDescription
    then Ok(Fields(b.title, b.code, language, description))
    else Err(Unprocessable)
  }

  class SubmissionTable {
    var rows: seq<Submission>
    var nextId: nat
    var clock: int

    ghost predicate Valid()
      reads this
    {
      Stamped(rows, SubmissionId, SubmissionAt, nextId, clock)
    }

    constructor ()
      ensures Valid() && rows == [] && nextId == 0 && clock == 0
    {
      rows := [];
      nextId := 0;
      clock := 0;
    }

    /** `list_submissions`: at most 50 rows, newest first. */
    method ListSubmissions() returns (r: seq<Submission>)
      requires Valid()
      ensures |r| == Min(PageSize, |rows|)
      ensures forall i :: 0 <= i < |r| ==> r[i] == rows[|rows| - 1 - i]
      ensures Descending(r, SubmissionAt)
    {
      AscendingReverse(rows, SubmissionAt);
      r := Take(Reverse(rows), PageSize);
    }

    /** `get_submission` / `_get_submission_or_404`. */
    method GetSubmission(submissionId: Id) returns (r: Result<Submission>)
      requires Valid()
      ensures r.Err? <==> forall k :: 0 <= k < |rows| ==> rows[k].id != submissionId
      ensures r.Err? ==> r.failure == NotFound
      ensures r.Ok? ==> r.value in rows && r.value.id == submissionId
    {
      var k := Find(rows, WithId(submissionId));
      if k.None? {
        return Err(NotFound);
      }
      r := Ok(rows[k.value]);
    }

    /** `create_submission`: the caller owns the new row and its status is
        "pending". */
    method CreateSubmission(caller: Caller, body: SubmissionCreate) returns (r: Result<Submission>)
      requires Valid()
      modifies this
      ensures Valid()
      ensures ValidateCreate(body).Err? ==>
        r == Err(Unprocessable) && rows == old(rows) && nextId == old(nextId) && clock == old(clock)
      ensures ValidateCreate(body).Ok? ==>
        var f := ValidateCreate(body).value;
        && r == Ok(Submission(old(nextId), caller.sub, EmailOf(caller), f.title, f.code,
                              f.language, f.description, InitialStatus, old(clock)))
        && rows == old(rows) + [r.value]
        && nextId == old(nextId) + 1 && clock == old(clock) + 1
    {
      var v := ValidateCreate(body);
      if v.Err? {
        return Err(Unprocessable);
      }
      var f := v.value;
      var row := Submission(nextId, caller.sub, EmailOf(caller), f.title, f.code,
                            f.language, f.description, InitialStatus, clock);
      StampedAppend(rows, row, SubmissionId, SubmissionAt, nextId, clock);
      rows := rows + [row];
      nextId := nextId + 1;
      clock := clock + 1;
      r := Ok(row);
    }

    /** `update_submission_status`: any label of 1..50 characters; only the
        owner, and only the `status` field of that row. */
    method UpdateStatus(submissionId: Id, caller: Caller, status: string) returns (r: Result<Submission>)
      requires Valid()
      modifies this
      ensures Valid()
      ensures nextId == old(nextId) && clock == old(clock)
      ensures !Within(status, 1, MaxStatus) ==> r == Err(Unprocessable) && rows == old(rows)
      ensures Within(status, 1, MaxStatus) ==>
        var a := FindOwned(old(rows), WithId(submissionId), Owner, caller.sub);
        && (a.Err? ==> r == Err(a.failure) && rows == old(rows))
        && (a.Ok? ==> r == Ok(old(rows)[a.value].(status := status))
                      && rows == old(rows)[a.value := r.value])
    {
      if !Within(status, 1, MaxStatus) {
        return Err(Unprocessable);
      }
      var a := FindOwned(rows, WithId(submissionId), Owner, caller.sub);
      if a.Err? {
        return Err(a.failure);
      }
      var row := rows[a.value].(status := status);
      StampedReplace(rows, a.value, row, SubmissionId, SubmissionAt, nextId, clock);
      rows := rows[a.value := row];
      r := Ok(row);
    }

    /** `update_submission_code`: non-empty code; only the `code` field. */
    method UpdateCode(submissionId: Id, caller: Caller, code: string) returns (r: Result<Submission>)
      requires Valid()
      modifies this
      ensures Valid()
      ensures nextId == old(nextId) && clock == old(clock)
      ensures code == "" ==> r == Err(Unprocessable) && rows == old(rows)
      ensures code != "" ==>
        var a := FindOwned(old(rows), WithId(submissionId), Owner, caller.sub);
        && (a.Err? ==> r == Err(a.failure) && rows == old(rows))
        && (a.Ok? ==> r == Ok(old(rows)[a.value].(code := code))
                      && rows == old(rows)[a.value := r.value])
    {
      if code == "" {
        return Err(Unprocessable);
      }
      var a := FindOwned(rows, WithId(submissionId), Owner, caller.sub);
      if a.Err? {
        return Err(a.failure);
      }
      var row := rows[a.value].(code := code);
      StampedReplace(rows, a.value, row, SubmissionId, SubmissionAt, nextId, clock);
      rows := rows[a.value := row];
      r := Ok(row);
    }

    /** `update_submission_description`: at most 2000 characters, empty
        allowed; only the `description` field. */
    method UpdateDescription(submissionId: Id, caller: Caller, description: string) returns (r: Result<Submission>)
      requires Valid()
      modifies this
      ensures Valid()
      ensures nextId == old(nextId) && clock == old(clock)
      ensures |description| > MaxDescription ==> r == Err(Unprocessable) && rows == old(rows)
      ensures |description| <= MaxDescription ==>
        var a := FindOwned(old(rows), WithId(submissionId), Owner, caller.sub);
        && (a.Err? ==> r == Err(a.failure) && rows == old(rows))
        && (a.Ok? ==> r == Ok(old(rows)[a.value].(description := description))
                      && rows == old(rows)[a.value := r.value])
    {
      if |description| > MaxDescription {
        return Err(Unprocessable);
      }
      var a := FindOwned(rows, WithId(submissionId), Owner, caller.sub);
      if a.Err? {
        return Err(a.failure);
      }
      var row := rows[a.value].(description := description);
      StampedReplace(rows, a.value, row, SubmissionId, SubmissionAt, nextId, clock);
      rows := rows[a.value := row];
      r := Ok(row);
    }

    /** `delete_submission`: exactly the owner's row goes. */
    method DeleteSubmission(submissionId: Id, caller: Caller) returns (r: Result<()>)
      requires Valid()
      modifies this
      ensures Valid()
      ensures nextId == old(nextId) && clock == old(clock)
      ensures var a := FindOwned(old(rows), WithId(submissionId), Owner, caller.sub);
        && (a.Err? ==> r == Err(a.failure) && rows == old(rows))
        && (a.Ok? ==> r == Ok(()) && rows == RemoveAt(old(rows), a.value))
    {
      var a := FindOwned(rows, WithId(submissionId), Owner, caller.sub);
      if a.Err? {
        return Err(a.failure);
      }
      StampedRemove(rows, a.value, SubmissionId, SubmissionAt, nextId, clock);
      rows := RemoveAt(rows, a.value);
      r := Ok(());
    }
  }
}
