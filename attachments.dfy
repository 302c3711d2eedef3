/** Files attached to a submission (backend/app/routers/attachments.py): the
    size limit, the storage name built from the upload, the metadata row, the
    per-submission listing and the uploader-only delete. The blob store is not
    modelled: whether its upload fails, the random name prefix and the public
    URL it hands back arrive as parameters. */
module Attachments {
  import opened Common
  import opened Query
  import opened Text

  /** A `submission_attachments` row. The submission id is the path segment
      as sent; no submission is looked up. */
  datatype Attachment = Attachment(
    id: Id, submissionId: string, filename: string, storagePath: string, url: string,
    size: nat, contentType: string, uploadedBy: string, createdAt: int)

  /** The multipart upload: the client may omit its file name and type. */
  datatype Upload = Upload(filename: Option<string>, contentType: Option<string>, content: seq<bv8>)

  const MaxBytes: nat := 10 * 1024 * 1024
  const DefaultFilename: string := "file"
  const DefaultContentType: string := "application/octet-stream"

  function AttachmentId(a: Attachment): int { a.id }
  function AttachmentAt(a: Attachment): int { a.createdAt }
  function Uploader(a: Attachment): string { a.uploadedBy }
  function ForSubmission(sid: string): Attachment -> bool { (a: Attachment) => a.submissionId == sid }
  function OnSubmission(id: Id, sid: string): Attachment -> bool { (a: Attachment) => a.id == id && a.submissionId == sid }

  /** `safe_name`: the file name, "file" when absent or empty, with every
      space turned into `_`. */
  function SafeName(filename: Option<string>): (r: string)
    ensures |r| == |OrDefault(filename, DefaultFilename)| && r != ""
    ensures forall i :: 0 <= i < |r| ==> r[i] != ' '
    ensures forall i :: 0 <= i < |r| ==>
      r[i] == (if OrDefault(filename, DefaultFilename)[i] == ' ' then '_' else OrDefault(filename, DefaultFilename)[i])
  {
    ReplaceChar(OrDefault(filename, DefaultFilename), ' ', '_')
  }

  /** A name without spaces is stored as it is. */
  lemma SafeNameKeepsPlainNames(name: string)
    requires name != "" && forall i :: 0 <= i < |name| ==> name[i] != ' '
    ensures SafeName(Some(name)) == name
  {
    var r := SafeName(Some(name));
    assert |r| == |name|;
    forall i | 0 <= i < |name| ensures r[i] == name[i] {
    }
  }

  /** Replacing spaces a second time changes nothing. */
  lemma SafeNameStable(filename: Option<string>)
    ensures SafeName(Some(SafeName(filename))) == SafeName(filename)
  {
    SafeNameKeepsPlainNames(SafeName(filename));
  }

  /** `storage_path`: the submission's folder, then the random prefix, `_` and
      the safe name. */
  function StoragePath(sid: string, prefix: string, safe: string): (p: string)
    ensures |p| == |sid| + 1 + |prefix| + 1 + |safe|
    ensures p[..|sid| + 1] == sid + "/"
    ensures p[|p| - |safe| - 1..] == "_" + safe
    ensures p[|sid| + 1..|sid| + 1 + |prefix|] == prefix
  {
    var p := sid + "/" + prefix + "_" + safe;
    assert p == (sid + "/") + (prefix + "_" + safe);
    assert p == (sid + "/" + prefix) + ("_" + safe);
    assert p[|sid| + 1..] == prefix + "_" + safe;
    p
  }

  /** Two uploads to different submissions never share a storage path when
      neither submission id contains `/`. */
  lemma StoragePathsSeparateSubmissions(sid1: string, sid2: string, prefix1: string, prefix2: string,
                                        safe1: string, safe2: string)
    requires sid1 != sid2
    requires forall i :: 0 <= i < |sid1| ==> sid1[i] != '/'
    requires forall i :: 0 <= i < |sid2| ==> sid2[i] != '/'
    ensures StoragePath(sid1, prefix1, safe1) != StoragePath(sid2, prefix2, safe2)
  {
    var p1 := StoragePath(sid1, prefix1, safe1);
    var p2 := StoragePath(sid2, prefix2, safe2);
    assert p1[..|sid1| + 1] == sid1 + "/";
    assert p2[..|sid2| + 1] == sid2 + "/";
    if |sid1| < |sid2| {
      assert p1[|sid1|] == '/' && p2[|sid1|] == sid2[|sid1|];
    } else if |sid2| < |sid1| {
      assert p2[|sid2|] == '/' && p1[|sid2|] == sid1[|sid2|];
    } else {
      var i :| 0 <= i < |sid1| && sid1[i] != sid2[i];
      assert p1[i] == sid1[i] && p2[i] == sid2[i];
    }
  }

  class AttachmentTable {
    var rows: seq<Attachment>
    var nextId: nat
    var clock: int

    ghost predicate Valid()
      reads this
    {
      Stamped(rows, AttachmentId, AttachmentAt, nextId, clock)
    }

    constructor ()
      ensures Valid() && rows == [] && nextId == 0 && clock == 0
    {
      rows := [];
      nextId := 0;
      clock := 0;
    }

    /** `upload_attachment`: over 10 MB is 413 and a failed blob upload is
        500, both before any row is written; otherwise one metadata row is
        added for the caller. `prefix` is the random name prefix and `url`
        what the blob store reports as the public URL. */
    method UploadAttachment(submissionId: string, file: Upload, caller: Caller,
                            prefix: string, url: string, uploadFails: bool) returns (r: Result<Attachment>)
      requires Valid()
      modifies this
      ensures Valid()
      ensures r.Err? ==> rows == old(rows) && nextId == old(nextId) && clock == old(clock)
      ensures |file.content| > MaxBytes ==> r == Err(TooLarge)
      ensures |file.content| <= MaxBytes && uploadFails ==> r == Err(Internal)
      ensures |file.content| <= MaxBytes && !uploadFails ==>
        && r == Ok(Attachment(old(nextId), submissionId, OrDefault(file.filename, DefaultFilename),
                              StoragePath(submissionId, prefix, SafeName(file.filename)), url,
                              |file.content|, OrDefault(file.contentType, DefaultContentType), caller.sub, old(clock)))
        && rows == old(rows) + [r.value]
        && nextId == old(nextId) + 1 && clock == old(clock) + 1
      ensures r.Ok? ==> r.value.size <= MaxBytes && r.value.uploadedBy == caller.sub && r.value.submissionId == submissionId
    {
      if |file.content| > MaxBytes {
        return Err(TooLarge);
      }
      var safe := SafeName(file.filename);
      var path := StoragePath(submissionId, prefix, safe);
      var contentType := OrDefault(file.contentType, DefaultContentType);
      if uploadFails {
        return Err(Internal);
      }
      var row := Attachment(nextId, submissionId, OrDefault(file.filename, DefaultFilename), path, url,
                            |file.content|, contentType, caller.sub, clock);
      StampedAppend(rows, row, AttachmentId, AttachmentAt, nextId, clock);
      rows := rows + [row];
      nextId := nextId + 1;
      clock := clock + 1;
      r := Ok(row);
    }

    /** `list_attachments`: that submission's rows and only those, oldest
        first. */
    method ListAttachments(submissionId: string) returns (r: seq<Attachment>)
      requires Valid()
      ensures forall i :: 0 <= i < |r| ==> r[i] in rows && r[i].submissionId == submissionId
      ensures forall j :: 0 <= j < |rows| && rows[j].submissionId == submissionId ==> rows[j] in r
      ensures |r| == |Filter(rows, ForSubmission(submissionId))|
      ensures Ascending(r, AttachmentAt)
    {
      StampedAscending(rows, AttachmentId, AttachmentAt, nextId, clock);
      AscendingFilter(rows, ForSubmission(submissionId), AttachmentAt);
      r := Filter(rows, ForSubmission(submissionId));
    }

    /** `delete_attachment`: 404 unless the attachment belongs to the
        submission, 403 unless the caller uploaded it; otherwise its row goes
        and every other row stays. Whether the blob store removed the file
        (`storageRemoved`) makes no difference. */
    method DeleteAttachment(submissionId: string, attachmentId: Id, caller: Caller, storageRemoved: bool)
      returns (r: Result<()>)
      requires Valid()
      modifies this
      ensures Valid()
      ensures nextId == old(nextId) && clock == old(clock)
      ensures (forall k :: 0 <= k < |old(rows)| ==> !OnSubmission(attachmentId, submissionId)(old(rows)[k])) ==>
        r == Err(NotFound) && rows == old(rows)
      ensures r == Err(Forbidden) ==> rows == old(rows)
      ensures var a := FindOwned(old(rows), OnSubmission(attachmentId, submissionId), Uploader, caller.sub);
        && (a.Err? ==> r == Err(a.failure))
        && (a.Ok? ==> r == Ok(()) && rows == RemoveAt(old(rows), a.value))
      ensures r.Ok? ==>
        && |rows| == |old(rows)| - 1
        && (forall i :: 0 <= i < |rows| ==> rows[i].id != attachmentId)
        && (forall j :: 0 <= j < |old(rows)| && old(rows)[j].id != attachmentId ==> old(rows)[j] in rows)
    {
      var a := FindOwned(rows, OnSubmission(attachmentId, submissionId), Uploader, caller.sub);
      if a.Err? {
        return Err(a.failure);
      }
      StampedRemove(rows, a.value, AttachmentId, AttachmentAt, nextId, clock);
      RemoveAtExact(rows, a.value, AttachmentId);
      rows := RemoveAt(rows, a.value);
      r := Ok(());
    }
  }
}
