# CodeCollab backend handlers in Dafny

This project models the request handlers of the CodeCollab backend, a FastAPI
service for sharing code submissions, reviewing them, and working together in
rooms and organisations. Every handler reads and writes one external table
store. Here the store is a set of in-memory tables: each table is a `seq` of
rows, kept in insertion order, and is a field of a class with one class per
router. The store hands out row ids and `created_at` stamps from two
counters, `nextId` and `clock`. Both are strictly increasing along every
table (`Query.Stamped`), so "order by `created_at` descending" is the reverse
of the filtered table.

Handlers are methods. Each one:

- returns a `Result`: `Ok` with the value the endpoint sends, or `Err` with
  the HTTP failure it raises;
- states in its contract the new contents of every table it writes.

The caller is the already verified `(sub, email)` pair the request layer
produces (`Common.Caller`). Request-body bounds that the framework enforces
before a handler runs give `Err(Unprocessable)` (422).

Modules:

- `Common`: shared definitions.
- `Query`: filters, lookups, upserts and the table invariants.
- `Sorting`: a stable sort by an integer key.
- `Text`: Python's `strip`, `split` and `replace`.
- One module per router: `CommentVotes`, `Chat`, `Submissions`, `Comments`,
  `DirectMessages`, `Notifications`, `Collab`, `Organisations`, `Rooms` (the
  room handlers of `main.py`), `Profiles`, `Attachments` and `Config`.

Facts about the code that the model follows:

- A new submission starts in status `"pending"`.
- `create_comment` does not check that the submission exists.
- There is no approve/reject decision, no mention notifier and no comment
  line number.

## Model

| member | source | states |
|---|---|---|
| CommentVotes.CountOf | backend/app/routers/comment_votes.py:15-16 | the count is the number of rows the filter on that vote value keeps; it is 0 exactly when no row has the value, and never exceeds the number of rows |
| CommentVotes.UserVote | backend/app/routers/comment_votes.py:17 | 0 when the user has no row; a non-zero value is the vote of one of the user's rows |
| CommentVotes.TallyOf | backend/app/routers/comment_votes.py:14-23 | `net == upvotes - downvotes`, and up plus down never exceed the rows counted |
| CommentVotes.CountsCover | backend/app/routers/comment_votes.py:15-16 | when every vote is +1 or -1, up plus down is exactly the number of rows |
| CommentVotes.UserVoteIsOwnRow | backend/app/routers/comment_votes.py:17 | with one row per (comment, voter), `user_vote` is the value of the caller's own row |
| CommentVotes.DeletedWellFormed | backend/app/routers/comment_votes.py:32-36 | deleting the caller's vote keeps the table well formed: values ±1, one row per key |
| CommentVotes.UpsertedWellFormed | backend/app/routers/comment_votes.py:41-62 | update-or-insert of ±1 keeps values ±1 and never duplicates a (comment, voter) key |
| CommentVotes.UpsertShowsNewVote | backend/app/routers/comment_votes.py:41-62 | after a ±1 vote, the caller's tally on that comment shows exactly the new value |
| CommentVotes.UpsertLeavesOtherKeys | backend/app/routers/comment_votes.py:49-62 | every other (comment, voter) pair keeps exactly its rows |
| CommentVotes.UpsertTwiceLastWins | backend/app/routers/comment_votes.py:41-62 | voting twice leaves what voting once with the second value leaves |
| CommentVotes.RemoveIdempotent | backend/app/routers/comment_votes.py:72-74 | removing a vote twice is removing it once |
| CommentVotes.RemoveOnlyOwnRow | backend/app/routers/comment_votes.py:72-74 | only the caller's row on that comment goes; every other row stays; the caller's tally then shows 0 |
| CommentVotes.ClearWithoutVoteIsNoop | backend/app/routers/comment_votes.py:32-36 | clearing a vote that does not exist changes nothing |
| CommentVotes.TallyScenario | backend/app/routers/comment_votes.py:14-23 | votes +1, +1, -1 tally to 2 up, 1 down, net 1; a non-voter's `user_vote` is 0 |
| CommentVotes.VoteTable.UpsertVote | backend/app/routers/comment_votes.py:26-64 | 0 deletes the caller's row and replies `{vote: 0, net: 0}`; a value outside {1, -1, 0} is 400 with no change; ±1 updates or inserts the caller's row; the table stays well formed |
| CommentVotes.VoteTable.RemoveVote | backend/app/routers/comment_votes.py:67-75 | the caller's row on that comment is deleted; the table stays well formed |
| CommentVotes.VoteTable.GetCommentVotes | backend/app/routers/comment_votes.py:78-89 | the tally of this comment's rows only, with up plus down equal to their number |
| Chat.FindKeyIffPresent | backend/app/routers/chat.py:114-122 | the lookup for (message, user, emoji) finds a row exactly when that key is present |
| Chat.ToggleFlips | backend/app/routers/chat.py:114-136 | a toggle flips the presence of its key and keeps keys unique |
| Chat.ToggleTwiceRestores | backend/app/routers/chat.py:114-136 | toggling twice restores the set of reaction keys |
| Chat.OnThenOffIsIdentity | backend/app/routers/chat.py:122-136 | from a state without the reaction, on then off gives back the same table |
| Chat.ToggleLeavesOthers | backend/app/routers/chat.py:115-124 | reactions of other users, other emojis and other messages are untouched |
| Chat.ChatTables.ListMessages | backend/app/routers/chat.py:40-50 | at most 50 messages: the newest ones, oldest first |
| Chat.ChatTables.SendMessage | backend/app/routers/chat.py:53-74 | content of 1..5000 chars, else 422; the new row carries the caller's id and e-mail, or "" (also line 10-11) |
| Chat.ChatTables.UpdateMessage | backend/app/routers/chat.py:77-91 | content of 1..5000 chars, else 422; 404 for a missing message and 403 for a non-author, with no change; otherwise only that message's content changes (also line 14-15, line 22-37) |
| Chat.ChatTables.DeleteMessage | backend/app/routers/chat.py:94-102 | 404 / 403 with no change; otherwise exactly that row goes (also line 22-37) |
| Chat.ChatTables.ToggleReaction | backend/app/routers/chat.py:105-136 | emoji of 1..10 chars, else 422; 404 for a missing message, with no reaction added; an existing key is deleted ("off"), a missing one inserted ("on") (also line 18-19) |
| Submissions.ValidateCreate | backend/app/routers/submissions.py:10-14 | accepted exactly when title is 1..255, code non-empty, language ≤50 and description ≤2000; the defaults are "python" and "" |
| Submissions.SubmissionTable.ListSubmissions | backend/app/routers/submissions.py:47-56 | at most 50 rows, the newest first |
| Submissions.SubmissionTable.GetSubmission | backend/app/routers/submissions.py:87-92 | the row with the id, or 404 (also line 29-39) |
| Submissions.SubmissionTable.CreateSubmission | backend/app/routers/submissions.py:59-85 | 422 outside the bounds; the new row has status "pending" and the caller as owner |
| Submissions.SubmissionTable.UpdateStatus | backend/app/routers/submissions.py:95-109 | status of 1..50 chars; 404 / 403 change nothing; otherwise only that row's status changes (also line 17-18, line 42-44) |
| Submissions.SubmissionTable.UpdateCode | backend/app/routers/submissions.py:112-126 | non-empty code; 404 / 403 change nothing; otherwise only that row's code changes (also line 21-22) |
| Submissions.SubmissionTable.UpdateDescription | backend/app/routers/submissions.py:129-143 | description ≤2000; 404 / 403 change nothing; otherwise only that row's description changes (also line 25-26) |
| Submissions.SubmissionTable.DeleteSubmission | backend/app/routers/submissions.py:146-154 | 404 / 403 change nothing; otherwise exactly the owner's row goes |
| Comments.CommentTable.CreateComment | backend/app/routers/comments.py:37-60 | body of 1..2000 chars, else 422; the author is the caller and the e-mail is the caller's or "" (also line 10-12) |
| Comments.CommentTable.UpdateComment | backend/app/routers/comments.py:62-77 | body of 1..2000 chars, else 422; 404 / 403 change nothing; otherwise only that comment's body changes (also line 15-16, line 19-34) |
| Comments.CommentTable.DeleteComment | backend/app/routers/comments.py:79-87 | 404 / 403 change nothing; otherwise exactly that comment goes |
| DirectMessages.CollectPartners | backend/app/routers/messages.py:33-51 | the two loops build exactly the first-seen entry per partner over the sent, then the received candidates |
| DirectMessages.FirstSeenUnique | backend/app/routers/messages.py:36-45 | no partner appears twice in the `partners` dict |
| DirectMessages.FirstSeenCovers | backend/app/routers/messages.py:34-51 | every offered partner has an entry |
| DirectMessages.FirstSeenFirst | backend/app/routers/messages.py:36-45 | each entry is the first candidate that proposed that partner |
| DirectMessages.FirstSentIsLatest | backend/app/routers/messages.py:17-42 | an entry taken from the sent part is built from the newest message the caller sent that partner |
| DirectMessages.NothingSentBefore | backend/app/routers/messages.py:43-51 | an entry taken from the received part means the caller sent that partner nothing |
| DirectMessages.ReceivedNewest | backend/app/routers/messages.py:43-51 | such an entry is built from the newest message received from that partner (also line 24-30) |
| DirectMessages.EveryPartnerProposed | backend/app/routers/messages.py:17-30 | every message the caller sent or received proposes its other party |
| DirectMessages.ConversationsFacts | backend/app/routers/messages.py:14-51 | before sorting: unique partners, all of them present, each entry built from the newest message sent to that partner, else the newest received from them |
| DirectMessages.SortedKeepsFacts | backend/app/routers/messages.py:53 | sorting by `last_at` keeps each entry and what is known of it |
| DirectMessages.ConversationsSorted | backend/app/routers/messages.py:14-53 | the reply: one entry per partner, built from the newest message sent to that partner, else the newest received from them, sorted by `last_at` descending |
| DirectMessages.MarkReadScoped | backend/app/routers/messages.py:119-121 | only messages from `other` to the caller change, only in `is_read`, and afterwards all of them are read |
| DirectMessages.MarkReadIdempotent | backend/app/routers/messages.py:119-121 | marking as read twice is marking once |
| DirectMessages.SelfConversationEmpty | backend/app/routers/messages.py:62-91 | a thread with oneself is empty, since no stored message is addressed to its sender |
| DirectMessages.DirectMessageTable.ListConversations | backend/app/routers/messages.py:14-53 | each partner at most once; the entry is the newest message sent to them, else the newest received from them; sorted by `last_at` descending |
| DirectMessages.DirectMessageTable.GetConversation | backend/app/routers/messages.py:56-78 | exactly the messages caller→other and other→caller, ascending by `created_at` |
| DirectMessages.DirectMessageTable.SendMessage | backend/app/routers/messages.py:81-110 | sending to oneself is 400 and inserts nothing; the new row has the caller as sender and is unread (also line 10-11) |
| DirectMessages.DirectMessageTable.MarkAsRead | backend/app/routers/messages.py:113-122 | the unread messages from `other` to the caller become read; nothing else changes |
| Notifications.AllReadScoped | backend/app/routers/notifications.py:23-25 | other users' rows are untouched; each of the user's rows changes only in its read flag, which is set |
| Notifications.AllReadIdempotent | backend/app/routers/notifications.py:23-25 | a second "mark all read" changes nothing |
| Notifications.AllReadNoop | backend/app/routers/notifications.py:23-25 | with nothing unread, the update matches no row |
| Notifications.NotificationTable.ListNotifications | backend/app/routers/notifications.py:9-18 | all of the caller's rows and only those, newest first |
| Notifications.NotificationTable.MarkAllRead | backend/app/routers/notifications.py:21-25 | afterwards none of the caller's rows is unread, and no other row changes |
| Collab.MemberCountZero | backend/app/routers/collab.py:38-41 | a room's count is 0 exactly when no membership row names it (also line 54) |
| Collab.Summary | backend/app/routers/collab.py:43-55 | the response row: description and language replaced by "" and "python" when missing or empty |
| Collab.Detail | backend/app/routers/collab.py:143-154 | the detail row with the room's code and the caller's membership flag |
| Collab.CountMembers | backend/app/routers/collab.py:38-41 | the loop counts, for every room id, exactly its membership rows (0 when absent) |
| Collab.CountedSummaries | backend/app/routers/collab.py:31-57 | each listed room gets its own member count |
| Collab.ListedRooms | backend/app/routers/collab.py:43-57 | only active rooms, every active room, newest first (also line 20-27) |
| Collab.JoinTwiceOneRow | backend/app/routers/collab.py:204-211 | joining twice leaves the table as one join left it, with one row for the pair |
| Collab.LeaveScoped | backend/app/routers/collab.py:235-238 | leaving removes only the caller's membership of that room, and leaving twice is leaving once |
| Collab.CollabTables.ListCollabRooms | backend/app/routers/collab.py:17-57 | active rooms only, newest first, each with its membership count |
| Collab.CollabTables.CreateCollabRoom | backend/app/routers/collab.py:60-110 | the room has empty code and the creator as a member; the reply's `member_count` is 1 and matches the table |
| Collab.CollabTables.GetCollabRoom | backend/app/routers/collab.py:113-154 | 404 exactly when no active room has the id; otherwise `is_member` tells whether the caller has a row |
| Collab.CollabTables.DeleteCollabRoom | backend/app/routers/collab.py:157-182 | 404 for a missing room, 403 unless the caller created it; only then is the room removed |
| Collab.CollabTables.JoinCollabRoom | backend/app/routers/collab.py:184-227 | 404 unless the room is active; otherwise an upsert on (room, user) leaving exactly one row for the pair |
| Collab.JoinKeepsValid | backend/app/routers/collab.py:184-227 | upserting a membership of an existing room keeps one row per (room, user) and memberships only of created rooms |
| Collab.CollabTables.LeaveCollabRoom | backend/app/routers/collab.py:229-239 | deletes only the caller's membership of that room; no error when there is none |
| Collab.CollabTables.SaveCollabRoomCode | backend/app/routers/collab.py:241-274 | 403 for a non-member, then 404 for a missing room; otherwise only `code` of that room changes |
| Organisations.OrgTables.GetMyOrganisations | backend/app/routers/organisations.py:17-36 | exactly the organisations the caller belongs to, and [] when they belong to none |
| Organisations.SelectedByMembership | backend/app/routers/organisations.py:20-35 | the `in_("id", org_ids)` query selects exactly the organisations the caller belongs to |
| Organisations.OrgTables.CreateOrganisation | backend/app/routers/organisations.py:44-63 | the name defaults to "New Organisation"; the creator becomes the one member, with role "admin" |
| Organisations.OrgTables.JoinOrganisationByCode | backend/app/routers/organisations.py:71-95 | a missing code is 400 and an unknown one 404; otherwise an upsert on (organisation, user) with role "member", leaving one row |
| Organisations.OrgTables.GetOrganisation | backend/app/routers/organisations.py:103-128 | 404 for a missing organisation, then 403 for a non-member |
| Organisations.OrgTables.ListOrganisationMembers | backend/app/routers/organisations.py:136-158 | 403 for a non-member; otherwise exactly that organisation's membership rows, the caller's among them |
| Organisations.OrgTables.ListOrgChatMessages | backend/app/routers/organisations.py:166-189 | 403 for a non-member; otherwise exactly that organisation's messages, ascending by `created_at` |
| Organisations.OrgTables.LeaveOrganisation | backend/app/routers/organisations.py:197-220 | 404 for a missing organisation; otherwise only the caller's membership row goes |
| Organisations.OrgTables.PostOrgChatMessage | backend/app/routers/organisations.py:228-255 | 403 for a non-member; content empty after stripping is 400; otherwise the stripped, non-empty content is stored |
| Organisations.JoinTwiceOneRow | backend/app/routers/organisations.py:91-94 | repeated joins leave the table as one join left it, with one row |
| Organisations.JoinLeavesOthers | backend/app/routers/organisations.py:91-94 | a join touches no other (organisation, user) pair |
| Organisations.LeaveScoped | backend/app/routers/organisations.py:213-219 | leaving deletes only the caller's row of that organisation, and is idempotent |
| Rooms.WithDocument | backend/app/main.py:179-197 | the room with its document, or no document id, "" and "javascript" when it has none |
| Rooms.RoomTables.CreateRoom | backend/app/main.py:76-130 | name defaults to "Untitled Room" and must be 1..255, else 422; the creator is inserted as "owner"; one "javascript" document with empty content (also backend/app/schemas.py:7) |
| Rooms.RoomTables.ListRooms | backend/app/main.py:133-151 | exactly the caller's rooms, by `updated_at` descending, and [] without memberships |
| Rooms.RoomTables.GetRoom | backend/app/main.py:154-197 | 404 for a missing room, then 403 for a non-member; otherwise the room with its document |
| Rooms.RoomTables.JoinRoom | backend/app/main.py:200-239 | an empty slug is 422 and an unknown one 404; otherwise an upsert on (room, user) with role "member", leaving one row (also backend/app/schemas.py:35-36) |
| Rooms.SelectedByMembership | backend/app/main.py:135-150 | the `in_("id", room_ids)` query selects exactly the rooms the caller belongs to |
| Rooms.SortedRooms | backend/app/main.py:148 | sorting the caller's rooms keeps exactly those rooms and orders them by `updated_at` descending |
| Rooms.NoMembershipNoRooms | backend/app/main.py:135-145 | a caller without membership rows belongs to no room |
| Rooms.CreateKeepsValid | backend/app/main.py:76-130 | the room, its owner row and its document, stamped by the counters, keep ids ascending, slugs unique and one membership per (room, user) and one document per room |
| Rooms.JoinTwiceOneRow | backend/app/main.py:216-219 | joining twice leaves the table as one join left it, with one row |
| Profiles.Updates | backend/app/routers/profiles.py:48-50 | the dict holds exactly the fields that are not `None`, with their values, and is empty exactly when none is given |
| Profiles.Apply | backend/app/routers/profiles.py:60-64 | the given columns take their new values and every other column keeps its old one |
| Profiles.ApplyIdempotent | backend/app/routers/profiles.py:60-64 | saving the same update again changes nothing more |
| Profiles.ApplyReadsBack | backend/app/routers/profiles.py:48-64 | supplied fields read back as sent; the others, and id, user and timestamp, keep their old values |
| Profiles.ReplaceUnique | backend/app/routers/profiles.py:60-64 | updating the caller's row keeps `user_id` and `username` unique when no other user holds the new name (also line 6-13) |
| Profiles.SubmissionsListed | backend/app/routers/profiles.py:123-130 | the selected columns of the user's submissions, all and only those, newest first |
| Profiles.ActivityListed | backend/app/routers/profiles.py:156-163 | the selected columns of the user's comments, all and only those, newest first |
| Profiles.ProfileTable.UpdateMyProfile | backend/app/routers/profiles.py:33-79 | 422 out of bounds and 400 with no fields, both with no change; updates the caller's row or inserts one; the caller then has exactly one profile, holding the sent fields |
| Profiles.ProfileTable.UpdateOwnRow | backend/app/routers/profiles.py:59-79 | the caller's row takes the supplied fields, keeping id, user and timestamp; a username held by another user is a 500 with no change |
| Profiles.ProfileTable.InsertOwnRow | backend/app/routers/profiles.py:66-79 | a first row for the caller with the sent fields and fresh stamps; no username, or one held by another user, is a 500 with no change |
| Profiles.ReplaceKeepsValid | backend/app/routers/profiles.py:59-65 | updating the caller's row keeps rows stamped and `user_id` and `username` unique, and leaves the caller one row (also line 6-13) |
| Profiles.AppendKeepsValid | backend/app/routers/profiles.py:66-71 | inserting a caller's first row with a free username keeps the table valid and leaves the caller one row (also line 6-13) |
| Profiles.ProfileTable.GetProfile | backend/app/routers/profiles.py:84-97 | the profile with the username, or 404 exactly when there is none |
| Profiles.ProfileTable.GetUserSubmissions | backend/app/routers/profiles.py:106-130 | 404 exactly for an unknown username; otherwise that user's submissions, newest first |
| Profiles.ProfileTable.GetUserActivity | backend/app/routers/profiles.py:139-163 | 404 exactly for an unknown username; otherwise that user's comments, newest first |
| Attachments.SafeName | backend/app/routers/attachments.py:46 | the file name, "file" when absent or empty, with every space replaced by `_`; non-empty and space-free |
| Attachments.SafeNameKeepsPlainNames | backend/app/routers/attachments.py:46 | a non-empty name without spaces is kept as it is |
| Attachments.SafeNameStable | backend/app/routers/attachments.py:46 | sanitising a sanitised name changes nothing |
| Attachments.StoragePath | backend/app/routers/attachments.py:47 | starts with `submission_id + "/"`, holds the prefix next, and ends with `"_" + safe_name` |
| Attachments.StoragePathsSeparateSubmissions | backend/app/routers/attachments.py:47 | uploads to two different submissions (ids without `/`) never share a storage path |
| Attachments.AttachmentTable.UploadAttachment | backend/app/routers/attachments.py:31-84 | over 10 MB is 413 and a failed blob upload 500, both with no row; otherwise one row whose size is the content length, uploader the caller and type defaulting to "application/octet-stream" (also line 11) |
| Attachments.AttachmentTable.ListAttachments | backend/app/routers/attachments.py:87-99 | that submission's rows and only those, ascending by `created_at` |
| Attachments.AttachmentTable.DeleteAttachment | backend/app/routers/attachments.py:102-127 | 404 unless the attachment belongs to the submission, 403 unless the caller uploaded it; otherwise exactly that row goes, whatever the blob store did |
| Config.StrippedNonEmptyClean | backend/app/config.py:14 | each kept piece is non-empty and already stripped |
| Config.StrippedNonEmptyAvoids | backend/app/config.py:14 | a character that no split piece holds is in no kept piece |
| Config.CorsOriginsClean | backend/app/config.py:14 | no origin is empty, carries surrounding whitespace, or holds a comma |
| Config.CorsOrderPreserved | backend/app/config.py:14 | the origins keep the order in which the setting lists them |
| Config.CorsSingle | backend/app/config.py:14 | a setting without commas gives its stripped text, or nothing when blank |
| Config.CorsDefault | backend/app/config.py:8-14 | the default setting yields `["http://localhost:3000"]` |
| Text.Strip | backend/app/config.py:14 | the result neither starts nor ends with whitespace, and is empty exactly when the input is all whitespace |
| Text.StripSlice | backend/app/config.py:14 | what `strip()` keeps is one slice of the input, and what it cuts at both ends is whitespace |
| Text.StripIdempotent | backend/app/config.py:14 | stripping twice is stripping once |
| Text.SplitJoinsBack | backend/app/config.py:14 | no piece of `split(sep)` holds the separator, and joining the pieces with it gives back the input |
| Text.SplitConcat | backend/app/config.py:14 | splitting `a + sep + b` gives the pieces of `a` followed by those of `b` |
| Text.ReplaceChar | backend/app/routers/attachments.py:46 | every occurrence of the character is replaced and nothing else changes |
| Sorting.SortBy | backend/app/routers/messages.py:53 | the result is a permutation of the input, ordered by the key |
| Query.FindOwned | backend/app/routers/submissions.py:29-44 | 404 exactly when no row matches; 403 when the matching row belongs to someone else; otherwise the owner's row |
| Query.UpsertUnique | backend/app/main.py:216-219 | an upsert on a unique key keeps the key unique and leaves exactly one row for the written key |
| Query.UpsertTwice | backend/app/routers/organisations.py:91-94 | a second upsert on the same key changes nothing when its merge writes back what the first one wrote |
| Query.DeleteKeyFacts | backend/app/routers/collab.py:235-238 | a delete on a key removes every row with that key, keeps every other key's rows, and is idempotent |

## Left out

- backend/app/routers/execute.py is not part of this model: it runs external interpreters in subprocesses.
- backend/app/auth.py is not part of this model: JWT decoding is done by a foreign library. The caller arrives already verified as `(sub, email)`.
- backend/app/routers/leaderboard.py is not part of this model: its ranking is a store-side procedure whose code is not available.
- The store client and network failures: the handlers' generic `except Exception` wrapping into 500 is modelled only where a table constraint makes a write fail (the profile `username` constraints). Every "Failed to …" 500 that the code raises on an empty store reply is not modelled: "Failed to create…", "Failed to send message" (chat.py, messages.py), "Failed to send" (organisations.py) and "Failed to save profile" (profiles.py).
- Blob storage in attachments.py: bucket creation, the upload, the public URL and the removal. The upload's success, the random 8-character prefix and the URL are parameters. A missing metadata row after a successful blob upload, which leaves an orphaned file, is not modelled.
- `ALLOWED_TYPES` in attachments.py only configures the bucket; the handler never checks content types.
- In main.py: slug generation with `secrets.token_urlsafe` (the slug is a parameter, fresh by precondition), the CORS middleware and the lifespan hook.
- The fresh `invite_code` of an organisation is a store default in the source. It is a parameter of `Organisations.OrgTables.CreateOrganisation`, fresh by precondition.
- Concurrency: each handler is one atomic step. The check-then-write races of `upsert_vote`, `toggle_reaction` and `update_my_profile` are not modelled.
- Deletes do not cascade: deleting a room, submission or message leaves the rows that refer to it. The handlers rely on store cascades that are not shown.
- `user_color` of collab memberships is always `None` and is not modelled.
- The collab request and response schemas are not in schemas.py, so no bounds are modelled on their fields.
- `.single()` with no matching row is modelled as "no data", which gives the handler's 404. The real client raises an error there, which the generic wrapper would report as 500.
- `recipient_email` / `sender_email` of direct messages: `send_message` never writes `recipient_email`, so it is `None` in every row the model creates.
- Organisations.OrgTables.JoinOrganisationByCode, Rooms.RoomTables.JoinRoom: a rejoin overwrites the role (an "owner" or "admin" becomes "member") exactly as the upsert does. The model states this and does not protect the role.
- Collab.CollabTables.JoinCollabRoom: collab memberships have no role; a rejoin rewrites the row's `user_email` with the caller's current one and keeps its id, exactly as the upsert does.
- DirectMessages.DirectMessageTable.ListConversations: the docstring promises each partner "with their latest message", but the code takes the newest message the caller sent whenever there is one, even if the partner replied later; the model follows the code.
- Organisations.OrgTables.LeaveOrganisation: the docstring says admins and creators cannot leave; the code never enforces this, so there is no 403.
- Sorting.SortBy: Python's sort is stable and so is the model's insertion sort, but only the permutation and the order are stated, not stability.
- Profiles.ProfileTable.GetUserSubmissions and Profiles.ProfileTable.GetUserActivity: `line_number` is not part of the comment rows, so the activity rows omit it.
- Timestamps are the store's counter, not wall-clock times. `updated_at` of rooms is whatever the store recorded; no handler shown changes it.
