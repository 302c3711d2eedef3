/** A user's notifications (backend/app/routers/notifications.py): the caller's
    own rows newest first, and the bulk "mark all read". No handler here
    creates notifications; the table is whatever the store holds. */
module Notifications {
  import opened Common
  import opened Query

  datatype Notification = Notification(id: Id, userId: string, message: string, kind: string, isRead: bool, createdAt: int)

  function NotificationId(n: Notification): int { n.id }
  function NotificationAt(n: Notification): int { n.createdAt }
  function ForUser(u: string): Notification -> bool { (n: Notification) => n.userId == u }

  /** `update({"is_read": True}).eq("user_id", u).eq("is_read", False)`. */
  function AllRead(rows: seq<Notification>, u: string): (r: seq<Notification>)
    ensures |r| == |rows|
  {
    seq(|rows|, i requires 0 <= i < |rows| =>
      if rows[i].userId == u && !rows[i].isRead then rows[i].(isRead := true) else rows[i])
  }

  /** Other users' rows are untouched; each of the user's rows keeps everything
      but its read flag, which is set. */
  lemma AllReadScoped(rows: seq<Notification>, u: string)
    ensures forall i :: 0 <= i < |rows| && rows[i].userId != u ==> AllRead(rows, u)[i] == rows[i]
    ensures forall i :: 0 <= i < |rows| && rows[i].userId == u ==>
      AllRead(rows, u)[i] == rows[i].(isRead := true)
    ensures forall i :: 0 <= i < |AllRead(rows, u)| && AllRead(rows, u)[i].userId == u ==> AllRead(rows, u)[i].isRead
  {
  }

  /** A second "mark all read" changes nothing. */
  lemma AllReadIdempotent(rows: seq<Notification>, u: string)
    ensures AllRead(AllRead(rows, u), u) == AllRead(rows, u)
  {
  }

  /** When the user has nothing unread the update matches no row. */
  lemma AllReadNoop(rows: seq<Notification>, u: string)
    requires forall i :: 0 <= i < |rows| && rows[i].userId == u ==> rows[i].isRead
    ensures AllRead(rows, u) == rows
  {
  }

  class NotificationTable {
    var rows: seq<Notification>
    var nextId: nat
    var clock: int

    ghost predicate Valid()
      reads this
    {
      Stamped(rows, NotificationId, NotificationAt, nextId, clock)
    }

    /** The table as other parts of the system left it. */
    constructor (initial: seq<Notification>, nextId0: nat, clock0: int)
      requires Stamped(initial, NotificationId, NotificationAt, nextId0, clock0)
      ensures Valid() && rows == initial && nextId == nextId0 && clock == clock0
    {
      rows := initial;
      nextId := nextId0;
      clock := clock0;
    }

    /** `list_notifications`: all of the caller's rows and only those, newest first. */
    method ListNotifications(caller: Caller) returns (r: seq<Notification>)
      requires Valid()
      ensures forall i :: 0 <= i < |r| ==> r[i] in rows && r[i].userId == caller.sub
      ensures forall j :: 0 <= j < |rows| && rows[j].userId == caller.sub ==> rows[j] in r
      ensures |r| == |Filter(rows, ForUser(caller.sub))|
      ensures Descending(r, NotificationAt)
    {
      StampedAscending(rows, NotificationId, NotificationAt, nextId, clock);
      NewestFirstFacts(rows, ForUser(caller.sub), NotificationAt);
      r := NewestFirst(rows, ForUser(caller.sub));
    }

    /** `mark_all_read`: afterwards none of the caller's rows is unread; no
        other row changes. */
    method MarkAllRead(caller: Caller)
      requires Valid()
      modifies this
      ensures Valid()
      ensures rows == AllRead(old(rows), caller.sub)
      ensures forall i :: 0 <= i < |rows| && rows[i].userId == caller.sub ==> rows[i].isRead
      ensures nextId == old(nextId) && clock == old(clock)
    {
      var marked := AllRead(rows, caller.sub);
      StampedPointwise(rows, marked, NotificationId, NotificationAt, nextId, clock);
      AllReadScoped(rows, caller.sub);
      rows := marked;
    }
  }
}
