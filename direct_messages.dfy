/** One-to-one messages (backend/app/routers/messages.py): the
    `direct_messages` table, the conversation-partner list, the merged thread
    with one partner, sending and the scoped "mark as read". */
module DirectMessages {
  import opened Common
  import opened Query
  import opened Sorting

  /** `recipient_email` is a column the handlers read but never write. */
  datatype DirectMessage = DirectMessage(
    id: Id, senderId: string, senderEmail: string, recipientId: string,
    recipientEmail: Option<string>, content: string, isRead: bool, createdAt: int)

  /** One entry of `list_conversations`. */
  datatype Partner = Partner(userId: string, userEmail: Option<string>, lastMessage: string, lastAt: int)

  const MaxContent: nat := 5000

  function MessageId(m: DirectMessage): int { m.id }
  function MessageAt(m: DirectMessage): int { m.createdAt }
  function SentBy(u: string): DirectMessage -> bool { (m: DirectMessage) => m.senderId == u }
  function ReceivedBy(u: string): DirectMessage -> bool { (m: DirectMessage) => m.recipientId == u }
  function Between(from: string, to: string): DirectMessage -> bool {
    (m: DirectMessage) => m.senderId == from && m.recipientId == to
  }

  function PartnerId(p: Partner): string { p.userId }
  function LastAt(p: Partner): int { p.lastAt }
  /** The sort key of `sorted(..., key=last_at, reverse=True)`. */
  function NegLastAt(p: Partner): int { -p.lastAt }
  function WithPartner(pid: string): Partner -> bool { (p: Partner) => p.userId == pid }

  /** The entry a sent message proposes: its recipient. */
  function AsSent(m: DirectMessage): Partner {
    Partner(m.recipientId, m.recipientEmail, m.content, m.createdAt)
  }

  /** The entry a received message proposes: its sender. */
  function AsReceived(m: DirectMessage): Partner {
    Partner(m.senderId, Some(m.senderEmail), m.content, m.createdAt)
  }

  /** The other party of a message the caller sent or received. */
  function PartnerOf(m: DirectMessage, me: string): string {
    if m.senderId == me then m.recipientId else m.senderId
  }

  /** The proposals of both loops of `list_conversations`, in the order they
      are offered: the sent messages, then the received ones. */
  function Candidates(sent: seq<DirectMessage>, received: seq<DirectMessage>): (cs: seq<Partner>)
    ensures |cs| == |sent| + |received|
    ensures forall t :: 0 <= t < |sent| ==> cs[t] == AsSent(sent[t])
    ensures forall t :: |sent| <= t < |cs| ==> cs[t] == AsReceived(received[t - |sent|])
  {
    seq(|sent|, i requires 0 <= i < |sent| => AsSent(sent[i]))
      + seq(|received|, i requires 0 <= i < |received| => AsReceived(received[i]))
  }

  /** `view` is what `select ... where p order by created_at desc` returns:
      rows of the table that satisfy `p`, all of them, newest first. */
  ghost predicate NewestView(view: seq<DirectMessage>, rows: seq<DirectMessage>, p: DirectMessage -> bool) {
    && (forall t :: 0 <= t < |view| ==> view[t] in rows && p(view[t]))
    && (forall j :: 0 <= j < |rows| && p(rows[j]) ==> rows[j] in view)
    && Descending(view, MessageAt)
  }

  /** The `partners` dict, in insertion order, after offering each candidate in
      turn: a partner already present keeps its entry. */
  function FirstSeen(cs: seq<Partner>): seq<Partner> {
    if cs == [] then []
    else
      var acc := FirstSeen(cs[..|cs| - 1]);
      var c := cs[|cs| - 1];
      if Find(acc, WithPartner(c.userId)).Some? then acc else acc + [c]
  }

  /** One more candidate offered to the dict. */
  lemma FirstSeenStep(cs: seq<Partner>, i: nat)
    requires i < |cs|
    ensures FirstSeen(cs[..i + 1]) ==
      if Find(FirstSeen(cs[..i]), WithPartner(cs[i].userId)).Some? then FirstSeen(cs[..i]) else FirstSeen(cs[..i]) + [cs[i]]
  {
    assert cs[..i + 1][..i] == cs[..i];
  }

  /** No partner appears twice. */
  lemma {:induction false} FirstSeenUnique(cs: seq<Partner>)
    ensures UniqueBy(FirstSeen(cs), PartnerId)
  {
    if cs != [] {
      var s := cs[..|cs| - 1];
      var c := cs[|cs| - 1];
      FirstSeenUnique(s);
      var acc := FirstSeen(s);
      if Find(acc, WithPartner(c.userId)).None? {
        UniqueByAppend(acc, c, PartnerId);
      }
    }
  }

  /** Every candidate's partner has an entry. */
  lemma {:induction false} FirstSeenCovers(cs: seq<Partner>)
    ensures forall k :: 0 <= k < |cs| ==> Find(FirstSeen(cs), WithPartner(cs[k].userId)).Some?
  {
    if cs != [] {
      var s := cs[..|cs| - 1];
      var c := cs[|cs| - 1];
      FirstSeenCovers(s);
      var acc := FirstSeen(s);
      var f := FirstSeen(cs);
      forall k | 0 <= k < |cs| ensures Find(f, WithPartner(cs[k].userId)).Some? {
        if k < |s| {
          assert cs[k] == s[k];
          assert Find(acc, WithPartner(s[k].userId)).Some?;
        }
        if f != acc {
          FindSnoc(acc, c, WithPartner(cs[k].userId));
        }
      }
    }
  }

  /** Each entry is the first candidate proposing that partner. */
  lemma {:induction false} FirstSeenFirst(cs: seq<Partner>)
    ensures forall i :: 0 <= i < |FirstSeen(cs)| ==>
      && Find(cs, WithPartner(FirstSeen(cs)[i].userId)).Some?
      && FirstSeen(cs)[i] == cs[Find(cs, WithPartner(FirstSeen(cs)[i].userId)).value]
  {
    if cs != [] {
      var s := cs[..|cs| - 1];
      var c := cs[|cs| - 1];
      assert cs == s + [c];
      FirstSeenFirst(s);
      var acc := FirstSeen(s);
      var f := FirstSeen(cs);
      forall i | 0 <= i < |f| ensures
        && Find(cs, WithPartner(f[i].userId)).Some?
        && f[i] == cs[Find(cs, WithPartner(f[i].userId)).value]
      {
        if i < |acc| {
          assert f[i] == acc[i];
          FindSnoc(s, c, WithPartner(acc[i].userId));
        } else {
          assert f == acc + [c] && f[i] == c;
          FirstSeenCovers(s);
          assert Find(s, WithPartner(c.userId)).None? by {
            if k :| 0 <= k < |s| && s[k].userId == c.userId {
              assert false;
            }
          }
          FindSnoc(s, c, WithPartner(c.userId));
        }
      }
    }
  }

  /** The two loops of `list_conversations` filling the `partners` dict: first
      the recipients of the sent messages, then the senders of the received
      ones, each partner keeping the first entry offered for it. */
  method CollectPartners(sent: seq<DirectMessage>, received: seq<DirectMessage>) returns (partners: seq<Partner>)
    ensures partners == FirstSeen(Candidates(sent, received))
  {
    ghost var cs := Candidates(sent, received);
    partners := [];
    var i := 0;
    while i < |sent|
      invariant 0 <= i <= |sent|
      invariant partners == FirstSeen(cs[..i])
    {
      var pid := sent[i].recipientId;
      assert cs[i] == AsSent(sent[i]);
      FirstSeenStep(cs, i);
      if Find(partners, WithPartner(pid)).None? {
        partners := partners + [AsSent(sent[i])];
      }
      i := i + 1;
    }
    var j := 0;
    while j < |received|
      invariant 0 <= j <= |received|
      invariant partners == FirstSeen(cs[..|sent| + j])
    {
      var pid := received[j].senderId;
      assert cs[|sent| + j] == AsReceived(received[j]);
      FirstSeenStep(cs, |sent| + j);
      if Find(partners, WithPartner(pid)).None? {
        partners := partners + [AsReceived(received[j])];
      }
      j := j + 1;
    }
    ghost var offered := cs[..|sent| + j];
    assert offered == cs;
  }

  /** Message `k` is the newest of the messages `q` selects. */
  ghost predicate NewestAmong(rows: seq<DirectMessage>, k: nat, q: DirectMessage -> bool)
    requires k < |rows|
  {
    q(rows[k]) && forall j :: 0 <= j < |rows| && q(rows[j]) ==> rows[j].createdAt <= rows[k].createdAt
  }

  /** The entry a partner should have: built from the newest message the caller
      sent them if there is one, otherwise from the newest one received from them. */
  ghost predicate LatestWith(rows: seq<DirectMessage>, me: string, p: Partner) {
    || (exists k :: 0 <= k < |rows| && NewestAmong(rows, k, Between(me, p.userId)) && p == AsSent(rows[k]))
    || (&& (forall j :: 0 <= j < |rows| ==> !Between(me, p.userId)(rows[j]))
        && exists k :: 0 <= k < |rows| && NewestAmong(rows, k, Between(p.userId, me)) && p == AsReceived(rows[k]))
  }

  /** A first candidate from the sent part is built from the newest message
      the caller sent that partner. */
  lemma FirstSentIsLatest(rows: seq<DirectMessage>, me: string, sent: seq<DirectMessage>, received: seq<DirectMessage>, pid: string, c: nat)
    requires NewestView(sent, rows, SentBy(me))
    requires Find(Candidates(sent, received), WithPartner(pid)) == Some(c) && c < |sent|
    ensures LatestWith(rows, me, Candidates(sent, received)[c])
  {
    var cs := Candidates(sent, received);
    var m := sent[c];
    assert cs[c] == AsSent(m) && m.recipientId == pid && m.senderId == me;
    var k :| 0 <= k < |rows| && rows[k] == m;
    forall j | 0 <= j < |rows| && Between(me, pid)(rows[j]) ensures rows[j].createdAt <= m.createdAt {
      assert SentBy(me)(rows[j]);
      var t :| 0 <= t < |sent| && sent[t] == rows[j];
      assert cs[t] == AsSent(sent[t]);
      assert !(t < c);
    }
    assert 0 <= k < |rows| && NewestAmong(rows, k, Between(me, pid)) && cs[c] == AsSent(rows[k]);
  }

  /** A first candidate from the received part means the caller sent that
      partner nothing. */
  lemma NothingSentBefore(rows: seq<DirectMessage>, me: string, sent: seq<DirectMessage>, received: seq<DirectMessage>, pid: string, c: nat)
    requires NewestView(sent, rows, SentBy(me))
    requires Find(Candidates(sent, received), WithPartner(pid)) == Some(c) && c >= |sent|
    ensures forall j :: 0 <= j < |rows| ==> !Between(me, pid)(rows[j])
  {
    var cs := Candidates(sent, received);
    forall t | 0 <= t < |sent| ensures sent[t].recipientId != pid {
      assert cs[t] == AsSent(sent[t]);
    }
  }

  /** Received messages offered before the first candidate for `pid` come
      from other partners. */
  lemma EarlierReceivedOthers(sent: seq<DirectMessage>, received: seq<DirectMessage>, pid: string, c: nat)
    requires Find(Candidates(sent, received), WithPartner(pid)) == Some(c) && c >= |sent|
    ensures forall t :: 0 <= t < c - |sent| ==> received[t].senderId != pid
  {
    var cs := Candidates(sent, received);
    forall t | 0 <= t < c - |sent| ensures received[t].senderId != pid {
      var j := |sent| + t;
      assert !WithPartner(pid)(cs[j]);
      assert cs[j] == AsReceived(received[t]);
    }
  }

  /** ... and the entry is built from the newest message received from them. */
  lemma ReceivedNewest(rows: seq<DirectMessage>, me: string, sent: seq<DirectMessage>, received: seq<DirectMessage>, pid: string, c: nat)
    requires NewestView(received, rows, ReceivedBy(me))
    requires Find(Candidates(sent, received), WithPartner(pid)) == Some(c) && c >= |sent|
    ensures exists k :: 0 <= k < |rows| && NewestAmong(rows, k, Between(pid, me)) && Candidates(sent, received)[c] == AsReceived(rows[k])
  {
    var cs := Candidates(sent, received);
    var n := |sent|;
    var m := received[c - n];
    assert cs[c] == AsReceived(m) && m.senderId == pid && m.recipientId == me;
    var k :| 0 <= k < |rows| && rows[k] == m;
    EarlierReceivedOthers(sent, received, pid, c);
    forall j | 0 <= j < |rows| && Between(pid, me)(rows[j]) ensures rows[j].createdAt <= m.createdAt {
      assert ReceivedBy(me)(rows[j]);
      var t :| 0 <= t < |received| && received[t] == rows[j];
      if t != c - n {
        assert c - n < t;
      }
    }
    assert NewestAmong(rows, k, Between(pid, me));
  }

  /** Every message the caller sent or received proposes its other party. */
  lemma EveryPartnerProposed(rows: seq<DirectMessage>, me: string, sent: seq<DirectMessage>, received: seq<DirectMessage>, k: nat)
    requires NewestView(sent, rows, SentBy(me)) && NewestView(received, rows, ReceivedBy(me))
    requires k < |rows| && (rows[k].senderId == me || rows[k].recipientId == me)
    ensures Find(Candidates(sent, received), WithPartner(PartnerOf(rows[k], me))).Some?
  {
    var cs := Candidates(sent, received);
    if rows[k].senderId == me {
      assert SentBy(me)(rows[k]);
      var t :| 0 <= t < |sent| && sent[t] == rows[k];
      assert WithPartner(PartnerOf(rows[k], me))(cs[t]);
    } else {
      assert ReceivedBy(me)(rows[k]);
      var t :| 0 <= t < |received| && received[t] == rows[k];
      assert WithPartner(PartnerOf(rows[k], me))(cs[|sent| + t]);
    }
  }

  /** The two queries of `list_conversations`, on a stamped table. */
  lemma ConversationViews(rows: seq<DirectMessage>, me: string, nextId: int, clock: int)
    requires Stamped(rows, MessageId, MessageAt, nextId, clock)
    ensures NewestView(NewestFirst(rows, SentBy(me)), rows, SentBy(me))
    ensures NewestView(NewestFirst(rows, ReceivedBy(me)), rows, ReceivedBy(me))
  {
    NewestFirstFacts(rows, SentBy(me), MessageAt);
    NewestFirstFacts(rows, ReceivedBy(me), MessageAt);
  }

  /** What `list_conversations` promises of the `partners` dict before sorting. */
  lemma ConversationsFacts(rows: seq<DirectMessage>, me: string, sent: seq<DirectMessage>, received: seq<DirectMessage>)
    requires NewestView(sent, rows, SentBy(me)) && NewestView(received, rows, ReceivedBy(me))
    ensures var ps := FirstSeen(Candidates(sent, received));
      && UniqueBy(ps, PartnerId)
      && (forall i :: 0 <= i < |ps| ==> LatestWith(rows, me, ps[i]))
      && (forall k :: 0 <= k < |rows| && (rows[k].senderId == me || rows[k].recipientId == me) ==>
            Find(ps, WithPartner(PartnerOf(rows[k], me))).Some?)
  {
    var cs := Candidates(sent, received);
    var ps := FirstSeen(cs);
    FirstSeenUnique(cs);
    FirstSeenCovers(cs);
    FirstSeenFirst(cs);
    forall i | 0 <= i < |ps| ensures LatestWith(rows, me, ps[i]) {
      var pid := ps[i].userId;
      var c := Find(cs, WithPartner(pid)).value;
      if c < |sent| {
        FirstSentIsLatest(rows, me, sent, received, pid, c);
      } else {
        NothingSentBefore(rows, me, sent, received, pid, c);
        ReceivedNewest(rows, me, sent, received, pid, c);
        assert cs[c].userId == pid;
      }
    }
    forall k | 0 <= k < |rows| && (rows[k].senderId == me || rows[k].recipientId == me)
      ensures Find(ps, WithPartner(PartnerOf(rows[k], me))).Some?
    {
      EveryPartnerProposed(rows, me, sent, received, k);
      var c := Find(cs, WithPartner(PartnerOf(rows[k], me))).value;
      assert cs[c].userId == PartnerOf(rows[k], me);
    }
  }

  /** Sorting the entries keeps what is known of each of them. */
  lemma SortedKeepsFacts(rows: seq<DirectMessage>, me: string, ps: seq<Partner>, r: seq<Partner>)
    requires multiset(r) == multiset(ps) && NonDecreasing(r, NegLastAt)
    requires UniqueBy(ps, PartnerId)
    requires forall i :: 0 <= i < |ps| ==> LatestWith(rows, me, ps[i])
    requires forall k :: 0 <= k < |rows| && (rows[k].senderId == me || rows[k].recipientId == me) ==>
      Find(ps, WithPartner(PartnerOf(rows[k], me))).Some?
    ensures UniqueBy(r, PartnerId)
    ensures forall i, j :: 0 <= i < j < |r| ==> r[i].lastAt >= r[j].lastAt
    ensures forall i :: 0 <= i < |r| ==> LatestWith(rows, me, r[i])
    ensures forall k :: 0 <= k < |rows| && (rows[k].senderId == me || rows[k].recipientId == me) ==>
      exists i :: 0 <= i < |r| && r[i].userId == PartnerOf(rows[k], me)
  {
    UniqueByPermutation(ps, r, PartnerId);
    forall i, j | 0 <= i < j < |r| ensures r[i].lastAt >= r[j].lastAt {
      assert NegLastAt(r[i]) <= NegLastAt(r[j]);
    }
    forall i | 0 <= i < |r| ensures LatestWith(rows, me, r[i]) {
      assert r[i] in multiset(ps);
      var a :| 0 <= a < |ps| && ps[a] == r[i];
    }
    forall k | 0 <= k < |rows| && (rows[k].senderId == me || rows[k].recipientId == me)
      ensures exists i :: 0 <= i < |r| && r[i].userId == PartnerOf(rows[k], me)
    {
      var c := Find(ps, WithPartner(PartnerOf(rows[k], me))).value;
      assert ps[c] in multiset(r);
      var i :| 0 <= i < |r| && r[i] == ps[c];
    }
  }

  /** Everything `list_conversations` promises, for any ordering of the
      `partners` dict by descending `last_at`. */
  lemma ConversationsSorted(rows: seq<DirectMessage>, me: string, nextId: int, clock: int, r: seq<Partner>)
    requires Stamped(rows, MessageId, MessageAt, nextId, clock)
    requires multiset(r) == multiset(FirstSeen(Candidates(NewestFirst(rows, SentBy(me)), NewestFirst(rows, ReceivedBy(me)))))
    requires NonDecreasing(r, NegLastAt)
    ensures UniqueBy(r, PartnerId)
    ensures forall i, j :: 0 <= i < j < |r| ==> r[i].lastAt >= r[j].lastAt
    ensures forall i :: 0 <= i < |r| ==> LatestWith(rows, me, r[i])
    ensures forall k :: 0 <= k < |rows| && (rows[k].senderId == me || rows[k].recipientId == me) ==>
      exists i :: 0 <= i < |r| && r[i].userId == PartnerOf(rows[k], me)
  {
    var sent := NewestFirst(rows, SentBy(me));
    var received := NewestFirst(rows, ReceivedBy(me));
    ConversationViews(rows, me, nextId, clock);
    ConversationsFacts(rows, me, sent, received);
    SortedKeepsFacts(rows, me, FirstSeen(Candidates(sent, received)), r);
  }

  /** The marks a bulk "mark as read" from `from` to `to` leaves. */
  function MarkedRead(rows: seq<DirectMessage>, from: string, to: string): (r: seq<DirectMessage>)
    ensures |r| == |rows|
  {
    seq(|rows|, i requires 0 <= i < |rows| =>
      if Between(from, to)(rows[i]) && !rows[i].isRead then rows[i].(isRead := true) else rows[i])
  }

  /** Only messages from `from` to `to` change, and only in their read flag;
      afterwards all of them are read. */
  lemma MarkReadScoped(rows: seq<DirectMessage>, from: string, to: string)
    ensures forall i :: 0 <= i < |rows| && !Between(from, to)(rows[i]) ==> MarkedRead(rows, from, to)[i] == rows[i]
    ensures forall i :: 0 <= i < |rows| && Between(from, to)(rows[i]) ==>
      MarkedRead(rows, from, to)[i] == rows[i].(isRead := true)
    ensures forall i :: 0 <= i < |rows| && Between(from, to)(rows[i]) ==> MarkedRead(rows, from, to)[i].isRead
  {
  }

  lemma MarkReadIdempotent(rows: seq<DirectMessage>, from: string, to: string)
    ensures MarkedRead(MarkedRead(rows, from, to), from, to) == MarkedRead(rows, from, to)
  {
  }

  class DirectMessageTable {
    var rows: seq<DirectMessage>
    var nextId: nat
    var clock: int

    /** Stamped by the store, and no message is addressed to its own sender,
        since `send_message` refuses that. */
    ghost predicate Valid()
      reads this
    {
      && Stamped(rows, MessageId, MessageAt, nextId, clock)
      && forall i :: 0 <= i < |rows| ==> rows[i].senderId != rows[i].recipientId
    }

    constructor ()
      ensures Valid() && rows == [] && nextId == 0 && clock == 0
    {
      rows := [];
      nextId := 0;
      clock := 0;
    }

    /** `list_conversations`: one entry per partner, built from the latest
        message with them, newest conversation first. */
    method ListConversations(caller: Caller) returns (r: seq<Partner>)
      requires Valid()
      ensures UniqueBy(r, PartnerId)
      ensures forall i, j :: 0 <= i < j < |r| ==> r[i].lastAt >= r[j].lastAt
      ensures forall i :: 0 <= i < |r| ==> LatestWith(rows, caller.sub, r[i])
      ensures forall k :: 0 <= k < |rows| && (rows[k].senderId == caller.sub || rows[k].recipientId == caller.sub) ==>
        exists i :: 0 <= i < |r| && r[i].userId == PartnerOf(rows[k], caller.sub)
      ensures multiset(r) == multiset(FirstSeen(Candidates(NewestFirst(rows, SentBy(caller.sub)), NewestFirst(rows, ReceivedBy(caller.sub)))))
    {
      var me := caller.sub;
      var sent := NewestFirst(rows, SentBy(me));
      var received := NewestFirst(rows, ReceivedBy(me));
      var partners := CollectPartners(sent, received);
      r := SortBy(partners, NegLastAt);
      ConversationsSorted(rows, me, nextId, clock, r);
    }

    /** `get_conversation`: both directions of the thread, oldest first. */
    method GetConversation(caller: Caller, other: string) returns (r: seq<DirectMessage>)
      requires Valid()
      ensures multiset(r) == multiset(Filter(rows, Between(caller.sub, other))) + multiset(Filter(rows, Between(other, caller.sub)))
      ensures NonDecreasing(r, MessageAt)
      ensures forall i :: 0 <= i < |r| ==>
        r[i] in rows && (Between(caller.sub, other)(r[i]) || Between(other, caller.sub)(r[i]))
      ensures forall k :: 0 <= k < |rows| && (Between(caller.sub, other)(rows[k]) || Between(other, caller.sub)(rows[k])) ==>
        rows[k] in r
    {
      var sent := Filter(rows, Between(caller.sub, other));
      var received := Filter(rows, Between(other, caller.sub));
      var all := sent + received;
      r := SortBy(all, MessageAt);
      forall i | 0 <= i < |r| ensures r[i] in rows && (Between(caller.sub, other)(r[i]) || Between(other, caller.sub)(r[i])) {
        assert r[i] in multiset(all);
        assert r[i] in sent || r[i] in received;
      }
      forall k | 0 <= k < |rows| && (Between(caller.sub, other)(rows[k]) || Between(other, caller.sub)(rows[k]))
        ensures rows[k] in r
      {
        assert rows[k] in all;
        assert rows[k] in multiset(r);
      }
    }

    /** `send_message`: refused for oneself; the new row is unread. */
    method SendMessage(caller: Caller, other: string, content: string) returns (r: Result<DirectMessage>)
      requires Valid()
      modifies this
      ensures Valid()
      ensures !Within(content, 1, MaxContent) ==>
        r == Err(Unprocessable) && rows == old(rows) && nextId == old(nextId) && clock == old(clock)
      ensures Within(content, 1, MaxContent) && other == caller.sub ==>
        r == Err(BadRequest) && rows == old(rows) && nextId == old(nextId) && clock == old(clock)
      ensures Within(content, 1, MaxContent) && other != caller.sub ==>
        && r == Ok(DirectMessage(old(nextId), caller.sub, EmailOf(caller), other, None, content, false, old(clock)))
        && rows == old(rows) + [r.value]
        && nextId == old(nextId) + 1 && clock == old(clock) + 1
    {
      if !Within(content, 1, MaxContent) {
        return Err(Unprocessable);
      }
      if other == caller.sub {
        return Err(BadRequest);
      }
      var row := DirectMessage(nextId, caller.sub, EmailOf(caller), other, None, content, false, clock);
      StampedAppend(rows, row, MessageId, MessageAt, nextId, clock);
      rows := rows + [row];
      nextId := nextId + 1;
      clock := clock + 1;
      r := Ok(row);
    }

    /** `mark_as_read`: the unread messages from `other` to the caller become read. */
    method MarkAsRead(caller: Caller, other: string)
      requires Valid()
      modifies this
      ensures Valid()
      ensures rows == MarkedRead(old(rows), other, caller.sub)
      ensures nextId == old(nextId) && clock == old(clock)
    {
      var marked := MarkedRead(rows, other, caller.sub);
      StampedPointwise(rows, marked, MessageId, MessageAt, nextId, clock);
      rows := marked;
    }
  }

  /** A thread with oneself is empty: no stored message has the same sender
      and recipient, so the two directions cannot repeat a message. */
  lemma SelfConversationEmpty(rows: seq<DirectMessage>, me: string)
    requires forall i :: 0 <= i < |rows| ==> rows[i].senderId != rows[i].recipientId
    ensures Filter(rows, Between(me, me)) == []
  {
    var f := Filter(rows, Between(me, me));
    if f != [] {
      assert false;
    }
  }
}
