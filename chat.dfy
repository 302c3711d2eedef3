/** The global chat (backend/app/routers/chat.py): the `chat_messages` table,
    author-only edits and deletes, and emoji reactions toggled per
    (message, user, emoji). */
module Chat {
  import opened Common
  import opened Query

  datatype ChatMessage = ChatMessage(id: Id, userId: string, userEmail: string, content: string, createdAt: int)

  datatype Reaction = Reaction(id: Id, messageId: Id, userId: string, userEmail: string, emoji: string)

  /** What a toggle looks for: one user's emoji on one message. */
  datatype ReactionKey = ReactionKey(messageId: Id, userId: string, emoji: string)

  datatype Toggle = On | Off

  /** `{"toggled": "on" | "off", "emoji": emoji}`. */
  datatype ToggleReply = ToggleReply(toggled: Toggle, emoji: string)

  const MaxContent: nat := 5000
  const MaxEmoji: nat := 10
  const PageSize: nat := 50

  function MessageId(m: ChatMessage): int { m.id }
  function MessageAt(m: ChatMessage): int { m.createdAt }
  function Author(m: ChatMessage): string { m.userId }
  function WithId(id: Id): ChatMessage -> bool { (m: ChatMessage) => m.id == id }

  function ReactionId(r: Reaction): int { r.id }
  function KeyOf(r: Reaction): ReactionKey { ReactionKey(r.messageId, r.userId, r.emoji) }
  function HasKey(k: ReactionKey): Reaction -> bool { (r: Reaction) => KeyOf(r) == k }

  /** The reactions after a toggle: the caller's matching row removed if there
      is one, otherwise a new row with `freshId` appended. */
  function ToggledReactions(rs: seq<Reaction>, messageId: Id, caller: Caller, emoji: string, freshId: Id): seq<Reaction> {
    match Find(rs, HasKey(ReactionKey(messageId, caller.sub, emoji)))
    case Some(k) => RemoveAt(rs, k)
    case None => rs + [Reaction(freshId, messageId, caller.sub, EmailOf(caller), emoji)]
  }

  lemma FindKeyIffPresent(rs: seq<Reaction>, key: ReactionKey)
    ensures Find(rs, HasKey(key)).Some? <==> key in KeysOf(rs, KeyOf)
  {
    if key in KeysOf(rs, KeyOf) {
      var i :| 0 <= i < |rs| && KeyOf(rs[i]) == key;
      assert HasKey(key)(rs[i]);
    }
  }

  /** A toggle flips the presence of its key, keeps keys unique and changes
      the key set by exactly that key. */
  lemma ToggleFlips(rs: seq<Reaction>, messageId: Id, caller: Caller, emoji: string, freshId: Id)
    requires UniqueBy(rs, KeyOf)
    ensures var key := ReactionKey(messageId, caller.sub, emoji);
            var t := ToggledReactions(rs, messageId, caller, emoji, freshId);
            && UniqueBy(t, KeyOf)
            && (key in KeysOf(t, KeyOf) <==> key !in KeysOf(rs, KeyOf))
            && KeysOf(t, KeyOf) == if key in KeysOf(rs, KeyOf) then KeysOf(rs, KeyOf) - {key}
                                   else KeysOf(rs, KeyOf) + {key}
  {
    var key := ReactionKey(messageId, caller.sub, emoji);
    FindKeyIffPresent(rs, key);
    match Find(rs, HasKey(key))
    case Some(k) =>
      UniqueByRemove(rs, k, KeyOf);
    case None =>
      UniqueByAppend(rs, Reaction(freshId, messageId, caller.sub, EmailOf(caller), emoji), KeyOf);
  }

  /** Toggling twice restores the set of (message, user, emoji) reactions. */
  lemma ToggleTwiceRestores(rs: seq<Reaction>, messageId: Id, caller: Caller, emoji: string, id1: Id, id2: Id)
    requires UniqueBy(rs, KeyOf)
    ensures KeysOf(ToggledReactions(ToggledReactions(rs, messageId, caller, emoji, id1), messageId, caller, emoji, id2), KeyOf)
         == KeysOf(rs, KeyOf)
  {
    var once := ToggledReactions(rs, messageId, caller, emoji, id1);
    ToggleFlips(rs, messageId, caller, emoji, id1);
    ToggleFlips(once, messageId, caller, emoji, id2);
  }

  /** From a state without the reaction, on-then-off gives back the very same
      table. */
  lemma OnThenOffIsIdentity(rs: seq<Reaction>, messageId: Id, caller: Caller, emoji: string, id1: Id, id2: Id)
    requires Find(rs, HasKey(ReactionKey(messageId, caller.sub, emoji))).None?
    ensures ToggledReactions(ToggledReactions(rs, messageId, caller, emoji, id1), messageId, caller, emoji, id2) == rs
  {
    var key := ReactionKey(messageId, caller.sub, emoji);
    var once := ToggledReactions(rs, messageId, caller, emoji, id1);
    assert HasKey(key)(once[|rs|]);
    assert Find(once, HasKey(key)) == Some(|rs|);
    assert RemoveAt(once, |rs|) == rs;
  }

  /** Reactions of other users, other emojis and other messages are untouched. */
  lemma ToggleLeavesOthers(rs: seq<Reaction>, messageId: Id, caller: Caller, emoji: string, freshId: Id, other: ReactionKey)
    requires other != ReactionKey(messageId, caller.sub, emoji)
    ensures Filter(ToggledReactions(rs, messageId, caller, emoji, freshId), HasKey(other)) == Filter(rs, HasKey(other))
  {
    match Find(rs, HasKey(ReactionKey(messageId, caller.sub, emoji)))
    case Some(k) =>
      FilterRemoveAt(rs, k, HasKey(other));
    case None =>
      FilterSnoc(rs, Reaction(freshId, messageId, caller.sub, EmailOf(caller), emoji), HasKey(other));
  }

  class ChatTables {
    var messages: seq<ChatMessage>
    var reactions: seq<Reaction>
    var nextId: nat
    var clock: int

    ghost predicate Valid()
      reads this
    {
      && Stamped(messages, MessageId, MessageAt, nextId, clock)
      && UniqueBy(reactions, ReactionId)
      && (forall i :: 0 <= i < |reactions| ==> reactions[i].id < nextId)
      && UniqueBy(reactions, KeyOf)
    }

    constructor ()
      ensures Valid()
      ensures messages == [] && reactions == [] && nextId == 0 && clock == 0
    {
      messages := [];
      reactions := [];
      nextId := 0;
      clock := 0;
    }

    /** `list_messages`: the 50 newest messages, oldest of them first. */
    method ListMessages() returns (r: seq<ChatMessage>)
      requires Valid()
      ensures |r| == Min(PageSize, |messages|)
      ensures r == messages[|messages| - |r|..]
      ensures Ascending(r, MessageAt)
      ensures forall i, j :: 0 <= i < |messages| - |r| && 0 <= j < |r| ==> messages[i].createdAt < r[j].createdAt
    {
      var newest := Take(Reverse(messages), PageSize);
      LatestInOrder(messages, PageSize);
      r := Reverse(newest);
    }

    /** `send_message`: the new row carries the caller's id and email (or ""). */
    method SendMessage(caller: Caller, content: string) returns (r: Result<ChatMessage>)
      requires Valid()
      modifies this
      ensures Valid()
      ensures reactions == old(reactions)
      ensures !Within(content, 1, MaxContent) ==>
        r == Err(Unprocessable) && messages == old(messages) && nextId == old(nextId) && clock == old(clock)
      ensures Within(content, 1, MaxContent) ==>
        && r == Ok(ChatMessage(old(nextId), caller.sub, EmailOf(caller), content, old(clock)))
        && messages == old(messages) + [r.value]
        && nextId == old(nextId) + 1 && clock == old(clock) + 1
    {
      if !Within(content, 1, MaxContent) {
        return Err(Unprocessable);
      }
      var row := ChatMessage(nextId, caller.sub, EmailOf(caller), content, clock);
      StampedAppend(messages, row, MessageId, MessageAt, nextId, clock);
      messages := messages + [row];
      nextId := nextId + 1;
      clock := clock + 1;
      r := Ok(row);
    }

    /** `update_message`: 404 / 403 change nothing; otherwise only the
        `content` of that one message changes. */
    method UpdateMessage(messageId: Id, caller: Caller, content: string) returns (r: Result<ChatMessage>)
      requires Valid()
      modifies this
      ensures Valid()
      ensures reactions == old(reactions) && nextId == old(nextId) && clock == old(clock)
      ensures !Within(content, 1, MaxContent) ==> r == Err(Unprocessable) && messages == old(messages)
      ensures Within(content, 1, MaxContent) ==>
        var a := FindOwned(old(messages), WithId(messageId), Author, caller.sub);
        && (a.Err? ==> r == Err(a.failure) && messages == old(messages))
        && (a.Ok? ==> r == Ok(old(messages)[a.value].(content := content))
                      && messages == old(messages)[a.value := r.value])
    {
      if !Within(content, 1, MaxContent) {
        return Err(Unprocessable);
      }
      var a := FindOwned(messages, WithId(messageId), Author, caller.sub);
      if a.Err? {
        return Err(a.failure);
      }
      var row := messages[a.value].(content := content);
      StampedReplace(messages, a.value, row, MessageId, MessageAt, nextId, clock);
      messages := messages[a.value := row];
      r := Ok(row);
    }

    /** `delete_message`: 404 / 403 change nothing; otherwise exactly that row goes. */
    method DeleteMessage(messageId: Id, caller: Caller) returns (r: Result<()>)
      requires Valid()
      modifies this
      ensures Valid()
      ensures reactions == old(reactions) && nextId == old(nextId) && clock == old(clock)
      ensures var a := FindOwned(old(messages), WithId(messageId), Author, caller.sub);
        && (a.Err? ==> r == Err(a.failure) && messages == old(messages))
        && (a.Ok? ==> r == Ok(()) && messages == RemoveAt(old(messages), a.value))
    {
      var a := FindOwned(messages, WithId(messageId), Author, caller.sub);
      if a.Err? {
        return Err(a.failure);
      }
      StampedRemove(messages, a.value, MessageId, MessageAt, nextId, clock);
      messages := RemoveAt(messages, a.value);
      r := Ok(());
    }

    /** `toggle_reaction`: 404 for a missing message with no reaction added;
        otherwise the toggle, answering "off" when a row was removed. */
    method ToggleReaction(messageId: Id, caller: Caller, emoji: string) returns (r: Result<ToggleReply>)
      requires Valid()
      modifies this
      ensures Valid()
      ensures messages == old(messages) && clock == old(clock)
      ensures !Within(emoji, 1, MaxEmoji) ==>
        r == Err(Unprocessable) && reactions == old(reactions) && nextId == old(nextId)
      ensures Within(emoji, 1, MaxEmoji) && Find(old(messages), WithId(messageId)).None? ==>
        r == Err(NotFound) && reactions == old(reactions) && nextId == old(nextId)
      ensures Within(emoji, 1, MaxEmoji) && Find(old(messages), WithId(messageId)).Some? ==>
        var present := Find(old(reactions), HasKey(ReactionKey(messageId, caller.sub, emoji))).Some?;
        && r == Ok(ToggleReply(if present then Off else On, emoji))
        && reactions == ToggledReactions(old(reactions), messageId, caller, emoji, old(nextId))
        && nextId == if present then old(nextId) else old(nextId) + 1
    {
      if !Within(emoji, 1, MaxEmoji) {
        return Err(Unprocessable);
      }
      if Find(messages, WithId(messageId)).None? {
        return Err(NotFound);
      }
      ToggleFlips(reactions, messageId, caller, emoji, nextId);
      var existing := Find(reactions, HasKey(ReactionKey(messageId, caller.sub, emoji)));
      if existing.Some? {
        UniqueByRemove(reactions, existing.value, ReactionId);
        reactions := RemoveAt(reactions, existing.value);
        r := Ok(ToggleReply(Off, emoji));
      } else {
        var row := Reaction(nextId, messageId, caller.sub, EmailOf(caller), emoji);
        UniqueByAppend(reactions, row, ReactionId);
        reactions := reactions + [row];
        nextId := nextId + 1;
        r := Ok(ToggleReply(On, emoji));
      }
    }
  }
}
