/**
 * The chat store: the three tables and the request handlers that read and
 * write them. Each handler checks the user, then the lower-cased sport,
 * then resolves or creates the conversation, and only then appends the
 * messages; a handler that fails writes nothing. Fresh identifiers, the
 * clock and the random reply index are supplied by the caller.
 */
module Store {
  import opened Text
  import opened Catalog
  import opened Records
  import opened Streaming

  /** How a streaming request starts: refused with one text chunk, or
      opened with the header line, the placeholder's id, the conversation
      and the lower-cased sport. */
  datatype StreamStart =
    | Refused(text: string)
    | Opened(header: string, messageId: Id, conversationId: Id, sport: string)

  /** Whether some user already has `username`. */
  predicate UsernameUsed(us: map<Id, User>, username: string) {
    exists id :: id in us && us[id].username == username
  }

  /** Users are stored under their own ids, and no two share a username. */
  ghost predicate UsersValid(users: map<Id, User>) {
    && (forall id :: id in users ==> users[id].id == id)
    && (forall a, b :: a in users && b in users && users[a].username == users[b].username ==> a == b)
  }

  /** Conversations have distinct ids, an existing owner and a supported sport. */
  ghost predicate ConversationsValid(cs: seq<Conversation>, users: map<Id, User>, catalog: map<string, seq<string>>) {
    && DistinctConversationIds(cs)
    && (forall k :: 0 <= k < |cs| ==> cs[k].userId in users && cs[k].sport in catalog)
  }

  /** Messages have distinct ids, an existing conversation, one of the two
      flag texts, a time no later than `clock`, and are stored in time order. */
  ghost predicate MessagesValid(ms: seq<Message>, cs: seq<Conversation>, clock: Time) {
    && DistinctMessageIds(ms)
    && (forall k :: 0 <= k < |ms| ==>
          && FindConversation(cs, ms[k].conversationId).Some?
          && ms[k].createdAt <= clock
          && (ms[k].isUser == "true" || ms[k].isUser == "false"))
    && StoredInTimeOrder(ms)
  }

  /** The checks `send_message` makes before it writes anything, in this
      order: the user exists, the lower-cased sport is in the catalogue, and
      a conversation named in the request is one of that user's. On success,
      the conversation to reuse, or `None` when one is to be created. */
  function Admit(users: map<Id, User>, cs: seq<Conversation>, catalog: map<string, seq<string>>,
                 userId: Id, sport: string, conversationId: Option<Id>): (r: Result<Option<Id>>)
    ensures r == Err(UserNotFound) <==> userId !in users
    ensures r == Err(SportNotSupported) <==> userId in users && Lower(sport) !in catalog
    ensures r == Err(ConversationNotFound) <==>
      && userId in users && Lower(sport) in catalog
      && conversationId.Some? && FindOwnedConversation(cs, conversationId.value, userId).None?
    ensures r.Err? ==> r.error != UsernameTaken
    ensures r.Ok? ==> r.value == conversationId
    ensures r.Ok? && conversationId.Some? ==> FindOwnedConversation(cs, conversationId.value, userId).Some?
  {
    if userId !in users then Err(UserNotFound)
    else if Lower(sport) !in catalog then Err(SportNotSupported)
    else if conversationId.Some? && FindOwnedConversation(cs, conversationId.value, userId).None? then
      Err(ConversationNotFound)
    else Ok(conversationId)
  }

  /** Whether `chat_stream` reuses the conversation named in the request:
      only when it is one of the user's. */
  predicate Reuses(cs: seq<Conversation>, userId: Id, conversationId: Option<Id>) {
    conversationId.Some? && FindOwnedConversation(cs, conversationId.value, userId).Some?
  }

  /** A request reuses a conversation exactly when it names one that is in
      the table and owned by the requesting user. */
  lemma ReusesOwned(cs: seq<Conversation>, userId: Id, conversationId: Option<Id>)
    ensures Reuses(cs, userId, conversationId) <==>
      conversationId.Some? && exists k :: 0 <= k < |cs| && cs[k].id == conversationId.value && cs[k].userId == userId
  {
  }

  /** The conversation a streaming request ends up in: the one it names when
      that is the user's, otherwise the new one. */
  function Target(cs: seq<Conversation>, userId: Id, conversationId: Option<Id>, newConversationId: Id): (cid: Id)
    ensures cid == newConversationId || (exists k :: 0 <= k < |cs| && cs[k].id == cid && cs[k].userId == userId)
    ensures cid != newConversationId ==> conversationId == Some(cid)
    ensures conversationId.Some? && (exists k :: 0 <= k < |cs| && cs[k].id == conversationId.value && cs[k].userId == userId) ==>
      cid == conversationId.value
  {
    if Reuses(cs, userId, conversationId) then conversationId.value else newConversationId
  }

  /** Appending two fresh messages of an existing conversation, stamped no
      earlier than the clock, keeps the message table valid. */
  lemma AppendKeepsMessagesValid(ms: seq<Message>, cs: seq<Conversation>, clock: Time, m1: Message, m2: Message)
    requires MessagesValid(ms, cs, clock)
    requires FindMessage(ms, m1.id).None? && FindMessage(ms, m2.id).None? && m1.id != m2.id
    requires FindConversation(cs, m1.conversationId).Some? && FindConversation(cs, m2.conversationId).Some?
    requires clock <= m1.createdAt == m2.createdAt
    requires m1.isUser == "true" && m2.isUser == "false"
    ensures MessagesValid(ms + [m1, m2], cs, m1.createdAt)
  {
    var ms' := ms + [m1, m2];
    forall i, j | 0 <= i < j < |ms'| ensures ms'[i].id != ms'[j].id && ms'[i].createdAt <= ms'[j].createdAt {
      if j < |ms| {
        assert ms'[i] == ms[i] && ms'[j] == ms[j];
      } else if i < |ms| {
        assert ms'[i] == ms[i];
      }
    }
  }

  /** Appending a fresh conversation keeps every message's conversation found. */
  lemma AppendKeepsMessagesFound(ms: seq<Message>, cs: seq<Conversation>, clock: Time, c: Conversation)
    requires MessagesValid(ms, cs, clock)
    ensures MessagesValid(ms, cs + [c], clock)
  {
    forall k | 0 <= k < |ms| ensures FindConversation(cs + [c], ms[k].conversationId).Some? {
      FindConversationSnoc(cs, c, ms[k].conversationId);
    }
  }

  class ChatStore {
    /** `sport_responses`, fixed when the store is created. */
    const catalog: map<string, seq<string>>
    var users: map<Id, User>
    var conversations: seq<Conversation>
    var messages: seq<Message>
    /** The latest time a message was stamped with; time never goes back. */
    var clock: Time

    /** The constraints the tables keep: primary keys, unique usernames,
        foreign keys that resolve, supported sports, the two flag texts,
        and messages stored in creation order. */
    ghost predicate Valid()
      reads this
    {
      && WellFormed(catalog)
      && UsersValid(users)
      && ConversationsValid(conversations, users, catalog)
      && MessagesValid(messages, conversations, clock)
    }

    /** An empty database whose clock starts at `start`, answering from
        the service's catalogue. */
    constructor (start: Time)
      ensures Valid()
      ensures catalog == SportResponses
      ensures users == map[] && conversations == [] && messages == [] && clock == start
    {
      catalog := SportResponses;
      CatalogWellFormed();
      users := map[];
      conversations := [];
      messages := [];
      clock := start;
    }

    /** `create_user`: adds a user with a fresh id, unless the name is taken,
        which the `unique` constraint on `username` rejects. */
    method CreateUser(username: string, id: Id, now: Time) returns (r: Result<User>)
      requires Valid()
      requires id !in users
      modifies this
      ensures Valid()
      ensures conversations == old(conversations) && messages == old(messages) && clock == old(clock)
      ensures r.Err? <==> UsernameUsed(old(users), username)
      ensures r.Err? ==> r.error == UsernameTaken && users == old(users)
      ensures r.Ok? ==> r.value == User(id, username, now) && users == old(users)[id := r.value]
    {
      if UsernameUsed(users, username) {
        return Err(UsernameTaken);
      }
      var user := User(id, username, now);
      users := users[id := user];
      r := Ok(user);
    }

    /** `get_user`: the user with that id, or "User not found". */
    method GetUser(id: Id) returns (r: Result<User>)
      ensures r.Ok? <==> id in users
      ensures r.Ok? ==> r.value == users[id]
      ensures r.Err? ==> r.error == UserNotFound && Status(r.error) == 404
      ensures Valid() && r.Ok? ==> r.value.id == id
    {
      if id !in users {
        return Err(UserNotFound);
      }
      r := Ok(users[id]);
    }

    /** Stores a new conversation of an existing user, for a supported sport,
        under an id no conversation has. */
    method AddConversation(c: Conversation)
      requires Valid()
      requires FindConversation(conversations, c.id).None?
      requires c.userId in users && c.sport in catalog
      modifies this`conversations
      ensures Valid()
      ensures conversations == old(conversations) + [c]
      ensures FindConversation(conversations, c.id).Some?
    {
      AppendKeepsMessagesFound(messages, conversations, clock, c);
      FindConversationSnoc(conversations, c, c.id);
      conversations := conversations + [c];
    }

    /** Stores a user's message and the bot's message after it, with fresh
        distinct ids, in an existing conversation, stamped `now`. */
    method AddMessages(userMessage: Message, botMessage: Message)
      requires Valid()
      requires FindMessage(messages, userMessage.id).None? && FindMessage(messages, botMessage.id).None?
      requires userMessage.id != botMessage.id
      requires userMessage.conversationId == botMessage.conversationId
      requires FindConversation(conversations, userMessage.conversationId).Some?
      requires clock <= userMessage.createdAt == botMessage.createdAt
      requires userMessage.isUser == "true" && botMessage.isUser == "false"
      modifies this`messages, this`clock
      ensures Valid()
      ensures messages == old(messages) + [userMessage, botMessage] && clock == userMessage.createdAt
    {
      AppendKeepsMessagesValid(messages, conversations, clock, userMessage, botMessage);
      messages := messages + [userMessage, botMessage];
      clock := userMessage.createdAt;
    }

    /** `send_message`: on a request `Admit` accepts, stores the user's
        message and the bot's reply number `pick` for the lower-cased sport
        in the named conversation or a new one; otherwise writes nothing. */
    method SendMessage(userId: Id, sport: string, content: string, conversationId: Option<Id>,
                       newConversationId: Id, userMessageId: Id, botMessageId: Id, now: Time, pick: nat)
      returns (r: Result<Reply>)
      requires Valid()
      requires now >= clock && ValidPick(catalog, pick)
      requires FindConversation(conversations, newConversationId).None?
      requires FindMessage(messages, userMessageId).None? && FindMessage(messages, botMessageId).None?
      requires userMessageId != botMessageId
      modifies this
      ensures Valid()
      ensures Admit(old(users), old(conversations), catalog, userId, sport, conversationId).Err? ==>
        && r == Err(Admit(old(users), old(conversations), catalog, userId, sport, conversationId).error)
        && users == old(users) && conversations == old(conversations) && messages == old(messages) && clock == old(clock)
      ensures Admit(old(users), old(conversations), catalog, userId, sport, conversationId).Ok? ==>
        var cid := if conversationId.Some? then conversationId.value else newConversationId;
        var reply := catalog[Lower(sport)][pick];
        && r == Ok(Reply(MessageView(botMessageId, reply, false, now), cid))
        && users == old(users) && clock == now
        && conversations == old(conversations) +
             (if conversationId.Some? then [] else [Conversation(newConversationId, userId, Lower(sport), now)])
        && messages == old(messages) + [Message(userMessageId, cid, "true", content, now), Message(botMessageId, cid, "false", reply, now)]
    {
      var admitted := Admit(users, conversations, catalog, userId, sport, conversationId);
      if admitted.Err? {
        return Err(admitted.error);
      }
      var key := Lower(sport);
      var cid: Id;
      if conversationId.Some? {
        cid := conversationId.value;
        FindOwnedIsFound(conversations, cid, userId);
      } else {
        cid := newConversationId;
        AddConversation(Conversation(newConversationId, userId, key, now));
      }
      var reply := catalog[key][pick];
      AddMessages(Message(userMessageId, cid, FlagText(true), content, now), Message(botMessageId, cid, FlagText(false), reply, now));
      r := Ok(Reply(MessageView(botMessageId, reply, false, now), cid));
    }

    /** `get_history`: every conversation of the user, in table order, each
        with its messages in table order (not re-sorted). */
    method GetHistory(userId: Id) returns (r: Result<seq<ConversationView>>)
      ensures r.Err? <==> userId !in users
      ensures r.Err? ==> r.error == UserNotFound
      ensures r.Ok? ==>
        var owned := OwnedBy(conversations, userId);
        && |r.value| == |owned|
        && forall k :: 0 <= k < |owned| ==>
             r.value[k] == ConversationView(owned[k].id, owned[k].sport, Views(MessagesOf(messages, owned[k].id)), owned[k].createdAt)
      ensures Valid() && r.Ok? ==> forall k :: 0 <= k < |r.value| ==> SortedByTime(r.value[k].messages)
    {
      if userId !in users {
        return Err(UserNotFound);
      }
      var owned := OwnedBy(conversations, userId);
      var result: seq<ConversationView> := [];
      var i := 0;
      while i < |owned|
        invariant 0 <= i <= |owned|
        invariant |result| == i
        invariant forall k :: 0 <= k < i ==>
          result[k] == ConversationView(owned[k].id, owned[k].sport, Views(MessagesOf(messages, owned[k].id)), owned[k].createdAt)
      {
        var conv := owned[i];
        var views := Views(MessagesOf(messages, conv.id));
        result := result + [ConversationView(conv.id, conv.sport, views, conv.createdAt)];
        i := i + 1;
      }
      if Valid() {
        forall k | 0 <= k < |result| ensures SortedByTime(result[k].messages) {
          MessagesOfInTimeOrder(messages, owned[k].id);
        }
      }
      r := Ok(result);
    }

    /** `get_conversation`: the conversation with that id and its messages,
        stably sorted by creation time; "Conversation not found" otherwise. */
    method GetConversation(conversationId: Id) returns (r: Result<ConversationView>)
      ensures r.Err? <==> FindConversation(conversations, conversationId).None?
      ensures r.Err? ==> r.error == ConversationNotFound
      ensures r.Ok? ==>
        var c := conversations[FindConversation(conversations, conversationId).value];
        var stored := Views(MessagesOf(messages, conversationId));
        && r.value.id == conversationId && r.value.sport == c.sport && r.value.createdAt == c.createdAt
        && SortedByTime(r.value.messages)
        && multiset(r.value.messages) == multiset(stored)
        && (forall t :: WithTime(r.value.messages, t) == WithTime(stored, t))
      ensures Valid() && r.Ok? ==> r.value.messages == Views(MessagesOf(messages, conversationId))
    {
      var found := FindConversation(conversations, conversationId);
      if found.None? {
        return Err(ConversationNotFound);
      }
      var c := conversations[found.value];
      var stored := Views(MessagesOf(messages, conversationId));
      var sorted := SortByTime(stored);
      forall t ensures WithTime(sorted, t) == WithTime(stored, t) {
        SortByTimeStable(stored, t);
      }
      if Valid() {
        MessagesOfInTimeOrder(messages, conversationId);
        SortByTimeOfSorted(stored);
      }
      r := Ok(ConversationView(c.id, c.sport, sorted, c.createdAt));
    }

    /** The part of `chat_stream` that runs before streaming: the checks,
        the conversation (an id that is missing or not the user's gets a new
        conversation instead of an error), the user's message and an empty
        placeholder for the bot's reply. */
    method OpenStream(userId: Id, sport: string, content: string, conversationId: Option<Id>,
                      newConversationId: Id, userMessageId: Id, botMessageId: Id, now: Time)
      returns (s: StreamStart)
      requires Valid()
      requires now >= clock
      requires FindConversation(conversations, newConversationId).None?
      requires FindMessage(messages, userMessageId).None? && FindMessage(messages, botMessageId).None?
      requires userMessageId != botMessageId
      modifies this
      ensures Valid()
      ensures userId !in old(users) ==> s == Refused("Utilisateur non trouvé")
      ensures userId in old(users) && Lower(sport) !in catalog ==> s == Refused("Sport non pris en charge")
      ensures s.Refused? ==>
        users == old(users) && conversations == old(conversations) && messages == old(messages) && clock == old(clock)
      ensures userId in old(users) && Lower(sport) in catalog ==>
        var reused := Reuses(old(conversations), userId, conversationId);
        var cid := Target(old(conversations), userId, conversationId, newConversationId);
        && s == Opened(HeaderLine(botMessageId, cid), botMessageId, cid, Lower(sport))
        && users == old(users) && clock == now
        && conversations == old(conversations) + (if reused then [] else [Conversation(newConversationId, userId, Lower(sport), now)])
        && messages == old(messages) + [Message(userMessageId, cid, "true", content, now), Message(botMessageId, cid, "false", "", now)]
    {
      if userId !in users {
        return Refused("Utilisateur non trouvé");
      }
      var key := Lower(sport);
      if key !in catalog {
        return Refused("Sport non pris en charge");
      }
      var cid := Target(conversations, userId, conversationId, newConversationId);
      if Reuses(conversations, userId, conversationId) {
        FindOwnedIsFound(conversations, cid, userId);
      } else {
        AddConversation(Conversation(newConversationId, userId, key, now));
      }
      AddMessages(Message(userMessageId, cid, FlagText(true), content, now), Message(botMessageId, cid, FlagText(false), "", now));
      s := Opened(HeaderLine(botMessageId, cid), botMessageId, cid, key);
    }

    /** The end of the stream: the message with id `messageId`, if any, gets
        the accumulated text with surrounding whitespace stripped. */
    method FinishStream(messageId: Id, full: string) returns (found: Option<nat>)
      requires MessagesValid(messages, conversations, clock)
      modifies this`messages
      ensures MessagesValid(messages, conversations, clock)
      ensures found == FindMessage(old(messages), messageId)
      ensures found.None? ==> messages == old(messages)
      ensures found.Some? ==> messages == old(messages)[found.value := old(messages)[found.value].(content := Strip(full))]
    {
      found := FindMessage(messages, messageId);
      if found.Some? {
        SetContent(found.value, Strip(full));
      }
    }

    /** Overwrites the content of the message at position `k`; ids, owners,
        flags and times stay as they were. */
    method SetContent(k: nat, text: string)
      requires MessagesValid(messages, conversations, clock) && k < |messages|
      modifies this`messages
      ensures MessagesValid(messages, conversations, clock)
      ensures messages == old(messages)[k := old(messages)[k].(content := text)]
    {
      ghost var before := messages;
      messages := messages[k := messages[k].(content := text)];
      assert |messages| == |before|;
      assert forall i :: 0 <= i < |messages| ==>
        && messages[i].id == before[i].id
        && messages[i].conversationId == before[i].conversationId
        && messages[i].isUser == before[i].isUser
        && messages[i].createdAt == before[i].createdAt;
    }

    /** `generate_response`: sends the header line, then the reply word by
        word, and finally stores the text it sent, stripped, in the
        placeholder (the last message); for a normalized reply that text is
        the reply itself. */
    method StreamReply(header: string, messageId: Id, reply: string) returns (chunks: seq<string>)
      requires MessagesValid(messages, conversations, clock) && Normalized(reply)
      requires |messages| > 0 && messages[|messages| - 1].id == messageId
      modifies this`messages
      ensures MessagesValid(messages, conversations, clock)
      ensures chunks == [header] + Chunks(Split(reply))
      ensures messages == old(messages)[|old(messages)| - 1 := old(messages)[|old(messages)| - 1].(content := reply)]
    {
      var full;
      chunks, full := GenerateResponse(header, reply);
      assert Strip(full) == reply by { StreamedTextOfNormalized(reply); }
      FindMessageUnique(messages, |messages| - 1);
      var found := FinishStream(messageId, full);
    }

    /** `chat_stream` run to the end of its stream: the refusal text, or the
        header and the reply's word chunks; the placeholder then holds the
        chosen reply, so the table ends as `send_message` would leave it. */
    method ChatStream(userId: Id, sport: string, content: string, conversationId: Option<Id>,
                      newConversationId: Id, userMessageId: Id, botMessageId: Id, now: Time, pick: nat)
      returns (chunks: seq<string>)
      requires Valid()
      requires now >= clock && ValidPick(catalog, pick)
      requires FindConversation(conversations, newConversationId).None?
      requires FindMessage(messages, userMessageId).None? && FindMessage(messages, botMessageId).None?
      requires userMessageId != botMessageId
      modifies this
      ensures Valid()
      ensures userId !in old(users) ==> chunks == ["Utilisateur non trouvé"]
      ensures userId in old(users) && Lower(sport) !in catalog ==> chunks == ["Sport non pris en charge"]
      ensures userId !in old(users) || Lower(sport) !in catalog ==>
        users == old(users) && conversations == old(conversations) && messages == old(messages) && clock == old(clock)
      ensures userId in old(users) && Lower(sport) in catalog ==>
        var reused := Reuses(old(conversations), userId, conversationId);
        var cid := Target(old(conversations), userId, conversationId, newConversationId);
        var reply := catalog[Lower(sport)][pick];
        && chunks == [HeaderLine(botMessageId, cid)] + Chunks(Split(reply))
        && users == old(users) && clock == now
        && conversations == old(conversations) + (if reused then [] else [Conversation(newConversationId, userId, Lower(sport), now)])
        && messages == old(messages) + [Message(userMessageId, cid, "true", content, now), Message(botMessageId, cid, "false", reply, now)]
    {
      var start := OpenStream(userId, sport, content, conversationId, newConversationId, userMessageId, botMessageId, now);
      if start.Refused? {
        return [start.text];
      }
      ghost var afterOpen := messages;
      var reply := catalog[start.sport][pick];
      assert ReplyNormalized(catalog, start.sport, pick);
      chunks := StreamReply(start.header, botMessageId, reply);
      ghost var userMessage := Message(userMessageId, start.conversationId, "true", content, now);
      ghost var placeholder := Message(botMessageId, start.conversationId, "false", "", now);
      assert afterOpen == old(messages) + [userMessage, placeholder];
      ReplaceLastContent(old(messages), userMessage, placeholder, reply);
    }
  }
}
