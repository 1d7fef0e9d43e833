/**
 * The three tables of the chat backend (users, conversations, messages),
 * the records the handlers return, their errors, and the queries the
 * handlers run over the tables: lookups by id, filters by owner, and the
 * stable sort by creation time.
 */
module Records {

  /** Identifiers (UUIDs) in their canonical text form; the model only
      compares them for equality. */
  type Id = string

  /** A point in time as the store's clock reports it. */
  type Time = nat

  datatype Option<T> = None | Some(value: T)

  /** A row of the `users` table. */
  datatype User = User(id: Id, username: string, createdAt: Time)

  /** A row of the `conversations` table. */
  datatype Conversation = Conversation(id: Id, userId: Id, sport: string, createdAt: Time)

  /** A row of the `messages` table; `isUser` holds the text "true" or
      "false", as the column does. */
  datatype Message = Message(id: Id, conversationId: Id, isUser: string, content: string, createdAt: Time)

  /** A message as the handlers return it, with the author flag as a boolean. */
  datatype MessageView = MessageView(id: Id, content: string, isUser: bool, createdAt: Time)

  /** A conversation as the handlers return it, with its messages. */
  datatype ConversationView = ConversationView(id: Id, sport: string, messages: seq<MessageView>, createdAt: Time)

  /** What `send_message` returns: the bot's message and the id of the
      conversation it was stored in. */
  datatype Reply = Reply(message: MessageView, conversationId: Id)

  /** The failures the handlers report. `UsernameTaken` is the store's
      uniqueness constraint on `username` rejecting a second user. */
  datatype Error = UserNotFound | SportNotSupported | ConversationNotFound | UsernameTaken

  datatype Result<T> = Ok(value: T) | Err(error: Error)

  /** The HTTP status each failure is reported with. */
  function Status(e: Error): int {
    match e
    case UserNotFound => 404
    case SportNotSupported => 400
    case ConversationNotFound => 404
    case UsernameTaken => 500
  }

  /** The `detail` text each failure is reported with. */
  function Detail(e: Error): string {
    match e
    case UserNotFound => "User not found"
    case SportNotSupported => "Sport not supported"
    case ConversationNotFound => "Conversation not found"
    case UsernameTaken => "Internal Server Error"
  }

  /** Each failure has its own detail text; the two lookups that miss are
      the 404s, and an unsupported sport is the only 400. */
  lemma ErrorReports()
    ensures forall e1: Error, e2: Error :: Detail(e1) == Detail(e2) ==> e1 == e2
    ensures forall e: Error :: Status(e) == 404 <==> e == UserNotFound || e == ConversationNotFound
    ensures forall e: Error :: Status(e) == 400 <==> e == SportNotSupported
  {
  }

  // ---------------------------------------------------------------------
  // The author flag

  /** The text written to `is_user` for an author. */
  function FlagText(isUser: bool): string {
    if isUser then "true" else "false"
  }

  /** How a stored `is_user` text is read back: only "true" is a user. */
  function ReadFlag(s: string): bool {
    s == "true"
  }

  /** Reading back the flag the handlers write gives the author they meant. */
  lemma FlagRoundTrip(isUser: bool)
    ensures ReadFlag(FlagText(isUser)) == isUser
  {
  }

  /** The response form of a stored message. */
  function ViewOf(m: Message): MessageView {
    MessageView(m.id, m.content, ReadFlag(m.isUser), m.createdAt)
  }

  /** The response forms of stored messages, in the same order: each keeps
      its message's id, content and time, and is a user's message exactly
      when the stored flag is "true". The views are in time order exactly
      when the messages are. */
  function Views(ms: seq<Message>): (vs: seq<MessageView>)
    ensures |vs| == |ms|
    ensures forall k :: 0 <= k < |ms| ==>
      && vs[k].id == ms[k].id && vs[k].content == ms[k].content && vs[k].createdAt == ms[k].createdAt
      && (vs[k].isUser <==> ms[k].isUser == "true")
    ensures SortedByTime(vs) <==> StoredInTimeOrder(ms)
  {
    seq(|ms|, k requires 0 <= k < |ms| => ViewOf(ms[k]))
  }

  // ---------------------------------------------------------------------
  // Lookups by id: `query(...).filter(...).first()`

  /** The first conversation with id `cid`, by position in the table. */
  function FindConversation(cs: seq<Conversation>, cid: Id): (r: Option<nat>)
    ensures r.Some? ==> r.value < |cs| && cs[r.value].id == cid
    ensures r.Some? ==> forall k :: 0 <= k < r.value ==> cs[k].id != cid
    ensures r.None? ==> forall k :: 0 <= k < |cs| ==> cs[k].id != cid
  {
    if cs == [] then None
    else if cs[0].id == cid then Some(0)
    else match FindConversation(cs[1..], cid)
      case None => None
      case Some(k) => Some(k + 1)
  }

  /** The first conversation with id `cid` that belongs to user `uid`. */
  function FindOwnedConversation(cs: seq<Conversation>, cid: Id, uid: Id): (r: Option<nat>)
    ensures r.Some? ==> r.value < |cs| && cs[r.value].id == cid && cs[r.value].userId == uid
    ensures r.None? ==> forall k :: 0 <= k < |cs| ==> !(cs[k].id == cid && cs[k].userId == uid)
  {
    if cs == [] then None
    else if cs[0].id == cid && cs[0].userId == uid then Some(0)
    else match FindOwnedConversation(cs[1..], cid, uid)
      case None => None
      case Some(k) => Some(k + 1)
  }

  /** The first message with id `mid`. */
  function FindMessage(ms: seq<Message>, mid: Id): (r: Option<nat>)
    ensures r.Some? ==> r.value < |ms| && ms[r.value].id == mid
    ensures r.None? ==> forall k :: 0 <= k < |ms| ==> ms[k].id != mid
  {
    if ms == [] then None
    else if ms[0].id == mid then Some(0)
    else match FindMessage(ms[1..], mid)
      case None => None
      case Some(k) => Some(k + 1)
  }

  /** Appending a conversation leaves every earlier lookup as it was and
      makes the new id found at the end when it was not found before. */
  lemma {:induction false} FindConversationSnoc(cs: seq<Conversation>, c: Conversation, cid: Id)
    ensures FindConversation(cs + [c], cid) ==
      match FindConversation(cs, cid)
      case Some(k) => Some(k)
      case None => if c.id == cid then Some(|cs|) else None
  {
    if cs != [] {
      assert (cs + [c])[1..] == cs[1..] + [c];
      FindConversationSnoc(cs[1..], c, cid);
    }
  }

  /** A conversation owned by the user is also found by its id alone. */
  lemma FindOwnedIsFound(cs: seq<Conversation>, cid: Id, uid: Id)
    requires FindOwnedConversation(cs, cid, uid).Some?
    ensures FindConversation(cs, cid).Some?
  {
    var k := FindOwnedConversation(cs, cid, uid).value;
    assert cs[k].id == cid;
  }

  /** Primary keys: no two conversations share an id. */
  predicate DistinctConversationIds(cs: seq<Conversation>) {
    forall i, j :: 0 <= i < j < |cs| ==> cs[i].id != cs[j].id
  }

  /** Primary keys: no two messages share an id. */
  predicate DistinctMessageIds(ms: seq<Message>) {
    forall i, j :: 0 <= i < j < |ms| ==> ms[i].id != ms[j].id
  }

  /** With distinct ids, the lookup by id finds the one message that has it. */
  lemma FindMessageUnique(ms: seq<Message>, k: nat)
    requires DistinctMessageIds(ms) && k < |ms|
    ensures FindMessage(ms, ms[k].id) == Some(k)
  {
    var j := FindMessage(ms, ms[k].id).value;
    assert ms[j].id == ms[k].id;
  }

  // ---------------------------------------------------------------------
  // Filters: `query(...).filter(...).all()`, in table order

  /** The messages of conversation `cid`, in table order. */
  function MessagesOf(ms: seq<Message>, cid: Id): (r: seq<Message>)
    ensures |r| <= |ms|
    ensures forall k :: 0 <= k < |r| ==> r[k].conversationId == cid
  {
    if ms == [] then []
    else
      var last := ms[|ms| - 1];
      MessagesOf(ms[..|ms| - 1], cid) + (if last.conversationId == cid then [last] else [])
  }

  /** A message is selected exactly when it is in the table under `cid`. */
  lemma {:induction false} MessagesOfMembers(ms: seq<Message>, cid: Id)
    ensures forall m :: m in MessagesOf(ms, cid) <==> m in ms && m.conversationId == cid
  {
    if ms != [] {
      var front := ms[..|ms| - 1];
      MessagesOfMembers(front, cid);
      assert ms == front + [ms[|ms| - 1]];
    }
  }

  /** Selecting from a table extended by new rows: the old selection, then
      the new rows of that conversation. */
  lemma {:induction false} MessagesOfAppend(ms: seq<Message>, extra: seq<Message>, cid: Id)
    ensures MessagesOf(ms + extra, cid) == MessagesOf(ms, cid) + MessagesOf(extra, cid)
    decreases |extra|
  {
    if extra != [] {
      var front := extra[..|extra| - 1];
      assert (ms + extra)[..|ms + extra| - 1] == ms + front;
      MessagesOfAppend(ms, front, cid);
    } else {
      assert ms + extra == ms;
    }
  }

  /** Storing two new rows changes the selection of their conversation by
      appending them, in order, and leaves every other conversation's
      selection as it was. */
  lemma MessagesOfAppendPair(ms: seq<Message>, m1: Message, m2: Message, cid: Id)
    requires m1.conversationId == m2.conversationId
    ensures MessagesOf(ms + [m1, m2], cid) ==
      MessagesOf(ms, cid) + (if m1.conversationId == cid then [m1, m2] else [])
  {
    MessagesOfAppend(ms, [m1, m2], cid);
    assert [m1, m2][..1] == [m1] && [m1][..0] == [];
  }

  /** Overwriting the content of the last of two appended rows is the same
      as appending the updated row. */
  lemma ReplaceLastContent(ms: seq<Message>, m1: Message, m2: Message, text: string)
    ensures (ms + [m1, m2])[|ms| + 1 := m2.(content := text)] == ms + [m1, m2.(content := text)]
  {
  }

  /** The conversations of user `uid`, in table order. */
  function OwnedBy(cs: seq<Conversation>, uid: Id): (r: seq<Conversation>)
    ensures |r| <= |cs|
    ensures forall k :: 0 <= k < |r| ==> r[k].userId == uid
  {
    if cs == [] then []
    else
      var last := cs[|cs| - 1];
      OwnedBy(cs[..|cs| - 1], uid) + (if last.userId == uid then [last] else [])
  }

  /** A conversation is selected exactly when it is in the table and owned by `uid`. */
  lemma {:induction false} OwnedByMembers(cs: seq<Conversation>, uid: Id)
    ensures forall c :: c in OwnedBy(cs, uid) <==> c in cs && c.userId == uid
  {
    if cs != [] {
      var front := cs[..|cs| - 1];
      OwnedByMembers(front, uid);
      assert cs == front + [cs[|cs| - 1]];
    }
  }

  // ---------------------------------------------------------------------
  // Ordering by creation time

  predicate SortedByTime(vs: seq<MessageView>) {
    forall i, j :: 0 <= i < j < |vs| ==> vs[i].createdAt <= vs[j].createdAt
  }

  /** Rows stored in creation-time order. */
  predicate StoredInTimeOrder(ms: seq<Message>) {
    forall i, j :: 0 <= i < j < |ms| ==> ms[i].createdAt <= ms[j].createdAt
  }

  /** The messages created at time `t`, in their order in `vs`. */
  function WithTime(vs: seq<MessageView>, t: Time): seq<MessageView> {
    if vs == [] then []
    else
      var last := vs[|vs| - 1];
      WithTime(vs[..|vs| - 1], t) + (if last.createdAt == t then [last] else [])
  }

  /** Puts `v` after the last message of `s` that is not later than `v`,
      moving the later ones behind it. */
  function InsertByTime(s: seq<MessageView>, v: MessageView): (r: seq<MessageView>)
    ensures multiset(r) == multiset(s) + multiset{v}
  {
    if s == [] || s[|s| - 1].createdAt <= v.createdAt then
      s + [v]
    else
      var front, last := s[..|s| - 1], s[|s| - 1];
      assert s == front + [last];
      InsertByTime(front, v) + [last]
  }

  /** Inserting a message no later than `b` into messages no later than `b`
      yields messages no later than `b`. */
  lemma {:induction false} InsertByTimeBounded(s: seq<MessageView>, v: MessageView, b: Time)
    requires forall i :: 0 <= i < |s| ==> s[i].createdAt <= b
    requires v.createdAt <= b
    ensures forall i :: 0 <= i < |InsertByTime(s, v)| ==> InsertByTime(s, v)[i].createdAt <= b
    decreases |s|
  {
    if !(s == [] || s[|s| - 1].createdAt <= v.createdAt) {
      InsertByTimeBounded(s[..|s| - 1], v, b);
    }
  }

  /** Every message of a sorted `s` that is later than `v` ends up behind `v`,
      so inserting into a sorted list keeps it sorted. */
  lemma {:induction false} InsertByTimeSorted(s: seq<MessageView>, v: MessageView)
    requires SortedByTime(s)
    ensures SortedByTime(InsertByTime(s, v))
    decreases |s|
  {
    if !(s == [] || s[|s| - 1].createdAt <= v.createdAt) {
      var front, last := s[..|s| - 1], s[|s| - 1];
      assert SortedByTime(front);
      InsertByTimeSorted(front, v);
      InsertByTimeBounded(front, v, last.createdAt);
      var r' := InsertByTime(front, v);
      var r := r' + [last];
      forall i, j | 0 <= i < j < |r| ensures r[i].createdAt <= r[j].createdAt {
        if j < |r'| {
          assert r[i] == r'[i] && r[j] == r'[j];
        } else {
          assert r[i] == r'[i];
        }
      }
    }
  }

  /** `list.sort(key=created_at)`: a stable sort by creation time. */
  function SortByTime(vs: seq<MessageView>): (r: seq<MessageView>)
    ensures SortedByTime(r)
    ensures multiset(r) == multiset(vs)
  {
    if vs == [] then []
    else
      var front := vs[..|vs| - 1];
      assert vs == front + [vs[|vs| - 1]];
      InsertByTimeSorted(SortByTime(front), vs[|vs| - 1]);
      InsertByTime(SortByTime(front), vs[|vs| - 1])
  }

  lemma WithTimeSnoc(vs: seq<MessageView>, v: MessageView, t: Time)
    ensures WithTime(vs + [v], t) == WithTime(vs, t) + (if v.createdAt == t then [v] else [])
  {
    assert (vs + [v])[..|vs|] == vs;
  }

  /** Inserting `v` changes the messages of each time only by adding `v`
      at the end of those of its own time. */
  lemma {:induction false} InsertByTimeStable(s: seq<MessageView>, v: MessageView, t: Time)
    ensures WithTime(InsertByTime(s, v), t) == WithTime(s, t) + (if v.createdAt == t then [v] else [])
    decreases |s|
  {
    if s == [] || s[|s| - 1].createdAt <= v.createdAt {
      WithTimeSnoc(s, v, t);
    } else {
      var front, last := s[..|s| - 1], s[|s| - 1];
      assert s == front + [last];
      assert InsertByTime(s, v) == InsertByTime(front, v) + [last];
      InsertByTimeStable(front, v, t);
      WithTimeSnoc(InsertByTime(front, v), last, t);
      WithTimeSnoc(front, last, t);
    }
  }

  /** Stability: the messages created at any one time keep their relative order. */
  lemma {:induction false} SortByTimeStable(vs: seq<MessageView>, t: Time)
    ensures WithTime(SortByTime(vs), t) == WithTime(vs, t)
  {
    if vs != [] {
      var front, last := vs[..|vs| - 1], vs[|vs| - 1];
      assert vs == front + [last];
      SortByTimeStable(front, t);
      InsertByTimeStable(SortByTime(front), last, t);
      WithTimeSnoc(front, last, t);
    }
  }

  /** Sorting an already sorted list changes nothing. */
  lemma {:induction false} SortByTimeOfSorted(vs: seq<MessageView>)
    requires SortedByTime(vs)
    ensures SortByTime(vs) == vs
  {
    if vs != [] {
      var front, last := vs[..|vs| - 1], vs[|vs| - 1];
      assert vs == front + [last];
      assert SortedByTime(front) by {
        forall i, j | 0 <= i < j < |front| ensures front[i].createdAt <= front[j].createdAt {
          assert front[i] == vs[i] && front[j] == vs[j];
        }
      }
      SortByTimeOfSorted(front);
      assert InsertByTime(front, last) == front + [last] by {
        assert front == [] || front[|front| - 1] == vs[|vs| - 2];
      }
    }
  }

  /** Messages stored in time order have their views sorted by time, and so
      does every conversation's selection of them. */
  lemma {:induction false} MessagesOfInTimeOrder(ms: seq<Message>, cid: Id)
    requires StoredInTimeOrder(ms)
    ensures StoredInTimeOrder(MessagesOf(ms, cid))
    ensures SortedByTime(Views(MessagesOf(ms, cid)))
  {
    if ms != [] {
      var front, last := ms[..|ms| - 1], ms[|ms| - 1];
      assert StoredInTimeOrder(front);
      MessagesOfInTimeOrder(front, cid);
      MessagesOfMembers(front, cid);
      var sel := MessagesOf(front, cid);
      forall k | 0 <= k < |sel| ensures sel[k].createdAt <= last.createdAt {
        assert sel[k] in front;
      }
    }
  }
}
