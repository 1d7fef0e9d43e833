# Sports chat backend, modelled in Dafny

A model of the chat backend in `app/main.py`. The service keeps three tables:

- users, each with a unique username;
- conversations, each owned by a user and tied to a sport;
- messages, each in a conversation, written by the user or by the bot.

It answers every user message with a reply picked from a fixed per-sport catalogue (`sport_responses`). It also has a streaming variant. That variant first sends a JSON header line and then the reply word by word. At the end of the stream it writes the reply into a bot message that was stored empty.

The project is five modules:

- `Text` (`text.dfy`): the string operations the handlers rely on.
  - `str.lower()` on the sport name, restricted to ASCII.
  - `str.split()` with no argument, using Python's whitespace set.
  - `str.strip()`.
  - The word-chunk stream, and the text that the `+=` loop accumulates from it.
  - Lemmas linking these to joining words with single spaces. In particular, `" ".join(s.split()) == s` holds exactly for normalized texts.
- `Catalog` (`catalog.dfy`): `sport_responses`, written as the word lists of its sentences.
  - Proved: its shape (five sports, four replies each).
  - Proved: its keys are lower case.
  - Proved: every reply is normalized, so it survives the split/stream/strip path unchanged.
- `Records` (`records.dfy`): the table rows and response views, the errors with their HTTP status and detail text, and the `is_user` text flag.
  - The `first()` lookups by id and the `all()` filters, in table order.
  - `list.sort(key=created_at)`, modelled as a stable insertion sort.
  - Proved for the sort: it sorts, it keeps the same multiset, it is stable (messages with equal times keep their order), and it changes nothing on already sorted input.
- `Streaming` (`streaming.dfy`): the header line `json.dumps(header_info) + "\n"`, and the loop of `generate_response`. That loop forwards the word chunks and accumulates `full_response`.
- `Store` (`store.dfy`): the class `ChatStore`, whose fields are the three tables, the catalogue and a clock.
  - Its methods are the handlers `create_user`, `get_user`, `send_message`, `get_history`, `get_conversation` and `chat_stream`, with the inner `generate_response` of `chat_stream`.
  - `Valid()` is the database invariant:
    - primary keys are distinct, and usernames are unique;
    - foreign keys resolve, and sports are supported;
    - flags are "true" or "false";
    - messages are stored in creation order, and no message is stamped later than the clock.
  - Every mutating handler keeps `Valid()`.

The environment becomes parameters:

- `random.choice` is a caller-supplied index `pick` into the sport's list.
- `uuid.uuid4` is a set of caller-supplied ids not yet in the tables.
- `datetime.now` is a caller-supplied time `now`, no earlier than the store's clock.

Two behaviours of the code that are easy to expect otherwise:

- `send_message` given a conversation id that is not one of the user's conversations fails with 404. It does not create a conversation. Only `chat_stream` creates a new one in that case.
- `get_history` does not sort messages; it returns them in table order. They come out sorted by time only because the store keeps messages in creation order (`GetHistory`'s last postcondition).

## Model

| member | source | states |
|---|---|---|
| Text.Split | app/main.py:325 | `split()` yields only words: non-empty and free of any whitespace character |
| Text.SplitJoin | app/main.py:325 | splitting words that were joined by single spaces gives exactly those words back |
| Text.JoinSplit | app/main.py:325 | for a normalized text, joining its `split()` words with single spaces rebuilds the text |
| Text.SplitJoinIdentity | app/main.py:325 | `" ".join(s.split()) == s` holds if and only if `s` is normalized (single ASCII spaces between non-blank characters, none at the ends) |
| Text.JoinNormalized | app/main.py:325 | words joined by single spaces always form a normalized text, non-empty when there is a word |
| Text.Strip | app/main.py:395 | `str.strip()` as right-stripping then left-stripping; its meaning is stated by `StripSpec` |
| Text.StripSpec | app/main.py:395 | `strip()` returns the slice of the input between its leading and trailing whitespace: all that is cut off is whitespace, and the result neither starts nor ends with whitespace |
| Text.StripEnd | app/main.py:395 | the right-stripped text is a prefix of the input and does not end in whitespace |
| Text.StripStart | app/main.py:395 | the left-stripped text is a suffix of the input and does not start with whitespace |
| Text.StripEndRemovesOnlySpace | app/main.py:395 | every character that right-stripping cuts off is whitespace |
| Text.StripStartRemovesOnlySpace | app/main.py:395 | every character that left-stripping cuts off is whitespace |
| Text.StripSpaceAfterNormalized | app/main.py:395 | stripping a normalized text followed by one space gives the text back |
| Text.ConcatSnoc | app/main.py:389 | `full_response += word` extends the accumulated text by exactly that chunk |
| Text.ConcatChunks | app/main.py:326-327 | the chunks `w + " "` of a non-empty word list glue to the words joined by single spaces plus one trailing space |
| Text.StreamedTextIsJoin | app/main.py:387-395 | the stored text, the glued chunks stripped, equals the words joined by single spaces |
| Text.StreamedTextOfNormalized | app/main.py:322-327 | for a normalized response, the text stored after streaming it is the response itself |
| Text.Lower | app/main.py:180 | `str.lower()` on ASCII letters, every other character kept; stated by `LowerSpec`, `LowerKeepsLowercase` and `LowerIdempotent` |
| Text.LowerSpec | app/main.py:180 | lower-casing keeps the length, leaves no upper-case ASCII letter, and changes only upper-case ASCII letters, each to its lower-case partner |
| Text.LowerKeepsLowercase | app/main.py:180 | a text without upper-case letters is unchanged by lower-casing |
| Text.LowerIdempotent | app/main.py:180 | lower-casing twice is the same as lower-casing once |
| Catalog.SportResponses | app/main.py:122-153 | the catalogue, each reply written as its words joined by single spaces; its keys, sizes and spelling are stated by `CatalogShape`, `KeysAreLowerCase` and `CatalogNormalized` |
| Catalog.RepliesSplit | app/main.py:122-153 | one reply per word list, and `split()` of a reply gives back exactly the words it was written with, in order, so those are the words the stream sends |
| Catalog.RepliesNormalized | app/main.py:122-153 | replies built from word lists are normalized |
| Catalog.CatalogShape | app/main.py:122-153 | the keys are exactly rugby, football, tennis, volley and cyclisme; each has four replies; a pick is valid for every sport if and only if it is below 4 |
| Catalog.KeysAreLowerCase | app/main.py:122-153 | every key is its own lower-case form, so the `lower()` of any spelling of a key finds it |
| Catalog.RugbyNormalized | app/main.py:123-128 | every rugby reply is normalized |
| Catalog.FootballNormalized | app/main.py:129-134 | every football reply is normalized |
| Catalog.TennisNormalized | app/main.py:135-140 | every tennis reply is normalized |
| Catalog.VolleyNormalized | app/main.py:141-146 | every volley reply is normalized |
| Catalog.CyclismeNormalized | app/main.py:147-152 | every cyclisme reply is normalized |
| Catalog.CatalogNormalized | app/main.py:122-153 | every reply of every sport is normalized |
| Catalog.CatalogWellFormed | app/main.py:122-153 | the catalogue has lower-case keys and only normalized replies |
| Records.Status | app/main.py:177-193 | the HTTP status of each failure; `ErrorReports` states which failures are 404 and which is 400 |
| Records.Detail | app/main.py:177-193 | the `detail` text of each failure; `ErrorReports` states that no two failures share one |
| Records.ErrorReports | app/main.py:164-193 | each failure has its own detail text; exactly the two lookups that miss (user, conversation) are 404, and exactly the unsupported sport is 400 |
| Records.ReadFlag | app/main.py:251 | the stored `is_user` text reads as a user's message only when it is "true"; its round trip with the written flag is `FlagRoundTrip` |
| Records.FlagRoundTrip | app/main.py:251 | reading back the `is_user` text the handlers write ("true"/"false") gives the author flag they meant |
| Records.Views | app/main.py:247-254 | one view per stored message, in the same order; each keeps its message's id, content and time, and is a user's message exactly when the stored flag is "true"; the views are sorted by time exactly when the messages are stored in time order |
| Records.FindConversation | app/main.py:271 | the lookup by id returns the first conversation with that id, or none when no conversation has it |
| Records.FindOwnedConversation | app/main.py:187-190 | the lookup by id and owner returns a conversation matching both, or none when no conversation matches both |
| Records.FindMessage | app/main.py:393 | the lookup of a message by id returns a message with that id, or none when no message has it |
| Records.FindConversationSnoc | app/main.py:195-198 | storing a conversation leaves every earlier lookup unchanged and makes its own id found at the end |
| Records.FindOwnedIsFound | app/main.py:187-190 | a conversation found by id and owner is also found by id alone |
| Records.FindMessageUnique | app/main.py:393 | with distinct message ids, the lookup by a message's id finds that very message |
| Records.MessagesOf | app/main.py:246 | the filter by conversation returns only messages of that conversation, never more than the table holds |
| Records.MessagesOfMembers | app/main.py:246 | a message is in a conversation's selection if and only if it is in the table under that conversation |
| Records.MessagesOfAppend | app/main.py:206-217 | new rows extend a conversation's selection by that conversation's new rows, in order |
| Records.MessagesOfAppendPair | app/main.py:201-217 | storing the user and bot messages appends both, in that order, to their conversation's selection and changes no other selection |
| Records.ReplaceLastContent | app/main.py:393-395 | overwriting the content of the last of the two stored messages equals storing the updated message in its place |
| Records.OwnedBy | app/main.py:242 | the filter by owner returns only that user's conversations |
| Records.OwnedByMembers | app/main.py:242 | a conversation is selected if and only if it is in the table and owned by the user |
| Records.InsertByTime | app/main.py:290 | one insertion step of the sort keeps the multiset of messages, with the new one added |
| Records.InsertByTimeBounded | app/main.py:290 | inserting keeps every time at or below a bound that all inputs respect |
| Records.InsertByTimeSorted | app/main.py:290 | inserting into a time-sorted list keeps it sorted |
| Records.InsertByTimeStable | app/main.py:290 | inserting a message changes the messages of each time only by appending the new one to those of its own time |
| Records.SortByTime | app/main.py:290 | the sort by `created_at` returns a list sorted ascending by time with the same multiset of messages |
| Records.SortByTimeStable | app/main.py:290 | the sort is stable: for every time, the messages created at that time keep their relative order |
| Records.SortByTimeOfSorted | app/main.py:290 | sorting an already sorted list changes nothing |
| Records.MessagesOfInTimeOrder | app/main.py:246-253 | when the table is stored in creation order, each conversation's selection and its views are sorted by time |
| Streaming.HeaderLine | app/main.py:378-387 | the header line is non-empty and ends with the line break |
| Streaming.HeaderLineFields | app/main.py:378-387 | the header line is 42 characters plus both ids; the bot message id follows `{"message_id": "`, and the conversation id comes just before the closing `"}` and line break |
| Streaming.GenerateResponse | app/main.py:320-329 | the loop sends the header and then one chunk `w + " "` per word of `split()`, in order; the accumulated text is the chunks glued together |
| Store.Admit | app/main.py:175-193 | `send_message`'s checks in order: an unknown user gives UserNotFound; then an unsupported lowered sport gives SportNotSupported; then a named conversation not owned by the user gives ConversationNotFound; otherwise the request is accepted |
| Store.Reuses | app/main.py:346-352 | whether `chat_stream` keeps the named conversation; `ReusesOwned` states when |
| Store.ReusesOwned | app/main.py:346-352 | a request reuses a conversation exactly when it names one that is in the table and owned by the requesting user |
| Store.Target | app/main.py:345-356 | the streaming conversation is the named one whenever that is one of the user's conversations; otherwise it is the new one. It is always either the new one or a conversation of the user, and differs from the new one only when the request named it |
| Store.AppendKeepsMessagesValid | app/main.py:201-217 | appending two fresh messages of an existing conversation, stamped no earlier than the clock, keeps the message table valid |
| Store.AppendKeepsMessagesFound | app/main.py:195-198 | storing a conversation keeps every message's conversation resolvable |
| Store.ChatStore.constructor | app/main.py:44-45 | the store starts with empty tables and the service's catalogue, and is valid |
| Store.ChatStore.CreateUser | app/main.py:156-162 | the user is stored under its fresh id with the given name and time; a name already in use fails and stores nothing; the other tables are unchanged |
| Store.ChatStore.GetUser | app/main.py:164-169 | returns the stored user with that id, or UserNotFound (404) exactly when there is none |
| Store.ChatStore.AddConversation | app/main.py:195-198 | appends the conversation, keeps the store valid, and makes the conversation findable by id |
| Store.ChatStore.AddMessages | app/main.py:201-217 | appends the user message and then the bot message, advances the clock to their time, and keeps the store valid |
| Store.ChatStore.SendMessage | app/main.py:172-232 | on every refusal: that error and no write. On success: a new conversation (with the lowered sport) only when none was named; the user's message then the bot's reply `pick` in the resolved conversation; the reply's view and conversation id as the result |
| Store.ChatStore.GetHistory | app/main.py:234-265 | UserNotFound exactly for an unknown user; otherwise one entry per conversation of the user, in table order, each with its messages' views in table order; in a valid store each list is sorted by time |
| Store.ChatStore.GetConversation | app/main.py:267-298 | ConversationNotFound exactly when the id is unknown; otherwise the conversation's id, sport and time, with its messages sorted by time, a permutation of the stored ones, and stable; in a valid store this is the stored order |
| Store.ChatStore.OpenStream | app/main.py:333-385 | an unknown user or unsupported sport gives its refusal text and writes nothing. Otherwise a named conversation of the user is reused, and any other request gets a new conversation; then the user message and an empty bot placeholder are stored, and the header names both ids |
| Store.ChatStore.FinishStream | app/main.py:392-396 | the message with the id, if any, gets the accumulated text stripped; nothing else changes, and the table stays valid |
| Store.ChatStore.SetContent | app/main.py:395 | only the content of the one message changes; ids, owners, flags and times stay, so the table stays valid |
| Store.ChatStore.StreamReply | app/main.py:386-396 | for a normalized reply: the chunks are the header then the reply's words, and the placeholder (last message) ends up holding the reply |
| Store.ChatStore.ChatStream | app/main.py:332-401 | refusals give one text chunk and no write. Otherwise the chunks are the header then the reply's words, and the tables end holding the user message and the bot message with the chosen catalogue reply, in the reused or new conversation |

## Left out

- The web layer: FastAPI routing, request parsing, Pydantic response models, CORS, `UUIDEncoder`, `/ping` and the `uvicorn` start-up. Errors are values; `Status` and `Detail` give the HTTP status and detail text each error is reported with.
- `/admin/stats` (app/main.py:300-317): plain counts over the tables, with no behaviour beyond `|users|`, `|conversations|` and the number of conversations per sport.
- Database mechanics: SQLAlchemy sessions, `commit` and `refresh`. Each handler runs as one step over the in-memory tables. The separate commits of a handler, and what a crash between them would leave behind, are not modelled.
- The `first()` and `all()` queries return rows in table (insertion) order. SQL gives no order without `ORDER BY`, and the model fixes this one.
- Asynchrony: `asyncio.sleep(0.1)` between chunks, suspension of the generator, and a client disconnect that would stop the stream before finalisation. A stream is modelled as run to completion.
- Randomness, fresh ids and the clock are inputs, as listed above. One `now` stamps every row a handler writes, where the source calls `datetime.now` per row. User and conversation timestamps are only required to be given, not tied to the clock.
- Lower: only ASCII letters are lower-cased. Full Unicode `str.lower()` agrees on every input whose lower-cased form is a catalogue key, because the keys are lower-case ASCII letters without `k` (the Kelvin sign is the only non-ASCII character that lowers to an ASCII letter).
- Catalog.Replies: the catalogue sentences are written as word lists joined by single spaces. That is how each of the twenty sentences is spelled, but the literal strings are not quoted one by one.
- Streaming.HeaderLine: the ids are written without JSON escaping, which canonical UUID text never needs.
- Store.ChatStore.CreateUser: the duplicate-username failure is the `unique` constraint raising at `commit`, reported as a 500. It is modelled as the error `UsernameTaken`.
- Store.ChatStore.SendMessage: a reused conversation keeps its stored sport while the reply comes from the sport of the request. This is what the code does, and the model keeps it.
