/**
 * The streaming responder: the header line that opens the stream, the
 * word chunks `generate_streaming_response` yields for a reply, and the
 * loop of `generate_response` that forwards them while accumulating the
 * text to be stored.
 */
module Streaming {
  import opened Text

  /** `json.dumps(header_info) + "\n"` for the bot message id and the
      conversation id (canonical UUID text needs no JSON escaping). */
  function HeaderLine(messageId: string, conversationId: string): (h: string)
    ensures |h| > 0 && h[|h| - 1] == '\n'
  {
    "{\"message_id\": \"" + messageId + "\", \"conversation_id\": \"" + conversationId + "\"}\n"
  }

  /** The header line carries both ids: the message id stands right after
      the opening `{"message_id": "`, and the conversation id right before
      the closing `"}` and the line break. */
  lemma HeaderLineFields(messageId: string, conversationId: string)
    ensures var h := HeaderLine(messageId, conversationId);
      && |h| == 42 + |messageId| + |conversationId|
      && h[..16] == "{\"message_id\": \""
      && h[16..16 + |messageId|] == messageId
      && h[|h| - 3 - |conversationId|..|h| - 3] == conversationId
      && h[|h| - 3..] == "\"}\n"
  {
    var h := HeaderLine(messageId, conversationId);
    var p, q, e := "{\"message_id\": \"", "\", \"conversation_id\": \"", "\"}\n";
    assert h == p + messageId + q + conversationId + e;
    assert |p| == 16 && |q| == 23 && |e| == 3;
  }

  /** What the client receives for a reply: the header line, then the
      reply's words, each followed by one space. */
  method GenerateResponse(header: string, response: string) returns (out: seq<string>, full: string)
    ensures out == [header] + Chunks(Split(response))
    ensures full == Concat(Chunks(Split(response)))
  {
    var words := Split(response);
    out := [header];
    full := "";
    var i := 0;
    while i < |words|
      invariant 0 <= i <= |words|
      invariant out == [header] + Chunks(words[..i])
      invariant full == Concat(Chunks(words[..i]))
    {
      var word := words[i] + " ";
      assert Chunks(words[..i + 1]) == Chunks(words[..i]) + [word];
      ConcatSnoc(Chunks(words[..i]), word);
      full := full + word;
      out := out + [word];
      i := i + 1;
    }
    assert words[..i] == words;
  }
}
