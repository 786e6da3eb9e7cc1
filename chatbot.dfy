/** The chat screen: the transcript `sendMessage` builds from the user's
    text and the model's streamed reply, and the form that submits it. */
module Chatbot {
  import opened Types
  import opened Text

  /** What the chat service does with one message: it throws before a
      stream exists, or it yields a stream of chunks and then either ends or
      throws. A chunk's `text` may be absent. */
  datatype StreamReply =
    | FailsToStart
    | Streamed(chunks: seq<Option<string>>, failsAfter: bool)

  const ErrorText: string := "Sorry, I'm having trouble connecting right now. Please try again later."

  /** The message shown in place of a reply when the service fails. */
  const ErrorMessage: ChatMessage := ChatMessage(Model, [Part(ErrorText)])

  /** The message the user's text becomes. */
  function UserMessage(text: string): ChatMessage {
    ChatMessage(User, [Part(text)])
  }

  /** The text `+= chunk.text` adds: an absent text becomes the string
      "undefined", as JavaScript's string concatenation makes it. */
  function ChunkText(c: Option<string>): string {
    match c
    case Some(s) => s
    case None => "undefined"
  }

  /** The reply text the chunks add up to, in stream order. */
  function Concat(chunks: seq<Option<string>>): string {
    if chunks == [] then "" else Concat(chunks[..|chunks| - 1]) + ChunkText(chunks[|chunks| - 1])
  }

  /** Concatenation splits over any cut of the stream. */
  lemma {:induction false} ConcatAppend(a: seq<Option<string>>, b: seq<Option<string>>)
    ensures Concat(a + b) == Concat(a) + Concat(b)
    decreases |b|
  {
    if b == [] {
      assert a + b == a;
    } else {
      var b' := b[..|b| - 1];
      assert (a + b)[..|a + b| - 1] == a + b';
      ConcatAppend(a, b');
    }
  }

  /** Every message of the transcript has exactly one part, as every message
      the screen creates does. */
  predicate OnePartEach(h: seq<ChatMessage>) {
    forall i :: 0 <= i < |h| ==> |h[i].parts| == 1
  }

  /** The update one chunk makes: its text is appended to the last message
      when that message is the model's, and nothing changes otherwise. */
  function AppendChunk(h: seq<ChatMessage>, s: string): (r: seq<ChatMessage>)
    requires OnePartEach(h)
    ensures OnePartEach(r) && |r| == |h|
    ensures h != [] && h[|h| - 1].role == Model ==>
              r == h[..|h| - 1] + [ChatMessage(Model, [Part(h[|h| - 1].parts[0].text + s)])]
    ensures !(h != [] && h[|h| - 1].role == Model) ==> r == h
  {
    if h != [] && h[|h| - 1].role == Model then
      h[..|h| - 1] + [ChatMessage(Model, [Part(h[|h| - 1].parts[0].text + s)])]
    else h
  }

  /** The failure handler's update: the error message replaces the last
      message when that is the model's, and is appended otherwise. */
  function WithError(h: seq<ChatMessage>): (r: seq<ChatMessage>)
    ensures r != [] && r[|r| - 1] == ErrorMessage
    ensures h != [] && h[|h| - 1].role == Model ==> r == h[..|h| - 1] + [ErrorMessage]
    ensures !(h != [] && h[|h| - 1].role == Model) ==> r == h + [ErrorMessage]
  {
    if h != [] && h[|h| - 1].role == Model then h[..|h| - 1] + [ErrorMessage] else h + [ErrorMessage]
  }

  /** Whether `sendMessage` ignores the call: blank text, no chat session,
      or a reply still loading. */
  predicate Ignored(text: string, chatReady: bool, isLoading: bool) {
    IsBlank(text) || !chatReady || isLoading
  }

  /** The transcript after one exchange that was not ignored: the user's
      message, then the model's whole reply or, on any failure, the error
      message. */
  function Transcript(before: seq<ChatMessage>, text: string, reply: StreamReply): seq<ChatMessage> {
    before + [UserMessage(text)] +
      [if reply.Streamed? && !reply.failsAfter then ChatMessage(Model, [Part(Concat(reply.chunks))]) else ErrorMessage]
  }

  /** Every exchange adds exactly two messages after the old ones, the
      user's and then the model's; the reply is the chunks in order when the
      stream ends normally and the error message otherwise. */
  lemma TranscriptShape(before: seq<ChatMessage>, text: string, reply: StreamReply)
    ensures var h := Transcript(before, text, reply);
      && |h| == |before| + 2
      && h[..|before|] == before
      && h[|before|] == UserMessage(text)
      && h[|before| + 1].role == Model
      && (h[|before| + 1] == ErrorMessage <==> !(reply.Streamed? && !reply.failsAfter) || Concat(reply.chunks) == ErrorText)
      && (reply.Streamed? && !reply.failsAfter ==> h[|before| + 1].parts == [Part(Concat(reply.chunks))])
  {
  }

  /** A stream that ends normally replies with exactly the concatenated
      chunk texts, so a reply split over two streams reads the same. */
  lemma StreamSplitsAnywhere(before: seq<ChatMessage>, text: string, a: seq<Option<string>>, b: seq<Option<string>>)
    ensures Transcript(before, text, Streamed(a + b, false))[|before| + 1].parts[0].text
         == Concat(a) + Concat(b)
  {
    ConcatAppend(a, b);
  }

  /** The chat screen's state: whether a chat session exists, the
      transcript, the text box and the loading flag. */
  class ChatSession {
    var chatReady: bool
    var history: seq<ChatMessage>
    var userInput: string
    var isLoading: bool

    predicate Valid()
      reads this
    {
      OnePartEach(history)
    }

    /** The screen as first shown, once the chat session has (or has not)
        been created. */
    constructor (chatReady: bool)
      ensures Valid()
      ensures this.chatReady == chatReady && history == [] && userInput == "" && !isLoading
    {
      this.chatReady := chatReady;
      history := [];
      userInput := "";
      isLoading := false;
    }

    /** `sendMessage`: a guarded no-op, or the user's message followed by the
        reply built chunk by chunk; loading is on for the exchange and off
        after it on every path. */
    method SendMessage(text: string, reply: StreamReply)
      requires Valid()
      modifies this
      ensures Valid()
      ensures Ignored(text, old(chatReady), old(isLoading)) ==> unchanged(this)
      ensures !Ignored(text, old(chatReady), old(isLoading)) ==>
        && history == Transcript(old(history), text, reply)
        && !isLoading
        && chatReady == old(chatReady) && userInput == old(userInput)
    {
      if IsBlank(text) || !chatReady || isLoading {
        return;
      }
      ghost var before := history;
      history := history + [UserMessage(text)];
      isLoading := true;
      match reply {
        case FailsToStart =>
          history := WithError(history);
        case Streamed(chunks, failsAfter) =>
          history := history + [ChatMessage(Model, [Part("")])];
          var i := 0;
          while i < |chunks|
            invariant 0 <= i <= |chunks|
            invariant isLoading && chatReady == old(chatReady) && userInput == old(userInput)
            invariant history == before + [UserMessage(text)] + [ChatMessage(Model, [Part(Concat(chunks[..i]))])]
          {
            assert chunks[..i + 1][..i] == chunks[..i];
            history := AppendChunk(history, ChunkText(chunks[i]));
            i := i + 1;
          }
          assert chunks[..|chunks|] == chunks;
          if failsAfter {
            history := WithError(history);
          }
      }
      isLoading := false;
    }

    /** `handleFormSubmit`: sends the text box's contents and always clears
        the box, even when the send was ignored. */
    method HandleFormSubmit(reply: StreamReply)
      requires Valid()
      modifies this
      ensures Valid()
      ensures userInput == ""
      ensures Ignored(old(userInput), old(chatReady), old(isLoading)) ==>
        history == old(history) && isLoading == old(isLoading) && chatReady == old(chatReady)
      ensures !Ignored(old(userInput), old(chatReady), old(isLoading)) ==>
        history == Transcript(old(history), old(userInput), reply) && !isLoading && chatReady == old(chatReady)
    {
      SendMessage(userInput, reply);
      userInput := "";
    }
  }
}
