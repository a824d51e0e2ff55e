/** The message list of components/AIChatPanel.tsx and its send handler.

    The network stream is an input: `Opened(chunks, broken)` is a stream that was
    returned and yielded `chunks` (a chunk without text is the empty string), then
    either ended or threw (`broken`); `OpenFailed` is a call that threw before any
    stream was returned. The three `Date.now()` readings are parameters. */
module AiChat {
  import opened Types
  import opened Js

  /** The model message appended when the call or the stream throws. */
  const FALLBACK: string := "抱歉，目前的公式推导出现了一点扰动，请稍后尝试。"

  datatype StreamReply = OpenFailed | Opened(chunks: seq<string>, broken: bool)

  /** `!inputValue.trim()`. */
  predicate Blank(s: string) {
    Trim(s) == ""
  }

  /** The text accumulated from the chunks, in arrival order. */
  function Concat(chunks: seq<string>): string {
    if chunks == [] then "" else Concat(chunks[..|chunks| - 1]) + chunks[|chunks| - 1]
  }

  /** The chunks that carry text. */
  function NonEmpty(chunks: seq<string>): (r: seq<string>)
    ensures forall k :: 0 <= k < |r| ==> r[k] != ""
    ensures |r| <= |chunks|
  {
    if chunks == [] then []
    else if chunks[|chunks| - 1] == "" then NonEmpty(chunks[..|chunks| - 1])
    else NonEmpty(chunks[..|chunks| - 1]) + [chunks[|chunks| - 1]]
  }

  /** Chunks without text contribute nothing: the accumulated text is the
      concatenation of the non-empty chunks alone. */
  lemma {:induction false} ConcatSkipsEmpty(chunks: seq<string>)
    ensures Concat(chunks) == Concat(NonEmpty(chunks))
  {
    if chunks != [] {
      var init, last := chunks[..|chunks| - 1], chunks[|chunks| - 1];
      ConcatSkipsEmpty(init);
      if last == "" {
        assert Concat(chunks) == Concat(init) + "";
      } else {
        var ne := NonEmpty(init) + [last];
        assert ne[..|ne| - 1] == NonEmpty(init);
      }
    }
  }

  /** `[...prev.slice(0, -1), { ...last, content }]`: the last message gets the new
      content; every earlier message, the length, and the last message's role and
      timestamp stay. */
  function ReplaceLast(ms: seq<ChatMessage>, content: string): (r: seq<ChatMessage>)
    requires ms != []
    ensures |r| == |ms|
    ensures r[..|r| - 1] == ms[..|ms| - 1]
    ensures r[|r| - 1].content == content
    ensures r[|r| - 1].role == ms[|ms| - 1].role && r[|r| - 1].timestamp == ms[|ms| - 1].timestamp
  {
    ms[..|ms| - 1] + [ms[|ms| - 1].(content := content)]
  }

  /** The messages an accepted send appends: the user's message, then the streamed
      model message when the stream opened, then the fallback when anything threw. */
  function SendTail(input: string, reply: StreamReply, userTime: int, modelTime: int, errorTime: int): seq<ChatMessage> {
    var user := ChatMessage(User, input, userTime);
    var fallback := ChatMessage(Model, FALLBACK, errorTime);
    match reply
    case OpenFailed => [user, fallback]
    case Opened(chunks, broken) =>
      [user, ChatMessage(Model, Concat(chunks), modelTime)] + (if broken then [fallback] else [])
  }

  /** An accepted send appends exactly one user message carrying the input, then
      exactly one fallback on failure and otherwise nothing else beyond one model
      message holding the concatenated non-empty chunks. */
  lemma SendTailShape(input: string, reply: StreamReply, userTime: int, modelTime: int, errorTime: int)
    ensures var tail := SendTail(input, reply, userTime, modelTime, errorTime);
      2 <= |tail| <= 3 &&
      tail[0] == ChatMessage(User, input, userTime) &&
      (forall k :: 1 <= k < |tail| ==> tail[k].role == Model) &&
      (reply.OpenFailed? || (reply.Opened? && reply.broken) ==>
         tail[|tail| - 1] == ChatMessage(Model, FALLBACK, errorTime)) &&
      (reply.Opened? ==> tail[1] == ChatMessage(Model, Concat(NonEmpty(reply.chunks)), modelTime)) &&
      (reply.Opened? && !reply.broken ==> |tail| == 2) &&
      (reply.OpenFailed? ==> tail == [tail[0], ChatMessage(Model, FALLBACK, errorTime)])
  {
    if reply.Opened? {
      ConcatSkipsEmpty(reply.chunks);
    }
  }

  /** The chat panel's state cells. */
  class ChatPanel {
    var messages: seq<ChatMessage>
    var inputValue: string
    var isTyping: bool

    constructor ()
      ensures messages == [] && inputValue == "" && !isTyping
    {
      messages := [];
      inputValue := "";
      isTyping := false;
    }

    /** The input box's `onChange`. */
    method SetInput(text: string)
      modifies this
      ensures inputValue == text
      ensures messages == old(messages) && isTyping == old(isTyping)
    {
      inputValue := text;
    }

    /** The `for await` loop: after each chunk that has text, the last message's
        content becomes the text accumulated so far; nothing else changes. */
    method StreamChunks(chunks: seq<string>)
      requires messages != [] && messages[|messages| - 1].content == ""
      modifies this
      ensures messages == old(messages)[..|old(messages)| - 1] + [old(messages)[|old(messages)| - 1].(content := Concat(chunks))]
      ensures inputValue == old(inputValue) && isTyping == old(isTyping)
    {
      var assistantContent := "";
      ghost var before := messages[..|messages| - 1];
      ghost var last := messages[|messages| - 1];
      var i := 0;
      assert Concat(chunks[..0]) == "";
      assert messages == before + [last];
      while i < |chunks|
        invariant 0 <= i <= |chunks|
        invariant assistantContent == Concat(chunks[..i])
        invariant messages == before + [last.(content := assistantContent)]
        invariant inputValue == old(inputValue) && isTyping == old(isTyping)
      {
        assert chunks[..i + 1][..i] == chunks[..i];
        if chunks[i] != "" {
          assistantContent := assistantContent + chunks[i];
          messages := ReplaceLast(messages, assistantContent);
          assert messages[..|messages| - 1] == before;
        }
        i := i + 1;
      }
      assert chunks[..|chunks|] == chunks;
    }

    /** `handleSend`. A blank input or a send already in progress is ignored. An
        accepted send appends the user message, clears the input and raises the
        typing flag; an opened stream appends an empty model message and replaces its
        content with the accumulated text after each chunk that has text; a failure
        appends the fallback after whatever is present. The flag is cleared at the end
        on every path. */
    method HandleSend(reply: StreamReply, userTime: int, modelTime: int, errorTime: int)
      modifies this
      ensures old(Blank(inputValue) || isTyping) ==>
        messages == old(messages) && inputValue == old(inputValue) && isTyping == old(isTyping)
      ensures !old(Blank(inputValue) || isTyping) ==>
        messages == old(messages) + SendTail(old(inputValue), reply, userTime, modelTime, errorTime) &&
        inputValue == "" && !isTyping
    {
      if Trim(inputValue) == "" || isTyping {
        return;
      }
      Send(reply, userTime, modelTime, errorTime);
    }

    /** The part of `handleSend` past its guard. */
    method Send(reply: StreamReply, userTime: int, modelTime: int, errorTime: int)
      modifies this
      ensures messages == old(messages) + SendTail(old(inputValue), reply, userTime, modelTime, errorTime)
      ensures inputValue == "" && !isTyping
    {
      ghost var start := messages;
      var text := inputValue;
      messages := messages + [ChatMessage(User, text, userTime)];
      inputValue := "";
      isTyping := true;
      match reply {
        case OpenFailed =>
          messages := messages + [ChatMessage(Model, FALLBACK, errorTime)];
          assert messages == start + SendTail(text, reply, userTime, modelTime, errorTime);
        case Opened(chunks, broken) =>
          messages := messages + [ChatMessage(Model, "", modelTime)];
          StreamChunks(chunks);
          assert messages == start + [ChatMessage(User, text, userTime), ChatMessage(Model, Concat(chunks), modelTime)];
          if broken {
            messages := messages + [ChatMessage(Model, FALLBACK, errorTime)];
          }
          assert messages == start + SendTail(text, reply, userTime, modelTime, errorTime);
      }
      isTyping := false;
    }
  }
}
