/** `MyHostedAgent`: answers the last user message of a request with a fixed
    echo template, either whole (`run`) or word by word (`run_stream`), and
    tells the request's thread, if any, about the reply once. */
module HostedAgent {
  import opened Outcomes
  import opened Framework
  import Text
  import Streams

  const EchoOpen: string := "You said: '"
  const EchoClose: string := "'\n\n"
  const EchoBody: string :=
    "This is a hosted agent running on Azure AI Foundry. "
    + "Replace this response logic with your actual agent implementation."

  /** A framework message; its `content` may be `None`. */
  datatype Message = Message(role: Role, content: Option<string>)

  /** `request.input`: the conversation so far. */
  datatype RunInput = RunInput(messages: seq<Message>)

  datatype Request = Request(input: Option<RunInput>, thread: Option<ThreadHandle>)

  /** One `_notify_thread_of_new_messages` call. */
  datatype Append = Append(thread: ThreadHandle, messages: seq<Message>)

  /** What a caller of `run_stream` observes. */
  type StreamLog = Streams.Log<Append>

  datatype RunResponse = RunResponse(messages: seq<Message>, appended: seq<Append>)

  // ---------------------------------------------------------------------------
  // _get_last_user_message
  // ---------------------------------------------------------------------------

  /** The request's messages; an absent input has none. */
  function RequestMessages(request: Request): seq<Message>
  {
    if request.input.Some? then request.input.value.messages else []
  }

  /** Message `k` is a USER message and no later message is. */
  predicate IsLastUser(msgs: seq<Message>, k: int)
  {
    && 0 <= k < |msgs|
    && msgs[k].role == User
    && forall j :: k < j < |msgs| ==> msgs[j].role != User
  }

  predicate HasNoUser(msgs: seq<Message>)
  {
    forall j :: 0 <= j < |msgs| ==> msgs[j].role != User
  }

  /** The content of the last USER message, scanning from the end; its `None`
      content reads as "" and does not send the scan on to an earlier USER
      message. With no USER message the result is "". */
  function LastUserIn(msgs: seq<Message>): (text: string)
    ensures forall k :: IsLastUser(msgs, k) ==> text == msgs[k].content.UnwrapOr("")
    ensures HasNoUser(msgs) ==> text == ""
    decreases |msgs|
  {
    if |msgs| == 0 then ""
    else
      var last := msgs[|msgs| - 1];
      if last.role == User then last.content.UnwrapOr("")
      else
        var earlier := msgs[..|msgs| - 1];
        assert forall k :: IsLastUser(msgs, k) ==> IsLastUser(earlier, k);
        LastUserIn(earlier)
  }

  /** `_get_last_user_message`: "" for an absent input or an empty conversation,
      else the content of its last USER message. */
  function LastUserMessage(request: Request): (text: string)
    ensures request.input.None? ==> text == ""
    ensures HasNoUser(RequestMessages(request)) ==> text == ""
    ensures forall k :: IsLastUser(RequestMessages(request), k)
                        ==> text == RequestMessages(request)[k].content.UnwrapOr("")
  {
    var msgs := RequestMessages(request);
    if |msgs| > 0 then LastUserIn(msgs) else ""
  }

  /** A USER message that is followed only by non-USER messages decides the
      result, even when its content is `None` and an earlier USER message has text. */
  lemma LastUserDoesNotFallBack(earlier: seq<Message>, tail: seq<Message>, thread: Option<ThreadHandle>)
    requires HasNoUser(tail)
    ensures LastUserMessage(Request(Some(RunInput(earlier + [Message(User, None)] + tail)), thread)) == ""
  {
    var msgs := earlier + [Message(User, None)] + tail;
    assert IsLastUser(msgs, |earlier|);
  }

  // ---------------------------------------------------------------------------
  // _generate_response
  // ---------------------------------------------------------------------------

  /** `_generate_response`: the echo template around the user's text, which
      can always be read back out of the reply. */
  function GenerateResponse(userMessage: string): (reply: string)
    ensures EchoedMessage(reply) == Some(userMessage)
  {
    var tail := EchoClose + EchoBody;
    var r := EchoOpen + userMessage + tail;
    assert r[..|EchoOpen|] == EchoOpen;
    assert r[|r| - |tail|..] == tail;
    assert r[|EchoOpen|..|r| - |tail|] == userMessage;
    assert EchoOpen + userMessage + EchoClose + EchoBody == r;
    EchoOpen + userMessage + EchoClose + EchoBody
  }

  /** The user's text read back out of a reply, if the reply has the template's shape. */
  function EchoedMessage(reply: string): Option<string>
  {
    var tail := EchoClose + EchoBody;
    if |reply| >= |EchoOpen| + |tail|
       && reply[..|EchoOpen|] == EchoOpen
       && reply[|reply| - |tail|..] == tail
    then Some(reply[|EchoOpen|..|reply| - |tail|])
    else None
  }

  /** The template is the only way to a reply that reads back: a reply from
      which a user text is read is exactly that text's reply. */
  lemma EchoedReplyIsGenerated(reply: string, userMessage: string)
    requires EchoedMessage(reply) == Some(userMessage)
    ensures reply == GenerateResponse(userMessage)
  {
    var tail := EchoClose + EchoBody;
    assert reply == reply[..|EchoOpen|] + reply[|EchoOpen|..|reply| - |tail|] + reply[|reply| - |tail|..];
  }

  /** Every reply holds a newline, which word splitting removes. */
  lemma ResponseHasNewline(userMessage: string)
    ensures '\n' in GenerateResponse(userMessage)
  {
    var r := GenerateResponse(userMessage);
    assert r[|EchoOpen| + |userMessage| + 1] == '\n';
  }

  // ---------------------------------------------------------------------------
  // run
  // ---------------------------------------------------------------------------

  function AssistantMessage(text: string): Message
  {
    Message(Assistant, Some(text))
  }

  /** The appends made after a reply: one, holding only that reply, if the
      request has a thread; none otherwise. */
  function Appends(thread: Option<ThreadHandle>, reply: Message): (appended: seq<Append>)
    ensures |appended| == if thread.Some? then 1 else 0
    ensures forall i :: 0 <= i < |appended| ==> appended[i] == Append(thread.value, [reply])
  {
    if thread.Some? then [Append(thread.value, [reply])] else []
  }

  /** `run`: a single assistant message echoing the last user message, and one
      notification of the thread, if any, holding just that message. */
  function Run(request: Request): (response: RunResponse)
    ensures |response.messages| == 1
    ensures response.messages[0].role == Assistant
    ensures response.messages[0].content.Some?
    ensures EchoedMessage(response.messages[0].content.value) == Some(LastUserMessage(request))
    ensures response.appended == Appends(request.thread, response.messages[0])
  {
    var reply := AssistantMessage(GenerateResponse(LastUserMessage(request)));
    RunResponse([reply], Appends(request.thread, reply))
  }

  // ---------------------------------------------------------------------------
  // run_stream
  // ---------------------------------------------------------------------------

  /** The notification a completed word stream makes: when there is a thread,
      one append holding only a message of the words joined by single spaces,
      from which whitespace splitting gets the same words back. */
  function StreamNote(thread: Option<ThreadHandle>, words: seq<string>): (note: Option<Append>)
    ensures note.Some? <==> thread.Some?
    ensures note.Some? ==> && note.value.thread == thread.value
                           && |note.value.messages| == 1
                           && note.value.messages[0].role == Assistant
                           && note.value.messages[0].content.Some?
    ensures note.Some? && (forall i :: 0 <= i < |words| ==> Text.IsWord(words[i]))
            ==> Text.Words(note.value.messages[0].content.value) == words
  {
    var text := Text.Join(words, " ");
    assert (forall i :: 0 <= i < |words| ==> Text.IsWord(words[i])) ==> Text.Words(text) == words by {
      if forall i :: 0 <= i < |words| ==> Text.IsWord(words[i]) {
        Text.WordsOfJoin(words);
      }
    }
    if thread.Some? then Some(Append(thread.value, [AssistantMessage(text)])) else None
  }

  /** The loop of `run_stream` over the words of a reply: each word is yielded
      followed by one space, in order; after the last one, and only if there is a
      thread, the thread is told once, with a message holding the words joined by
      single spaces. */
  method StreamWords(words: seq<string>, thread: Option<ThreadHandle>) returns (events: StreamLog)
    ensures events == Streams.Trace(Text.Suffixed(words, " "), StreamNote(thread, words))
    ensures Streams.Fragments(events) == Text.Suffixed(words, " ")
    ensures Streams.NotifyCount(events) == if thread.Some? then 1 else 0
    ensures Streams.AssistantUpdates(events)
    ensures thread.Some? ==>
      && |events| > 0
      && events[|events| - 1] == Streams.Notify(Append(thread.value, [AssistantMessage(Text.Join(words, " "))]))
  {
    var accumulated: seq<string> := [];
    events := [];
    for i := 0 to |words|
      invariant accumulated == words[..i]
      invariant events == Streams.Updates(Text.Suffixed(accumulated, " "))
    {
      accumulated := accumulated + [words[i]];
      events := events + [Streams.Update(Assistant, words[i] + " ")];
    }
    assert words[..|words|] == words;
    var finalMessage := AssistantMessage(Text.Join(accumulated, " "));
    if thread.Some? {
      events := events + [Streams.Notify(Append(thread.value, [finalMessage]))];
    }
    var note := StreamNote(thread, words);
    var frags := Text.Suffixed(accumulated, " ");
    assert events == Streams.Trace(frags, note);
    Streams.TraceFacts(frags, note);
  }

  /** `run_stream`: the `reply` that `run` would give is split on whitespace into
      `words` and streamed word by word, each word followed by one space; the thread, if
      any, is told once at the end, with the words joined by single spaces,
      that is the reply normalised. */
  method RunStream(request: Request) returns (reply: string, words: seq<string>, events: StreamLog)
    ensures reply == GenerateResponse(LastUserMessage(request))
    ensures words == Text.Words(reply)
    ensures events == Streams.Trace(Text.Suffixed(words, " "), StreamNote(request.thread, words))
  {
    var userMessage := LastUserMessage(request);
    reply := GenerateResponse(userMessage);
    words := Text.Words(reply);
    events := StreamWords(words, request.thread);
  }

  /** The final streamed message has the same words as the reply `run` gives,
      but never equals it: the template's blank line collapses to one space. */
  lemma StreamedFinalVersusRun(userMessage: string)
    ensures Text.Words(Text.Normalize(GenerateResponse(userMessage))) == Text.Words(GenerateResponse(userMessage))
    ensures Text.Normalize(GenerateResponse(userMessage)) != GenerateResponse(userMessage)
  {
    var reply := GenerateResponse(userMessage);
    ResponseHasNewline(userMessage);
    assert Text.PlainSpaced(Text.Normalize(reply));
    assert Text.IsSpace('\n');
  }

  /** The conversation USER "a", ASSISTANT "b", USER "c" answers "c"; an empty
      one answers "". */
  lemma LastUserExamples(thread: Option<ThreadHandle>)
    ensures LastUserMessage(Request(Some(RunInput([Message(User, Some("a")), Message(Assistant, Some("b")),
                                                   Message(User, Some("c"))])), thread)) == "c"
    ensures LastUserMessage(Request(Some(RunInput([])), thread)) == ""
  {
    var msgs := [Message(User, Some("a")), Message(Assistant, Some("b")), Message(User, Some("c"))];
    assert IsLastUser(msgs, 2);
  }
}
