/** `ChatbotAgent`: shapes loosely typed input into chat-completion records,
    prepends the system message, asks a provider for a reply, and either returns
    it whole or streams it chunk by chunk, telling the thread about the exchange
    once it is complete. The provider is a parameter: a function from the records
    sent to what came back. */
module ChatbotAgent {
  import opened Outcomes
  import opened Framework
  import Text
  import Streams

  const SystemPrompt: string := "You are a helpful AI assistant."
  const FallbackReply: string := "I couldn't generate a response."
  const ApiProjects: string := "/api/projects"

  // ---------------------------------------------------------------------------
  // Input shapes
  // ---------------------------------------------------------------------------

  /** One entry of a message's `contents`: text (whose `text` may be `None`) or
      anything else (images, function calls, ...). */
  datatype Content = TextContent(text: Option<string>) | OtherContent

  datatype ChatMessage = ChatMessage(role: Role, contents: seq<Content>)

  /** One element of a list input. */
  datatype Item = StrItem(s: string) | MessageItem(msg: ChatMessage) | OtherItem

  /** The `messages` argument of `run` and `run_stream`. */
  datatype Messages =
    | Absent                      // None
    | Plain(text: string)         // a bare str
    | Single(msg: ChatMessage)    // one ChatMessage
    | Many(items: seq<Item>)      // a list
    | Unrecognised                // any other Python value

  /** One `{"role": ..., "content": ...}` dictionary sent to the provider. */
  datatype Record = Record(role: string, content: string)

  predicate IsConversationRole(role: string)
  {
    role == "user" || role == "assistant"
  }

  // ---------------------------------------------------------------------------
  // _extract_text
  // ---------------------------------------------------------------------------

  /** The provider role of a framework role: USER is "user", every other role,
      SYSTEM and TOOL included, is "assistant". */
  function RoleName(role: Role): (name: string)
    ensures IsConversationRole(name)
    ensures name == "user" <==> role == User
  {
    if role == User then "user" else "assistant"
  }

  /** The text of one content entry: a `None` text reads as "", non-text entries add nothing. */
  function ContentText(c: Content): string
  {
    match c
    case TextContent(t) => t.UnwrapOr("")
    case OtherContent => ""
  }

  /** The texts of the `TextContent` entries alone, in order, a `None` text as "";
      every other entry is left out. */
  function TextParts(contents: seq<Content>): seq<string>
  {
    if |contents| == 0 then []
    else
      var head := match contents[0] case TextContent(t) => [t.UnwrapOr("")] case OtherContent => [];
      head + TextParts(contents[1..])
  }

  /** The `text += content.text or ""` loop over a message's contents: the text
      entries' texts, joined with nothing between them. */
  function MessageText(contents: seq<Content>): (text: string)
    ensures text == Text.Concat(TextParts(contents))
    decreases |contents|
  {
    if |contents| == 0 then ""
    else
      var rest := MessageText(contents[1..]);
      var head := match contents[0] case TextContent(t) => [t.UnwrapOr("")] case OtherContent => [];
      Text.ConcatAppend(head, TextParts(contents[1..]));
      ContentText(contents[0]) + rest
  }

  function MessageRecord(m: ChatMessage): Record
  {
    Record(RoleName(m.role), MessageText(m.contents))
  }

  /** The record a list element contributes, if any. */
  function ItemRecord(item: Item): Option<Record>
  {
    match item
    case StrItem(s) => Some(Record("user", s))
    case MessageItem(m) => Some(MessageRecord(m))
    case OtherItem => None
  }

  /** The records of a list input: one per str or ChatMessage element, in order;
      other elements are skipped. */
  function ItemRecords(items: seq<Item>): (records: seq<Record>)
    ensures |records| <= |items|
    ensures forall i :: 0 <= i < |records| ==> IsConversationRole(records[i].role)
  {
    if |items| == 0 then []
    else
      var head := match ItemRecord(items[0]) case Some(r) => [r] case None => [];
      head + ItemRecords(items[1..])
  }

  /** `_extract_text`: the provider records for any input. */
  function ExtractText(messages: Messages): (records: seq<Record>)
    ensures messages.Absent? || messages.Unrecognised? ==> records == []
    ensures messages.Plain? ==> records == [Record("user", messages.text)]
    ensures messages.Single? ==> |records| == 1
    ensures messages.Many? ==> |records| <= |messages.items|
    ensures forall i :: 0 <= i < |records| ==> IsConversationRole(records[i].role)
  {
    match messages
    case Absent => []
    case Plain(s) => [Record("user", s)]
    case Single(m) => [MessageRecord(m)]
    case Many(items) => ItemRecords(items)
    case Unrecognised => []
  }

  /** Text is read from the contents left to right: the text of two runs of
      contents is the text of the first followed by that of the second. */
  lemma {:induction false} MessageTextAppend(a: seq<Content>, b: seq<Content>)
    ensures MessageText(a + b) == MessageText(a) + MessageText(b)
    decreases |a|
  {
    if |a| == 0 {
      assert a + b == b;
    } else {
      assert (a + b)[1..] == a[1..] + b;
      MessageTextAppend(a[1..], b);
    }
  }

  /** Non-text contents, wherever they sit, contribute nothing to a message's text. */
  lemma OtherContentIgnored(a: seq<Content>, b: seq<Content>)
    ensures MessageText(a + [OtherContent] + b) == MessageText(a + b)
  {
    MessageTextAppend(a + [OtherContent], b);
    MessageTextAppend(a, [OtherContent]);
    MessageTextAppend(a, b);
  }

  /** A list input is processed element by element: the records of a
      concatenation are the records of each half, in order. */
  lemma {:induction false} ExtractManyAppend(a: seq<Item>, b: seq<Item>)
    ensures ExtractText(Many(a + b)) == ExtractText(Many(a)) + ExtractText(Many(b))
    decreases |a|
  {
    if |a| == 0 {
      assert a + b == b;
    } else {
      assert (a + b)[1..] == a[1..] + b;
      ExtractManyAppend(a[1..], b);
    }
  }

  /** A one-element list gives one record for a str or ChatMessage and none
      otherwise; a str becomes a "user" record with the same text. */
  lemma ExtractManySingleton(item: Item)
    ensures item.OtherItem? ==> ExtractText(Many([item])) == []
    ensures item.StrItem? ==> ExtractText(Many([item])) == [Record("user", item.s)]
    ensures item.MessageItem? ==> ExtractText(Many([item])) == [MessageRecord(item.msg)]
  {
    assert [item][1..] == [];
  }

  /** An unrecognised element anywhere in a list is dropped, not rejected. */
  lemma UnrecognisedItemSkipped(a: seq<Item>, b: seq<Item>)
    ensures ExtractText(Many(a + [OtherItem] + b)) == ExtractText(Many(a + b))
  {
    ExtractManyAppend(a + [OtherItem], b);
    ExtractManyAppend(a, [OtherItem]);
    ExtractManyAppend(a, b);
    ExtractManySingleton(OtherItem);
  }

  /** A single ChatMessage is treated exactly like a one-element list holding it. */
  lemma SingleIsOneElementList(m: ChatMessage)
    ensures ExtractText(Single(m)) == ExtractText(Many([MessageItem(m)]))
  {
    ExtractManySingleton(MessageItem(m));
  }

  /** A list of strings becomes one "user" record per string, same length, same order. */
  lemma {:induction false} ExtractStrings(strs: seq<string>)
    ensures ExtractText(Many(seq(|strs|, i requires 0 <= i < |strs| => StrItem(strs[i]))))
         == seq(|strs|, i requires 0 <= i < |strs| => Record("user", strs[i]))
    decreases |strs|
  {
    var items := seq(|strs|, i requires 0 <= i < |strs| => StrItem(strs[i]));
    if |strs| > 0 {
      assert items[1..] == seq(|strs| - 1, i requires 0 <= i < |strs| - 1 => StrItem(strs[1..][i]));
      ExtractStrings(strs[1..]);
    }
  }

  // ---------------------------------------------------------------------------
  // The records sent to the provider
  // ---------------------------------------------------------------------------

  const SystemRecord: Record := Record("system", SystemPrompt)

  /** `[system_message] + openai_messages`: the system message leads, the extracted
      records follow unchanged, and it is the only "system" record. */
  function ProviderMessages(messages: Messages): (sent: seq<Record>)
    ensures |sent| == 1 + |ExtractText(messages)|
    ensures sent[0] == SystemRecord
    ensures sent[1..] == ExtractText(messages)
    ensures forall i :: 0 <= i < |sent| ==> (sent[i].role == "system" <==> i == 0)
  {
    [SystemRecord] + ExtractText(messages)
  }

  // ---------------------------------------------------------------------------
  // Base endpoint
  // ---------------------------------------------------------------------------

  /** The Azure OpenAI endpoint derived from the project endpoint: everything
      before the first "/api/projects", or the whole endpoint when it has none. */
  function BaseEndpoint(endpoint: string): (base: string)
    ensures !Text.Contains(base, ApiProjects)
    ensures base <= endpoint
    ensures Text.Contains(endpoint, ApiProjects) ==> Text.OccursAt(endpoint, ApiProjects, |base|)
    ensures forall j: nat :: j < |base| ==> !Text.OccursAt(endpoint, ApiProjects, j)
    ensures !Text.Contains(endpoint, ApiProjects) ==> base == endpoint
  {
    if Text.Contains(endpoint, ApiProjects) then Text.Split(endpoint, ApiProjects)[0] else endpoint
  }

  /** Deriving the base endpoint a second time changes nothing. */
  lemma BaseEndpointIdempotent(endpoint: string)
    ensures BaseEndpoint(BaseEndpoint(endpoint)) == BaseEndpoint(endpoint)
  {
  }

  // ---------------------------------------------------------------------------
  // run
  // ---------------------------------------------------------------------------

  /** What the provider's `create` call did: raised, or returned the `content`
      of each of its choices. */
  datatype Completion = Raised | Returned(choices: seq<Option<string>>)

  /** Why `run` ended without a reply. */
  datatype RunError =
    | ProviderRaised   // the provider call raised; propagated unchanged
    | NoChoices        // `response.choices[0]` on an empty list raises IndexError

  /** One `_notify_thread_of_new_messages` call: the thread, the input it was
      given (whose normalisation the framework performs), and the reply. */
  datatype Append = Append(thread: ThreadHandle, input: Messages, reply: ChatMessage)

  /** What a caller of `run_stream` observes. */
  type StreamLog = Streams.Log<Append>

  datatype RunResponse = RunResponse(sent: seq<Record>, reply: ChatMessage, appended: seq<Append>)

  /** The reply text: the provider's content, unless it is `None` or empty. */
  function ReplyText(content: Option<string>): (text: string)
    ensures text != ""
    ensures content.Some? && content.value != "" ==> text == content.value
    ensures text == FallbackReply <==> content.None? || content.value in {"", FallbackReply}
  {
    if content.UnwrapOr("") == "" then FallbackReply else content.value
  }

  /** An assistant message holding one text. */
  function AssistantMessage(text: string): ChatMessage
  {
    ChatMessage(Assistant, [TextContent(Some(text))])
  }

  /** The appends made after a complete reply: one if a thread was given, else none. */
  function Appends(thread: Option<ThreadHandle>, messages: Messages, reply: ChatMessage): (appended: seq<Append>)
    ensures |appended| == if thread.Some? then 1 else 0
    ensures forall i :: 0 <= i < |appended| ==> appended[i] == Append(thread.value, messages, reply)
  {
    if thread.Some? then [Append(thread.value, messages, reply)] else []
  }

  /** `run`: one provider call on the system-prefixed records; a raising call
      fails the run without touching the thread; otherwise the reply is the
      first choice's content (or the fallback), and the thread, if given, is
      told about it exactly once. */
  function Run(messages: Messages, thread: Option<ThreadHandle>, complete: seq<Record> -> Completion)
    : (r: Result<RunResponse, RunError>)
    ensures complete(ProviderMessages(messages)).Raised? <==> r == Failure(ProviderRaised)
    ensures complete(ProviderMessages(messages)) == Returned([]) <==> r == Failure(NoChoices)
    ensures r.Success? ==> r.value.sent == ProviderMessages(messages)
    ensures r.Success? ==> r.value.reply.role == Assistant
    ensures r.Success? ==> MessageText(r.value.reply.contents)
                           == ReplyText(complete(ProviderMessages(messages)).choices[0])
    ensures r.Success? ==> MessageText(r.value.reply.contents) != ""
    ensures r.Success? ==> r.value.appended == Appends(thread, messages, r.value.reply)
  {
    var sent := ProviderMessages(messages);
    match complete(sent)
    case Raised => Failure(ProviderRaised)
    case Returned(choices) =>
      if |choices| == 0 then Failure(NoChoices)
      else
        var reply := AssistantMessage(ReplyText(choices[0]));
        Success(RunResponse(sent, reply, Appends(thread, messages, reply)))
  }

  // ---------------------------------------------------------------------------
  // run_stream
  // ---------------------------------------------------------------------------

  /** `chunk.choices[0].delta.content` for each choice of a streamed chunk. */
  datatype Delta = Delta(content: Option<string>)
  datatype Chunk = Chunk(choices: seq<Delta>)

  /** The text a chunk contributes: its first choice's delta content, provided
      there is a choice and the content is neither `None` nor empty. */
  function ChunkText(chunk: Chunk): (text: Option<string>)
    ensures text.Some? <==> |chunk.choices| > 0 && chunk.choices[0].content.Some?
                            && chunk.choices[0].content.value != ""
    ensures text.Some? ==> text.value == chunk.choices[0].content.value
  {
    if |chunk.choices| > 0 && chunk.choices[0].content.UnwrapOr("") != ""
    then chunk.choices[0].content
    else None
  }

  /** The fragments a chunk sequence yields, in provider order. */
  function KeptFragments(chunks: seq<Chunk>): (frags: seq<string>)
    ensures |frags| <= |chunks|
    ensures forall i :: 0 <= i < |frags| ==> frags[i] != ""
  {
    if |chunks| == 0 then []
    else
      var head := match ChunkText(chunks[0]) case Some(t) => [t] case None => [];
      head + KeptFragments(chunks[1..])
  }

  lemma {:induction false} KeptFragmentsAppend(a: seq<Chunk>, b: seq<Chunk>)
    ensures KeptFragments(a + b) == KeptFragments(a) + KeptFragments(b)
    decreases |a|
  {
    if |a| == 0 {
      assert a + b == b;
    } else {
      assert (a + b)[1..] == a[1..] + b;
      KeptFragmentsAppend(a[1..], b);
    }
  }

  /** A single chunk yields its first choice's delta content when there is a
      choice and that content is neither `None` nor empty, and nothing otherwise. */
  lemma KeptFragmentsSingleton(c: Chunk)
    ensures KeptFragments([c]) == if |c.choices| > 0 && c.choices[0].content.Some? && c.choices[0].content.value != ""
                                  then [c.choices[0].content.value] else []
  {
    assert [c][1..] == [];
  }

  /** The notification a completed stream makes: when a thread was given, one
      append of the input and of a reply holding all the yielded text. */
  function StreamNote(thread: Option<ThreadHandle>, messages: Messages, frags: seq<string>): (note: Option<Append>)
    ensures note.Some? <==> thread.Some?
    ensures note.Some? ==> note.value.thread == thread.value && note.value.input == messages
    ensures note.Some? ==> note.value.reply.role == Assistant
                           && MessageText(note.value.reply.contents) == Text.Concat(frags)
  {
    if thread.Some? then Some(Append(thread.value, messages, AssistantMessage(Text.Concat(frags)))) else None
  }

  /** `run_stream`: one streaming provider call on the system-prefixed records.
      Every chunk with text is yielded at once, in order, and nothing else is;
      after the last chunk, and only if a thread was given, the thread is told
      once, with a reply holding the concatenation of everything yielded.
      A caller that stops pulling before the stream ends causes no notification. */
  method RunStream(messages: Messages, thread: Option<ThreadHandle>, stream: seq<Record> -> seq<Chunk>)
    returns (sent: seq<Record>, events: StreamLog)
    ensures sent == ProviderMessages(messages)
    ensures events == Streams.Trace(KeptFragments(stream(sent)), StreamNote(thread, messages, KeptFragments(stream(sent))))
    ensures Streams.Fragments(events) == KeptFragments(stream(sent))
    ensures Streams.NotifyCount(events) == if thread.Some? then 1 else 0
    ensures thread.Some? ==>
      && |events| > 0
      && events[|events| - 1]
         == Streams.Notify(Append(thread.value, messages, AssistantMessage(Text.Concat(Streams.Fragments(events)))))
    ensures forall k :: 0 <= k <= |Streams.Fragments(events)| ==> k <= |events| && Streams.NotifyCount(events[..k]) == 0
  {
    sent := ProviderMessages(messages);
    var chunks := stream(sent);
    var fullResponse := "";
    var yielded: seq<string> := [];
    events := [];
    for i := 0 to |chunks|
      invariant yielded == KeptFragments(chunks[..i])
      invariant fullResponse == Text.Concat(yielded)
      invariant events == Streams.Updates(yielded)
    {
      var chunk := chunks[i];
      KeptFragmentsAppend(chunks[..i], [chunk]);
      assert chunks[..i + 1] == chunks[..i] + [chunk];
      assert [chunk][1..] == [];
      if |chunk.choices| > 0 && chunk.choices[0].content.Some? && chunk.choices[0].content.value != "" {
        var content := chunk.choices[0].content.value;
        Text.ConcatAppend(yielded, [content]);
        fullResponse := fullResponse + content;
        yielded := yielded + [content];
        events := events + [Streams.Update(Assistant, content)];
      }
    }
    assert chunks[..|chunks|] == chunks;
    if thread.Some? {
      events := events + [Streams.Notify(Append(thread.value, messages, AssistantMessage(fullResponse)))];
    }
    var note := StreamNote(thread, messages, yielded);
    assert events == Streams.Trace(yielded, note);
    Streams.TraceFacts(yielded, note);
    forall k | 0 <= k <= |yielded|
      ensures Streams.NotifyCount(events[..k]) == 0
    {
      Streams.AbandonedTraceNeverNotifies(yielded, note, k);
    }
  }

  /** Every update a `run_stream` caller sees is an ASSISTANT update: this holds of
      any event list `RunStream` can return, whose contract fixes it to this trace. */
  lemma RunStreamUpdatesAreAssistant(messages: Messages, thread: Option<ThreadHandle>, chunks: seq<Chunk>, events: StreamLog)
    requires events == Streams.Trace(KeptFragments(chunks), StreamNote(thread, messages, KeptFragments(chunks)))
    ensures Streams.AssistantUpdates(events)
  {
    Streams.TraceFacts(KeptFragments(chunks), StreamNote(thread, messages, KeptFragments(chunks)));
  }

  /** Streaming and non-streaming replies agree when the provider says the same
      thing both ways, except that the non-streaming path replaces an empty
      reply with the fallback text while the stream reports it empty. */
  lemma StreamAgreesWithRun(chunks: seq<Chunk>)
    ensures ReplyText(Some(Text.Concat(KeptFragments(chunks)))) == Text.Concat(KeptFragments(chunks))
        <==> KeptFragments(chunks) != []
  {
    var frags := KeptFragments(chunks);
    Text.ConcatEmpty(frags);
    if frags != [] {
      assert frags[0] != "";
    }
  }
}
