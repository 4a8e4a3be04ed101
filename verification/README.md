# Hosted-agent message shaping and streaming, in Dafny

This project models the two small pieces of logic that the repository's hosted agents
implement themselves. Everything else they do is calling an SDK.

- **`ChatbotAgent`** (`02-azd-deploy-hosted-agent/src/my-hosted-agent/main.py`), module
  `ChatbotAgent`. It does five things:
  - `_extract_text` turns a loosely typed `messages` argument into chat-completion records. The argument can be absent, a `str`, one `ChatMessage`, a list of those, or anything else.
  - The system message is put in front of the records before the provider call.
  - `run` returns the provider's reply, or a fallback text when the reply is empty.
  - `run_stream` yields each non-empty chunk and adds it to a running text. After the loop it tells the thread once about the whole reply.
  - The constructor also derives the base endpoint from the project endpoint.
- **`MyHostedAgent`** (`02-azd-deploy-hosted-agent/hosted_agent_app/main.py`), module
  `HostedAgent`. It does three things:
  - `_get_last_user_message` finds the last USER message.
  - `_generate_response` fills in an echo template.
  - `run` returns that reply. `run_stream` yields the reply word by word and finishes with a message made of the words joined by single spaces. Both then call the thread-notification method once when there is a thread.

Supporting modules:

- `Text` holds the Python string operations the code relies on:
  - `"".join` and `sep.join`;
  - `str.split()` with its exact set of whitespace characters;
  - `in` on strings;
  - `str.split(sep)`.
- `Streams` models what a caller of a Python async generator observes. That is the ordered list of yielded updates followed by at most one thread notification. A caller that stops pulling early sees a prefix of that list.
- `Framework` has the framework's `Role` and thread handle.
- `Outcomes` has `Option` and `Result`.

The chat-completion provider is a parameter:
- For `run` it is a function from the records sent to a `Completion`: either raised, or the content of each returned choice.
- For `run_stream` it is a function from the records sent to the list of streamed chunks.

A thread notification is recorded as a value: an `Append` in the run's response, or a `Notify` event in the stream.

## Behaviour worth knowing

The model follows the code, including where it does what a reader might not expect:

- Unknown list elements are skipped silently; no error is raised (`UnrecognisedItemSkipped`). An argument of any other type also gives no records and raises nothing.
- A `ChatMessage` of any role other than USER becomes an `"assistant"` record. That includes SYSTEM and TOOL. No role is rejected.
- `run` replaces a `None` or empty provider reply with `"I couldn't generate a response."`. The streamed reply has no such fallback, so the two paths agree only when the reply is non-empty (`StreamAgreesWithRun`).
- In `MyHostedAgent`, the streamed fragments do not concatenate to the `run` reply. They give the reply normalised to single spaces, plus one trailing space. The final streamed message never equals the `run` reply (`StreamedFinalVersusRun`).
- `MyHostedAgent` passes the notification method the reply message only, not the input turns.
- `MyHostedAgent` calls `self._notify_thread_of_new_messages(request.thread, [msg])` without `await` and with two arguments (`hosted_agent_app/main.py` lines 73 and 119). `ChatbotAgent` awaits the same inherited method with three arguments (`src/my-hosted-agent/main.py` lines 108 and 150). If the method is a coroutine, the hosted call only creates it and no notification takes place; if it takes three arguments, the hosted call raises `TypeError`. The model records the call as made (see "## Left out").
- `MyHostedAgent` tests `if request.thread:` (`hosted_agent_app/main.py` lines 72 and 118), a truthiness test, where `ChatbotAgent` tests `thread is not None`.

## Model

| member | source | states |
|---|---|---|
| ChatbotAgent.RoleName | 02-azd-deploy-hosted-agent/src/my-hosted-agent/main.py:59 | the record role is "user" exactly for Role.USER and "assistant" for every other role, so never "system" |
| ChatbotAgent.ItemRecords | 02-azd-deploy-hosted-agent/src/my-hosted-agent/main.py:65-75 | a list gives at most one record per element, and every record's role is "user" or "assistant" |
| ChatbotAgent.ExtractText | 02-azd-deploy-hosted-agent/src/my-hosted-agent/main.py:49-77 | None and unrecognised inputs give no records; a str gives exactly one "user" record with that text; a single message gives one record; a list gives no more records than elements; no record is a system record |
| ChatbotAgent.MessageText | 02-azd-deploy-hosted-agent/src/my-hosted-agent/main.py:60-63 | a message's text is the texts of its `TextContent` entries alone, in order, with a `None` text read as "", joined with nothing between them; lines 71-74 run the same loop for list elements |
| ChatbotAgent.MessageTextAppend | 02-azd-deploy-hosted-agent/src/my-hosted-agent/main.py:60-63 | a message's text is read left to right: the text of two runs of contents is their texts concatenated in order |
| ChatbotAgent.OtherContentIgnored | 02-azd-deploy-hosted-agent/src/my-hosted-agent/main.py:61-63 | a non-text content anywhere in a message adds nothing to its text |
| ChatbotAgent.ExtractManyAppend | 02-azd-deploy-hosted-agent/src/my-hosted-agent/main.py:65-75 | list elements are processed in order and independently: the records of a concatenated list are the records of each part, in order |
| ChatbotAgent.ExtractManySingleton | 02-azd-deploy-hosted-agent/src/my-hosted-agent/main.py:66-75 | a one-element list gives one "user" record for a str, the message's record for a ChatMessage, and nothing for any other element |
| ChatbotAgent.UnrecognisedItemSkipped | 02-azd-deploy-hosted-agent/src/my-hosted-agent/main.py:65-75 | an unrecognised element is dropped without affecting the records of the elements around it |
| ChatbotAgent.SingleIsOneElementList | 02-azd-deploy-hosted-agent/src/my-hosted-agent/main.py:58-75 | a single ChatMessage yields the same records as a one-element list holding it |
| ChatbotAgent.ExtractStrings | 02-azd-deploy-hosted-agent/src/my-hosted-agent/main.py:65-68 | a list of strings gives exactly one "user" record per string, same length and order |
| ChatbotAgent.ProviderMessages | 02-azd-deploy-hosted-agent/src/my-hosted-agent/main.py:87-91 | the provider receives the system message followed by the extracted records unchanged: 1 + len(extracted) records, and the first is the only "system" record |
| ChatbotAgent.BaseEndpoint | 02-azd-deploy-hosted-agent/src/my-hosted-agent/main.py:34 | the base endpoint is a prefix of the project endpoint that ends where the first "/api/projects" starts, or the whole endpoint when there is none; it never contains "/api/projects" |
| ChatbotAgent.BaseEndpointIdempotent | 02-azd-deploy-hosted-agent/src/my-hosted-agent/main.py:34 | deriving the base endpoint twice gives the same result as once |
| ChatbotAgent.ReplyText | 02-azd-deploy-hosted-agent/src/my-hosted-agent/main.py:100 | the reply is never empty; it is the provider content when that is non-empty, and the fallback text exactly when the content is None, empty, or itself the fallback text |
| ChatbotAgent.Appends | 02-azd-deploy-hosted-agent/src/my-hosted-agent/main.py:105-108 | the thread gets one append carrying the input and the reply when a thread is supplied, and none otherwise |
| ChatbotAgent.Run | 02-azd-deploy-hosted-agent/src/my-hosted-agent/main.py:79-110 | a raising provider or an empty choices list fails the run, and nothing is appended; otherwise the run sends the system-prefixed records and replies with a non-empty assistant message taken from the first choice, and it notifies the thread once when one is given |
| ChatbotAgent.KeptFragments | 02-azd-deploy-hosted-agent/src/my-hosted-agent/main.py:137-139 | the kept fragments are no more than the chunks and none is empty; which chunk gives which fragment is stated by `KeptFragmentsSingleton` and `KeptFragmentsAppend` |
| ChatbotAgent.ChunkText | 02-azd-deploy-hosted-agent/src/my-hosted-agent/main.py:138-139 | a chunk gives text exactly when it has a choice whose delta content is neither None nor empty, and that text is the content itself |
| ChatbotAgent.KeptFragmentsSingleton | 02-azd-deploy-hosted-agent/src/my-hosted-agent/main.py:137-139 | one chunk yields exactly its first choice's delta content when it has a choice and that content is neither None nor empty, and nothing otherwise |
| ChatbotAgent.KeptFragmentsAppend | 02-azd-deploy-hosted-agent/src/my-hosted-agent/main.py:137-144 | chunks are filtered one at a time, in provider order |
| ChatbotAgent.StreamNote | 02-azd-deploy-hosted-agent/src/my-hosted-agent/main.py:146-150 | a completed stream notifies exactly when a thread was given, with that thread, the raw input, and an assistant reply whose text is the concatenation of all yielded fragments |
| ChatbotAgent.RunStream | 02-azd-deploy-hosted-agent/src/my-hosted-agent/main.py:112-150 | the yielded fragments are exactly the chunks with choices and non-empty content, in order; the thread is notified exactly once when given and never otherwise; the notification is the last event and carries the concatenation of all fragments; a caller that abandons the stream before it ends causes no notification |
| ChatbotAgent.RunStreamUpdatesAreAssistant | 02-azd-deploy-hosted-agent/src/my-hosted-agent/main.py:141-144 | every update of the trace `RunStream` returns is yielded with role ASSISTANT |
| ChatbotAgent.StreamAgreesWithRun | 02-azd-deploy-hosted-agent/src/my-hosted-agent/main.py:100-150 | with the same provider text on both paths, the run reply equals the streamed concatenation exactly when at least one fragment was streamed |
| Text.ConcatAppend | 02-azd-deploy-hosted-agent/src/my-hosted-agent/main.py:134-140 | accumulating fragments one by one gives the concatenation of all of them |
| Text.ConcatEmpty | 02-azd-deploy-hosted-agent/src/my-hosted-agent/main.py:134-140 | the accumulated text is empty exactly when every fragment is |
| Text.WordLength | 02-azd-deploy-hosted-agent/hosted_agent_app/main.py:94 | the first word of a text is its longest whitespace-free prefix |
| Text.Words | 02-azd-deploy-hosted-agent/hosted_agent_app/main.py:94 | `split()` gives only non-empty, whitespace-free words |
| Text.WordsOfWord | 02-azd-deploy-hosted-agent/hosted_agent_app/main.py:94 | a non-empty text without whitespace splits into itself alone |
| Text.WordsSplitAt | 02-azd-deploy-hosted-agent/hosted_agent_app/main.py:94 | any whitespace character separates words: the words on each side of it are independent |
| Text.WordsOfJoin | 02-azd-deploy-hosted-agent/hosted_agent_app/main.py:94-114 | splitting the space-joined words gives back the same words |
| Text.JoinSingleSpaced | 02-azd-deploy-hosted-agent/hosted_agent_app/main.py:114 | words joined with single spaces have no space at either end and never two spaces in a row |
| Text.Normalize | 02-azd-deploy-hosted-agent/hosted_agent_app/main.py:94-114 | `" ".join(s.split())` keeps exactly the words of `s`, holds no whitespace other than the plain space, has no space at either end and never two spaces in a row |
| Text.NormalizeIdempotent | 02-azd-deploy-hosted-agent/hosted_agent_app/main.py:94-114 | the final streamed text, made a second time from itself, is unchanged |
| Text.ConcatSuffixed | 02-azd-deploy-hosted-agent/hosted_agent_app/main.py:97-115 | the fragments `word + " "` concatenate to the words joined by single spaces plus one trailing space, or to "" when there are no words |
| Text.IndexOf | 02-azd-deploy-hosted-agent/src/my-hosted-agent/main.py:34 | the position found is an occurrence with no earlier occurrence, and none is found only when there is no occurrence |
| Text.Contains | 02-azd-deploy-hosted-agent/src/my-hosted-agent/main.py:34 | `pat in s` holds exactly when `pat` occurs somewhere in `s` |
| Text.Split | 02-azd-deploy-hosted-agent/src/my-hosted-agent/main.py:34 | `split(sep)` gives at least one piece, and no piece contains the separator |
| Text.SplitJoin | 02-azd-deploy-hosted-agent/src/my-hosted-agent/main.py:34 | joining the pieces with the separator restores the original text |
| Streams.TraceFacts | 02-azd-deploy-hosted-agent/src/my-hosted-agent/main.py:136-150 | a completed stream yields its fragments in order, every one as an ASSISTANT update, and notifies exactly once, as its last event, if and only if there is a notification to make |
| Streams.AbandonedTraceNeverNotifies | 02-azd-deploy-hosted-agent/src/my-hosted-agent/main.py:146-150 | a caller that stops after at most all fragments, without the final pull, sees no notification |
| HostedAgent.LastUserIn | 02-azd-deploy-hosted-agent/hosted_agent_app/main.py:124-127 | the result is the content of the last USER message, with None read as ""; it is "" when no message has role USER |
| HostedAgent.LastUserMessage | 02-azd-deploy-hosted-agent/hosted_agent_app/main.py:121-127 | an absent input, an empty conversation or one with no USER message gives ""; otherwise the last USER message's content, with None read as "" |
| HostedAgent.LastUserDoesNotFallBack | 02-azd-deploy-hosted-agent/hosted_agent_app/main.py:124-126 | a last USER message with None content gives "", even when an earlier USER message has text |
| HostedAgent.LastUserExamples | 02-azd-deploy-hosted-agent/hosted_agent_app/main.py:121-127 | USER "a", ASSISTANT "b", USER "c" gives "c"; an empty conversation gives "" |
| HostedAgent.GenerateResponse | 02-azd-deploy-hosted-agent/hosted_agent_app/main.py:129-149 | the user's text can always be read back out of the reply the template makes |
| HostedAgent.EchoedReplyIsGenerated | 02-azd-deploy-hosted-agent/hosted_agent_app/main.py:145-149 | a reply from which a user text is read back is exactly the template's reply for that text, so the template is injective |
| HostedAgent.ResponseHasNewline | 02-azd-deploy-hosted-agent/hosted_agent_app/main.py:146 | every reply contains the template's newline |
| HostedAgent.Appends | 02-azd-deploy-hosted-agent/hosted_agent_app/main.py:72-73 | the thread gets one append holding only the reply message when a thread is present, and none otherwise |
| HostedAgent.Run | 02-azd-deploy-hosted-agent/hosted_agent_app/main.py:53-77 | `run` returns one assistant message from which the last user message can be read back, and it notifies the thread once, with only that message, when the request has a thread |
| HostedAgent.StreamNote | 02-azd-deploy-hosted-agent/hosted_agent_app/main.py:111-119 | a completed word stream notifies exactly when there is a thread, with that thread and a single assistant message; splitting that message's text on whitespace gives back the streamed words |
| HostedAgent.StreamWords | 02-azd-deploy-hosted-agent/hosted_agent_app/main.py:95-119 | for any words: one ASSISTANT update per word, in order, each the word plus one space; exactly one notification when there is a thread, as the last event, holding only the words joined by single spaces; none otherwise (a caller that abandons the stream sees none: `Streams.AbandonedTraceNeverNotifies`) |
| HostedAgent.RunStream | 02-azd-deploy-hosted-agent/hosted_agent_app/main.py:79-119 | the reply is the echo template around the last user message, the same text `run` answers with; the words are its whitespace split; the events are a completed trace whose fragments are those words, in order, each plus one space, followed, only when there is a thread, by one notification holding the words joined by single spaces (the reply normalised); `Streams.TraceFacts` turns this into the fragment list, the single notification and its place as the last event |
| HostedAgent.StreamedFinalVersusRun | 02-azd-deploy-hosted-agent/hosted_agent_app/main.py:91-115 | for any user message, the final streamed message (the reply normalised) has the same words as the `run` reply but never equals it: the template's blank line collapses to a single space |

## Left out

- Token acquisition and the provider client are left out because they are authentication and network calls: `_get_token`, `DefaultAzureCredential`, `AzureOpenAI` and `chat.completions.create`. The provider is a function parameter instead. The model name and API version it is called with are not modelled.
- `HostedAgent.Appends`, `HostedAgent.StreamNote`, `HostedAgent.Run` and `HostedAgent.StreamWords` record the call to `_notify_thread_of_new_messages`, not a completed notification. The hosted code calls it without `await` and with two arguments, so whether the thread is actually told depends on the framework method, which is not part of this model. The truthiness test `if request.thread:` is modelled as "a thread handle is present"; a present handle is taken to be truthy.
- `_normalize_messages` and `_notify_thread_of_new_messages` are inherited from the framework base class and are not part of this model. A notification is recorded as the raw input and the reply that `ChatbotAgent` passes. For `MyHostedAgent` it is the message list passed.
- The environment reads (`os.environ.get`, `os.getenv`, `load_dotenv`) are left out. The project endpoint is a parameter of `BaseEndpoint`.
- `asyncio.sleep` and async-generator scheduling are left out because they affect timing only. The laziness of the provider stream (no read-ahead) is also left out, because the chunks are given as a finite sequence up front.
- `ChatbotAgent.RunStream` does not model an exception raised by the provider in the middle of a stream. It also does not model the creation call raising before the first chunk. Only a stream that runs to the end, and its prefixes, are modelled.
- `HostedAgent.LastUserMessage` treats `request.input` as present exactly when it is not `None`. A present input object is taken to be truthy. A `messages` value of `None` is treated like an empty list.
- `ChatbotAgent.ExtractText` gives only the count of records for a single `ChatMessage` in its own contract. The record's role and text are stated by `SingleIsOneElementList` together with `ExtractManySingleton` and `RoleName`.
- The `__main__` entry points and `from_agent_framework(...).run()` are left out because they are the HTTP hosting adapter. So is `hosted_agent_app/agent_app.py`.
- `deploy_chat_agent.py`, `create_agent_v3.py` and the `01-agent-framework-foundry-hosted-agents` scripts are not part of this model. They drive container builds and remote agent services.
