# A verified model of the Groq chat client

This project models `GroqClient` in `backend/utils/groq_client.py`. The class
wraps a hosted chat-completion service in four ways:

- It normalises conversation turns into role/content records.
- It answers twelve simple greetings from a canned table without contacting the service.
- It relays a streamed completion fragment by fragment. The relay stops at a
  finish reason, at 45 seconds without new content, or on an error, and a blank
  or very short answer gets a closing apology or disclaimer.
- It asks the service to classify a prompt into agent categories, and it builds
  the prompt for the plain `get_response` entry point.

The service is not part of the model. Everything it would return is an input
to the model:

- For a streaming request, the input is a finite list of stream events. Each
  chunk is stamped with the event-loop time at which it was handled, and a start
  time gives the clock reading just before the loop.
- For a non-streaming request, the input is a `Completion`. It holds either the
  first choice's text or the text of the exception the call raised.

Every result records the request the client would send (`None` when it sends
none). So "the service is not contacted" is a statement about the model's
output.

Modules, one per concern:

- `Wrappers`: `Option`.
- `Slices`: generic facts about sequence slices.
- `AsciiText`: Python's `lower`, `upper`, `strip`, `rstrip(c)`, `split()`,
  `split(',')` and `join` on ASCII text.
- `Messages`: the record type, `_convert_langchain_messages`, the request shape.
- `Greetings`: `_is_simple_greeting`, `_get_quick_response`, and the canned-answer
  check both generation paths make.
- `StreamRelay`: `generate_response_stream`. A recursive specification `Relay`
  of the chunk loop, an independent characterisation over the whole event list
  (`Deltas`, `LastContentTime`, `StopsAt`), and the loop itself as the method
  `RelayStream`, proved equal to `Relay`.
- `Routing`: `route_agent_type`. The context loop, the classifier prompt, and
  the reply parser.
- `Client`: `generate_response` with `stream=False`, and `get_response`.

Two places where the code is followed rather than a loose reading of it:

- The staleness check runs only when a chunk arrives. It compares that chunk's
  time with the time of the latest chunk that carried content (initially the
  start time). It does not compare with the start of the call. A chunk that
  itself carries content resets the clock before the check.
- Python's `re.match('^p$', s)` also accepts `s == p + "\n"`. So a text whose
  cleaned form is a listed phrase followed by one newline counts as a greeting.
  For example, any listed phrase followed by `"\n!"`: the `!` is stripped and
  the newline stays. Such a text has no table entry, so both paths fall through
  to the remote service (`Greetings.GreetingWithoutAnswer`,
  `Greetings.NewlineGreeting`).

## Model

| member | source | states |
|---|---|---|
| AsciiText.IsSpace | backend/utils/groq_client.py:49 | the ASCII part of `str.isspace` (tab to carriage return, the separators 28-31, space), given no contract of its own: it decides what `strip()` and `split()` remove, as `StripRemovesSpace`, `StripEmptyIffBlank` and `SplitLayout` state |
| AsciiText.Lower | backend/utils/groq_client.py:49 | `lower()` keeps the length and maps every character through ASCII lower-casing |
| AsciiText.LowerIsLowered | backend/utils/groq_client.py:49 | the lower-cased text has no upper-case letter, and lower-casing twice is lower-casing once |
| AsciiText.LowerFixed | backend/utils/groq_client.py:49 | a text without upper-case letters is its own lower-case form |
| AsciiText.Upper | backend/utils/groq_client.py:245 | `role.upper()` keeps the length and maps every character through ASCII upper-casing |
| AsciiText.LStrip | backend/utils/groq_client.py:49 | `lstrip()` result is a suffix; every character removed is whitespace; the result does not start with whitespace |
| AsciiText.RStrip | backend/utils/groq_client.py:49 | `rstrip()` result is a prefix; every character removed is whitespace; the result does not end with whitespace |
| AsciiText.Strip | backend/utils/groq_client.py:49 | `strip()`, given no contract of its own: `StripSlice`, `StripRemovesSpace` and `StripEnds` below say what it keeps and removes |
| AsciiText.StripSlice | backend/utils/groq_client.py:49 | `strip()` is the contiguous slice that starts right after the leading whitespace |
| AsciiText.StripRemovesSpace | backend/utils/groq_client.py:49 | everything `strip()` removes, before and after the slice, is whitespace |
| AsciiText.StripEnds | backend/utils/groq_client.py:49 | a non-empty stripped text starts and ends with a non-whitespace character |
| AsciiText.StripEmptyIffBlank | backend/utils/groq_client.py:188 | `text.strip()` is empty exactly when every character of the text is whitespace |
| AsciiText.StripFixed | backend/utils/groq_client.py:49 | a text with non-whitespace ends is its own strip |
| AsciiText.RStripChar | backend/utils/groq_client.py:49 | `rstrip(c)` result is a prefix; everything removed equals `c`; the result does not end in `c` |
| AsciiText.RStripCharRun | backend/utils/groq_client.py:49 | a run of `c` appended to a text is stripped along with the text's own trailing run |
| AsciiText.Concat | backend/utils/groq_client.py:164 | the `complete_response += content` accumulation, given no contract of its own: `ConcatAppend` says it works piecewise |
| AsciiText.ConcatAppend | backend/utils/groq_client.py:164 | the accumulated text of two runs of fragments is the concatenation of the two accumulations |
| AsciiText.Join | backend/utils/groq_client.py:127-129 | Python's `sep.join(parts)`, which the source does not call: a reference with no contract of its own, used to state the `split(',')` round-trip at :277 (`JoinSplitOn`) and the typed-out canned text at :127-129 (`ConcatWordFragments`) |
| AsciiText.Split | backend/utils/groq_client.py:127 | `split()` gives non-empty words without whitespace; with the two lemmas below, it is the only such word list that rebuilds the text |
| AsciiText.Gaps | backend/utils/groq_client.py:127 | one whitespace gap more than there are words, and a text that starts with whitespace has a non-empty first gap |
| AsciiText.SplitLayout | backend/utils/groq_client.py:127 | the text is its words interleaved with blank gaps, the gaps between two words non-empty, so nothing but whitespace is dropped and the words keep their order |
| AsciiText.SplitOfLayout | backend/utils/groq_client.py:127 | conversely, any words laid out with such gaps split into exactly those words |
| AsciiText.WordFragments | backend/utils/groq_client.py:128-129 | one fragment per word, each the word followed by a single space |
| AsciiText.ConcatWordFragments | backend/utils/groq_client.py:127-129 | the typed-out answer is its words joined by spaces, plus a trailing space |
| AsciiText.SplitWordFragments | backend/utils/groq_client.py:127-129 | splitting the typed-out answer gives back exactly its words |
| AsciiText.SplitOn | backend/utils/groq_client.py:277 | `split(',')` gives at least one part, and no part contains the separator |
| AsciiText.JoinSplitOn | backend/utils/groq_client.py:277 | joining the parts of `split(',')` with the separator gives back the text |
| Messages.Get | backend/utils/groq_client.py:243-244 | `dict.get(key, default)`, given no contract of its own: `RoleContent` and `HistoryRecord` state what it returns on a two-key record and on a history item |
| Messages.RoleContent | backend/utils/groq_client.py:31 | the record has exactly the keys `role` and `content`, holding the given values |
| Messages.ConvertTurn | backend/utils/groq_client.py:29-39 | a dict passes unchanged; any other turn becomes a two-key record with a role from {system, user, assistant}; it is `system` exactly for a system message and `assistant` exactly for an AI message; the content is the message's content or, for any other value, its text |
| Messages.Converted | backend/utils/groq_client.py:26-41 | the converted list, given no contract of its own: the loop `ConvertMessages` computes it, and `ConvertDicts` and `ConvertIdempotent` state its properties |
| Messages.ConvertMessages | backend/utils/groq_client.py:26-41 | one record per input turn, in order, each the conversion of that turn |
| Messages.AsTurns | backend/utils/groq_client.py:36-37 | plain records handed over as turns, one per record, in order |
| Messages.ConvertDicts | backend/utils/groq_client.py:36-37 | a list of plain records converts to itself |
| Messages.ConvertIdempotent | backend/utils/groq_client.py:26-41 | converting an already converted list changes nothing |
| Greetings.Clean | backend/utils/groq_client.py:49 | the cleaning chain, given no contract of its own: `PunctuationTail`, `CleanShape`, `CleanIsLowered` and the lemmas on padding, case and punctuation below characterise it |
| Greetings.PunctuationTail | backend/utils/groq_client.py:49 | the three `rstrip` calls in turn remove only a tail made of `!`, `?` and `.` and leave a prefix |
| Greetings.CleanShape | backend/utils/groq_client.py:49 | the cleaned text is the lower-cased stripped text minus a tail of `!`, `?`, `.`, and never ends in `.` |
| Greetings.CleanIsLowered | backend/utils/groq_client.py:49 | the cleaned text has no upper-case letter |
| Greetings.AnchoredMatch | backend/utils/groq_client.py:72 | `re.match('^p$', s)`, given no contract of its own: `GreetingWithoutAnswer` and `NewlineGreeting` show that it also accepts the phrase followed by one newline |
| Greetings.IsSimpleGreeting | backend/utils/groq_client.py:43-77 | `_is_simple_greeting`, given no contract of its own: `KeysRecognised`, `QuickResponseIsGreeting`, `GreetingWithoutAnswer`, `UnlistedIsNoGreeting` and `NotGreetingLonger` state which texts it accepts |
| Greetings.QuickResponse | backend/utils/groq_client.py:79-109 | an empty text gets no answer; otherwise there is an answer exactly when the cleaned text is one of the twelve phrases, and it is that phrase's non-empty table entry |
| Greetings.TableKeys | backend/utils/groq_client.py:87-100 | the table's keys are exactly the twelve listed phrases and no answer is empty |
| Greetings.CleanPlain | backend/utils/groq_client.py:49 | a phrase of lower-case letters and spaces that starts and ends with a letter is unchanged by the cleaning |
| Greetings.PhrasesArePlain | backend/utils/groq_client.py:53-57 | every listed phrase is such a plain phrase |
| Greetings.KeysRecognised | backend/utils/groq_client.py:43-109 | every table key is detected as a greeting and finds its own answer |
| Greetings.QuickResponseIsGreeting | backend/utils/groq_client.py:43-109 | every text with a canned answer is also detected as a greeting |
| Greetings.GreetingWithoutAnswer | backend/utils/groq_client.py:65-74 | detection says yes and lookup says no exactly when the text is non-empty and its cleaned form is a listed phrase followed by one newline |
| Greetings.CaseIgnored | backend/utils/groq_client.py:49 | a text and its lower-case form clean, detect and answer alike |
| Greetings.PaddingIgnored | backend/utils/groq_client.py:49 | whitespace before and after a plain phrase is removed by the cleaning |
| Greetings.PunctuationIgnored | backend/utils/groq_client.py:49 | a run of one of `!`, `?`, `.` after a plain phrase is removed by the cleaning |
| Greetings.DotThenBang | backend/utils/groq_client.py:49 | `!` is stripped before `.`, so a phrase followed by `.!` cleans to the phrase |
| Greetings.BangThenDot | backend/utils/groq_client.py:49 | `.` is stripped last, so a phrase followed by `!.` cleans to the phrase followed by `!` |
| Greetings.NewlineKept | backend/utils/groq_client.py:49 | a plain phrase followed by a newline and `!` cleans to the phrase followed by the newline |
| Greetings.NewlineGreeting | backend/utils/groq_client.py:65-74 | every listed phrase followed by a newline and `!` is detected as a greeting yet has no canned answer |
| Greetings.UnlistedIsNoGreeting | backend/utils/groq_client.py:53-77 | a plain phrase that is not one of the twelve is not a greeting |
| Greetings.NotGreetingLonger | backend/utils/groq_client.py:65-74 | matching is exact, not by prefix: `hi there` is not a greeting |
| Greetings.LastContent | backend/utils/groq_client.py:118 | `groq_messages[-1].get('content', '')`, also at :207, given no contract of its own: `CannedAnswer` looks up exactly this text, and `GetResponseCases` shows it is the prompt in `get_response` |
| Greetings.CannedAnswer | backend/utils/groq_client.py:117-124 | a canned answer is used exactly when there are at least two turns and the last turn's content has a table entry; the answer is that entry and is non-empty |
| Greetings.DetectCanned | backend/utils/groq_client.py:117-124 | the step-by-step check computes exactly the canned answer; what that answer is, is stated by `CannedAnswer`'s contract |
| StreamRelay.Delta | backend/utils/groq_client.py:160-166 | a chunk yields at most one fragment, never an empty one, and yields one exactly when it has a choice whose delta content is a non-empty string |
| StreamRelay.Finishes | backend/utils/groq_client.py:173 | the truthiness of `finish_reason` (present and non-empty), given no contract of its own: `RelayStopsAtFirstStop` and `FinishExample` show such a chunk ends the loop after its content |
| StreamRelay.NextLast | backend/utils/groq_client.py:162-166 | `last_chunk_time` after a chunk, moved to its time only when it carried content, given no contract of its own: `FirstStep` and `LastContentTimeShift` tie it to the reference `LastContentTime` |
| StreamRelay.Relay | backend/utils/groq_client.py:152-185 | the loop takes at most all events, all of them when the stream is exhausted, and at least one when it stops |
| StreamRelay.FirstStep | backend/utils/groq_client.py:156-185 | the first event either stops the loop with its own contribution and reason, or hands the rest over with the updated last-content time |
| StreamRelay.DeltasAppend | backend/utils/groq_client.py:164-169 | the fragments of two runs of events are the fragments of each, in order |
| StreamRelay.RelayStopsAtFirstStop | backend/utils/groq_client.py:152-185 | the loop consumes exactly the events up to the first stopping event (a stream failure, a finish reason, or a gap of more than 45 seconds since the latest content), yields exactly the non-empty deltas among them, and reports that event's reason; with no stopping event it consumes everything |
| StreamRelay.StreamError | backend/utils/groq_client.py:195 | the error fragment of the outer `except`, given no contract of its own: `ClosingCases` shows it is the only closing after a stream failure, and `StreamErrorInjective` below that it carries the message |
| StreamRelay.StreamErrorInjective | backend/utils/groq_client.py:195 | the fragment names the exception's message verbatim: different messages give different fragments |
| StreamRelay.Closing | backend/utils/groq_client.py:187-195 | the closing fragment, given no contract of its own: `ClosingCases` states when each closing is produced |
| StreamRelay.ClosingCases | backend/utils/groq_client.py:187-195 | at most one closing fragment: the error text after a stream failure; otherwise the apology exactly when the relayed text is all whitespace, the disclaimer exactly when it is non-blank and shorter than 10 characters, and nothing else |
| StreamRelay.StreamSpec | backend/utils/groq_client.py:111-195 | the generator's output and request, given no contract of its own: `StreamCanned`, `StreamRemote` and `StreamRelayed` characterise it |
| StreamRelay.StreamCanned | backend/utils/groq_client.py:117-131 | with a canned answer no request is sent, one fragment per word with a trailing space is produced, splitting the output gives the answer's words back, and the remote stream has no influence |
| StreamRelay.StreamRemote | backend/utils/groq_client.py:140-191 | without a canned answer, one streaming request with the converted turns and 8192 tokens is sent, and the output is the relayed fragments followed by the closing fragment; what those fragments are, is stated by `StreamRelayed` and `RelayStopsAtFirstStop` |
| StreamRelay.StreamRelayed | backend/utils/groq_client.py:111-195 | without a canned answer, the output is the non-empty deltas up to the first stopping event followed by at most one closing fragment; the loop is exhausted exactly when no event stops it |
| StreamRelay.SingleTurnIsRelayed | backend/utils/groq_client.py:117 | a conversation of fewer than two turns, of any kind, never gets a canned answer |
| StreamRelay.FinishExample | backend/utils/groq_client.py:173-176 | a finish reason ends the stream after that chunk's content; later chunks are not relayed; 20 characters need no disclaimer |
| StreamRelay.EmptyStreamExample | backend/utils/groq_client.py:188-189 | an empty stream yields only the apology |
| StreamRelay.TimeoutExample | backend/utils/groq_client.py:179-181 | a chunk 50 seconds after the latest content ends the loop, and the 4-character text gets the disclaimer |
| StreamRelay.FailureExample | backend/utils/groq_client.py:193-195 | a stream failure yields the error text after what was already relayed, and no apology or disclaimer |
| StreamRelay.TypeOut | backend/utils/groq_client.py:127-131 | the typing loop yields each word followed by a space |
| StreamRelay.RelayStream | backend/utils/groq_client.py:152-185 | the chunk loop yields exactly what the specification `Relay` yields, stops for the same reason, and its accumulated `complete_response` is the concatenation of what it yielded |
| StreamRelay.GenerateResponseStream | backend/utils/groq_client.py:111-195 | the generator's output and request are exactly those of the specification; what they are, is stated by `StreamCanned`, `StreamRelayed` and `StreamAgreesWithReply` |
| Routing.Tokens | backend/utils/groq_client.py:275-277 | one token per comma-separated part of the stripped, lower-cased reply, each token the stripped part |
| Routing.KeepValid | backend/utils/groq_client.py:278 | only known agent names survive, and the filter never lengthens the list |
| Routing.KeepValidAppend | backend/utils/groq_client.py:278 | the filter works piecewise, so the survivors keep their original order |
| Routing.KeepValidCounts | backend/utils/groq_client.py:278 | every known name survives as often as it occurs, and nothing else survives |
| Routing.KeepValidEmpty | backend/utils/groq_client.py:278-280 | the filter is empty exactly when no token is a known name |
| Routing.ParseRoutes | backend/utils/groq_client.py:275-285 | the parsed routes are never empty and contain only known names |
| Routing.ParseRoutesSpec | backend/utils/groq_client.py:275-285 | with no known token the routes are `["general"]`; otherwise they are the known tokens in order, each as often as it occurs |
| Routing.ParseSingleTokens | backend/utils/groq_client.py:278 | duplicates pass through and unknown names are dropped: the tokens `[coding, poetry, coding]` filter to `[coding, coding]` |
| Routing.RecentHistory | backend/utils/groq_client.py:242 | `history[-4:]` is the last min(4, n) turns |
| Routing.ContextLine | backend/utils/groq_client.py:243-245 | one context line, given no contract of its own: `ContextOfLines` and `BuildContext` place one per turn |
| Routing.ContextOf | backend/utils/groq_client.py:239-245 | the accumulated context, given no contract of its own: `ContextOfLines` and `BuildContext` below |
| Routing.HistoryContext | backend/utils/groq_client.py:239-245 | the context of the last four turns, given no contract of its own: `OlderTurnsIgnored` below |
| Routing.ContextLines | backend/utils/groq_client.py:239-245 | one line per turn, in order, each that turn's line |
| Routing.ContextOfLines | backend/utils/groq_client.py:239-245 | the context is exactly the turns' lines concatenated in order, one line per turn |
| Routing.OlderTurnsIgnored | backend/utils/groq_client.py:242 | turns older than the last four never reach the classifier's context |
| Routing.ClassifierPrompt | backend/utils/groq_client.py:249-257 | the classifier's system prompt ends with the stripped context |
| Routing.RoutingRequest | backend/utils/groq_client.py:259-273 | the classification request, given no contract of its own: `ClassifierPrompt` and `RouteAgentType` state its system prompt and that it is the one request sent |
| Routing.Routes | backend/utils/groq_client.py:275-289 | a failed call routes to `["general"]`; otherwise the reply is parsed; either way the result is non-empty and made of known names |
| Routing.BuildContext | backend/utils/groq_client.py:239-245 | the context loop appends one line per recent turn, in order |
| Routing.RouteAgentType | backend/utils/groq_client.py:235-289 | one classification request (instructions with the stripped context, then the prompt, 20 tokens) is sent, and the routes are those the reply or the failure determines |
| Client.ErrorText | backend/utils/groq_client.py:226 | the text returned when the request raises, given no contract of its own: `ReplyCases` shows it is what a failed request returns, and `ErrorTextInjective` below that it carries the message |
| Client.ErrorTextInjective | backend/utils/groq_client.py:226 | the text names the exception's message verbatim: different messages give different texts |
| Client.ReplySpec | backend/utils/groq_client.py:197-233 | the non-streaming reply, given no contract of its own: `ReplyCases` and `StreamAgreesWithReply` characterise it |
| Client.GenerateResponse | backend/utils/groq_client.py:197-233 | the non-streaming path returns exactly the specified reply for the given service answer; what that reply is, is stated by `ReplyCases` and `StreamAgreesWithReply` |
| Client.ReplyCases | backend/utils/groq_client.py:205-233 | no request exactly when a canned answer exists, and then the answer is returned; otherwise one non-streaming request with the converted turns, returning the service's text or the error text |
| Client.StreamAgreesWithReply | backend/utils/groq_client.py:197-233 | both paths contact the service under the same condition and with the same messages, and the streaming request matches the non-streaming one in every modelled field apart from the stream flag (the penalties and `stop` that only the streaming call sends are not modelled); when neither does, the streamed fragments hold exactly the words of the returned text |
| Client.SystemPrompt | backend/utils/groq_client.py:296-301 | the system prompt, given no contract of its own: `SystemPromptInjective` shows the answer mode is recoverable from it |
| Client.SystemPromptInjective | backend/utils/groq_client.py:296-301 | different answer modes give different system prompts |
| Client.HistoryRecord | backend/utils/groq_client.py:305-307 | a copied history item has exactly a role (default `user`) and a content (default empty) |
| Client.ResponseMessages | backend/utils/groq_client.py:293-310 | the system prompt first, then one copied record per history item in order, then the prompt as the user turn |
| Client.GetResponse | backend/utils/groq_client.py:291-312 | `get_response` builds exactly that list and returns the non-streaming reply for it; the answer mode defaults to `DefaultAnswerMode`, `specific` |
| Client.GetResponseCases | backend/utils/groq_client.py:291-312 | a prompt with a canned answer gets it without a request; any other prompt sends the whole list in one non-streaming request and returns the service's text or the error text |

## Left out

- The constructor is not modelled: it reads `GROQ_API_KEY` from the environment and raises `ValueError` when it is absent. This is environment I/O; the model identifier is the constant `Messages.Model`.
- The service calls (`chat.completions.create` and iterating its stream) are not modelled; they are foreign code. Their results are inputs: stream events with times, or a `Completion`. An exception raised by `create` in the streaming path is a first event `StreamFailure`.
- The sampling settings are not modelled. Every request sends a temperature and `top_p` (0.7 and 0.9 for generation, 0 and 1 for routing). Only the streaming request also sends the two penalties (0.0) and `stop=None`. `Request` records only the model, messages, stream flag and token limit.
- Logging is not modelled, nor is `chunk_count`, which only feeds a log line.
- The `asyncio.sleep` pacing delays and the event loop are not modelled. The clock readings are integer inputs rather than floating-point seconds.
- The canned answers keep the table's keys, but their text is abbreviated. No property depends on the wording beyond each answer being non-empty, and the full texts (with emoji) are long.
- Text handling is ASCII only: `lower`, `upper`, `strip` and `split` treat non-ASCII letters and non-ASCII whitespace as ordinary characters, unlike Python.
- Dict values are strings. A `None` content or a non-string value cannot be represented. Where such a value would make the source raise (`.strip()` on `None` in the router, `len(None)` in the non-streaming path), the model uses a `Failed` completion.
- `history or []` is modelled by taking `history` as a list; `None` is the empty list.
- StreamRelay.Relay: a chunk whose handling raises is a `Malformed` event contributing nothing. A chunk that raises after its content was already yielded is not modelled.
- `generate_response` with `stream=True` is not modelled separately: it returns the generator of `generate_response_stream` (`StreamRelay.GenerateResponseStream`). Its `error_generator` branch is left out because conversion cannot raise in the model.
- The streaming path's outer `except` is reached in the model only through a `StreamFailure` event; nothing else in the modelled path can raise.
- Consumer cancellation (stopping the generator early) is not modelled; the model gives the full output, and any prefix of it is what a consumer that stops early sees.
