# Eclipse chat service — a verified model

Eclipse is an IT help-desk web application. Its chat page forwards a user's
question to an OpenAI chat-completions endpoint through `ChatAiServiceHttp`.
This project models that service in Dafny and proves what a call to it
guarantees.

`PerguntarAsync` builds the request body once: the model `gpt-4o-mini`, a
fixed system instruction, the question as the user's message, and
temperature 0.3. It then makes at most three attempts.

- A 2xx response ends the call with the first choice's
  `message.content`, or else its `text`, trimmed.
  - If that content is missing or blank, the call returns a "no answer" text.
  - If the body cannot be read, the call returns a "could not interpret" text.
- A 429 or 5xx response is retried after a wait.
  - The wait is the `Retry-After` seconds when that header holds a non-negative integer.
  - Otherwise the wait is 1 second (after attempt 1) or 2 seconds (after attempt 2), plus a random jitter of 0–249 ms.
  - At the third attempt the call ends with `Falha (HTTP <status>): <detail>`. The 4-second delay is computed and logged there but never waited, so a call waits at most twice.
- Every other status ends the call at once with the same kind of failure text.

`ExtrairMensagemErro` supplies the detail: the body's `error.message`, the
text of the `error` object when it has no message, and null otherwise.
When it gives null, the caller falls back to the rate-limit message (for a
retryable status) or to the raw body (for any other status).

Files:

- `Optional.dfy`: `Option` (C#'s nullable) and `Fallible` (a value, or an exception).
- `Strings.dfy`: .NET's `Char.IsWhiteSpace`, `String.Trim`, `String.IsNullOrWhiteSpace`'s blank test, and decimal rendering of a status code.
- `JsonValues.dfy`: a parsed JSON document and the `JsonElement` operations the service calls, each with its exceptions.
- `ChatService.dfy`: the service.
  - The request payload.
  - Reading a success body and an error body.
  - The failure text, the retry delay and the per-attempt decision.
  - `Session`, the specification of a whole call, as a function.
  - `Ask`, the retry loop of `PerguntarAsync`, as a method proved equal to `Session`.
- `ChatServiceProperties.dfy`: the properties of a call.
  - Every call is a *run*: at most three attempts, each retried attempt waited in full, the last one ending the call. The run for a given input is unique.
  - Which field of a reply is read, and when the reading throws.
  - The back-off bounds, and the fact that a non-retryable response is never followed by another request.
  - Concrete scenarios.

The environment becomes input to the model:

- The HTTP exchange is a script with one entry per attempt: a response, or an exception from the HTTP stack.
- The random jitter is one value per attempt.
- The cancellation token is the point at which it fires.
- Waiting becomes the list of delays waited.

Two facts about the code are worth stating plainly:

- The question is sent as given. It is not trimmed before it goes into the payload.
- An exception from the HTTP stack (a connection failure, the client's timeout) is not caught. It reaches the caller (`Thrown`) instead of becoming a failure text.

## Model

| member | source | states |
|---|---|---|
| ChatService.RequestPayload | Eclipse/Services/ChatIaServiceHttp.cs:29-38 | the body holds model gpt-4o-mini, temperature 0.3, exactly two messages: the system instruction, then the question unchanged as the user message |
| ChatServiceProperties.PayloadShape | Eclipse/Services/ChatIaServiceHttp.cs:29-38 | the two messages carry roles "system" and "user", the first with the fixed instruction text and the second with the question, untrimmed |
| ChatService.Ask | Eclipse/Services/ChatIaServiceHttp.cs:27-131 | the loop's outcome, number of requests and waits are exactly those of the specification Session; every request sent is the same payload |
| ChatService.SessionFrom | Eclipse/Services/ChatIaServiceHttp.cs:44-130 | continuing the loop from an attempt ends at that attempt or a later one, at most the third, having appended one wait per extra attempt to the waits so far |
| ChatService.Session | Eclipse/Services/ChatIaServiceHttp.cs:44-130 | the specification of a call: 1 to 3 attempts and exactly one wait fewer than attempts |
| ChatServiceProperties.SessionIsRun | Eclipse/Services/ChatIaServiceHttp.cs:44-128 | every call is a run: 1 to 3 attempts, each attempt but the last got a retryable response and waited its full delay uncancelled, and the last attempt produced the outcome |
| ChatServiceProperties.RunIsSession | Eclipse/Services/ChatIaServiceHttp.cs:44-128 | a run for a given script, jitter and cancellation is unique: it is the call's |
| ChatServiceProperties.AtMostThreeRequests | Eclipse/Services/ChatIaServiceHttp.cs:41-44 | a call sends between one and three requests and waits once between each two |
| ChatServiceProperties.NoRequestAfterNonRetryable | Eclipse/Services/ChatIaServiceHttp.cs:52-93 | no request follows a response whose status is neither 429 nor 5xx |
| ChatServiceProperties.SuccessEndsCall | Eclipse/Services/ChatIaServiceHttp.cs:52-90 | a 2xx response that the call reaches ends it, with the reply extracted from that body |
| ChatServiceProperties.RetriesExhausted | Eclipse/Services/ChatIaServiceHttp.cs:93-121 | three retryable responses in a row give three requests, the two delays, and the failure text of the third with the rate-limit fallback |
| ChatServiceProperties.LastAttemptDecides | Eclipse/Services/ChatIaServiceHttp.cs:114-130 | at the third attempt every response ends the call, so the text after the loop is unreachable |
| ChatService.Decide | Eclipse/Services/ChatIaServiceHttp.cs:52-127 | retry exactly on 429/5xx before the last attempt, after RetryDelay; a 2xx finishes with SuccessReply; any other finish is the failure text for the status and FailureDetail |
| ChatService.FailureDetail | Eclipse/Services/ChatIaServiceHttp.cs:116 | the error message when the body has one; else the rate-limit text for 429/5xx and the raw body for any other status |
| ChatServiceProperties.FailureReplyCarriesStatus | Eclipse/Services/ChatIaServiceHttp.cs:116-127 | the status and the detail can be read back from every failure text a decision returns |
| ChatService.FailureText | Eclipse/Services/ChatIaServiceHttp.cs:117 | the text starts with "Falha (HTTP " and ends with "): " followed by the detail |
| ChatService.FailureTextRoundTrip | Eclipse/Services/ChatIaServiceHttp.cs:117 | parsing "Falha (HTTP n): d" gives back exactly the status n and the detail d |
| ChatService.LeadingDigitsOfConcat | Eclipse/Services/ChatIaServiceHttp.cs:117 | the status digits in a failure text end where ")" begins |
| ChatServiceProperties.StatusClasses | Eclipse/Services/ChatIaServiceHttp.cs:52-93 | IsSuccessStatus (line 52) and IsRetryableStatus (line 93) do not overlap; a status that is neither is exactly one below 500, not 429 and outside 200-299 |
| ChatService.RetryDelay | Eclipse/Services/ChatIaServiceHttp.cs:97-107 | Retry-After seconds ×1000 when that header is a non-negative integer; otherwise between 2^(attempt-1) s and 250 ms more |
| ChatServiceProperties.BackoffDelays | Eclipse/Services/ChatIaServiceHttp.cs:102-107 | without a usable Retry-After the computed delays at attempts 1, 2, 3 lie in [1000,1250), [2000,2250), [4000,4250) ms (only the first two are ever waited); Retry-After: 0 gives a zero delay |
| ChatService.FirstChoice | Eclipse/Services/ChatIaServiceHttp.cs:62-64 | the first choice exists only when the root is an object whose `choices` is a non-empty array, and it is that array's first element |
| ChatService.ChoiceContent | Eclipse/Services/ChatIaServiceHttp.cs:59-75 | content is only read under an object root, and a non-null content only comes from an existing first choice |
| ChatServiceProperties.MessageContentPreferred | Eclipse/Services/ChatIaServiceHttp.cs:66-70 | when choices[0].message has a content, the result is GetString of it (null for JSON null, throws for other kinds), whatever `text` holds |
| ChatServiceProperties.TextIsFallback | Eclipse/Services/ChatIaServiceHttp.cs:71-74 | with no message, or a message without content, the result is GetString of choices[0].text |
| ChatServiceProperties.NeitherFieldNoContent | Eclipse/Services/ChatIaServiceHttp.cs:59-75 | a first choice with neither a message content nor a text leaves the content null |
| ChatServiceProperties.NullContentBeatsText | Eclipse/Services/ChatIaServiceHttp.cs:66-80 | a JSON-null message content beside a string text gives null content, and the reply is the no-answer text |
| ChatServiceProperties.ChoiceContentThrowsIffMalformed | Eclipse/Services/ChatIaServiceHttp.cs:56-75 | reading the content throws exactly when the root, `choices`, the choice or the message has the wrong kind, or the value read is neither string nor null |
| ChatServiceProperties.NoChoicesNoContent | Eclipse/Services/ChatIaServiceHttp.cs:59-62 | no `choices` or an empty `choices` leaves the content null |
| ChatService.SuccessReply | Eclipse/Services/ChatIaServiceHttp.cs:54-89 | a 2xx reply is the no-answer text, the interpret-error text, or a non-empty text with no white space at either end |
| ChatServiceProperties.SuccessReplyIsTrimmedContent | Eclipse/Services/ChatIaServiceHttp.cs:77-83 | a non-blank content is returned trimmed and non-empty |
| ChatServiceProperties.SuccessReplyWithoutContent | Eclipse/Services/ChatIaServiceHttp.cs:77-81 | a null or blank content gives the no-answer text |
| ChatServiceProperties.SuccessReplyUnreadable | Eclipse/Services/ChatIaServiceHttp.cs:85-89 | a body that does not parse or is not well shaped gives the interpret-error text |
| ChatService.ErrorElement | Eclipse/Services/ChatIaServiceHttp.cs:140-141 | an `error` element exists only under an object root |
| ChatService.ExtractErrorMessage | Eclipse/Services/ChatIaServiceHttp.cs:136-149 | a message is only ever found under an `error` that is an object |
| ChatServiceProperties.ErrorMessageCases | Eclipse/Services/ChatIaServiceHttp.cs:136-149 | a message m is extracted iff `error` is an object and either its `message` is the string m, or it has no `message` and m is the object's JSON text |
| ChatServiceProperties.ErrorMessageAbsent | Eclipse/Services/ChatIaServiceHttp.cs:138-148 | an unparsable body, a missing `error`, or a non-object `error` gives null |
| ChatServiceProperties.RateLimitedThenAnswered | Eclipse/Services/ChatIaServiceHttp.cs:93-121 | a 429 with Retry-After: 2 and then a 200 with content "Y" give two requests, one 2000 ms wait, and the reply "Y" |
| ChatServiceProperties.AnswerY | Eclipse/Services/ChatIaServiceHttp.cs:62-83 | the body {"choices":[{"message":{"content":"Y"}}]} gives the reply "Y" |
| ChatServiceProperties.ContentY | Eclipse/Services/ChatIaServiceHttp.cs:62-70 | that body's message content is "Y" |
| ChatServiceProperties.TrimY | Eclipse/Services/ChatIaServiceHttp.cs:77-83 | "Y" is not blank and trims to itself |
| ChatServiceProperties.BadRequestNotRetried | Eclipse/Services/ChatIaServiceHttp.cs:124-127 | a first 400 with error.message "bad request" gives one request and "Falha (HTTP 400): bad request" |
| ChatServiceProperties.BadRequestDecision | Eclipse/Services/ChatIaServiceHttp.cs:124-127 | the first attempt's decision on that 400 is to finish with that text |
| ChatServiceProperties.BadRequestMessage | Eclipse/Services/ChatIaServiceHttp.cs:141-142 | {"error":{"message":"bad request"}} yields "bad request" |
| ChatServiceProperties.Decimal400 | Eclipse/Services/ChatIaServiceHttp.cs:127 | the failure text for status 400 and "bad request" is "Falha (HTTP 400): bad request" |
| ChatServiceProperties.CancelledWhileWaiting | Eclipse/Services/ChatIaServiceHttp.cs:120 | cancellation during the wait after a 429 ends the call as cancelled, with no further request |
| Strings.Trim | Eclipse/Services/ChatIaServiceHttp.cs:83 | the trim is the slice after the leading white space, followed only by white space, starting and ending with non-white space, and empty iff the string is blank |
| Strings.TrimUnpadded | Eclipse/Services/ChatIaServiceHttp.cs:83 | a string without white space at either end trims to itself |
| Strings.LeadingWhiteSpace | Eclipse/Services/ChatIaServiceHttp.cs:83 | counts the white-space prefix: all white, and the next character is not |
| Strings.TrailingWhiteSpace | Eclipse/Services/ChatIaServiceHttp.cs:83 | counts the white-space suffix: all white, and the character before it is not |
| Strings.AmongIsMembership | Eclipse/Services/ChatIaServiceHttp.cs:77 | the white-space table lookup is sequence membership |
| Strings.Decimal | Eclipse/Services/ChatIaServiceHttp.cs:117 | a status is rendered as at least one decimal digit with no leading zero |
| Strings.DecimalRoundTrip | Eclipse/Services/ChatIaServiceHttp.cs:117 | reading the rendered digits back gives the status |
| JsonValues.Lookup | Eclipse/Services/ChatIaServiceHttp.cs:62 | a member is found iff the object has one of that name, and then it is the last one of that name |
| JsonValues.TryGetProperty | Eclipse/Services/ChatIaServiceHttp.cs:66-71 | succeeds exactly on an object, and then finds what Lookup finds |
| JsonValues.GetArrayLength | Eclipse/Services/ChatIaServiceHttp.cs:62 | succeeds exactly on an array, giving its number of items |
| JsonValues.GetString | Eclipse/Services/ChatIaServiceHttp.cs:69-73 | null exactly for JSON null, s exactly for the string s, and throws for every other kind |
| JsonValues.ElementToString | Eclipse/Services/ChatIaServiceHttp.cs:142 | a string gives its text; an object or array gives its JSON text |
| JsonValues.Serialize | Eclipse/Services/ChatIaServiceHttp.cs:142 | an object's text is wrapped in braces and an array's in brackets |

## Left out

- Logging (`_logger`) is left out. It has no effect on the result.
- The HTTP stack is left out. This covers the named client from `IHttpClientFactory`, JSON serialisation of the request, and reading the body.
  - Each attempt's response, or the exception the stack throws, is an input (the script).
  - The request is modelled as the payload value, not its JSON bytes.
- `JsonDocument.Parse` is left out. A body comes with the root element that parsing gives, or none when parsing throws.
- `new Random()` is left out. The jitter `rnd.Next(0, 250)` is an input with one value per attempt.
  - That value is only used when the `Retry-After` header is not.
- Time and asynchrony are left out. A wait is recorded as its length in milliseconds.
  - The cancellation token is the point where it fires.
  - Concurrent calls are not modelled.
- The `Retry-After` header is reduced to the value `int.TryParse` gives for its first entry, or none.
- Strings.IsWhiteSpace: the table is .NET's white-space list as of Unicode 15. It is not derived from a Unicode database.
- JsonValues.Serialize: the element's raw text is modelled as a canonical rendering (no white space between tokens, only `"` and `\` escaped), not the exact bytes of the original body.
- ChatService.Ask: does not model that `PostAsJsonAsync` may throw for reasons other than the transport. Every exception from sending an attempt is one `TransportError` entry.
- The blank-question check made by the controller that calls this service is not part of this model. `Ask` accepts any question, as `PerguntarAsync` does.
