/** What a call to the chat service guarantees, proved about the model in
    ChatService: the shape of every run, how many requests it costs, which
    responses are retried and after what delay, which field of a reply is
    read, and which text comes back in each case. */
module ChatServiceProperties {
  import opened Optional
  import opened Strings
  import opened JsonValues
  import opened ChatService

  // ---------------------------------------------------------------------
  // The request body

  /** Every request holds the model name, the temperature 0.3, the fixed
      system instruction, and then the question, untouched, as the user's
      message. */
  lemma PayloadShape(question: string)
    ensures var p := RequestPayload(question);
      && p.model == "gpt-4o-mini" && p.temperature == 0.3 && |p.messages| == 2
      && p.messages[0].Role() == "system" && p.messages[0].Content() == SystemInstruction
      && p.messages[1].Role() == "user" && p.messages[1].Content() == question
  {
  }

  // ---------------------------------------------------------------------
  // Reading a successful response

  /** When choices[0] has a message with a content, GetString of that
      content is the result, whatever choices[0].text holds: a JSON null
      content gives null even beside a string text. */
  lemma MessageContentPreferred(root: Json, choice: Json, message: Json, v: Json)
    requires FirstChoice(root) == Some(choice)
    requires Member(choice, "message") == Some(message)
    requires Member(message, "content") == Some(v)
    ensures ChoiceContent(root) == GetString(v)
  {
  }

  /** When choices[0] has no message, or a message without a content,
      GetString of choices[0].text is the result. */
  lemma TextIsFallback(root: Json, choice: Json, v: Json)
    requires FirstChoice(root) == Some(choice) && choice.JObject?
    requires match Member(choice, "message")
             case None => true
             case Some(message) => message.JObject? && Member(message, "content").None?
    requires Member(choice, "text") == Some(v)
    ensures ChoiceContent(root) == GetString(v)
  {
  }

  /** A first choice with neither a message content nor a text leaves the
      content null. */
  lemma NeitherFieldNoContent(root: Json, choice: Json)
    requires FirstChoice(root) == Some(choice) && choice.JObject?
    requires match Member(choice, "message")
             case None => true
             case Some(message) => message.JObject? && Member(message, "content").None?
    requires Member(choice, "text").None?
    ensures ChoiceContent(root) == Ok(None)
  {
  }

  /** A null message content wins over a string text: the reply is then the
      "no answer" text. */
  lemma NullContentBeatsText(t: string)
    ensures var root := JObject([("choices", JArray([JObject([
                          ("message", JObject([("content", JNull)])),
                          ("text", JString(t))])]))]);
      && ChoiceContent(root) == Ok(None)
      && SuccessReply(Body("", Some(root))) == NoAnswerMessage
  {
    var message := JObject([("content", JNull)]);
    var choice := JObject([("message", message), ("text", JString(t))]);
    var root := JObject([("choices", JArray([choice]))]);
    assert choice.members[1].0 == "text" != "message";
    assert choice.members[..1] == [("message", message)];
    assert Lookup(choice.members[..1], "message") == Some(message);
    assert Member(choice, "message") == Some(message);
    MessageContentPreferred(root, choice, message, JNull);
  }

  /** The shapes ChoiceContent reads without throwing: an object root whose
      `choices`, if present, is an array whose first element, if any, is an
      object; whose `message`, if present, is an object; and whose value read
      (message.content, else text) is a string or null. */
  predicate WellShaped(root: Json) {
    && root.JObject?
    && match Member(root, "choices")
       case None => true
       case Some(choices) =>
         && choices.JArray?
         && (|choices.items| > 0 ==> ChoiceWellShaped(choices.items[0]))
  }

  predicate ChoiceWellShaped(choice: Json) {
    && choice.JObject?
    && match Member(choice, "message")
       case Some(message) =>
         && message.JObject?
         && (match Member(message, "content")
             case Some(content) => content.JNull? || content.JString?
             case None => TextWellShaped(choice))
       case None => TextWellShaped(choice)
  }

  predicate TextWellShaped(choice: Json) {
    match Member(choice, "text")
    case Some(text) => text.JNull? || text.JString?
    case None => true
  }

  /** ChoiceContent throws exactly on the bodies that are not well shaped. */
  lemma ChoiceContentThrowsIffMalformed(root: Json)
    ensures ChoiceContent(root).Throws? <==> !WellShaped(root)
  {
  }

  /** No `choices`, or an empty `choices`: there is no content. */
  lemma NoChoicesNoContent(root: Json)
    requires root.JObject?
    requires Member(root, "choices") == None || Member(root, "choices") == Some(JArray([]))
    ensures ChoiceContent(root) == Ok(None)
  {
  }

  /** A 2xx reply with a content that is not blank yields that content,
      trimmed. */
  lemma SuccessReplyIsTrimmedContent(body: Body, s: string)
    requires body.parsed.Some? && ChoiceContent(body.parsed.value) == Ok(Some(s))
    requires !IsBlank(s)
    ensures SuccessReply(body) == Trim(s)
    ensures SuccessReply(body) != []
  {
  }

  /** A 2xx reply without content, or with a blank one, yields the
      "no answer" message. */
  lemma SuccessReplyWithoutContent(body: Body)
    requires body.parsed.Some? && ChoiceContent(body.parsed.value).Ok?
    requires IsNullOrWhiteSpace(ChoiceContent(body.parsed.value).value)
    ensures SuccessReply(body) == NoAnswerMessage
  {
  }

  /** A 2xx reply that does not parse, or has a field of the wrong kind,
      yields the "could not interpret" message. */
  lemma SuccessReplyUnreadable(body: Body)
    requires body.parsed.None? || !WellShaped(body.parsed.value)
    ensures SuccessReply(body) == InterpretErrorMessage
  {
    if body.parsed.Some? {
      ChoiceContentThrowsIffMalformed(body.parsed.value);
    }
  }

  // ---------------------------------------------------------------------
  // Reading a failed response

  /** ExtrairMensagemErro gives a text exactly when the body's `error` is an
      object, and then it is error.message when that is a string, or the
      object's own text when it has no message. */
  lemma ErrorMessageCases(body: Body, m: string)
    ensures ExtractErrorMessage(body) == Some(m) <==>
      && ErrorElement(body).Some? && ErrorElement(body).value.JObject?
      && (|| Member(ErrorElement(body).value, "message") == Some(JString(m))
          || (Member(ErrorElement(body).value, "message").None? && m == Serialize(ErrorElement(body).value)))
  {
  }

  /** A body that does not parse, has no `error`, or whose `error` is not an
      object gives null, so the caller's fallback is used. */
  lemma ErrorMessageAbsent(body: Body)
    requires ErrorElement(body).None? || !ErrorElement(body).value.JObject?
    ensures ExtractErrorMessage(body).None?
  {
  }

  // ---------------------------------------------------------------------
  // Status classes

  /** The three kinds of status PerguntarAsync tells apart do not overlap:
      a 2xx is never retried, and what is neither 2xx nor retryable is any
      other status below 500 but 429. */
  lemma StatusClasses(status: Status)
    ensures IsSuccessStatus(status) ==> !IsRetryableStatus(status)
    ensures !IsSuccessStatus(status) && !IsRetryableStatus(status) <==>
      status < 500 && status != 429 && !(200 <= status < 300)
  {
  }

  // ---------------------------------------------------------------------
  // Delays

  /** Without a usable Retry-After, the delay is 1, 2 or 4 seconds plus
      less than 250 ms of jitter; Retry-After: 0 means no wait at all. */
  lemma BackoffDelays(retryAfter: Option<Int32>, jitter: Jitter)
    requires retryAfter.None? || retryAfter.value < 0
    ensures 1000 <= RetryDelay(1, retryAfter, jitter) < 1250
    ensures 2000 <= RetryDelay(2, retryAfter, jitter) < 2250
    ensures 4000 <= RetryDelay(3, retryAfter, jitter) < 4250
    ensures RetryDelay(1, Some(0), jitter) == 0
  {
    assert Pow2(2) == 4;
  }

  /** At the last attempt nothing is retried: every response ends the call,
      so the statement after PerguntarAsync's loop is never reached. */
  lemma LastAttemptDecides(resp: Response, jitter: Jitter)
    ensures Decide(MaxRetries, resp, jitter).Finish?
  {
  }

  /** A failure text carries the response's status and the failure detail,
      and both can be read back from it. */
  lemma FailureReplyCarriesStatus(attempt: nat, resp: Response, jitter: Jitter)
    requires 1 <= attempt <= MaxRetries
    requires !IsSuccessStatus(resp.status) && Decide(attempt, resp, jitter).Finish?
    ensures ParseFailureText(Decide(attempt, resp, jitter).text) == Some((resp.status as int, FailureDetail(resp)))
  {
    FailureTextRoundTrip(resp.status, FailureDetail(resp));
  }

  // ---------------------------------------------------------------------
  // Runs

  /** Attempt `k` got a retryable response, waited `delay` for it in full,
      and was not cancelled. */
  predicate RetriedAt(script: seq<Exchange>, jitter: seq<Jitter>, cancel: Cancellation, k: nat, delay: nat)
    requires |script| == MaxRetries && |jitter| == MaxRetries && 1 <= k <= MaxRetries
  {
    && k < MaxRetries
    && cancel != DuringSend(k) && cancel != DuringWait(k)
    && script[k - 1].Delivered?
    && IsRetryableStatus(script[k - 1].response.status)
    && delay == RetryDelay(k, script[k - 1].response.retryAfter, jitter[k - 1])
    && delay <= MaxDelayMs
  }

  /** Attempt `k` ended the call with `outcome`. */
  predicate EndedAt(script: seq<Exchange>, jitter: seq<Jitter>, cancel: Cancellation, k: nat, outcome: Outcome)
    requires |script| == MaxRetries && |jitter| == MaxRetries && 1 <= k <= MaxRetries
  {
    if cancel == DuringSend(k) then outcome == Cancelled
    else
      match script[k - 1]
      case TransportError => outcome == Thrown
      case Delivered(resp) =>
        match Decide(k, resp, jitter[k - 1])
        case Finish(text) => outcome == Replied(text)
        case Retry(delay) =>
          if delay > MaxDelayMs then outcome == Thrown
          else cancel == DuringWait(k) && outcome == Cancelled
  }

  /** A run: between one and MaxRetries attempts, every one but the last
      retried after its full delay, and the last one ending the call. */
  predicate IsRun(script: seq<Exchange>, jitter: seq<Jitter>, cancel: Cancellation, t: Trace)
    requires |script| == MaxRetries && |jitter| == MaxRetries
  {
    && 1 <= t.attempts <= MaxRetries
    && |t.waits| == t.attempts - 1
    && (forall i :: 0 <= i < |t.waits| ==> RetriedAt(script, jitter, cancel, i + 1, t.waits[i]))
    && EndedAt(script, jitter, cancel, t.attempts, t.outcome)
  }

  lemma {:induction false} SessionFromIsRun(script: seq<Exchange>, jitter: seq<Jitter>, cancel: Cancellation,
                                            attempt: nat, waits: seq<nat>)
    requires |script| == MaxRetries && |jitter| == MaxRetries
    requires 1 <= attempt <= MaxRetries && |waits| == attempt - 1
    requires forall i :: 0 <= i < |waits| ==> RetriedAt(script, jitter, cancel, i + 1, waits[i])
    ensures IsRun(script, jitter, cancel, SessionFrom(script, jitter, cancel, attempt, waits))
    decreases MaxRetries - attempt
  {
    if cancel != DuringSend(attempt) && script[attempt - 1].Delivered? {
      var resp := script[attempt - 1].response;
      match Decide(attempt, resp, jitter[attempt - 1])
      case Finish(_) =>
      case Retry(delay) =>
        if delay <= MaxDelayMs && cancel != DuringWait(attempt) {
          var waits' := waits + [delay];
          assert RetriedAt(script, jitter, cancel, attempt, delay);
          assert forall i :: 0 <= i < |waits'| ==> RetriedAt(script, jitter, cancel, i + 1, waits'[i]);
          SessionFromIsRun(script, jitter, cancel, attempt + 1, waits');
        }
    }
  }

  /** Every call is a run. */
  lemma SessionIsRun(script: seq<Exchange>, jitter: seq<Jitter>, cancel: Cancellation)
    requires |script| == MaxRetries && |jitter| == MaxRetries
    ensures IsRun(script, jitter, cancel, Session(script, jitter, cancel))
  {
    SessionFromIsRun(script, jitter, cancel, 1, []);
  }

  lemma {:induction false} RunIsSessionFrom(script: seq<Exchange>, jitter: seq<Jitter>, cancel: Cancellation,
                                            t: Trace, attempt: nat)
    requires |script| == MaxRetries && |jitter| == MaxRetries
    requires IsRun(script, jitter, cancel, t)
    requires 1 <= attempt <= t.attempts
    ensures SessionFrom(script, jitter, cancel, attempt, t.waits[..attempt - 1]) == t
    decreases MaxRetries - attempt
  {
    if attempt < t.attempts {
      assert RetriedAt(script, jitter, cancel, attempt, t.waits[attempt - 1]);
      assert t.waits[..attempt - 1] + [t.waits[attempt - 1]] == t.waits[..attempt];
      RunIsSessionFrom(script, jitter, cancel, t, attempt + 1);
    } else {
      assert t.waits[..attempt - 1] == t.waits;
    }
  }

  /** ... and there is only one run for a given script, jitter and
      cancellation: the call's. */
  lemma RunIsSession(script: seq<Exchange>, jitter: seq<Jitter>, cancel: Cancellation, t: Trace)
    requires |script| == MaxRetries && |jitter| == MaxRetries
    requires IsRun(script, jitter, cancel, t)
    ensures t == Session(script, jitter, cancel)
  {
    RunIsSessionFrom(script, jitter, cancel, t, 1);
  }

  /** A call costs at least one and at most MaxRetries requests, and waits
      once between each two of them. */
  lemma AtMostThreeRequests(script: seq<Exchange>, jitter: seq<Jitter>, cancel: Cancellation)
    requires |script| == MaxRetries && |jitter| == MaxRetries
    ensures 1 <= Session(script, jitter, cancel).attempts <= 3
    ensures |Session(script, jitter, cancel).waits| == Session(script, jitter, cancel).attempts - 1
  {
    SessionIsRun(script, jitter, cancel);
  }

  /** A response that is not 429 or 5xx (a 2xx among them) is never retried:
      no request follows it. */
  lemma NoRequestAfterNonRetryable(script: seq<Exchange>, jitter: seq<Jitter>, cancel: Cancellation, j: nat)
    requires |script| == MaxRetries && |jitter| == MaxRetries
    requires j < MaxRetries && script[j].Delivered? && !IsRetryableStatus(script[j].response.status)
    ensures Session(script, jitter, cancel).attempts <= j + 1
  {
    SessionIsRun(script, jitter, cancel);
  }


  /** A 2xx response reached by the call ends it with the extracted reply
      (unless the call was cancelled while sending that request). */
  lemma SuccessEndsCall(script: seq<Exchange>, jitter: seq<Jitter>, cancel: Cancellation, j: nat)
    requires |script| == MaxRetries && |jitter| == MaxRetries
    requires j < MaxRetries && script[j].Delivered? && IsSuccessStatus(script[j].response.status)
    requires Session(script, jitter, cancel).attempts > j
    requires cancel != DuringSend(j + 1)
    ensures Session(script, jitter, cancel).attempts == j + 1
    ensures Session(script, jitter, cancel).outcome == Replied(SuccessReply(script[j].response.body))
  {
    SessionIsRun(script, jitter, cancel);
    NoRequestAfterNonRetryable(script, jitter, cancel, j);
  }

  /** Three retryable responses, each delay acceptable to Task.Delay and no
      cancellation: three requests, two waits, and the failure text of the
      third response with the rate-limit message as fallback. */
  lemma RetriesExhausted(script: seq<Exchange>, jitter: seq<Jitter>)
    requires |script| == MaxRetries && |jitter| == MaxRetries
    requires forall i :: 0 <= i < MaxRetries ==> script[i].Delivered? && IsRetryableStatus(script[i].response.status)
    requires forall i :: 0 <= i < MaxRetries - 1 ==>
      RetryDelay(i + 1, script[i].response.retryAfter, jitter[i]) <= MaxDelayMs
    ensures var t := Session(script, jitter, NotCancelled);
      var last := script[MaxRetries - 1].response;
      && t.attempts == 3
      && t.waits == [RetryDelay(1, script[0].response.retryAfter, jitter[0]),
                     RetryDelay(2, script[1].response.retryAfter, jitter[1])]
      && t.outcome == Replied(FailureText(last.status, ExtractErrorMessage(last.body).GetOr(RateLimitMessage)))
  {
    SessionIsRun(script, jitter, NotCancelled);
  }

  // ---------------------------------------------------------------------
  // The scenarios a reimplementation must reproduce

  /** The 2xx body {"choices":[{"message":{"content":"Y"}}]} gives "Y". */
  lemma AnswerY()
    ensures SuccessReply(AnswerYBody()) == "Y"
  {
    ContentY();
    TrimY();
  }

  lemma ContentY()
    ensures ChoiceContent(AnswerYRoot()) == Ok(Some("Y"))
  {
  }

  lemma TrimY()
    ensures !IsBlank("Y") && Trim("Y") == "Y"
  {
    assert 'Y' !in WhiteSpaceChars;
    AmongIsMembership('Y', WhiteSpaceChars);
    TrimUnpadded("Y");
  }

  function AnswerYRoot(): Json {
    JObject([("choices", JArray([JObject([("message", JObject([("content", JString("Y"))]))])]))])
  }

  function AnswerYBody(): Body {
    Body("{\"choices\":[{\"message\":{\"content\":\"Y\"}}]}", Some(AnswerYRoot()))
  }

  /** A 429 with Retry-After: 2, then a 200 whose message content is "Y":
      two requests, a wait of exactly two seconds, and the reply "Y". */
  lemma RateLimitedThenAnswered(jitter: seq<Jitter>, other: Exchange, limitBody: Body)
    requires |jitter| == MaxRetries
    ensures
      var script := [Delivered(Response(429, Some(2), limitBody)),
                     Delivered(Response(200, None, AnswerYBody())),
                     other];
      Session(script, jitter, NotCancelled) == Trace(Replied("Y"), 2, [2000])
  {
    AnswerY();
  }

  /** The body {"error":{"message":"bad request"}} gives "bad request". */
  lemma BadRequestMessage()
    ensures ExtractErrorMessage(BadRequestBody()) == Some("bad request")
  {
  }

  function BadRequestBody(): Body {
    Body("{\"error\":{\"message\":\"bad request\"}}",
         Some(JObject([("error", JObject([("message", JString("bad request"))]))])))
  }

  /** The first attempt's 400 with that body ends the call. */
  lemma BadRequestDecision(jitter: Jitter)
    ensures Decide(1, Response(400, None, BadRequestBody()), jitter) == Finish("Falha (HTTP 400): bad request")
  {
    BadRequestMessage();
    Decimal400();
  }

  lemma Decimal400()
    ensures FailureText(400, "bad request") == "Falha (HTTP 400): bad request"
  {
    assert Decimal(4) == "4";
    assert Decimal(40) == "40";
    assert Decimal(400) == "400";
  }

  /** A 400 whose body is {"error":{"message":"bad request"}}: one request
      and "Falha (HTTP 400): bad request". */
  lemma BadRequestNotRetried(jitter: seq<Jitter>, others: seq<Exchange>, cancel: Cancellation)
    requires |jitter| == MaxRetries && |others| == MaxRetries - 1
    requires cancel != DuringSend(1)
    ensures
      var script := [Delivered(Response(400, None, BadRequestBody()))] + others;
      Session(script, jitter, cancel) == Trace(Replied("Falha (HTTP 400): bad request"), 1, [])
  {
    var script := [Delivered(Response(400, None, BadRequestBody()))] + others;
    assert script[0] == Delivered(Response(400, None, BadRequestBody()));
    BadRequestDecision(jitter[0]);
  }

  /** Cancellation while waiting after a 429 ends the call as cancelled,
      with no further request. */
  lemma CancelledWhileWaiting(jitter: seq<Jitter>, others: seq<Exchange>, limitBody: Body)
    requires |jitter| == MaxRetries && |others| == MaxRetries - 1
    ensures
      var script := [Delivered(Response(429, None, limitBody))] + others;
      Session(script, jitter, DuringWait(1)) == Trace(Cancelled, 1, [])
  {
  }
}
