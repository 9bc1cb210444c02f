/** ChatAiServiceHttp: sends a question to a chat-completions endpoint,
    retries on rate limiting and server errors with a backoff, extracts the
    answer from the JSON reply, and turns every failure of the upstream
    service into a readable text.

    The transport is replaced by a script: for each attempt, what the
    endpoint answers (or that the HTTP stack threw). The random jitter is
    supplied, one value per attempt, and the cancellation token by the point
    at which it fires. Waiting becomes the list of delays waited. */
module ChatService {
  import opened Optional
  import opened Strings
  import opened JsonValues

  // ---------------------------------------------------------------------
  // Constants of PerguntarAsync

  const ModelName := "gpt-4o-mini"
  const SystemInstruction := "Você é responsável por auxiliar nos problemas de TI de uma empresa chamada Eclipse, forneça respostas e se necessário, peça ao usuário para que ele abra um chamado. Responda em português, de forma objetiva e sempre auxilie ao máximo. Se perguntarem sobre problemas relacionados a computador, informe sobre prováveis problemas e deixe claro que eles podem abrir um chamado. Se não souber, diga que não tem certeza."
  const Temperature: real := 0.3

  /** The number of requests one question may cost. */
  const MaxRetries := 3

  const NoAnswerMessage := "Não consegui gerar uma resposta agora. Tente reformular a pergunta."
  const InterpretErrorMessage := "Ocorreu um erro ao interpretar a resposta da IA."
  const RateLimitMessage := "Limite de requisições atingido. Tente novamente mais tarde."
  /** Returned after the retry loop; no run reaches it. */
  const LoopFallbackMessage := "Não consegui gerar uma resposta agora."
  const FailurePrefix := "Falha (HTTP "

  /** Jitter is drawn from [0, JitterBoundMs) milliseconds. */
  const JitterBoundMs := 250
  /** The longest delay Task.Delay accepts (Timer.MaxSupportedTimeout,
      .NET 6 and later); a longer one makes it throw. */
  const MaxDelayMs := 0xFFFF_FFFE

  /** An HTTP status code, as HttpResponseMessage admits it. */
  type Status = s: int | 0 <= s <= 999 witness 200
  /** The result type of int.TryParse. */
  type Int32 = x: int | -0x8000_0000 <= x < 0x8000_0000
  /** What rnd.Next(0, 250) returns. */
  type Jitter = ms: int | 0 <= ms < JitterBoundMs

  // ---------------------------------------------------------------------
  // The request

  /** A message of the conversation. The system message always carries the
      same instruction, so it is a constructor of its own; Role and Content
      give the two fields the request body holds. */
  datatype ChatMessage = SystemMessage | UserMessage(text: string) {
    function Role(): string {
      if SystemMessage? then "system" else "user"
    }
    function Content(): string {
      if SystemMessage? then SystemInstruction else text
    }
  }

  datatype Payload = Payload(model: string, messages: seq<ChatMessage>, temperature: real)

  /** The request body: the model, the fixed system instruction followed by
      the question exactly as given (it is not trimmed), and the temperature. */
  function RequestPayload(question: string): (p: Payload)
    ensures p.model == ModelName && p.temperature == Temperature
    ensures |p.messages| == 2
    ensures p.messages[0] == SystemMessage && p.messages[1] == UserMessage(question)
  {
    Payload(ModelName, [SystemMessage, UserMessage(question)], Temperature)
  }

  // ---------------------------------------------------------------------
  // What the endpoint answers

  /** One response: its status, the first Retry-After value when int.TryParse
      accepts it (None when the header is missing or not an integer), and
      the body. */
  datatype Response = Response(status: Status, retryAfter: Option<Int32>, body: Body)

  /** One attempt's exchange: a response, or an exception from the HTTP
      stack (connection failure, the client's own timeout), which the
      service does not catch. */
  datatype Exchange = Delivered(response: Response) | TransportError

  /** Where the cancellation token fires, if it does: while attempt
      `attempt` sends its request and reads the body, or while waiting after
      that attempt. A point the call never reaches has no effect. */
  datatype Cancellation = NotCancelled | DuringSend(attempt: nat) | DuringWait(attempt: nat)

  /** How a call ends: with a text, or with an exception reaching the caller
      (OperationCanceledException, or one the service lets through). */
  datatype Outcome = Replied(text: string) | Cancelled | Thrown

  /** IsSuccessStatusCode. */
  predicate IsSuccessStatus(status: Status) {
    200 <= status <= 299
  }

  /** The statuses worth another attempt: 429 Too Many Requests and 5xx. */
  predicate IsRetryableStatus(status: Status) {
    status == 429 || status >= 500
  }

  // ---------------------------------------------------------------------
  // Reading a successful response

  /** The member `name` of `j` when `j` is an object that has one. */
  function Member(j: Json, name: string): (r: Option<Json>)
    ensures r.Some? ==> j.JObject?
  {
    if j.JObject? then Lookup(j.members, name) else None
  }

  /** choices[0], when the root has a non-empty `choices` array. */
  function FirstChoice(root: Json): (r: Option<Json>)
    ensures r.Some? ==>
      && root.JObject? && Member(root, "choices").Some?
      && Member(root, "choices").value.JArray? && |Member(root, "choices").value.items| > 0
      && r.value == Member(root, "choices").value.items[0]
  {
    match Member(root, "choices")
    case Some(JArray(items)) => if |items| > 0 then Some(items[0]) else None
    case _ => None
  }

  /** The content of the first choice: choices[0].message.content when
      the message has a content, otherwise choices[0].text; None (C#'s null)
      when neither is there, or the one found is a JSON null. Throws when a
      value on the way has the wrong kind (the root, `choices`, the choice or
      the message not an object or array as required; the content or the
      text neither a string nor null). */
  function ChoiceContent(root: Json): (r: Fallible<Option<string>>)
    ensures r.Ok? ==> root.JObject?
    ensures r.Ok? && r.value.Some? ==> FirstChoice(root).Some?
  {
    var choices :- TryGetProperty(root, "choices");
    match choices
    case None => Ok(None)
    case Some(choiceList) =>
      var length :- GetArrayLength(choiceList);
      if length == 0 then Ok(None)
      else
        var choice := choiceList.items[0];
        var message :- TryGetProperty(choice, "message");
        var messageContent :- if message.Some? then TryGetProperty(message.value, "content") else Ok(None);
        if messageContent.Some? then GetString(messageContent.value)
        else
          var text :- TryGetProperty(choice, "text");
          if text.Some? then GetString(text.value) else Ok(None)
  }

  /** String.IsNullOrWhiteSpace. */
  predicate IsNullOrWhiteSpace(s: Option<string>) {
    s.None? || IsBlank(s.value)
  }

  /** The reply to a 2xx response: the content trimmed, the "no answer"
      message when there is no content or it is blank, and the "could not
      interpret" message when the body does not parse or has the wrong shape. */
  function SuccessReply(body: Body): (r: string)
    ensures r == NoAnswerMessage || r == InterpretErrorMessage
      || (r != [] && !IsWhiteSpace(r[0]) && !IsWhiteSpace(r[|r| - 1]))
  {
    match body.parsed
    case None => InterpretErrorMessage
    case Some(root) =>
      match ChoiceContent(root)
      case Throws => InterpretErrorMessage
      case Ok(content) =>
        if IsNullOrWhiteSpace(content) then NoAnswerMessage else Trim(content.value)
  }

  // ---------------------------------------------------------------------
  // Reading a failed response (ExtrairMensagemErro)

  /** The `error` member of the body's root, when the body parses to an object
      that has one. */
  function ErrorElement(body: Body): (r: Option<Json>)
    ensures r.Some? ==> body.parsed.Some? && body.parsed.value.JObject?
  {
    match body.parsed
    case Some(root) => Member(root, "error")
    case None => None
  }

  /** ExtrairMensagemErro: error.message when it is a string, the text of
      the whole `error` object when it has no message, and null otherwise
      (no body, no object, no `error`, `error` not an object, or a message
      that is null or not a string). It never throws. */
  function ExtractErrorMessage(body: Body): (r: Option<string>)
    ensures r.Some? ==> ErrorElement(body).Some? && ErrorElement(body).value.JObject?
  {
    match body.parsed
    case None => None
    case Some(root) =>
      match TryGetProperty(root, "error")
      case Throws => None
      case Ok(None) => None
      case Ok(Some(e)) =>
        match TryGetProperty(e, "message")
        case Throws => None
        case Ok(Some(m)) => (match GetString(m) case Ok(s) => s case Throws => None)
        case Ok(None) => Some(ElementToString(e))
  }

  // ---------------------------------------------------------------------
  // Failure texts

  /** $"Falha (HTTP {status}): {detail}". */
  function FailureText(status: Status, detail: string): (r: string)
    ensures |r| > |FailurePrefix| + |detail| + 3
    ensures r[..|FailurePrefix|] == FailurePrefix
    ensures r[|r| - |detail| - 3..|r| - |detail|] == "): "
    ensures r[|r| - |detail|..] == detail
  {
    FailurePrefix + Decimal(status) + "): " + detail
  }

  /** The number of decimal digits at the start of `s`. */
  function LeadingDigits(s: string): (n: nat)
    ensures n <= |s| && IsDigits(s[..n])
    ensures n < |s| ==> !('0' <= s[n] <= '9')
  {
    if s != [] && '0' <= s[0] <= '9' then
      var n := 1 + LeadingDigits(s[1..]);
      assert s[..n] == [s[0]] + s[1..][..n - 1];
      n
    else
      0
  }

  /** Reads a failure text back: the status and the detail it carries. */
  function ParseFailureText(r: string): Option<(int, string)> {
    if |r| < |FailurePrefix| || r[..|FailurePrefix|] != FailurePrefix then None
    else
      var rest := r[|FailurePrefix|..];
      var n := LeadingDigits(rest);
      if n == 0 || |rest| < n + 3 || rest[n..n + 3] != "): " then None
      else Some((DigitsValue(rest[..n]), rest[n + 3..]))
  }

  /** The digits at the head of `digits + tail` are exactly `digits` when
      `tail` does not start with a digit. */
  lemma {:induction false} LeadingDigitsOfConcat(digits: string, tail: string)
    requires IsDigits(digits)
    requires tail != [] ==> !('0' <= tail[0] <= '9')
    ensures LeadingDigits(digits + tail) == |digits|
  {
    if digits != [] {
      assert (digits + tail)[1..] == digits[1..] + tail;
      LeadingDigitsOfConcat(digits[1..], tail);
    }
  }

  /** A failure text gives back its status and its detail. */
  lemma FailureTextRoundTrip(status: Status, detail: string)
    ensures ParseFailureText(FailureText(status, detail)) == Some((status as int, detail))
  {
    var digits := Decimal(status);
    var r := FailureText(status, detail);
    var rest := r[|FailurePrefix|..];
    assert r[..|FailurePrefix|] == FailurePrefix;
    assert rest == digits + ("): " + detail);
    LeadingDigitsOfConcat(digits, "): " + detail);
    assert rest[..|digits|] == digits;
    assert rest[|digits|..|digits| + 3] == "): ";
    assert rest[|digits| + 3..] == detail;
    DecimalRoundTrip(status);
  }

  // ---------------------------------------------------------------------
  // Retry decisions

  /** 2^n. */
  function Pow2(n: nat): nat {
    if n == 0 then 1 else 2 * Pow2(n - 1)
  }

  /** The wait after a retryable response at `attempt`: the Retry-After
      seconds when the header gives a non-negative integer (zero included),
      otherwise 2^(attempt-1) seconds plus the jitter. In milliseconds. */
  function RetryDelay(attempt: nat, retryAfter: Option<Int32>, jitter: Jitter): (ms: nat)
    requires 1 <= attempt <= MaxRetries
    ensures retryAfter.Some? && retryAfter.value >= 0 ==> ms == 1000 * retryAfter.value
    ensures !(retryAfter.Some? && retryAfter.value >= 0) ==>
      1000 * Pow2(attempt - 1) <= ms < 1000 * Pow2(attempt - 1) + JitterBoundMs
  {
    if retryAfter.Some? && retryAfter.value >= 0 then 1000 * retryAfter.value
    else 1000 * Pow2(attempt - 1) + jitter
  }

  /** What one attempt decides once its response is in. */
  datatype Step = Finish(text: string) | Retry(delayMs: nat)

  /** The decision of attempt `attempt` on response `resp`: a 2xx ends with
      the extracted reply; 429 and 5xx are retried, except on the last attempt,
      which ends with the failure text and the rate-limit fallback; every other
      status ends at once with the failure text and the raw body as fallback. */
  function Decide(attempt: nat, resp: Response, jitter: Jitter): (s: Step)
    requires 1 <= attempt <= MaxRetries
    ensures s.Retry? <==> IsRetryableStatus(resp.status) && attempt < MaxRetries
    ensures s.Retry? ==> s.delayMs == RetryDelay(attempt, resp.retryAfter, jitter)
    ensures IsSuccessStatus(resp.status) ==> s == Finish(SuccessReply(resp.body))
    ensures !IsSuccessStatus(resp.status) && s.Finish? ==>
      s.text == FailureText(resp.status, FailureDetail(resp))
  {
    if IsSuccessStatus(resp.status) then
      Finish(SuccessReply(resp.body))
    else if IsRetryableStatus(resp.status) then
      if attempt == MaxRetries then
        var msg := ExtractErrorMessage(resp.body).GetOr(RateLimitMessage);
        Finish(FailureText(resp.status, msg))
      else
        Retry(RetryDelay(attempt, resp.retryAfter, jitter))
    else
      var erro := ExtractErrorMessage(resp.body).GetOr(resp.body.text);
      Finish(FailureText(resp.status, erro))
  }

  /** The detail a failure text gives for a non-2xx response: the error
      message from the body, or else the rate-limit message for a retryable
      status and the raw body for any other. */
  function FailureDetail(resp: Response): (detail: string)
    ensures ExtractErrorMessage(resp.body).Some? ==> detail == ExtractErrorMessage(resp.body).value
    ensures ExtractErrorMessage(resp.body).None? && IsRetryableStatus(resp.status) ==> detail == RateLimitMessage
    ensures ExtractErrorMessage(resp.body).None? && !IsRetryableStatus(resp.status) ==> detail == resp.body.text
  {
    ExtractErrorMessage(resp.body).GetOr(if IsRetryableStatus(resp.status) then RateLimitMessage else resp.body.text)
  }

  // ---------------------------------------------------------------------
  // A whole call

  /** What a call did: how it ended, how many requests it started, and the
      delays it waited in full between them. */
  datatype Trace = Trace(outcome: Outcome, attempts: nat, waits: seq<nat>)

  /** The call, from attempt `attempt` on, having waited `waits` so far. */
  function SessionFrom(script: seq<Exchange>, jitter: seq<Jitter>, cancel: Cancellation,
                       attempt: nat, waits: seq<nat>): (t: Trace)
    requires |script| == MaxRetries && |jitter| == MaxRetries
    requires 1 <= attempt <= MaxRetries
    ensures attempt <= t.attempts <= MaxRetries
    ensures |t.waits| == |waits| + (t.attempts - attempt) && t.waits[..|waits|] == waits
    decreases MaxRetries - attempt
  {
    if cancel == DuringSend(attempt) then Trace(Cancelled, attempt, waits)
    else
      match script[attempt - 1]
      case TransportError => Trace(Thrown, attempt, waits)
      case Delivered(resp) =>
        match Decide(attempt, resp, jitter[attempt - 1])
        case Finish(text) => Trace(Replied(text), attempt, waits)
        case Retry(delay) =>
          if delay > MaxDelayMs then Trace(Thrown, attempt, waits)
          else if cancel == DuringWait(attempt) then Trace(Cancelled, attempt, waits)
          else SessionFrom(script, jitter, cancel, attempt + 1, waits + [delay])
  }

  /** The specification of a call to PerguntarAsync. */
  function Session(script: seq<Exchange>, jitter: seq<Jitter>, cancel: Cancellation): (t: Trace)
    requires |script| == MaxRetries && |jitter| == MaxRetries
    ensures 1 <= t.attempts <= MaxRetries && |t.waits| == t.attempts - 1
  {
    SessionFrom(script, jitter, cancel, 1, [])
  }

  /** PerguntarAsync: builds the payload once, then tries up to MaxRetries
      times. Returns how the call ended, the request bodies it sent (one per
      attempt started), and the delays it waited. */
  method Ask(question: string, script: seq<Exchange>, jitter: seq<Jitter>, cancel: Cancellation)
    returns (outcome: Outcome, requests: seq<Payload>, waits: seq<nat>)
    requires |script| == MaxRetries && |jitter| == MaxRetries
    ensures Trace(outcome, |requests|, waits) == Session(script, jitter, cancel)
    ensures forall p <- requests :: p == RequestPayload(question)
  {
    var payload := RequestPayload(question);
    requests, waits := [], [];
    for attempt := 1 to MaxRetries + 1
      invariant attempt <= MaxRetries
      invariant |requests| == attempt - 1
      invariant forall p <- requests :: p == payload
      invariant SessionFrom(script, jitter, cancel, attempt, waits) == Session(script, jitter, cancel)
    {
      requests := requests + [payload];
      if cancel == DuringSend(attempt) {
        outcome := Cancelled;
        return;
      }
      if script[attempt - 1].TransportError? {
        outcome := Thrown;
        return;
      }
      var resp := script[attempt - 1].response;

      if IsSuccessStatus(resp.status) {
        outcome := Replied(SuccessReply(resp.body));
        return;
      }

      if IsRetryableStatus(resp.status) {
        var delay := RetryDelay(attempt, resp.retryAfter, jitter[attempt - 1]);
        if attempt == MaxRetries {
          var msg := ExtractErrorMessage(resp.body).GetOr(RateLimitMessage);
          outcome := Replied(FailureText(resp.status, msg));
          return;
        }
        if delay > MaxDelayMs {
          outcome := Thrown;
          return;
        }
        if cancel == DuringWait(attempt) {
          outcome := Cancelled;
          return;
        }
        waits := waits + [delay];
        continue;
      }

      var erro := ExtractErrorMessage(resp.body).GetOr(resp.body.text);
      outcome := Replied(FailureText(resp.status, erro));
      return;
    }
    assert false;
    outcome := Replied(LoopFallbackMessage);
  }
}
