/**
 * GroqAIService: a daily-limit gate and a retry loop that sends the prompt to one model after
 * another. The HTTP exchange is not modelled: what attempt `i` of a call receives is the value
 * `exchange(i)`, and what Jackson makes of the recovered JSON is `parse(json)`. Both are inputs,
 * so any behaviour of the server and the library is covered. Since the requests of one call are
 * fixed by the service's state on entry, indexing the replies by attempt loses nothing.
 */
module GroqService {
  import opened Wrappers
  import opened JavaStrings
  import opened ArticleModel
  import opened QuizModel
  import opened GroqPrompt
  import opened GroqResponse

  const ModelPriority: seq<string> := ["llama-3.3-70b-versatile", "mixtral-8x7b-32768", "llama-3.1-8b-instant"]
  const DailyLimit: nat := 10
  /** Seconds to wait before retrying after a rate-limit reply, per attempt already made. */
  const RetryDelay: nat := 30
  /** Exception messages and raw error bodies are cut to this many chars. */
  const ExcerptLength: nat := 200

  const RateLimitMessage: string := "Rate limit exceeded. Try again later."
  const MaxRetriesMessage: string := "Max retries exceeded"
  const ApiErrorPrefix: string := "Groq API error: "
  const UnexpectedPrefix: string := "Unexpected error: "
  const Provider: string := "Groq"

  /** `"Daily limit (" + dailyLimit + ") reached"`. */
  function DailyLimitMessage(): string
  {
    "Daily limit (" + IntToString(DailyLimit) + ") reached"
  }

  lemma DailyLimitMessageText()
    ensures DailyLimitMessage() == "Daily limit (10) reached"
  {
    assert NatToString(1) == "1";
    assert NatToString(10) == "10";
  }

  // ---------------------------------------------------------------------------------------
  // The model rotation.
  // ---------------------------------------------------------------------------------------

  /** `modelPriority.get(index % modelPriority.size())`. */
  function ModelAt(models: seq<string>, index: nat): string
    requires |models| > 0
  {
    models[index % |models|]
  }

  /** Rotation wraps after three steps, and three consecutive indices name three different
      models; index k names the model k places down the list, counting round. */
  lemma ModelRotation(index: nat)
    ensures ModelAt(ModelPriority, index + 3) == ModelAt(ModelPriority, index)
    ensures ModelAt(ModelPriority, index) != ModelAt(ModelPriority, index + 1)
    ensures ModelAt(ModelPriority, index + 1) != ModelAt(ModelPriority, index + 2)
    ensures ModelAt(ModelPriority, index) != ModelAt(ModelPriority, index + 2)
    ensures index < 3 ==> ModelAt(ModelPriority, index) == ModelPriority[index]
  {
    assert |ModelPriority[0]| == 23 && |ModelPriority[1]| == 18 && |ModelPriority[2]| == 20;
  }

  // ---------------------------------------------------------------------------------------
  // What one attempt can receive.
  // ---------------------------------------------------------------------------------------

  /** What Jackson finds in a non-2xx reply body. */
  datatype ErrorBody =
    | Unparsable
      /** The body parses, but has no "error" key holding an object. */
    | WithoutErrorObject
      /** `error.message` in its Java string form (a JSON null prints as "null"); None when the
          key is absent. */
    | ErrorObject(message: Option<string>)

  datatype Exchange =
      /** An IOException before a reply is in hand: the call, reading the body, or Jackson
          reading a 2xx body. */
    | IoFailure(message: Option<string>)
      /** A reply that is not 2xx: code, reason phrase, body, and what Jackson made of it. */
    | HttpError(code: int, reason: string, body: string, errorBody: ErrorBody)
      /** A 2xx reply whose "choices" is null or empty. */
    | NoChoices
      /** Any other exception before the counter moves (a reply of the wrong shape). */
    | Crash(message: Option<string>)
      /** A 2xx reply whose first choice has a null content: counted, then the regex throws. */
    | NullContent(message: Option<string>)
      /** A 2xx reply with the completion text. */
    | Completion(content: string)

  /** Jackson's reading of the recovered JSON into a Quiz; its failures are IOExceptions. */
  datatype QuizParse = Parsed(quiz: Quiz) | ParseFailed(message: Option<string>)

  /** `requestCount++` runs exactly when a 2xx reply has a first choice. */
  predicate Counted(e: Exchange) {
    e.NullContent? || e.Completion?
  }

  /** The error detail of a non-2xx reply. */
  function ErrorDetail(code: int, reason: string, body: string, errorBody: ErrorBody): string
  {
    "Status: " + IntToString(code) + " " + reason + DetailSuffix(body, errorBody)
  }

  /** The part of the detail taken from the body: the error object's message, or the first 200
      chars of a body Jackson cannot read. */
  function DetailSuffix(body: string, errorBody: ErrorBody): string
  {
    match errorBody
    case Unparsable => if |body| > 0 then " - Response: " + Prefix(body, ExcerptLength) else ""
    case WithoutErrorObject => ""
    case ErrorObject(m) => " - " + m.GetOr("No error details")
  }

  const UnexpectedResponse: string := "Unexpected response: "

  /** How the try block ends: with a quiz, an IOException, or another exception. */
  datatype Reply = Answered(quiz: Quiz) | IoError(message: Option<string>) | OtherError(message: Option<string>)

  /** Lines 151-207 of one attempt. */
  function Perform(e: Exchange, parse: string -> QuizParse): (r: Reply)
    ensures r.Answered? ==> e.Completion?
    ensures e.IoFailure? || e.HttpError? || e.NoChoices? ==> r.IoError?
    ensures e.Crash? || e.NullContent? ==> r.OtherError?
  {
    match e
    case IoFailure(m) => IoError(m)
    case HttpError(code, reason, body, eb) =>
      IoError(Some(UnexpectedResponse + ErrorDetail(code, reason, body, eb)))
    case NoChoices => IoError(Some("No choices in response"))
    case Crash(m) => OtherError(m)
    case NullContent(m) => OtherError(m)
    case Completion(content) =>
      match RecoverJson(content)
      case Err(m) => IoError(Some(m))
      case Ok(json) =>
        match parse(json)
        case Parsed(q) => Answered(q)
        case ParseFailed(m) => IoError(m)
  }

  /** A non-2xx reply with status 429 always reads as rate limiting, whatever its body says. */
  lemma Status429IsRateLimit(reason: string, body: string, eb: ErrorBody, parse: string -> QuizParse)
    ensures var r := Perform(HttpError(429, reason, body, eb), parse);
      r.IoError? && r.message.Some? && Contains(r.message.value, "429")
  {
    Code429();
    var u, x, tail := UnexpectedResponse, IntToString(429), " " + reason + DetailSuffix(body, eb);
    assert u + ("Status: " + x + " " + reason + DetailSuffix(body, eb)) == (u + "Status: ") + x + tail;
    ContainsWithin(u + "Status: ", x, tail);
  }

  lemma Code429()
    ensures IntToString(429) == "429"
  {
    assert NatToString(4) == "4";
    assert NatToString(42) == "42";
  }

  // ---------------------------------------------------------------------------------------
  // What the service does after an attempt.
  // ---------------------------------------------------------------------------------------

  datatype Step =
    | Succeeded(quiz: Quiz)
      /** 429 with retries left: sleep, rotate, retry. */
    | WaitAndRetry(seconds: nat)
      /** 400 with retries left: rotate and retry at once. */
    | RetryNow
    | Failed(message: string)

  predicate IsRetry(s: Step) {
    s.WaitAndRetry? || s.RetryNow?
  }

  /** The IOException handler: "429" is tested before "400", and both retry only while
      `retryCount < maxRetries`. */
  function Classify(message: Option<string>, retryCount: nat, maxRetries: int): (s: Step)
    ensures !s.Succeeded?
    ensures IsRetry(s) ==> retryCount < maxRetries
  {
    if message.Some? && Contains(message.value, "429") && retryCount < maxRetries then
      WaitAndRetry(RetryDelay * (retryCount + 1))
    else if message.Some? && Contains(message.value, "429") then
      Failed(RateLimitMessage)
    else if message.Some? && Contains(message.value, "400") && retryCount < maxRetries then
      RetryNow
    else
      Failed(ApiErrorPrefix + (if message.Some? then Prefix(message.value, ExcerptLength) else "Unknown error"))
  }

  /** The handler's decisions: a retry happens only while retries remain and only for a message
      naming 429 or 400; a 429 waits 30 s per attempt made; a 429 is never treated as a 400; a
      failure message quotes at most 200 chars of the exception. */
  lemma ClassifySpec(message: Option<string>, retryCount: nat, maxRetries: int)
    ensures var s := Classify(message, retryCount, maxRetries);
      && !s.Succeeded?
      && (IsRetry(s) ==> retryCount < maxRetries && message.Some?)
      && (s.WaitAndRetry? <==> message.Some? && Contains(message.value, "429") && retryCount < maxRetries)
      && (s.WaitAndRetry? ==> s.seconds == 30 * (retryCount + 1))
      && (s.RetryNow? <==>
            (message.Some? && !Contains(message.value, "429") && Contains(message.value, "400")
             && retryCount < maxRetries))
      && (s == Failed(RateLimitMessage) <==>
            (message.Some? && Contains(message.value, "429") && retryCount >= maxRetries))
      && (s.Failed? && s != Failed(RateLimitMessage) ==>
            s.message == ApiErrorPrefix + (if message.Some? then Prefix(message.value, 200) else "Unknown error")
            && |s.message| <= |ApiErrorPrefix| + 200)
  {
    var s := Classify(message, retryCount, maxRetries);
    if s.Failed? && s != Failed(RateLimitMessage) {
      assert ApiErrorPrefix + "Unknown error" != RateLimitMessage by {
        assert (ApiErrorPrefix + "Unknown error")[0] != RateLimitMessage[0];
      }
    }
  }

  /** What the attempt's reply leads to. A quiz gets the attempt's model, the article's token
      estimate and the provider. */
  function Decide(reply: Reply, model: string, tokenEstimate: Option<int>, retryCount: nat, maxRetries: int): (s: Step)
  {
    match reply
    case Answered(q) =>
      Succeeded(q.(modelUsed := Some(model), tokenEstimate := tokenEstimate, apiProvider := Some(Provider)))
    case IoError(m) => Classify(m, retryCount, maxRetries)
    case OtherError(m) => Failed(UnexpectedPrefix + NullableText(m))
  }

  /** Only a parsed quiz succeeds, and it leaves with the attempt's model, the article's token
      estimate and the provider, everything else as Jackson read it; only an IOException can
      lead to a retry, and only while retries remain; any other exception ends the call. */
  lemma DecideSpec(reply: Reply, model: string, tokenEstimate: Option<int>, retryCount: nat, maxRetries: int)
    ensures var s := Decide(reply, model, tokenEstimate, retryCount, maxRetries);
      && (s.Succeeded? <==> reply.Answered?)
      && (s.Succeeded? ==>
            && s.quiz.modelUsed == Some(model) && s.quiz.tokenEstimate == tokenEstimate
            && s.quiz.apiProvider == Some(Provider)
            && s.quiz.(modelUsed := reply.quiz.modelUsed, tokenEstimate := reply.quiz.tokenEstimate,
                       apiProvider := reply.quiz.apiProvider) == reply.quiz)
      && (IsRetry(s) ==> reply.IoError? && retryCount < maxRetries)
      && (reply.IoError? ==> s == Classify(reply.message, retryCount, maxRetries))
      && (reply.OtherError? ==> s.Failed? && StartsWith(s.message, UnexpectedPrefix))
  {
    if reply.IoError? {
      ClassifySpec(reply.message, retryCount, maxRetries);
    }
  }

  // ---------------------------------------------------------------------------------------
  // The call, as a function of the state on entry.
  // ---------------------------------------------------------------------------------------

  /** One pass through the loop: the model used, the request body, the reply and the step. */
  datatype Attempt = Attempt(model: string, requestBody: string, exchange: Exchange, step: Step)

  /** The returned quiz, the two fields afterwards, and the attempts in order. */
  datatype Outcome = Outcome(quiz: Quiz, modelIndex: nat, requestCount: nat, attempts: seq<Attempt>)

  /** What stays fixed during one call: the model list, the escaped prompt, the retry bound,
      the replies, and what an attempt leads to given its retry count and model. */
  datatype Call = Call(models: seq<string>, escapedPrompt: string, maxRetries: int,
                       exchange: nat -> Exchange, decide: (nat, string) -> Step)

  /** What an attempt of the service leads to: its reply goes through `Perform` and `Decide`. */
  function DecideFor(tokenEstimate: Option<int>, maxRetries: int, exchange: nat -> Exchange,
                     parse: string -> QuizParse): (nat, string) -> Step
  {
    (retryCount: nat, model: string) =>
      Decide(Perform(exchange(retryCount), parse), model, tokenEstimate, retryCount, maxRetries)
  }

  /** The call the service makes. */
  function CallFor(models: seq<string>, escapedPrompt: string, tokenEstimate: Option<int>, maxRetries: int,
                   exchange: nat -> Exchange, parse: string -> QuizParse): Call
  {
    Call(models, escapedPrompt, maxRetries, exchange, DecideFor(tokenEstimate, maxRetries, exchange, parse))
  }

  /** An attempt asks for another one only while retries remain. */
  ghost predicate RetriesBounded(c: Call) {
    forall retryCount: nat, model: string ::
      IsRetry(c.decide(retryCount, model)) ==> retryCount < c.maxRetries
  }

  /** The service's own decision keeps to the retry bound. */
  lemma CallForBounded(models: seq<string>, escapedPrompt: string, tokenEstimate: Option<int>, maxRetries: int,
                       exchange: nat -> Exchange, parse: string -> QuizParse)
    ensures RetriesBounded(CallFor(models, escapedPrompt, tokenEstimate, maxRetries, exchange, parse))
  {
    var c := CallFor(models, escapedPrompt, tokenEstimate, maxRetries, exchange, parse);
    forall retryCount: nat, model: string
      ensures IsRetry(c.decide(retryCount, model)) ==> retryCount < c.maxRetries
    {
      DecideSpec(Perform(exchange(retryCount), parse), model, tokenEstimate, retryCount, maxRetries);
    }
  }

  /** The attempt made with `retryCount` retries taken and the index at `modelIndex`. */
  function AttemptAt(c: Call, retryCount: nat, modelIndex: nat): Attempt
    requires |c.models| > 0
  {
    var model := ModelAt(c.models, modelIndex);
    Attempt(model, RequestBody(model, c.escapedPrompt), c.exchange(retryCount), c.decide(retryCount, model))
  }

  /** The quiz returned after an attempt that ends the call. */
  function FinalQuiz(step: Step): Quiz
    requires !IsRetry(step)
  {
    match step
    case Succeeded(q) => q
    case Failed(m) => FailedQuiz(m)
  }

  /** The loop from `retryCount` on, with the fields holding `modelIndex` and `requestCount`. */
  function Loop(c: Call, retryCount: nat, modelIndex: nat, requestCount: nat): Outcome
    requires |c.models| > 0
    decreases c.maxRetries + 1 - retryCount
  {
    if retryCount > c.maxRetries then
      Outcome(FailedQuiz(MaxRetriesMessage), modelIndex, requestCount, [])
    else
      var a := AttemptAt(c, retryCount, modelIndex);
      var count := if Counted(a.exchange) then requestCount + 1 else requestCount;
      if IsRetry(a.step) then
        var rest := Loop(c, retryCount + 1, modelIndex + 1, count);
        rest.(attempts := [a] + rest.attempts)
      else
        Outcome(FinalQuiz(a.step), modelIndex, count, [a])
  }

  /** One pass of the loop: an attempt that retries is followed by the rest of the loop, one that
      does not ends it. */
  lemma LoopStep(c: Call, retryCount: nat, modelIndex: nat, requestCount: nat)
    requires |c.models| > 0 && retryCount <= c.maxRetries
    ensures var a := AttemptAt(c, retryCount, modelIndex);
      var count := if Counted(a.exchange) then requestCount + 1 else requestCount;
      var rest := Loop(c, retryCount + 1, modelIndex + 1, count);
      && (IsRetry(a.step) ==>
            Loop(c, retryCount, modelIndex, requestCount) == rest.(attempts := [a] + rest.attempts))
      && (!IsRetry(a.step) ==>
            Loop(c, retryCount, modelIndex, requestCount) == Outcome(FinalQuiz(a.step), modelIndex, count, [a]))
  {
  }

  /** The prompt the call sends; the text and title are dereferenced outside the try block. */
  function ArticlePrompt(article: Article): string
    requires article.fullText.Some? && article.title.Some?
  {
    CreateEfficientPrompt(article.fullText.value, article.title.value, article.id)
  }

  /** `generateFromArticleData(article, maxRetries)` from the given field values. */
  function Generate(models: seq<string>, modelIndex: nat, requestCount: nat, article: Article,
                    maxRetries: int, exchange: nat -> Exchange, parse: string -> QuizParse): Outcome
    requires |models| > 0
    requires requestCount < DailyLimit ==> article.fullText.Some? && article.title.Some?
  {
    if requestCount >= DailyLimit then
      Outcome(FailedQuiz(DailyLimitMessage()), modelIndex, requestCount, [])
    else
      Loop(CallFor(models, Escape(ArticlePrompt(article)), article.tokenEstimate, maxRetries, exchange, parse),
           0, modelIndex, requestCount)
  }

  /** The number of attempts that moved the counter. */
  function CountedAttempts(attempts: seq<Attempt>): nat
  {
    if attempts == [] then 0
    else CountedAttempts(attempts[..|attempts| - 1]) + (if Counted(attempts[|attempts| - 1].exchange) then 1 else 0)
  }

  lemma {:induction false} CountedAttemptsCons(a: Attempt, rest: seq<Attempt>)
    ensures CountedAttempts([a] + rest) == (if Counted(a.exchange) then 1 else 0) + CountedAttempts(rest)
    decreases |rest|
  {
    if rest == [] {
      assert [a] + rest == [a];
      assert [a][..0] == [];
    } else {
      var all := [a] + rest;
      assert all[..|all| - 1] == [a] + rest[..|rest| - 1];
      CountedAttemptsCons(a, rest[..|rest| - 1]);
    }
  }

  // ---------------------------------------------------------------------------------------
  // What the loop guarantees.
  // ---------------------------------------------------------------------------------------

  /** With retries left there is at least one attempt and at most one per allowed retry; the
      index moves by one per retry, so attempt i uses the model i places on; every attempt but
      the last is a retry, and the last one ends the call. */
  lemma {:induction false} LoopAttempts(c: Call, retryCount: nat, modelIndex: nat, requestCount: nat)
    requires |c.models| > 0 && retryCount <= c.maxRetries
    requires RetriesBounded(c)
    ensures var o := Loop(c, retryCount, modelIndex, requestCount);
      && 1 <= |o.attempts| <= c.maxRetries - retryCount + 1
      && o.modelIndex == modelIndex + |o.attempts| - 1
      && (forall i :: 0 <= i < |o.attempts| ==> o.attempts[i].model == ModelAt(c.models, modelIndex + i))
      && (forall i :: 0 <= i < |o.attempts| - 1 ==> IsRetry(o.attempts[i].step))
      && !IsRetry(o.attempts[|o.attempts| - 1].step)
    decreases c.maxRetries - retryCount
  {
    var o := Loop(c, retryCount, modelIndex, requestCount);
    var a := AttemptAt(c, retryCount, modelIndex);
    var count := if Counted(a.exchange) then requestCount + 1 else requestCount;
    LoopStep(c, retryCount, modelIndex, requestCount);
    if IsRetry(a.step) {
      var rest := Loop(c, retryCount + 1, modelIndex + 1, count);
      LoopAttempts(c, retryCount + 1, modelIndex + 1, count);
      assert o.attempts == [a] + rest.attempts && o.modelIndex == rest.modelIndex;
      PrependRetry(a, rest.attempts, c.models, modelIndex);
    } else {
      assert o.attempts == [a] && o.modelIndex == modelIndex;
    }
  }

  /** A retrying attempt with the model at `modelIndex`, put in front of attempts that use the
      models from `modelIndex + 1` on and end with the only attempt that does not retry. */
  lemma PrependRetry(a: Attempt, rest: seq<Attempt>, models: seq<string>, modelIndex: nat)
    requires |models| > 0 && rest != []
    requires a.model == ModelAt(models, modelIndex) && IsRetry(a.step)
    requires forall i :: 0 <= i < |rest| ==> rest[i].model == ModelAt(models, modelIndex + 1 + i)
    requires forall i :: 0 <= i < |rest| - 1 ==> IsRetry(rest[i].step)
    requires !IsRetry(rest[|rest| - 1].step)
    ensures var all := [a] + rest;
      && (forall i :: 0 <= i < |all| ==> all[i].model == ModelAt(models, modelIndex + i))
      && (forall i :: 0 <= i < |all| - 1 ==> IsRetry(all[i].step))
      && !IsRetry(all[|all| - 1].step)
  {
    var all := [a] + rest;
    forall i | 1 <= i < |all|
      ensures all[i].model == ModelAt(models, modelIndex + i)
      ensures i < |all| - 1 ==> IsRetry(all[i].step)
    {
      assert all[i] == rest[i - 1];
    }
    assert all[|all| - 1] == rest[|rest| - 1];
  }

  /** The counter rises by one for each counted attempt and for nothing else, so it never
      falls. */
  lemma {:induction false} LoopCount(c: Call, retryCount: nat, modelIndex: nat, requestCount: nat)
    requires |c.models| > 0
    ensures var o := Loop(c, retryCount, modelIndex, requestCount);
      o.requestCount == requestCount + CountedAttempts(o.attempts) && o.requestCount >= requestCount
    decreases c.maxRetries + 1 - retryCount
  {
    if retryCount <= c.maxRetries {
      var a := AttemptAt(c, retryCount, modelIndex);
      var count := if Counted(a.exchange) then requestCount + 1 else requestCount;
      if IsRetry(a.step) {
        var rest := Loop(c, retryCount + 1, modelIndex + 1, count);
        LoopCount(c, retryCount + 1, modelIndex + 1, count);
        CountedAttemptsCons(a, rest.attempts);
      } else {
        CountedAttemptsCons(a, []);
        assert [a] + [] == [a];
      }
    }
  }

  /** How the call ends: with the quiz of the last attempt's step, or a fresh failed Quiz
      carrying that step's message. */
  lemma {:induction false} LoopResult(c: Call, retryCount: nat, modelIndex: nat, requestCount: nat)
    requires |c.models| > 0 && retryCount <= c.maxRetries
    requires RetriesBounded(c)
    ensures var o := Loop(c, retryCount, modelIndex, requestCount);
      o.attempts != [] &&
      var last := o.attempts[|o.attempts| - 1];
      && (last.step.Succeeded? ==> o.quiz == last.step.quiz)
      && (last.step.Failed? ==> o.quiz == FailedQuiz(last.step.message))
    decreases c.maxRetries - retryCount
  {
    var o := Loop(c, retryCount, modelIndex, requestCount);
    var a := AttemptAt(c, retryCount, modelIndex);
    var count := if Counted(a.exchange) then requestCount + 1 else requestCount;
    if IsRetry(a.step) {
      var rest := Loop(c, retryCount + 1, modelIndex + 1, count);
      LoopResult(c, retryCount + 1, modelIndex + 1, count);
      assert o.attempts[|o.attempts| - 1] == rest.attempts[|rest.attempts| - 1];
    }
  }

  /** Attempt i of `attempts` received reply `exchange(from + i)` and took the step that reply
      leads to with the model it used. */
  ghost predicate StepsFrom(c: Call, from: nat, attempts: seq<Attempt>) {
    forall i :: 0 <= i < |attempts| ==>
      attempts[i].exchange == c.exchange(from + i) && attempts[i].step == c.decide(from + i, attempts[i].model)
  }

  /** Each attempt of the loop is the one its reply calls for. */
  lemma {:induction false} LoopSteps(c: Call, retryCount: nat, modelIndex: nat, requestCount: nat)
    requires |c.models| > 0
    ensures StepsFrom(c, retryCount, Loop(c, retryCount, modelIndex, requestCount).attempts)
    decreases c.maxRetries + 1 - retryCount
  {
    var o := Loop(c, retryCount, modelIndex, requestCount);
    if retryCount <= c.maxRetries {
      var a := AttemptAt(c, retryCount, modelIndex);
      var count := if Counted(a.exchange) then requestCount + 1 else requestCount;
      if IsRetry(a.step) {
        var rest := Loop(c, retryCount + 1, modelIndex + 1, count);
        LoopSteps(c, retryCount + 1, modelIndex + 1, count);
        assert o.attempts == [a] + rest.attempts;
        forall i | 1 <= i < |o.attempts|
          ensures o.attempts[i].exchange == c.exchange(retryCount + i)
          ensures o.attempts[i].step == c.decide(retryCount + i, o.attempts[i].model)
        {
          assert o.attempts[i] == rest.attempts[i - 1];
        }
      }
    }
  }

  /** A call that returns a quiz returns the one Jackson read from the last reply, stamped
      with the model that answered, the article's token estimate and the provider. */
  lemma SuccessStamped(models: seq<string>, escapedPrompt: string, tokenEstimate: Option<int>, maxRetries: int,
                       exchange: nat -> Exchange, parse: string -> QuizParse, modelIndex: nat, requestCount: nat)
    requires |models| > 0 && 0 <= maxRetries
    ensures var o := Loop(CallFor(models, escapedPrompt, tokenEstimate, maxRetries, exchange, parse),
                          0, modelIndex, requestCount);
      o.attempts != [] &&
      var last := o.attempts[|o.attempts| - 1];
      last.step.Succeeded? ==>
        && Perform(last.exchange, parse).Answered?
        && o.quiz.modelUsed == Some(last.model) && o.quiz.tokenEstimate == tokenEstimate
        && o.quiz.apiProvider == Some(Provider)
        && o.quiz.questions == Perform(last.exchange, parse).quiz.questions
  {
    var c := CallFor(models, escapedPrompt, tokenEstimate, maxRetries, exchange, parse);
    var o := Loop(c, 0, modelIndex, requestCount);
    CallForBounded(models, escapedPrompt, tokenEstimate, maxRetries, exchange, parse);
    LoopResult(c, 0, modelIndex, requestCount);
    LoopSteps(c, 0, modelIndex, requestCount);
    var n := |o.attempts| - 1;
    var last := o.attempts[n];
    assert last.step == Decide(Perform(exchange(n), parse), last.model, tokenEstimate, n, maxRetries);
    DecideSpec(Perform(exchange(n), parse), last.model, tokenEstimate, n, maxRetries);
  }

  /** A reply that reads as rate limiting. */
  predicate RateLimited(e: Exchange, parse: string -> QuizParse) {
    var r := Perform(e, parse);
    r.IoError? && r.message.Some? && Contains(r.message.value, "429")
  }

  /** When every reply is rate limiting, the call makes all allowed attempts, waiting 30, 60,
      90 ... seconds between them and moving to the next model each time, and then gives up
      with the rate-limit message; the counter does not move. */
  lemma {:induction false} RateLimitStorm(models: seq<string>, escapedPrompt: string, tokenEstimate: Option<int>,
                                          maxRetries: int, exchange: nat -> Exchange, parse: string -> QuizParse,
                                          retryCount: nat, modelIndex: nat, requestCount: nat)
    requires |models| > 0 && retryCount <= maxRetries
    requires forall i :: retryCount <= i <= maxRetries ==> RateLimited(exchange(i), parse)
    requires forall i :: retryCount <= i <= maxRetries ==> !Counted(exchange(i))
    ensures var o := Loop(CallFor(models, escapedPrompt, tokenEstimate, maxRetries, exchange, parse),
                          retryCount, modelIndex, requestCount);
      && |o.attempts| == maxRetries - retryCount + 1
      && (forall i :: 0 <= i < |o.attempts| - 1 ==>
            o.attempts[i].step == WaitAndRetry(30 * (retryCount + i + 1)))
      && o.quiz == FailedQuiz(RateLimitMessage)
      && o.modelIndex == modelIndex + maxRetries - retryCount
      && o.requestCount == requestCount
    decreases maxRetries - retryCount
  {
    var c := CallFor(models, escapedPrompt, tokenEstimate, maxRetries, exchange, parse);
    var o := Loop(c, retryCount, modelIndex, requestCount);
    var a := AttemptAt(c, retryCount, modelIndex);
    assert RateLimited(a.exchange, parse);
    if retryCount < maxRetries {
      assert a.step == WaitAndRetry(30 * (retryCount + 1));
      var rest := Loop(c, retryCount + 1, modelIndex + 1, requestCount);
      RateLimitStorm(models, escapedPrompt, tokenEstimate, maxRetries, exchange, parse,
                     retryCount + 1, modelIndex + 1, requestCount);
      forall i | 1 <= i < |o.attempts| - 1
        ensures o.attempts[i].step == WaitAndRetry(30 * (retryCount + i + 1))
      {
        assert o.attempts[i] == rest.attempts[i - 1];
      }
    } else {
      assert a.step == Failed(RateLimitMessage);
    }
  }

  /** The gate: at or over the daily limit nothing is attempted and nothing changes. */
  lemma DailyLimitGate(models: seq<string>, modelIndex: nat, requestCount: nat, article: Article,
                       maxRetries: int, exchange: nat -> Exchange, parse: string -> QuizParse)
    requires |models| > 0 && requestCount >= DailyLimit
    ensures Generate(models, modelIndex, requestCount, article, maxRetries, exchange, parse)
      == Outcome(FailedQuiz("Daily limit (10) reached"), modelIndex, requestCount, [])
  {
    DailyLimitMessageText();
  }

  /** "Max retries exceeded" is returned exactly when the loop never runs, which is when
      `maxRetries` is negative; otherwise the call ends from inside the loop. */
  lemma MaxRetriesOnlyWhenNegative(c: Call, modelIndex: nat, requestCount: nat)
    requires |c.models| > 0 && RetriesBounded(c)
    ensures var o := Loop(c, 0, modelIndex, requestCount);
      && (c.maxRetries < 0 <==> o.attempts == [])
      && (c.maxRetries < 0 ==> o == Outcome(FailedQuiz(MaxRetriesMessage), modelIndex, requestCount, []))
      && (c.maxRetries >= 0 ==> !IsRetry(o.attempts[|o.attempts| - 1].step)
                                && |o.attempts| <= c.maxRetries + 1)
  {
    if c.maxRetries >= 0 {
      LoopAttempts(c, 0, modelIndex, requestCount);
    }
  }

  /** Usage figures as `getUsage()` reports them. */
  datatype Usage = Usage(requestsToday: int, dailyLimit: int, remaining: int, provider: string)

  // ---------------------------------------------------------------------------------------
  // The service object.
  // ---------------------------------------------------------------------------------------

  class GroqAIService {
    const modelPriority: seq<string>
    var currentModelIndex: nat
    var requestCount: nat

    /** A new service starts on the first model with no requests counted. */
    constructor ()
      ensures modelPriority == ModelPriority
      ensures currentModelIndex == 0 && requestCount == 0
    {
      modelPriority := ModelPriority;
      currentModelIndex := 0;
      requestCount := 0;
    }

    /** `getCurrentModel()`. */
    function GetCurrentModel(): (m: string)
      requires |modelPriority| > 0
      reads this
      ensures m in modelPriority
    {
      ModelAt(modelPriority, currentModelIndex)
    }

    /** `rotateModel()`: the index only ever moves up by one, and the counter is untouched. */
    method RotateModel()
      requires |modelPriority| > 0
      modifies this
      ensures currentModelIndex == old(currentModelIndex) + 1
      ensures requestCount == old(requestCount)
      ensures GetCurrentModel() == ModelAt(modelPriority, old(currentModelIndex) + 1)
    {
      currentModelIndex := currentModelIndex + 1;
    }

    /** `getUsage()`: what is left of the daily limit; it is positive exactly while the gate of
        the next call is open. */
    function GetUsage(): (u: Usage)
      reads this
      ensures u.requestsToday == requestCount && u.dailyLimit == DailyLimit
      ensures u.requestsToday + u.remaining == u.dailyLimit
      ensures u.remaining > 0 <==> requestCount < DailyLimit
      ensures u.provider == Provider
    {
      Usage(requestCount, DailyLimit, DailyLimit - requestCount, Provider)
    }

    /** `generateFromArticleData(article, maxRetries)`. Besides the quiz it returns the attempts
        it made, which the source only logs. */
    method GenerateFromArticleData(article: Article, maxRetries: int,
                                   exchange: nat -> Exchange, parse: string -> QuizParse)
      returns (quiz: Quiz, attempts: seq<Attempt>)
      requires |modelPriority| > 0
      requires requestCount < DailyLimit ==> article.fullText.Some? && article.title.Some?
      modifies this
      ensures var o := Generate(modelPriority, old(currentModelIndex), old(requestCount), article,
                                maxRetries, exchange, parse);
        && quiz == o.quiz && attempts == o.attempts
        && currentModelIndex == o.modelIndex && requestCount == o.requestCount
    {
      if requestCount >= DailyLimit {
        quiz := FailedQuiz(DailyLimitMessage());
        attempts := [];
        return;
      }
      var prompt := ArticlePrompt(article);
      quiz, attempts := RetryLoop(Escape(prompt), maxRetries, exchange,
                                  DecideFor(article.tokenEstimate, maxRetries, exchange, parse));
    }

    /** One pass of the loop body up to the decision: pick the current model, build the request,
        take the reply, count it when it is a 2xx reply with a first choice, and decide. */
    method AttemptOnce(c: Call, retryCount: nat) returns (attempt: Attempt)
      requires c.models == modelPriority && |modelPriority| > 0
      modifies this
      ensures attempt == AttemptAt(c, retryCount, old(currentModelIndex))
      ensures currentModelIndex == old(currentModelIndex)
      ensures requestCount == if Counted(attempt.exchange) then old(requestCount) + 1 else old(requestCount)
    {
      var currentModel := GetCurrentModel();
      var requestBody := RequestBody(currentModel, c.escapedPrompt);
      var e := c.exchange(retryCount);
      if Counted(e) {
        requestCount := requestCount + 1;
      }
      var step := c.decide(retryCount, currentModel);
      attempt := Attempt(currentModel, requestBody, e, step);
    }

    /** The `while (retryCount <= maxRetries)` loop of `generateFromArticleData`, with what an
        attempt leads to given as `decide`. */
    method RetryLoop(escapedPrompt: string, maxRetries: int, exchange: nat -> Exchange,
                     decide: (nat, string) -> Step)
      returns (quiz: Quiz, attempts: seq<Attempt>)
      requires |modelPriority| > 0
      modifies this
      ensures var o := Loop(Call(modelPriority, escapedPrompt, maxRetries, exchange, decide),
                            0, old(currentModelIndex), old(requestCount));
        && quiz == o.quiz && attempts == o.attempts
        && currentModelIndex == o.modelIndex && requestCount == o.requestCount
    {
      attempts := [];
      var retryCount: nat := 0;
      var c := Call(modelPriority, escapedPrompt, maxRetries, exchange, decide);
      ghost var whole := Loop(c, 0, currentModelIndex, requestCount);
      ghost var rest := whole;
      assert whole.attempts == attempts + rest.attempts;
      while retryCount <= maxRetries
        invariant rest == Loop(c, retryCount, currentModelIndex, requestCount)
        invariant whole.attempts == attempts + rest.attempts
        invariant whole.(attempts := []) == rest.(attempts := [])
        decreases maxRetries - retryCount
      {
        LoopStep(c, retryCount, currentModelIndex, requestCount);
        ghost var done := attempts;
        var attempt := AttemptOnce(c, retryCount);
        attempts := attempts + [attempt];
        if !IsRetry(attempt.step) {
          quiz := FinalQuiz(attempt.step);
          return;
        }
        ghost var next := Loop(c, retryCount + 1, currentModelIndex + 1, requestCount);
        assert done + ([attempt] + next.attempts) == attempts + next.attempts;
        RotateModel();
        retryCount := retryCount + 1;
        rest := next;
      }
      quiz := FailedQuiz(MaxRetriesMessage);
      assert attempts + [] == attempts;
    }
  }
}
