/** The answer endpoint: the round-robin choice of an API key and the
    handler's decisions around the completion call — validating the
    question, choosing the system prompt from the topic, falling back when no
    answer came back, and turning a thrown value into an error response.
    The completion service itself is a parameter. */
module AnswerRoute {

  datatype Option<T> = None | Some(value: T)

  // ---------------------------------------------------------------------------
  // Request values

  /** A field of the decoded request body, as far as the handler inspects it:
      absent, `null`, a string, or any other JSON value, given by whether it is
      truthy and by what a template literal makes of it. That is its text, or a
      thrown value: an object whose own `toString` is not a function, such as
      `{"toString": 0}`, makes the conversion throw a `TypeError`. */
  datatype JsValue = Undefined | Null | Str(s: string) | Other(truthy: bool, text: Outcome<string>)

  /** The result of evaluating an expression that may throw. */
  datatype Outcome<T> = Ok(value: T) | Throws(thrown: Thrown)

  /** JavaScript truthiness. */
  predicate Truthy(v: JsValue) {
    match v
    case Undefined => false
    case Null => false
    case Str(s) => s != ""
    case Other(t, _) => t
  }

  /** What `${v}` evaluates to: a text, or the value the conversion throws. */
  function Display(v: JsValue): (r: Outcome<string>)
    ensures v.Str? ==> r == Ok(v.s)
    ensures r.Throws? ==> v.Other?
  {
    match v
    case Undefined => Ok("undefined")
    case Null => Ok("null")
    case Str(s) => Ok(s)
    case Other(_, text) => text
  }

  /** The request as `req.json()` and the destructuring see it. A body that is
      not JSON, or is JSON `null` (which cannot be destructured), throws an
      `Error` with some message: `Unreadable`. Any other JSON value gives its
      `question` and `topic` fields; a number, string, boolean or array body
      has neither, so it reads as `Body(Undefined, Undefined)`. */
  datatype RequestBody = Unreadable(message: string) | Body(question: JsValue, topic: JsValue)

  const InvalidQuestion := "Invalid question provided."
  const NoAnswer := "No answer generated"
  const FailedToGetAnswer := "Failed to get answer"

  /** The question passes the check at line 41: it is a non-empty string. */
  predicate ValidQuestion(q: JsValue)
    ensures ValidQuestion(q) <==> q.Str? && q.s != ""
  {
    !(!Truthy(q) || !q.Str?)
  }

  // ---------------------------------------------------------------------------
  // The system prompt

  const PromptPrefix := "You are a helpful coding assistant specializing in "
  const PromptSuffix := ". Provide smaller, clear, concise answers to coding questions. Just send the codes like a txt also without '```'. If and only if it is HTML, CSS, JS combined question, then send like this 'HTML: <html> CSS: <style> JAVASCRIPT: <script>'"

  /** The prompt used when no topic is given, written out as one literal. */
  const DefaultPrompt := "You are a helpful coding assistant specializing in Java, HTML, CSS, JavaScript. Provide smaller, clear, concise answers to coding questions. Just send the codes like a txt also without '```'. If and only if it is HTML, CSS, JS combined question, then send like this 'HTML: <html> CSS: <style> JAVASCRIPT: <script>'"

  /** The system prompt: a truthy topic is interpolated into the template,
      which throws when the topic's conversion to text throws; otherwise the
      fixed default prompt is used. */
  function SystemPrompt(topic: JsValue): (p: Outcome<string>)
    ensures Truthy(topic) && Display(topic).Ok? ==> p == Ok(PromptPrefix + Display(topic).value + PromptSuffix)
    ensures Truthy(topic) && Display(topic).Throws? ==> p == Display(topic)
    ensures !Truthy(topic) ==> p == Ok(DefaultPrompt)
  {
    if Truthy(topic) then
      match Display(topic)
      case Ok(text) => Ok(PromptPrefix + text + PromptSuffix)
      case Throws(t) => Throws(t)
    else Ok(DefaultPrompt)
  }

  /** Two truthy topics that give the same prompt render to the same text, so
      the prompt names its topic. Topics with the same text, such as the number
      5 and the string "5", do give the same prompt. */
  lemma PromptDeterminesTopic(a: JsValue, b: JsValue)
    requires Truthy(a) && Truthy(b) && SystemPrompt(a) == SystemPrompt(b)
    ensures Display(a) == Display(b)
  {
    if Display(a).Ok? && Display(b).Ok? {
      var p := SystemPrompt(a).value;
      var n, m := |PromptPrefix|, |PromptSuffix|;
      assert p[n..|p| - m] == Display(a).value;
      assert p[n..|p| - m] == Display(b).value;
    }
  }

  // ---------------------------------------------------------------------------
  // The completion and the response

  /** A value caught by the handler: an `Error` with its message, or anything else. */
  datatype Thrown = ErrorObject(message: string) | NonErrorValue

  datatype Message = Message(content: Option<string>)
  datatype Choice = Choice(message: Option<Message>)

  /** What the completion call produces: its choices, or a thrown value. */
  datatype Completion = Completed(choices: seq<Choice>) | Threw(thrown: Thrown)

  /** The completion service, given the API key, the system prompt and the question. */
  type CompletionService = (string, string, string) -> Completion

  /** `completion.choices[0]?.message?.content`: a content exists only when
      there is a first choice and it has a message, and then it is that
      message's content. */
  function FirstContent(choices: seq<Choice>): (c: Option<string>)
    ensures c.Some? ==> choices != [] && choices[0].message.Some? && choices[0].message.value.content == c
    ensures choices != [] && choices[0].message.Some? ==> c == choices[0].message.value.content
    ensures choices == [] || choices[0].message.None? ==> c.None?
  {
    if choices == [] then None
    else match choices[0].message
      case None => None
      case Some(m) => m.content
  }

  /** `content || "No answer generated"`: the answer is never empty, and is the
      content whenever there is a non-empty one. */
  function AnswerText(content: Option<string>): (a: string)
    ensures a != ""
    ensures content.Some? && content.value != "" ==> a == content.value
    ensures a == NoAnswer <==> content.None? || content.value == "" || content.value == NoAnswer
  {
    if content.Some? && content.value != "" then content.value else NoAnswer
  }

  /** `error instanceof Error ? error.message : "Failed to get answer"`. */
  function ErrorMessage(t: Thrown): (m: string)
    ensures t.ErrorObject? ==> m == t.message
    ensures t.NonErrorValue? ==> m == FailedToGetAnswer
  {
    match t
    case ErrorObject(message) => message
    case NonErrorValue => FailedToGetAnswer
  }

  datatype ResponseBody = AnswerBody(answer: string) | ErrorBody(error: string)

  /** A response as status and JSON body; `Response.json` without options is status 200. */
  datatype Response = Response(status: int, body: ResponseBody)

  /** The response the `catch` block builds: always status 500, with the
      message the caught value gives. */
  function ErrorResponse(t: Thrown): (r: Response)
    ensures r.status == 500 && r.body.ErrorBody?
    ensures r.body.error == ErrorMessage(t)
  {
    Response(500, ErrorBody(ErrorMessage(t)))
  }

  /** The request gets past validation, so the handler takes a key. */
  predicate Advances(body: RequestBody) {
    body.Body? && ValidQuestion(body.question)
  }

  /** The response `POST` gives for `body` when the next key is `key`. */
  function Respond(key: string, body: RequestBody, groq: CompletionService): (r: Response)
    ensures r.status == 500 <==> r.body.ErrorBody?
    ensures r.status == 200 <==> r.body.AnswerBody?
    ensures r.body.AnswerBody? ==> r.body.answer != ""
    ensures !Advances(body) ==> r.body.ErrorBody?
  {
    match body
    case Unreadable(message) => ErrorResponse(ErrorObject(message))
    case Body(question, topic) =>
      if !ValidQuestion(question) then ErrorResponse(ErrorObject(InvalidQuestion))
      else
        match SystemPrompt(topic)
        case Throws(t) => ErrorResponse(t)
        case Ok(prompt) =>
          match groq(key, prompt, question.s)
          case Threw(t) => ErrorResponse(t)
          case Completed(choices) => Response(200, AnswerBody(AnswerText(FirstContent(choices))))
  }

  /** A missing, falsy or non-string question is answered with status 500 and
      the invalid-question message, and the completion service is not consulted. */
  lemma InvalidQuestionRejected(key: string, question: JsValue, topic: JsValue, groq: CompletionService)
    requires !Truthy(question) || !question.Str?
    ensures Respond(key, Body(question, topic), groq) == Response(500, ErrorBody(InvalidQuestion))
    ensures !Advances(Body(question, topic))
  {
  }

  /** A valid question is sent, with the chosen key and prompt; a completion
      gives status 200 and its answer text. */
  lemma CompletedAnswered(key: string, question: string, topic: JsValue, groq: CompletionService)
    requires question != "" && SystemPrompt(topic).Ok?
    requires groq(key, SystemPrompt(topic).value, question).Completed?
    ensures Respond(key, Body(Str(question), topic), groq)
      == Response(200, AnswerBody(AnswerText(FirstContent(groq(key, SystemPrompt(topic).value, question).choices))))
  {
  }

  /** A value thrown by the completion call becomes status 500 with the
      error's message, or the generic message for anything that is not an `Error`. */
  lemma FailureReported(key: string, question: string, topic: JsValue, groq: CompletionService)
    requires question != "" && SystemPrompt(topic).Ok?
    requires groq(key, SystemPrompt(topic).value, question).Threw?
    ensures var t := groq(key, SystemPrompt(topic).value, question).thrown;
      Respond(key, Body(Str(question), topic), groq)
        == Response(500, ErrorBody(if t.ErrorObject? then t.message else FailedToGetAnswer))
  {
  }

  /** A request that could not be read becomes status 500 with the message
      of the `Error` thrown while reading it, and no key is taken. */
  lemma UnreadableReported(key: string, message: string, groq: CompletionService)
    ensures Respond(key, Unreadable(message), groq) == Response(500, ErrorBody(message))
    ensures !Advances(Unreadable(message))
  {
  }

  /** A valid question whose truthy topic cannot be turned into text gets
      status 500 with the message of what the conversion threw, after the key
      has been taken; the completion service is not consulted. */
  lemma TopicConversionReported(key: string, question: string, topic: JsValue, groq: CompletionService)
    requires question != "" && Truthy(topic) && Display(topic).Throws?
    ensures Respond(key, Body(Str(question), topic), groq)
      == Response(500, ErrorBody(ErrorMessage(Display(topic).thrown)))
    ensures Advances(Body(Str(question), topic))
  {
  }

  // ---------------------------------------------------------------------------
  // Key rotation

  /** The number of API keys the endpoint rotates through. */
  const KeyCount := 5

  /** The keys handed out by `n` consecutive calls starting at index `start`. */
  function KeysFrom(keys: seq<string>, start: nat, n: nat): (r: seq<string>)
    requires |keys| == KeyCount
    ensures |r| == n
  {
    seq(n, j requires 0 <= j < n => keys[(start + j) % KeyCount])
  }

  /** Any five consecutive calls hand out every key exactly once. */
  lemma FiveCallsEachKeyOnce(keys: seq<string>, start: nat)
    requires |keys| == KeyCount
    ensures multiset(KeysFrom(keys, start, KeyCount)) == multiset(keys)
  {
    var s := start % KeyCount;
    var w := KeysFrom(keys, start, KeyCount);
    forall j | 0 <= j < KeyCount
      ensures w[j] == (keys[s..] + keys[..s])[j]
    {
      if j < KeyCount - s {
        assert (start + j) % KeyCount == s + j;
      } else {
        assert (start + j) % KeyCount == s + j - KeyCount;
      }
    }
    assert w == keys[s..] + keys[..s];
    assert keys[..s] + keys[s..] == keys;
  }

  /** The module-level rotation state: the fixed keys and the index of the
      next one to hand out. `calls` counts the calls made so far. */
  class KeyRotation {
    const apiKeys: seq<string>
    var currentKeyIndex: nat
    ghost var calls: nat

    ghost predicate Valid()
      reads this
    {
      |apiKeys| == KeyCount && currentKeyIndex < |apiKeys| && currentKeyIndex == calls % KeyCount
    }

    constructor(keys: seq<string>)
      requires |keys| == KeyCount
      ensures Valid() && apiKeys == keys && currentKeyIndex == 0 && calls == 0
    {
      apiKeys := keys;
      currentKeyIndex := 0;
      calls := 0;
    }

    /** `getNextApiKey`: hands out the key at the current index and moves the
        index on by one, wrapping around; the k-th call from the start hands
        out key k modulo five. */
    method GetNextApiKey() returns (key: string)
      requires Valid()
      modifies this
      ensures Valid()
      ensures key == apiKeys[old(currentKeyIndex)]
      ensures currentKeyIndex == (old(currentKeyIndex) + 1) % |apiKeys|
      ensures calls == old(calls) + 1
      ensures key == apiKeys[old(calls) % KeyCount]
    {
      key := apiKeys[currentKeyIndex];
      currentKeyIndex := (currentKeyIndex + 1) % |apiKeys|;
      calls := calls + 1;
    }

    /** `n` calls of `getNextApiKey` in a row, as `n` successive valid requests
        make them: they hand out the keys from the current call count on. */
    method NextKeys(n: nat) returns (ks: seq<string>)
      requires Valid()
      modifies this
      ensures Valid()
      ensures ks == KeysFrom(apiKeys, old(calls), n)
      ensures calls == old(calls) + n
    {
      ks := [];
      var i := 0;
      while i < n
        invariant 0 <= i <= n && Valid()
        invariant calls == old(calls) + i
        invariant ks == KeysFrom(apiKeys, old(calls), i)
      {
        var key := GetNextApiKey();
        ks := ks + [key];
        i := i + 1;
      }
    }

    /** Five calls in a row from any state hand out each key exactly once. */
    method FiveNextKeys() returns (ks: seq<string>)
      requires Valid()
      modifies this
      ensures Valid()
      ensures multiset(ks) == multiset(apiKeys)
    {
      ghost var start := calls;
      ks := NextKeys(KeyCount);
      FiveCallsEachKeyOnce(apiKeys, start);
    }

    /** `POST`: the response is the one `Respond` gives with the key at the
        current index, and the index moves on exactly when the question is valid. */
    method Post(body: RequestBody, groq: CompletionService) returns (response: Response)
      requires Valid()
      modifies this
      ensures Valid()
      ensures response == Respond(old(apiKeys[currentKeyIndex]), body, groq)
      ensures currentKeyIndex == if Advances(body) then (old(currentKeyIndex) + 1) % KeyCount else old(currentKeyIndex)
      ensures calls == if Advances(body) then old(calls) + 1 else old(calls)
    {
      match body {
        case Unreadable(message) =>
          response := ErrorResponse(ErrorObject(message));
        case Body(question, topic) =>
          if !Truthy(question) || !question.Str? {
            response := ErrorResponse(ErrorObject(InvalidQuestion));
          } else {
            var apiKey := GetNextApiKey();
            var content := SystemPrompt(topic);
            match content {
              case Throws(t) =>
                response := ErrorResponse(t);
              case Ok(prompt) =>
                var completion := groq(apiKey, prompt, question.s);
                match completion {
                  case Threw(t) =>
                    response := ErrorResponse(t);
                  case Completed(choices) =>
                    var answer := AnswerText(FirstContent(choices));
                    response := Response(200, AnswerBody(answer));
                }
            }
          }
      }
    }
  }
}
