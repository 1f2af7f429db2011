/**
 * The request/response pipeline of services/geminiService.ts: the count
 * clamp, the prompt, the response schema, and `generateQuizQuestions`.
 *
 * The generative-model call and `JSON.parse` are not code this model can
 * see; they are parameters. `model` maps the prompt to what the call and
 * the read of `response.text` produce, and `parse` maps the trimmed text
 * to what `JSON.parse` produces.
 */
module GeminiService {
  import opened Text
  import opened QuizTypes

  /** The three errors `generateQuizQuestions` throws to its caller, each an `Error` with a fixed message. */
  datatype ServiceError = EmptyTopic | JsonFailure | GenericFailure {
    function Message(): string {
      match this
      case EmptyTopic => EmptyTopicMessage
      case JsonFailure => JsonFailureMessage
      case GenericFailure => GenericFailureMessage
    }
  }

  /** A returned value, or the error thrown instead. */
  datatype Result<T> = Success(value: T) | Failure(error: ServiceError)

  /** What a `catch` receives: an `Error` with its message, or a thrown value of another kind. */
  datatype Thrown = ErrorThrown(message: string) | NonErrorThrown

  /** The outcome of the model call: the response text, or what the call threw. */
  datatype ModelReply = Reply(text: string) | CallFailed(thrown: Thrown)

  /**
   * A parsed JSON value, as far as the service looks at it: an array, whose
   * elements the unchecked cast takes as questions, or anything else.
   */
  datatype JsonValue = JsonArray(items: seq<Question>) | JsonNonArray

  /** `JSON.parse` either yields a value or throws a `SyntaxError` with some message. */
  datatype ParseResult = Parsed(value: JsonValue) | ParseError(message: string)

  const EmptyTopicMessage := "Topic cannot be empty."
  // the word JSON is kept apart so that proofs can look inside the message
  const NotArrayMessage := "API did not return a valid " + "JSON" + " array."
  const JsonFailureMessage := "The AI failed to generate a valid JSON response. Please try adjusting your topic or try again."
  const GenericFailureMessage := "Failed to generate quiz questions. An unexpected error occurred."

  const MinQuestions := 5
  const MaxQuestions := 20

  // ---------------------------------------------------------------------
  // the count clamp and the prompt

  /** `Math.max(5, Math.min(20, count))`. */
  function ClampCount(count: int): (n: nat)
    ensures MinQuestions <= n <= MaxQuestions
    ensures MinQuestions <= count <= MaxQuestions ==> n == count
    ensures count < MinQuestions ==> n == MinQuestions
    ensures count > MaxQuestions ==> n == MaxQuestions
  {
    var upper := if count < MaxQuestions then count else MaxQuestions;
    if upper > MinQuestions then upper else MinQuestions
  }

  const PromptHead := "\n    You are an intelligent educational quiz generator.\n    Your task is to create "
  const PromptAfterCount := " in JSON format based on the user's provided topic.\n\n    "
  const PromptAfterTopic := "\n\n    **Rules:**\n    1.  "
  const PromptTail :=
    ", factual, and educational questions.\n"
    + "    2.  Keep questions concise and contextually accurate to the topic.\n"
    + "    3.  \"Options\" array must contain exactly 3 related but incorrect answers (distractors).\n"
    + "    4.  \"CorrectAnswer\" field must hold the single correct answer.\n"
    + "    5.  \"Category\" should be a lowercase string reflecting the main subject of the topic (e.g., \"science\", \"islamic history\").\n"
    + "    6.  \"Difficulty\" must be \"medium\".\n"
    + "    7.  Maintain respect and cultural sensitivity.\n"
    + "    8.  Ensure no duplicate questions or answers within the generated set.\n"
    + "\n"
    + "    Return a pure JSON array of question objects that strictly adheres to the provided schema. Do not include any markdown, explanations, or text outside the JSON array.\n"
    + "  "

  /** The sentence of the prompt that fixes how many questions to create. */
  function CountPhrase(n: nat): string {
    "exactly " + NatToString(n) + " quiz questions"
  }

  /** The prompt line that quotes the topic. */
  function TopicLine(topic: string): string {
    "**Topic:** \"" + topic + "\""
  }

  /** The first rule, which repeats the count. */
  function CountRule(n: nat): string {
    "Generate exactly " + NatToString(n) + " unique"
  }

  /** The template of `getPrompt` for a clamped count `n`, up to the fixed `rules` text that ends it. */
  function Template(topic: string, n: nat, rules: string): string {
    PromptHead + CountPhrase(n) + PromptAfterCount + TopicLine(topic) + PromptAfterTopic + CountRule(n) + rules
  }

  /** The whole template of `getPrompt`, for an already clamped count `n`. */
  function PromptFor(topic: string, n: nat): string {
    Template(topic, n, PromptTail)
  }

  /**
   * The template asks for `n` questions, twice, and quotes the topic
   * verbatim.
   */
  lemma PromptStatesCountAndTopic(topic: string, n: nat)
    ensures Contains(PromptFor(topic, n), CountPhrase(n))
    ensures Contains(PromptFor(topic, n), CountRule(n))
    ensures Contains(PromptFor(topic, n), TopicLine(topic))
  {
    SlotsOccur(PromptHead, CountPhrase(n), PromptAfterCount, TopicLine(topic), PromptAfterTopic, CountRule(n), PromptTail);
  }

  /** `getPrompt(topic, count)`: the template filled with the clamped count. */
  function Prompt(topic: string, count: int): string {
    PromptFor(topic, ClampCount(count))
  }

  /** Each of the three slots of a seven-part template occurs in the whole. */
  lemma SlotsOccur(a: string, x: string, b: string, y: string, c: string, z: string, d: string)
    ensures Contains(a + x + b + y + c + z + d, x)
    ensures Contains(a + x + b + y + c + z + d, y)
    ensures Contains(a + x + b + y + c + z + d, z)
  {
    var p := a + x + b + y + c + z + d;
    assert p == a + x + (b + y + c + z + d);
    ContainsInfix(a, x, b + y + c + z + d);
    assert p == (a + x + b) + y + (c + z + d);
    ContainsInfix(a + x + b, y, c + z + d);
    assert p == (a + x + b + y + c) + z + d;
    ContainsInfix(a + x + b + y + c, z, d);
  }

  /**
   * The prompt depends on the requested count only through its clamp: a
   * count of 50 gives the same prompt as a count of 20, and 2 the same as 5.
   */
  lemma PromptUsesClampedCount(topic: string, c1: int, c2: int)
    requires ClampCount(c1) == ClampCount(c2)
    ensures Prompt(topic, c1) == Prompt(topic, c2)
  {
  }

  /** What follows the numeral in the first sentence of the template. */
  function AfterCountDigits(topic: string, n: nat, rules: string): string {
    " quiz questions" + PromptAfterCount + TopicLine(topic) + PromptAfterTopic + CountRule(n) + rules
  }

  lemma TemplateAroundCount(topic: string, n: nat, rules: string)
    ensures Template(topic, n, rules) == (PromptHead + "exactly ") + NatToString(n) + AfterCountDigits(topic, n, rules)
    ensures AfterCountDigits(topic, n, rules) != [] && AfterCountDigits(topic, n, rules)[0] == ' '
  {
    Regroup(PromptHead, "exactly ", NatToString(n), " quiz questions",
      PromptAfterCount, TopicLine(topic), PromptAfterTopic, CountRule(n), rules);
    assert " quiz questions"[0] == ' ';
  }

  /** Moving the brackets of the template so that the numeral stands alone. */
  lemma Regroup(h: string, e: string, d: string, q: string, b: string, y: string, c: string, z: string, t: string)
    requires q != []
    ensures h + (e + d + q) + b + y + c + z + t == (h + e) + d + (q + b + y + c + z + t)
    ensures (q + b + y + c + z + t)[0] == q[0]
  {
  }

  /** Whatever text ends it, the template gives its count away. */
  lemma {:induction false} TemplateInjective(topic: string, n1: nat, n2: nat, rules: string)
    requires Template(topic, n1, rules) == Template(topic, n2, rules)
    ensures n1 == n2
  {
    var h := PromptHead + "exactly ";
    var d1, d2 := NatToString(n1), NatToString(n2);
    var a1, a2 := AfterCountDigits(topic, n1, rules), AfterCountDigits(topic, n2, rules);
    TemplateAroundCount(topic, n1, rules);
    TemplateAroundCount(topic, n2, rules);
    NumeralBeforeSpace(h, d1, a1, d2, a2);
    NatToStringInjective(n1, n2);
  }

  /**
   * Conversely, the prompt gives the clamped count away: two requested
   * counts give the same prompt only when they clamp alike.
   */
  lemma PromptRevealsClampedCount(topic: string, c1: int, c2: int)
    requires Prompt(topic, c1) == Prompt(topic, c2)
    ensures ClampCount(c1) == ClampCount(c2)
  {
    TemplateInjective(topic, ClampCount(c1), ClampCount(c2), PromptTail);
  }

  // ---------------------------------------------------------------------
  // the response schema

  /** A structural descriptor as the model provider consumes it. */
  datatype Schema =
    | ArrayOf(items: Schema, description: string)
    | ObjectOf(properties: seq<Property>, required: seq<string>)
    | StringValue(description: string)

  datatype Property = Property(name: string, schema: Schema)

  function PropertyNames(ps: seq<Property>): (names: seq<string>)
    ensures |names| == |ps| && forall i :: 0 <= i < |ps| ==> names[i] == ps[i].name
  {
    seq(|ps|, i requires 0 <= i < |ps| => ps[i].name)
  }

  /**
   * `responseSchema`: an array of objects that have exactly the fields of
   * a question, all required; every field is a string except Options, an
   * array of strings. An absent description is written "".
   */
  function ResponseSchema(): (s: Schema)
    ensures s.ArrayOf? && s.items.ObjectOf?
    ensures PropertyNames(s.items.properties) == QuestionFieldNames
    ensures s.items.required == QuestionFieldNames
    ensures forall i :: 0 <= i < |s.items.properties| ==>
      var f := s.items.properties[i];
      if f.name == "Options" then f.schema.ArrayOf? && f.schema.items.StringValue? else f.schema.StringValue?
  {
    ArrayOf(
      ObjectOf(
        [ Property("Text", StringValue("The quiz question text.")),
          Property("Options", ArrayOf(StringValue(""), "A list of three realistic but incorrect answers (distractors).")),
          Property("CorrectAnswer", StringValue("The single correct answer.")),
          Property("Category", StringValue("The category or subject derived from the user topic.")),
          Property("Difficulty", StringValue("The difficulty level, must be \"medium\".")) ],
        ["Text", "Options", "CorrectAnswer", "Category", "Difficulty"]),
      "")
  }

  // ---------------------------------------------------------------------
  // generateQuizQuestions

  /** The `catch` block: every caught failure becomes one of two errors. */
  function Caught(t: Thrown): (e: ServiceError)
    ensures e != EmptyTopic
    ensures e == JsonFailure <==> t.ErrorThrown? && Contains(ToLower(t.message), "json")
  {
    if t.ErrorThrown? && Contains(ToLower(t.message), "json") then JsonFailure else GenericFailure
  }

  /** One run of the service: its result, and the prompts it sent to the model, in order. */
  datatype Run = Run(result: Result<seq<Question>>, sent: seq<string>)

  /** One call of the model: its reply, with the prompt added to the prompts sent so far. */
  function Call(model: string -> ModelReply, prompt: string, sent: seq<string>): (ModelReply, seq<string>) {
    (model(prompt), sent + [prompt])
  }

  /**
   * `generateQuizQuestions(topic, count)`, with every model call it makes
   * recorded: reject a blank topic, call the model with the prompt, trim
   * and parse its text, insist on an array, and map every failure inside
   * the `try` through the `catch`.
   */
  function GenerateRun(
    topic: string, count: int, model: string -> ModelReply, parse: string -> ParseResult
  ): (run: Run)
    ensures run.sent == (if IsBlank(topic) then [] else [Prompt(topic, count)])
    ensures run.result == Failure(EmptyTopic) <==> IsBlank(topic)
    ensures !IsBlank(topic) ==> run.result == Respond(model(Prompt(topic, count)), parse)
    ensures run.result.Success? ==>
      && model(Prompt(topic, count)).Reply?
      && parse(Trim(model(Prompt(topic, count)).text)) == Parsed(JsonArray(run.result.value))
  {
    if IsBlank(topic) then Run(Failure(EmptyTopic), [])
    else
      var (reply, sent) := Call(model, Prompt(topic, count), []);
      Run(Respond(reply, parse), sent)
  }

  /** `generateQuizQuestions(topic, count)`: what the caller receives. */
  function GenerateQuizQuestions(
    topic: string, count: int, model: string -> ModelReply, parse: string -> ParseResult
  ): (r: Result<seq<Question>>)
    ensures r == Failure(EmptyTopic) <==> IsBlank(topic)
    ensures !IsBlank(topic) ==> r == Respond(model(Prompt(topic, count)), parse)
    ensures r.Success? ==>
      && !IsBlank(topic)
      && model(Prompt(topic, count)).Reply?
      && parse(Trim(model(Prompt(topic, count)).text)) == Parsed(JsonArray(r.value))
  {
    GenerateRun(topic, count, model, parse).result
  }

  /**
   * The rest of the `try` block and its `catch`, once the model has
   * answered: trim the text, parse it, insist on an array.
   */
  function Respond(reply: ModelReply, parse: string -> ParseResult): (r: Result<seq<Question>>)
    ensures r != Failure(EmptyTopic)
    ensures r.Success? <==> reply.Reply? && parse(Trim(reply.text)).Parsed? && parse(Trim(reply.text)).value.JsonArray?
    ensures r.Success? ==> r.value == parse(Trim(reply.text)).value.items
  {
    match reply
    case CallFailed(thrown) => Failure(Caught(thrown))
    case Reply(text) =>
      match parse(Trim(text))
      case ParseError(message) => Failure(Caught(ErrorThrown(message)))
      case Parsed(JsonNonArray) => Failure(Caught(ErrorThrown(NotArrayMessage)))
      case Parsed(JsonArray(items)) => Success(items)
  }

  /** A blank topic is rejected before any call: the oracles do not matter. */
  lemma BlankTopicMakesNoCall(
    topic: string, count: int,
    model1: string -> ModelReply, parse1: string -> ParseResult,
    model2: string -> ModelReply, parse2: string -> ParseResult)
    requires IsBlank(topic)
    ensures GenerateRun(topic, count, model1, parse1) == Run(Failure(EmptyTopic), [])
    ensures GenerateRun(topic, count, model1, parse1) == GenerateRun(topic, count, model2, parse2)
  {
  }

  /**
   * The outcome depends only on the reply to the clamped prompt: two
   * models that answer that one prompt alike give the same outcome,
   * whatever else they answer.
   */
  lemma OutcomeDependsOnOneCall(
    topic: string, count: int,
    model1: string -> ModelReply, model2: string -> ModelReply, parse: string -> ParseResult)
    requires model1(PromptFor(topic, ClampCount(count))) == model2(PromptFor(topic, ClampCount(count)))
    ensures GenerateRun(topic, count, model1, parse) == GenerateRun(topic, count, model2, parse)
  {
  }

  /** Whitespace around the response text never changes the outcome. */
  lemma SurroundingWhitespaceIgnored(parse: string -> ParseResult, w1: string, text: string, w2: string)
    requires AllWhite(w1) && AllWhite(w2)
    ensures Respond(Reply(w1 + text + w2), parse) == Respond(Reply(text), parse)
  {
    TrimIgnoresSurroundingWhitespace(w1, text, w2);
  }

  /** A parsed array, empty or not, is returned as it is: same elements in the same order. */
  lemma ArrayPassesThrough(parse: string -> ParseResult, text: string, items: seq<Question>)
    requires parse(Trim(text)) == Parsed(JsonArray(items))
    ensures Respond(Reply(text), parse) == Success(items)
  {
  }

  /**
   * At the entry point: for a topic that is not blank, a reply whose
   * trimmed text parses to an array, empty or not, is returned as it is.
   */
  lemma ValidReplyReturned(
    topic: string, count: int, model: string -> ModelReply, parse: string -> ParseResult, items: seq<Question>)
    requires !IsBlank(topic)
    requires model(Prompt(topic, count)).Reply?
    requires parse(Trim(model(Prompt(topic, count)).text)) == Parsed(JsonArray(items))
    ensures GenerateQuizQuestions(topic, count, model, parse) == Success(items)
  {
    ArrayPassesThrough(parse, model(Prompt(topic, count)).text, items);
  }

  /** The not-an-array error mentions JSON, so the caller gets the JSON failure. */
  lemma NonArrayReportedAsJsonFailure(parse: string -> ParseResult, text: string)
    requires parse(Trim(text)) == Parsed(JsonNonArray)
    ensures Respond(Reply(text), parse) == Failure(JsonFailure)
  {
    MentionsJson("API did not return a valid ", " array.");
  }

  /** Any message with "JSON" in it mentions "json" once lower-cased. */
  lemma MentionsJson(a: string, c: string)
    ensures Contains(ToLower(a + "JSON" + c), "json")
  {
    ToLowerAppend(a, "JSON", c);
    assert ToLower("JSON") == "json";
    ContainsInfix(ToLower(a), "json", ToLower(c));
  }

  /**
   * A failure of the call or of parsing becomes the JSON failure exactly
   * when it is an `Error` whose lower-cased message mentions "json"; every
   * other failure, a non-`Error` throw included, becomes the generic one.
   */
  lemma FailureMapping(reply: ModelReply, parse: string -> ParseResult)
    ensures reply.CallFailed? ==>
      Respond(reply, parse) ==
        Failure(if reply.thrown.ErrorThrown? && Contains(ToLower(reply.thrown.message), "json") then JsonFailure else GenericFailure)
    ensures reply.Reply? && parse(Trim(reply.text)).ParseError? ==>
      Respond(reply, parse) ==
        Failure(if Contains(ToLower(parse(Trim(reply.text)).message), "json") then JsonFailure else GenericFailure)
  {
    match reply
    case CallFailed(thrown) =>
      assert Respond(reply, parse) == Failure(Caught(thrown));
    case Reply(text) =>
      if parse(Trim(text)).ParseError? {
        assert Respond(reply, parse) == Failure(Caught(ErrorThrown(parse(Trim(text)).message)));
      }
  }

  /** The three messages a caller can receive are distinct. */
  lemma MessagesDistinct(e1: ServiceError, e2: ServiceError)
    ensures e1.Message() == e2.Message() <==> e1 == e2
  {
    assert |EmptyTopicMessage| == 22;
    assert |GenericFailureMessage| == 64;
    assert |JsonFailureMessage| == 94;
  }
}
