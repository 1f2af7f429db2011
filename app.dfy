/**
 * App.tsx: the page of the quiz generator. Its React state becomes the
 * fields of `QuizPage`, and each handler becomes a method that updates
 * them. The awaited service call is split in two: `StartGenerate` is what
 * runs before the `await`, `FinishGenerate` what runs after it, and
 * `HandleGenerate` runs both around one call of the service model.
 */
module App {
  import opened Text
  import opened QuizTypes
  import GeminiService

  datatype Option<T> = None | Some(value: T)

  // a function rather than a const, so that proofs about the page do not see the literal unless they need it
  function BlankTopicError(): string { "Please enter a topic to generate questions." }
  const FailurePrefix := "Generation failed: "
  const UnknownError := "An unknown error occurred."
  const InitialQuestionCount := 10
  const DownloadSuffix := "_quiz.json"

  /** How the awaited service call ended: with its questions, or with the value it threw. */
  datatype Outcome = Returned(questions: seq<Question>) | Threw(thrown: GeminiService.Thrown)

  /** The service rejects with an `Error` whose message is the message of its error. */
  function FromService(r: GeminiService.Result<seq<Question>>): (o: Outcome)
    ensures o.Returned? <==> r.Success?
    ensures r.Success? ==> o.questions == r.value
    ensures r.Failure? ==> o.thrown.ErrorThrown? && o.thrown.message == r.error.Message()
  {
    match r
    case Success(qs) => Returned(qs)
    case Failure(e) => Threw(GeminiService.ErrorThrown(e.Message()))
  }

  /** The text the `catch` of `handleGenerate` puts in the error banner. */
  function FailureText(thrown: GeminiService.Thrown): (text: string)
    ensures |text| >= |FailurePrefix| && text[..|FailurePrefix|] == FailurePrefix
    ensures thrown.ErrorThrown? ==> text[|FailurePrefix|..] == thrown.message
    ensures thrown.NonErrorThrown? ==> text[|FailurePrefix|..] == UnknownError
  {
    FailurePrefix + (if thrown.ErrorThrown? then thrown.message else UnknownError)
  }

  /**
   * For a topic that is not blank, a failed generation always shows one of
   * the service's two failure messages after the prefix, and never the
   * unknown-error text: the service only ever throws an `Error`.
   */
  lemma ServiceFailureTexts(
    topic: string, count: int,
    model: string -> GeminiService.ModelReply, parse: string -> GeminiService.ParseResult)
    requires !IsBlank(topic)
    ensures var o := FromService(GeminiService.GenerateQuizQuestions(topic, count, model, parse));
      o.Threw? ==>
        && (FailureText(o.thrown) == FailurePrefix + GeminiService.JsonFailureMessage
            || FailureText(o.thrown) == FailurePrefix + GeminiService.GenericFailureMessage)
        && FailureText(o.thrown) != FailurePrefix + UnknownError
  {
    var r := GeminiService.GenerateQuizQuestions(topic, count, model, parse);
    if r.Failure? {
      assert r.error != GeminiService.EmptyTopic;
      assert |GeminiService.JsonFailureMessage| != |UnknownError|;
      assert |GeminiService.GenericFailureMessage| != |UnknownError|;
    }
  }

  // ---------------------------------------------------------------------
  // the download file name

  /**
   * The scan behind `s.replace(/\s+/g, '_')`: `inRun` says whether the
   * character before `s` was whitespace already replaced by an underscore.
   */
  function ReplaceRuns(s: string, inRun: bool): (r: string)
    ensures NoWhite(r)
    ensures |r| <= |s|
  {
    if s == [] then []
    else if !IsWhite(s[0]) then [s[0]] + ReplaceRuns(s[1..], false)
    else if inRun then ReplaceRuns(s[1..], true)
    else "_" + ReplaceRuns(s[1..], true)
  }

  /** `s.replace(/\s+/g, '_')`: every maximal run of whitespace becomes one underscore. */
  function ReplaceWhitespaceRuns(s: string): (r: string)
    ensures NoWhite(r)
    ensures |r| <= |s|
    ensures r == [] <==> s == []
  {
    ReplaceRuns(s, false)
  }

  lemma CharKept(c: char, rest: string, inRun: bool)
    requires !IsWhite(c)
    ensures ReplaceRuns([c] + rest, inRun) == [c] + ReplaceRuns(rest, false)
  {
    assert ([c] + rest)[1..] == rest;
  }

  /** Characters outside a whitespace run are copied unchanged. */
  lemma {:induction false} WordKept(p: string, s: string)
    requires NoWhite(p)
    ensures ReplaceWhitespaceRuns(p + s) == p + ReplaceWhitespaceRuns(s)
  {
    if p != [] {
      assert p + s == [p[0]] + (p[1..] + s);
      CharKept(p[0], p[1..] + s, false);
      WordKept(p[1..], s);
    } else {
      assert p + s == s;
    }
  }

  /** Inside a run, more whitespace adds nothing. */
  lemma {:induction false} RunAbsorbed(w: string, s: string)
    requires AllWhite(w)
    ensures ReplaceRuns(w + s, true) == ReplaceRuns(s, true)
  {
    if w != [] {
      assert (w + s)[0] == w[0];
      assert (w + s)[1..] == w[1..] + s;
      RunAbsorbed(w[1..], s);
    } else {
      assert w + s == s;
    }
  }

  /** A whole run of whitespace, however long, becomes a single underscore. */
  lemma RunBecomesUnderscore(w: string, s: string)
    requires w != [] && AllWhite(w)
    requires s == [] || !IsWhite(s[0])
    ensures ReplaceWhitespaceRuns(w + s) == "_" + ReplaceWhitespaceRuns(s)
  {
    assert (w + s)[0] == w[0];
    assert (w + s)[1..] == w[1..] + s;
    RunAbsorbed(w[1..], s);
    if s != [] {
      CharKept(s[0], s[1..], true);
      CharKept(s[0], s[1..], false);
      assert [s[0]] + s[1..] == s;
    }
  }

  /** A topic without whitespace is its own slug. */
  lemma NoWhiteUnchanged(s: string)
    requires NoWhite(s)
    ensures ReplaceWhitespaceRuns(s) == s
  {
    WordKept(s, []);
    assert s + [] == s;
  }

  lemma SuffixShape()
    ensures NoWhite(DownloadSuffix) && NoUpper(DownloadSuffix)
  {
  }

  lemma AppendShape(a: string, b: string)
    requires NoWhite(a) && NoUpper(a) && NoWhite(b) && NoUpper(b)
    ensures NoWhite(a + b) && NoUpper(a + b)
    ensures (a + b)[|a + b| - |b|..] == b
  {
  }

  /** `${topic.replace(/\s+/g, '_').toLowerCase()}_quiz.json`. */
  function DownloadFileName(topic: string): (name: string)
    ensures NoWhite(name) && NoUpper(name)
    ensures |name| >= |DownloadSuffix| && name[|name| - |DownloadSuffix|..] == DownloadSuffix
  {
    var slug := ToLower(ReplaceWhitespaceRuns(topic));
    SuffixShape();
    AppendShape(slug, DownloadSuffix);
    slug + DownloadSuffix
  }

  /** Two words separated by any run of whitespace are joined by one underscore. */
  lemma TwoWordSlug(w1: string, run: string, w2: string)
    requires w1 != [] && NoWhite(w1) && w2 != [] && NoWhite(w2)
    requires run != [] && AllWhite(run)
    ensures ReplaceWhitespaceRuns(w1 + run + w2) == w1 + "_" + w2
  {
    assert w1 + run + w2 == w1 + (run + w2);
    WordKept(w1, run + w2);
    RunBecomesUnderscore(run, w2);
    NoWhiteUnchanged(w2);
  }

  /** ... and the file is named after the two words in lower case. */
  lemma TwoWordFileName(w1: string, run: string, w2: string)
    requires w1 != [] && NoWhite(w1) && w2 != [] && NoWhite(w2)
    requires run != [] && AllWhite(run)
    ensures DownloadFileName(w1 + run + w2) == ToLower(w1) + "_" + ToLower(w2) + DownloadSuffix
  {
    TwoWordSlug(w1, run, w2);
    ToLowerAppend(w1, "_", w2);
  }

  // ---------------------------------------------------------------------
  // the page

  class QuizPage {
    var questions: seq<Question>
    var isLoading: bool
    var error: Option<string>
    var topic: string
    var questionCount: int
    var copied: bool

    /**
     * A generation in progress starts from a cleared page, and the
     * "Copied!" caption is only ever shown for questions that exist.
     */
    ghost predicate Valid()
      reads this
    {
      && (isLoading ==> questions == [] && !copied)
      && (copied ==> questions != [])
    }

    /** The initial `useState` values. */
    constructor()
      ensures Valid()
      ensures questions == [] && !isLoading && error == None
      ensures topic == "" && questionCount == InitialQuestionCount && !copied
    {
      questions := [];
      isLoading := false;
      error := None;
      topic := "";
      questionCount := InitialQuestionCount;
      copied := false;
    }

    /** `disabled={isLoading || !topic.trim()}` on the submit button. */
    function SubmitDisabled(): (disabled: bool)
      reads this
      ensures disabled <==> isLoading || AllWhite(topic)
    {
      isLoading || IsBlank(topic)
    }

    /** `questions.length > 0 && !isLoading`: the results with the copy and download buttons. */
    function ResultsVisible(): (visible: bool)
      reads this
      ensures visible ==> !isLoading
      ensures Valid() ==> (visible <==> questions != [])
    {
      |questions| > 0 && !isLoading
    }

    /** The topic text area's `onChange`. */
    method SetTopic(t: string)
      requires Valid()
      modifies this
      ensures Valid() && topic == t
      ensures questions == old(questions) && isLoading == old(isLoading) && error == old(error)
      ensures questionCount == old(questionCount) && copied == old(copied)
    {
      topic := t;
    }

    /** The count input's `onChange`. */
    method SetQuestionCount(n: int)
      requires Valid()
      modifies this
      ensures Valid() && questionCount == n
      ensures questions == old(questions) && isLoading == old(isLoading) && error == old(error)
      ensures topic == old(topic) && copied == old(copied)
    {
      questionCount := n;
    }

    /**
     * `handleGenerate` up to the `await`: a blank topic only sets the error
     * banner; otherwise the page is cleared and loading begins.
     */
    method StartGenerate() returns (started: bool)
      requires Valid()
      modifies this
      ensures Valid()
      ensures started <==> !IsBlank(old(topic))
      ensures !started ==>
        && error == Some(BlankTopicError())
        && questions == old(questions) && isLoading == old(isLoading) && copied == old(copied)
      ensures started ==> isLoading && error == None && questions == [] && !copied
      ensures topic == old(topic) && questionCount == old(questionCount)
    {
      started := !IsBlank(topic);
      if !started {
        error := Some(BlankTopicError());
        return;
      }
      isLoading := true;
      error := None;
      questions := [];
      copied := false;
    }

    /**
     * `handleGenerate` after the `await`: the questions on success, the
     * failure text on a rejection, and the end of loading either way.
     */
    method FinishGenerate(outcome: Outcome)
      requires Valid() && isLoading
      modifies this
      ensures Valid() && !isLoading
      ensures outcome.Returned? ==> questions == outcome.questions && error == old(error)
      ensures outcome.Threw? ==> questions == old(questions) && error == Some(FailureText(outcome.thrown))
      ensures topic == old(topic) && questionCount == old(questionCount) && copied == old(copied)
    {
      match outcome {
        case Returned(qs) =>
          questions := qs;
        case Threw(t) =>
          error := Some(FailureText(t));
      }
      isLoading := false;
    }

    /**
     * The whole of `handleGenerate`, with the service given the topic and
     * count the page held when the form was submitted.
     */
    method HandleGenerate(
      model: string -> GeminiService.ModelReply, parse: string -> GeminiService.ParseResult)
      returns (started: bool)
      requires Valid()
      modifies this
      ensures Valid()
      ensures started <==> !IsBlank(old(topic))
      ensures !started ==>
        && error == Some(BlankTopicError())
        && questions == old(questions) && isLoading == old(isLoading) && copied == old(copied)
      ensures started ==>
        var r := GeminiService.GenerateQuizQuestions(old(topic), old(questionCount), model, parse);
        && !isLoading && !copied
        && (r.Success? ==> questions == r.value && error == None)
        && (r.Failure? ==>
              && r.error != GeminiService.EmptyTopic
              && questions == []
              && error == Some(FailurePrefix + r.error.Message()))
      ensures topic == old(topic) && questionCount == old(questionCount)
    {
      started := StartGenerate();
      if started {
        var r := GeminiService.GenerateQuizQuestions(topic, questionCount, model, parse);
        FinishGenerate(FromService(r));
      }
    }

    /**
     * `handleCopy`: nothing without questions; otherwise the JSON is
     * written, and the caption turns to "Copied!" once the clipboard
     * accepts it.
     */
    method HandleCopy(clipboardAccepts: bool) returns (wrote: bool)
      requires Valid()
      modifies this
      ensures Valid()
      ensures wrote <==> old(questions) != []
      ensures copied == (if wrote && clipboardAccepts then true else old(copied))
      ensures questions == old(questions) && isLoading == old(isLoading) && error == old(error)
      ensures topic == old(topic) && questionCount == old(questionCount)
    {
      if |questions| == 0 {
        return false;
      }
      wrote := true;
      if clipboardAccepts {
        copied := true;
      }
    }

    /** The timer that `handleCopy` starts: the caption goes back to "Copy JSON". */
    method CopyResetElapsed()
      requires Valid()
      modifies this
      ensures Valid() && !copied
      ensures questions == old(questions) && isLoading == old(isLoading) && error == old(error)
      ensures topic == old(topic) && questionCount == old(questionCount)
    {
      copied := false;
    }

    /**
     * `handleDownload`: nothing without questions; otherwise the name of
     * the file the link downloads. The page state does not change.
     */
    method HandleDownload() returns (fileName: Option<string>)
      ensures fileName.None? <==> questions == []
      ensures fileName.Some? ==> fileName.value == DownloadFileName(topic)
    {
      if |questions| == 0 {
        return None;
      }
      fileName := Some(DownloadFileName(topic));
    }
  }
}
