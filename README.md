# Quiz generator: a verified model

This project models the logic of a small web app that asks a generative
language model for multiple-choice quiz questions on a topic and shows them.

- **Request/response pipeline** (`services/geminiService.ts`), module `GeminiService`:
  - clamps the requested number of questions to [5, 20] and builds the prompt;
  - rejects a blank topic before any call;
  - calls the model once, trims its text and parses it;
  - insists on a JSON array;
  - maps every failure inside the `try` to one of two user messages.

  The model call and `JSON.parse` are oracles, given as function-typed parameters:
  - `model: string -> ModelReply` answers a prompt with text or with a thrown value;
  - `parse: string -> ParseResult` turns text into a JSON value or fails with a message.

  This makes the whole service a total function from the topic, the count and the two oracles to a result or an error.
- **Display rules** (`components/QuestionCard.tsx`), module `QuestionCard`:
  - the badge colour from the normalised category;
  - the displayed choices, which are the options plus the correct answer in shuffled order;
  - which choices are marked correct;
  - the card heading.

  The random comparator sort is modelled as an arbitrary list of swaps, and the model proves that every rearrangement can be reached that way.
- **Category filter** (`components/CategoryFilter.tsx`), module `CategoryFilter`: the "all" button followed by one button per category, capitalised captions, the highlighted button and the effect of a click.
- **Page state** (`App.tsx`), module `App`: class `QuizPage` holds the React state fields `questions`, `isLoading`, `error`, `topic`, `questionCount` and `copied`.
  - Each handler is a method.
  - `handleGenerate` is split at its `await` into `StartGenerate` and `FinishGenerate`.
  - `HandleGenerate` runs the two halves around one call of the service model.
  - The invariant `Valid` holds throughout: a running generation starts from a cleared page, and "Copied!" is only shown while there are questions.
  - The download file name is a pure function.
- **Data** (`types.ts`): module `QuizTypes` defines `Question`, with `Difficulty` as a three-way enum.
- **Shared string operations**, module `Text`:
  - whitespace, `trim` and its properties;
  - `toLowerCase`, `includes`;
  - decimal numerals with their round trip.

A question is a value. Building the display list therefore cannot change the question's options. The source ensures the same by copying the array before its in-place sort.

## Model

| member | source | states |
|---|---|---|
| GeminiService.ClampCount | services/geminiService.ts:28 | the effective count lies in [5, 20]; it equals the request when that is in range, is 5 below the range and 20 above it |
| GeminiService.PromptStatesCountAndTopic | services/geminiService.ts:26-48 | the prompt for a count N (`Prompt` is this prompt at the clamped count) contains "exactly N quiz questions" and "Generate exactly N unique" for the clamped N, and the topic quoted verbatim after "**Topic:**" |
| GeminiService.PromptUsesClampedCount | services/geminiService.ts:26-28 | two requested counts with the same clamp give the same prompt |
| GeminiService.PromptRevealsClampedCount | services/geminiService.ts:26-37 | conversely, two requested counts that give the same prompt have the same clamp, so the prompt determines the effective count |
| GeminiService.TemplateInjective | services/geminiService.ts:30-37 | whatever the fixed rule text, the prompt text determines the count written into it: the numeral stands between "exactly " and " quiz questions" |
| GeminiService.ResponseSchema | services/geminiService.ts:7-24 | the schema is an array of objects whose properties and required list are exactly Text, Options, CorrectAnswer, Category and Difficulty, in that order; Options is an array of strings and every other field is a string |
| GeminiService.Caught | services/geminiService.ts:79-85 | a caught failure becomes the JSON failure exactly when it is an Error whose lower-cased message contains "json", and the generic failure otherwise; it is never the blank-topic error |
| GeminiService.GenerateRun | services/geminiService.ts:50-86 | the prompts sent to the model: none for a blank topic, and otherwise exactly one, the prompt at the clamped count, with no retry; the outcome is the blank-topic error exactly when the topic is blank, and otherwise it is what Respond makes of the reply to that one prompt |
| GeminiService.GenerateQuizQuestions | services/geminiService.ts:50-86 | the blank-topic error occurs exactly when the topic is blank; for any other topic the result is what Respond makes of the model's reply to the prompt, so the properties of Respond below hold for the entry point; a success is the array the trimmed reply parsed to |
| GeminiService.ValidReplyReturned | services/geminiService.ts:58-78 | for a topic that is not blank, a reply whose trimmed text parses to an array, empty or not, is returned as that array |
| GeminiService.Respond | services/geminiService.ts:60-85 | after the call: success holds exactly when the reply is text and the trimmed text parses to an array, and the returned list is that array's elements; the blank-topic error never comes from here |
| GeminiService.BlankTopicMakesNoCall | services/geminiService.ts:54-56 | for a blank topic no prompt is sent and the outcome is the blank-topic error, whatever the model and parser would do |
| GeminiService.OutcomeDependsOnOneCall | services/geminiService.ts:58-69 | two models that answer the clamped prompt alike give the same run, prompts sent and outcome: the outcome depends only on the reply to that one prompt |
| GeminiService.SurroundingWhitespaceIgnored | services/geminiService.ts:71-72 | whitespace around the reply text never changes the outcome |
| GeminiService.ArrayPassesThrough | services/geminiService.ts:72-78 | a parsed array, empty or not, is returned unchanged |
| GeminiService.NonArrayReportedAsJsonFailure | services/geminiService.ts:74-76 | a parsed value that is not an array ends in the JSON failure, because the not-an-array message mentions JSON |
| GeminiService.MentionsJson | services/geminiService.ts:75 | any message containing "JSON" contains "json" once lower-cased |
| GeminiService.FailureMapping | services/geminiService.ts:79-84 | a failed call or a parse error becomes the JSON failure exactly when it is an Error whose lower-cased message contains "json"; a non-Error throw always becomes the generic failure |
| GeminiService.MessagesDistinct | services/geminiService.ts:55-84 | the blank-topic, JSON-failure and generic-failure messages are pairwise different |
| Text.Trim | services/geminiService.ts:71 | the trimmed text is no longer than the input and neither starts nor ends with whitespace |
| Text.TrimSplits | services/geminiService.ts:71 | every string is its trimmed text with whitespace before and after it, so trimming drops only surrounding whitespace and keeps the middle unchanged |
| Text.TrimKeepsCore | services/geminiService.ts:71 | a string that neither starts nor ends with whitespace is its own trim; with TrimIgnoresSurroundingWhitespace, trimming whitespace + t + whitespace gives exactly t |
| Text.IsBlank | services/geminiService.ts:54 | `!topic.trim()` holds exactly when every character of the topic is whitespace |
| Text.TrimOfAllWhite | services/geminiService.ts:71 | a string made only of whitespace trims to the empty string |
| Text.TrimPrependWhite | services/geminiService.ts:71 | whitespace before a string does not change its trim |
| Text.TrimAppendWhite | services/geminiService.ts:71 | whitespace after a string with some other character does not change its trim |
| Text.TrimIgnoresSurroundingWhitespace | services/geminiService.ts:71 | trimming a string with whitespace added on either side gives the same result as trimming the string |
| Text.TrimIdempotent | services/geminiService.ts:71 | trimming twice gives the same result as trimming once |
| Text.ToLower | components/QuestionCard.tsx:10 | `toLowerCase` keeps the length and leaves no capital |
| Text.ToLowerUpToCase | components/QuestionCard.tsx:10 | every character keeps its upper-case form; with "no capital" this fixes each capital as its own lower-case letter and every other character as itself |
| Text.ToLowerKeepsLower | components/QuestionCard.tsx:10 | a string without capitals is unchanged by lower-casing |
| Text.ToLowerAppend | App.tsx:47 | lower-casing works character by character, so it distributes over concatenation |
| Text.Contains | services/geminiService.ts:81 | `includes` holds only when the searched text is at least as long as the sought one, and always for the empty string |
| Text.ContainsInfix | services/geminiService.ts:81 | a string built as a + sub + b includes sub |
| Text.ContainsSplits | services/geminiService.ts:81 | conversely, a string that includes sub is a + sub + b for some a and b |
| Text.NatToString | services/geminiService.ts:32 | the interpolated count is a non-empty string of decimal digits with no leading zero |
| Text.ParseNatToString | components/QuestionCard.tsx:39 | reading back the printed numeral gives the number |
| Text.NatToStringInjective | services/geminiService.ts:37 | different numbers print as different numerals |
| QuestionCard.RemoveWhite | components/QuestionCard.tsx:10 | removing `\s+` matches leaves no whitespace, is no longer than the input, and brings in no capitals |
| QuestionCard.RemoveWhiteKeepsNoWhite | components/QuestionCard.tsx:10 | a string without whitespace is left unchanged |
| QuestionCard.RemoveWhiteAppend | components/QuestionCard.tsx:10 | removal works piecewise: on a concatenation it is the concatenation of the removals, so every other character is kept in order |
| QuestionCard.RemoveWhiteOfWhite | components/QuestionCard.tsx:10 | a string made only of whitespace is removed entirely |
| QuestionCard.NormalizeCategory | components/QuestionCard.tsx:10 | the switch key has no whitespace and no capitals, and is no longer than the category |
| QuestionCard.NormalizeIdempotent | components/QuestionCard.tsx:10 | normalising twice gives the same key as normalising once |
| QuestionCard.CategoryColor | components/QuestionCard.tsx:9-23 | blue exactly for "science", purple exactly for "technology", amber exactly for "history" or "islamichistory", emerald exactly for "sports", slate exactly for every other key |
| QuestionCard.ColorOfNormalizedCategory | components/QuestionCard.tsx:10 | the colour depends only on the normalised category |
| QuestionCard.SpacingIgnored | components/QuestionCard.tsx:10 | any run of whitespace between two parts of a category leaves the key unchanged |
| QuestionCard.CaseIgnored | components/QuestionCard.tsx:10 | lower-casing a category first leaves the key unchanged |
| QuestionCard.IslamicHistoryIsAmber | components/QuestionCard.tsx:15-17 | "Islamic" and "History" separated by any whitespace, capitalised or not, normalise to "islamichistory" and get the amber badge |
| QuestionCard.Shuffle | components/QuestionCard.tsx:32 | a shuffled list has the same length and the same elements with the same multiplicities |
| QuestionCard.ShuffleReachesEveryPermutation | components/QuestionCard.tsx:32 | every rearrangement of the list is the outcome of some shuffle |
| QuestionCard.DisplayChoices | components/QuestionCard.tsx:32 | the displayed choices are a permutation of the options followed by the correct answer, one longer than the options |
| QuestionCard.Marks | components/QuestionCard.tsx:47-48 | a choice is marked correct exactly when it equals the correct answer |
| QuestionCard.MarkedCount | components/QuestionCard.tsx:47-48 | the number of marked choices is the number of times the correct answer occurs among them |
| QuestionCard.CorrectChoiceMarked | components/QuestionCard.tsx:32-48 | however the choices are shuffled, at least one is marked; the count is one more than the answer's occurrences among the options, so exactly one is marked when the options do not contain it |
| QuestionCard.CardHeading | components/QuestionCard.tsx:39 | the heading is "Question " followed by digits that read back as index + 1 |
| CategoryFilter.AllCategories | components/CategoryFilter.tsx:13 | the list is "all" followed by the categories in their order, one longer than they are |
| CategoryFilter.Label | components/CategoryFilter.tsx:27 | a caption has the category's length, its first character upper-cased and the rest unchanged |
| CategoryFilter.LabelIdempotent | components/CategoryFilter.tsx:27 | capitalising a caption again changes nothing |
| CategoryFilter.LabelOfAll | components/CategoryFilter.tsx:27 | "all" is captioned "All" and the empty category stays empty |
| CategoryFilter.Buttons | components/CategoryFilter.tsx:17-27 | one button per listed category, in order, captioned by Label and highlighted exactly when its category is the active one |
| CategoryFilter.OneHighlighted | components/CategoryFilter.tsx:22 | with distinct categories other than "all", at most one button is highlighted, and one is exactly when the active category is listed |
| CategoryFilter.Click | components/CategoryFilter.tsx:20 | clicking a button selects that button's category, and the next render highlights that button |
| App.FromService | App.tsx:29-33 | the awaited call returns exactly when the service succeeds, and then returns its questions; a service failure always arrives in the `catch` as an Error carrying the service's message |
| App.FailureText | App.tsx:33-34 | the banner text is "Generation failed: " followed by the Error's message, or by "An unknown error occurred." for any other thrown value |
| App.ServiceFailureTexts | App.tsx:29-34 | for a non-blank topic, a failed generation shows the prefix followed by one of the service's two failure messages, and never the unknown-error text |
| App.ReplaceWhitespaceRuns | App.tsx:47 | the slug has no whitespace, is no longer than the topic, and is empty exactly when the topic is |
| App.WordKept | App.tsx:47 | characters other than whitespace are copied unchanged |
| App.RunBecomesUnderscore | App.tsx:47 | a whole run of whitespace, however long, becomes one underscore |
| App.NoWhiteUnchanged | App.tsx:47 | a topic without whitespace is its own slug |
| App.TwoWordSlug | App.tsx:47 | two words separated by any whitespace are joined by one underscore |
| App.DownloadFileName | App.tsx:47 | the file name has no whitespace and no capitals, and ends with "_quiz.json" |
| App.TwoWordFileName | App.tsx:47 | two words separated by whitespace give the two words lower-cased, joined by "_", followed by "_quiz.json" |
| App.QuizPage.constructor | App.tsx:9-14 | the page starts with no questions, not loading, no error, an empty topic, a count of 10 and no "Copied!" |
| App.QuizPage.SubmitDisabled | App.tsx:106 | the submit button is disabled exactly when loading or when the topic is all whitespace |
| App.QuizPage.ResultsVisible | App.tsx:126 | results are never shown while loading; on a valid page they are shown exactly when there are questions |
| App.QuizPage.SetTopic | App.tsx:83 | only the topic changes |
| App.QuizPage.SetQuestionCount | App.tsx:96 | only the count changes |
| App.QuizPage.StartGenerate | App.tsx:16-26 | a blank topic only sets the "Please enter a topic" error and starts nothing; otherwise loading starts with no error, no questions and no "Copied!"; the invariant is kept |
| App.QuizPage.FinishGenerate | App.tsx:28-37 | success stores exactly the returned questions and leaves the error as it was; a rejection sets the failure text; either way loading ends and the invariant is kept |
| App.QuizPage.HandleGenerate | App.tsx:16-38 | the whole handler: for a non-blank topic, a successful service call leaves exactly its questions and no error; a failed one leaves no questions and "Generation failed: " followed by the service's message; loading has ended either way |
| App.QuizPage.HandleCopy | App.tsx:51-58 | nothing is written without questions; otherwise the JSON is written, and "Copied!" turns on exactly when the clipboard accepts it; nothing else changes |
| App.QuizPage.CopyResetElapsed | App.tsx:56 | the timer turns "Copied!" off and changes nothing else |
| App.QuizPage.HandleDownload | App.tsx:40-49 | no file without questions; otherwise the download is named by DownloadFileName of the topic; the page does not change |

## Left out

- The `GoogleGenAI` client, the API key, the model name, `responseMimeType` and `temperature`. These are configuration of a network call; the call itself is the `model` oracle.
- A reply without a `text` field makes `.trim()` throw a TypeError. The model covers this as the `model` oracle throwing, `CallFailed(ErrorThrown(m))`.
- The internals of `JSON.parse`: the `parse` oracle stands for it, and which of its error messages mention "json" is left to the oracle. The elements of a parsed array are taken as `Question` values unchecked, as the source's cast does.
- `async`, `await` and promises. Every handler runs to completion before the next one starts. In particular, the clipboard write settles inside `HandleCopy`.
- App.QuizPage.Valid: "Copied!" implies questions only under that sequential reading. A clipboard promise that settles after a new generation has started is not modelled.
- The uniformity of `Math.random` in the comparator sort. Any order is possible, and nothing is said about how likely each one is.
- Clipboard contents, `JSON.stringify` formatting, `encodeURIComponent`, the anchor element and `link.click()`, `console.error`, and the 2-second delay of the `copied` reset. The reset is a method with no notion of time.
- JSX markup, the Tailwind class strings (reduced to five colours), the loading indicator, and the button captions "Generating..."/"Generate Quiz" and "Copied!"/"Copy JSON".
- components/Header.tsx and components/QuestionList.tsx: static markup, and a map into cards behind an emptiness check.
- `Number(e.target.value)` can yield NaN or a fraction. The count is an unbounded integer.
- Unicode: lower- and upper-casing act on ASCII letters only, and whitespace is the ASCII part of JavaScript's `\s`.
- GeminiService.ResponseSchema: a description that the source leaves out is written as the empty string. The wording of the descriptions is carried but not reasoned about.
- GeminiService.Prompt: its properties are stated by the lemmas PromptStatesCountAndTopic, PromptUsesClampedCount and PromptRevealsClampedCount rather than by its own contract, which would unfold the long prompt text in every proof about the service.
- GeminiService.PromptStatesCountAndTopic: the fixed rule text of the prompt (rules 2 to 8 and the closing instruction) is carried verbatim but not reasoned about.
