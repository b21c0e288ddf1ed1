# Quiz generator core in Dafny

This project models the core of a Java quiz generator. It covers three parts:

- **`ArticleCleaner`** turns the text Jsoup extracts from an article body into a bounded,
  normalised `cleanText`. It then builds `fullText` and a token estimate from the article's
  title and subtitle.
- **`GroqAIService`** holds two mutable fields, `currentModelIndex` and `requestCount`.
  - `generateFromArticleData` first checks a daily-limit gate (10 requests).
  - It then runs a `while (retryCount <= maxRetries)` loop. Each pass picks a model from a
    rotating list of three, escapes the prompt, builds the request body and classifies the
    outcome.
  - An outcome is one of: a quiz, a rate-limited retry after `30*(retryCount+1)` seconds, an
    immediate retry after a 400, or a failed `Quiz`.
  - The pure helpers are modelled too: prompt assembly (12000-char cap, 40-char title preview),
    the five-step escape chain, fence removal, JSON-span recovery and the error messages.
- **`Article`, `Quiz` and `Question`** are modelled as datatypes with their small helpers.

Files and modules:

| file | module | contents |
|---|---|---|
| `wrappers.dfy` | `Wrappers` | `Option`, `Result` |
| `java_strings.dfy` | `JavaStrings` | Java string behaviour over `seq<char>`: `trim` (every char ≤ U+0020), regex `\s` (the six chars ` \t\n\x0B\f\r`), `\s+` → `" "`, `contains`, `lastIndexOf`, `indexOf`, `replace`, `Integer.toString`, ASCII case mapping, and null printing as `"null"` |
| `question.dfy`, `quiz.dfy`, `article.dfy` | `QuestionModel`, `QuizModel`, `ArticleModel` | the records; every nullable field is an `Option` |
| `article_cleaner.dfy` | `ArticleCleaner` | `split("\\r?\\n")`, the line filter, citation removal, smart truncation, and the methods `JoinLines`, `Truncate`, `CleanHtmlContent` and `ExtractFromJson` |
| `groq_prompt.dfy` | `GroqPrompt` | `createEfficientPrompt`, the escape chain with its decoder, the request body |
| `groq_response.dfy` | `GroqResponse` | `MARKDOWN_PATTERN` replacement, `JSON_PATTERN` and the brace fallback |
| `groq_service.dfy` | `GroqService` | reply classification, the loop as a function (`Loop`, `Generate`), and the class `GroqAIService` |

How the foreign parts enter the model:

- **HTTP replies are an input.** Attempt `i` of a call receives `exchange(i)`. An `Exchange`
  is one of:
  - an IOException before a reply;
  - a non-2xx reply with what Jackson made of its body;
  - a 2xx reply without choices;
  - another exception;
  - a 2xx reply whose content is null;
  - a completion text.
- **Jackson's reading of the recovered JSON is an input** `parse`.
- **Jsoup's output is an input.** The cleaner receives the string `Jsoup.clean(..)` returns,
  or `None` when that step throws.

The class methods are proved against the pure specification:

- `GenerateFromArticleData` ensures its quiz, its attempts and both new field values equal
  those of `Generate`, evaluated on the fields' old values.
- The `while` loop sits in `RetryLoop`. That method takes the per-attempt decision as a
  function value, and its invariant ties the attempts made so far to `Loop`.
- The lemmas about `Loop` then state what the source promises: bounds, model rotation, the
  counter, the final quiz and rate-limit behaviour.

Behaviour that is easy to misread (the model follows the code):

- **The smart cut.** It happens only when the last `". "` lies strictly after index 4200
  (`lastPeriod > MAX_LENGTH * 0.7`, and `6000 * 0.7` is exactly 4200.0). An index of exactly
  4200 gives a hard cut.
- **10-char lines are kept.** A line is dropped only when it is *shorter* than 10 chars once
  trimmed. So a 10-char line such as `"Short line"` is kept (`ArticleCleaner.TwoWordLineKept`).
- **Kept lines can shrink to nothing.** The length test runs before normalisation, so a kept
  line can end up empty (`ArticleCleaner.KeptLineCanVanish`).
- **Citation removal is a single pass.** `"[[1]2]"` becomes `"[2]"`, a citation that stays
  (`ArticleCleaner.SinglePassLeavesExposedCitation`).
- **Only 2xx replies are counted.** `requestCount` moves only for a 2xx reply with a first
  choice, never for a 429 or 400 reply: those throw before line 185 (`GroqService.Counted`,
  `GroqService.LoopCount`).

## Model

Source paths are relative to the repository root.

| member | source | states |
|---|---|---|
| QuestionModel.GetOption | quiz-generator-java/src/main/java/com/mine/quizgen/model/Question.java:28-30 | null without options or without the upper-cased key; otherwise the mapped value of the upper-cased letter |
| QuestionModel.OptionLetterIgnoresCase | quiz-generator-java/src/main/java/com/mine/quizgen/model/Question.java:28-30 | `getOption("b") == getOption("B")`: the lookup is the same for a letter, its upper case and its lower case |
| QuestionModel.IsCorrect | quiz-generator-java/src/main/java/com/mine/quizgen/model/Question.java:32-34 | false when the correct answer or the answer is null; otherwise true exactly when both agree once upper-cased |
| QuestionModel.AnswerIgnoresCase | quiz-generator-java/src/main/java/com/mine/quizgen/model/Question.java:32-34 | the answer's case never changes the verdict |
| QuestionModel.CorrectLetterExample | quiz-generator-java/src/main/java/com/mine/quizgen/model/Question.java:32-34 | with correct answer "C", "c" and "C" are correct, while "D" and null are not |
| QuizModel.NewQuiz | quiz-generator-java/src/main/java/com/mine/quizgen/model/Quiz.java:29-34 | a fresh Quiz has success true, apiProvider "Groq", and null errorMessage, questions, modelUsed and tokenEstimate |
| QuizModel.FailedQuiz | quiz-generator-java/src/main/java/com/mine/quizgen/service/GroqAIService.java:96-98 | every failure the service returns is a fresh Quiz with success false, the given message and null questions |
| QuizModel.GetQuestionCount | quiz-generator-java/src/main/java/com/mine/quizgen/model/Quiz.java:37-39 | 0 for a null list, the list's size otherwise (0 for an empty list) |
| QuizModel.FailedQuizHasNoQuestions | quiz-generator-java/src/main/java/com/mine/quizgen/model/Quiz.java:32-39 | a failed quiz counts 0 questions and keeps provider "Groq" |
| ArticleModel.EmptyArticle | quiz-generator-java/src/main/java/com/mine/quizgen/model/Article.java:9-33 | `new Article()` has id, title, cleanText, fullText, both lengths and the token estimate unset |
| ArticleModel.GetAuthorDisplayName | quiz-generator-java/src/main/java/com/mine/quizgen/model/Article.java:54-56 | null without an author, the author's display name otherwise |
| ArticleModel.GetFullTitle | quiz-generator-java/src/main/java/com/mine/quizgen/model/Article.java:59-64 | the title when the subtitle is null or empty, otherwise a value |
| ArticleModel.EmptySubtitleIsAbsent | quiz-generator-java/src/main/java/com/mine/quizgen/model/Article.java:60 | an empty subtitle gives the same full title as a null one |
| ArticleModel.FullTitleLayout | quiz-generator-java/src/main/java/com/mine/quizgen/model/Article.java:61 | with a non-empty subtitle the full title is the title ("null" when absent), then ": ", then the subtitle |
| JavaStrings.Trim | quiz-generator-java/src/main/java/com/mine/quizgen/service/ArticleCleaner.java:40 | trim never lengthens the text, and a non-empty result begins and ends with a char above U+0020 |
| JavaStrings.TrimSpec | quiz-generator-java/src/main/java/com/mine/quizgen/service/ArticleCleaner.java:40 | trim returns a slice of its input cut only at chars ≤ U+0020, and that slice begins and ends with other chars |
| JavaStrings.TrimEmptyIff | quiz-generator-java/src/main/java/com/mine/quizgen/service/ArticleCleaner.java:22 | `trim().isEmpty()` holds exactly when every char is ≤ U+0020 |
| JavaStrings.CollapsedResult | quiz-generator-java/src/main/java/com/mine/quizgen/service/ArticleCleaner.java:43 | after `\s+` → " " the only whitespace is ' ' and no two whitespace chars are adjacent |
| JavaStrings.CollapseWhitespace | quiz-generator-java/src/main/java/com/mine/quizgen/service/ArticleCleaner.java:43 | collapsing never lengthens the text, is empty exactly when the text is, starts with whitespace exactly when the text does, and keeps a non-whitespace first char |
| JavaStrings.CollapseConcat | quiz-generator-java/src/main/java/com/mine/quizgen/service/ArticleCleaner.java:43 | a cut right after a non-whitespace char splits the collapse: the two sides are collapsed on their own and concatenated |
| JavaStrings.CollapseJoinsRuns | quiz-generator-java/src/main/java/com/mine/quizgen/service/ArticleCleaner.java:43 | a whitespace run between non-whitespace chars (or the ends of the text) becomes exactly one ' ', and the text on either side is collapsed on its own, so every other char is kept in order |
| JavaStrings.CollapseFixpoint | quiz-generator-java/src/main/java/com/mine/quizgen/service/ArticleCleaner.java:51 | collapsing an already collapsed text changes nothing, so the second collapse is idempotent |
| JavaStrings.LastIndexOf | quiz-generator-java/src/main/java/com/mine/quizgen/service/ArticleCleaner.java:56 | -1 or an index where the pattern occurs, with no occurrence after it |
| JavaStrings.NatToStringRoundTrip | quiz-generator-java/src/main/java/com/mine/quizgen/service/GroqAIService.java:156 | the decimal text of a number reads back as that number |
| JavaStrings.CaseInsensitive | quiz-generator-java/src/main/java/com/mine/quizgen/model/Question.java:33 | equalsIgnoreCase holds exactly when the upper-cased strings are equal, and is unaffected by re-casing one side |
| ArticleCleaner.SplitLines | quiz-generator-java/src/main/java/com/mine/quizgen/service/ArticleCleaner.java:36 | `split("\\r?\\n")` with limit 0; its contents are stated by SplitLinesSpec |
| ArticleCleaner.SegmentsSpec | quiz-generator-java/src/main/java/com/mine/quizgen/service/ArticleCleaner.java:36 | splitting at `\r?\n` gives one piece more than there are line feeds, none holding a line feed; joined with "\n" the pieces give back the text with each "\r\n" read as "\n", so they are exactly the text between the breaks |
| ArticleCleaner.DropTrailingEmpty | quiz-generator-java/src/main/java/com/mine/quizgen/service/ArticleCleaner.java:36 | what is kept is a prefix of the pieces, every piece dropped is empty, and the last piece kept is not |
| ArticleCleaner.SplitLinesSpec | quiz-generator-java/src/main/java/com/mine/quizgen/service/ArticleCleaner.java:36 | a text without a line feed is the single line it is; otherwise the lines are the pieces in order up to the last non-empty one, every dropped piece is empty, and no line holds a line feed, so there are at most line feeds + 1 lines |
| ArticleCleaner.CitationLength | quiz-generator-java/src/main/java/com/mine/quizgen/service/ArticleCleaner.java:17 | the match at the front is `[`, one or more digits, `]`, or there is none; a text that is itself a citation is matched |
| ArticleCleaner.CitationAtFront | quiz-generator-java/src/main/java/com/mine/quizgen/service/ArticleCleaner.java:17 | a citation at the front is matched whole, whatever text follows it |
| ArticleCleaner.RemoveCitations | quiz-generator-java/src/main/java/com/mine/quizgen/service/ArticleCleaner.java:44 | never lengthens the text and leaves text without '[' unchanged; the whole left-to-right scan is stated by CitationFreeKept, CitationAtFront and CitationDeleted |
| ArticleCleaner.CitationFreeKept | quiz-generator-java/src/main/java/com/mine/quizgen/service/ArticleCleaner.java:44 | text in which no citation starts (stray '[' included) is kept char for char, and the scan goes on after it |
| ArticleCleaner.CitationDeleted | quiz-generator-java/src/main/java/com/mine/quizgen/service/ArticleCleaner.java:44 | a citation inside text is deleted: text in which no citation starts, a citation, then the rest clean to that text followed by the cleaned rest |
| ArticleCleaner.CitationAfterPlainText | quiz-generator-java/src/main/java/com/mine/quizgen/service/ArticleCleaner.java:44 | the same for text without '[' before the citation |
| ArticleCleaner.CitationAfterStrayBracket | quiz-generator-java/src/main/java/com/mine/quizgen/service/ArticleCleaner.java:44 | a stray '[' is kept and a later citation still goes: "[a][3]" cleans to "[a]" |
| ArticleCleaner.CitationRemoved | quiz-generator-java/src/main/java/com/mine/quizgen/service/ArticleCleaner.java:44 | a lone citation such as "[3]" disappears completely |
| ArticleCleaner.SinglePassLeavesExposedCitation | quiz-generator-java/src/main/java/com/mine/quizgen/service/ArticleCleaner.java:44 | the one pass turns "[[1]2]" into "[2]", which is still a citation |
| ArticleCleaner.LineContribution | quiz-generator-java/src/main/java/com/mine/quizgen/service/ArticleCleaner.java:40-47 | a line shorter than 10 chars once trimmed adds nothing; any other adds its collapsed, citation-free form and a space |
| ArticleCleaner.ShortLinesContributeNothing | quiz-generator-java/src/main/java/com/mine/quizgen/service/ArticleCleaner.java:41 | lines that are all shorter than 10 chars once trimmed build an empty text |
| ArticleCleaner.OnlyShortLinesCleanToEmpty | quiz-generator-java/src/main/java/com/mine/quizgen/service/ArticleCleaner.java:36-62 | a body of short lines only cleans to "" |
| ArticleCleaner.KeptLineCanVanish | quiz-generator-java/src/main/java/com/mine/quizgen/service/ArticleCleaner.java:40-47 | a citation of 10 or more chars passes the length test and then contributes only the separating space |
| ArticleCleaner.TwoWordLineKept | quiz-generator-java/src/main/java/com/mine/quizgen/service/ArticleCleaner.java:41-47 | two words and one space, 10 chars in all (such as "Short line"), are kept exactly as they stand |
| ArticleCleaner.NormalizedShape | quiz-generator-java/src/main/java/com/mine/quizgen/service/ArticleCleaner.java:47-51 | the joined text has no whitespace at either end and never two whitespace chars in a row |
| ArticleCleaner.CutPoint | quiz-generator-java/src/main/java/com/mine/quizgen/service/ArticleCleaner.java:55-61 | the cut is just after the last ". " of the first 6000 chars when that lies strictly after 4200, otherwise at 6000; so it lies between 4202 and 6000 |
| ArticleCleaner.SmartTruncate | quiz-generator-java/src/main/java/com/mine/quizgen/service/ArticleCleaner.java:54-62 | text of at most 6000 chars is unchanged; longer text is a prefix up to the cut point plus " [truncated]"; the result is at most 6012 chars |
| ArticleCleaner.TruncationSteps | quiz-generator-java/src/main/java/com/mine/quizgen/service/ArticleCleaner.java:55-61 | the substring/lastIndexOf steps of the source compute the smart truncation |
| ArticleCleaner.CleanText | quiz-generator-java/src/main/java/com/mine/quizgen/service/ArticleCleaner.java:36-62 | the text after splitting, filtering, joining, trimming, collapsing and truncation; its bounds are stated by CleanTextBounds |
| ArticleCleaner.CleanTextBounds | quiz-generator-java/src/main/java/com/mine/quizgen/service/ArticleCleaner.java:54-62 | cleanText is at most 6012 chars, and normalised text of at most 6000 chars is returned without a marker |
| ArticleCleaner.CleanedArticle | quiz-generator-java/src/main/java/com/mine/quizgen/service/ArticleCleaner.java:20-73 | a null or blank body, or a throwing Jsoup step, gives an empty Article; otherwise exactly an empty Article with cleanText set to the cleaned text, originalLength to the raw HTML length and cleanedLength to the cleaned length |
| ArticleCleaner.JoinLines | quiz-generator-java/src/main/java/com/mine/quizgen/service/ArticleCleaner.java:38-48 | the StringBuilder loop builds exactly the kept lines' contributions in order |
| ArticleCleaner.Truncate | quiz-generator-java/src/main/java/com/mine/quizgen/service/ArticleCleaner.java:53-62 | the truncation step yields the smart truncation of its input |
| ArticleCleaner.CleanHtmlContent | quiz-generator-java/src/main/java/com/mine/quizgen/service/ArticleCleaner.java:20-73 | the method returns the cleaned Article of its inputs |
| ArticleCleaner.FullText | quiz-generator-java/src/main/java/com/mine/quizgen/service/ArticleCleaner.java:83-88 | the StringBuilder's text: title, then "\n\n" + subtitle when non-empty, then "\n\n" + cleanText; its layout is stated by FullTextLayout |
| ArticleCleaner.FullTextLayout | quiz-generator-java/src/main/java/com/mine/quizgen/service/ArticleCleaner.java:83-90 | fullText starts with the title and ends with "\n\n" + cleanText ("null" when absent); without a subtitle it is just those two, and with one, "\n\n" + subtitle sits between them |
| ArticleCleaner.ExtractFromJson | quiz-generator-java/src/main/java/com/mine/quizgen/service/ArticleCleaner.java:75-105 | a parse failure or null title gives an empty Article; otherwise the parsed article with cleanText, fullText, tokenEstimate = len/4 and both lengths from the cleaned body |
| GroqPrompt.CappedText | quiz-generator-java/src/main/java/com/mine/quizgen/service/GroqAIService.java:54-56 | text of at most 12000 chars is unchanged; longer text is its first 12000 chars + "... [truncated]" |
| GroqPrompt.CappedTextBounds | quiz-generator-java/src/main/java/com/mine/quizgen/service/GroqAIService.java:54-56 | the capped text is at most 12015 chars and starts with the first min(12000, len) chars of the text |
| GroqPrompt.TitlePreviewIsPrefix | quiz-generator-java/src/main/java/com/mine/quizgen/service/GroqAIService.java:58-59 | the preview is the first min(40, len) chars of the title |
| GroqPrompt.CreateEfficientPrompt | quiz-generator-java/src/main/java/com/mine/quizgen/service/GroqAIService.java:53-92 | the prompt text; what it contains is stated by PromptMentions |
| GroqPrompt.PromptMentions | quiz-generator-java/src/main/java/com/mine/quizgen/service/GroqAIService.java:61-91 | the prompt contains "ARTICLE TITLE: " + title, the capped text, the title preview and the article id ("null" when absent) |
| GroqPrompt.Escape | quiz-generator-java/src/main/java/com/mine/quizgen/service/GroqAIService.java:115-120 | the five chained replaces; their meaning is stated by EscapeIsCharwise and EscapeRoundTrip |
| GroqPrompt.EscapeChar | quiz-generator-java/src/main/java/com/mine/quizgen/service/GroqAIService.java:115-120 | a char the chain does not replace stays itself |
| GroqPrompt.EscapeIsCharwise | quiz-generator-java/src/main/java/com/mine/quizgen/service/GroqAIService.java:115-120 | the five chained replaces equal escaping each char on its own, because backslashes are doubled first |
| GroqPrompt.EscapeConcat | quiz-generator-java/src/main/java/com/mine/quizgen/service/GroqAIService.java:115-120 | escaping distributes over concatenation |
| GroqPrompt.EscapeRoundTrip | quiz-generator-java/src/main/java/com/mine/quizgen/service/GroqAIService.java:115-120 | decoding the five escapes gives the prompt back |
| GroqPrompt.EscapeHasNoRawBreak | quiz-generator-java/src/main/java/com/mine/quizgen/service/GroqAIService.java:115-120 | the escaped prompt has no raw line feed, carriage return or tab |
| GroqPrompt.EscapeKeepsOtherControls | quiz-generator-java/src/main/java/com/mine/quizgen/service/GroqAIService.java:115-120 | any other control char below U+0020 passes through raw |
| GroqPrompt.RequestBody | quiz-generator-java/src/main/java/com/mine/quizgen/service/GroqAIService.java:123-138 | the JSON request text; what it carries is stated by RequestBodyCarries |
| GroqPrompt.RequestBodyCarries | quiz-generator-java/src/main/java/com/mine/quizgen/service/GroqAIService.java:123-138 | the request body names the attempt's model and carries the escaped prompt |
| GroqResponse.FenceLength | quiz-generator-java/src/main/java/com/mine/quizgen/service/GroqAIService.java:34 | the match at the front never runs past the text; what it is, is stated by FenceLengthSpec |
| GroqResponse.FenceLengthSpec | quiz-generator-java/src/main/java/com/mine/quizgen/service/GroqAIService.java:34 | after "```json" the match takes the whole whitespace run; otherwise a match is a whitespace run followed by "```"; no match means neither "```json" nor "```" after any whitespace prefix |
| GroqResponse.FenceLengthPositive | quiz-generator-java/src/main/java/com/mine/quizgen/service/GroqAIService.java:34 | every match holds a fence, so it is never empty |
| GroqResponse.RemoveFences | quiz-generator-java/src/main/java/com/mine/quizgen/service/GroqAIService.java:188 | removing fences never lengthens the text; the whole left-to-right scan is stated by FenceFreeKept, FenceLengthSpec and FenceDeleted |
| GroqResponse.FenceFreeKept | quiz-generator-java/src/main/java/com/mine/quizgen/service/GroqAIService.java:188 | text in which no match starts (stray backticks included) is kept char for char, and the scan goes on after it |
| GroqResponse.FenceDeleted | quiz-generator-java/src/main/java/com/mine/quizgen/service/GroqAIService.java:188 | a fence inside text is deleted: text in which no match starts, a match, then the rest come out as that text followed by what the rest comes out as |
| GroqResponse.TripleFreeNoFence | quiz-generator-java/src/main/java/com/mine/quizgen/service/GroqAIService.java:34 | inline code is no fence: in text without "```" that ends in a non-whitespace char and is followed by a non-backtick, no match starts |
| GroqResponse.NoFenceUnchanged | quiz-generator-java/src/main/java/com/mine/quizgen/service/GroqAIService.java:188 | text without a backtick passes unchanged |
| GroqResponse.KeptBeforeFences | quiz-generator-java/src/main/java/com/mine/quizgen/service/GroqAIService.java:188 | a backtick-free prefix ending in a non-space is kept as it is |
| GroqResponse.FencedReply | quiz-generator-java/src/main/java/com/mine/quizgen/service/GroqAIService.java:188 | "```json\n" + body + "\n```" loses both fences and gives back the body, when the body does not start with whitespace (the opening match would take it) and no match starts inside it; inline backticks are kept |
| GroqResponse.FindFrom | quiz-generator-java/src/main/java/com/mine/quizgen/service/GroqAIService.java:33 | the greedy find: the leftmost '{' that has a '}' after it, through the last '}', or none when no such pair exists |
| GroqResponse.PatternAgreesWithFallback | quiz-generator-java/src/main/java/com/mine/quizgen/service/GroqAIService.java:191-199 | the regex branch and the indexOf/lastIndexOf fallback select the same span |
| GroqResponse.FallbackSpan | quiz-generator-java/src/main/java/com/mine/quizgen/service/GroqAIService.java:196-199 | the fallback finds a span exactly when some '}' follows some '{'; the span runs from the first '{' to the last '}' |
| GroqResponse.ExtractJson | quiz-generator-java/src/main/java/com/mine/quizgen/service/GroqAIService.java:191-204 | the `find()`-or-fallback step: recovered text is at least 2 chars, starts with '{' and ends with '}'; which span it is, is stated by ExtractJsonIsFallback |
| GroqResponse.ExtractJsonIsFallback | quiz-generator-java/src/main/java/com/mine/quizgen/service/GroqAIService.java:191-203 | whichever branch finds it, the recovered text is the first-'{'-to-last-'}' span, and otherwise the error |
| GroqResponse.ExtractJsonFoundIff | quiz-generator-java/src/main/java/com/mine/quizgen/service/GroqAIService.java:191-203 | JSON is recovered exactly when some '}' follows some '{' |
| GroqResponse.ExtractJsonShape | quiz-generator-java/src/main/java/com/mine/quizgen/service/GroqAIService.java:192-199 | the recovered text is a slice of the cleaned text, beginning at its first '{' |
| GroqResponse.ExtractJsonMissing | quiz-generator-java/src/main/java/com/mine/quizgen/service/GroqAIService.java:200-203 | otherwise the IOException message is "No valid JSON found in response: " + the first ≤100 chars + "..." |
| GroqResponse.RecoverJson | quiz-generator-java/src/main/java/com/mine/quizgen/service/GroqAIService.java:188-204 | whatever the reply, recovered JSON is at least 2 chars, starting with '{' and ending with '}' |
| GroqResponse.FencedObjectRecovered | quiz-generator-java/src/main/java/com/mine/quizgen/service/GroqAIService.java:188-199 | a fenced reply whose body is one JSON object in which no match starts yields exactly that object |
| GroqResponse.FencedObjectWithInlineCode | quiz-generator-java/src/main/java/com/mine/quizgen/service/GroqAIService.java:188-199 | the same for any JSON object without "```": single or double backticks inside it are kept |
| GroqService.DailyLimitMessageText | quiz-generator-java/src/main/java/com/mine/quizgen/service/GroqAIService.java:98 | the gate message reads "Daily limit (10) reached" |
| GroqService.ModelRotation | quiz-generator-java/src/main/java/com/mine/quizgen/service/GroqAIService.java:22-26 | index k names `modelPriority[k mod 3]`; rotation wraps every three steps, and consecutive indices name different models |
| GroqService.Perform | quiz-generator-java/src/main/java/com/mine/quizgen/service/GroqAIService.java:151-207 | only a completion text can yield a quiz; an I/O failure, a non-2xx reply or a reply without choices is an IOException; other failures are other exceptions |
| GroqService.Status429IsRateLimit | quiz-generator-java/src/main/java/com/mine/quizgen/service/GroqAIService.java:154-170 | a non-2xx reply with status 429 always raises an IOException whose message contains "429", whatever the body |
| GroqService.Classify | quiz-generator-java/src/main/java/com/mine/quizgen/service/GroqAIService.java:217-257 | the IOException handler never succeeds, and asks for a retry only while `retryCount < maxRetries` |
| GroqService.ClassifySpec | quiz-generator-java/src/main/java/com/mine/quizgen/service/GroqAIService.java:217-257 | "429" is tested before "400"; a retry happens only with retries left; a 429 waits 30*(retryCount+1) s; a 429 without retries left gives the rate-limit message; anything else gives "Groq API error: " + at most 200 chars, or "Unknown error" |
| GroqService.DecideSpec | quiz-generator-java/src/main/java/com/mine/quizgen/service/GroqAIService.java:207-264 | only a parsed quiz succeeds, stamped with the model, the token estimate and "Groq" and otherwise as parsed; only an IOException retries; other exceptions end the call with "Unexpected error: " |
| GroqService.CallForBounded | quiz-generator-java/src/main/java/com/mine/quizgen/service/GroqAIService.java:222-250 | the service's decision asks for a retry only while `retryCount < maxRetries` |
| GroqService.Loop | quiz-generator-java/src/main/java/com/mine/quizgen/service/GroqAIService.java:109-266 | the while loop from a retry count on, as a function; its behaviour is stated by LoopAttempts, LoopCount, LoopResult and LoopSteps |
| GroqService.LoopAttempts | quiz-generator-java/src/main/java/com/mine/quizgen/service/GroqAIService.java:109-266 | between 1 and maxRetries+1 attempts; attempt i uses the model at index start+i; the index grows by the number of retries; every attempt but the last is a retry and the last ends the call |
| GroqService.LoopCount | quiz-generator-java/src/main/java/com/mine/quizgen/service/GroqAIService.java:185 | the counter rises by exactly one per 2xx reply with a first choice (even when JSON recovery then fails) and never falls |
| GroqService.LoopResult | quiz-generator-java/src/main/java/com/mine/quizgen/service/GroqAIService.java:214-264 | the call returns the last attempt's quiz, or a fresh failed Quiz with the last step's message |
| GroqService.LoopSteps | quiz-generator-java/src/main/java/com/mine/quizgen/service/GroqAIService.java:109-215 | attempt i received reply i and took the step that reply calls for with the model it used |
| GroqService.SuccessStamped | quiz-generator-java/src/main/java/com/mine/quizgen/service/GroqAIService.java:207-214 | a successful call returns Jackson's quiz from the last reply with modelUsed = that attempt's model, the article's token estimate, and provider "Groq" |
| GroqService.RateLimitStorm | quiz-generator-java/src/main/java/com/mine/quizgen/service/GroqAIService.java:222-237 | when every reply is a 429, all maxRetries+1 attempts are made, waiting 30, 60, 90 … s and rotating each time; the call ends with "Rate limit exceeded. Try again later.", the counter unchanged |
| GroqService.Generate | quiz-generator-java/src/main/java/com/mine/quizgen/service/GroqAIService.java:94-272 | the daily-limit gate, then the loop from retry 0; its behaviour is stated by DailyLimitGate and the Loop lemmas |
| GroqService.DailyLimitGate | quiz-generator-java/src/main/java/com/mine/quizgen/service/GroqAIService.java:95-100 | at 10 or more requests nothing is attempted, neither field changes, and the result fails with "Daily limit (10) reached" |
| GroqService.MaxRetriesOnlyWhenNegative | quiz-generator-java/src/main/java/com/mine/quizgen/service/GroqAIService.java:268-271 | "Max retries exceeded" with no attempt exactly when maxRetries < 0; otherwise the call ends inside the loop after at most maxRetries+1 attempts |
| GroqService.GroqAIService.constructor | quiz-generator-java/src/main/java/com/mine/quizgen/service/GroqAIService.java:22-29 | a new service has the three-model list, index 0 and no requests |
| GroqService.GroqAIService.GetCurrentModel | quiz-generator-java/src/main/java/com/mine/quizgen/service/GroqAIService.java:44-46 | the current model is always one of the listed models |
| GroqService.GroqAIService.RotateModel | quiz-generator-java/src/main/java/com/mine/quizgen/service/GroqAIService.java:48-51 | the index moves up by one, the counter stays, and the current model becomes the next one in the list |
| GroqService.GroqAIService.GetUsage | quiz-generator-java/src/main/java/com/mine/quizgen/service/GroqAIService.java:290-297 | requests today plus remaining equals the limit of 10; remaining is positive exactly while the gate is open; the provider is "Groq" |
| GroqService.GroqAIService.GenerateFromArticleData | quiz-generator-java/src/main/java/com/mine/quizgen/service/GroqAIService.java:94-272 | the returned quiz, the attempts made and both new field values are those of `Generate` on the old fields |
| GroqService.GroqAIService.AttemptOnce | quiz-generator-java/src/main/java/com/mine/quizgen/service/GroqAIService.java:110-264 | one pass uses the current model, sends the body built from it, leaves the index alone, raises the counter exactly when the reply is a 2xx reply with a first choice, and records the step the reply calls for |
| GroqService.GroqAIService.RetryLoop | quiz-generator-java/src/main/java/com/mine/quizgen/service/GroqAIService.java:109-266 | the while loop's quiz, attempts and field updates are those of `Loop` from retry 0 |

## Left out

- **Jsoup.** Parsing, element removal and `Jsoup.clean` (ArticleCleaner.java:28-35) belong to a
  foreign library. The model starts from the string they return, or `None` when they throw.
- **Jackson.** It reads the article JSON, the 2xx body, the error body and the quiz. These
  enter as inputs: `parsed`, the `Exchange` cases, `ErrorBody` and `parse`.
- **HTTP.** The OkHttp request, headers, URL and API key (GroqAIService.java:144-152) are I/O.
  Each attempt's outcome is the input `exchange(retryCount)`.
- **`Thread.sleep` and the interrupt handling** (GroqAIService.java:225-229). The wait is
  recorded as `WaitAndRetry(seconds)`. Interrupts are concurrency.
- **Log lines** (`System.out`, `System.err`, `printStackTrace`) and the branch at lines
  246-248, which only logs.
- **File I/O and the process around the core.** `saveQuiz`, `processAndSaveJson`,
  QuizOrchestrator.java, MainApplication.java and GroqApiClient.java are not part of this
  model.
- **The `generatedAt` timestamp format.** The instant is kept as an opaque `Option<int>`.
- **Exception messages.** The messages of exceptions the model does not raise itself (I/O
  failures, null content, a reply of the wrong shape) are inputs.
- **Case mapping is ASCII only.** `toUpperCase` and `toLowerCase` are not locale-sensitive in
  the model.
- **32-bit int arithmetic.** `currentModelIndex` and `requestCount` are `nat`. The wrap-around
  after 2^31 increments and the overflow of `retryDelay * (retryCount + 1)` for huge
  `maxRetries` are not modelled.
- **Characters are UTF-16 code units.** A `char` stands for one code unit, as `length()` and
  `substring` count them.
- **`RetryLoop` escapes the prompt once.** The source escapes it again on every pass; the value
  is the same each time. The loop body up to the decision is the method `AttemptOnce`, and the
  decision itself is passed in as a function of the retry count and the model.
- **Generate: non-null `fullText` and `title` are required** while the gate is open (and on
  `GenerateFromArticleData`). In the source a null there throws a NullPointerException from
  `createEfficientPrompt` (GroqAIService.java:103-107), outside the retry loop's handlers. The
  caller (QuizOrchestrator.java:98-113) passes only an article that `extractFromJson` completed,
  which has a non-null title and fullText; a failed extraction leaves the id null and is
  stopped at line 104.
- CollapsedResult states the shape of the collapsed text only (no whitespace but ' ', never
  two in a row). That each run becomes exactly one ' ' with every other char kept is stated
  by `CollapseJoinsRuns` and `CollapseConcat`.
- **GroqPrompt.EscapeKeepsOtherControls: the escape chain is incomplete.** It covers only five
  of the escapes section 7 of RFC 8259 requires. Other control chars below U+0020 reach the
  request body raw, and the model states this rather than a full JSON-string guarantee.
