/**
 * The request the quiz service sends: the prompt built from an article, the five-step escape
 * chain that embeds it in a JSON string, and the request body around it.
 */
module GroqPrompt {
  import opened Wrappers
  import opened JavaStrings

  /** Article text longer than this is cut before it goes into the prompt. */
  const PromptTextLimit: nat := 12000
  const PromptMarker: string := "... [truncated]"
  /** The quiz title in the example JSON shows at most this many chars of the article title. */
  const TitlePreviewLength: nat := 40

  // ---------------------------------------------------------------------------------------
  // createEfficientPrompt
  // ---------------------------------------------------------------------------------------

  /** The article text as the prompt shows it. */
  function CappedText(text: string): (r: string)
    ensures |text| <= PromptTextLimit ==> r == text
    ensures |text| > PromptTextLimit ==> r == text[..PromptTextLimit] + PromptMarker
  {
    if |text| > PromptTextLimit then text[..PromptTextLimit] + PromptMarker else text
  }

  /** The capped text starts with as much of the article as fits, and is never longer than the
      limit plus the marker. */
  lemma CappedTextBounds(text: string)
    ensures |CappedText(text)| <= PromptTextLimit + |PromptMarker|
    ensures var k := if |text| <= PromptTextLimit then |text| else PromptTextLimit;
      k <= |CappedText(text)| && CappedText(text)[..k] == text[..k]
  {
  }

  function TitlePreview(title: string): (r: string)
  {
    Prefix(title, TitlePreviewLength)
  }

  /** The preview is the first min(40, length) chars of the title. */
  lemma TitlePreviewIsPrefix(title: string)
    ensures |TitlePreview(title)| == if |title| <= TitlePreviewLength then |title| else TitlePreviewLength
    ensures TitlePreview(title) == title[..|TitlePreview(title)|]
    ensures |title| <= TitlePreviewLength ==> TitlePreview(title) == title
  {
  }

  const PromptIntro: string := "Create 20 multiple-choice questions from this article.\n\n"
  const TitleLabel: string := "ARTICLE TITLE: "
  const ContentLabel: string := "\nARTICLE CONTENT:\n"
  const Instructions: string :=
    "\n\nINSTRUCTIONS - READ CAREFULLY:\n"
    + "1. Create EXACTLY 20 multiple-choice questions. Not 19, not 21. Exactly 20.\n"
    + "2. Difficulty distribution: 8 Easy, 7 Medium, 5 Hard.\n"
    + "3. For EACH question, provide:\n"
    + "   - A clear, complete question text\n"
    + "   - 4 distinct options labeled A, B, C, D\n"
    + "   - The correct answer letter (A, B, C, or D)\n"
    + "   - A brief explanation (1-2 sentences)\n"
    + "   - The difficulty level (Easy, Medium, or Hard)\n\n"
    + "4. Base ALL questions SOLELY on the article content provided. Do not use external knowledge.\n"
    + "5. Format the output as a VALID JSON object with this EXACT structure:\n\n"
    + "{\n"
    + "  \"quiz_title\": \"Quiz: "
  const IdLabel: string := "\",\n  \"article_id\": \""
  const PromptTail: string :=
    "\",\n"
    + "  \"generated_at\": \"timestamp\",\n"
    + "  \"questions\": [\n"
    + "    {\n"
    + "      \"id\": 1,\n"
    + "      \"question\": \"Full question text here?\",\n"
    + "      \"options\": {\"A\": \"Option A text\", \"B\": \"Option B text\", \"C\": \"Option C text\", \"D\": \"Option D text\"},\n"
    + "      \"correct_answer\": \"A\",\n"
    + "      \"explanation\": \"Brief explanation here.\",\n"
    + "      \"difficulty\": \"Easy\"\n"
    + "    }\n"
    + "  ]\n"
    + "}\n\n"
    + "CRITICAL: The \"questions\" array must contain exactly 20 objects. Output ONLY the JSON, no additional text, no markdown formatting, no code blocks."

  /** `createEfficientPrompt(articleText, articleTitle, articleId)`. Text and title are
      dereferenced, so they are not nullable here; a null id prints as "null". */
  function CreateEfficientPrompt(text: string, title: string, id: Option<string>): string
  {
    PromptIntro + (TitleLabel + title) + ContentLabel + CappedText(text) + Instructions
    + TitlePreview(title) + IdLabel + NullableText(id) + PromptTail
  }

  /** A text laid out as nine consecutive pieces contains the second, fourth, sixth and
      eighth of them. */
  lemma ContainsPieces(p0: string, p1: string, p2: string, p3: string, p4: string, p5: string,
                       p6: string, p7: string, p8: string)
    ensures var p := p0 + p1 + p2 + p3 + p4 + p5 + p6 + p7 + p8;
      Contains(p, p1) && Contains(p, p3) && Contains(p, p5) && Contains(p, p7)
  {
    var p := p0 + p1 + p2 + p3 + p4 + p5 + p6 + p7 + p8;
    assert p == p0 + p1 + (p2 + p3 + p4 + p5 + p6 + p7 + p8);
    ContainsWithin(p0, p1, p2 + p3 + p4 + p5 + p6 + p7 + p8);
    assert p == p0 + p1 + p2 + p3 + (p4 + p5 + p6 + p7 + p8);
    ContainsWithin(p0 + p1 + p2, p3, p4 + p5 + p6 + p7 + p8);
    assert p == p0 + p1 + p2 + p3 + p4 + p5 + (p6 + p7 + p8);
    ContainsWithin(p0 + p1 + p2 + p3 + p4, p5, p6 + p7 + p8);
    ContainsWithin(p0 + p1 + p2 + p3 + p4 + p5 + p6, p7, p8);
  }

  /** The prompt names the article: its full title after the label, the (capped) text, the
      title preview in the example JSON, and the id. */
  lemma PromptMentions(text: string, title: string, id: Option<string>)
    ensures Contains(CreateEfficientPrompt(text, title, id), TitleLabel + title)
    ensures Contains(CreateEfficientPrompt(text, title, id), CappedText(text))
    ensures Contains(CreateEfficientPrompt(text, title, id), TitlePreview(title))
    ensures Contains(CreateEfficientPrompt(text, title, id), NullableText(id))
  {
    ContainsPieces(PromptIntro, TitleLabel + title, ContentLabel, CappedText(text), Instructions,
                   TitlePreview(title), IdLabel, NullableText(id), PromptTail);
  }

  // ---------------------------------------------------------------------------------------
  // The escape chain: replace \ " LF CR TAB, in that order.
  // ---------------------------------------------------------------------------------------

  /** The five `replace` calls, applied one after the other to the prompt. */
  function Escape(s: string): string
  {
    Replace(Replace(Replace(Replace(Replace(s, '\\', "\\\\"), '"', "\\\""), '\n', "\\n"), '\r', "\\r"),
            '\t', "\\t")
  }

  /** What the chain does to a single char. */
  function EscapeChar(c: char): (r: string)
    ensures |r| == 1 ==> r == [c]
  {
    match c
    case '\\' => "\\\\"
    case '"' => "\\\""
    case '\n' => "\\n"
    case '\r' => "\\r"
    case '\t' => "\\t"
    case _ => [c]
  }

  /** Escaping char by char: the reference the chain is proved against. */
  function EscapeEach(s: string): string
  {
    if s == [] then [] else EscapeChar(s[0]) + EscapeEach(s[1..])
  }

  lemma {:induction false} ReplaceConcat(a: string, b: string, target: char, replacement: string)
    ensures Replace(a + b, target, replacement) == Replace(a, target, replacement) + Replace(b, target, replacement)
    decreases |a|
  {
    if a != [] {
      var h := if a[0] == target then replacement else [a[0]];
      var ra := Replace(a[1..], target, replacement);
      var rb := Replace(b, target, replacement);
      var ab := a + b;
      assert ab[0] == a[0] && ab[1..] == a[1..] + b;
      ReplaceConcat(a[1..], b, target, replacement);
      assert Replace(ab, target, replacement) == h + (ra + rb);
      assert h + (ra + rb) == (h + ra) + rb;
    } else {
      assert a + b == b;
    }
  }

  lemma ReplaceOne(c: char, target: char, replacement: string)
    ensures Replace([c], target, replacement) == if c == target then replacement else [c]
  {
    assert [c][1..] == [];
  }

  /** Replacing a char that does not occur changes nothing. */
  lemma {:induction false} ReplaceNone(s: string, target: char, replacement: string)
    requires target !in s
    ensures Replace(s, target, replacement) == s
    decreases |s|
  {
    if s != [] {
      assert s[0] != target && target !in s[1..];
      ReplaceNone(s[1..], target, replacement);
      assert s == [s[0]] + s[1..];
    }
  }


  /** The chain on one char: no replacement brings in a char a later step replaces. */
  lemma EscapeOneChar(c: char)
    ensures Escape([c]) == EscapeChar(c)
  {
    ReplaceOne(c, '\\', "\\\\");
    var s1 := Replace([c], '\\', "\\\\");
    if c == '"' {
      ReplaceOne(c, '"', "\\\"");
    } else {
      ReplaceNone(s1, '"', "\\\"");
    }
    var s2 := Replace(s1, '"', "\\\"");
    if c == '\n' {
      ReplaceOne(c, '\n', "\\n");
    } else {
      ReplaceNone(s2, '\n', "\\n");
    }
    var s3 := Replace(s2, '\n', "\\n");
    if c == '\r' {
      ReplaceOne(c, '\r', "\\r");
    } else {
      ReplaceNone(s3, '\r', "\\r");
    }
    var s4 := Replace(s3, '\r', "\\r");
    if c == '\t' {
      ReplaceOne(c, '\t', "\\t");
    } else {
      ReplaceNone(s4, '\t', "\\t");
    }
  }

  lemma EscapeConcat(a: string, b: string)
    ensures Escape(a + b) == Escape(a) + Escape(b)
  {
    ReplaceConcat(a, b, '\\', "\\\\");
    var a1, b1 := Replace(a, '\\', "\\\\"), Replace(b, '\\', "\\\\");
    ReplaceConcat(a1, b1, '"', "\\\"");
    var a2, b2 := Replace(a1, '"', "\\\""), Replace(b1, '"', "\\\"");
    ReplaceConcat(a2, b2, '\n', "\\n");
    var a3, b3 := Replace(a2, '\n', "\\n"), Replace(b2, '\n', "\\n");
    ReplaceConcat(a3, b3, '\r', "\\r");
    var a4, b4 := Replace(a3, '\r', "\\r"), Replace(b3, '\r', "\\r");
    ReplaceConcat(a4, b4, '\t', "\\t");
  }

  /** The replace chain escapes each char on its own. */
  lemma {:induction false} EscapeIsCharwise(s: string)
    ensures Escape(s) == EscapeEach(s)
    decreases |s|
  {
    if s == [] {
      assert Escape(s) == [];
    } else {
      assert s == [s[0]] + s[1..];
      EscapeConcat([s[0]], s[1..]);
      EscapeOneChar(s[0]);
      EscapeIsCharwise(s[1..]);
    }
  }

  /** Reading the five escapes back, as a JSON parser does for these sequences. */
  function Unescape(e: string): string
    decreases |e|
  {
    if |e| >= 2 && e[0] == '\\' then
      match e[1]
      case 'n' => "\n" + Unescape(e[2..])
      case 'r' => "\r" + Unescape(e[2..])
      case 't' => "\t" + Unescape(e[2..])
      case _ => [e[1]] + Unescape(e[2..])
    else if e == [] then []
    else [e[0]] + Unescape(e[1..])
  }

  lemma UnescapeChar(c: char, rest: string)
    ensures Unescape(EscapeChar(c) + rest) == [c] + Unescape(rest)
  {
    var e := EscapeChar(c) + rest;
    if |EscapeChar(c)| == 2 {
      assert e[2..] == rest;
    } else {
      assert e[1..] == rest;
    }
  }

  lemma {:induction false} UnescapeEach(s: string)
    ensures Unescape(EscapeEach(s)) == s
    decreases |s|
  {
    if s != [] {
      UnescapeChar(s[0], EscapeEach(s[1..]));
      UnescapeEach(s[1..]);
      assert s == [s[0]] + s[1..];
    }
  }

  /** Decoding the escaped prompt gives the prompt back. */
  lemma EscapeRoundTrip(s: string)
    ensures Unescape(Escape(s)) == s
  {
    EscapeIsCharwise(s);
    UnescapeEach(s);
  }

  predicate RawBreak(c: char) { c == '\n' || c == '\r' || c == '\t' }

  lemma {:induction false} EscapeEachHasNoRawBreak(s: string)
    ensures forall i :: 0 <= i < |EscapeEach(s)| ==> !RawBreak(EscapeEach(s)[i])
    decreases |s|
  {
    if s != [] {
      EscapeEachHasNoRawBreak(s[1..]);
      var h, t := EscapeChar(s[0]), EscapeEach(s[1..]);
      assert forall i :: 0 <= i < |h| ==> !RawBreak(h[i]);
      assert forall i :: |h| <= i < |h + t| ==> (h + t)[i] == t[i - |h|];
    }
  }

  /** The escaped prompt holds no raw line feed, carriage return or tab. */
  lemma EscapeHasNoRawBreak(s: string)
    ensures forall i :: 0 <= i < |Escape(s)| ==> !RawBreak(Escape(s)[i])
  {
    EscapeIsCharwise(s);
    EscapeEachHasNoRawBreak(s);
  }

  /** Only five chars are escaped: every other control char below U+0020, which a JSON string
      may not hold raw (section 7 of RFC 8259), goes through unchanged. */
  lemma EscapeKeepsOtherControls(c: char)
    requires c < ' ' && !RawBreak(c)
    ensures Escape([c]) == [c]
  {
    EscapeOneChar(c);
  }

  // ---------------------------------------------------------------------------------------
  // The request body.
  // ---------------------------------------------------------------------------------------

  const SystemMessage: string :=
    "You are an expert quiz creator. You always output valid JSON without any additional text."
  const BodyModelLabel: string := "{\"model\": \""
  const BodyContentLabel: string :=
    "\",\"messages\": [{\"role\": \"system\",\"content\": \"" + SystemMessage
    + "\"},{\"role\": \"user\",\"content\": \""
  const BodyTail: string :=
    "\"}],\"temperature\": 0.7,\"max_completion_tokens\": 3500,\"n\": 1}"

  /** The JSON text posted for one attempt. */
  function RequestBody(model: string, escapedPrompt: string): string
  {
    BodyModelLabel + model + BodyContentLabel + escapedPrompt + BodyTail
  }

  /** The body names the attempt's model and carries the escaped prompt as the user message. */
  lemma RequestBodyCarries(model: string, escapedPrompt: string)
    ensures Contains(RequestBody(model, escapedPrompt), model)
    ensures Contains(RequestBody(model, escapedPrompt), escapedPrompt)
  {
    var b := RequestBody(model, escapedPrompt);
    ContainsPieces(BodyModelLabel, model, BodyContentLabel, escapedPrompt, BodyTail, [], [], [], []);
    assert BodyModelLabel + model + BodyContentLabel + escapedPrompt + BodyTail + [] + [] + [] + [] == b;
  }
}
