/**
 * Recovering the quiz JSON from the model's completion text: markdown fences are deleted with
 * MARKDOWN_PATTERN, the text is trimmed, and the span from the first '{' to the last '}' is
 * taken, by JSON_PATTERN or, failing that, by indexOf / lastIndexOf.
 */
module GroqResponse {
  import opened Wrappers
  import opened JavaStrings

  const Fence: string := "```"
  const JsonFence: string := "```json"

  // ---------------------------------------------------------------------------------------
  // MARKDOWN_PATTERN = "```json\s*|\s*```", replaceAll("")
  // ---------------------------------------------------------------------------------------

  /** The length of the run of regex whitespace at the front. */
  function SpaceRun(s: string): (k: nat)
    ensures k <= |s|
    ensures forall i :: 0 <= i < k ==> IsSpace(s[i])
    ensures k == |s| || !IsSpace(s[k])
  {
    |s| - |SkipSpaces(s)|
  }

  /** The length of the MARKDOWN_PATTERN match starting at the front of `s`, 0 for none. The
      first alternative wins when it matches; the second needs its `\s*` to take the whole
      whitespace run, since a shorter run is followed by whitespace, not a backtick. */
  function FenceLength(s: string): (n: nat)
    ensures n <= |s|
  {
    if StartsWith(s, JsonFence) then |JsonFence| + SpaceRun(s[|JsonFence|..])
    else
      var k := SpaceRun(s);
      if StartsWith(s[k..], Fence) then k + |Fence| else 0
  }

  /** After "```json" the match takes the whole whitespace run. */
  lemma FenceLengthJson(s: string)
    requires StartsWith(s, JsonFence)
    ensures var n := FenceLength(s);
      |JsonFence| <= n && AllSpace(s[|JsonFence|..n]) && (n == |s| || !IsSpace(s[n]))
  {
    var n := FenceLength(s);
    var t := s[|JsonFence|..];
    var m := SpaceRun(t);
    assert n == |JsonFence| + m;
    forall i | 0 <= i < m ensures IsSpace(s[|JsonFence|..n][i]) {
      assert s[|JsonFence|..n][i] == t[i];
    }
    if n < |s| {
      assert s[n] == t[m];
    }
  }

  /** Otherwise a match is a whitespace run followed by "```". */
  lemma FenceLengthPlain(s: string)
    requires !StartsWith(s, JsonFence) && FenceLength(s) > 0
    ensures var n := FenceLength(s);
      |Fence| <= n && AllSpace(s[..n - |Fence|]) && s[n - |Fence|..n] == Fence
  {
    var n := FenceLength(s);
    var k := SpaceRun(s);
    assert s[n - |Fence|..n] == s[k..][..|Fence|];
    assert AllSpace(s[..k]);
  }

  /** When nothing matches, no whitespace prefix of any length is followed by "```". */
  lemma FenceLengthNone(s: string)
    requires FenceLength(s) == 0
    ensures !StartsWith(s, JsonFence)
    ensures forall k :: 0 <= k <= |s| && AllSpace(s[..k]) ==> !StartsWith(s[k..], Fence)
  {
    var k := SpaceRun(s);
    forall j | 0 <= j <= |s| && AllSpace(s[..j]) ensures !StartsWith(s[j..], Fence) {
      forall i | 0 <= i < j ensures IsSpace(s[i]) {
        assert s[..j][i] == s[i];
      }
      if j < k {
        assert s[j..][0] == s[j];
      }
    }
  }

  /** What the match at the front is: "```json" and the whole whitespace run after it; or else
      a whole whitespace run followed by "```"; and when neither matches, 0. */
  lemma FenceLengthSpec(s: string)
    ensures var n := FenceLength(s);
      StartsWith(s, JsonFence) ==>
        |JsonFence| <= n && AllSpace(s[|JsonFence|..n]) && (n == |s| || !IsSpace(s[n]))
    ensures var n := FenceLength(s);
      !StartsWith(s, JsonFence) && n > 0 ==>
        |Fence| <= n && AllSpace(s[..n - |Fence|]) && s[n - |Fence|..n] == Fence
    ensures FenceLength(s) == 0 ==>
      !StartsWith(s, JsonFence)
      && forall k :: 0 <= k <= |s| && AllSpace(s[..k]) ==> !StartsWith(s[k..], Fence)
  {
    if StartsWith(s, JsonFence) {
      FenceLengthJson(s);
    } else if FenceLength(s) > 0 {
      FenceLengthPlain(s);
    } else {
      FenceLengthNone(s);
    }
  }

  /** A match always holds a fence, so it is never empty. */
  lemma FenceLengthPositive(s: string)
    ensures FenceLength(s) == 0 || FenceLength(s) >= |Fence|
    ensures FenceLength(s) > 0 ==> exists i :: OccursAt(s[..FenceLength(s)], Fence, i)
  {
    var n := FenceLength(s);
    FenceLengthSpec(s);
    if StartsWith(s, JsonFence) {
      assert s[0..|Fence|] == s[..|JsonFence|][..|Fence|];
      FenceInPrefix(s, n, 0);
    } else if n > 0 {
      FenceInPrefix(s, n, n - |Fence|);
    }
  }

  /** A fence inside the first `n` chars occurs in that prefix. */
  lemma FenceInPrefix(s: string, n: nat, k: nat)
    requires k + |Fence| <= n <= |s| && s[k..k + |Fence|] == Fence
    ensures OccursAt(s[..n], Fence, k)
  {
    assert s[..n][k..k + |Fence|] == s[k..k + |Fence|];
  }

  /** `replaceAll("")`: scanning left to right, each match is deleted and the scan goes on
      after it; where nothing matches, one char is kept. */
  function RemoveFences(s: string): (r: string)
    ensures |r| <= |s|
    decreases |s|
  {
    if s == [] then []
    else
      var n := FenceLength(s);
      if n > 0 then RemoveFences(s[n..]) else [s[0]] + RemoveFences(s[1..])
  }

  predicate NoBacktick(s: string) { forall i :: 0 <= i < |s| ==> s[i] != '`' }

  /** No match starts at a char other than a backtick unless whitespace leads up to one. */
  lemma NoMatchHere(s: string)
    requires s != [] && s[0] != '`'
    requires SpaceRun(s) == |s| || s[SpaceRun(s)] != '`'
    ensures FenceLength(s) == 0
  {
    var k := SpaceRun(s);
    if |JsonFence| <= |s| {
      assert s[..|JsonFence|][0] == s[0];
    }
    if k < |s| {
      assert s[k..][0] == s[k];
    }
  }

  /** Text without a backtick holds no match and passes unchanged. */
  lemma {:induction false} NoFenceUnchanged(s: string)
    requires NoBacktick(s)
    ensures RemoveFences(s) == s
    decreases |s|
  {
    if s != [] {
      NoMatchHere(s);
      assert RemoveFences(s) == [s[0]] + RemoveFences(s[1..]);
      NoFenceUnchanged(s[1..]);
      assert s == [s[0]] + s[1..];
    }
  }

  /** A whitespace run starting inside `b` ends inside it when `b` ends in a non-space. */
  lemma {:induction false} SpaceRunStops(b: string, rest: string)
    requires b != [] && !IsSpace(b[|b| - 1])
    ensures SpaceRun(b + rest) < |b|
  {
    var s := b + rest;
    assert s[|b| - 1] == b[|b| - 1];
  }

  /** No match starts at any position of `a`, when `a` is followed by `x`. */
  predicate NoFenceIn(a: string, x: string) {
    forall i :: 0 <= i < |a| ==> FenceLength((a + x)[i..]) == 0
  }

  /** The inductive step of FenceFreeKept. */
  lemma {:induction false} FenceFreeKeptStep(a: string, x: string)
    requires a != [] && FenceLength(a + x) == 0
    requires RemoveFences(a[1..] + x) == a[1..] + RemoveFences(x)
    ensures RemoveFences(a + x) == a + RemoveFences(x)
  {
    var c, t := a[0], a[1..];
    ConsConcat(a, x);
    TailOfConcat(a, x);
    assert RemoveFences(a + x) == [c] + RemoveFences(t + x);
    ConsAppend(c, t, RemoveFences(x));
  }

  /** Where no match starts, the scan keeps every char: text in which no match starts is kept
      as it is, and the scan goes on after it. A stray backtick that starts no match is kept
      like any other char. */
  lemma {:induction false} FenceFreeKept(a: string, x: string)
    requires NoFenceIn(a, x)
    ensures RemoveFences(a + x) == a + RemoveFences(x)
    decreases |a|
  {
    if a == [] {
      assert a + x == x;
    } else {
      var t := a[1..];
      forall i | 0 <= i < |t| ensures FenceLength((t + x)[i..]) == 0 {
        SuffixShift(a, x, i);
      }
      FenceFreeKept(t, x);
      assert (a + x)[0..] == a + x;
      FenceFreeKeptStep(a, x);
    }
  }

  /** In backtick-free text ending in a non-whitespace char no match can start, whatever
      follows. */
  lemma BacktickFreeNoFence(b: string, rest: string)
    requires NoBacktick(b) && (b == [] || !IsSpace(b[|b| - 1]))
    ensures NoFenceIn(b, rest)
  {
    forall i | 0 <= i < |b| ensures FenceLength((b + rest)[i..]) == 0 {
      var s, c := (b + rest)[i..], b[i..];
      assert s == c + rest;
      assert c[|c| - 1] == b[|b| - 1];
      SpaceRunStops(c, rest);
      assert s[0] == b[i];
      assert s[SpaceRun(s)] == b[i + SpaceRun(s)];
      NoMatchHere(s);
    }
  }

  /** No "```" starts at `p` inside `b` when `b` holds no "```" and what follows `b` does not
      start with a backtick. */
  lemma NoFenceAt(b: string, x: string, p: nat)
    requires p < |b| && forall i :: 0 <= i && i + |Fence| <= |b| ==> !OccursAt(b, Fence, i)
    requires x == [] || x[0] != '`'
    ensures !OccursAt(b + x, Fence, p)
  {
    var s := b + x;
    if p + |Fence| <= |b| {
      assert !OccursAt(b, Fence, p);
      assert s[p..p + |Fence|] == b[p..p + |Fence|];
    } else if p + |Fence| <= |s| {
      assert s[p..p + |Fence|][|b| - p] == x[0];
    }
  }

  /** Where "```" starts neither at the front nor after the leading whitespace, nothing
      matches. */
  lemma NoFenceHere(s: string)
    requires !StartsWith(s, Fence) && !StartsWith(s[SpaceRun(s)..], Fence)
    ensures FenceLength(s) == 0
  {
    if |JsonFence| <= |s| {
      assert s[..|JsonFence|][..|Fence|] == s[..|Fence|];
    }
  }

  /** A suffix of `t` starts no match when "```" occurs neither where it begins nor after its
      leading whitespace. */
  lemma NoFenceInSuffix(t: string, i: nat, k: nat)
    requires i <= |t| && k == SpaceRun(t[i..])
    requires !OccursAt(t, Fence, i) && !OccursAt(t, Fence, i + k)
    ensures FenceLength(t[i..]) == 0
  {
    SuffixStartsWith(t, i, Fence);
    SuffixStartsWith(t, i + k, Fence);
    assert t[i..][k..] == t[i + k..];
    NoFenceHere(t[i..]);
  }

  /** The position-by-position step of TripleFreeNoFence. */
  lemma TripleFreeNoFenceAt(b: string, x: string, i: nat)
    requires forall j :: 0 <= j && j + |Fence| <= |b| ==> !OccursAt(b, Fence, j)
    requires b != [] && !IsSpace(b[|b| - 1])
    requires x == [] || x[0] != '`'
    requires i < |b|
    ensures FenceLength((b + x)[i..]) == 0
  {
    var c := b[i..];
    assert (b + x)[i..] == c + x;
    assert c[|c| - 1] == b[|b| - 1];
    SpaceRunStops(c, x);
    var k := SpaceRun(c + x);
    NoFenceAt(b, x, i);
    NoFenceAt(b, x, i + k);
    NoFenceInSuffix(b + x, i, k);
  }

  /** Inline code is no fence: in text without "```" that ends in a non-whitespace char, and
      is followed by something other than a backtick, no match starts, whatever backticks it
      holds. */
  lemma TripleFreeNoFence(b: string, x: string)
    requires forall i :: 0 <= i && i + |Fence| <= |b| ==> !OccursAt(b, Fence, i)
    requires b == [] || !IsSpace(b[|b| - 1])
    requires x == [] || x[0] != '`'
    ensures NoFenceIn(b, x)
  {
    forall i | 0 <= i < |b| ensures FenceLength((b + x)[i..]) == 0 {
      TripleFreeNoFenceAt(b, x, i);
    }
  }

  /** Backtick-free text ending in a non-whitespace char is kept as it is, whatever follows. */
  lemma KeptBeforeFences(b: string, rest: string)
    requires NoBacktick(b) && (b == [] || !IsSpace(b[|b| - 1]))
    ensures RemoveFences(b + rest) == b + RemoveFences(rest)
  {
    BacktickFreeNoFence(b, rest);
    FenceFreeKept(b, rest);
  }

  /** A match at the front is deleted and the scan goes on after it. */
  lemma FenceSkipped(f: string, b: string)
    requires f != [] && FenceLength(f + b) == |f|
    ensures RemoveFences(f + b) == RemoveFences(b)
  {
    assert (f + b)[|f|..] == b;
  }

  /** A fence inside the text is deleted, and the text before it is kept: when no match
      starts inside `a` and `f` is the match that follows, `a + f + b` comes out as `a`
      followed by what `b` comes out as. */
  lemma FenceDeleted(a: string, f: string, b: string)
    requires NoFenceIn(a, f + b)
    requires f != [] && FenceLength(f + b) == |f|
    ensures RemoveFences(a + f + b) == a + RemoveFences(b)
  {
    Assoc3(a, f, b);
    FenceFreeKept(a, f + b);
    FenceSkipped(f, b);
  }

  /** The opening tag and the line break after it form one match. */
  lemma OpeningFence(rest: string)
    requires rest != [] && !IsSpace(rest[0])
    ensures RemoveFences(JsonFence + "\n" + rest) == RemoveFences(rest)
  {
    var s := JsonFence + "\n" + rest;
    var afterTag := s[|JsonFence|..];
    assert s[..|JsonFence|] == JsonFence;
    assert afterTag == "\n" + rest;
    assert afterTag[1..] == rest;
    assert SpaceRun(afterTag) == 1;
    assert s[|JsonFence| + 1..] == rest;
  }

  /** A line break and a closing fence form one match. */
  lemma ClosingFence()
    ensures RemoveFences("\n" + Fence) == []
  {
    var t := "\n" + Fence;
    assert t[1..] == Fence;
    assert SkipSpaces(t[1..]) == t[1..];
    assert SkipSpaces(t) == SkipSpaces(t[1..]);
    assert SpaceRun(t) == 1;
    assert t[1..][..|Fence|] == Fence;
    assert FenceLength(t) == |t|;
  }

  /** A reply wrapped as "```json", a line break, the body, a line break and "```" comes out as
      the body, when the body does not start with whitespace (the opening match would take it)
      and no match starts inside it (inline backticks are fine). */
  lemma FencedReply(body: string)
    requires body != [] && !IsSpace(body[0]) && NoFenceIn(body, "\n" + Fence)
    ensures RemoveFences(JsonFence + "\n" + body + "\n" + Fence) == body
  {
    var rest := body + ("\n" + Fence);
    assert JsonFence + "\n" + body + "\n" + Fence == JsonFence + "\n" + rest;
    OpeningFence(rest);
    FenceFreeKept(body, "\n" + Fence);
    ClosingFence();
    assert body + [] == body;
  }

  // ---------------------------------------------------------------------------------------
  // JSON_PATTERN = "(\{.*\})" with DOTALL, find(); and the indexOf / lastIndexOf fallback.
  // ---------------------------------------------------------------------------------------

  /** The inclusive index range of the recovered JSON text. */
  datatype Span = Span(start: nat, end: nat)

  /** `\{.*\}` matches `s[i..j+1]`: a '{' at i and a '}' at some later j. */
  predicate BracesAt(s: string, i: int, j: int) {
    0 <= i < j < |s| && s[i] == '{' && s[j] == '}'
  }

  /** `find()` tries the starts from `from` onwards in order; at the first start where the
      pattern matches, the greedy `.*` gives back the fewest chars, so the match ends at the
      last '}'. */
  function FindFrom(s: string, from: nat): (r: Option<Span>)
    requires from <= |s|
    ensures r.Some? ==> from <= r.value.start && BracesAt(s, r.value.start, r.value.end)
    ensures r.Some? ==> forall i, j :: from <= i < r.value.start && BracesAt(s, i, j) ==> false
    ensures r.Some? ==> forall j :: r.value.end < j ==> !BracesAt(s, r.value.start, j)
    ensures r.None? ==> forall i, j :: from <= i && BracesAt(s, i, j) ==> false
    decreases |s| - from
  {
    if from == |s| then None
    else
      var last := LastIndexOfChar(s, '}');
      if s[from] == '{' && last > from then Some(Span(from, last)) else FindFrom(s, from + 1)
  }

  function JsonPatternFind(s: string): Option<Span>
  {
    FindFrom(s, 0)
  }

  /** The fallback: `indexOf('{')` and `lastIndexOf('}')`, used when they are in order. */
  function BraceFallback(s: string): (r: Option<Span>)
  {
    var start, end := IndexOfChar(s, '{'), LastIndexOfChar(s, '}');
    if start != -1 && end != -1 && end > start then Some(Span(start, end)) else None
  }

  /** The regex and the fallback select the same span: the fallback never finds one the regex
      missed. */
  lemma PatternAgreesWithFallback(s: string)
    ensures JsonPatternFind(s) == BraceFallback(s)
  {
    var r := JsonPatternFind(s);
    var start, end := IndexOfChar(s, '{'), LastIndexOfChar(s, '}');
    if r.Some? {
      var sp := r.value;
      assert start != -1 && start <= sp.start;
      if start < sp.start {
        assert BracesAt(s, start, sp.end);
      }
      assert end >= sp.end;
      if end > sp.end {
        assert BracesAt(s, sp.start, end);
      }
    } else {
      assert !BracesAt(s, start, end);
    }
  }

  /** The span runs from the first '{' to the last '}', and there is one exactly when some '}'
      follows some '{'. */
  lemma FallbackSpan(s: string)
    ensures BraceFallback(s).Some? <==> exists i, j :: BracesAt(s, i, j)
    ensures BraceFallback(s).Some? ==>
      var sp := BraceFallback(s).value;
      sp.start == IndexOfChar(s, '{') && sp.end == LastIndexOfChar(s, '}') && BracesAt(s, sp.start, sp.end)
  {
    PatternAgreesWithFallback(s);
    if BraceFallback(s).Some? {
      var sp := BraceFallback(s).value;
      assert BracesAt(s, sp.start, sp.end);
    }
  }

  // ---------------------------------------------------------------------------------------
  // The whole recovery.
  // ---------------------------------------------------------------------------------------

  const NoJsonPrefix: string := "No valid JSON found in response: "

  /** The IOException message when no span is found: the first 100 chars and an ellipsis. */
  function NoJsonMessage(t: string): string
  {
    NoJsonPrefix + Prefix(t, 100) + "..."
  }

  /** At least two chars, starting with '{' and ending with '}'. */
  predicate IsObjectText(json: string) {
    |json| >= 2 && json[0] == '{' && json[|json| - 1] == '}'
  }

  /** Lines 192-204 on the cleaned text: the JSON text to parse, or the message of the
      IOException thrown. */
  function ExtractJson(t: string): (r: Result<string, string>)
    ensures r.Ok? ==> IsObjectText(r.value)
  {
    match JsonPatternFind(t)
    case Some(sp) => Ok(t[sp.start..sp.end + 1])
    case None =>
      match BraceFallback(t)
      case Some(sp) => Ok(t[sp.start..sp.end + 1])
      case None => Err(NoJsonMessage(t))
  }

  /** Lines 188-204: fences deleted, the text trimmed, the JSON span taken. */
  function RecoverJson(content: string): (r: Result<string, string>)
    ensures r.Ok? ==> IsObjectText(r.value)
  {
    ExtractJson(Trim(RemoveFences(content)))
  }

  /** Whichever branch finds it, the span is the one from the first '{' to the last '}'. */
  lemma ExtractJsonIsFallback(t: string)
    ensures BraceFallback(t).Some? ==>
      ExtractJson(t) == Ok(t[IndexOfChar(t, '{')..LastIndexOfChar(t, '}') + 1])
    ensures BraceFallback(t).None? ==> ExtractJson(t) == Err(NoJsonMessage(t))
  {
    PatternAgreesWithFallback(t);
    match BraceFallback(t)
    case Some(sp) =>
      assert sp == Span(IndexOfChar(t, '{'), LastIndexOfChar(t, '}'));
      assert ExtractJson(t) == Ok(t[sp.start..sp.end + 1]);
    case None =>
      assert ExtractJson(t) == Err(NoJsonMessage(t));
  }

  /** A span is found exactly when some '}' follows some '{'. */
  lemma ExtractJsonFoundIff(t: string)
    ensures ExtractJson(t).Ok? <==> exists i, j :: BracesAt(t, i, j)
  {
    ExtractJsonIsFallback(t);
    FallbackSpan(t);
  }

  /** The text taken is a slice of the text, beginning at its first '{'. */
  lemma ExtractJsonShape(t: string)
    ensures ExtractJson(t).Ok? ==> OccursAt(t, ExtractJson(t).value, IndexOfChar(t, '{'))
  {
    ExtractJsonIsFallback(t);
    if BraceFallback(t).Some? {
      FallbackSpan(t);
      var sp := BraceFallback(t).value;
      var json := t[sp.start..sp.end + 1];
      assert t[sp.start..sp.start + |json|] == json;
    }
  }

  /** Otherwise the message quotes at most the first 100 chars of the text. */
  lemma ExtractJsonMissing(t: string)
    requires forall i, j :: BracesAt(t, i, j) ==> false
    ensures ExtractJson(t) == Err(NoJsonPrefix + Prefix(t, 100) + "...")
    ensures |ExtractJson(t).error| <= |NoJsonPrefix| + 100 + 3
  {
    ExtractJsonIsFallback(t);
    FallbackSpan(t);
  }

  /** Text that starts with '{' and ends with '}' is taken whole. */
  lemma ObjectExtracted(body: string)
    requires |body| >= 2 && body[0] == '{' && body[|body| - 1] == '}'
    ensures ExtractJson(body) == Ok(body)
  {
    assert BracesAt(body, 0, |body| - 1);
    FallbackSpan(body);
    ExtractJsonIsFallback(body);
    assert IndexOfChar(body, '{') == 0;
    assert LastIndexOfChar(body, '}') == |body| - 1;
    assert body[0..|body|] == body;
  }

  /** Text that starts and ends with a brace has nothing to trim. */
  lemma ObjectTrimmed(body: string)
    requires |body| >= 2 && body[0] == '{' && body[|body| - 1] == '}'
    ensures Trim(body) == body
  {
    assert TrimStart(body) == body;
  }

  /** A fenced reply whose body is a single JSON object comes back as that object. */
  lemma FencedObjectRecovered(body: string)
    requires NoFenceIn(body, "\n" + Fence) && |body| >= 2 && body[0] == '{' && body[|body| - 1] == '}'
    ensures RecoverJson(JsonFence + "\n" + body + "\n" + Fence) == Ok(body)
  {
    FencedReply(body);
    ObjectTrimmed(body);
    ObjectExtracted(body);
  }

  /** The same for an object holding inline code: single or double backticks in the body are
      kept, as long as it holds no "```". */
  lemma FencedObjectWithInlineCode(body: string)
    requires forall i :: 0 <= i && i + |Fence| <= |body| ==> !OccursAt(body, Fence, i)
    requires |body| >= 2 && body[0] == '{' && body[|body| - 1] == '}'
    ensures RecoverJson(JsonFence + "\n" + body + "\n" + Fence) == Ok(body)
  {
    TripleFreeNoFence(body, "\n" + Fence);
    FencedObjectRecovered(body);
  }
}
