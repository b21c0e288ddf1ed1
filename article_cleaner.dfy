/**
 * ArticleCleaner: from the text Jsoup extracts out of an article body to a bounded, normalised
 * `cleanText`, and from the article's JSON to `fullText` and its token estimate.
 * Jsoup itself (parsing, removing non-content elements, stripping markup) is not modelled: the
 * cleaner receives the string `Jsoup.clean(..)` returns, or `None` when that step throws.
 */
module ArticleCleaner {
  import opened Wrappers
  import opened JavaStrings
  import opened ArticleModel

  /** MAX_LENGTH. */
  const MaxLength: nat := 6000
  /** `MAX_LENGTH * 0.7`, a double that evaluates to exactly 4200.0, so `lastPeriod > 4200.0`
      is `lastPeriod > 4200` on ints. */
  const SmartCutThreshold: nat := 4200
  const TruncationMarker: string := " [truncated]"
  /** Lines shorter than this after trimming are dropped. */
  const MinLineLength: nat := 10

  // ---------------------------------------------------------------------------------------
  // text.split("\\r?\\n")
  // ---------------------------------------------------------------------------------------

  function CountChar(s: string, c: char): nat
  {
    if s == [] then 0 else (if s[0] == c then 1 else 0) + CountChar(s[1..], c)
  }

  /** The pieces between the matches of `\r?\n`, scanning left to right, all kept. */
  function Segments(s: string): (r: seq<string>)
    ensures r != []
    decreases |s|
  {
    if s == [] then [[]]
    else if s[0] == '\n' then [[]] + Segments(s[1..])
    else if |s| >= 2 && s[0] == '\r' && s[1] == '\n' then [[]] + Segments(s[2..])
    else
      var rest := Segments(s[1..]);
      [[s[0]] + rest[0]] + rest[1..]
  }

  /** The pieces joined back together with "\n" between them. */
  function JoinWithLineFeeds(pieces: seq<string>): string
    requires pieces != []
  {
    if |pieces| == 1 then pieces[0] else pieces[0] + "\n" + JoinWithLineFeeds(pieces[1..])
  }

  /** The text with every "\r\n" turned into "\n", scanning left to right. */
  function CrlfToLf(s: string): string
    decreases |s|
  {
    if s == [] then []
    else if |s| >= 2 && s[0] == '\r' && s[1] == '\n' then "\n" + CrlfToLf(s[2..])
    else [s[0]] + CrlfToLf(s[1..])
  }

  /** Prefixing a char to the first piece prefixes it to the joined text. */
  lemma JoinConsFirst(c: char, rest: seq<string>)
    requires rest != []
    ensures JoinWithLineFeeds([[c] + rest[0]] + rest[1..]) == [c] + JoinWithLineFeeds(rest)
  {
    var p := [[c] + rest[0]] + rest[1..];
    assert p[0] == [c] + rest[0] && p[1..] == rest[1..];
  }

  /** An empty first piece puts a "\n" at the front of the joined text. */
  lemma JoinEmptyFirst(rest: seq<string>)
    requires rest != []
    ensures JoinWithLineFeeds([[]] + rest) == "\n" + JoinWithLineFeeds(rest)
  {
    var p := [[]] + rest;
    assert p[0] == [] && p[1..] == rest;
  }

  /** There is one piece more than there are line feeds. */
  lemma {:induction false} SegmentsCount(s: string)
    ensures |Segments(s)| == 1 + CountChar(s, '\n')
    decreases |s|
  {
    if s == [] {
    } else if s[0] == '\n' {
      SegmentsCount(s[1..]);
    } else if |s| >= 2 && s[0] == '\r' && s[1] == '\n' {
      SegmentsCount(s[2..]);
      assert CountChar(s, '\n') == CountChar(s[1..], '\n') == 1 + CountChar(s[2..], '\n');
    } else {
      SegmentsCount(s[1..]);
    }
  }

  /** No piece holds a line feed. */
  lemma {:induction false} SegmentsNoLineFeed(s: string)
    ensures forall i :: 0 <= i < |Segments(s)| ==> '\n' !in Segments(s)[i]
    decreases |s|
  {
    if s == [] {
    } else if s[0] == '\n' {
      SegmentsNoLineFeed(s[1..]);
    } else if |s| >= 2 && s[0] == '\r' && s[1] == '\n' {
      SegmentsNoLineFeed(s[2..]);
    } else {
      SegmentsNoLineFeed(s[1..]);
      var rest := Segments(s[1..]);
      assert '\n' !in rest[0];
      assert forall i :: 1 <= i < |Segments(s)| ==> Segments(s)[i] == rest[i];
    }
  }

  /** Joined with "\n", the pieces give back the text with each "\r\n" read as "\n". */
  lemma {:induction false} SegmentsJoin(s: string)
    ensures JoinWithLineFeeds(Segments(s)) == CrlfToLf(s)
    decreases |s|
  {
    if s == [] {
    } else if s[0] == '\n' {
      SegmentsJoin(s[1..]);
      JoinEmptyFirst(Segments(s[1..]));
      assert [s[0]] == "\n";
    } else if |s| >= 2 && s[0] == '\r' && s[1] == '\n' {
      SegmentsJoin(s[2..]);
      JoinEmptyFirst(Segments(s[2..]));
    } else {
      SegmentsJoin(s[1..]);
      JoinConsFirst(s[0], Segments(s[1..]));
    }
  }

  /** The pieces are exactly the text between the line breaks: one piece more than there are
      line feeds, none holding a line feed, and joined with "\n" they give back the text with
      each "\r\n" read as "\n". */
  lemma SegmentsSpec(s: string)
    ensures |Segments(s)| == 1 + CountChar(s, '\n')
    ensures forall i :: 0 <= i < |Segments(s)| ==> '\n' !in Segments(s)[i]
    ensures JoinWithLineFeeds(Segments(s)) == CrlfToLf(s)
  {
    SegmentsCount(s);
    SegmentsNoLineFeed(s);
    SegmentsJoin(s);
  }

  /** Removes the empty pieces at the end: what it drops is empty, and what it keeps is a prefix
      that is empty or ends in a non-empty piece. */
  function DropTrailingEmpty(r: seq<string>): (q: seq<string>)
    ensures |q| <= |r| && q == r[..|q|]
    ensures forall i :: |q| <= i < |r| ==> r[i] == []
    ensures q == [] || q[|q| - 1] != []
  {
    if r != [] && r[|r| - 1] == [] then DropTrailingEmpty(r[..|r| - 1]) else r
  }

  /** Java's `split` with limit 0: the input itself when nothing matches, otherwise the pieces
      with trailing empty pieces removed. */
  function SplitLines(s: string): seq<string>
  {
    if '\n' !in s then [s] else DropTrailingEmpty(Segments(s))
  }

  /** A text without a line feed is a single line. Otherwise the lines are the pieces between
      the line breaks, in order, up to the last non-empty one: every piece after them is empty,
      and the last line is not. No line holds a line feed. */
  lemma SplitLinesSpec(s: string)
    ensures '\n' !in s ==> SplitLines(s) == [s]
    ensures '\n' in s ==>
      var pieces := Segments(s);
      var lines := SplitLines(s);
      && |lines| <= |pieces| && lines == pieces[..|lines|]
      && (forall i :: |lines| <= i < |pieces| ==> pieces[i] == [])
      && (lines == [] || lines[|lines| - 1] != [])
      && JoinWithLineFeeds(pieces) == CrlfToLf(s)
    ensures forall i :: 0 <= i < |SplitLines(s)| ==> '\n' !in SplitLines(s)[i]
    ensures |SplitLines(s)| <= 1 + CountChar(s, '\n')
  {
    if '\n' in s {
      var r := Segments(s);
      var q := DropTrailingEmpty(r);
      SegmentsCount(s);
      SegmentsNoLineFeed(s);
      SegmentsJoin(s);
      assert SplitLines(s) == q;
      forall i | 0 <= i < |q| ensures '\n' !in q[i] {
        assert q[i] == r[i];
      }
    } else {
      assert SplitLines(s) == [s];
    }
  }

  // ---------------------------------------------------------------------------------------
  // CITATION_PATTERN `\[\d+\]` replaced by "" in one left-to-right pass.
  // ---------------------------------------------------------------------------------------

  /** A bracketed run of one or more ASCII digits, such as "[12]". */
  predicate IsCitation(m: string) {
    |m| >= 3 && m[0] == '[' && m[|m| - 1] == ']'
    && forall i :: 1 <= i < |m| - 1 ==> IsDigit(m[i])
  }

  /** Length of the leading run of digits. */
  function DigitRun(s: string): (n: nat)
    ensures n <= |s|
    ensures forall i :: 0 <= i < n ==> IsDigit(s[i])
    ensures n < |s| ==> !IsDigit(s[n])
  {
    if s != [] && IsDigit(s[0]) then 1 + DigitRun(s[1..]) else 0
  }

  lemma DigitsBracketed(s: string, rest: string, d: nat)
    requires 1 + d < |s| && s[0] == '[' && s[1 + d] == ']' && d >= 1 && rest == s[1..]
    requires forall i :: 0 <= i < d ==> IsDigit(rest[i])
    ensures IsCitation(s[..d + 2])
  {
    var m := s[..d + 2];
    forall i | 1 <= i < d + 1 ensures IsDigit(m[i]) {
      assert m[i] == rest[i - 1];
    }
  }

  /** Length of the citation match at the front of `s`, or 0 when the pattern does not match
      there (the digits are matched greedily, and a non-digit must then be ']'). */
  function CitationLength(s: string): (n: nat)
    ensures n == 0 || (n <= |s| && IsCitation(s[..n]))
    ensures n == 0 && s != [] && s[0] == '[' && IsCitation(s) ==> false
  {
    if |s| >= 3 && s[0] == '[' then
      var d := DigitRun(s[1..]);
      if d >= 1 && 1 + d < |s| && s[1 + d] == ']' then
        DigitsBracketed(s, s[1..], d);
        d + 2
      else
        assert IsCitation(s) ==> !IsDigit(s[|s| - 1]);
        0
    else 0
  }

  function RemoveCitations(s: string): (r: string)
    ensures |r| <= |s|
    ensures '[' !in s ==> r == s
    decreases |s|
  {
    if s == [] then []
    else
      var n := CitationLength(s);
      if n > 0 then RemoveCitations(s[n..])
      else [s[0]] + RemoveCitations(s[1..])
  }

  /** A run of exactly `d` digits followed by a non-digit is the leading digit run. */
  lemma {:induction false} DigitRunIs(s: string, d: nat)
    requires d < |s| && !IsDigit(s[d])
    requires forall i :: 0 <= i < d ==> IsDigit(s[i])
    ensures DigitRun(s) == d
    decreases d
  {
    if d > 0 {
      DigitRunIs(s[1..], d - 1);
    }
  }

  /** A citation at the front is matched whole, whatever follows it. */
  lemma CitationAtFront(m: string, b: string)
    requires IsCitation(m)
    ensures CitationLength(m + b) == |m|
  {
    var s := m + b;
    var t := s[1..];
    forall i | 0 <= i < |m| - 2 ensures IsDigit(t[i]) {
      assert t[i] == m[i + 1];
    }
    assert t[|m| - 2] == ']';
    DigitRunIs(t, |m| - 2);
  }

  /** A citation at the front is dropped and the scan goes on after it. */
  lemma CitationSkipped(m: string, b: string)
    requires IsCitation(m)
    ensures RemoveCitations(m + b) == RemoveCitations(b)
  {
    CitationAtFront(m, b);
    assert (m + b)[|m|..] == b;
  }

  /** No citation match starts at any position of `a`, when `a` is followed by `x`. */
  predicate NoCitationIn(a: string, x: string) {
    forall i :: 0 <= i < |a| ==> CitationLength((a + x)[i..]) == 0
  }

  /** The inductive step of CitationFreeKept. */
  lemma {:induction false} CitationFreeKeptStep(a: string, x: string)
    requires a != [] && CitationLength(a + x) == 0
    requires RemoveCitations(a[1..] + x) == a[1..] + RemoveCitations(x)
    ensures RemoveCitations(a + x) == a + RemoveCitations(x)
  {
    var c, t := a[0], a[1..];
    ConsConcat(a, x);
    TailOfConcat(a, x);
    assert RemoveCitations(a + x) == [c] + RemoveCitations(t + x);
    ConsAppend(c, t, RemoveCitations(x));
  }

  /** Where no citation starts, the scan keeps every char: text in which no match starts is
      kept as it is, and the scan goes on after it. A stray '[' that starts no citation is
      kept like any other char. */
  lemma {:induction false} CitationFreeKept(a: string, x: string)
    requires NoCitationIn(a, x)
    ensures RemoveCitations(a + x) == a + RemoveCitations(x)
    decreases |a|
  {
    if a == [] {
      assert a + x == x;
    } else {
      var t := a[1..];
      forall i | 0 <= i < |t| ensures CitationLength((t + x)[i..]) == 0 {
        SuffixShift(a, x, i);
      }
      CitationFreeKept(t, x);
      assert (a + x)[0..] == a + x;
      CitationFreeKeptStep(a, x);
    }
  }

  /** Text without '[' starts no citation. */
  lemma NoBracketNoCitation(a: string, x: string)
    requires '[' !in a
    ensures NoCitationIn(a, x)
  {
    forall i | 0 <= i < |a| ensures CitationLength((a + x)[i..]) == 0 {
      assert (a + x)[i..][0] == a[i];
    }
  }

  /** A citation inside the text is deleted, and the text before it is kept: when no citation
      starts inside `a`, `a + m + b` cleans to `a` followed by the cleaned `b`. */
  lemma CitationDeleted(a: string, m: string, b: string)
    requires NoCitationIn(a, m + b) && IsCitation(m)
    ensures RemoveCitations(a + m + b) == a + RemoveCitations(b)
  {
    assert a + m + b == a + (m + b);
    CitationFreeKept(a, m + b);
    CitationSkipped(m, b);
  }

  /** Text without '[' before a citation is the simplest case: it is kept, and the citation
      goes. */
  lemma CitationAfterPlainText(a: string, m: string, b: string)
    requires '[' !in a && IsCitation(m)
    ensures RemoveCitations(a + m + b) == a + RemoveCitations(b)
  {
    NoBracketNoCitation(a, m + b);
    CitationDeleted(a, m, b);
  }

  /** A stray '[' does not protect a later citation: in "[a][3]" the '[' of "[a]" is kept and
      "[3]" goes. */
  lemma CitationAfterStrayBracket()
    ensures RemoveCitations("[a][3]") == "[a]"
  {
    var a, m := "[a]", "[3]";
    var s := a + m;
    assert DigitRun(s[1..]) == 0;
    assert s[1..][0] == 'a' && s[2..][0] == ']';
    assert NoCitationIn(a, m + []);
    CitationDeleted(a, m, []);
    assert a + m + [] == "[a][3]";
  }

  /** A citation on its own disappears completely. */
  lemma CitationRemoved(m: string)
    requires IsCitation(m)
    ensures RemoveCitations(m) == []
  {
    var n := CitationLength(m);
    assert n > 0;
    assert n == |m| by {
      assert forall i :: 0 <= i < |m| - 2 ==> IsDigit(m[1..][i]) by {
        forall i | 0 <= i < |m| - 2 ensures IsDigit(m[1..][i]) {
          assert m[1..][i] == m[i + 1];
        }
      }
    }
  }

  /** One pass only: removing "[1]" from "[[1]2]" brings a new citation "[2]" together,
      which stays. */
  lemma SinglePassLeavesExposedCitation()
    ensures RemoveCitations("[[1]2]") == "[2]"
    ensures IsCitation(RemoveCitations("[[1]2]"))
  {
    assert CitationLength("[[1]2]") == 0;
    assert "[[1]2]"[1..] == "[1]2]";
    assert CitationLength("[1]2]") == 3;
    assert "[1]2]"[3..] == "2]";
    assert CitationLength("2]") == 0;
    assert "2]"[1..] == "]";
    assert CitationLength("]") == 0;
  }

  // ---------------------------------------------------------------------------------------
  // The line filter and the joined text.
  // ---------------------------------------------------------------------------------------

  /** What a kept (already trimmed) line becomes: whitespace runs collapsed, then citations cut. */
  function NormalizeLine(t: string): string
  {
    RemoveCitations(CollapseWhitespace(t))
  }

  /** What one raw line adds to the builder: nothing when it is shorter than 10 chars once
      trimmed, otherwise the normalised line and a space. */
  function LineContribution(line: string): (c: string)
    ensures |Trim(line)| < MinLineLength ==> c == []
    ensures |Trim(line)| >= MinLineLength ==> c == NormalizeLine(Trim(line)) + " "
  {
    var t := Trim(line);
    if |t| < MinLineLength then [] else NormalizeLine(t) + " "
  }

  /** The builder's contents after the given lines. */
  function JoinKept(lines: seq<string>): string
  {
    if lines == [] then [] else JoinKept(lines[..|lines| - 1]) + LineContribution(lines[|lines| - 1])
  }

  lemma JoinKeptStep(lines: seq<string>, i: nat)
    requires i < |lines|
    ensures JoinKept(lines[..i + 1]) == JoinKept(lines[..i]) + LineContribution(lines[i])
  {
    assert lines[..i + 1][..i] == lines[..i];
  }

  /** The joined text: trimmed, then whitespace runs collapsed again. */
  function Normalize(text: string): string
  {
    CollapseWhitespace(Trim(JoinKept(SplitLines(text))))
  }

  /** Where the smart truncation cuts a text longer than MAX_LENGTH. */
  function CutPoint(t: string): (k: nat)
    requires |t| > MaxLength
    ensures SmartCutThreshold + 2 <= k <= MaxLength
    ensures k < MaxLength ==>
      OccursAt(t[..MaxLength], ". ", k - 1) && k - 1 > SmartCutThreshold
      && forall j :: k - 1 < j ==> !OccursAt(t[..MaxLength], ". ", j)
    ensures k == MaxLength ==>
      forall j :: SmartCutThreshold < j ==> !OccursAt(t[..MaxLength], ". ", j)
  {
    var p := LastIndexOf(t[..MaxLength], ". ");
    if p > SmartCutThreshold then p + 1 else MaxLength
  }

  /** The smart truncation: texts of at most MAX_LENGTH chars pass unchanged, longer ones are
      cut at CutPoint and marked. */
  function SmartTruncate(t: string): (r: string)
    ensures |t| <= MaxLength ==> r == t
    ensures |t| > MaxLength ==> r == t[..CutPoint(t)] + TruncationMarker
    ensures |r| <= MaxLength + |TruncationMarker|
  {
    if |t| <= MaxLength then t else t[..CutPoint(t)] + TruncationMarker
  }

  /** The steps `cleanHtmlContent` takes to truncate compute SmartTruncate. */
  lemma TruncationSteps(n: string, truncated: string, lastPeriod: int)
    requires |n| > MaxLength && truncated == n[..MaxLength]
    requires lastPeriod == LastIndexOf(truncated, ". ")
    ensures lastPeriod > SmartCutThreshold ==>
      SmartTruncate(n) == truncated[..lastPeriod + 1] + TruncationMarker
    ensures lastPeriod <= SmartCutThreshold ==> SmartTruncate(n) == truncated + TruncationMarker
  {
    assert truncated[..MaxLength] == truncated;
  }

  /** The `cleanText` of a body whose extracted text is `text`. */
  function CleanText(text: string): string
  {
    SmartTruncate(Normalize(text))
  }

  /** The Article `cleanHtmlContent` returns: empty for a null or blank body, or when the Jsoup
      step throws; otherwise cleanText and both lengths. */
  function CleanedArticle(htmlContent: Option<string>, extracted: Option<string>): (a: Article)
    ensures htmlContent.None? || Trim(htmlContent.value) == [] || extracted.None? ==>
      a == EmptyArticle()
    ensures htmlContent.Some? && Trim(htmlContent.value) != [] && extracted.Some? ==>
      var c := CleanText(extracted.value);
      a == EmptyArticle().(cleanText := Some(c), originalLength := Some(|htmlContent.value|),
                           cleanedLength := Some(|c|))
  {
    if htmlContent.None? || Trim(htmlContent.value) == [] || extracted.None? then EmptyArticle()
    else
      var c := CleanText(extracted.value);
      EmptyArticle().(cleanText := Some(c), originalLength := Some(|htmlContent.value|),
                      cleanedLength := Some(|c|))
  }

  // ---------------------------------------------------------------------------------------
  // What the cleaned text is guaranteed to look like.
  // ---------------------------------------------------------------------------------------

  /** Collapsing a text that does not start or end with a trimmable char keeps that shape. */
  lemma {:induction false} CollapseKeepsEnds(t: string)
    requires t == [] || (!IsTrimmable(t[0]) && !IsTrimmable(t[|t| - 1]))
    ensures var n := CollapseWhitespace(t);
      IsCollapsed(n) && (n == [] || (!IsTrimmable(n[0]) && !IsTrimmable(n[|n| - 1])))
  {
    CollapsedResult(t);
    if t != [] {
      assert !IsSpace(t[0]) && !IsSpace(t[|t| - 1]);
      CollapseKeepsLast(t);
    }
  }

  /** Before truncation the text has no whitespace at either end and never two whitespace
      chars in a row. */
  lemma {:induction false} NormalizedShape(text: string)
    ensures IsCollapsed(Normalize(text))
    ensures Normalize(text) == [] || (!IsTrimmable(Normalize(text)[0])
                                      && !IsTrimmable(Normalize(text)[|Normalize(text)| - 1]))
  {
    var j := JoinKept(SplitLines(text));
    TrimSpec(j);
    CollapseKeepsEnds(Trim(j));
  }

  /** The cleaned length is bounded by MAX_LENGTH plus the marker, and text within the bound is
      returned as normalised, unmarked. */
  lemma CleanTextBounds(text: string)
    ensures |CleanText(text)| <= MaxLength + |TruncationMarker|
    ensures |Normalize(text)| <= MaxLength ==> CleanText(text) == Normalize(text)
  {
  }

  /** A line is kept exactly when it is at least 10 chars long once trimmed. */
  lemma {:induction false} ShortLinesContributeNothing(lines: seq<string>)
    requires forall i :: 0 <= i < |lines| ==> |Trim(lines[i])| < MinLineLength
    ensures JoinKept(lines) == []
  {
    if lines != [] {
      ShortLinesContributeNothing(lines[..|lines| - 1]);
    }
  }

  /** A body made only of short lines cleans to the empty string. */
  lemma OnlyShortLinesCleanToEmpty(text: string)
    requires forall i :: 0 <= i < |SplitLines(text)| ==> |Trim(SplitLines(text)[i])| < MinLineLength
    ensures CleanText(text) == []
  {
    ShortLinesContributeNothing(SplitLines(text));
  }

  lemma CitationIsTrimmed(m: string)
    requires IsCitation(m)
    ensures Trim(m) == m
  {
    assert TrimStart(m) == m;
  }

  lemma CitationIsCollapsed(m: string)
    requires IsCitation(m)
    ensures IsCollapsed(m)
  {
    forall i | 0 <= i < |m| ensures !IsSpace(m[i]) {
      if 0 < i < |m| - 1 { assert IsDigit(m[i]); }
    }
    NoSpaceIsCollapsed(m);
  }

  /** The line filter runs before normalisation: a citation of ten or more chars, such as
      "[12345678]", is long enough to be kept and then shrinks to nothing but the separating
      space. */
  lemma KeptLineCanVanish(m: string)
    requires IsCitation(m) && |m| >= MinLineLength
    ensures |Trim(m)| >= MinLineLength
    ensures LineContribution(m) == " "
  {
    CitationIsTrimmed(m);
    CitationIsCollapsed(m);
    CollapseFixpoint(m);
    CitationRemoved(m);
  }

  /** Two words joined by one space are collapsed. */
  lemma {:induction false} OneSpaceCollapsed(a: string, b: string)
    requires b != []
    requires forall i :: 0 <= i < |a| ==> !IsSpace(a[i])
    requires forall i :: 0 <= i < |b| ==> !IsSpace(b[i])
    ensures IsCollapsed(a + " " + b)
    decreases |a|
  {
    NoSpaceIsCollapsed(b);
    if a != [] {
      OneSpaceCollapsed(a[1..], b);
      assert (a + " " + b)[1..] == a[1..] + " " + b;
    } else {
      assert (a + " " + b)[1..] == b;
    }
  }

  /** A line that is already trimmed, collapsed and free of citations is kept as it stands
      once it has 10 chars. */
  lemma CleanLineKeptAsIs(line: string)
    requires |line| >= MinLineLength && IsCollapsed(line) && '[' !in line
    requires !IsTrimmable(line[0]) && !IsTrimmable(line[|line| - 1])
    ensures LineContribution(line) == line + " "
  {
    assert TrimStart(line) == line;
    assert TrimEnd(line) == line;
    CollapseFixpoint(line);
  }

  /** Two words joined by one space, ten chars in all, pass the length test and are kept as
      they stand: "Short line" is such a line. */
  lemma TwoWordLineKept(a: string, b: string)
    requires a != [] && b != [] && |a| + 1 + |b| >= MinLineLength
    requires forall i :: 0 <= i < |a| ==> a[i] > ' ' && a[i] != '['
    requires forall i :: 0 <= i < |b| ==> b[i] > ' ' && b[i] != '['
    ensures LineContribution(a + " " + b) == a + " " + b + " "
  {
    var s := a + " " + b;
    OneSpaceCollapsed(a, b);
    assert s[0] == a[0] && s[|s| - 1] == b[|b| - 1];
    assert '[' !in s by {
      forall i | 0 <= i < |s| ensures s[i] != '[' {
        if i < |a| { assert s[i] == a[i]; }
        else if i > |a| { assert s[i] == b[i - |a| - 1]; }
      }
    }
    CleanLineKeptAsIs(s);
  }

  // ---------------------------------------------------------------------------------------
  // The methods.
  // ---------------------------------------------------------------------------------------

  /** The line loop of `cleanHtmlContent`: each line trimmed, skipped when shorter than 10
      chars, otherwise whitespace-collapsed, stripped of citations and appended with a space. */
  method JoinLines(lines: seq<string>) returns (builder: string)
    ensures builder == JoinKept(lines)
  {
    builder := "";
    var i := 0;
    while i < |lines|
      invariant 0 <= i <= |lines|
      invariant builder == JoinKept(lines[..i])
    {
      JoinKeptStep(lines, i);
      var line := Trim(lines[i]);
      if |line| < MinLineLength {
        i := i + 1;
        continue;
      }
      line := CollapseWhitespace(line);
      line := RemoveCitations(line);
      builder := builder + (line + " ");
      i := i + 1;
    }
    assert lines[..i] == lines;
  }

  /** The truncation step of `cleanHtmlContent`. */
  method Truncate(cleanText: string) returns (r: string)
    ensures r == SmartTruncate(cleanText)
  {
    r := cleanText;
    if |cleanText| > MaxLength {
      var truncated := cleanText[..MaxLength];
      var lastPeriod := LastIndexOf(truncated, ". ");
      TruncationSteps(cleanText, truncated, lastPeriod);
      if lastPeriod > SmartCutThreshold {
        r := truncated[..lastPeriod + 1] + TruncationMarker;
      } else {
        r := truncated + TruncationMarker;
      }
    }
  }

  /** `cleanHtmlContent(htmlContent)`, from the point where Jsoup has produced `extracted`. */
  method CleanHtmlContent(htmlContent: Option<string>, extracted: Option<string>) returns (article: Article)
    ensures article == CleanedArticle(htmlContent, extracted)
  {
    article := EmptyArticle();
    if htmlContent.None? || Trim(htmlContent.value) == [] {
      return;
    }
    if extracted.None? {
      return;
    }
    var builder := JoinLines(SplitLines(extracted.value));
    var cleanText := Trim(builder);
    cleanText := CollapseWhitespace(cleanText);
    cleanText := Truncate(cleanText);
    article := article.(cleanText := Some(cleanText), originalLength := Some(|htmlContent.value|),
                        cleanedLength := Some(|cleanText|));
  }

  /** The text sent to the model: the title, the subtitle when it is non-null and non-empty,
      then the clean text (a null clean text printing as "null"), joined by blank lines. */
  function FullText(title: string, subtitle: Option<string>, cleanText: Option<string>): string
  {
    title + (if subtitle.Some? && subtitle.value != "" then "\n\n" + subtitle.value else "")
    + "\n\n" + NullableText(cleanText)
  }

  /** The layout of `fullText`: the title, then "\n\n" and the subtitle when there is a
      non-empty one, then "\n\n" and the cleaned text ("null" when absent). */
  lemma FullTextLayout(title: string, subtitle: Option<string>, cleanText: Option<string>)
    ensures var f := FullText(title, subtitle, cleanText);
      var tail := "\n\n" + NullableText(cleanText);
      f[..|title|] == title && |f| >= |title| + |tail| && f[|f| - |tail|..] == tail
      && (subtitle.None? || subtitle == Some("") ==> f == title + tail)
    ensures subtitle.Some? && subtitle.value != "" ==>
      var f := FullText(title, subtitle, cleanText);
      var mid := "\n\n" + subtitle.value;
      |f| == |title| + |mid| + 2 + |NullableText(cleanText)|
      && f[|title|..|title| + |mid|] == mid
  {
  }

  /** `extractFromJson(json)`: `parsed` is what Jackson reads from the JSON (None when it
      throws). A null title makes the StringBuilder throw, which is caught like a parse error. */
  method ExtractFromJson(parsed: Option<Article>, extracted: Option<string>) returns (article: Article)
    ensures parsed.None? || parsed.value.title.None? ==> article == EmptyArticle()
    ensures parsed.Some? && parsed.value.title.Some? ==>
      var a := parsed.value;
      var c := CleanedArticle(a.htmlBody, extracted);
      var f := FullText(a.title.value, a.subtitle, c.cleanText);
      article == a.(cleanText := c.cleanText, fullText := Some(f), tokenEstimate := Some(|f| / 4),
                    originalLength := c.originalLength, cleanedLength := c.cleanedLength)
  {
    if parsed.None? {
      return EmptyArticle();
    }
    var a := parsed.value;
    var cleaned := CleanHtmlContent(a.htmlBody, extracted);
    if a.title.None? {
      return EmptyArticle();
    }
    var fullText := a.title.value;
    if a.subtitle.Some? && a.subtitle.value != "" {
      fullText := fullText + ("\n\n" + a.subtitle.value);
    }
    assert fullText == a.title.value + (if a.subtitle.Some? && a.subtitle.value != "" then "\n\n" + a.subtitle.value else "");
    fullText := fullText + "\n\n" + NullableText(cleaned.cleanText);
    var tokenEstimate := |fullText| / 4;
    article := a.(cleanText := cleaned.cleanText, fullText := Some(fullText),
                  tokenEstimate := Some(tokenEstimate), originalLength := cleaned.originalLength,
                  cleanedLength := cleaned.cleanedLength);
  }
}
