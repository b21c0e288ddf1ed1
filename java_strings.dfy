/**
 * The parts of java.lang.String and java.util.regex that the quiz generator relies on,
 * written out over `seq<char>`. Java strings are sequences of UTF-16 code units; here a
 * `char` stands for one code unit.
 */
module JavaStrings {
  import opened Wrappers

  /** String concatenation in Java renders a null reference as the four letters "null". */
  function NullableText(s: Option<string>): (r: string)
    ensures s.Some? ==> r == s.value
    ensures s.None? ==> r == "null"
  {
    match s
    case Some(t) => t
    case None => "null"
  }

  // ---------------------------------------------------------------------------------------
  // String.trim: strips every leading and trailing char whose code is at most U+0020.
  // ---------------------------------------------------------------------------------------

  predicate IsTrimmable(c: char) { c <= ' ' }

  function TrimStart(s: string): (r: string)
    ensures |r| <= |s| && r == s[|s| - |r|..]
    ensures r == [] || !IsTrimmable(r[0])
    ensures forall i :: 0 <= i < |s| - |r| ==> IsTrimmable(s[i])
  {
    if s != [] && IsTrimmable(s[0]) then TrimStart(s[1..]) else s
  }

  function TrimEnd(s: string): (r: string)
    ensures |r| <= |s| && r == s[..|r|]
    ensures r == [] || !IsTrimmable(r[|r| - 1])
    ensures forall i :: |r| <= i < |s| ==> IsTrimmable(s[i])
  {
    if s != [] && IsTrimmable(s[|s| - 1]) then TrimEnd(s[..|s| - 1]) else s
  }

  /** `r` is the slice of `s` at index `i` once only trimmable chars are cut from both ends. */
  predicate TrimmedAt(s: string, r: string, i: int) {
    0 <= i <= |s| - |r| && r == s[i..i + |r|]
    && (forall k :: 0 <= k < i ==> IsTrimmable(s[k]))
    && (forall k :: i + |r| <= k < |s| ==> IsTrimmable(s[k]))
  }

  /** Java's `String.trim()`. */
  function Trim(s: string): (r: string)
    ensures |r| <= |s|
    ensures r != [] ==> !IsTrimmable(r[0]) && !IsTrimmable(r[|r| - 1])
  {
    TrimEnd(TrimStart(s))
  }

  /** Cutting trimmable chars from the front (leaving `t`) and then from the back (leaving
      `r`) leaves a slice of `s` at `|s| - |t|`. */
  lemma TrimSlice(s: string, t: string, r: string)
    requires |t| <= |s| && t == s[|s| - |t|..]
    requires forall k :: 0 <= k < |s| - |t| ==> IsTrimmable(s[k])
    requires |r| <= |t| && r == t[..|r|]
    requires forall k :: |r| <= k < |t| ==> IsTrimmable(t[k])
    ensures TrimmedAt(s, r, |s| - |t|)
  {
    var i := |s| - |t|;
    assert r == s[i..i + |r|];
    forall k | i + |r| <= k < |s|
      ensures IsTrimmable(s[k])
    {
      assert s[k] == t[k - i];
    }
  }

  /** What trim keeps: the slice of its input left once only trimmable chars are cut from both
      ends, and that slice is empty or starts and ends with a non-trimmable char. */
  lemma TrimSpec(s: string)
    ensures exists i :: TrimmedAt(s, Trim(s), i)
    ensures Trim(s) == [] || (!IsTrimmable(Trim(s)[0]) && !IsTrimmable(Trim(s)[|Trim(s)| - 1]))
  {
    var t := TrimStart(s);
    var r := TrimEnd(t);
    TrimSlice(s, t, r);
    assert TrimmedAt(s, Trim(s), |s| - |t|);
    assert r != [] ==> r[0] == t[0];
  }

  /** `s.trim().isEmpty()` holds exactly when every char of `s` is at most U+0020. */
  lemma {:induction false} TrimEmptyIff(s: string)
    ensures Trim(s) == [] <==> forall i :: 0 <= i < |s| ==> IsTrimmable(s[i])
  {
    var t := TrimStart(s);
    if Trim(s) != [] {
      assert t != [] && !IsTrimmable(t[0]);
      assert t[0] == s[|s| - |t|];
    }
  }

  // ---------------------------------------------------------------------------------------
  // The regular expression `\s+` replaced by " " (Pattern.matcher(..).replaceAll(" ")).
  // Without UNICODE_CHARACTER_CLASS, Java's `\s` is exactly [ \t\n\x0B\f\r].
  // ---------------------------------------------------------------------------------------

  predicate IsSpace(c: char) {
    c == ' ' || c == '\t' || c == '\n' || c == '\U{B}' || c == '\U{C}' || c == '\r'
  }

  /** No regex whitespace other than ' ', and never two whitespace chars in a row. */
  predicate IsCollapsed(s: string) {
    s == []
    || ((IsSpace(s[0]) ==> s[0] == ' ' && (|s| > 1 ==> !IsSpace(s[1]))) && IsCollapsed(s[1..]))
  }

  /** The same property, stated position by position. */
  lemma {:induction false} IsCollapsedAt(s: string, i: nat)
    requires IsCollapsed(s) && i < |s|
    ensures IsSpace(s[i]) ==> s[i] == ' '
    ensures i + 1 < |s| ==> !(IsSpace(s[i]) && IsSpace(s[i + 1]))
  {
    if i > 0 {
      IsCollapsedAt(s[1..], i - 1);
    }
  }

  /** A string without whitespace is collapsed. */
  lemma {:induction false} NoSpaceIsCollapsed(s: string)
    requires forall i :: 0 <= i < |s| ==> !IsSpace(s[i])
    ensures IsCollapsed(s)
  {
    if s != [] {
      NoSpaceIsCollapsed(s[1..]);
    }
  }

  /** The tail of a concatenation whose left part is not empty. */
  lemma TailOfConcat(a: string, x: string)
    requires a != []
    ensures (a + x)[0] == a[0] && (a + x)[1..] == a[1..] + x
    ensures a == [a[0]] + a[1..]
  {
  }

  /** Splitting off the first char of the left part of a concatenation. */
  lemma ConsConcat(a: string, x: string)
    requires a != []
    ensures a + x == [a[0]] + (a[1..] + x)
  {
    TailOfConcat(a, x);
  }

  /** Dropping the first char of `a` moves every suffix of `a + x` one place along. */
  lemma SuffixShift(a: string, x: string, i: nat)
    requires a != [] && i <= |a| - 1 + |x|
    ensures (a[1..] + x)[i..] == (a + x)[i + 1..]
  {
  }

  /** Re-associating three parts. */
  lemma Assoc3(a: string, b: string, c: string)
    ensures a + b + c == a + (b + c)
  {
  }

  /** Re-associating a char, a middle part and a tail. */
  lemma ConsAppend(c: char, t: string, r: string)
    ensures [c] + (t + r) == ([c] + t) + r
  {
  }

  /** Drops the maximal run of whitespace at the front. */
  function SkipSpaces(s: string): (r: string)
    ensures |r| <= |s| && r == s[|s| - |r|..]
    ensures r == [] || !IsSpace(r[0])
    ensures forall i :: 0 <= i < |s| - |r| ==> IsSpace(s[i])
  {
    if s != [] && IsSpace(s[0]) then SkipSpaces(s[1..]) else s
  }

  /** Every maximal run of whitespace becomes a single ' '. */
  function CollapseWhitespace(s: string): (r: string)
    ensures |r| <= |s|
    ensures r == [] <==> s == []
    ensures s != [] ==> (IsSpace(r[0]) <==> IsSpace(s[0]))
    ensures s != [] && !IsSpace(s[0]) ==> r[0] == s[0]
    decreases |s|
  {
    if s == [] then []
    else if IsSpace(s[0]) then " " + CollapseWhitespace(SkipSpaces(s))
    else [s[0]] + CollapseWhitespace(s[1..])
  }

  /** Collapsing leaves no whitespace but ' ' and no two whitespace chars in a row. */
  lemma {:induction false} CollapsedResult(s: string)
    ensures IsCollapsed(CollapseWhitespace(s))
    decreases |s|
  {
    if s != [] {
      if IsSpace(s[0]) {
        var t := SkipSpaces(s);
        CollapsedResult(t);
        assert (" " + CollapseWhitespace(t))[1..] == CollapseWhitespace(t);
      } else {
        CollapsedResult(s[1..]);
        assert ([s[0]] + CollapseWhitespace(s[1..]))[1..] == CollapseWhitespace(s[1..]);
      }
    }
  }

  /** A string that ends in a non-whitespace char keeps that char last. */
  lemma {:induction false} CollapseKeepsLast(s: string)
    requires s != [] && !IsSpace(s[|s| - 1])
    ensures CollapseWhitespace(s) != [] && CollapseWhitespace(s)[|CollapseWhitespace(s)| - 1] == s[|s| - 1]
    decreases |s|
  {
    if IsSpace(s[0]) {
      var t := SkipSpaces(s);
      assert t != [];
      assert t[|t| - 1] == s[|s| - 1];
      CollapseKeepsLast(t);
    } else if |s| > 1 {
      assert s[1..][|s| - 2] == s[|s| - 1];
      CollapseKeepsLast(s[1..]);
    }
  }

  predicate AllSpace(w: string) { forall i :: 0 <= i < |w| ==> IsSpace(w[i]) }

  /** A whitespace run is skipped up to the first non-whitespace char after it. */
  lemma {:induction false} SkipSpacesRun(w: string, b: string)
    requires AllSpace(w) && (b == [] || !IsSpace(b[0]))
    ensures SkipSpaces(w + b) == b
    decreases |w|
  {
    if w == [] {
      assert w + b == b;
    } else {
      TailOfConcat(w, b);
      assert AllSpace(w[1..]);
      SkipSpacesRun(w[1..], b);
    }
  }

  /** A string that ends in a non-whitespace char splits into its leading whitespace run and
      the rest, which keeps that last char. */
  lemma SkipSpacesSplit(a: string)
    requires a != [] && IsSpace(a[0]) && !IsSpace(a[|a| - 1])
    ensures var t := SkipSpaces(a); var w := a[..|a| - |t|];
      a == w + t && w != [] && AllSpace(w) && t != [] && !IsSpace(t[0])
      && t[|t| - 1] == a[|a| - 1] && |t| < |a|
  {
    var t := SkipSpaces(a);
    var k := |a| - |t|;
    assert t == a[k..];
    assert t != [];
    assert t[|t| - 1] == a[|a| - 1];
    assert k > 0;
    var w := a[..k];
    forall i | 0 <= i < k ensures IsSpace(w[i]) {
      assert w[i] == a[i];
    }
    assert AllSpace(w);
    assert a == w + t;
  }

  /** A non-whitespace char is kept as it is. */
  lemma CollapseCons(c: char, y: string)
    requires !IsSpace(c)
    ensures CollapseWhitespace([c] + y) == [c] + CollapseWhitespace(y)
  {
    TailOfConcat([c], y);
  }

  /** A whitespace run at the front becomes one ' '. */
  lemma CollapseRun(w: string, b: string)
    requires w != [] && AllSpace(w) && (b == [] || !IsSpace(b[0]))
    ensures CollapseWhitespace(w + b) == " " + CollapseWhitespace(b)
  {
    assert (w + b)[0] == w[0];
    SkipSpacesRun(w, b);
  }

  lemma CollapseConcatKept(a: string, x: string)
    requires a != [] && !IsSpace(a[0])
    requires CollapseWhitespace(a[1..] + x) == CollapseWhitespace(a[1..]) + CollapseWhitespace(x)
    ensures CollapseWhitespace(a + x) == CollapseWhitespace(a) + CollapseWhitespace(x)
  {
    var c, t := a[0], a[1..];
    ConsConcat(a, x);
    TailOfConcat(a, x);
    CollapseCons(c, t + x);
    CollapseCons(c, t);
    ConsAppend(c, CollapseWhitespace(t), CollapseWhitespace(x));
  }

  lemma CollapseConcatRun(w: string, t: string, x: string)
    requires w != [] && AllSpace(w) && t != [] && !IsSpace(t[0])
    requires CollapseWhitespace(t + x) == CollapseWhitespace(t) + CollapseWhitespace(x)
    ensures CollapseWhitespace((w + t) + x) == CollapseWhitespace(w + t) + CollapseWhitespace(x)
  {
    Assoc3(w, t, x);
    TailOfConcat(t, x);
    CollapseRun(w, t + x);
    CollapseRun(w, t);
    Assoc3(" ", CollapseWhitespace(t), CollapseWhitespace(x));
  }

  /** Collapsing distributes over a cut made right after a non-whitespace char. */
  lemma {:induction false} CollapseConcat(a: string, x: string)
    requires a == [] || !IsSpace(a[|a| - 1])
    ensures CollapseWhitespace(a + x) == CollapseWhitespace(a) + CollapseWhitespace(x)
    decreases |a|
  {
    if a == [] {
      assert a + x == x;
    } else if !IsSpace(a[0]) {
      var t := a[1..];
      assert t == [] || t[|t| - 1] == a[|a| - 1];
      CollapseConcat(t, x);
      CollapseConcatKept(a, x);
    } else {
      var t := SkipSpaces(a);
      var w := a[..|a| - |t|];
      SkipSpacesSplit(a);
      assert a == w + t;
      CollapseConcat(t, x);
      CollapseConcatRun(w, t, x);
    }
  }

  /** A whitespace run between two non-whitespace chars (or the ends of the text) becomes one
      ' ', and the text on either side is collapsed on its own. */
  lemma CollapseJoinsRuns(a: string, w: string, b: string)
    requires a == [] || !IsSpace(a[|a| - 1])
    requires w != [] && AllSpace(w)
    requires b == [] || !IsSpace(b[0])
    ensures CollapseWhitespace(a + w + b) == CollapseWhitespace(a) + " " + CollapseWhitespace(b)
  {
    Assoc3(a, w, b);
    CollapseConcat(a, w + b);
    CollapseRun(w, b);
    Assoc3(CollapseWhitespace(a), " ", CollapseWhitespace(b));
  }

  /** Collapsing leaves an already collapsed string alone, so collapsing twice is collapsing once. */
  lemma {:induction false} CollapseFixpoint(s: string)
    requires IsCollapsed(s)
    ensures CollapseWhitespace(s) == s
    decreases |s|
  {
    if s != [] {
      if IsSpace(s[0]) {
        assert SkipSpaces(s) == SkipSpaces(s[1..]);
        assert s[1..] == [] || !IsSpace(s[1..][0]);
        assert SkipSpaces(s[1..]) == s[1..];
      }
      CollapseFixpoint(s[1..]);
    }
  }

  // ---------------------------------------------------------------------------------------
  // Substring search: contains, lastIndexOf, and the char forms of indexOf / lastIndexOf.
  // ---------------------------------------------------------------------------------------

  predicate StartsWith(s: string, p: string) {
    |p| <= |s| && s[..|p|] == p
  }

  /** `s.contains(p)`. */
  predicate Contains(s: string, p: string)
    decreases |s|
  {
    StartsWith(s, p) || (s != [] && Contains(s[1..], p))
  }

  /** `p` occurs in `s` starting at index `i`. */
  predicate OccursAt(s: string, p: string, i: int) {
    0 <= i && i + |p| <= |s| && s[i..i + |p|] == p
  }

  /** A suffix starts with `p` exactly when `p` occurs where the suffix begins. */
  lemma SuffixStartsWith(t: string, i: nat, p: string)
    requires i <= |t|
    ensures StartsWith(t[i..], p) <==> OccursAt(t, p, i)
  {
    if i + |p| <= |t| {
      assert t[i..][..|p|] == t[i..i + |p|];
    }
  }

  /** A string contains everything written into it. */
  lemma {:induction false} ContainsWithin(a: string, p: string, b: string)
    ensures Contains(a + p + b, p)
    decreases |a|
  {
    if a == [] {
      assert (a + p + b)[..|p|] == p;
    } else {
      assert (a + p + b)[1..] == a[1..] + p + b;
      ContainsWithin(a[1..], p, b);
    }
  }

  /** `s.contains(p)` holds exactly when `p` occurs at some index. */
  lemma {:induction false} ContainsAt(s: string, p: string)
    ensures Contains(s, p) ==> exists i :: OccursAt(s, p, i)
    ensures forall i :: OccursAt(s, p, i) ==> Contains(s, p)
    decreases |s|
  {
    if s == [] {
      forall i | OccursAt(s, p, i) ensures Contains(s, p) {
        assert s[..|p|] == p;
      }
      if Contains(s, p) {
        assert OccursAt(s, p, 0);
      }
    } else {
      ContainsAt(s[1..], p);
      forall i | OccursAt(s, p, i) ensures Contains(s, p) {
        if i > 0 {
          assert s[1..][i - 1..i - 1 + |p|] == p;
          assert OccursAt(s[1..], p, i - 1);
        } else {
          assert s[..|p|] == s[i..i + |p|];
        }
      }
      if StartsWith(s, p) {
        assert OccursAt(s, p, 0);
      } else if Contains(s[1..], p) {
        var i :| OccursAt(s[1..], p, i);
        assert s[i + 1..i + 1 + |p|] == p;
        assert OccursAt(s, p, i + 1);
      }
    }
  }

  /** `s.lastIndexOf(p)`: the largest index where `p` occurs, or -1. */
  function LastIndexOf(s: string, p: string): (r: int)
    ensures r == -1 || OccursAt(s, p, r)
    ensures forall j :: r < j ==> !OccursAt(s, p, j)
    decreases |s|
  {
    if |s| < |p| then -1
    else if s[|s| - |p|..] == p then |s| - |p|
    else
      var r := LastIndexOf(s[..|s| - 1], p);
      LastIndexOfStep(s, s[..|s| - 1], p, r);
      r
  }

  /** Without an occurrence at the very end, the last occurrence in `s` is the last one in
      `s` without its final char. */
  lemma LastIndexOfStep(s: string, t: string, p: string, r: int)
    requires |p| <= |s| && s[|s| - |p|..] != p && t == s[..|s| - 1]
    requires r == -1 || OccursAt(t, p, r)
    requires forall j :: r < j ==> !OccursAt(t, p, j)
    ensures r == -1 || OccursAt(s, p, r)
    ensures forall j :: r < j ==> !OccursAt(s, p, j)
  {
    if r != -1 {
      assert t[r..r + |p|] == s[r..r + |p|];
    }
    forall j | r < j ensures !OccursAt(s, p, j) {
      if 0 <= j && j + |p| <= |t| {
        assert t[j..j + |p|] == s[j..j + |p|];
        assert !OccursAt(t, p, j);
      } else if j + |p| == |s| {
        assert s[j..j + |p|] == s[|s| - |p|..];
      }
    }
  }

  /** `s.indexOf(c)`: the first index of `c`, or -1. */
  function IndexOfChar(s: string, c: char): (r: int)
    ensures -1 <= r < |s|
    ensures r >= 0 ==> s[r] == c
    ensures forall j :: 0 <= j < |s| && (r == -1 || j < r) ==> s[j] != c
  {
    if s == [] then -1
    else if s[0] == c then 0
    else
      var r := IndexOfChar(s[1..], c);
      if r == -1 then -1 else r + 1
  }

  /** `s.lastIndexOf(c)`: the last index of `c`, or -1. */
  function LastIndexOfChar(s: string, c: char): (r: int)
    ensures -1 <= r < |s|
    ensures r >= 0 ==> s[r] == c
    ensures forall j :: r < j < |s| ==> s[j] != c
  {
    if s == [] then -1
    else if s[|s| - 1] == c then |s| - 1
    else LastIndexOfChar(s[..|s| - 1], c)
  }

  /** `s.substring(0, Math.min(n, s.length()))`. */
  function Prefix(s: string, n: nat): (r: string)
    ensures |r| == if |s| <= n then |s| else n
    ensures r == s[..|r|]
  {
    if |s| <= n then s else s[..n]
  }

  /** `s.replace(target, replacement)` for a one-char target. */
  function Replace(s: string, target: char, replacement: string): string
  {
    if s == [] then []
    else (if s[0] == target then replacement else [s[0]]) + Replace(s[1..], target, replacement)
  }

  // ---------------------------------------------------------------------------------------
  // Integer.toString, and the decimal reading that undoes it.
  // ---------------------------------------------------------------------------------------

  predicate IsDigit(c: char) { '0' <= c <= '9' }

  function DigitChar(d: nat): (c: char)
    requires d < 10
    ensures IsDigit(c) && c as int - '0' as int == d
  {
    ('0' as int + d) as char
  }

  function NatToString(n: nat): (r: string)
    ensures r != []
    ensures forall i :: 0 <= i < |r| ==> IsDigit(r[i])
    decreases n
  {
    if n < 10 then [DigitChar(n)] else NatToString(n / 10) + [DigitChar(n % 10)]
  }

  /** The value of a non-empty run of decimal digits. */
  function DecimalValue(s: string): nat
    requires forall i :: 0 <= i < |s| ==> IsDigit(s[i])
  {
    if s == [] then 0
    else
      assert IsDigit(s[|s| - 1]);
      10 * DecimalValue(s[..|s| - 1]) + (s[|s| - 1] as int - '0' as int)
  }

  lemma {:induction false} NatToStringRoundTrip(n: nat)
    ensures DecimalValue(NatToString(n)) == n
    decreases n
  {
    if n >= 10 {
      var s := NatToString(n);
      assert s[..|s| - 1] == NatToString(n / 10);
      NatToStringRoundTrip(n / 10);
    }
  }

  /** `Integer.toString(i)`, with a leading '-' for negative values. */
  function IntToString(i: int): (r: string)
    ensures r != []
    ensures i >= 0 ==> r == NatToString(i)
    ensures i < 0 ==> r == "-" + NatToString(-i)
  {
    if i < 0 then "-" + NatToString(-i) else NatToString(i)
  }

  // ---------------------------------------------------------------------------------------
  // Case mapping, restricted to ASCII letters.
  // ---------------------------------------------------------------------------------------

  function UpperChar(c: char): (u: char)
  {
    if 'a' <= c <= 'z' then (c as int - 32) as char else c
  }

  function LowerChar(c: char): (l: char)
  {
    if 'A' <= c <= 'Z' then (c as int + 32) as char else c
  }

  /** `s.toUpperCase()` on ASCII letters. */
  function ToUpper(s: string): (r: string)
    ensures |r| == |s|
    ensures forall i :: 0 <= i < |s| ==> r[i] == UpperChar(s[i])
  {
    seq(|s|, i requires 0 <= i < |s| => UpperChar(s[i]))
  }

  /** `s.toLowerCase()` on ASCII letters. */
  function ToLower(s: string): (r: string)
    ensures |r| == |s|
    ensures forall i :: 0 <= i < |s| ==> r[i] == LowerChar(s[i])
  {
    seq(|s|, i requires 0 <= i < |s| => LowerChar(s[i]))
  }

  /** `a.equalsIgnoreCase(b)` for a non-null `b`: equal lengths and equal chars up to case. */
  predicate EqualsIgnoreCase(a: string, b: string) {
    |a| == |b| && forall i :: 0 <= i < |a| ==> UpperChar(a[i]) == UpperChar(b[i])
  }

  /** Upper-casing and lower-casing preserve equality up to case. */
  lemma {:induction false} CaseInsensitive(a: string, b: string)
    ensures EqualsIgnoreCase(a, b) <==> ToUpper(a) == ToUpper(b)
    ensures EqualsIgnoreCase(a, b) <==> EqualsIgnoreCase(a, ToLower(b))
    ensures EqualsIgnoreCase(a, b) <==> EqualsIgnoreCase(a, ToUpper(b))
  {
    if EqualsIgnoreCase(a, b) {
      assert forall i :: 0 <= i < |a| ==> ToUpper(a)[i] == ToUpper(b)[i];
    }
    if ToUpper(a) == ToUpper(b) {
      assert forall i :: 0 <= i < |a| ==> UpperChar(a[i]) == ToUpper(a)[i];
    }
  }
}
