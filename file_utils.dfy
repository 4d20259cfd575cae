/** Title clean-up and HTML escaping of text placed in messages and reports. */
module FileUtils {
  import opened Text

  // ---------------------------------------------------------------------------
  // Character replacement
  // ---------------------------------------------------------------------------

  /** `s.replace(c, t)` for a one-character `c`: every `c` becomes `t`. */
  function ReplaceChar(s: string, c: char, t: string): (r: string)
    ensures c !in t ==> c !in r
    ensures c !in s ==> r == s
    decreases |s|
  {
    if |s| == 0 then [] else (if s[0] == c then t else [s[0]]) + ReplaceChar(s[1..], c, t)
  }

  lemma {:induction false} ReplaceCharConcat(a: string, b: string, c: char, t: string)
    ensures ReplaceChar(a + b, c, t) == ReplaceChar(a, c, t) + ReplaceChar(b, c, t)
    decreases |a|
  {
    if |a| == 0 {
      assert a + b == b;
    } else {
      assert (a + b)[1..] == a[1..] + b;
      ReplaceCharConcat(a[1..], b, c, t);
    }
  }

  // ---------------------------------------------------------------------------
  // clean_title
  // ---------------------------------------------------------------------------

  /** Line breaks become spaces. */
  function NewlinesToSpaces(s: string): string {
    ReplaceChar(ReplaceChar(s, '\n', " "), '\r', " ")
  }

  /** Every whitespace character is a plain space, and no two spaces are adjacent. */
  predicate SingleSpaced(t: string) {
    && (forall i :: 0 <= i < |t| && IsSpace(t[i]) ==> t[i] == ' ')
    && (forall i :: 0 <= i < |t| - 1 ==> !(t[i] == ' ' && t[i + 1] == ' '))
  }

  /** `re.sub(r"\s+", " ", s)`: every maximal run of whitespace becomes one space. */
  function CollapseSpaces(s: string): (r: string)
    ensures |r| == 0 <==> |s| == 0
    ensures |s| > 0 ==> (IsSpace(r[0]) <==> IsSpace(s[0]))
    ensures SingleSpaced(r)
    decreases |s|
  {
    if |s| == 0 then []
    else if IsSpace(s[0]) then StripLeftShape(s); [' '] + CollapseSpaces(StripLeft(s))
    else [s[0]] + CollapseSpaces(s[1..])
  }

  /** `clean_title`: line breaks and whitespace runs become single spaces, then the ends are trimmed. */
  function CleanTitle(title: string): string {
    Strip(CollapseSpaces(NewlinesToSpaces(title)))
  }

  /** Only single plain spaces between words, none at either end. */
  predicate IsClean(t: string) {
    && (t == [] || (!IsSpace(t[0]) && !IsSpace(t[|t| - 1])))
    && SingleSpaced(t)
  }

  /** The non-whitespace characters of `s`, in order. */
  function NonSpace(s: string): string
    decreases |s|
  {
    if |s| == 0 then [] else (if IsSpace(s[0]) then [] else [s[0]]) + NonSpace(s[1..])
  }

  lemma {:induction false} NonSpaceConcat(a: string, b: string)
    ensures NonSpace(a + b) == NonSpace(a) + NonSpace(b)
    decreases |a|
  {
    if |a| == 0 {
      assert a + b == b;
    } else {
      assert (a + b)[1..] == a[1..] + b;
      NonSpaceConcat(a[1..], b);
    }
  }

  lemma {:induction false} NonSpaceStripLeft(s: string)
    ensures NonSpace(StripLeft(s)) == NonSpace(s)
    decreases |s|
  {
    if |s| > 0 {
      NonSpaceStripLeft(s[1..]);
    }
  }

  lemma {:induction false} NonSpaceStripRight(s: string)
    ensures NonSpace(StripRight(s)) == NonSpace(s)
    decreases |s|
  {
    if |s| > 0 && IsSpace(s[|s| - 1]) {
      NonSpaceStripRight(s[..|s| - 1]);
      assert s == s[..|s| - 1] + [s[|s| - 1]];
      NonSpaceConcat(s[..|s| - 1], [s[|s| - 1]]);
    }
  }

  /** Dropping whitespace at either end keeps the text. */
  lemma NonSpaceStrip(s: string)
    ensures NonSpace(Strip(s)) == NonSpace(s)
  {
    NonSpaceStripLeft(s);
    NonSpaceStripRight(StripLeft(s));
  }

  lemma {:induction false} NonSpaceCollapse(s: string)
    ensures NonSpace(CollapseSpaces(s)) == NonSpace(s)
    decreases |s|
  {
    if |s| > 0 {
      if IsSpace(s[0]) {
        NonSpaceCollapse(StripLeft(s));
        NonSpaceStripLeft(s);
      } else {
        NonSpaceCollapse(s[1..]);
      }
    }
  }

  lemma {:induction false} NonSpaceReplace(s: string, c: char)
    requires IsSpace(c)
    ensures NonSpace(ReplaceChar(s, c, " ")) == NonSpace(s)
    decreases |s|
  {
    if |s| > 0 {
      NonSpaceReplace(s[1..], c);
      NonSpaceConcat(if s[0] == c then " " else [s[0]], ReplaceChar(s[1..], c, " "));
    }
  }

  /** The non-whitespace characters survive in order: only whitespace is changed. */
  lemma CleanTitleKeepsText(title: string)
    ensures NonSpace(CleanTitle(title)) == NonSpace(title)
  {
    NonSpaceReplace(title, '\n');
    NonSpaceReplace(ReplaceChar(title, '\n', " "), '\r');
    NonSpaceCollapse(NewlinesToSpaces(title));
    NonSpaceStrip(CollapseSpaces(NewlinesToSpaces(title)));
  }

  /** Replacing a character by one space keeps the length and changes only that character. */
  lemma {:induction false} ReplaceSpaceAt(s: string, c: char)
    ensures |ReplaceChar(s, c, " ")| == |s|
    ensures forall i :: 0 <= i < |s| ==> ReplaceChar(s, c, " ")[i] == if s[i] == c then ' ' else s[i]
    decreases |s|
  {
    if |s| > 0 {
      ReplaceSpaceAt(s[1..], c);
      var head := if s[0] == c then " " else [s[0]];
      assert ReplaceChar(s, c, " ") == head + ReplaceChar(s[1..], c, " ");
    }
  }

  /** Turning a whitespace character into a space keeps the words. */
  lemma WordsReplaceSpace(s: string, c: char)
    requires IsSpace(c)
    ensures Words(ReplaceChar(s, c, " ")) == Words(s)
  {
    ReplaceSpaceAt(s, c);
    WordsSameShape(ReplaceChar(s, c, " "), s);
  }

  /** Collapsing whitespace runs keeps the words. */
  lemma {:induction false} WordsCollapse(s: string)
    ensures Words(CollapseSpaces(s)) == Words(s)
    decreases |s|
  {
    if |s| > 0 {
      if IsSpace(s[0]) {
        StripLeftShape(s);
        var rest := CollapseSpaces(StripLeft(s));
        WordsCollapse(StripLeft(s));
        WordsCons(' ', rest);
        WordsStripLeft(s);
      } else {
        var rest := CollapseSpaces(s[1..]);
        WordsCollapse(s[1..]);
        assert s == [s[0]] + s[1..];
        WordsCons(s[0], rest);
        WordsCons(s[0], s[1..]);
        if |s| > 1 {
          assert s[1..][0] == s[1];
        }
      }
    }
  }

  /** `clean_title` keeps the words of the title: each whitespace run between two words becomes one space. */
  lemma CleanTitleKeepsWords(title: string)
    ensures Words(CleanTitle(title)) == Words(title)
  {
    WordsReplaceSpace(title, '\n');
    WordsReplaceSpace(ReplaceChar(title, '\n', " "), '\r');
    WordsCollapse(NewlinesToSpaces(title));
    WordsStrip(CollapseSpaces(NewlinesToSpaces(title)));
  }

  /** A slice of a single-spaced string is single-spaced. */
  lemma SliceSpacing(t: string, i: nat, j: nat)
    requires i <= j <= |t| && SingleSpaced(t)
    ensures SingleSpaced(t[i..j])
  {
    var u := t[i..j];
    forall k | 0 <= k < |u|
      ensures IsSpace(u[k]) ==> u[k] == ' '
    {
      assert u[k] == t[i + k];
    }
    forall k | 0 <= k < |u| - 1
      ensures !(u[k] == ' ' && u[k + 1] == ' ')
    {
      assert u[k] == t[i + k] && u[k + 1] == t[i + k + 1];
    }
  }

  /** A single-spaced string holds no line break. */
  lemma NoLineBreaks(t: string)
    requires SingleSpaced(t)
    ensures '\n' !in t && '\r' !in t
  {
    if '\n' in t {
      var k :| 0 <= k < |t| && t[k] == '\n';
      assert IsSpace(t[k]);
    }
    if '\r' in t {
      var k :| 0 <= k < |t| && t[k] == '\r';
      assert IsSpace(t[k]);
    }
  }

  /** The result has no line breaks, no whitespace at either end and no two spaces in a row. */
  lemma CleanTitleIsClean(title: string)
    ensures IsClean(CleanTitle(title))
    ensures '\n' !in CleanTitle(title) && '\r' !in CleanTitle(title)
  {
    StripSingleSpaced(CollapseSpaces(NewlinesToSpaces(title)));
  }

  /** Stripping a single-spaced string leaves a clean one. */
  lemma StripSingleSpaced(c: string)
    requires SingleSpaced(c)
    ensures IsClean(Strip(c)) && '\n' !in Strip(c) && '\r' !in Strip(c)
  {
    var left := StripLeft(c);
    var r := StripRight(left);
    assert SingleSpaced(left) by {
      StripLeftShape(c);
      SliceSpacing(c, |c| - |left|, |c|);
      assert c[|c| - |left|..|c|] == left;
    }
    assert SingleSpaced(r) by {
      StripRightShape(left);
      SliceSpacing(left, 0, |r|);
      assert left[0..|r|] == r;
    }
    assert r == [] || (!IsSpace(r[0]) && !IsSpace(r[|r| - 1])) by {
      StripLeftShape(c);
      StripRightShape(left);
    }
    NoLineBreaks(r);
  }

  lemma {:induction false} CollapseFixes(t: string)
    requires SingleSpaced(t)
    ensures CollapseSpaces(t) == t
    decreases |t|
  {
    if |t| > 0 {
      SliceSpacing(t, 1, |t|);
      assert t[1..|t|] == t[1..];
      CollapseFixes(t[1..]);
      if IsSpace(t[0]) {
        assert |t| > 1 ==> !IsSpace(t[1]);
        assert StripLeft(t) == t[1..];
      }
      assert t == [t[0]] + t[1..];
    }
  }

  /** A clean string is its words joined by single spaces. */
  lemma {:induction false} CleanIsJoin(t: string)
    requires IsClean(t)
    ensures t == Join(Words(t), " ")
    decreases |t|
  {
    if |t| > 0 {
      var w := WordPrefix(t);
      if |w| == |t| {
        CleanOneWord(t);
      } else {
        var rest := CleanFirstWord(t);
        CleanIsJoin(rest);
        assert Words(t) == [w] + Words(rest);
      }
    }
  }

  /** A clean string without a space is its only word. */
  lemma CleanOneWord(t: string)
    requires IsClean(t) && |t| > 0 && |WordPrefix(t)| == |t|
    ensures Words(t) == [t]
  {
    assert StripLeft(t) == t;
    WordPrefixShape(t);
    assert WordPrefix(t) == t;
    assert Words(t) == [t] + Words(t[|t|..]);
    assert t[|t|..] == [];
  }

  /** A clean string with a space is its first word, one space, and a clean rest. */
  lemma CleanFirstWord(t: string) returns (rest: string)
    requires IsClean(t) && |t| > 0 && |WordPrefix(t)| < |t|
    ensures var w := WordPrefix(t);
      && t == w + " " + rest && |rest| > 0 && IsClean(rest)
      && Words(t) == [w] + Words(rest) && |Words(rest)| > 0
  {
    assert StripLeft(t) == t;
    WordPrefixShape(t);
    var w := WordPrefix(t);
    var n := |w|;
    assert Words(t) == [w] + Words(t[n..]);
    assert t[n] == ' ';
    assert n + 1 < |t|;
    rest := t[n + 1..|t|];
    CleanSuffix(t, n + 1);
    assert t[n..] == [' '] + rest;
    WordsCons(' ', rest);
    assert StripLeft(rest) == rest;
    assert t == t[..n] + [' '] + rest;
  }

  /** What follows a space in a clean string is clean. */
  lemma CleanSuffix(t: string, k: nat)
    requires IsClean(t) && 0 < k < |t| && t[k - 1] == ' '
    ensures IsClean(t[k..|t|])
  {
    SliceSpacing(t, k, |t|);
    var u := t[k..|t|];
    assert u[0] == t[k] && u[|u| - 1] == t[|t| - 1];
  }

  /** `clean_title` gives exactly the title's words, joined by single spaces. */
  lemma CleanTitleIsJoin(title: string)
    ensures CleanTitle(title) == Join(Words(title), " ")
  {
    CleanTitleIsClean(title);
    CleanIsJoin(CleanTitle(title));
    CleanTitleKeepsWords(title);
  }

  /** A clean title is left as it is. */
  lemma CleanTitleFixes(t: string)
    requires IsClean(t)
    ensures CleanTitle(t) == t
  {
    NoLineBreaks(t);
    assert NewlinesToSpaces(t) == t;
    CollapseFixes(t);
    StripUnchanged(t);
  }

  /** Cleaning twice is cleaning once. */
  lemma CleanTitleIdempotent(title: string)
    ensures CleanTitle(CleanTitle(title)) == CleanTitle(title)
  {
    CleanTitleIsClean(title);
    CleanTitleFixes(CleanTitle(title));
  }

  // ---------------------------------------------------------------------------
  // html_escape
  // ---------------------------------------------------------------------------

  /** The replacement of one character. */
  function EscapeChar(c: char): string {
    if c == '&' then "&amp;"
    else if c == '<' then "&lt;"
    else if c == '>' then "&gt;"
    else if c == '"' then "&quot;"
    else if c == '\'' then "&#x27;"
    else [c]
  }

  /** Each character replaced on its own, as the reference for the chained replacements. */
  function EscapeEach(s: string): string
    decreases |s|
  {
    if |s| == 0 then [] else EscapeChar(s[0]) + EscapeEach(s[1..])
  }

  /** `html_escape`: the five replacements, `&` first. */
  function HtmlEscape(text: string): string {
    ReplaceChar(ReplaceChar(ReplaceChar(ReplaceChar(ReplaceChar(
      text, '&', "&amp;"), '<', "&lt;"), '>', "&gt;"), '"', "&quot;"), '\'', "&#x27;")
  }

  lemma HtmlEscapeConcat(a: string, b: string)
    ensures HtmlEscape(a + b) == HtmlEscape(a) + HtmlEscape(b)
  {
    ReplaceCharConcat(a, b, '&', "&amp;");
    var a1, b1 := ReplaceChar(a, '&', "&amp;"), ReplaceChar(b, '&', "&amp;");
    ReplaceCharConcat(a1, b1, '<', "&lt;");
    var a2, b2 := ReplaceChar(a1, '<', "&lt;"), ReplaceChar(b1, '<', "&lt;");
    ReplaceCharConcat(a2, b2, '>', "&gt;");
    var a3, b3 := ReplaceChar(a2, '>', "&gt;"), ReplaceChar(b2, '>', "&gt;");
    ReplaceCharConcat(a3, b3, '"', "&quot;");
    var a4, b4 := ReplaceChar(a3, '"', "&quot;"), ReplaceChar(b3, '"', "&quot;");
    ReplaceCharConcat(a4, b4, '\'', "&#x27;");
  }

  lemma ReplaceOne(c: char, d: char, t: string)
    ensures ReplaceChar([c], d, t) == if c == d then t else [c]
  {
    assert [c][1..] == [];
  }

  /** The replacements after the one that produced `e` leave it alone. */
  lemma LaterReplacementsKeep(e: string, from: nat)
    requires from <= 4
    requires from <= 1 ==> '<' !in e
    requires from <= 2 ==> '>' !in e
    requires from <= 3 ==> '"' !in e
    requires '\'' !in e
    ensures from <= 1 ==> ReplaceChar(e, '<', "&lt;") == e
    ensures from <= 2 ==> ReplaceChar(e, '>', "&gt;") == e
    ensures from <= 3 ==> ReplaceChar(e, '"', "&quot;") == e
    ensures ReplaceChar(e, '\'', "&#x27;") == e
  {
  }

  lemma HtmlEscapeOne(c: char)
    ensures HtmlEscape([c]) == EscapeChar(c)
  {
    ReplaceOne(c, '&', "&amp;");
    if c == '&' {
      LaterReplacementsKeep("&amp;", 1);
    } else {
      ReplaceOne(c, '<', "&lt;");
      if c == '<' {
        LaterReplacementsKeep("&lt;", 2);
      } else {
        ReplaceOne(c, '>', "&gt;");
        if c == '>' {
          LaterReplacementsKeep("&gt;", 3);
        } else {
          ReplaceOne(c, '"', "&quot;");
          if c == '"' {
            LaterReplacementsKeep("&quot;", 4);
          } else {
            ReplaceOne(c, '\'', "&#x27;");
          }
        }
      }
    }
  }

  /** Replacing `&` first means no replacement is itself escaped again: each character maps to one fixed text. */
  lemma {:induction false} HtmlEscapeIsPerChar(text: string)
    ensures HtmlEscape(text) == EscapeEach(text)
    decreases |text|
  {
    if |text| > 0 {
      assert text == [text[0]] + text[1..];
      HtmlEscapeConcat([text[0]], text[1..]);
      HtmlEscapeOne(text[0]);
      HtmlEscapeIsPerChar(text[1..]);
    }
  }

  lemma {:induction false} EscapeEachSafe(text: string)
    ensures '<' !in EscapeEach(text) && '>' !in EscapeEach(text)
    ensures '"' !in EscapeEach(text) && '\'' !in EscapeEach(text)
    decreases |text|
  {
    if |text| > 0 {
      EscapeEachSafe(text[1..]);
      EscapeCharSafe(text[0]);
      var e := EscapeChar(text[0]);
      var r := EscapeEach(text[1..]);
      assert EscapeEach(text) == e + r;
      assert forall c :: c in e + r <==> c in e || c in r;
    }
  }

  /** The replacement of one character holds none of `<`, `>`, `"` and `'`. */
  lemma EscapeCharSafe(c: char)
    ensures '<' !in EscapeChar(c) && '>' !in EscapeChar(c)
    ensures '"' !in EscapeChar(c) && '\'' !in EscapeChar(c)
  {
  }

  /** None of `<`, `>`, `"` and `'` is left. */
  lemma HtmlEscapeSafe(text: string)
    ensures '<' !in HtmlEscape(text) && '>' !in HtmlEscape(text)
    ensures '"' !in HtmlEscape(text) && '\'' !in HtmlEscape(text)
  {
    HtmlEscapeIsPerChar(text);
    EscapeEachSafe(text);
  }

  /** Text with none of the five characters is unchanged. */
  lemma HtmlEscapeIdentity(text: string)
    requires '&' !in text && '<' !in text && '>' !in text && '"' !in text && '\'' !in text
    ensures HtmlEscape(text) == text
  {
  }

  /** Decoding of the five entities, left to right; every other character stands for itself. */
  function HtmlUnescape(s: string): string
    decreases |s|
  {
    if |s| == 0 then []
    else if StartsWith(s, "&amp;") then "&" + HtmlUnescape(s[5..])
    else if StartsWith(s, "&lt;") then "<" + HtmlUnescape(s[4..])
    else if StartsWith(s, "&gt;") then ">" + HtmlUnescape(s[4..])
    else if StartsWith(s, "&quot;") then "\"" + HtmlUnescape(s[6..])
    else if StartsWith(s, "&#x27;") then "'" + HtmlUnescape(s[6..])
    else [s[0]] + HtmlUnescape(s[1..])
  }

  lemma UnescapeEntity(e: string, c: char, rest: string)
    requires e == EscapeChar(c) && |e| > 1
    ensures HtmlUnescape(e + rest) == [c] + HtmlUnescape(rest)
  {
    var s := e + rest;
    assert s[..|e|] == e && s[|e|..] == rest;
    assert s[0] == '&' && s[1] == e[1];
    assert "&amp;"[1] == 'a' && "&lt;"[1] == 'l' && "&gt;"[1] == 'g' && "&quot;"[1] == 'q';
    if c == '&' {
      assert StartsWith(s, "&amp;");
    } else if c == '<' {
      assert !StartsWith(s, "&amp;") && StartsWith(s, "&lt;");
    } else if c == '>' {
      assert !StartsWith(s, "&amp;") && !StartsWith(s, "&lt;") && StartsWith(s, "&gt;");
    } else if c == '"' {
      assert !StartsWith(s, "&amp;") && !StartsWith(s, "&lt;") && !StartsWith(s, "&gt;");
      assert StartsWith(s, "&quot;");
    } else {
      assert !StartsWith(s, "&amp;") && !StartsWith(s, "&lt;") && !StartsWith(s, "&gt;");
      assert !StartsWith(s, "&quot;") && StartsWith(s, "&#x27;");
    }
  }

  lemma UnescapeOne(c: char, rest: string)
    ensures HtmlUnescape(EscapeChar(c) + rest) == [c] + HtmlUnescape(rest)
  {
    var e := EscapeChar(c);
    if |e| > 1 {
      UnescapeEntity(e, c, rest);
    } else {
      var s := e + rest;
      assert s[0] == c && s[1..] == rest;
      UnescapePlain(s);
    }
  }

  /** A character other than `&` stands for itself. */
  lemma UnescapePlain(s: string)
    requires |s| > 0 && s[0] != '&'
    ensures HtmlUnescape(s) == [s[0]] + HtmlUnescape(s[1..])
  {
    assert !StartsWith(s, "&amp;") && !StartsWith(s, "&lt;") && !StartsWith(s, "&gt;") by {
      assert "&amp;"[0] == '&' && "&lt;"[0] == '&' && "&gt;"[0] == '&';
    }
    assert !StartsWith(s, "&quot;") && !StartsWith(s, "&#x27;") by {
      assert "&quot;"[0] == '&' && "&#x27;"[0] == '&';
    }
  }

  /** Escaping loses nothing: decoding the entities gives the text back. */
  lemma {:induction false} HtmlEscapeRoundTrip(text: string)
    ensures HtmlUnescape(HtmlEscape(text)) == text
    decreases |text|
  {
    HtmlEscapeIsPerChar(text);
    if |text| > 0 {
      HtmlEscapeRoundTrip(text[1..]);
      HtmlEscapeIsPerChar(text[1..]);
      UnescapeOne(text[0], EscapeEach(text[1..]));
    }
  }

  /**
   * What `html_escape` means: each character escaped on its own, nothing
   * unsafe left, and nothing lost.
   */
  lemma HtmlEscapeMeans(text: string)
    ensures HtmlEscape(text) == EscapeEach(text)
    ensures '<' !in HtmlEscape(text) && '>' !in HtmlEscape(text)
    ensures '"' !in HtmlEscape(text) && '\'' !in HtmlEscape(text)
    ensures HtmlUnescape(HtmlEscape(text)) == text
  {
    HtmlEscapeIsPerChar(text);
    HtmlEscapeSafe(text);
    HtmlEscapeRoundTrip(text);
  }
}
