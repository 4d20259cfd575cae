/**
 * String operations of Python's `str` that the core relies on, written out
 * with Python's exact semantics: `strip`, `split`, `rsplit`, `in`, `startswith`,
 * `join`, `str(int)`, `int(str)`, `isdigit`, string comparison, and the UTF-8
 * length of `s.encode("utf-8")`.
 */
module Text {
  import opened Wrappers

  /** Python's `str.isspace()`; the `\s` class of `re` matches the same characters. */
  predicate IsSpace(c: char) {
    || c == ' ' || ('\t' <= c <= '\r') || ('\U{1C}' <= c <= '\U{1F}')
    || c == '\U{85}' || c == '\U{A0}' || c == '\U{1680}'
    || ('\U{2000}' <= c <= '\U{200A}')
    || c == '\U{2028}' || c == '\U{2029}' || c == '\U{202F}' || c == '\U{205F}'
    || c == '\U{3000}'
  }

  /** `s.lstrip()` */
  function StripLeft(s: string): (r: string)
    ensures |r| <= |s|
  {
    if |s| > 0 && IsSpace(s[0]) then StripLeft(s[1..]) else s
  }

  /** `s.rstrip()` */
  function StripRight(s: string): (r: string)
    ensures |r| <= |s|
  {
    if |s| > 0 && IsSpace(s[|s| - 1]) then StripRight(s[..|s| - 1]) else s
  }

  /** `lstrip` removes exactly the leading run of whitespace. */
  lemma {:induction false} StripLeftShape(s: string)
    ensures StripLeft(s) == s[|s| - |StripLeft(s)|..]
    ensures StripLeft(s) == [] || !IsSpace(StripLeft(s)[0])
    ensures forall i :: 0 <= i < |s| - |StripLeft(s)| ==> IsSpace(s[i])
    decreases |s|
  {
    if |s| > 0 && IsSpace(s[0]) {
      StripLeftShape(s[1..]);
    }
  }

  /** `rstrip` removes exactly the trailing run of whitespace. */
  lemma {:induction false} StripRightShape(s: string)
    ensures StripRight(s) == s[..|StripRight(s)|]
    ensures StripRight(s) == [] || !IsSpace(StripRight(s)[|StripRight(s)| - 1])
    ensures forall i :: |StripRight(s)| <= i < |s| ==> IsSpace(s[i])
    decreases |s|
  {
    if |s| > 0 && IsSpace(s[|s| - 1]) {
      StripRightShape(s[..|s| - 1]);
    }
  }

  /** `s.strip()` */
  function Strip(s: string): string {
    StripRight(StripLeft(s))
  }

  /** A string with no surrounding whitespace is its own `strip()`. */
  lemma StripUnchanged(s: string)
    requires s == [] || (!IsSpace(s[0]) && !IsSpace(s[|s| - 1]))
    ensures Strip(s) == s
  {
  }

  /** `strip()` leaves no whitespace at either end, so a second `strip()` changes nothing. */
  lemma StripIdempotent(s: string)
    ensures Strip(s) == [] || (!IsSpace(Strip(s)[0]) && !IsSpace(Strip(s)[|Strip(s)| - 1]))
    ensures Strip(Strip(s)) == Strip(s)
  {
    var t := StripLeft(s);
    StripLeftShape(s);
    StripRightShape(t);
    if Strip(s) != [] {
      assert Strip(s)[0] == t[0];
    }
    StripUnchanged(Strip(s));
  }

  /** `str.lower()` restricted to ASCII letters. */
  function LowerChar(c: char): char {
    if 'A' <= c <= 'Z' then (c as int + 32) as char else c
  }

  function Lower(s: string): (r: string)
    ensures |r| == |s|
    ensures forall i :: 0 <= i < |s| ==> r[i] == LowerChar(s[i])
  {
    seq(|s|, i requires 0 <= i < |s| => LowerChar(s[i]))
  }

  /** `s.startswith(p)` */
  predicate StartsWith(s: string, p: string) {
    |p| <= |s| && s[..|p|] == p
  }

  /** `s.endswith(p)` */
  predicate EndsWith(s: string, p: string) {
    |p| <= |s| && s[|s| - |p|..] == p
  }

  /** `p` occurs in `s` starting at index `i`. */
  predicate OccursAt(s: string, p: string, i: int) {
    0 <= i && i + |p| <= |s| && s[i..i + |p|] == p
  }

  /** Python's `p in s` */
  predicate Contains(s: string, p: string) {
    exists i | 0 <= i <= |s| - |p| :: OccursAt(s, p, i)
  }

  /** The first occurrence of `p` in `s` at or after `i` (`s.find(p, i)`). */
  function FindFrom(s: string, p: string, i: nat): (r: Option<nat>)
    decreases |s| - i
    ensures r.Some? ==> i <= r.value && OccursAt(s, p, r.value)
    ensures r.Some? ==> forall j :: i <= j < r.value ==> !OccursAt(s, p, j)
    ensures r.None? ==> forall j :: i <= j ==> !OccursAt(s, p, j)
  {
    if i + |p| > |s| then None
    else if s[i..i + |p|] == p then Some(i)
    else FindFrom(s, p, i + 1)
  }

  function Find(s: string, p: string): (r: Option<nat>)
    ensures r.Some? ==> OccursAt(s, p, r.value)
    ensures r.Some? ==> forall j :: 0 <= j < r.value ==> !OccursAt(s, p, j)
    ensures r.None? <==> !Contains(s, p)
  {
    FindFrom(s, p, 0)
  }

  /** The last occurrence of `p` in `s` at or before `i`. */
  function RFindFrom(s: string, p: string, i: int): (r: Option<nat>)
    decreases i + 1
    ensures r.Some? ==> r.value <= i && OccursAt(s, p, r.value)
    ensures r.Some? ==> forall j :: r.value < j <= i ==> !OccursAt(s, p, j)
    ensures r.None? ==> forall j :: j <= i ==> !OccursAt(s, p, j)
  {
    if i < 0 then None
    else if OccursAt(s, p, i) then Some(i)
    else RFindFrom(s, p, i - 1)
  }

  function RFind(s: string, p: string): (r: Option<nat>)
    ensures r.Some? ==> OccursAt(s, p, r.value)
    ensures r.Some? ==> forall j :: r.value < j ==> !OccursAt(s, p, j)
    ensures r.None? <==> !Contains(s, p)
  {
    RFindFrom(s, p, |s| - |p|)
  }

  /** The leading run of non-whitespace characters. */
  function WordPrefix(s: string): (r: string)
    ensures |r| <= |s|
    decreases |s|
  {
    if |s| > 0 && !IsSpace(s[0]) then [s[0]] + WordPrefix(s[1..]) else []
  }

  lemma {:induction false} WordPrefixShape(s: string)
    ensures WordPrefix(s) == s[..|WordPrefix(s)|]
    ensures forall i :: 0 <= i < |WordPrefix(s)| ==> !IsSpace(s[i])
    ensures |WordPrefix(s)| < |s| ==> IsSpace(s[|WordPrefix(s)|])
    decreases |s|
  {
    if |s| > 0 && !IsSpace(s[0]) {
      WordPrefixShape(s[1..]);
    }
  }

  /** `s.split()`: the maximal runs of non-whitespace characters, in order. */
  function Words(s: string): seq<string>
    decreases |s|
  {
    var t := StripLeft(s);
    if |t| == 0 then []
    else
      StripLeftShape(s);
      var w := WordPrefix(t);
      [w] + Words(t[|w|..])
  }

  /** A word of `split()`: non-empty, with no whitespace. */
  predicate IsWord(w: string) {
    |w| > 0 && forall i :: 0 <= i < |w| ==> !IsSpace(w[i])
  }

  /** `split()` gives words only. */
  lemma {:induction false} WordsAreWords(s: string)
    ensures forall i :: 0 <= i < |Words(s)| ==> IsWord(Words(s)[i])
    decreases |s|
  {
    var t := StripLeft(s);
    if |t| > 0 {
      StripLeftShape(s);
      WordPrefixShape(t);
      WordsAreWords(t[|WordPrefix(t)|..]);
    }
  }

  lemma {:induction false} WordPrefixOf(w: string, rest: string)
    requires forall i :: 0 <= i < |w| ==> !IsSpace(w[i])
    requires rest == [] || IsSpace(rest[0])
    ensures WordPrefix(w + rest) == w
    decreases |w|
  {
    if |w| == 0 {
      assert w + rest == rest;
    } else {
      assert (w + rest)[1..] == w[1..] + rest;
      WordPrefixOf(w[1..], rest);
    }
  }

  lemma WordsSkipSpace(t: string)
    requires |t| > 0 && !IsSpace(t[0])
    ensures Words(" " + t) == Words(t)
  {
    assert (" " + t)[1..] == t;
    assert StripLeft(" " + t) == StripLeft(t) == t;
  }

  /** `split()` of one character followed by more text, in terms of `split()` of that text. */
  lemma WordsCons(c: char, rest: string)
    ensures IsSpace(c) ==> Words([c] + rest) == Words(rest)
    ensures !IsSpace(c) && (rest == [] || IsSpace(rest[0])) ==> Words([c] + rest) == [[c]] + Words(rest)
    ensures !IsSpace(c) && rest != [] && !IsSpace(rest[0]) ==>
      |Words(rest)| > 0 && Words([c] + rest) == [[c] + Words(rest)[0]] + Words(rest)[1..]
  {
    var s := [c] + rest;
    assert s[1..] == rest;
    if !IsSpace(c) {
      assert StripLeft(s) == s;
      assert WordPrefix(s) == [c] + WordPrefix(rest);
      assert Words(s) == [WordPrefix(s)] + Words(s[|WordPrefix(s)|..]);
      if rest == [] || IsSpace(rest[0]) {
        assert WordPrefix(rest) == [];
        assert WordPrefix(s) == [c];
        assert s[|WordPrefix(s)|..] == rest;
      } else {
        assert StripLeft(rest) == rest;
        var w := WordPrefix(rest);
        assert s[|[c] + w|..] == rest[|w|..];
      }
    }
  }

  /** Leading whitespace does not change `split()`. */
  lemma {:induction false} WordsStripLeft(s: string)
    ensures Words(StripLeft(s)) == Words(s)
    decreases |s|
  {
    if |s| > 0 && IsSpace(s[0]) {
      assert s == [s[0]] + s[1..];
      WordsCons(s[0], s[1..]);
      WordsStripLeft(s[1..]);
    }
  }

  /** Trailing whitespace does not change `split()`. */
  lemma {:induction false} WordsTrailingSpace(t: string, sp: string)
    requires forall i :: 0 <= i < |sp| ==> IsSpace(sp[i])
    ensures Words(t + sp) == Words(t)
    decreases |t|
  {
    if |t| == 0 {
      assert t + sp == sp;
      WordsStripLeft(sp);
      AllSpaceStripLeft(sp);
    } else {
      var rest := t[1..];
      assert t + sp == [t[0]] + (rest + sp);
      assert t == [t[0]] + rest;
      WordsTrailingSpace(rest, sp);
      WordsCons(t[0], rest + sp);
      WordsCons(t[0], rest);
      if rest == [] {
        assert rest + sp == sp;
      } else {
        assert (rest + sp)[0] == rest[0];
      }
    }
  }

  lemma {:induction false} AllSpaceStripLeft(sp: string)
    requires forall i :: 0 <= i < |sp| ==> IsSpace(sp[i])
    ensures StripLeft(sp) == []
    decreases |sp|
  {
    if |sp| > 0 {
      AllSpaceStripLeft(sp[1..]);
    }
  }

  /** `split()` depends only on which characters are whitespace and on the others. */
  lemma {:induction false} WordsSameShape(a: string, b: string)
    requires |a| == |b|
    requires forall i :: 0 <= i < |a| ==> (IsSpace(a[i]) <==> IsSpace(b[i]))
    requires forall i :: 0 <= i < |a| && !IsSpace(a[i]) ==> a[i] == b[i]
    ensures Words(a) == Words(b)
    decreases |a|
  {
    if |a| > 0 {
      WordsSameShape(a[1..], b[1..]);
      assert a == [a[0]] + a[1..] && b == [b[0]] + b[1..];
      WordsCons(a[0], a[1..]);
      WordsCons(b[0], b[1..]);
      if |a| > 1 {
        assert a[1..][0] == a[1] && b[1..][0] == b[1];
      }
    }
  }

  /** `strip()` does not change `split()`. */
  lemma WordsStrip(s: string)
    ensures Words(Strip(s)) == Words(s)
  {
    var left := StripLeft(s);
    WordsStripLeft(s);
    StripRightShape(left);
    var r := StripRight(left);
    var sp := left[|r|..];
    assert left == r + sp;
    assert forall i :: 0 <= i < |sp| ==> IsSpace(sp[i]) by {
      forall i | 0 <= i < |sp|
        ensures IsSpace(sp[i])
      {
        assert sp[i] == left[|r| + i];
      }
    }
    WordsTrailingSpace(r, sp);
  }

  /** `" ".join(words).split()` gives the words back. */
  lemma {:induction false} WordsOfJoin(ws: seq<string>)
    requires forall i :: 0 <= i < |ws| ==> IsWord(ws[i])
    ensures Words(Join(ws, " ")) == ws
    decreases |ws|
  {
    if |ws| == 1 {
      var w := ws[0];
      WordPrefixOf(w, []);
      assert w + [] == w;
      assert w[|w|..] == [];
    } else if |ws| > 1 {
      var w, rest := ws[0], Join(ws[1..], " ");
      WordsOfJoin(ws[1..]);
      assert rest[0] == ws[1][0];
      var s := w + " " + rest;
      assert s == w + (" " + rest);
      WordPrefixOf(w, " " + rest);
      assert StripLeft(s) == s;
      assert s[|w|..] == " " + rest;
      WordsSkipSpace(rest);
    }
  }

  /** `s.split(sep)` for a non-empty separator. */
  function Split(s: string, sep: string): (r: seq<string>)
    requires |sep| > 0
    ensures |r| >= 1
    decreases |s|
  {
    match Find(s, sep)
    case None => [s]
    case Some(i) => [s[..i]] + Split(s[i + |sep|..], sep)
  }

  /** `s.split(sep, 1)` when `sep in s`: the text before and after the first `sep`. */
  function SplitOnce(s: string, sep: string): Option<(string, string)> {
    match Find(s, sep)
    case None => None
    case Some(i) => Some((s[..i], s[i + |sep|..]))
  }

  /** `s.rsplit(sep, 1)` when `sep in s`: the text before and after the last `sep`. */
  function RSplitOnce(s: string, sep: string): Option<(string, string)> {
    match RFind(s, sep)
    case None => None
    case Some(i) => Some((s[..i], s[i + |sep|..]))
  }

  /** `sep.join(parts)` */
  function Join(parts: seq<string>, sep: string): string {
    if |parts| == 0 then ""
    else if |parts| == 1 then parts[0]
    else parts[0] + sep + Join(parts[1..], sep)
  }

  /** Joining one more part appends the separator and the part. */
  lemma {:induction false} JoinSnoc(parts: seq<string>, x: string, sep: string)
    requires |parts| > 0
    ensures Join(parts + [x], sep) == Join(parts, sep) + sep + x
    decreases |parts|
  {
    if |parts| > 1 {
      assert (parts + [x])[1..] == parts[1..] + [x];
      JoinSnoc(parts[1..], x, sep);
    }
  }

  /** Parts without line breaks joined by "\n" split back into the same parts. */
  lemma {:induction false} SplitJoinLines(parts: seq<string>)
    requires |parts| > 0
    requires forall i :: 0 <= i < |parts| ==> '\n' !in parts[i]
    ensures Split(Join(parts, "\n"), "\n") == parts
    decreases |parts|
  {
    var s := Join(parts, "\n");
    var a := parts[0];
    forall j | 0 <= j < |a|
      ensures !OccursAt(s, "\n", j)
    {
      assert s[j] == a[j];
      if j + 1 <= |s| {
        assert s[j..j + 1][0] == s[j];
      }
    }
    if |parts| == 1 {
      assert !Contains(s, "\n");
    } else {
      var rest := Join(parts[1..], "\n");
      assert s == a + "\n" + rest;
      assert OccursAt(s, "\n", |a|) by {
        assert s[|a|..|a| + 1] == "\n";
      }
      assert Find(s, "\n") == Some(|a|);
      assert s[..|a|] == a && s[|a| + 1..] == rest;
      SplitJoinLines(parts[1..]);
    }
  }

  /** A text without line breaks occurs in lines joined by "\n" only inside one of them. */
  lemma {:induction false} JoinLinesNoOccur(parts: seq<string>, p: string)
    requires |p| > 0 && '\n' !in p
    requires forall i :: 0 <= i < |parts| ==> !Contains(parts[i], p)
    ensures !Contains(Join(parts, "\n"), p)
    decreases |parts|
  {
    if |parts| == 1 {
      assert Join(parts, "\n") == parts[0];
    } else if |parts| > 1 {
      var a := parts[0];
      var rest := Join(parts[1..], "\n");
      var s := a + "\n" + rest;
      assert Join(parts, "\n") == s;
      JoinLinesNoOccur(parts[1..], p);
      forall j | 0 <= j <= |s| - |p|
        ensures !OccursAt(s, p, j)
      {
        if j + |p| <= |a| {
          assert s[j..j + |p|] == a[j..j + |p|];
          assert !OccursAt(a, p, j);
        } else if j > |a| {
          assert s[j..j + |p|] == rest[j - |a| - 1..j - |a| - 1 + |p|];
          assert !OccursAt(rest, p, j - |a| - 1);
        } else {
          assert s[j..j + |p|][|a| - j] == s[|a|] == '\n';
        }
      }
    }
  }

  /** The same, with a line break after the last line. */
  lemma JoinLinesBreakNoOccur(parts: seq<string>, p: string)
    requires |p| > 0 && '\n' !in p
    requires |parts| > 0 && forall i :: 0 <= i < |parts| ==> !Contains(parts[i], p)
    ensures !Contains(Join(parts, "\n") + "\n", p)
  {
    var more := parts + [""];
    forall i | 0 <= i < |more|
      ensures !Contains(more[i], p)
    {
      if i < |parts| {
        assert more[i] == parts[i];
      }
    }
    JoinSnoc(parts, "", "\n");
    assert Join(more, "\n") == Join(parts, "\n") + "\n";
    JoinLinesNoOccur(more, p);
  }

  /** The same, with a blank line after the last line. */
  lemma JoinLinesEndNoOccur(parts: seq<string>, p: string)
    requires |p| > 0 && '\n' !in p
    requires |parts| > 0 && forall i :: 0 <= i < |parts| ==> !Contains(parts[i], p)
    ensures !Contains(Join(parts, "\n") + "\n\n", p)
  {
    var more := parts + [""];
    forall i | 0 <= i < |more|
      ensures !Contains(more[i], p)
    {
      if i < |parts| {
        assert more[i] == parts[i];
      }
    }
    JoinSnoc(parts, "", "\n");
    var j := Join(parts, "\n");
    assert Join(more, "\n") == j + "\n";
    JoinLinesBreakNoOccur(more, p);
    assert j + "\n" + "\n" == j + "\n\n";
  }

  /** A header line in front of lines that end in a line break, then a blank line. */
  lemma JoinUnderHeader(h: string, lines: seq<string>, text: string)
    requires |lines| > 0 && text == Join(lines, "\n") + "\n"
    ensures h + "\n" + text + "\n" == Join([h] + lines, "\n") + "\n\n"
  {
    assert ([h] + lines)[1..] == lines;
    assert Join([h] + lines, "\n") == h + "\n" + Join(lines, "\n");
  }

  /** Concatenation regroups. */
  lemma AppendAssoc(a: string, b: string, c: string)
    ensures a + (b + c) == a + b + c
  {
  }

  /** A non-empty text that `strip()` leaves alone ends in no whitespace. */
  lemma StrippedLast(s: string)
    requires |s| > 0 && Strip(s) == s
    ensures !IsSpace(s[|s| - 1])
  {
    StripIdempotent(s);
  }

  /** Joined parts start with the first character of the first part. */
  lemma JoinFirst(parts: seq<string>, sep: string)
    requires |parts| > 0 && |parts[0]| > 0
    ensures |Join(parts, sep)| > 0 && Join(parts, sep)[0] == parts[0][0]
  {
    if |parts| > 1 {
      assert Join(parts, sep) == parts[0] + sep + Join(parts[1..], sep);
    }
  }

  /** Joined parts end with the last character of the last part. */
  lemma JoinLast(parts: seq<string>, sep: string)
    requires |parts| > 0 && |parts[|parts| - 1]| > 0
    ensures var j := Join(parts, sep); var last := parts[|parts| - 1];
      |j| > 0 && j[|j| - 1] == last[|last| - 1]
  {
    var last := parts[|parts| - 1];
    if |parts| > 1 {
      var front := parts[..|parts| - 1];
      assert parts == front + [last];
      JoinSnoc(front, last, sep);
    }
  }

  /** Non-empty lines without line breaks, joined by "\n", hold no blank line and end in no line break. */
  lemma {:induction false} JoinLinesNoBlank(parts: seq<string>)
    requires |parts| > 0 && forall i :: 0 <= i < |parts| ==> |parts[i]| > 0 && '\n' !in parts[i]
    ensures !Contains(Join(parts, "\n"), "\n\n")
    ensures var j := Join(parts, "\n"); |j| > 0 && j[|j| - 1] != '\n'
    decreases |parts|
  {
    var a := parts[0];
    if |parts| == 1 {
      assert Join(parts, "\n") == a;
      forall k | 0 <= k <= |a| - 2
        ensures !OccursAt(a, "\n\n", k)
      {
        assert a[k..k + 2][0] == a[k] && a[k] in a;
      }
      assert a[|a| - 1] in a;
    } else {
      var rest := Join(parts[1..], "\n");
      var s := a + "\n" + rest;
      assert Join(parts, "\n") == s;
      JoinLinesNoBlank(parts[1..]);
      JoinFirst(parts[1..], "\n");
      assert rest[0] == parts[1][0] && parts[1][0] in parts[1];
      forall k | 0 <= k <= |s| - 2
        ensures !OccursAt(s, "\n\n", k)
      {
        if k < |a| {
          assert s[k] == a[k] && a[k] in a;
          assert s[k..k + 2][0] == s[k];
        } else if k == |a| {
          assert s[k + 1] == rest[0];
          assert s[k..k + 2][1] == s[k + 1];
        } else {
          assert s[k..k + 2] == rest[k - |a| - 1..k - |a| + 1];
          assert !OccursAt(rest, "\n\n", k - |a| - 1);
        }
      }
      assert s[|s| - 1] == rest[|rest| - 1];
    }
  }

  /** `s.split("\n\n")` of a text with no blank line is the text alone. */
  lemma SplitNoBlank(s: string)
    requires !Contains(s, "\n\n")
    ensures Split(s, "\n\n") == [s]
  {
  }

  /** A piece with no blank line that ends in no line break, then a blank line: the split starts with the piece. */
  lemma SplitAfterPiece(j: string, rest: string)
    requires !Contains(j, "\n\n") && (j == [] || j[|j| - 1] != '\n')
    ensures Split(j + "\n\n" + rest, "\n\n") == [j] + Split(rest, "\n\n")
  {
    var s := j + "\n\n" + rest;
    assert OccursAt(s, "\n\n", |j|) by {
      assert s[|j|..|j| + 2] == "\n\n";
    }
    forall k | 0 <= k < |j|
      ensures !OccursAt(s, "\n\n", k)
    {
      if k + 2 <= |j| {
        assert s[k..k + 2] == j[k..k + 2];
        assert !OccursAt(j, "\n\n", k);
      } else {
        assert s[k..k + 2][0] == j[k];
      }
    }
    assert Find(s, "\n\n") == Some(|j|);
    assert s[..|j|] == j && s[|j| + 2..] == rest;
  }

  /** One line break after a text with no blank line that ends in no line break makes no blank line. */
  lemma BreakAfterNoBlank(j: string)
    requires !Contains(j, "\n\n") && |j| > 0 && j[|j| - 1] != '\n'
    ensures !Contains(j + "\n", "\n\n")
  {
    var s := j + "\n";
    forall k | 0 <= k <= |s| - 2
      ensures !OccursAt(s, "\n\n", k)
    {
      if k + 2 <= |j| {
        assert s[k..k + 2] == j[k..k + 2];
        assert !OccursAt(j, "\n\n", k);
      } else {
        assert s[k..k + 2][0] == j[k];
      }
    }
  }

  /** A text without line breaks occurs in `s` followed by a blank line only if it occurs in `s`. */
  lemma NoOccurBeforeBlank(s: string, p: string)
    requires |p| > 0 && '\n' !in p && !Contains(s, p)
    ensures !Contains(s + "\n\n", p)
  {
    var t := s + "\n\n";
    forall k | 0 <= k <= |t| - |p|
      ensures !OccursAt(t, p, k)
    {
      if k + |p| <= |s| {
        assert t[k..k + |p|] == s[k..k + |p|];
        assert !OccursAt(s, p, k);
      } else if k <= |s| {
        assert t[k..k + |p|][|s| - k] == t[|s|] == '\n';
        assert p[|s| - k] in p;
      } else {
        assert t[k..k + |p|][0] == t[k] == '\n';
        assert p[0] in p;
      }
    }
  }

  predicate IsDigit(c: char) {
    '0' <= c <= '9'
  }

  /** `s.isdigit()` on ASCII: non-empty and every character a digit. */
  predicate IsDigits(s: string) {
    |s| > 0 && forall i :: 0 <= i < |s| ==> IsDigit(s[i])
  }

  function DigitChar(d: nat): (c: char)
    requires d < 10
    ensures IsDigit(c)
  {
    ('0' as int + d) as char
  }

  /** `str(n)` for a natural number. */
  function NatToString(n: nat): (r: string)
    ensures IsDigits(r)
    decreases n
  {
    if n < 10 then [DigitChar(n)] else NatToString(n / 10) + [DigitChar(n % 10)]
  }

  /** `str(i)` */
  function IntToString(i: int): (r: string)
    ensures |r| > 0
  {
    if i < 0 then "-" + NatToString(-i) else NatToString(i)
  }

  /** `int(s)` for a string of ASCII digits. */
  function DigitsValue(s: string): nat
    requires forall i :: 0 <= i < |s| ==> IsDigit(s[i])
    decreases |s|
  {
    if |s| == 0 then 0
    else
      assert IsDigit(s[|s| - 1]);
      DigitsValue(s[..|s| - 1]) * 10 + (s[|s| - 1] as int - '0' as int)
  }

  /** `int(str(n)) == n` */
  lemma {:induction false} NatToStringRoundTrip(n: nat)
    ensures DigitsValue(NatToString(n)) == n
    decreases n
  {
    if n >= 10 {
      var s := NatToString(n);
      assert s[..|s| - 1] == NatToString(n / 10);
      NatToStringRoundTrip(n / 10);
    }
  }

  /** What `str(i)` writes: ASCII digits, after a "-" for a negative number. */
  predicate IsIntText(s: string) {
    IsDigits(s) || (|s| > 1 && s[0] == '-' && IsDigits(s[1..]))
  }

  /** `int(s)` for a text `str` can write. */
  function IntValue(s: string): int
    requires IsIntText(s)
  {
    if IsDigits(s) then DigitsValue(s) else -(DigitsValue(s[1..]) as int)
  }

  /** `int(str(i)) == i` */
  lemma IntToStringRoundTrip(i: int)
    ensures IsIntText(IntToString(i)) && IntValue(IntToString(i)) == i
  {
    var s := IntToString(i);
    if i < 0 {
      var d := NatToString(-i);
      assert s == "-" + d;
      assert s[1..] == d;
      assert !IsDigits(s) by {
        assert s[0] == '-' && !IsDigit('-');
      }
      NatToStringRoundTrip(-i);
      assert IntValue(s) == -(DigitsValue(d) as int);
    } else {
      assert s == NatToString(i);
      NatToStringRoundTrip(i);
    }
  }

  /** The first `sep` after an integer's text is the one right after it, when `sep` starts with neither a digit nor "-". */
  lemma IntTextThenSep(d: string, sep: string, rest: string)
    requires IsIntText(d) && |sep| > 0 && !IsDigit(sep[0]) && sep[0] != '-'
    ensures SplitOnce(d + sep + rest, sep) == Some((d, rest))
  {
    var s := d + sep + rest;
    var n := |d|;
    assert OccursAt(s, sep, n) by {
      assert s[n..n + |sep|] == sep;
    }
    forall j | 0 <= j < n
      ensures !OccursAt(s, sep, j)
    {
      assert s[j] == d[j];
      if j + |sep| <= |s| {
        assert s[j..j + |sep|][0] == s[j];
      }
    }
    assert Find(s, sep).value == n;
    assert s[..n] == d && s[n + |sep|..] == rest;
  }

  /** An integer's text holds no space. */
  lemma IntTextHasNoSpace(d: string, p: string)
    requires IsIntText(d) && |p| > 0 && p[0] == ' '
    ensures !Contains(d, p)
  {
    forall j | 0 <= j <= |d| - |p|
      ensures !OccursAt(d, p, j)
    {
      assert d[j..j + |p|][0] == d[j];
    }
  }

  /** The integer written before the first `sep` and the text after that `sep`. */
  function ReadIntBefore(s: string, sep: string): Option<(int, string)> {
    match SplitOnce(s, sep)
    case None => None
    case Some((d, rest)) => if IsIntText(d) then Some((IntValue(d), rest)) else None
  }

  /** An integer written by `str` and followed by `sep` reads back. */
  lemma ReadIntBeforeOf(i: int, sep: string, rest: string)
    requires |sep| > 0 && !IsDigit(sep[0]) && sep[0] != '-'
    ensures ReadIntBefore(IntToString(i) + sep + rest, sep) == Some((i, rest))
  {
    IntToStringRoundTrip(i);
    IntTextThenSep(IntToString(i), sep, rest);
  }

  /** `f"{i}/{n}"`: a position and a total. */
  function RatioText(i: nat, n: nat): string {
    NatToString(i) + "/" + NatToString(n)
  }

  /** The two numbers of "i/n" followed by `end`, and the text after `end`. */
  function ReadRatio(s: string, end: string): Option<(int, int, string)> {
    match ReadIntBefore(s, "/")
    case None => None
    case Some((i, rest)) =>
      match ReadIntBefore(rest, end)
      case None => None
      case Some((n, tail)) => Some((i, n, tail))
  }

  /** "i/n" followed by `end` reads back as i and n. */
  lemma ReadRatioOf(i: nat, n: nat, end: string, tail: string)
    requires |end| > 0 && !IsDigit(end[0]) && end[0] != '-'
    ensures ReadRatio(RatioText(i, n) + end + tail, end) == Some((i as int, n as int, tail))
  {
    assert IntToString(i) == NatToString(i) && IntToString(n) == NatToString(n);
    var after := NatToString(n) + end + tail;
    assert RatioText(i, n) + end + tail == IntToString(i) + "/" + after;
    ReadIntBeforeOf(i, "/", after);
    assert after == IntToString(n) + end + tail;
    ReadIntBeforeOf(n, end, tail);
  }

  /** Bytes taken by one code point in UTF-8 (section 3 of RFC 3629). */
  function Utf8CharLen(c: char): nat {
    if c as int < 0x80 then 1
    else if c as int < 0x800 then 2
    else if c as int < 0x1_0000 then 3
    else 4
  }

  /** `len(s.encode("utf-8"))` */
  function Utf8Len(s: string): nat
    decreases |s|
  {
    if |s| == 0 then 0 else Utf8Len(s[..|s| - 1]) + Utf8CharLen(s[|s| - 1])
  }

  lemma {:induction false} Utf8LenConcat(a: string, b: string)
    ensures Utf8Len(a + b) == Utf8Len(a) + Utf8Len(b)
    decreases |b|
  {
    if |b| > 0 {
      assert (a + b)[..|a + b| - 1] == a + b[..|b| - 1];
      Utf8LenConcat(a, b[..|b| - 1]);
    } else {
      assert a + b == a;
    }
  }

  /** Python's `a <= b` on strings: lexicographic by code point. */
  predicate LexLe(a: string, b: string)
    decreases |a|
  {
    if |a| == 0 then true
    else if |b| == 0 then false
    else if a[0] != b[0] then a[0] < b[0]
    else LexLe(a[1..], b[1..])
  }
}
