/** The JavaScript string operations that the schema preprocessing and the
    release script are built from: the `\s` class, `trimStart`/`trim`,
    `split(/\r?\n/)` and `join`. Strings are sequences of code points; no
    JavaScript surrogate pairs arise because every character the patterns test
    lies in the Basic Multilingual Plane. */
module Text {

  /** `\s` in a JavaScript regular expression, and the set `trim`/`trimStart`
      remove: ECMAScript's WhiteSpace and LineTerminator code points. */
  predicate IsJsSpace(c: char)
  {
    || c == '\t' || c == '\n' || c == '\U{000B}' || c == '\U{000C}' || c == '\r' || c == ' '
    || c == '\U{00A0}' || c == '\U{1680}' || ('\U{2000}' <= c <= '\U{200A}')
    || c == '\U{2028}' || c == '\U{2029}' || c == '\U{202F}' || c == '\U{205F}'
    || c == '\U{3000}' || c == '\U{FEFF}'
  }

  /** The characters after which `^` matches in multiline mode, and that `.`
      does not match. */
  predicate IsLineTerminator(c: char)
  {
    c == '\n' || c == '\r' || c == '\U{2028}' || c == '\U{2029}'
  }

  predicate IsAsciiLetter(c: char)
  {
    'a' <= c <= 'z' || 'A' <= c <= 'Z'
  }

  predicate IsDigit(c: char)
  {
    '0' <= c <= '9'
  }

  predicate IsAsciiAlnum(c: char)
  {
    IsAsciiLetter(c) || IsDigit(c)
  }

  /** The end of the longest run of characters satisfying `p` that starts at `i`. */
  function SkipWhile(s: string, i: nat, p: char -> bool): (e: nat)
    requires i <= |s|
    ensures i <= e <= |s|
    ensures forall x :: i <= x < e ==> p(s[x])
    ensures e < |s| ==> !p(s[e])
    decreases |s| - i
  {
    if i < |s| && p(s[i]) then SkipWhile(s, i + 1, p) else i
  }

  /** The run ends at `e` when every character before `e` satisfies `p` and the
      one at `e`, if any, does not. */
  lemma {:induction false} SkipWhileEnd(s: string, i: nat, p: char -> bool, e: nat)
    requires i <= e <= |s|
    requires forall x :: i <= x < e ==> p(s[x])
    requires e < |s| ==> !p(s[e])
    ensures SkipWhile(s, i, p) == e
    decreases e - i
  {
    if i < e {
      SkipWhileEnd(s, i + 1, p, e);
    }
  }

  /** `s.trimStart()`. */
  function TrimStart(s: string): string
    decreases |s|
  {
    if s != [] && IsJsSpace(s[0]) then TrimStart(s[1..]) else s
  }

  /** `trimStart` leaves a suffix: what it removes is whitespace, and what it
      keeps does not start with whitespace. */
  lemma {:induction false} TrimStartSpec(s: string)
    ensures |TrimStart(s)| <= |s| && TrimStart(s) == s[|s| - |TrimStart(s)|..]
    ensures forall x :: 0 <= x < |s| - |TrimStart(s)| ==> IsJsSpace(s[x])
    ensures TrimStart(s) == [] || !IsJsSpace(TrimStart(s)[0])
    decreases |s|
  {
    if s != [] && IsJsSpace(s[0]) {
      TrimStartSpec(s[1..]);
    }
  }

  /** `trimStart` removes exactly the whitespace before the first
      non-whitespace character. */
  lemma TrimStartAt(s: string, a: nat)
    requires a < |s| && !IsJsSpace(s[a])
    requires forall x :: 0 <= x < a ==> IsJsSpace(s[x])
    ensures TrimStart(s) == s[a..]
  {
    TrimStartSpec(s);
    var r := TrimStart(s);
    var d := |s| - |r|;
    assert d < |s| ==> !IsJsSpace(s[d]) by {
      if d < |s| {
        assert s[d] == r[0];
      }
    }
    assert d == a;
  }

  /** `s.trimEnd()`. */
  function TrimEnd(s: string): string
    decreases |s|
  {
    if s != [] && IsJsSpace(s[|s| - 1]) then TrimEnd(s[..|s| - 1]) else s
  }

  /** `trimEnd` leaves a prefix: what it removes is whitespace, and what it
      keeps does not end with whitespace. */
  lemma {:induction false} TrimEndSpec(s: string)
    ensures |TrimEnd(s)| <= |s| && TrimEnd(s) == s[..|TrimEnd(s)|]
    ensures forall x :: |TrimEnd(s)| <= x < |s| ==> IsJsSpace(s[x])
    ensures TrimEnd(s) == [] || !IsJsSpace(TrimEnd(s)[|TrimEnd(s)| - 1])
    decreases |s|
  {
    if s != [] && IsJsSpace(s[|s| - 1]) {
      TrimEndSpec(s[..|s| - 1]);
    }
  }

  /** `s.trim()`. */
  function Trim(s: string): string
  {
    TrimEnd(TrimStart(s))
  }

  /** `s.endsWith(suffix)`. */
  predicate EndsWith(s: string, suffix: string)
  {
    |suffix| <= |s| && s[|s| - |suffix|..] == suffix
  }

  /** Cutting a text at two positions and joining the pieces gives it back. */
  lemma ThreePieces(s: string, i: nat, j: nat, middle: string)
    requires i <= j <= |s| && s[i..j] == middle
    ensures s[..i] + middle + s[j..] == s
  {
  }

  lemma EndsWithConcat(s: string, suffix: string)
    ensures EndsWith(s + suffix, suffix)
  {
    assert (s + suffix)[|s|..] == suffix;
  }

  /** `s.includes("\r\n")`. */
  predicate ContainsCrLf(s: string)
  {
    exists x :: 0 <= x < |s| - 1 && s[x] == '\r' && s[x + 1] == '\n'
  }

  /** The index of the first '\n' in `s`, or `|s|` when there is none. */
  function LineBreak(s: string): (i: nat)
    ensures i <= |s|
    ensures i < |s| ==> s[i] == '\n'
    ensures forall x :: 0 <= x < i ==> s[x] != '\n'
  {
    SkipWhile(s, 0, c => c != '\n')
  }

  /** A line cut before a "\r\n" break: the '\r' belongs to the separator. */
  function DropCr(line: string): string
  {
    if line != [] && line[|line| - 1] == '\r' then line[..|line| - 1] else line
  }

  /** `s.split(/\r?\n/)`: the pieces between line breaks, a break being "\n" or
      "\r\n". No piece holds a '\n'. */
  function SplitLines(s: string): (lines: seq<string>)
    ensures |lines| >= 1
    ensures forall l :: l in lines ==> '\n' !in l
    decreases |s|
  {
    var i := LineBreak(s);
    if i == |s| then
      [s]
    else
      assert '\n' !in s[..i];
      [DropCr(s[..i])] + SplitLines(s[i + 1..])
  }

  /** There is one more piece than there are '\n' characters, and every
      character of a piece comes from the text. */
  lemma {:induction false} SplitLinesCountAndChars(s: string)
    ensures |SplitLines(s)| == multiset(s)['\n'] + 1
    ensures forall l, c :: l in SplitLines(s) && c in l ==> c in s
    decreases |s|
  {
    var i := LineBreak(s);
    if i == |s| {
      assert '\n' !in s;
    } else {
      var tail := s[i + 1..];
      SplitLinesCountAndChars(tail);
      assert s == s[..i] + [s[i]] + tail;
      assert multiset(s)['\n'] == multiset(s[..i])['\n'] + 1 + multiset(tail)['\n'];
      assert '\n' !in s[..i];
      assert forall c :: c in DropCr(s[..i]) ==> c in s;
      assert SplitLines(s) == [DropCr(s[..i])] + SplitLines(tail);
    }
  }

  /** `lines.join(sep)`. */
  function Join(lines: seq<string>, sep: string): string
  {
    if |lines| == 0 then ""
    else if |lines| == 1 then lines[0]
    else lines[0] + sep + Join(lines[1..], sep)
  }

  lemma LineBreakAppend(a: string, b: string)
    requires '\n' !in a
    ensures LineBreak(a + b) == |a| + LineBreak(b)
  {
    var s := a + b;
    var j := LineBreak(b);
    assert forall x :: 0 <= x < |a| + j ==> s[x] != '\n' by {
      forall x | 0 <= x < |a| + j
        ensures s[x] != '\n'
      {
        if x < |a| {
          assert s[x] == a[x];
        } else {
          assert s[x] == b[x - |a|];
        }
      }
    }
    if j < |b| {
      assert s[|a| + j] == b[j];
    }
  }

  /** One step of splitting joined text: the first line comes off whole. */
  lemma SplitLinesStep(l0: string, sep: string, rest: string)
    requires sep == "\n" || sep == "\r\n"
    requires '\n' !in l0 && (l0 == [] || l0[|l0| - 1] != '\r')
    ensures SplitLines(l0 + sep + rest) == [l0] + SplitLines(rest)
  {
    var s := l0 + sep + rest;
    var head := l0 + sep[..|sep| - 1];
    assert s == head + ("\n" + rest);
    assert '\n' !in head;
    LineBreakAppend(head, "\n" + rest);
    assert LineBreak(s) == |head|;
    assert s[..|head|] == head;
    assert s[|head| + 1..] == rest;
    assert DropCr(head) == l0;
  }

  /** Splitting text joined with "\n" or "\r\n" gives back the lines, when no
      line holds a '\n' or ends with a '\r' that the split would take for part of
      a break. */
  lemma {:induction false} SplitJoin(lines: seq<string>, sep: string)
    requires sep == "\n" || sep == "\r\n"
    requires |lines| >= 1
    requires forall l :: l in lines ==> '\n' !in l && (l == [] || l[|l| - 1] != '\r')
    ensures SplitLines(Join(lines, sep)) == lines
    decreases |lines|
  {
    var l0 := lines[0];
    assert l0 in lines;
    if |lines| == 1 {
      SplitLinesNoBreak(l0);
    } else {
      var tail := lines[1..];
      assert forall l :: l in tail ==> l in lines;
      SplitJoin(tail, sep);
      assert lines == [l0] + tail;
      SplitJoinStep(l0, tail, sep);
    }
  }

  lemma SplitJoinStep(l0: string, tail: seq<string>, sep: string)
    requires sep == "\n" || sep == "\r\n"
    requires '\n' !in l0 && (l0 == [] || l0[|l0| - 1] != '\r')
    requires |tail| >= 1 && SplitLines(Join(tail, sep)) == tail
    ensures SplitLines(Join([l0] + tail, sep)) == [l0] + tail
  {
    var lines := [l0] + tail;
    assert lines[1..] == tail;
    assert Join(lines, sep) == l0 + sep + Join(tail, sep);
    SplitLinesStep(l0, sep, Join(tail, sep));
  }

  /** Text without a '\n' is one piece. */
  lemma SplitLinesNoBreak(s: string)
    requires '\n' !in s
    ensures SplitLines(s) == [s]
  {
    LineBreakAppend(s, []);
    assert s + [] == s;
  }

  /** Joining the pieces of a text without '\r' with "\n" gives back the text. */
  lemma {:induction false} JoinSplit(s: string)
    requires '\r' !in s
    ensures Join(SplitLines(s), "\n") == s
    decreases |s|
  {
    var i := LineBreak(s);
    if i < |s| {
      var tail := s[i + 1..];
      assert '\r' !in tail;
      JoinSplit(tail);
      assert s[..i] == [] || s[..i][i - 1] == s[i - 1];
      assert DropCr(s[..i]) == s[..i];
      assert s == s[..i] + "\n" + tail;
    }
  }

  /** Text ending in a line break splits into at least two pieces, the last
      one empty. */
  lemma {:induction false} SplitLinesTrailingEmpty(s: string)
    requires s != [] && s[|s| - 1] == '\n'
    ensures |SplitLines(s)| >= 2 && SplitLines(s)[|SplitLines(s)| - 1] == ""
    decreases |s|
  {
    var i := LineBreak(s);
    var tail := s[i + 1..];
    var rest := SplitLines(tail);
    assert SplitLines(s) == [DropCr(s[..i])] + rest;
    if tail == [] {
      assert rest == [""];
    } else {
      assert tail[|tail| - 1] == s[|s| - 1];
      SplitLinesTrailingEmpty(tail);
    }
  }

  /** Joining lines whose last one is empty ends with the separator. */
  lemma {:induction false} JoinEndsWithSeparator(lines: seq<string>, sep: string)
    requires |lines| >= 2 && lines[|lines| - 1] == ""
    ensures EndsWith(Join(lines, sep), sep)
    decreases |lines|
  {
    var tail := lines[1..];
    if |lines| == 2 {
      assert Join(tail, sep) == "";
      assert Join(lines, sep) == lines[0] + sep;
    } else {
      JoinEndsWithSeparator(tail, sep);
      var j := Join(tail, sep);
      assert j[|j| - |sep|..] == sep;
      var whole := lines[0] + sep + j;
      assert whole[|whole| - |sep|..] == j[|j| - |sep|..];
    }
  }
}
