/** The two pure pieces of the release script: the check a version string must
    pass, and the rewrite of a `Cargo.toml` manifest that replaces the version
    of its `[package]` section and leaves every other line alone. Reading and
    writing the file, and the warnings printed, are not part of the model; the
    rewrite returns `None` where the script skips the file. */
module Release {
  import opened Wrappers
  import opened Text

  // ---------------------------------------------------------------------------
  // Version strings

  /** A character of the pre-release part: ASCII letters, digits, '.' and '-'. */
  predicate IsPreReleaseChar(c: char)
  {
    IsAsciiAlnum(c) || c == '.' || c == '-'
  }

  /** `isValidVersion`: the pattern `^\d+\.\d+\.\d+(-[0-9A-Za-z.-]+)?$`, run as
      a matcher. Each digit run is followed by a character that is not a digit,
      so the greedy runs are the only way the pattern can match. */
  predicate IsValidVersion(version: string)
  {
    var e1 := SkipWhile(version, 0, IsDigit);
    && 0 < e1 < |version| && version[e1] == '.'
    && var e2 := SkipWhile(version, e1 + 1, IsDigit);
    && e1 + 1 < e2 < |version| && version[e2] == '.'
    && var e3 := SkipWhile(version, e2 + 1, IsDigit);
    && e2 + 1 < e3
    && (e3 == |version|
        || (version[e3] == '-' && e3 + 1 < |version|
            && SkipWhile(version, e3 + 1, IsPreReleaseChar) == |version|))
  }

  /** The shape of a version with its two dots at `e1` and `e2` and the patch
      number ending at `e3`: three non-empty digit runs, then either the end or
      a '-' and a non-empty run of pre-release characters. */
  predicate VersionShape(s: string, e1: int, e2: int, e3: int)
  {
    && 0 < e1 && e1 + 1 < e2 && e2 + 1 < e3 <= |s|
    && (forall x :: 0 <= x < e1 ==> IsDigit(s[x]))
    && s[e1] == '.'
    && (forall x :: e1 < x < e2 ==> IsDigit(s[x]))
    && s[e2] == '.'
    && (forall x :: e2 < x < e3 ==> IsDigit(s[x]))
    && (e3 == |s|
        || (s[e3] == '-' && e3 + 1 < |s| && forall x :: e3 < x < |s| ==> IsPreReleaseChar(s[x])))
  }

  /** The validator accepts exactly the strings of that shape. */
  lemma ValidVersionIff(s: string)
    ensures IsValidVersion(s) <==> exists e1, e2, e3 :: VersionShape(s, e1, e2, e3)
  {
    if IsValidVersion(s) {
      var e1 := SkipWhile(s, 0, IsDigit);
      var e2 := SkipWhile(s, e1 + 1, IsDigit);
      var e3 := SkipWhile(s, e2 + 1, IsDigit);
      assert VersionShape(s, e1, e2, e3);
    }
    if e1, e2, e3 :| VersionShape(s, e1, e2, e3) {
      var f1 := SkipWhile(s, 0, IsDigit);
      assert !IsDigit(s[e1]);
      assert f1 < |s| ==> !IsDigit(s[f1]);
      assert f1 == e1;
      var f2 := SkipWhile(s, e1 + 1, IsDigit);
      assert !IsDigit(s[e2]);
      assert f2 < |s| ==> !IsDigit(s[f2]);
      assert f2 == e2;
      var f3 := SkipWhile(s, e2 + 1, IsDigit);
      assert e3 < |s| ==> !IsDigit(s[e3]);
      assert f3 < |s| ==> !IsDigit(s[f3]);
      assert f3 == e3;
      if e3 < |s| {
        var f4 := SkipWhile(s, e3 + 1, IsPreReleaseChar);
        assert f4 < |s| ==> !IsPreReleaseChar(s[f4]);
      }
    }
  }

  /** A plain release and a pre-release pass; a version with two numbers, a
      leading `v`, or a bare `-` after the patch number does not. */
  lemma ValidVersionExamples()
    ensures IsValidVersion("0.0.12")
    ensures IsValidVersion("1.2.3-rc.1")
    ensures !IsValidVersion("1.2")
    ensures !IsValidVersion("v1.2.3")
    ensures !IsValidVersion("1.2.3-")
  {
    assert VersionShape("0.0.12", 1, 3, 6);
    ValidVersionIff("0.0.12");
    assert VersionShape("1.2.3-rc.1", 1, 3, 5);
    ValidVersionIff("1.2.3-rc.1");
  }

  // ---------------------------------------------------------------------------
  // Lines of a manifest

  /** A section header: the trimmed line starts with '[' and ends with ']'. */
  predicate IsHeader(line: string)
  {
    var t := Trim(line);
    t != [] && t[0] == '[' && t[|t| - 1] == ']'
  }

  /** The key `version` starts at `a`. */
  predicate KeyAt(line: string, a: int)
  {
    0 <= a && a + 7 <= |line| && line[a..a + 7] == "version"
  }

  /** The pattern `^(\s*version\s*=\s*")([^"]*)(".*)$` matches `line` with the
      key at `a`, '=' at `b`, the opening quote at `c` and the closing quote at
      `q`; `.` does not match a line terminator, so none follows `q`. */
  predicate IsVersionLineMatch(line: string, a: int, b: int, c: int, q: int)
  {
    && 0 <= a && a + 7 <= b < c < q < |line|
    && (forall x :: 0 <= x < a ==> IsJsSpace(line[x]))
    && KeyAt(line, a)
    && (forall x :: a + 7 <= x < b ==> IsJsSpace(line[x]))
    && line[b] == '='
    && (forall x :: b < x < c ==> IsJsSpace(line[x]))
    && line[c] == '"'
    && (forall x :: c < x < q ==> line[x] != '"')
    && line[q] == '"'
    && (forall x :: q < x < |line| ==> !IsLineTerminator(line[x]))
  }

  predicate IsNotQuote(c: char)
  {
    c != '"'
  }

  predicate IsNotLineTerminator(c: char)
  {
    !IsLineTerminator(c)
  }

  /** The match of the version-line pattern, if any. */
  function MatchVersionLine(line: string): (m: Option<(nat, nat, nat, nat)>)
    ensures m.Some? ==> IsVersionLineMatch(line, m.value.0, m.value.1, m.value.2, m.value.3)
  {
    var a := SkipWhile(line, 0, IsJsSpace);
    if !KeyAt(line, a) then None
    else
      var b := SkipWhile(line, a + 7, IsJsSpace);
      if b == |line| || line[b] != '=' then None
      else
        var c := SkipWhile(line, b + 1, IsJsSpace);
        if c == |line| || line[c] != '"' then None
        else
          var q := SkipWhile(line, c + 1, IsNotQuote);
          if q == |line| || SkipWhile(line, q + 1, IsNotLineTerminator) < |line| then None
          else Some((a, b, c, q))
  }

  /** The runs the matcher skips end at the group boundaries of a match. */
  lemma VersionLineRuns(line: string, a: int, b: int, c: int, q: int)
    requires IsVersionLineMatch(line, a, b, c, q)
    ensures SkipWhile(line, 0, IsJsSpace) == a
    ensures SkipWhile(line, a + 7, IsJsSpace) == b
    ensures SkipWhile(line, b + 1, IsJsSpace) == c
    ensures SkipWhile(line, c + 1, IsNotQuote) == q
    ensures SkipWhile(line, q + 1, IsNotLineTerminator) == |line|
  {
    assert !IsJsSpace(line[a]) by {
      assert line[a] == line[a..a + 7][0] == 'v';
    }
    SkipWhileEnd(line, 0, IsJsSpace, a);
    SkipWhileEnd(line, a + 7, IsJsSpace, b);
    SkipWhileEnd(line, b + 1, IsJsSpace, c);
    SkipWhileEnd(line, c + 1, IsNotQuote, q);
    SkipWhileEnd(line, q + 1, IsNotLineTerminator, |line|);
  }

  /** Every decomposition the pattern accepts is the one the matcher returns. */
  lemma MatchVersionLineComplete(line: string, a: int, b: int, c: int, q: int)
    requires IsVersionLineMatch(line, a, b, c, q)
    ensures MatchVersionLine(line) == Some((a, b, c, q))
  {
    VersionLineRuns(line, a, b, c, q);
  }

  /** The header `[package]`, up to surrounding whitespace. */
  predicate IsPackageHeader(line: string)
  {
    Trim(line) == "[package]"
  }

  /** The value of the section flag after `line`: a header sets it to whether
      the header is `[package]`; any other line leaves it as it was. */
  function NextInPackage(inPackage: bool, line: string): bool
  {
    if IsHeader(line) then IsPackageHeader(line) else inPackage
  }

  /** The callback rewrites `line` when the flag is `inPackage`: a version
      line inside `[package]` that is not a header. */
  predicate RewritesLine(inPackage: bool, line: string)
  {
    inPackage && !IsHeader(line) && MatchVersionLine(line).Some?
  }

  /** A version line with `version` in place of its quoted value: the text up
      to the opening quote, then `version`, then the text from the closing
      quote on. */
  function ReplaceValue(line: string, version: string): string
    requires MatchVersionLine(line).Some?
  {
    var m := MatchVersionLine(line).value;
    line[..m.2 + 1] + version + line[m.3..]
  }

  /** What the `map` callback returns for `line` when the flag is `inPackage`. */
  function RewriteLine(inPackage: bool, line: string, version: string): string
  {
    if RewritesLine(inPackage, line) then ReplaceValue(line, version) else line
  }

  /** The callback's results for `lines` when the flag starts as `inPackage`:
      one line out for each line in. */
  function RewriteFrom(lines: seq<string>, inPackage: bool, version: string): (r: seq<string>)
    ensures |r| == |lines|
    decreases |lines|
  {
    if lines == [] then []
    else [RewriteLine(inPackage, lines[0], version)] + RewriteFrom(lines[1..], NextInPackage(inPackage, lines[0]), version)
  }

  /** The flag after the callback has seen all of `lines`. */
  function InPackageAfter(lines: seq<string>, inPackage: bool): bool
    decreases |lines|
  {
    if lines == [] then inPackage else InPackageAfter(lines[1..], NextInPackage(inPackage, lines[0]))
  }

  /** Whether the callback sets `updated` on some line of `lines`. */
  predicate AnyRewriteFrom(lines: seq<string>, inPackage: bool)
    decreases |lines|
  {
    lines != [] && (RewritesLine(inPackage, lines[0]) || AnyRewriteFrom(lines[1..], NextInPackage(inPackage, lines[0])))
  }

  /** The flag when the callback reaches `lines[k]`. */
  predicate InPackageBefore(lines: seq<string>, k: nat)
    requires k <= |lines|
  {
    InPackageAfter(lines[..k], false)
  }

  /** `lines.map(...)` with the flag starting false. */
  function RewriteLines(lines: seq<string>, version: string): seq<string>
  {
    RewriteFrom(lines, false, version)
  }

  /** Line `k` of the result is the callback's result for `lines[k]` under the
      flag left by the lines before it. */
  lemma {:induction false} RewriteFromAt(lines: seq<string>, inPackage: bool, version: string, k: nat)
    requires k < |lines|
    ensures RewriteFrom(lines, inPackage, version)[k]
         == RewriteLine(InPackageAfter(lines[..k], inPackage), lines[k], version)
    decreases |lines|
  {
    var next := NextInPackage(inPackage, lines[0]);
    if k == 0 {
      assert lines[..k] == [];
    } else {
      RewriteFromAt(lines[1..], next, version, k - 1);
      assert RewriteFrom(lines, inPackage, version)[k] == RewriteFrom(lines[1..], next, version)[k - 1];
      assert lines[..k][1..] == lines[1..][..k - 1];
      assert InPackageAfter(lines[..k], inPackage) == InPackageAfter(lines[1..][..k - 1], next);
    }
  }

  /** The result has as many lines as the input, and a line differs from its
      input line only where it is a version line, not a header, inside
      `[package]`. Headers and every line outside `[package]` (those before
      the first header included) come back unchanged. */
  lemma RewriteLinesChangesOnlyPackageVersion(lines: seq<string>, version: string, k: nat)
    requires k < |lines|
    ensures |RewriteLines(lines, version)| == |lines|
    ensures RewriteLines(lines, version)[k] != lines[k] ==> RewritesLine(InPackageBefore(lines, k), lines[k])
    ensures IsHeader(lines[k]) ==> RewriteLines(lines, version)[k] == lines[k]
    ensures !InPackageBefore(lines, k) ==> RewriteLines(lines, version)[k] == lines[k]
  {
    RewriteFromAt(lines, false, version, k);
  }

  /** The line separator the script writes back: "\r\n" when the file has one. */
  function NewlineOf(raw: string): (newline: string)
    ensures newline == "\r\n" <==> ContainsCrLf(raw)
    ensures newline == "\r\n" || newline == "\n"
  {
    if ContainsCrLf(raw) then "\r\n" else "\n"
  }

  /** Whether the file ended with a line break before the rewrite. */
  predicate HadFinalNewline(raw: string)
  {
    EndsWith(raw, "\n") || EndsWith(raw, "\r\n")
  }

  /** The content written for the split lines of a file, or `None` when no line
      was rewritten: the rewritten lines joined with `newline`, with a final
      `newline` appended when the file had one and the joined text lacks it. */
  function UpdatedLines(lines: seq<string>, newline: string, hadFinalNewline: bool, version: string): Option<string>
  {
    if !AnyRewriteFrom(lines, false) then None
    else
      var content := Join(RewriteLines(lines, version), newline);
      Some(if hadFinalNewline && !EndsWith(content, newline) then content + newline else content)
  }

  /** The file content `updateCargoToml` writes, or `None` when it skips the
      file because no line was rewritten. */
  function UpdatedContent(raw: string, version: string): Option<string>
  {
    UpdatedLines(SplitLines(raw), NewlineOf(raw), HadFinalNewline(raw), version)
  }

  /** The callback passed to `lines.map`, with its two captured flags as
      parameters and results: the line it returns, the new section flag, and
      whether it set `updated`. */
  method Callback(line: string, inPackageSection: bool, version: string)
    returns (next: string, inPackageAfter: bool, rewrote: bool)
    ensures next == RewriteLine(inPackageSection, line, version)
    ensures inPackageAfter == NextInPackage(inPackageSection, line)
    ensures rewrote == RewritesLine(inPackageSection, line)
  {
    next, inPackageAfter, rewrote := line, inPackageSection, false;
    var trimmed := Trim(line);
    if trimmed != [] && trimmed[0] == '[' && trimmed[|trimmed| - 1] == ']' {
      inPackageAfter := trimmed == "[package]";
      assert IsHeader(line);
      assert next == RewriteLine(inPackageSection, line, version);
      return;
    }
    if inPackageSection {
      var m := MatchVersionLine(line);
      if m.Some? {
        rewrote := true;
        next := ReplaceValue(line, version);
        assert RewritesLine(inPackageSection, line);
        assert next == RewriteLine(inPackageSection, line, version);
      } else {
        assert next == RewriteLine(inPackageSection, line, version);
      }
    } else {
      assert next == RewriteLine(inPackageSection, line, version);
    }
  }

  /** The `lines.map` pass of `updateCargoToml`, with `updated` set when the
      callback rewrites a line. */
  method MapLines(lines: seq<string>, version: string) returns (updatedLines: seq<string>, updated: bool)
    ensures updatedLines == RewriteLines(lines, version)
    ensures updated == AnyRewriteFrom(lines, false)
  {
    var inPackageSection := false;
    updated := false;
    updatedLines := [];
    for i := 0 to |lines|
      invariant updatedLines + RewriteFrom(lines[i..], inPackageSection, version) == RewriteLines(lines, version)
      invariant (updated || AnyRewriteFrom(lines[i..], inPackageSection)) == AnyRewriteFrom(lines, false)
    {
      ghost var rest := RewriteFrom(lines[i + 1..], NextInPackage(inPackageSection, lines[i]), version);
      RewriteFromStep(lines, i, inPackageSection, version);
      var next, rewrote;
      next, inPackageSection, rewrote := Callback(lines[i], inPackageSection, version);
      updated := updated || rewrote;
      assert updatedLines + [next] + rest == updatedLines + ([next] + rest);
      updatedLines := updatedLines + [next];
    }
    assert lines[|lines|..] == [];
  }

  /** One step of the fold, at position `i`. */
  lemma RewriteFromStep(lines: seq<string>, i: nat, inPackage: bool, version: string)
    requires i < |lines|
    ensures RewriteFrom(lines[i..], inPackage, version)
         == [RewriteLine(inPackage, lines[i], version)] + RewriteFrom(lines[i + 1..], NextInPackage(inPackage, lines[i]), version)
    ensures AnyRewriteFrom(lines[i..], inPackage)
         == (RewritesLine(inPackage, lines[i]) || AnyRewriteFrom(lines[i + 1..], NextInPackage(inPackage, lines[i])))
  {
    assert lines[i..][1..] == lines[i + 1..];
  }

  /** `updateCargoToml` without the file access: the content written, or `None`
      for a skipped file. */
  method UpdateCargoToml(raw: string, version: string) returns (r: Option<string>)
    ensures r == UpdatedContent(raw, version)
  {
    var newline := if ContainsCrLf(raw) then "\r\n" else "\n";
    var lines := SplitLines(raw);
    var hadFinalNewline := EndsWith(raw, "\n") || EndsWith(raw, "\r\n");
    var updatedLines, updated := MapLines(lines, version);
    if !updated {
      return None;
    }
    var content := Join(updatedLines, newline);
    if hadFinalNewline && !EndsWith(content, newline) {
      content := content + newline;
    }
    return Some(content);
  }

  // ---------------------------------------------------------------------------
  // Properties of the rewrite

  /** The section flag after some lines is decided by the last header among
      them: it is whether that header is `[package]`. */
  lemma {:induction false} InPackageAfterLastHeader(lines: seq<string>, inPackage: bool, h: nat)
    requires h < |lines| && IsHeader(lines[h])
    requires forall x :: h < x < |lines| ==> !IsHeader(lines[x])
    ensures InPackageAfter(lines, inPackage) == IsPackageHeader(lines[h])
    decreases |lines|
  {
    var next := NextInPackage(inPackage, lines[0]);
    var tail := lines[1..];
    forall x | h - 1 < x < |tail|
      ensures !IsHeader(tail[x])
    {
      assert tail[x] == lines[x + 1];
    }
    if h == 0 {
      InPackageAfterNoHeader(tail, next);
    } else {
      assert tail[h - 1] == lines[h];
      InPackageAfterLastHeader(tail, next, h - 1);
    }
  }

  /** Without a header the flag keeps its value. */
  lemma {:induction false} InPackageAfterNoHeader(lines: seq<string>, inPackage: bool)
    requires forall x :: 0 <= x < |lines| ==> !IsHeader(lines[x])
    ensures InPackageAfter(lines, inPackage) == inPackage
    decreases |lines|
  {
    if lines != [] {
      assert !IsHeader(lines[0]);
      var tail := lines[1..];
      forall x | 0 <= x < |tail|
        ensures !IsHeader(tail[x])
      {
        assert tail[x] == lines[x + 1];
      }
      InPackageAfterNoHeader(tail, inPackage);
    }
  }

  /** A file without a `[package]` header is skipped and its lines are left
      as they are. */
  lemma {:induction false} NoPackageHeaderNoRewrite(lines: seq<string>, version: string)
    requires forall x :: 0 <= x < |lines| ==> !IsPackageHeader(lines[x])
    ensures !AnyRewriteFrom(lines, false)
    ensures RewriteFrom(lines, false, version) == lines
    decreases |lines|
  {
    if lines != [] {
      assert !IsPackageHeader(lines[0]);
      assert NextInPackage(false, lines[0]) == false;
      NoPackageHeaderNoRewrite(lines[1..], version);
    }
  }

  lemma NoPackageHeaderSkipped(raw: string, version: string)
    requires forall l :: l in SplitLines(raw) ==> !IsPackageHeader(l)
    ensures UpdatedContent(raw, version) == None
  {
    var lines := SplitLines(raw);
    assert forall x :: 0 <= x < |lines| ==> lines[x] in lines;
    NoPackageHeaderNoRewrite(lines, version);
  }

  /** A file is updated exactly when one of its lines is a version line inside
      `[package]`. */
  lemma {:induction false} AnyRewriteFromWitness(lines: seq<string>, inPackage: bool) returns (k: nat)
    requires AnyRewriteFrom(lines, inPackage)
    ensures k < |lines| && RewritesLine(InPackageAfter(lines[..k], inPackage), lines[k])
    decreases |lines|
  {
    if RewritesLine(inPackage, lines[0]) {
      k := 0;
      assert lines[..0] == [];
    } else {
      var next := NextInPackage(inPackage, lines[0]);
      var j := AnyRewriteFromWitness(lines[1..], next);
      k := j + 1;
      assert lines[..k][1..] == lines[1..][..j];
      assert InPackageAfter(lines[..k], inPackage) == InPackageAfter(lines[1..][..j], next);
    }
  }

  lemma {:induction false} RewriteImpliesAny(lines: seq<string>, inPackage: bool, k: nat)
    requires k < |lines| && RewritesLine(InPackageAfter(lines[..k], inPackage), lines[k])
    ensures AnyRewriteFrom(lines, inPackage)
    decreases k
  {
    if k == 0 {
      assert lines[..0] == [];
    } else {
      var next := NextInPackage(inPackage, lines[0]);
      assert lines[..k][1..] == lines[1..][..k - 1];
      assert InPackageAfter(lines[..k], inPackage) == InPackageAfter(lines[1..][..k - 1], next);
      RewriteImpliesAny(lines[1..], next, k - 1);
    }
  }

  /** Some line is a version line inside `[package]`, judged with the section
      flag as it stands after the lines before it. */
  predicate RewritesSomeLine(lines: seq<string>)
  {
    exists k :: 0 <= k < |lines| && RewritesLine(InPackageBefore(lines, k), lines[k])
  }

  /** The `updated` flag ends true exactly when one of the lines is a version
      line inside `[package]`. */
  lemma AnyRewriteIff(lines: seq<string>)
    ensures AnyRewriteFrom(lines, false) <==> RewritesSomeLine(lines)
  {
    if AnyRewriteFrom(lines, false) {
      var k := AnyRewriteFromWitness(lines, false);
    }
    forall k | 0 <= k < |lines| && RewritesLine(InPackageBefore(lines, k), lines[k])
      ensures AnyRewriteFrom(lines, false)
    {
      RewriteImpliesAny(lines, false, k);
    }
  }

  /** The file is skipped exactly when none of its lines is a version line
      inside `[package]`. */
  lemma UpdatedContentNoneIff(raw: string, version: string)
    ensures UpdatedContent(raw, version).None?
        <==> !RewritesSomeLine(SplitLines(raw))
  {
    AnyRewriteIff(SplitLines(raw));
  }

  /** A line whose first non-whitespace character is not '[' is not a
      header. */
  lemma NotHeaderAt(line: string, a: nat)
    requires a < |line| && !IsJsSpace(line[a]) && line[a] != '['
    requires forall x :: 0 <= x < a ==> IsJsSpace(line[x])
    ensures !IsHeader(line)
  {
    TrimStartAt(line, a);
    TrimEndSpec(line[a..]);
  }

  /** Putting a value without '"' between the quotes of a version line gives
      a version line with the same key, '=' and opening quote. */
  lemma ReplacedIsVersionLine(line: string, a: int, b: int, c: int, q: int, version: string)
    requires IsVersionLineMatch(line, a, b, c, q) && '"' !in version
    ensures IsVersionLineMatch(line[..c + 1] + version + line[q..], a, b, c, c + 1 + |version|)
  {
    var r := line[..c + 1] + version + line[q..];
    var q2 := c + 1 + |version|;
    assert forall x :: 0 <= x <= c ==> r[x] == line[x];
    assert forall x :: q2 <= x < |r| ==> r[x] == line[x - q2 + q];
    assert r[a..a + 7] == line[a..a + 7];
    forall x | c < x < q2
      ensures r[x] != '"'
    {
      assert r[x] == version[x - c - 1];
    }
  }

  /** The replaced line is again a version line, with the same key, '=' and
      opening quote, and its quoted value reads back as `version` when
      `version` holds no '"'. It is not a header. */
  lemma ReplacedLineReadBack(line: string, version: string, a: nat, b: nat, c: nat, q: nat)
    requires IsVersionLineMatch(line, a, b, c, q) && '"' !in version
    ensures MatchVersionLine(line[..c + 1] + version + line[q..]) == Some((a, b, c, c + 1 + |version|))
    ensures (line[..c + 1] + version + line[q..])[c + 1..c + 1 + |version|] == version
    ensures !IsHeader(line[..c + 1] + version + line[q..])
  {
    var r := line[..c + 1] + version + line[q..];
    ReplacedIsVersionLine(line, a, b, c, q, version);
    MatchVersionLineComplete(r, a, b, c, c + 1 + |version|);
    assert r[c + 1..c + 1 + |version|] == version;
    assert r[a] == 'v' by {
      assert r[a] == r[a..a + 7][0];
    }
    NotHeaderAt(r, a);
  }

  /** Replacing the value of an already replaced line with the same value. */
  lemma ReplaceTwice(line: string, version: string, c: nat, q: nat)
    requires c < q <= |line|
    ensures var r := line[..c + 1] + version + line[q..];
            r[..c + 1] + version + r[c + 1 + |version|..] == r
  {
    var r := line[..c + 1] + version + line[q..];
    assert r[..c + 1] == line[..c + 1];
    assert r[c + 1 + |version|..] == line[q..];
  }

  /** Every character of a callback result comes from the line or from the
      new version. */
  lemma RewriteLineChars(inPackage: bool, line: string, version: string)
    ensures forall ch :: ch in RewriteLine(inPackage, line, version) ==> ch in line || ch in version
  {
    if RewritesLine(inPackage, line) {
      ReplaceValueChars(line, version);
    }
  }

  lemma ReplaceValueChars(line: string, version: string)
    requires MatchVersionLine(line).Some?
    ensures forall ch :: ch in ReplaceValue(line, version) ==> ch in line || ch in version
  {
    var m := MatchVersionLine(line).value;
    assert ReplaceValue(line, version) == line[..m.2 + 1] + version + line[m.3..];
  }

  /** Rewriting a line a second time with the same version changes nothing,
      and leaves the section flag as the first pass did. */
  lemma RewriteLineStable(inPackage: bool, line: string, version: string)
    requires '"' !in version
    ensures var r := RewriteLine(inPackage, line, version);
            && NextInPackage(inPackage, r) == NextInPackage(inPackage, line)
            && RewriteLine(inPackage, r, version) == r
  {
    if RewritesLine(inPackage, line) {
      var m := MatchVersionLine(line).value;
      RewriteLineAt(inPackage, line, version, m.0, m.1, m.2, m.3);
      ReplacedLineStable(line, version, m.0, m.1, m.2, m.3);
    }
  }

  /** The replaced line is rewritten to itself inside `[package]`. */
  lemma ReplacedLineStable(line: string, version: string, a: nat, b: nat, c: nat, q: nat)
    requires IsVersionLineMatch(line, a, b, c, q) && '"' !in version
    ensures var r := line[..c + 1] + version + line[q..];
            !IsHeader(r) && RewriteLine(true, r, version) == r
  {
    var r := line[..c + 1] + version + line[q..];
    ReplacedIsVersionLine(line, a, b, c, q, version);
    assert r[c + 1..c + 1 + |version|] == version;
    VersionLineFacts(r, a, b, c, c + 1 + |version|);
    RewriteMatchedValue(r, version, a, b, c, c + 1 + |version|);
  }

  /** A version line is not a header, and the matcher finds it. */
  lemma VersionLineFacts(line: string, a: nat, b: nat, c: nat, q: nat)
    requires IsVersionLineMatch(line, a, b, c, q)
    ensures !IsHeader(line) && MatchVersionLine(line) == Some((a, b, c, q))
  {
    assert line[a] == line[a..a + 7][0];
    NotHeaderAt(line, a);
    MatchVersionLineComplete(line, a, b, c, q);
  }

  /** A version line whose value already is `version` is rewritten to itself. */
  lemma RewriteMatchedValue(line: string, version: string, a: nat, b: nat, c: nat, q: nat)
    requires !IsHeader(line) && MatchVersionLine(line) == Some((a, b, c, q))
    requires c + 1 <= q <= |line| && line[c + 1..q] == version
    ensures RewriteLine(true, line, version) == line
  {
    ThreePieces(line, c + 1, q, version);
    RewriteLineAt(true, line, version, a, b, c, q);
  }

  /** A version line inside `[package]` gets its quoted value replaced. */
  lemma RewriteLineAt(inPackage: bool, line: string, version: string, a: nat, b: nat, c: nat, q: nat)
    requires inPackage && !IsHeader(line) && MatchVersionLine(line) == Some((a, b, c, q))
    ensures RewriteLine(inPackage, line, version) == line[..c + 1] + version + line[q..]
  {
  }

  lemma {:induction false} RewriteFromIdempotent(lines: seq<string>, inPackage: bool, version: string)
    requires '"' !in version
    ensures RewriteFrom(RewriteFrom(lines, inPackage, version), inPackage, version) == RewriteFrom(lines, inPackage, version)
    decreases |lines|
  {
    if lines != [] {
      var r := RewriteFrom(lines, inPackage, version);
      var next := NextInPackage(inPackage, lines[0]);
      RewriteLineStable(inPackage, lines[0], version);
      RewriteFromIdempotent(lines[1..], next, version);
      assert r[1..] == RewriteFrom(lines[1..], next, version);
    }
  }

  /** Rewriting the rewritten lines again with the same version gives them
      back: a second release run with the same version is a no-op. */
  lemma RewriteLinesIdempotent(lines: seq<string>, version: string)
    requires '"' !in version
    ensures RewriteLines(RewriteLines(lines, version), version) == RewriteLines(lines, version)
  {
    RewriteFromIdempotent(lines, false, version);
  }

  /** A file that ended with a line break still does, with the separator the
      script writes; the join already ends with it, so the script's append of
      a final newline never adds a second one. */
  lemma FinalNewlineKept(raw: string, version: string)
    requires UpdatedContent(raw, version).Some?
    requires HadFinalNewline(raw)
    ensures UpdatedContent(raw, version).value == Join(RewriteLines(SplitLines(raw), version), NewlineOf(raw))
    ensures EndsWith(UpdatedContent(raw, version).value, NewlineOf(raw))
  {
    assert raw[|raw| - 1] == '\n' by {
      if EndsWith(raw, "\r\n") {
        assert raw[|raw| - 1] == raw[|raw| - 2..][1];
      } else {
        assert raw[|raw| - 1] == raw[|raw| - 1..][0];
      }
    }
    SplitLinesTrailingEmpty(raw);
    FinalNewlineKeptLines(SplitLines(raw), NewlineOf(raw), version);
  }

  /** When the last piece is empty, the joined rewritten lines already end with
      the separator, so nothing is appended. */
  lemma FinalNewlineKeptLines(lines: seq<string>, newline: string, version: string)
    requires AnyRewriteFrom(lines, false)
    requires |lines| >= 2 && lines[|lines| - 1] == ""
    ensures UpdatedLines(lines, newline, true, version) == Some(Join(RewriteLines(lines, version), newline))
    ensures EndsWith(Join(RewriteLines(lines, version), newline), newline)
  {
    var k := |lines| - 1;
    RewriteLinesChangesOnlyPackageVersion(lines, version, k);
    assert MatchVersionLine(lines[k]) == None;
    JoinEndsWithSeparator(RewriteLines(lines, version), newline);
  }

  /** A rewritten line ends with the same character as the original. */
  lemma RewriteLineKeepsEnd(inPackage: bool, line: string, version: string)
    ensures var r := RewriteLine(inPackage, line, version);
            && (r == [] <==> line == [])
            && (r != [] ==> r[|r| - 1] == line[|line| - 1])
  {
    if RewritesLine(inPackage, line) {
      var m := MatchVersionLine(line).value;
      var r := line[..m.2 + 1] + version + line[m.3..];
      assert ReplaceValue(line, version) == r;
      assert r[|r| - 1] == line[|line| - 1];
    }
  }

  /** Lines that hold no '\n' and do not end with '\r' stay so when rewritten
      with a version holding no '\n'. */
  lemma RewriteLinesKeepBreaksOut(lines: seq<string>, version: string)
    requires forall l :: l in lines ==> '\n' !in l && (l == [] || l[|l| - 1] != '\r')
    requires '\n' !in version
    ensures forall l :: l in RewriteLines(lines, version) ==> '\n' !in l && (l == [] || l[|l| - 1] != '\r')
  {
    var rl := RewriteLines(lines, version);
    forall l | l in rl
      ensures '\n' !in l && (l == [] || l[|l| - 1] != '\r')
    {
      var k :| 0 <= k < |rl| && rl[k] == l;
      RewriteFromAt(lines, false, version, k);
      var p := InPackageAfter(lines[..k], false);
      assert lines[k] in lines;
      RewriteLineChars(p, lines[k], version);
      RewriteLineKeepsEnd(p, lines[k], version);
    }
  }

  /** Splitting the written content again gives the rewritten lines, provided
      no line of the file ends with a stray '\r' and the version holds no line
      break. */
  lemma UpdatedContentReadBack(raw: string, version: string)
    requires UpdatedContent(raw, version).Some?
    requires forall l :: l in SplitLines(raw) ==> l == [] || l[|l| - 1] != '\r'
    requires '\n' !in version
    ensures SplitLines(UpdatedContent(raw, version).value) == RewriteLines(SplitLines(raw), version)
  {
    var lines := SplitLines(raw);
    var rl := RewriteLines(lines, version);
    RewriteLinesKeepBreaksOut(lines, version);
    if HadFinalNewline(raw) {
      FinalNewlineKept(raw, version);
    }
    assert UpdatedContent(raw, version).value == Join(rl, NewlineOf(raw));
    SplitJoin(rl, NewlineOf(raw));
  }
}
